/** Label injection preserves the meaning of sample lines, and of whole texts. */
module Injection {
  import opened Text
  import opened Exposition
  import opened Relabel
  import opened RelabelProofs

  // ---- White space around a line -------------------------------------------

  lemma {:induction false} TrimLeftExact(p: string, s: string)
    requires Blank(p) && s != "" && IsSolid(s[0])
    ensures TrimLeftSpace(p + s) == s
  {
    if p == "" {
      assert p + s == s;
    } else {
      assert p[0] in p && (p + s)[0] == p[0];
      assert (p + s)[1..] == p[1..] + s;
      TrimLeftExact(p[1..], s);
    }
  }

  lemma {:induction false} TrimRightSpaceExact(s: string, q: string)
    requires Blank(q) && s != "" && IsSolid(s[|s| - 1])
    ensures TrimRightSpace(s + q) == s
  {
    if q == "" {
      assert s + q == s;
    } else {
      var n := |q| - 1;
      assert q[n] in q && (s + q)[|s + q| - 1] == q[n];
      assert (s + q)[..|s + q| - 1] == s + q[..n];
      TrimRightSpaceExact(s, q[..n]);
    }
  }

  lemma TrimSpaceExact(p: string, s: string, q: string)
    requires Blank(p) && Blank(q) && s != "" && IsSolid(s[0]) && IsSolid(s[|s| - 1])
    ensures TrimSpace(p + s + q) == s
  {
    Assoc3(p, s, q);
    TrimLeftExact(p, s + q);
    TrimRightSpaceExact(s, q);
  }

  // ---- The rewritten line -------------------------------------------------

  function Spliced(body: string, f: string): string {
    if body == "" then f else body + "," + f
  }

  lemma HeadFacts(name: string, mid: string)
    requires ValidMetricName(name) && Blank(mid)
    ensures '{' !in name + mid && '}' !in name + mid
    ensures IsSolid(name[0]) && name[0] != '#'
  {
    assert name[0] in name;
    assert forall c :: c in name ==> IsNameChar(c);
  }

  function Braced(head: string, body: string, tail: string): string {
    head + "{" + body + "}" + tail
  }

  /** The first `{` and the last `}` delimit the label block, whatever braces its
      label values contain. */
  lemma BraceSplit(head: string, body: string, tail: string)
    requires '{' !in head && '}' !in tail
    ensures var s := Braced(head, body, tail);
      && IndexByte(s, '{') == |head|
      && LastIndexByte(s, '}') == |head| + 1 + |body|
      && s[..|head|] == head
      && s[|head| + 1..|head| + 1 + |body|] == body
      && s[|head| + 1 + |body| + 1..] == tail
  {
    var s := Braced(head, body, tail);
    var left := head + "{" + body;
    assert s[|head|] == '{' && s[|left|] == '}';
    Assoc5(head, "{", body, "}", tail);
    CutAt(head, "{" + (body + ("}" + tail)));
    CutAt(left + "}", tail);
    Assoc3(left, "}", tail);
    CutAt(left, "}" + tail);
    CutAt(head + "{", body);
    assert s[|head| + 1..|left|] == s[..|left|][|head| + 1..];
    IndexByteAt(s, '{', |head|);
    LastIndexByteAt(s, '}', |left|);
  }

  lemma InjectAt(line: string, s: string, f: string, head: string, body: string, tail: string)
    requires IndexByte(s, '{') == |head| && LastIndexByte(s, '}') == |head| + 1 + |body|
    requires s != "" && s[0] != '#'
    requires s[..|head|] == head && s[|head| + 1..|head| + 1 + |body|] == body
    requires s[|head| + 1 + |body| + 1..] == tail
    ensures InjectTrimmed(line, s, f) == Braced(head, Spliced(body, f), tail)
  {
    SpliceText(head + "{", body, f);
  }

  lemma InjectBraced(line: string, head: string, body: string, tail: string, f: string)
    requires head == "" || head[0] != '#'
    requires '{' !in head && '}' !in tail
    ensures InjectTrimmed(line, Braced(head, body, tail), f) == Braced(head, Spliced(body, f), tail)
  {
    var s := Braced(head, body, tail);
    BraceSplit(head, body, tail);
    BracedHead(head, body, tail);
    InjectAt(line, s, f, head, body, tail);
  }

  lemma BracedHead(head: string, body: string, tail: string)
    ensures head == "" ==> Braced(head, body, tail)[0] == '{'
    ensures head != "" ==> Braced(head, body, tail)[0] == head[0]
  {
  }

  lemma SpliceText(start: string, body: string, f: string)
    ensures start + (if |body| > 0 then body + "," else "") + f == start + Spliced(body, f)
  {
    if body == "" {
      assert start + "" == start;
    } else {
      Assoc3(start, body + ",", f);
    }
  }

  lemma InjectBlockLine(line: string, h: Shape, f: string)
    requires IsShape(line, h) && h.WithBlock?
    ensures InjectLine(line, f) == Braced(h.name + h.mid, Spliced(h.body, f), h.tail)
  {
    hide InjectTrimmed, TrimSpace, Spliced, ParseBlock, ParseTail, ParseSample, Finish;
    var head := h.name + h.mid;
    var trimmed := Braced(head, h.body, h.tail);
    HeadFacts(h.name, h.mid);
    assert trimmed[0] == h.name[0] && trimmed[|trimmed| - 1] == h.tail[|h.tail| - 1];
    LineText(line, h);
    TrimSpaceExact(h.pre, trimmed, h.post);
    InjectBraced(line, head, h.body, h.tail, f);
  }

  lemma LineText(line: string, h: Shape)
    requires h.WithBlock? && line == h.pre + h.name + h.mid + "{" + h.body + "}" + h.tail + h.post
    ensures line == h.pre + Braced(h.name + h.mid, h.body, h.tail) + h.post
  {
    var s := Braced(h.name + h.mid, h.body, h.tail);
    assert h.pre + h.name + h.mid + "{" + h.body + "}" + h.tail == h.pre + s;
  }

  lemma InjectUnbraced(line: string, name: string, tail: string, f: string)
    requires name != "" && name[0] != '#' && tail != "" && IsBlank(tail[0])
    requires forall c :: c in name ==> !IsBlank(c)
    requires '{' !in name + tail
    ensures InjectTrimmed(line, name + tail, f) == Braced(name, f, tail)
  {
    TokenLenExact(name, tail);
    CutAt(name, tail);
  }

  lemma InjectPlainLine(line: string, h: Shape, f: string)
    requires IsShape(line, h) && h.Plain?
    ensures InjectLine(line, f) == Braced(h.name, f, h.tail)
  {
    hide InjectTrimmed, TrimSpace, ParseBlock, ParseTail, ParseSample, Finish;
    var trimmed := h.name + h.tail;
    HeadFacts(h.name, "");
    assert h.name + "" == h.name;
    assert trimmed[0] == h.name[0] && trimmed[|trimmed| - 1] == h.tail[|h.tail| - 1];
    Assoc3(h.pre, h.name, h.tail);
    TrimSpaceExact(h.pre, trimmed, h.post);
    assert forall c :: c in h.name ==> IsNameChar(c);
    InjectUnbraced(line, h.name, h.tail, f);
  }

  // ---- Samples -------------------------------------------------------------

  /** The text between the first `{` and the last `}` is empty or ends with a
      label: no trailing comma, and not blanks alone. */
  predicate Appendable(line: string) {
    var open := IndexByte(line, '{');
    var close := LastIndexByte(line, '}');
    open >= 0 ==>
      close > open && (close == open + 1 || EndsWithLabel(line[open + 1..close]))
  }

  ghost predicate NewNames(labels: seq<Label>, m: map<string, string>) {
    forall i :: 0 <= i < |labels| ==> labels[i].0 !in m
  }

  lemma DistinctAppend(ls: seq<Label>, m: map<string, string>)
    requires DistinctNames(ls)
    ensures DistinctNames(ls + SortedLabels(m)) <==> NewNames(ls, m)
  {
    var es := SortedLabels(m);
    SortedLabelsFacts(m);
    var all := ls + es;
    if DistinctNames(all) {
      forall i, j | 0 <= i < |ls| && 0 <= j < |es| ensures ls[i].0 != es[j].0 {
        assert all[i] == ls[i] && all[|ls| + j] == es[j];
      }
      assert forall k :: k in m ==> (k, m[k]) in es;
    }
    if NewNames(ls, m) {
      forall i, j | 0 <= i < j < |all| ensures all[i].0 != all[j].0 {
        if i < |ls| && j >= |ls| {
          assert all[j] == es[j - |ls|] && es[j - |ls|].0 in m;
        }
      }
    }
  }

  lemma BracedAppendable(head: string, body: string, tail: string)
    requires '{' !in head && '}' !in tail
    ensures Appendable(Braced(head, body, tail)) <==> body == "" || EndsWithLabel(body)
  {
    hide TrimRightBlanks, EndsWithLabel;
    BraceSplit(head, body, tail);
  }

  lemma ShapeAppendable(line: string, h: Shape)
    requires IsShape(line, h) && h.WithBlock?
    ensures Appendable(line) <==> h.body == "" || EndsWithLabel(h.body)
  {
    hide Appendable, EndsWithLabel, ParseBlock, ParseTail, ParseSample, Finish;
    var head := h.pre + h.name + h.mid;
    HeadFacts(h.name, h.mid);
    assert '{' !in head by { Assoc3(h.pre, h.name, h.mid); }
    assert '}' !in h.tail + h.post;
    Assoc3(head + "{" + h.body + "}", h.tail, h.post);
    BracedAppendable(head, h.body, h.tail + h.post);
  }

  /** Reading the rewritten block: the old labels, then the extras in order. */
  lemma SplicedParses(body: string, tail: string, m: map<string, string>)
    requires ParseBlock(body + "}" + tail).Got? && ParseBlock(body + "}" + tail).rest == tail
    requires ValidKeys(m)
    ensures ParseBlock(Spliced(body, Format(m)) + "}" + tail)
         == if body == "" || EndsWithLabel(body)
            then Got(ParseBlock(body + "}" + tail).item + SortedLabels(m), tail)
            else Fail
  {
    FormatRoundTrip(m, tail);
    var x := Format(m) + "}" + tail;
    if body == "" {
      assert body + "}" + tail == "}" + tail;
      SkipBlanksNone("}" + tail);
      assert [] + SortedLabels(m) == SortedLabels(m);
    } else {
      ParseBlockExtend(body, tail, x);
      Assoc4(body + ",", Format(m), "}", tail);
      Assoc3(Format(m), "}", tail);
      assert Spliced(body, Format(m)) + "}" + tail == body + "," + x;
    }
  }

  lemma ParseBraced(name: string, mid: string, body: string, tail: string)
    requires Blank(mid) && ValidMetricName(name)
    ensures ParseSample(Braced(name + mid, body, tail))
         == match ParseBlock(body + "}" + tail) case Fail => None case Got(ls, rest) => Finish(name, ls, rest)
  {
    var s := body + "}" + tail;
    ParseSampleBlock("", name, mid, s);
    assert "" + name == name;
    Assoc4(name + mid + "{", body, "}", tail);
    Assoc3(body, "}", tail);
  }

  /** A rewritten line with a block, read back. */
  lemma BlockLineMeaning(line: string, h: Shape, m: map<string, string>)
    requires IsShape(line, h) && h.WithBlock? && ValidKeys(m)
    ensures ParseSample(InjectLine(line, Format(m)))
         == if Appendable(line)
            then Finish(h.name, ParseBlock(h.body + "}" + h.tail).item + SortedLabels(m), h.tail)
            else None
  {
    InjectBlockLine(line, h, Format(m));
    ShapeAppendable(line, h);
    SplicedParses(h.body, h.tail, m);
    ParseBraced(h.name, h.mid, Spliced(h.body, Format(m)), h.tail);
  }

  lemma PlainLineMeaning(line: string, h: Shape, m: map<string, string>)
    requires IsShape(line, h) && h.Plain? && ValidKeys(m)
    ensures ParseSample(InjectLine(line, Format(m))) == Finish(h.name, [] + SortedLabels(m), h.tail)
  {
    InjectPlainLine(line, h, Format(m));
    FormatRoundTrip(m, h.tail);
    ParseBraced(h.name, "", Format(m), h.tail);
    assert h.name + "" == h.name;
    assert [] + SortedLabels(m) == SortedLabels(m);
  }

  lemma FinishMeaning(name: string, ls: seq<Label>, tail: string, m: map<string, string>)
    requires Finish(name, ls, tail).Some?
    ensures Finish(name, ls + SortedLabels(m), tail)
         == if NewNames(ls, m) then Some(Finish(name, ls, tail).value.(labels := ls + SortedLabels(m))) else None
  {
    DistinctAppend(ls, m);
  }

  ghost function WithExtras(x: Sample, m: map<string, string>): Sample {
    x.(labels := x.labels + SortedLabels(m))
  }

  /** With valid extra names, injection into a well-formed line either gives the
      same sample with the extras appended, or a malformed line; and which of the
      two is decided by the line's label block. */
  lemma InjectMeaning(line: string, m: map<string, string>)
    requires ParseSample(line).Some? && ValidKeys(m)
    ensures ParseSample(InjectLine(line, Format(m)))
         == if Appendable(line) && NewNames(ParseSample(line).value.labels, m)
            then Some(WithExtras(ParseSample(line).value, m))
            else None
  {
    var h := SampleShape(line);
    if h.WithBlock? {
      BlockLineMeaning(line, h, m);
      FinishMeaning(h.name, ParseBlock(h.body + "}" + h.tail).item, h.tail, m);
    } else {
      PlainLineMeaning(line, h, m);
      FinishMeaning(h.name, [], h.tail, m);
    }
  }

  /** A sample that was read has valid label names. */
  lemma ParsedSampleValid(line: string)
    requires ParseSample(line).Some?
    ensures ValidNames(ParseSample(line).value.labels)
  {
    var a := SkipBlanks(line);
    var b := SkipBlanks(a[NameLen(a)..]);
    if b != "" && b[0] == '{' { ParsedNamesValid(b[1..]); }
  }

  /** Exactly when injection preserves meaning: name, value and timestamp kept,
      labels equal to the old ones followed by the sorted extras. */
  lemma InjectPreservesMeaning(line: string, m: map<string, string>)
    requires ParseSample(line).Some?
    ensures ParseSample(InjectLine(line, Format(m))) == Some(WithExtras(ParseSample(line).value, m))
       <==> Appendable(line) && NewNames(ParseSample(line).value.labels, m) && ValidKeys(m)
  {
    var x := ParseSample(line).value;
    var all := x.labels + SortedLabels(m);
    if ValidKeys(m) {
      InjectMeaning(line, m);
    } else if ParseSample(InjectLine(line, Format(m))) == Some(WithExtras(x, m)) {
      ParsedSampleValid(InjectLine(line, Format(m)));
      forall i | 0 <= i < |SortedLabels(m)| ensures ValidLabelName(SortedLabels(m)[i].0) {
        assert all[|x.labels| + i] == SortedLabels(m)[i];
      }
      SortedLabelsFacts(m);
    }
  }
}
