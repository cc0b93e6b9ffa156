/** Injection as an operation on whole texts: it works line by line, it commutes
    with concatenation, and two injections in a row are one. */
module InjectionLaws {
  import opened Text
  import opened Exposition
  import opened Relabel
  import opened RelabelProofs
  import opened Injection

  // ---- Concatenation -------------------------------------------------------

  ghost predicate WholeLines(a: string) {
    a == "" || a[|a| - 1] == '\n'
  }

  lemma RawLinesCons(l: string, s: string)
    requires '\n' !in l
    ensures RawLines(l + "\n" + s) == [l] + RawLines(s)
  {
    var t := l + "\n" + s;
    Assoc3(l, "\n", s);
    CutAt(l, "\n" + s);
    CutAt(l + "\n", s);
    IndexByteAt(t, '\n', |l|);
  }

  /** A text of whole lines starts with one. */
  lemma FirstWholeLine(a: string) returns (l: string, rest: string)
    requires WholeLines(a) && a != ""
    ensures a == l + "\n" + rest && '\n' !in l && WholeLines(rest)
  {
    assert a[|a| - 1] in a;
    var i := IndexByte(a, '\n');
    l, rest := a[..i], a[i + 1..];
  }

  lemma {:induction false} RawLinesAppend(a: string, b: string)
    requires WholeLines(a)
    ensures RawLines(a + b) == RawLines(a) + RawLines(b)
    decreases |a|
  {
    RawLinesOfNothing();
    hide RawLines, WholeLines;
    if a == "" {
      assert a + b == b;
    } else {
      var l, rest := FirstWholeLine(a);
      RawLinesAppend(rest, b);
      RawLinesCons(l, rest);
      RawLinesCons(l, rest + b);
      Assoc3(l + "\n", rest, b);
      assert [l] + RawLines(rest) + RawLines(b) == [l] + (RawLines(rest) + RawLines(b));
    }
  }

  lemma RawLinesOfNothing()
    ensures RawLines("") == []
  {
  }

  lemma {:induction false} DropCRsAppend(a: seq<string>, b: seq<string>)
    ensures DropCRs(a + b) == DropCRs(a) + DropCRs(b)
  {
    if a == [] {
      assert a + b == b;
    } else {
      assert (a + b)[1..] == a[1..] + b;
      DropCRsAppend(a[1..], b);
    }
  }

  function Concat(r: Result, s: Result): Result {
    if r.Ok? && s.Ok? then Ok(r.text + s.text) else ScanError
  }

  /** Injecting into a text and its continuation is injecting into each. */
  lemma InjectHomomorphism(a: string, b: string, m: map<string, string>, limit: nat)
    requires WholeLines(a)
    ensures Inject(a + b, m, limit) == Concat(Inject(a, m, limit), Inject(b, m, limit))
  {
    RawLinesAppend(a, b);
    assert TooLong(a + b, limit) <==> TooLong(a, limit) || TooLong(b, limit);
    DropCRsAppend(RawLines(a), RawLines(b));
    InjectLinesAppend(Lines(a), Lines(b), Format(m));
  }

  // ---- Line by line --------------------------------------------------------

  function InjectEach(ls: seq<string>, f: string): (r: seq<string>)
    ensures |r| == |ls|
    ensures forall i :: 0 <= i < |ls| ==> r[i] == InjectLine(ls[i], f)
  {
    if ls == [] then [] else [InjectLine(ls[0], f)] + InjectEach(ls[1..], f)
  }

  lemma InjectLineNoNewline(line: string, f: string)
    requires '\n' !in line && '\n' !in f
    ensures '\n' !in InjectLine(line, f)
  {
    TrimSpaceChars(line);
    InjectTrimmedNoNewline(line, TrimSpace(line), f);
  }

  lemma InjectTrimmedNoNewline(line: string, t: string, f: string)
    requires '\n' !in line && '\n' !in f && '\n' !in t
    ensures '\n' !in InjectTrimmed(line, t, f)
  {
  }

  lemma {:induction false} RawLinesFacts(s: string)
    ensures forall l :: l in RawLines(s) ==> '\n' !in l && (forall c :: c in l ==> c in s)
    decreases |s|
  {
    if '\n' in s {
      var i := IndexByte(s, '\n');
      var l, rest := s[..i], s[i + 1..];
      assert s == l + "\n" + rest;
      RawLinesFacts(rest);
      RawLinesCons(l, rest);
      forall k | k in RawLines(s) ensures '\n' !in k && (forall c :: c in k ==> c in s) {
        assert k == l || k in RawLines(rest);
      }
    }
  }

  lemma LinesFacts(s: string)
    ensures forall l :: l in Lines(s) ==> '\n' !in l && (forall c :: c in l ==> c in s)
    ensures '\r' !in s ==> Lines(s) == RawLines(s)
  {
    RawLinesFacts(s);
    forall l | l in Lines(s) ensures '\n' !in l && (forall c :: c in l ==> c in s) {
      var i :| 0 <= i < |Lines(s)| && Lines(s)[i] == l;
      assert RawLines(s)[i] in RawLines(s);
    }
    if '\r' !in s {
      forall i | 0 <= i < |Lines(s)| ensures Lines(s)[i] == RawLines(s)[i] {
        assert RawLines(s)[i] in RawLines(s);
      }
    }
  }

  lemma {:induction false} RawLinesOfInjected(ls: seq<string>, f: string)
    requires forall l :: l in ls ==> '\n' !in l
    requires '\n' !in f
    ensures RawLines(InjectLines(ls, f)) == InjectEach(ls, f)
    ensures WholeLines(InjectLines(ls, f))
  {
    if ls != [] {
      var l := InjectLine(ls[0], f);
      assert ls[0] in ls;
      InjectLineNoNewline(ls[0], f);
      RawLinesOfInjected(ls[1..], f);
      RawLinesCons(l, InjectLines(ls[1..], f));
    }
  }

  ghost predicate OneLineNames(ls: seq<Label>) {
    forall i :: 0 <= i < |ls| ==> '\n' !in ls[i].0
  }

  /** No name holds a newline; values may hold anything. */
  ghost predicate OneLineKeys(m: map<string, string>) {
    forall k :: k in m ==> '\n' !in k
  }

  lemma ValidIsOneLine(m: map<string, string>)
    ensures ValidKeys(m) ==> OneLineKeys(m)
  {
    if ValidKeys(m) {
      forall k | k in m ensures '\n' !in k {
        assert forall c :: c in k ==> IsNameChar(c);
      }
    }
  }

  lemma RenderLabelNewline(l: Label)
    ensures '\n' in RenderLabel(l) <==> '\n' in l.0
  {
    EscapeRoundTrip(l.1, "");
  }

  /** A newline in rendered labels comes from a name. */
  lemma {:induction false} RenderNewline(ls: seq<Label>)
    ensures '\n' in RenderLabels(ls) <==> !OneLineNames(ls)
  {
    hide RenderLabel;
    if ls != [] {
      RenderLabelNewline(ls[0]);
      RenderNewline(ls[1..]);
      OneLineStep(ls);
    }
  }

  lemma OneLineStep(ls: seq<Label>)
    requires ls != []
    ensures OneLineNames(ls) <==> '\n' !in ls[0].0 && OneLineNames(ls[1..])
  {
    assert ls == [ls[0]] + ls[1..];
  }

  lemma FormatNewline(m: map<string, string>)
    ensures '\n' in Format(m) <==> !OneLineKeys(m)
  {
    var ls := SortedLabels(m);
    SortedLabelsFacts(m);
    RenderNewline(ls);
    if OneLineNames(ls) {
      forall k | k in m ensures '\n' !in k {
        assert (k, m[k]) in ls;
      }
    }
  }

  /** The output has the same lines in the same order, each rewritten on its own;
      blank lines and comments come through unchanged. */
  lemma InjectKeepsLines(raw: string, m: map<string, string>, limit: nat)
    requires m != map[] && OneLineKeys(m) && Inject(raw, m, limit).Ok?
    ensures RawLines(Inject(raw, m, limit).text) == InjectEach(Lines(raw), Format(m))
    ensures |RawLines(Inject(raw, m, limit).text)| == |RawLines(raw)|
    ensures WholeLines(Inject(raw, m, limit).text)
    ensures forall i :: 0 <= i < |Lines(raw)| && IsComment(Lines(raw)[i])
              ==> RawLines(Inject(raw, m, limit).text)[i] == Lines(raw)[i]
  {
    LinesFacts(raw);
    FormatNewline(m);
    RawLinesOfInjected(Lines(raw), Format(m));
  }

  /** Which lines have the extras written into them. */
  predicate IsRewritten(line: string) {
    var t := TrimSpace(line);
    && t != "" && t[0] != '#'
    && if '{' in t then IndexByte(t, '{') < LastIndexByte(t, '}') else IndexBlank(t) >= 0
  }

  lemma RewrittenNewline(line: string, f: string)
    requires '\n' !in line
    ensures '\n' in InjectLine(line, f) <==> IsRewritten(line) && '\n' in f
  {
    TrimSpaceChars(line);
    RewrittenTrimmed(line, TrimSpace(line), f);
  }

  lemma RewrittenTrimmed(line: string, t: string, f: string)
    requires '\n' !in line && '\n' !in t && t == TrimSpace(line)
    ensures '\n' in InjectTrimmed(line, t, f) <==> IsRewritten(line) && '\n' in f
  {
    hide TrimSpace;
  }

  /** One piece of text and a newline: at least one line, and more with a newline inside. */
  lemma PieceCount(l: string)
    ensures |RawLines(l + "\n")| >= 1
    ensures |RawLines(l + "\n")| == 1 <==> '\n' !in l
  {
    if '\n' in l {
      var i := IndexByte(l, '\n');
      var a, b := l[..i], l[i + 1..];
      assert l + "\n" == a + "\n" + (b + "\n");
      RawLinesCons(a, b + "\n");
    } else {
      RawLinesCons(l, "");
      RawLinesOfNothing();
      assert l + "\n" + "" == l + "\n";
    }
  }

  lemma {:induction false} InjectedCount(ls: seq<string>, f: string)
    ensures |RawLines(InjectLines(ls, f))| >= |ls|
    ensures |RawLines(InjectLines(ls, f))| == |ls| <==> forall l :: l in ls ==> '\n' !in InjectLine(l, f)
  {
    RawLinesOfNothing();
    hide RawLines, InjectLine;
    if ls != [] {
      var out := InjectLine(ls[0], f);
      InjectedCount(ls[1..], f);
      PieceCount(out);
      RawLinesAppend(out + "\n", InjectLines(ls[1..], f));
      assert ls == [ls[0]] + ls[1..];
    }
  }

  /** The number of lines is kept exactly if no name holds a newline, or no line has
      anything written into it. */
  lemma LinesKeptExactlyWhen(raw: string, m: map<string, string>, limit: nat)
    requires m != map[] && Inject(raw, m, limit).Ok?
    ensures |RawLines(Inject(raw, m, limit).text)| == |RawLines(raw)|
       <==> OneLineKeys(m) || forall l :: l in Lines(raw) ==> !IsRewritten(l)
  {
    hide RawLines, InjectLine, IsRewritten, Format, InjectLines, OneLineKeys;
    LinesFacts(raw);
    FormatNewline(m);
    InjectedCount(Lines(raw), Format(m));
    forall l | l in Lines(raw) ensures '\n' in InjectLine(l, Format(m)) <==> IsRewritten(l) && '\n' in Format(m) {
      RewrittenNewline(l, Format(m));
    }
  }

  predicate IsComment(line: string) {
    var t := TrimSpace(line);
    t == "" || t[0] == '#'
  }

  /** Lines as a text, each with this at its end. */
  function Ended(ls: seq<string>, end: string): string {
    if ls == [] then "" else ls[0] + end + Ended(ls[1..], end)
  }

  lemma {:induction false} LinesOfEnded(ls: seq<string>, cr: string)
    requires cr == "" || cr == "\r"
    requires forall l :: l in ls ==> '\n' !in l && DropCR(l) == l
    ensures Lines(Ended(ls, cr + "\n")) == ls
  {
    if ls != [] {
      var l, rest := ls[0], Ended(ls[1..], cr + "\n");
      assert l in ls;
      LinesOfEnded(ls[1..], cr);
      Assoc3(l, cr, "\n");
      RawLinesCons(l + cr, rest);
      assert (l + cr)[..|l|] == l;
      hide RawLines;
      assert DropCR(l + cr) == l;
      assert RawLines(l + cr + "\n" + rest)[1..] == RawLines(rest);
    }
  }

  /** The proxy shows lines that end with a carriage return and a newline as lines that
      end with a newline. */
  lemma CarriageReturnsGo(ls: seq<string>, m: map<string, string>, limit: nat)
    requires m != map[] && forall l :: l in ls ==> '\n' !in l && DropCR(l) == l
    ensures var crlf := Inject(Ended(ls, "\r\n"), m, limit);
      crlf.Ok? ==> crlf == Ok(InjectLines(ls, Format(m)))
    ensures var lf := Inject(Ended(ls, "\n"), m, limit);
      lf.Ok? ==> lf == Ok(InjectLines(ls, Format(m)))
  {
    LinesOfEnded(ls, "\r");
    LinesOfEnded(ls, "");
    assert "\r" + "\n" == "\r\n" && "" + "\n" == "\n";
  }

  // ---- Two injections ------------------------------------------------------

  /** Replacing what is between a brace and the last brace keeps a text trimmed. */
  lemma BracedTrimmed(head: string, body: string, tail: string, body': string)
    requires IsTrimmed(Braced(head, body, tail))
    ensures IsTrimmed(Braced(head, body', tail))
  {
    var s, s' := Braced(head, body, tail), Braced(head, body', tail);
    assert forall i :: 0 <= i <= |head| ==> s'[i] == s[i];
    assert s'[|s'| - 1] == s[|s| - 1];
    assert |tail| >= 1 ==> s'[|s'| - 2] == s[|s| - 2];
    assert |tail| >= 2 ==> s'[|s'| - 3] == s[|s| - 3];
    assert s[|head|] == '{' && s[|s| - |tail| - 1] == '}';
  }

  lemma UnbracedTrimmed(name: string, tail: string, f: string)
    requires IsTrimmed(name + tail) && name != "" && tail != "" && IsBlank(tail[0])
    ensures IsTrimmed(Braced(name, f, tail))
  {
    var s, s' := name + tail, Braced(name, f, tail);
    assert forall i :: 0 <= i < |name| ==> s'[i] == s[i];
    assert s'[|s'| - 1] == s[|s| - 1];
    assert |tail| >= 2 ==> s'[|s'| - 2] == s[|s| - 2];
    assert |tail| >= 3 ==> s'[|s'| - 3] == s[|s| - 3];
    assert s'[|name|] == '{' && s'[|s'| - |tail| - 1] == '}';
    assert s[|name|] == tail[0] && s[|s| - |tail|] == tail[0];
    assert |tail| >= 2;
  }

  lemma SplicedTwice(body: string, fa: string, fb: string)
    requires fa != ""
    ensures Spliced(Spliced(body, fa), fb) == Spliced(body, fa + "," + fb)
  {
    if body != "" {
      Assoc3(body + ",", fa, ",");
      Assoc3(body + ",", fa + ",", fb);
    }
  }

  /** A line that is not a sample line: no label block, yet a `}` behind the name. */
  predicate StrayBrace(line: string) {
    var t := TrimSpace(line);
    t != "" && t[0] != '#' && '{' !in t && IndexBlank(t) >= 0 && '}' in t[IndexBlank(t)..]
  }

  lemma ComposeBraced(line: string, head: string, body: string, tail: string, fa: string, fb: string)
    requires TrimSpace(line) == Braced(head, body, tail) && IsTrimmed(Braced(head, body, tail))
    requires head == "" || head[0] != '#'
    requires '{' !in head && '}' !in tail
    requires fa != ""
    ensures InjectLine(InjectLine(line, fa), fb) == InjectLine(line, fa + "," + fb)
  {
    var once := Braced(head, Spliced(body, fa), tail);
    InjectBraced(line, head, body, tail, fa);
    InjectBraced(line, head, body, tail, fa + "," + fb);
    BracedTrimmed(head, body, tail, Spliced(body, fa));
    TrimSpaceFixed(once);
    InjectBraced(once, head, Spliced(body, fa), tail, fb);
    SplicedTwice(body, fa, fb);
  }

  lemma BracedDiffers(name: string, fa: string, fb: string, tail: string, x: string, y: string)
    ensures Braced(name, fa + "}" + x + "," + fb, y) != Braced(name, fa + "," + fb, tail)
  {
    var s, s' := Braced(name, fa + "}" + x + "," + fb, y), Braced(name, fa + "," + fb, tail);
    Assoc3(fa, "}", x + "," + fb);
    assert s[|name| + 1 + |fa|] == '}' && s'[|name| + 1 + |fa|] == ',';
  }

  lemma ComposeUnbraced(line: string, name: string, tail: string, fa: string, fb: string)
    requires TrimSpace(line) == name + tail && IsTrimmed(name + tail)
    requires name != "" && name[0] != '#' && tail != "" && IsBlank(tail[0])
    requires forall c :: c in name ==> !IsBlank(c)
    requires '{' !in name + tail
    requires fa != ""
    ensures InjectLine(InjectLine(line, fa), fb) == InjectLine(line, fa + "," + fb) <==> '}' !in tail
  {
    hide InjectTrimmed, IsTrimmed, TrimSpace, LastIndexByte;
    var once := Braced(name, fa, tail);
    InjectUnbraced(line, name, tail, fa);
    InjectUnbraced(line, name, tail, fa + "," + fb);
    UnbracedTrimmed(name, tail, fa);
    TrimSpaceFixed(once);
    if '}' !in tail {
      InjectBraced(once, name, fa, tail, fb);
    } else {
      var j := LastIndexByte(tail, '}');
      var x, y := tail[..j], tail[j + 1..];
      assert tail == x + "}" + y;
      assert once == Braced(name, fa + "}" + x, y) by {
        Assoc3(name + "{" + fa + "}", x + "}", y);
        Assoc3(name + "{" + fa + "}", x, "}");
        Assoc4(name + "{", fa, "}", x);
        Assoc3(fa, "}", x);
      }
      InjectBraced(once, name, fa + "}" + x, y, fb);
      BracedDiffers(name, fa, fb, tail, x, y);
    }
  }

  lemma BracedText(t: string, open: nat, close: nat)
    requires IndexByte(t, '{') == open && LastIndexByte(t, '}') == close && open < close
    ensures t == Braced(t[..open], t[open + 1..close], t[close + 1..])
    ensures open > 0 ==> t[..open][0] == t[0]
  {
  }

  lemma UnbracedText(t: string, i: nat)
    requires IndexBlank(t) == i && i > 0
    ensures t == t[..i] + t[i..] && t[..i][0] == t[0]
    ensures forall c :: c in t[..i] ==> !IsBlank(c)
  {
    forall c | c in t[..i] ensures !IsBlank(c) {
      var k :| 0 <= k < i && t[..i][k] == c;
      assert t[k] == c;
    }
  }

  lemma TrimmedNotBlank(t: string)
    requires IsTrimmed(t) && t != ""
    ensures !IsBlank(t[0]) && IndexBlank(t) != 0
  {
  }

  lemma BracedGrows(line: string, head: string, body: string, tail: string, f: string)
    requires TrimSpace(line) == Braced(head, body, tail) && IsTrimmed(Braced(head, body, tail))
    requires (head == "" || head[0] != '#') && '{' !in head && '}' !in tail && f != ""
    ensures InjectLine(line, f) != line
  {
    var out := Braced(head, Spliced(body, f), tail);
    InjectBraced(line, head, body, tail, f);
    BracedTrimmed(head, body, tail, Spliced(body, f));
    assert |out| > |Braced(head, body, tail)|;
    hide TrimSpace, IsTrimmed, InjectTrimmed, Spliced;
    TrimSpaceFixed(out);
  }

  lemma UnbracedGrows(line: string, name: string, tail: string, f: string)
    requires TrimSpace(line) == name + tail && IsTrimmed(name + tail)
    requires name != "" && name[0] != '#' && tail != "" && IsBlank(tail[0])
    requires (forall c :: c in name ==> !IsBlank(c)) && '{' !in name + tail
    ensures InjectLine(line, f) != line
  {
    var out := Braced(name, f, tail);
    assert |out| > |name + tail|;
    hide InjectTrimmed, IsTrimmed, TrimSpace;
    InjectUnbraced(line, name, tail, f);
    UnbracedTrimmed(name, tail, f);
    TrimSpaceFixed(out);
  }

  /** A line comes through as it is, white space and all, exactly if it is blank, a
      comment, or has nothing the labels could be written into. */
  lemma ChangedExactlyWhen(line: string, f: string)
    requires f != ""
    ensures InjectLine(line, f) == line <==> !IsRewritten(line)
  {
    var t := TrimSpace(line);
    TrimSpaceTrims(line);
    if 0 <= IndexByte(t, '{') < LastIndexByte(t, '}') && t[0] != '#' {
      var open, close := IndexByte(t, '{'), LastIndexByte(t, '}');
      BracedText(t, open, close);
      BracedGrows(line, t[..open], t[open + 1..close], t[close + 1..], f);
    } else if '{' !in t && IndexBlank(t) >= 0 && t[0] != '#' {
      TrimmedNotBlank(t);
      UnbracedText(t, IndexBlank(t));
      UnbracedGrows(line, t[..IndexBlank(t)], t[IndexBlank(t)..], f);
    } else {
      PassedAsIs(line, t, f);
    }
  }

  /** Injecting `fa` and then `fb` is injecting `fa,fb`, on every line except
      those with a stray brace. */
  lemma ComposeLine(line: string, fa: string, fb: string)
    requires fa != ""
    ensures InjectLine(InjectLine(line, fa), fb) == InjectLine(line, fa + "," + fb) <==> !StrayBrace(line)
  {
    var t := TrimSpace(line);
    TrimSpaceTrims(line);
    if 0 <= IndexByte(t, '{') < LastIndexByte(t, '}') && t[0] != '#' {
      var open, close := IndexByte(t, '{'), LastIndexByte(t, '}');
      BracedText(t, open, close);
      ComposeBraced(line, t[..open], t[open + 1..close], t[close + 1..], fa, fb);
    } else if '{' !in t && IndexBlank(t) >= 0 && t[0] != '#' {
      TrimmedNotBlank(t);
      UnbracedText(t, IndexBlank(t));
      ComposeUnbraced(line, t[..IndexBlank(t)], t[IndexBlank(t)..], fa, fb);
    } else {
      PassedAsIs(line, t, fa);
      PassedAsIs(line, t, fb);
      PassedAsIs(line, t, fa + "," + fb);
    }
  }

  /** Blank lines, comments and lines that are neither kind of sample. */
  lemma PassedAsIs(line: string, t: string, f: string)
    requires t != "" && t[0] != '#' ==> !(0 <= IndexByte(t, '{') < LastIndexByte(t, '}'))
    requires t != "" && t[0] != '#' ==> '{' in t || IndexBlank(t) < 0
    ensures InjectTrimmed(line, t, f) == line
  {
  }

  // ---- Disjoint label sets -------------------------------------------------

  ghost predicate AllBefore(a: map<string, string>, b: map<string, string>) {
    forall k, k' :: k in a && k' in b ==> Less(k, k')
  }

  lemma SortedKeysUnion(a: set<string>, b: set<string>)
    requires forall k, k' :: k in a && k' in b ==> Less(k, k')
    ensures SortedKeys(a + b) == SortedKeys(a) + SortedKeys(b)
  {
    var ka, kb := SortedKeys(a), SortedKeys(b);
    var ks := ka + kb;
    forall i, j | 0 <= i < j < |ks| ensures Less(ks[i], ks[j]) {
      assert i < |ka| ==> ka[i] in a;
      assert j >= |ka| ==> kb[j - |ka|] in b;
    }
    StrictlySortedUnique(ks, SortedKeys(a + b));
  }

  lemma SortedLabelsUnion(a: map<string, string>, b: map<string, string>)
    requires AllBefore(a, b)
    ensures SortedLabels(a + b) == SortedLabels(a) + SortedLabels(b)
  {
    hide SortedLabels, SortedKeys, Less;
    var ka, kb := SortedKeys(a.Keys), SortedKeys(b.Keys);
    SortedKeysUnion(a.Keys, b.Keys);
    assert (a + b).Keys == a.Keys + b.Keys;
    var ls, rs := SortedLabels(a + b), SortedLabels(a) + SortedLabels(b);
    forall k | k in a ensures k !in b {
      if k in b { LessIrreflexive(k); }
    }
    forall i | 0 <= i < |ls| ensures ls[i] == rs[i] {
      assert i < |ka| ==> ka[i] in ka;
      assert i >= |ka| ==> kb[i - |ka|] in kb;
    }
  }

  lemma {:induction false} RenderUnion(a: seq<Label>, b: seq<Label>)
    requires a != [] && b != []
    ensures RenderLabels(a + b) == RenderLabels(a) + "," + RenderLabels(b)
  {
    assert (a + b)[1..] == a[1..] + b && (a + b)[0] == a[0];
    if |a| == 1 {
      assert a[1..] + b == b;
    } else {
      RenderUnion(a[1..], b);
      Assoc4(RenderLabel(a[0]) + ",", RenderLabels(a[1..]), ",", RenderLabels(b));
      Assoc3(RenderLabels(a[1..]), ",", RenderLabels(b));
    }
  }

  lemma FormatUnion(a: map<string, string>, b: map<string, string>)
    requires AllBefore(a, b) && a != map[] && b != map[]
    ensures Format(a + b) == Format(a) + "," + Format(b)
    ensures Format(a) != ""
  {
    SortedLabelsUnion(a, b);
    SortedLabelsFacts(a);
    SortedLabelsFacts(b);
    RenderUnion(SortedLabels(a), SortedLabels(b));
    RenderNonempty(SortedLabels(a));
  }

  lemma RenderNonempty(ls: seq<Label>)
    requires ls != []
    ensures RenderLabels(ls) != ""
  {
    assert |RenderLabel(ls[0])| >= 2;
  }

  // ---- Composition on texts -------------------------------------------------

  lemma {:induction false} InjectLinesTwice(ls: seq<string>, fa: string, fb: string)
    requires fa != ""
    requires forall l :: l in ls ==> '\n' !in l
    requires '\n' !in fa && '\n' !in fb
    ensures InjectLines(InjectEach(ls, fa), fb) == InjectLines(ls, fa + "," + fb)
       <==> (forall l :: l in ls ==> !StrayBrace(l))
  {
    var each := InjectEach(ls, fa);
    forall l | l in each ensures '\n' !in l {
      var i :| 0 <= i < |each| && each[i] == l;
      assert ls[i] in ls;
      InjectLineNoNewline(ls[i], fa);
    }
    RawLinesOfInjected(each, fb);
    RawLinesOfInjected(ls, fa + "," + fb);
    var twice, both := InjectEach(each, fb), InjectEach(ls, fa + "," + fb);
    forall i | 0 <= i < |ls| ensures twice[i] == both[i] <==> !StrayBrace(ls[i]) {
      ComposeLine(ls[i], fa, fb);
    }
    if twice == both {
      forall l | l in ls ensures !StrayBrace(l) {
        var i :| 0 <= i < |ls| && ls[i] == l;
        assert twice[i] == both[i];
      }
    } else {
      assert exists i :: 0 <= i < |ls| && twice[i] != both[i];
    }
    if forall l :: l in ls ==> !StrayBrace(l) {
      SameInjected(each, ls, fb, fa + "," + fb);
    }
  }

  lemma {:induction false} SameInjected(a: seq<string>, b: seq<string>, f: string, g: string)
    requires InjectEach(a, f) == InjectEach(b, g)
    ensures InjectLines(a, f) == InjectLines(b, g)
  {
    if a == [] {
      assert |b| == |InjectEach(b, g)| == 0;
    } else {
      assert |b| == |InjectEach(b, g)| == |a|;
      assert InjectEach(a, f)[0] == InjectEach(b, g)[0];
      assert InjectEach(a, f)[1..] == InjectEach(a[1..], f);
      assert InjectEach(b, g)[1..] == InjectEach(b[1..], g);
      SameInjected(a[1..], b[1..], f, g);
    }
  }

  lemma InjectLineNoCR(line: string, f: string)
    requires '\r' !in line
    ensures DropCR(InjectLine(line, f)) == InjectLine(line, f)
  {
    TrimSpaceTrims(line);
    TrimSpaceChars(line);
    InjectTrimmedNoCR(line, TrimSpace(line), f);
  }

  lemma InjectTrimmedNoCR(line: string, t: string, f: string)
    requires '\r' !in line && '\r' !in t
    ensures DropCR(InjectTrimmed(line, t, f)) == InjectTrimmed(line, t, f)
  {
  }

  /** On text without carriage returns, injecting A and then B is injecting their
      union, when no name holds a newline and every name in A sorts before every
      name in B -- exactly when no line has a stray brace. */
  lemma InjectCompose(raw: string, a: map<string, string>, b: map<string, string>, limit: nat)
    requires '\r' !in raw
    requires AllBefore(a, b) && a != map[] && b != map[] && OneLineKeys(a) && OneLineKeys(b)
    requires Inject(raw, a, limit).Ok? && Inject(Inject(raw, a, limit).text, b, limit).Ok?
    ensures Inject(Inject(raw, a, limit).text, b, limit) == Inject(raw, a + b, limit)
       <==> (forall l :: l in Lines(raw) ==> !StrayBrace(l))
  {
    var fa, fb := Format(a), Format(b);
    var once := Inject(raw, a, limit).text;
    FormatUnion(a, b);
    FormatNewline(a);
    FormatNewline(b);
    LinesFacts(raw);
    InjectKeepsLines(raw, a, limit);
    var each := InjectEach(Lines(raw), fa);
    forall i | 0 <= i < |each| ensures DropCR(each[i]) == each[i] {
      assert Lines(raw)[i] in Lines(raw);
      InjectLineNoCR(Lines(raw)[i], fa);
    }
    assert Lines(once) == each;
    InjectLinesTwice(Lines(raw), fa, fb);
    assert a + b != map[] by {
      var k :| k in b;
      assert k in a + b;
    }
  }
}
