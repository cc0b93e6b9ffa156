/** What label injection means, in terms of the exposition grammar. */
module RelabelProofs {
  import opened Text
  import opened Exposition
  import opened Relabel

  // ---- Escaping ----------------------------------------------------------

  function EscapeChar(c: char): string {
    if c == '\\' then "\\\\" else if c == '"' then "\\\"" else if c == '\n' then "\\n" else [c]
  }

  /** Escaping in one pass over the characters. */
  function EscapeAll(s: string): string {
    if s == "" then "" else EscapeChar(s[0]) + EscapeAll(s[1..])
  }

  lemma {:induction false} ReplaceCharAppend(a: string, b: string, c: char, with: string)
    ensures ReplaceAll(a + b, [c], with) == ReplaceAll(a, [c], with) + ReplaceAll(b, [c], with)
  {
    if a == "" {
      assert a + b == b;
    } else {
      assert (a + b)[1..] == a[1..] + b;
      ReplaceCharAppend(a[1..], b, c, with);
      if a[0] == c {
        assert [c] <= a && [c] <= a + b;
      } else {
        assert !([c] <= a) && !([c] <= a + b);
      }
    }
  }

  lemma ReplaceOneChar(x: char, c: char, with: string)
    ensures ReplaceAll([x], [c], with) == if x == c then with else [x]
  {
    if x == c {
      assert [c] <= [x];
      assert ReplaceAll([x][1..], [c], with) == "";
      assert with + "" == with;
    } else {
      PrefixChar(c, [x]);
      assert [x] + ReplaceAll([x][1..], [c], with) == [x];
    }
  }

  /** The three passes commute with concatenation. */
  lemma EscapeAppend(a: string, b: string)
    ensures EscapeLabelValue(a + b) == EscapeLabelValue(a) + EscapeLabelValue(b)
  {
    var a1 := ReplaceAll(a, "\\", "\\\\");
    var b1 := ReplaceAll(b, "\\", "\\\\");
    ReplaceCharAppend(a, b, '\\', "\\\\");
    ReplaceCharAppend(a1, b1, '"', "\\\"");
    ReplaceCharAppend(ReplaceAll(a1, "\"", "\\\""), ReplaceAll(b1, "\"", "\\\""), '\n', "\\n");
  }

  lemma EscapeOneChar(c: char)
    ensures EscapeLabelValue([c]) == EscapeChar(c)
  {
    ReplaceOneChar(c, '\\', "\\\\");
    if c == '\\' {
      assert "\\\\" == ['\\'] + ['\\'];
      ReplaceCharAppend("\\", "\\", '"', "\\\"");
      ReplaceOneChar('\\', '"', "\\\"");
      ReplaceCharAppend("\\", "\\", '\n', "\\n");
      ReplaceOneChar('\\', '\n', "\\n");
    } else {
      ReplaceOneChar(c, '"', "\\\"");
      if c == '"' {
        assert "\\\"" == ['\\'] + ['"'];
        ReplaceCharAppend("\\", "\"", '\n', "\\n");
        ReplaceOneChar('\\', '\n', "\\n");
        ReplaceOneChar('"', '\n', "\\n");
      } else {
        ReplaceOneChar(c, '\n', "\\n");
      }
    }
  }

  /** The three sequential passes are one character-wise escape. */
  lemma {:induction false} EscapeIsOnePass(s: string)
    ensures EscapeLabelValue(s) == EscapeAll(s)
  {
    if s != "" {
      assert s == [s[0]] + s[1..];
      EscapeAppend([s[0]], s[1..]);
      EscapeOneChar(s[0]);
      EscapeIsOnePass(s[1..]);
    }
  }

  lemma {:induction false} ParseEscapeAll(v: string, rest: string)
    ensures ParseValue(EscapeAll(v) + "\"" + rest) == Got(v, rest)
    ensures '\n' !in EscapeAll(v)
  {
    var t := EscapeAll(v) + "\"" + rest;
    if v == "" {
      assert t[0] == '"' && t[1..] == rest;
    } else {
      var e := EscapeChar(v[0]);
      ParseEscapeAll(v[1..], rest);
      Assoc4(e, EscapeAll(v[1..]), "\"", rest);
      Assoc3(EscapeAll(v[1..]), "\"", rest);
      assert t == e + (EscapeAll(v[1..]) + "\"" + rest);
      assert v == [v[0]] + v[1..];
      if |e| == 1 {
        assert t[0] == v[0] && t[1..] == EscapeAll(v[1..]) + "\"" + rest;
      } else {
        assert t[0] == '\\' && t[1] == e[1] && t[2..] == EscapeAll(v[1..]) + "\"" + rest;
      }
    }
  }

  /** Reading an escaped value up to its closing quote gives the value back, so
      no quote inside it is left unescaped; and the text stays on one line. */
  lemma EscapeRoundTrip(v: string, rest: string)
    ensures ParseValue(EscapeLabelValue(v) + "\"" + rest) == Got(v, rest)
    ensures '\n' !in EscapeLabelValue(v)
  {
    EscapeIsOnePass(v);
    ParseEscapeAll(v, rest);
  }

  // ---- Rendered labels ----------------------------------------------------

  ghost predicate ValidNames(ls: seq<Label>) {
    forall i :: 0 <= i < |ls| ==> ValidLabelName(ls[i].0)
  }

  lemma RenderLabelParses(l: Label)
    requires ValidLabelName(l.0)
    ensures RenderLabel(l) != "" && !IsBlank(RenderLabel(l)[0]) && RenderLabel(l)[0] != '}'
    ensures ParseLabel(RenderLabel(l)) == Got(l, "")
  {
    hide ParseLabel, ParseValue, EscapeLabelValue;
    var v := EscapeLabelValue(l.1) + "\"";
    EscapeRoundTrip(l.1, "");
    assert v + "" == v;
    ParseLabelText("", l.0, "", "", v);
    assert RenderLabel(l) == LabelText("", l.0, "", "", v);
    assert RenderLabel(l)[0] == l.0[0] && l.0[0] in l.0;
  }

  /** One rendered label and a separator, in front of any text. */
  lemma RenderStep(l: Label, d: char, x: string)
    requires ValidLabelName(l.0) && (d == ',' || d == '}')
    ensures ParseBlock(RenderLabel(l) + [d] + x) == if d == '}' then Got([l], x) else Join([l], ParseBlock(x))
  {
    hide ParseBlock, ParseLabel, RenderLabel, ValidLabelName, Join;
    RenderLabelParses(l);
    ParseBlockStep("", RenderLabel(l), "", d, x);
    assert "" + RenderLabel(l) + "" + [d] + x == RenderLabel(l) + [d] + x;
  }

  /** Reading rendered labels gives them back. */
  lemma {:induction false} RenderParses(ls: seq<Label>, rest: string)
    requires ValidNames(ls)
    ensures ParseBlock(RenderLabels(ls) + "}" + rest) == Got(ls, rest)
  {
    EmptyBlock(rest);
    hide ParseBlock, RenderLabel, ValidLabelName;
    if ls == [] {
      assert RenderLabels(ls) + "}" + rest == "}" + rest;
    } else if |ls| == 1 {
      RenderStep(ls[0], '}', rest);
      assert [ls[0]] == ls;
    } else {
      RenderParses(ls[1..], rest);
      RenderStep(ls[0], ',', RenderLabels(ls[1..]) + "}" + rest);
      RenderSplit(ls, "}" + rest);
      Assoc3(RenderLabels(ls), "}", rest);
      Assoc3(RenderLabels(ls[1..]), "}", rest);
      assert [ls[0]] + ls[1..] == ls;
    }
  }

  lemma EmptyBlock(rest: string)
    ensures ParseBlock("}" + rest) == Got([], rest)
  {
    SkipBlanksNone("}" + rest);
  }

  lemma RenderSplit(ls: seq<Label>, x: string)
    requires |ls| > 1
    ensures RenderLabels(ls) + x == RenderLabel(ls[0]) + [','] + (RenderLabels(ls[1..]) + x)
  {
    Assoc3(RenderLabel(ls[0]) + ",", RenderLabels(ls[1..]), x);
  }

  /** Every name the parser reads is a label name. */
  lemma {:induction false} ParsedNamesValid(s: string)
    requires ParseBlock(s).Got?
    ensures ValidNames(ParseBlock(s).item)
    decreases |s|
  {
    var a := SkipBlanks(s);
    if !(a != "" && a[0] == '}') {
      var b := SkipBlanks(ParseLabel(a).rest);
      if b[0] == ',' { ParsedNamesValid(b[1..]); }
    }
  }

  ghost predicate ValidKeys(m: map<string, string>) {
    forall k :: k in m ==> ValidLabelName(k)
  }

  lemma SortedLabelsFacts(m: map<string, string>)
    ensures ValidKeys(m) <==> ValidNames(SortedLabels(m))
    ensures DistinctNames(SortedLabels(m))
    ensures forall k, v :: (k, v) in SortedLabels(m) <==> k in m && m[k] == v
    ensures m != map[] ==> SortedLabels(m) != []
  {
    var ks := SortedKeys(m.Keys);
    var ls := SortedLabels(m);
    forall i, j | 0 <= i < j < |ls| ensures ls[i].0 != ls[j].0 {
      assert Less(ks[i], ks[j]);
      LessIrreflexive(ks[i]);
    }
    forall k | k in m ensures (k, m[k]) in ls {
      assert k in ks;
      var i :| 0 <= i < |ks| && ks[i] == k;
      assert ls[i] == (k, m[k]);
    }
    if ValidNames(ls) {
      forall k | k in m ensures ValidLabelName(k) {
        assert (k, m[k]) in ls;
      }
    }
    if m != map[] {
      var k :| k in m;
      assert (k, m[k]) in ls;
    }
  }

  /** The rendered extras read back as exactly the map, in increasing key order. */
  lemma FormatRoundTrip(m: map<string, string>, rest: string)
    requires ValidKeys(m)
    ensures ParseBlock(Format(m) + "}" + rest) == Got(SortedLabels(m), rest)
    ensures StrictlySorted(SortedKeys(m.Keys))
  {
    SortedLabelsFacts(m);
    RenderParses(SortedLabels(m), rest);
  }

  lemma SameLabelsSameMap(m: map<string, string>, m': map<string, string>)
    requires SortedLabels(m) == SortedLabels(m')
    ensures m == m'
  {
    SortedLabelsFacts(m);
    SortedLabelsFacts(m');
    hide SortedLabels, DistinctNames, ValidNames;
    forall k | k in m ensures k in m' && m'[k] == m[k] { assert (k, m[k]) in SortedLabels(m); }
    forall k | k in m' ensures k in m { assert (k, m'[k]) in SortedLabels(m'); }
  }

  /** Rendering loses nothing. */
  lemma FormatInjective(m: map<string, string>, m': map<string, string>)
    requires ValidKeys(m) && ValidKeys(m') && Format(m) == Format(m')
    ensures m == m'
  {
    FormatRoundTrip(m, "");
    FormatRoundTrip(m', "");
    SameLabelsSameMap(m, m');
  }
}
