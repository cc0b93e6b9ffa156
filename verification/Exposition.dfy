/** A parser for one sample line of the Prometheus text exposition format 0.0.4,
    section "Text format details":

      name [ "{" label { "," label } [ "," ] "}" ] value [ timestamp ]

    with tokens separated by blanks (spaces and tabs), and inside a label value
    the escapes `\\`, `\"` and `\n`.  It is the reference against which the text
    rewriting of the proxy is proved; the proxy itself never parses. */
module Exposition {
  import opened Text

  type Label = (string, string)

  datatype Sample = Sample(name: string, labels: seq<Label>, value: string, timestamp: Option<string>)

  /** A parsed piece and the text after it. */
  datatype Parse<+T> = Fail | Got(item: T, rest: string)

  // ---- Lexical classes ---------------------------------------------------

  predicate IsBlank(c: char) { c == ' ' || c == '\t' }

  predicate Blank(s: string) {
    forall c :: c in s ==> IsBlank(c)
  }

  predicate IsLetter(c: char) { 'a' <= c <= 'z' || 'A' <= c <= 'Z' || c == '_' }

  /** Metric names match [a-zA-Z_:][a-zA-Z0-9_:]*. */
  predicate IsNameChar(c: char) { IsLetter(c) || IsDigit(c) || c == ':' }

  predicate ValidMetricName(n: string) {
    n != "" && !IsDigit(n[0]) && forall c :: c in n ==> IsNameChar(c)
  }

  /** Label names match [a-zA-Z_][a-zA-Z0-9_]*. */
  predicate ValidLabelName(n: string) {
    ValidMetricName(n) && ':' !in n
  }

  /** Values are floats in Go's syntax.  Only their alphabet matters here. */
  predicate IsValue(t: string) {
    t != "" && forall c :: c in t ==> IsLetter(c) || IsDigit(c) || c == '+' || c == '-' || c == '.'
  }

  /** Timestamps are integers in Go's syntax. */
  predicate IsTimestamp(t: string) {
    var d := if t != "" && (t[0] == '-' || t[0] == '+') then t[1..] else t;
    d != "" && forall c :: c in d ==> IsDigit(c)
  }

  predicate DistinctNames(ls: seq<Label>) {
    forall i, j :: 0 <= i < j < |ls| ==> ls[i].0 != ls[j].0
  }

  // ---- Scanning ----------------------------------------------------------

  function SkipBlanks(s: string): (r: string)
    ensures |r| <= |s|
    ensures r != "" ==> !IsBlank(r[0])
  {
    if s != "" && IsBlank(s[0]) then SkipBlanks(s[1..]) else s
  }

  /** Length of the longest prefix of name characters. */
  function NameLen(s: string): (n: nat)
    ensures n <= |s|
    ensures forall c :: c in s[..n] ==> IsNameChar(c)
    ensures n < |s| ==> !IsNameChar(s[n])
  {
    if s != "" && IsNameChar(s[0]) then
      var n := NameLen(s[1..]);
      assert s[..1 + n] == [s[0]] + s[1..][..n];
      1 + n
    else 0
  }

  /** Length of the longest prefix without blanks. */
  function TokenLen(s: string): (n: nat)
    ensures n <= |s|
    ensures forall c :: c in s[..n] ==> !IsBlank(c)
    ensures n < |s| ==> IsBlank(s[n])
  {
    if s != "" && !IsBlank(s[0]) then
      var n := TokenLen(s[1..]);
      assert s[..1 + n] == [s[0]] + s[1..][..n];
      1 + n
    else 0
  }

  // ---- Labels ------------------------------------------------------------

  function Prepend(c: char, p: Parse<string>): Parse<string> {
    match p
    case Fail => Fail
    case Got(v, rest) => Got([c] + v, rest)
  }

  /** The value of a label, from after its opening quote to its closing quote. */
  function ParseValue(s: string): (p: Parse<string>)
    ensures p.Got? ==> |p.rest| < |s|
  {
    if s == "" || s[0] == '\n' then Fail
    else if s[0] == '"' then Got("", s[1..])
    else if s[0] != '\\' then Prepend(s[0], ParseValue(s[1..]))
    else if |s| < 2 then Fail
    else if s[1] == '\\' || s[1] == '"' then Prepend(s[1], ParseValue(s[2..]))
    else if s[1] == 'n' then Prepend('\n', ParseValue(s[2..]))
    else Fail
  }

  /** One `name = "value"`, blanks allowed before each token. */
  function ParseLabel(s: string): (p: Parse<Label>)
    ensures p.Got? ==> |p.rest| < |s|
    ensures p.Got? ==> ValidLabelName(p.item.0)
  {
    var a := SkipBlanks(s);
    var n := NameLen(a);
    if !ValidLabelName(a[..n]) then Fail
    else
      var b := SkipBlanks(a[n..]);
      if b == "" || b[0] != '=' then Fail
      else
        var c := SkipBlanks(b[1..]);
        if c == "" || c[0] != '"' then Fail
        else
          match ParseValue(c[1..])
          case Fail => Fail
          case Got(v, rest) => Got((a[..n], v), rest)
  }

  /** The label block, from after `{` or `,` to after `}`. */
  function ParseBlock(s: string): (p: Parse<seq<Label>>)
    ensures p.Got? ==> |p.rest| < |s|
    decreases |s|
  {
    var a := SkipBlanks(s);
    if a != "" && a[0] == '}' then Got([], a[1..])
    else
      match ParseLabel(a)
      case Fail => Fail
      case Got(l, r) =>
        var b := SkipBlanks(r);
        if b != "" && b[0] == '}' then Got([l], b[1..])
        else if b != "" && b[0] == ',' then
          match ParseBlock(b[1..])
          case Fail => Fail
          case Got(ls, rest) => Got([l] + ls, rest)
        else Fail
  }

  // ---- Lines -------------------------------------------------------------

  /** What follows the name or the label block: a value and perhaps a timestamp. */
  function ParseTail(s: string): Option<(string, Option<string>)> {
    var v := SkipBlanks(s);
    var n := TokenLen(v);
    var t := SkipBlanks(v[n..]);
    var m := TokenLen(t);
    if !IsValue(v[..n]) then None
    else if t == "" then Some((v[..n], None))
    else if IsTimestamp(t[..m]) && SkipBlanks(t[m..]) == "" then Some((v[..n], Some(t[..m])))
    else None
  }

  function Finish(name: string, labels: seq<Label>, tail: string): Option<Sample> {
    match ParseTail(tail)
    case None => None
    case Some((v, ts)) => if DistinctNames(labels) then Some(Sample(name, labels, v, ts)) else None
  }

  function ParseSample(line: string): Option<Sample> {
    var a := SkipBlanks(line);
    var n := NameLen(a);
    var b := SkipBlanks(a[n..]);
    if !ValidMetricName(a[..n]) then None
    else if b != "" && b[0] == '{' then
      match ParseBlock(b[1..])
      case Fail => None
      case Got(ls, rest) => Finish(a[..n], ls, rest)
    else if |b| < |a| - n then Finish(a[..n], [], a[n..])
    else None
  }

  /** What Prometheus tells series apart by: the name and the set of labels, of which
      those with an empty value count as absent. */
  function Identity(x: Sample): (string, set<Label>) {
    (x.name, set l | l in x.labels && l.1 != "")
  }

  // ---- The parser only looks at what it consumes -------------------------

  /** Characters before the first non-blank one are skipped whatever follows it. */
  lemma {:induction false} SkipBlanksLocal(s: string, x: string)
    requires SkipBlanks(s) != ""
    ensures SkipBlanks(s + x) == SkipBlanks(s) + x
  {
    assert (s + x)[0] == s[0];
    if IsBlank(s[0]) {
      SkipBlanksLocal(s[1..], x);
      assert (s + x)[1..] == s[1..] + x;
    }
  }

  lemma SkipBlanksNone(s: string)
    requires s == "" || !IsBlank(s[0])
    ensures SkipBlanks(s) == s
  {
  }

  /** A prefix of blanks before a non-blank character is exactly what is skipped. */
  lemma {:induction false} SkipBlanksExact(p: string, s: string)
    requires Blank(p)
    requires s == "" || !IsBlank(s[0])
    ensures SkipBlanks(p + s) == s
  {
    if p == "" {
      assert p + s == s;
    } else {
      assert p == [p[0]] + p[1..];
      SkipBlanksExact(p[1..], s);
      assert (p + s)[1..] == p[1..] + s;
    }
  }

  /** The end of a name is found at its first foreign character. */
  lemma {:induction false} NameLenExact(p: string, s: string)
    requires forall c :: c in p ==> IsNameChar(c)
    requires s == "" || !IsNameChar(s[0])
    ensures NameLen(p + s) == |p|
  {
    if p == "" {
      assert p + s == s;
    } else {
      assert p == [p[0]] + p[1..];
      NameLenExact(p[1..], s);
      assert (p + s)[1..] == p[1..] + s;
    }
  }

  lemma {:induction false} ParseValueLocal(s: string, x: string)
    requires ParseValue(s).Got?
    ensures ParseValue(s + x) == Got(ParseValue(s).item, ParseValue(s).rest + x)
  {
    assert (s + x)[0] == s[0];
    assert (s + x)[1..] == s[1..] + x;
    if s[0] == '"' {
    } else if s[0] != '\\' {
      ParseValueLocal(s[1..], x);
    } else {
      assert (s + x)[1] == s[1];
      assert (s + x)[2..] == s[2..] + x;
      ParseValueLocal(s[2..], x);
    }
  }

  lemma ParseLabelLocal(s: string, x: string)
    requires ParseLabel(s).Got?
    ensures ParseLabel(s + x) == Got(ParseLabel(s).item, ParseLabel(s).rest + x)
  {
    hide ParseValue, SkipBlanks, NameLen;
    var a := SkipBlanks(s);
    var n := NameLen(a);
    SkipBlanksLocal(s, x);
    var b := SkipBlanks(a[n..]);
    assert a[n..] != "";
    assert a + x == a[..n] + (a[n..] + x);
    assert forall c :: c in a[..n] ==> IsNameChar(c);
    NameLenExact(a[..n], a[n..] + x);
    assert (a + x)[..n] == a[..n] && (a + x)[n..] == a[n..] + x;
    SkipBlanksLocal(a[n..], x);
    assert (b + x)[0] == b[0] && (b + x)[1..] == b[1..] + x;
    var c := SkipBlanks(b[1..]);
    SkipBlanksLocal(b[1..], x);
    assert (c + x)[0] == c[0] && (c + x)[1..] == c[1..] + x;
    ParseValueLocal(c[1..], x);
  }

  // ---- Cutting the text at the end of what was consumed -------------------

  lemma {:induction false} SkipBlanksSplit(s: string) returns (p: string)
    ensures s == p + SkipBlanks(s)
    ensures Blank(p)
  {
    if s != "" && IsBlank(s[0]) {
      var q := SkipBlanksSplit(s[1..]);
      p := [s[0]] + q;
      assert s == [s[0]] + s[1..];
    } else {
      p := "";
    }
  }

  lemma PlainCharValue(c: char, v: string)
    requires c != '"' && c != '\\' && c != '\n'
    ensures ParseValue([c] + v) == Prepend(c, ParseValue(v))
  {
    assert ([c] + v)[1..] == v;
  }

  lemma EscapedCharValue(c: char, v: string)
    requires c == '\\' || c == '"' || c == 'n'
    ensures ParseValue(['\\', c] + v) == Prepend(if c == 'n' then '\n' else c, ParseValue(v))
  {
    assert (['\\', c] + v)[2..] == v;
  }

  lemma ValueHead(s: string)
    requires ParseValue(s).Got?
    ensures s != "" && s[0] != '\n'
    ensures s[0] == '\\' ==> |s| >= 2 && (s[1] == '\\' || s[1] == '"' || s[1] == 'n')
    ensures s[0] == '"' ==> ParseValue(s) == Got("", s[1..]) && ParseValue(s[..1]) == Got("", "")
  {
  }

  lemma {:induction false} ParseValueCut(s: string) returns (p: string)
    requires ParseValue(s).Got?
    ensures s == p + ParseValue(s).rest
    ensures p != "" && p[|p| - 1] == '"'
    ensures ParseValue(p) == Got(ParseValue(s).item, "")
  {
    hide ParseValue;
    ValueHead(s);
    if s[0] == '"' {
      p := s[..1];
    } else if s[0] != '\\' {
      assert s == [s[0]] + s[1..];
      PlainCharValue(s[0], s[1..]);
      var q := ParseValueCut(s[1..]);
      p := [s[0]] + q;
      PlainCharValue(s[0], q);
    } else {
      assert s == ['\\', s[1]] + s[2..];
      EscapedCharValue(s[1], s[2..]);
      var q := ParseValueCut(s[2..]);
      p := ['\\', s[1]] + q;
      EscapedCharValue(s[1], q);
    }
  }

  /** The text of a label from its tokens and the blanks before them. */
  function LabelText(p0: string, name: string, p1: string, p2: string, v: string): string {
    p0 + (name + (p1 + (['='] + (p2 + (['"'] + v)))))
  }

  lemma ParseLabelText(p0: string, name: string, p1: string, p2: string, v: string)
    requires Blank(p0) && Blank(p1) && Blank(p2) && ValidLabelName(name)
    ensures ParseLabel(LabelText(p0, name, p1, p2, v))
         == match ParseValue(v) case Fail => Fail case Got(w, rest) => Got((name, w), rest)
  {
    var c := ['"'] + v;
    var b := ['='] + (p2 + c);
    var a := name + (p1 + b);
    assert !IsBlank(name[0]) by { assert name[0] in name; }
    SkipBlanksExact(p0, a);
    BlanksThenOther(p1, b);
    NameLenExact(name, p1 + b);
    assert a[..|name|] == name && a[|name|..] == p1 + b;
    SkipBlanksExact(p1, b);
    assert b[1..] == p2 + c;
    SkipBlanksExact(p2, c);
    assert c[1..] == v;
  }

  /** Every parsed label has such a text. */
  lemma ParseLabelTokens(s: string) returns (p0: string, name: string, p1: string, p2: string, v: string)
    requires ParseLabel(s).Got?
    ensures Blank(p0) && Blank(p1) && Blank(p2) && ValidLabelName(name)
    ensures s == LabelText(p0, name, p1, p2, v)
    ensures ParseValue(v).Got? && ParseLabel(s) == Got((name, ParseValue(v).item), ParseValue(v).rest)
  {
    hide ParseValue, SkipBlanks, NameLen;
    var a := SkipBlanks(s);
    var n := NameLen(a);
    name := a[..n];
    var b := SkipBlanks(a[n..]);
    var c := SkipBlanks(b[1..]);
    v := c[1..];
    p0 := SkipBlanksSplit(s);
    p1 := SkipBlanksSplit(a[n..]);
    p2 := SkipBlanksSplit(b[1..]);
    assert a == name + a[n..];
    assert b == ['='] + b[1..];
    assert c == ['"'] + v;
  }

  /** The part of the text a label is read from; it ends with the closing quote. */
  lemma ParseLabelCut(s: string) returns (p: string)
    requires ParseLabel(s).Got?
    ensures s == p + ParseLabel(s).rest
    ensures p != "" && p[|p| - 1] == '"'
    ensures ParseLabel(p) == Got(ParseLabel(s).item, "")
  {
    var p0, name, p1, p2, v := ParseLabelTokens(s);
    var w := ParseValueCut(v);
    p := LabelText(p0, name, p1, p2, w);
    ParseLabelText(p0, name, p1, p2, w);
    LabelTextAppend(p0, name, p1, p2, w, ParseLabel(s).rest);
  }

  lemma LabelTextAppend(p0: string, name: string, p1: string, p2: string, v: string, x: string)
    ensures LabelText(p0, name, p1, p2, v + x) == LabelText(p0, name, p1, p2, v) + x
    ensures v != "" ==> LabelText(p0, name, p1, p2, v)[|LabelText(p0, name, p1, p2, v)| - 1] == v[|v| - 1]
  {
  }

  lemma BlanksThenOther(p: string, b: string)
    requires Blank(p)
    requires b != "" && !IsNameChar(b[0])
    ensures !IsNameChar((p + b)[0])
  {
    assert p != "" ==> p[0] in p;
  }

  lemma {:induction false} ParseBlockSplit(s: string) returns (b: string)
    requires ParseBlock(s).Got?
    ensures s == b + "}" + ParseBlock(s).rest
    decreases |s|
  {
    hide ParseLabel, SkipBlanks;
    var a := SkipBlanks(s);
    var p := SkipBlanksSplit(s);
    if a != "" && a[0] == '}' {
      b := p;
      assert a == "}" + a[1..];
    } else {
      var q := ParseLabelCut(a);
      var r := ParseLabel(a).rest;
      var c := SkipBlanks(r);
      var p' := SkipBlanksSplit(r);
      assert c == [c[0]] + c[1..];
      if c[0] == '}' {
        b := p + q + p';
      } else {
        var b' := ParseBlockSplit(c[1..]);
        b := p + q + p' + "," + b';
      }
    }
  }

  // ---- Appending to a label block -----------------------------------------

  function TrimRightBlanks(s: string): (t: string)
    ensures t <= s
    ensures t != "" ==> !IsBlank(t[|t| - 1])
  {
    if s != "" && IsBlank(s[|s| - 1]) then TrimRightBlanks(s[..|s| - 1]) else s
  }

  lemma {:induction false} TrimRightExact(s: string, p: string)
    requires s == "" || !IsBlank(s[|s| - 1])
    requires Blank(p)
    ensures TrimRightBlanks(s + p) == s
  {
    if p == "" {
      assert s + p == s;
    } else {
      var n := |p| - 1;
      assert p == p[..n] + [p[n]];
      assert (s + p)[..|s + p| - 1] == s + p[..n];
      TrimRightExact(s, p[..n]);
    }
  }

  /** Trimming looks only at the end, unless that end is all blank. */
  lemma {:induction false} TrimRightAppend(s: string, t: string)
    ensures TrimRightBlanks(t) != "" ==> TrimRightBlanks(s + t) == s + TrimRightBlanks(t)
    ensures TrimRightBlanks(t) == "" ==> TrimRightBlanks(s + t) == TrimRightBlanks(s)
  {
    if t == "" {
      assert s + t == s;
    } else {
      var n := |t| - 1;
      assert (s + t)[|s + t| - 1] == t[n];
      assert (s + t)[..|s + t| - 1] == s + t[..n];
      if IsBlank(t[n]) { TrimRightAppend(s, t[..n]); }
    }
  }

  /** The text between the braces ends with a label, not with a comma or with
      blanks alone, so that `,` and another label may follow it. */
  predicate EndsWithLabel(b: string) {
    var t := TrimRightBlanks(b);
    t != "" && t[|t| - 1] == '"'
  }

  function Join(ls: seq<Label>, p: Parse<seq<Label>>): Parse<seq<Label>> {
    match p
    case Fail => Fail
    case Got(more, rest) => Got(ls + more, rest)
  }

  lemma ParseBlockComma(p: string, x: string)
    requires Blank(p)
    ensures ParseBlock(p + "," + x).Fail?
  {
    assert p + "," + x == p + ("," + x);
    SkipBlanksExact(p, "," + x);
    SkipBlanksNone("," + x);
  }

  /** One label, then blanks, then a separator. */
  lemma ParseBlockStep(p: string, q: string, p': string, d: char, x: string)
    requires Blank(p)
    requires Blank(p')
    requires ParseLabel(q).Got? && ParseLabel(q).rest == ""
    requires q != "" && !IsBlank(q[0]) && q[0] != '}'
    requires d == ',' || d == '}'
    ensures ParseBlock(p + q + p' + [d] + x)
         == if d == '}' then Got([ParseLabel(q).item], x) else Join([ParseLabel(q).item], ParseBlock(x))
  {
    var s := p + q + p' + [d] + x;
    assert s == p + (q + (p' + ([d] + x)));
    SkipBlanksExact(p, q + (p' + ([d] + x)));
    ParseLabelLocal(q, p' + ([d] + x));
    assert ParseLabel(q + (p' + ([d] + x))).rest == p' + ([d] + x);
    SkipBlanksExact(p', [d] + x);
  }

  lemma SamePrefix(b: string, c: string, m: string, r: string)
    requires b + m + r == c + m + r
    ensures b == c
  {
    assert |b| == |c|;
    assert b == (b + m + r)[..|b|] && c == (c + m + r)[..|c|];
  }

  /** How a nonempty block starts: blanks, a label, blanks, a separator. */
  lemma ParseBlockHead(s: string) returns (p: string, q: string, p': string, d: char, x: string)
    requires ParseBlock(s).Got?
    requires SkipBlanks(s)[0] != '}'
    ensures Blank(p) && Blank(p')
    ensures q != "" && !IsBlank(q[0]) && q[0] != '}' && q[|q| - 1] == '"'
    ensures ParseLabel(q).Got? && ParseLabel(q).rest == ""
    ensures d == ',' || d == '}'
    ensures s == p + q + p' + [d] + x
    ensures d == '}' ==> ParseBlock(s) == Got([ParseLabel(q).item], x)
    ensures d == ',' ==> ParseBlock(x).Got? && ParseBlock(s) == Join([ParseLabel(q).item], ParseBlock(x))
  {
    hide ParseLabel, SkipBlanks;
    var a := SkipBlanks(s);
    p := SkipBlanksSplit(s);
    q := ParseLabelCut(a);
    var r := ParseLabel(a).rest;
    assert q[0] == a[0];
    p' := SkipBlanksSplit(r);
    d := SkipBlanks(r)[0];
    x := SkipBlanks(r)[1..];
    assert SkipBlanks(r) == [d] + x;
    calc {
      s;
      p + (q + (p' + ([d] + x)));
      p + q + p' + [d] + x;
    }
  }

  lemma LabelEnds(p: string, q: string, p': string)
    requires Blank(p')
    requires q != "" && q[|q| - 1] == '"'
    ensures EndsWithLabel(p + q + p')
  {
    TrimRightExact(p + q, p');
  }

  /** After a comma only the text behind it decides. */
  lemma EndsWithLabelTail(pre: string, tail: string)
    ensures EndsWithLabel(pre + "," + tail) == EndsWithLabel(tail)
  {
    TrimRightAppend(pre + ",", tail);
    assert TrimRightBlanks(pre + ",") == pre + ",";
  }

  lemma EmptyBlockEnds(b: string)
    requires Blank(b)
    ensures !EndsWithLabel(b)
  {
    TrimRightExact("", b);
    assert "" + b == b;
  }

  /** The three shapes of block text, each with `,x` appended. */
  lemma ExtendEmpty(b: string, rest: string, x: string)
    requires ParseBlock(b + "}" + rest).Got? && ParseBlock(b + "}" + rest).rest == rest
    requires SkipBlanks(b + "}" + rest)[0] == '}'
    ensures !EndsWithLabel(b) && ParseBlock(b + "," + x) == Fail
  {
    var p := SkipBlanksSplit(b + "}" + rest);
    assert b + "}" + rest == p + "}" + rest;
    SamePrefix(b, p, "}", rest);
    EmptyBlockEnds(b);
    ParseBlockComma(b, x);
  }

  lemma ExtendLast(b: string, rest: string, x: string, p: string, q: string, p': string)
    requires Blank(p) && Blank(p')
    requires q != "" && !IsBlank(q[0]) && q[0] != '}' && q[|q| - 1] == '"'
    requires ParseLabel(q).Got? && ParseLabel(q).rest == ""
    requires b + "}" + rest == p + q + p' + "}" + rest
    ensures EndsWithLabel(b) && ParseBlock(b + "," + x) == Join([ParseLabel(q).item], ParseBlock(x))
  {
    SamePrefix(b, p + q + p', "}", rest);
    LabelEnds(p, q, p');
    ParseBlockStep(p, q, p', ',', x);
  }

  lemma ExtendMore(b: string, rest: string, x: string, p: string, q: string, p': string, tail: string,
                   ls: seq<Label>)
    requires Blank(p) && Blank(p')
    requires q != "" && !IsBlank(q[0]) && q[0] != '}' && q[|q| - 1] == '"'
    requires ParseLabel(q).Got? && ParseLabel(q).rest == ""
    requires b + "}" + rest == p + q + p' + "," + tail + "}" + rest
    requires ParseBlock(tail + "," + x) == if EndsWithLabel(tail) then Join(ls, ParseBlock(x)) else Fail
    ensures ParseBlock(b + "," + x)
         == if EndsWithLabel(b) then Join([ParseLabel(q).item] + ls, ParseBlock(x)) else Fail
  {
    hide ParseBlock, ParseLabel, EndsWithLabel, TrimRightBlanks, Blank;
    var pre := p + q + p';
    SamePrefix(b, pre + "," + tail, "}", rest);
    EndsWithLabelTail(pre, tail);
    JoinTwice([ParseLabel(q).item], ls, ParseBlock(x));
    assert b + "," + x == p + q + p' + [','] + (tail + "," + x);
    ParseBlockStep(p, q, p', ',', tail + "," + x);
  }

  /** Appending `,x` to the text of a well-formed block appends the labels of x,
      exactly when that text ends with a label; otherwise the result is malformed. */
  lemma {:induction false} ParseBlockExtend(b: string, rest: string, x: string)
    requires ParseBlock(b + "}" + rest).Got? && ParseBlock(b + "}" + rest).rest == rest
    ensures ParseBlock(b + "," + x)
         == if EndsWithLabel(b) then Join(ParseBlock(b + "}" + rest).item, ParseBlock(x)) else Fail
    decreases |b|
  {
    hide ParseBlock, ParseLabel, EndsWithLabel, SkipBlanks;
    var s := b + "}" + rest;
    SkipBlanksOfBlock(s);
    if SkipBlanks(s)[0] == '}' {
      ExtendEmpty(b, rest, x);
    } else {
      var p, q, p', d, y := ParseBlockHead(s);
      if d == '}' {
        ExtendLast(b, rest, x, p, q, p');
      } else {
        var tail := ParseBlockSplit(y);
        Assoc4(p + q + p' + ",", tail, "}", rest);
        Assoc3(tail, "}", rest);
        ShorterTail(b, rest, p + q + p', tail);
        ParseBlockExtend(tail, rest, x);
        ExtendMore(b, rest, x, p, q, p', tail, ParseBlock(y).item);
      }
    }
  }

  lemma JoinTwice(a: seq<Label>, b: seq<Label>, p: Parse<seq<Label>>)
    ensures Join(a, Join(b, p)) == Join(a + b, p)
  {
    if p.Got? { assert a + (b + p.item) == a + b + p.item; }
  }

  // ---- Whole lines from their tokens --------------------------------------

  lemma {:induction false} TokenLenExact(p: string, s: string)
    requires forall c :: c in p ==> !IsBlank(c)
    requires s == "" || IsBlank(s[0])
    ensures TokenLen(p + s) == |p|
  {
    if p == "" {
      assert p + s == s;
    } else {
      assert p == [p[0]] + p[1..];
      TokenLenExact(p[1..], s);
      assert (p + s)[1..] == p[1..] + s;
    }
  }

  predicate IsTailChar(c: char) {
    IsLetter(c) || IsDigit(c) || c == '+' || c == '-' || c == '.'
  }

  /** A tail without its trailing blanks reads the same, ends with a value or
      timestamp character, and holds no brace, quote or `#`. */
  lemma ParseTailTrim(s: string) returns (t: string, p: string)
    requires ParseTail(s).Some?
    ensures s == t + p && Blank(p) && ParseTail(t) == ParseTail(s)
    ensures t != "" && IsTailChar(t[|t| - 1])
    ensures forall c :: c in t ==> IsBlank(c) || IsTailChar(c)
    ensures s[0] == t[0]
  {
    hide SkipBlanks, TokenLen;
    var v := SkipBlanks(s);
    var p0 := SkipBlanksSplit(s);
    var n := TokenLen(v);
    var w := v[..n];
    var u := SkipBlanks(v[n..]);
    var p1 := SkipBlanksSplit(v[n..]);
    assert v == w + v[n..];
    assert w[|w| - 1] in w;
    if u == "" {
      t, p := p0 + w, p1;
      assert s == t + p;
      ValueTail(p0, w);
    } else {
      var m := TokenLen(u);
      var ts := u[..m];
      assert ts != "";
      var p2 := SkipBlanksSplit(u[m..]);
      assert u == ts + u[m..] && u[m..] == p2;
      assert p1 != "" by { assert n < |v| && IsBlank(v[n]); }
      t, p := p0 + w + p1 + ts, p2;
      assert s == p0 + (w + (p1 + (ts + p2)));
      assert s == t + p;
      StampTail(p0, w, p1, ts);
      TimestampChars(ts);
      assert ts[|ts| - 1] in ts;
    }
  }

  lemma TimestampChars(ts: string)
    requires IsTimestamp(ts)
    ensures forall c :: c in ts ==> IsTailChar(c) && !IsBlank(c)
  {
    assert ts == [ts[0]] + ts[1..];
  }

  lemma ValueTail(p0: string, w: string)
    requires Blank(p0) && IsValue(w)
    ensures ParseTail(p0 + w) == Some((w, None))
  {
    assert w[0] in w;
    SkipBlanksExact(p0, w);
    TokenLenExact(w, "");
    assert w + "" == w && w[|w|..] == "" && w[..|w|] == w;
  }

  lemma StampTail(p0: string, w: string, p1: string, ts: string)
    requires Blank(p0) && IsValue(w) && Blank(p1) && p1 != "" && IsTimestamp(ts)
    ensures ParseTail(p0 + w + p1 + ts) == Some((w, Some(ts)))
  {
    var v := w + (p1 + ts);
    assert w[0] in w && p1[0] in p1;
    assert p0 + w + p1 + ts == p0 + v;
    SkipBlanksExact(p0, v);
    TokenLenExact(w, p1 + ts);
    assert v[..|w|] == w && v[|w|..] == p1 + ts;
    TimestampChars(ts);
    assert ts[0] in ts;
    SkipBlanksExact(p1, ts);
    TokenLenExact(ts, "");
    assert ts + "" == ts && ts[|ts|..] == "" && ts[..|ts|] == ts;
  }

  /** Reading a line with a label block from its pieces. */
  lemma ParseSampleBlock(p: string, name: string, p': string, s: string)
    requires Blank(p) && Blank(p') && ValidMetricName(name)
    ensures ParseSample(p + name + p' + "{" + s)
         == match ParseBlock(s) case Fail => None case Got(ls, rest) => Finish(name, ls, rest)
  {
    var b := "{" + s;
    var a := name + (p' + b);
    assert p + name + p' + "{" + s == p + a;
    assert !IsBlank(name[0]) by { assert name[0] in name; }
    SkipBlanksExact(p, a);
    BlanksThenOther(p', b);
    NameLenExact(name, p' + b);
    assert a[..|name|] == name && a[|name|..] == p' + b;
    SkipBlanksExact(p', b);
    assert b[1..] == s;
  }

  /** Reading a line without a label block from its pieces. */
  lemma ParseSamplePlain(name: string, mid: string, s: string)
    requires ValidMetricName(name) && Blank(mid) && mid != ""
    requires s != "" && !IsBlank(s[0]) && s[0] != '{'
    ensures ParseSample(name + (mid + s)) == Finish(name, [], mid + s)
  {
    hide ParseBlock, Finish, ParseTail;
    var a := name + (mid + s);
    assert name[0] in name && mid[0] in mid;
    SkipBlanksNone(a);
    assert (mid + s)[0] == mid[0];
    NameLenExact(name, mid + s);
    CutAt(name, mid + s);
    SkipBlanksExact(mid, s);
  }

  /** The pieces of a well-formed line: with a label block, or without one. */
  datatype Shape =
    | WithBlock(pre: string, name: string, mid: string, body: string, tail: string, post: string)
    | Plain(pre: string, name: string, tail: string, post: string)

  ghost predicate IsShape(line: string, h: Shape) {
    && Blank(h.pre) && Blank(h.post) && ValidMetricName(h.name)
    && ParseTail(h.tail).Some?
    && h.tail != "" && IsTailChar(h.tail[|h.tail| - 1])
    && (forall c :: c in h.tail ==> IsBlank(c) || IsTailChar(c))
    && match h
       case WithBlock(pre, name, mid, body, tail, post) =>
         && Blank(mid)
         && line == pre + name + mid + "{" + body + "}" + tail + post
         && ParseBlock(body + "}" + tail).Got? && ParseBlock(body + "}" + tail).rest == tail
         && ParseSample(line) == Finish(name, ParseBlock(body + "}" + tail).item, tail)
       case Plain(pre, name, tail, post) =>
         && IsBlank(tail[0])
         && line == pre + name + tail + post
         && ParseSample(line) == Finish(name, [], tail)
  }

  lemma CutEmpty(b: string, rest: string, x: string)
    requires ParseBlock(b + "}" + rest).Got? && ParseBlock(b + "}" + rest).rest == rest
    requires SkipBlanks(b + "}" + rest)[0] == '}'
    ensures ParseBlock(b + "}" + rest).item == [] && ParseBlock(b + "}" + x) == Got([], x)
  {
    var p := SkipBlanksSplit(b + "}" + rest);
    assert b + "}" + rest == p + "}" + rest;
    SamePrefix(b, p, "}", rest);
    Assoc3(b, "}", x);
    SkipBlanksExact(b, "}" + x);
  }

  lemma CutMore(b: string, rest: string, x: string, p: string, q: string, p': string, tail: string, ls: seq<Label>)
    requires Blank(p) && Blank(p')
    requires q != "" && !IsBlank(q[0]) && q[0] != '}'
    requires ParseLabel(q).Got? && ParseLabel(q).rest == ""
    requires b + "}" + rest == p + q + p' + "," + tail + "}" + rest
    requires ParseBlock(tail + "}" + x) == Got(ls, x)
    ensures ParseBlock(b + "}" + x) == Got([ParseLabel(q).item] + ls, x)
  {
    hide ParseBlock, ParseLabel, Blank;
    SamePrefix(b, p + q + p' + "," + tail, "}", rest);
    Assoc4(p + q + p' + [','], tail, "}", x);
    Assoc3(tail, "}", x);
    ParseBlockStep(p, q, p', ',', tail + "}" + x);
  }

  lemma CutLast(b: string, rest: string, x: string, p: string, q: string, p': string)
    requires Blank(p) && Blank(p')
    requires q != "" && !IsBlank(q[0]) && q[0] != '}'
    requires ParseLabel(q).Got? && ParseLabel(q).rest == ""
    requires b + "}" + rest == p + q + p' + "}" + rest
    ensures ParseBlock(b + "}" + x) == Got([ParseLabel(q).item], x)
  {
    hide ParseBlock, ParseLabel, Blank;
    SamePrefix(b, p + q + p', "}", rest);
    ParseBlockStep(p, q, p', '}', x);
  }

  /** Dropping text behind the block does not change what the block reads. */
  lemma {:induction false} ParseBlockCut(b: string, rest: string, x: string)
    requires ParseBlock(b + "}" + rest).Got? && ParseBlock(b + "}" + rest).rest == rest
    ensures ParseBlock(b + "}" + x) == Got(ParseBlock(b + "}" + rest).item, x)
    decreases |b|
  {
    hide ParseBlock, ParseLabel, SkipBlanks;
    var s := b + "}" + rest;
    SkipBlanksOfBlock(s);
    if SkipBlanks(s)[0] == '}' {
      CutEmpty(b, rest, x);
    } else {
      var p, q, p', d, y := ParseBlockHead(s);
      if d == '}' {
        CutLast(b, rest, x, p, q, p');
      } else {
        var tail := ParseBlockSplit(y);
        Assoc4(p + q + p' + ",", tail, "}", rest);
        Assoc3(tail, "}", rest);
        ShorterTail(b, rest, p + q + p', tail);
        ParseBlockCut(tail, rest, x);
        CutMore(b, rest, x, p, q, p', tail, ParseBlock(y).item);
      }
    }
  }

  lemma ShorterTail(b: string, rest: string, pre: string, tail: string)
    requires b + "}" + rest == pre + "," + tail + "}" + rest
    ensures |tail| < |b|
  {
  }

  lemma SkipBlanksOfBlock(s: string)
    requires ParseBlock(s).Got?
    ensures SkipBlanks(s) != ""
  {
    assert ParseLabel("").Fail?;
  }

  /** The two ways a line can be well formed, from where its name ends. */
  lemma SampleParts(line: string) returns (pre: string, name: string, mid: string, s: string)
    requires ParseSample(line).Some?
    ensures Blank(pre) && Blank(mid) && ValidMetricName(name) && line == pre + name + (mid + s)
    ensures (s != "" && s[0] == '{') || mid != ""
    ensures s != "" && s[0] == '{' ==>
      && ParseBlock(s[1..]).Got?
      && ParseSample(line) == Finish(name, ParseBlock(s[1..]).item, ParseBlock(s[1..]).rest)
    ensures !(s != "" && s[0] == '{') ==> ParseSample(line) == Finish(name, [], mid + s)
  {
    hide ParseBlock, Finish, SkipBlanks, NameLen;
    pre := SkipBlanksSplit(line);
    var a := SkipBlanks(line);
    name := a[..NameLen(a)];
    mid := SkipBlanksSplit(a[NameLen(a)..]);
    s := SkipBlanks(a[NameLen(a)..]);
    assert a == name + (mid + s);
    Assoc3(pre, name, mid + s);
  }

  lemma BlockShape(line: string, head: string, s: string) returns (body: string, tail: string, post: string)
    requires line == head + s
    requires ParseBlock(s).Got? && ParseTail(ParseBlock(s).rest).Some?
    ensures line == head + body + "}" + tail + post
    ensures ParseBlock(body + "}" + tail) == Got(ParseBlock(s).item, tail)
    ensures ParseTail(tail) == ParseTail(ParseBlock(s).rest)
    ensures Blank(post) && tail != "" && IsTailChar(tail[|tail| - 1])
    ensures forall c :: c in tail ==> IsBlank(c) || IsTailChar(c)
  {
    body := ParseBlockSplit(s);
    tail, post := ParseTailTrim(ParseBlock(s).rest);
    Assoc5(head, body, "}", tail, post);
    Assoc4(body, "}", tail, post);
    ParseBlockCut(body, ParseBlock(s).rest, tail);
  }

  lemma NoBrace(pre: string, name: string, tail: string, post: string)
    requires Blank(pre) && ValidMetricName(name) && Blank(post)
    requires forall c :: c in tail ==> IsBlank(c) || IsTailChar(c)
    ensures '{' !in pre + name + tail + post
  {
    assert forall c :: c in name ==> IsNameChar(c);
  }

  lemma PlainShape(line: string, pre: string, name: string, s: string) returns (h: Shape)
    requires Blank(pre) && ValidMetricName(name) && line == pre + name + s
    requires s != "" && IsBlank(s[0]) && ParseTail(s).Some?
    requires ParseSample(line) == Finish(name, [], s)
    ensures IsShape(line, h) && h.Plain?
    ensures '{' !in line
  {
    hide ParseSample, ParseTail, ParseBlock;
    var tail, post := ParseTailTrim(s);
    h := Plain(pre, name, tail, post);
    Assoc3(pre + name, tail, post);
    NoBrace(pre, name, tail, post);
  }

  lemma SampleShape(line: string) returns (h: Shape)
    requires ParseSample(line).Some?
    ensures IsShape(line, h)
    ensures h.WithBlock? <==> '{' in line
  {
    hide ParseSample, ParseBlock, ParseTail, ValidMetricName;
    var pre, name, mid, s := SampleParts(line);
    if s != "" && s[0] == '{' {
      assert line == pre + name + mid + "{" + s[1..] by {
        assert s == "{" + s[1..];
        Assoc4(pre + name, mid, "{", s[1..]);
      }
      var body, tail, post := BlockShape(line, pre + name + mid + "{", s[1..]);
      h := WithBlock(pre, name, mid, body, tail, post);
      assert '{' in line by { assert line[|pre + name + mid|] == '{'; }
    } else {
      assert (mid + s)[0] == mid[0] && mid[0] in mid;
      h := PlainShape(line, pre, name, mid + s);
    }
  }
}
