/** Label injection into Prometheus exposition text (internal/pkg/proxy/relabel.go). */
module Relabel {
  import opened Text
  import opened Exposition

  // ---- Label values ------------------------------------------------------

  /** The three replacement passes, in the order the proxy runs them. */
  function EscapeLabelValue(s: string): string {
    var s1 := ReplaceAll(s, "\\", "\\\\");
    var s2 := ReplaceAll(s1, "\"", "\\\"");
    ReplaceAll(s2, "\n", "\\n")
  }

  // ---- Extra labels ------------------------------------------------------

  /** `k1="v1",k2="v2",...` with escaped values. */
  function RenderLabels(ls: seq<Label>): string {
    if ls == [] then ""
    else if |ls| == 1 then RenderLabel(ls[0])
    else RenderLabel(ls[0]) + "," + RenderLabels(ls[1..])
  }

  function RenderLabel(l: Label): string {
    l.0 + "=\"" + EscapeLabelValue(l.1) + "\""
  }

  /** The keys of a label map in increasing order. */
  ghost function SortedKeys(ks: set<string>): (r: seq<string>)
    ensures StrictlySorted(r)
    ensures forall k :: k in r <==> k in ks
  {
    if ks == {} then []
    else
      var k :| k in ks;
      Insert(k, SortedKeys(ks - {k}))
  }

  ghost function SortedLabels(m: map<string, string>): (r: seq<Label>)
    ensures |r| == |SortedKeys(m.Keys)|
    ensures forall i :: 0 <= i < |r| ==> r[i].0 == SortedKeys(m.Keys)[i] && r[i].0 in m && r[i].1 == m[r[i].0]
  {
    var ks := SortedKeys(m.Keys);
    assert forall i :: 0 <= i < |ks| ==> ks[i] in ks;
    seq(|ks|, i requires 0 <= i < |ks| => (ks[i], m[ks[i]]))
  }

  /** What `FormatExtraLabels` prints: independent of any map order. */
  ghost function Format(m: map<string, string>): string {
    RenderLabels(SortedLabels(m))
  }

  /** The keys of a Go map, in whatever order ranging over it yields them. */
  method MapKeys(m: map<string, string>) returns (keys: seq<string>)
    ensures forall k :: k in keys <==> k in m
    ensures forall i, j :: 0 <= i < j < |keys| ==> keys[i] != keys[j]
  {
    keys := [];
    var rest := m.Keys;
    while rest != {}
      invariant forall k :: k in keys <==> k in m && k !in rest
      invariant rest <= m.Keys
      invariant forall i, j :: 0 <= i < j < |keys| ==> keys[i] != keys[j]
    {
      var k :| k in rest;
      keys := keys + [k];
      rest := rest - {k};
    }
  }

  method FormatExtraLabels(labels: map<string, string>) returns (text: string)
    ensures text == Format(labels)
  {
    if |labels| == 0 {
      assert labels == map[];
      return "";
    }
    var keys := MapKeys(labels);
    keys := SortStrings(keys);
    StrictlySortedUnique(keys, SortedKeys(labels.Keys));
    text := WriteLabels(keys, labels, SortedLabels(labels));
  }

  method WriteLabels(keys: seq<string>, labels: map<string, string>, ghost ls: seq<Label>) returns (text: string)
    requires |keys| == |ls|
    requires forall i :: 0 <= i < |ls| ==> ls[i].0 == keys[i] && keys[i] in labels && ls[i].1 == labels[keys[i]]
    ensures text == RenderLabels(ls)
  {
    text := "";
    for i := 0 to |keys|
      invariant text == RenderLabels(ls[..i])
    {
      RenderPrefix(ls, i);
      if i > 0 { text := text + ","; }
      Assoc5(text, keys[i], "=\"", EscapeLabelValue(labels[keys[i]]), "\"");
      Assoc4(keys[i], "=\"", EscapeLabelValue(labels[keys[i]]), "\"");
      text := text + keys[i] + "=\"" + EscapeLabelValue(labels[keys[i]]) + "\"";
    }
    assert ls[..|keys|] == ls;
  }

  lemma RenderPrefix(ls: seq<Label>, i: nat)
    requires i < |ls|
    ensures RenderLabels(ls[..i + 1])
         == (if i == 0 then RenderLabels(ls[..i]) else RenderLabels(ls[..i]) + ",") + RenderLabel(ls[i])
  {
    RenderAppend(ls[..i], ls[i]);
    assert ls[..i + 1] == ls[..i] + [ls[i]];
  }


  lemma {:induction false} RenderAppend(ls: seq<Label>, l: Label)
    ensures RenderLabels(ls + [l]) == if ls == [] then RenderLabel(l) else RenderLabels(ls) + "," + RenderLabel(l)
  {
    if ls == [] {
      assert [] + [l] == [l];
    } else {
      assert (ls + [l])[1..] == ls[1..] + [l];
      RenderAppend(ls[1..], l);
      if |ls| > 1 {
        assert RenderLabel(ls[0]) + "," + (RenderLabels(ls[1..]) + "," + RenderLabel(l))
            == RenderLabel(ls[0]) + "," + RenderLabels(ls[1..]) + "," + RenderLabel(l);
      }
    }
  }

  // ---- Lines -------------------------------------------------------------

  /** Text up to each newline; no empty piece after the last one. */
  function RawLines(s: string): seq<string>
    decreases |s|
  {
    if s == "" then []
    else
      var i := IndexByte(s, '\n');
      if i < 0 then [s] else [s[..i]] + RawLines(s[i + 1..])
  }

  /** bufio.ScanLines drops one carriage return at the end of a line. */
  function DropCR(l: string): string {
    if l != "" && l[|l| - 1] == '\r' then l[..|l| - 1] else l
  }

  function DropCRs(ls: seq<string>): (r: seq<string>)
    ensures |r| == |ls|
    ensures forall i :: 0 <= i < |ls| ==> r[i] == DropCR(ls[i])
  {
    if ls == [] then [] else [DropCR(ls[0])] + DropCRs(ls[1..])
  }

  function Lines(s: string): seq<string> {
    DropCRs(RawLines(s))
  }

  /** The scanner gives up when a line and its newline do not fit its buffer. */
  predicate TooLong(s: string, limit: nat) {
    exists l :: l in RawLines(s) && |l| >= limit
  }

  // ---- One line ----------------------------------------------------------

  /** Position of the first space or tab, or -1. */
  function IndexBlank(s: string): (i: int)
    ensures -1 <= i < |s|
    ensures i >= 0 ==> IsBlank(s[i])
    ensures forall k :: 0 <= k < |s| && (i < 0 || k < i) ==> !IsBlank(s[k])
  {
    if TokenLen(s) == |s| then
      assert s[..|s|] == s;
      assert forall k :: 0 <= k < |s| ==> s[k] in s;
      -1
    else
      assert forall k :: 0 <= k < TokenLen(s) ==> s[k] in s[..TokenLen(s)];
      TokenLen(s)
  }

  /** The rewriting of one line, with `f` the rendered extra labels. */
  function InjectLine(line: string, f: string): string {
    InjectTrimmed(line, TrimSpace(line), f)
  }

  function InjectTrimmed(line: string, trimmed: string, f: string): string {
    if trimmed == "" || trimmed[0] == '#' then line
    else
      var open := IndexByte(trimmed, '{');
      if open != -1 then
        var close := LastIndexByte(trimmed, '}');
        if close == -1 || close < open then line
        else
          var existing := trimmed[open + 1..close];
          trimmed[..open] + "{" + (if |existing| > 0 then existing + "," else "") + f + "}" + trimmed[close + 1..]
      else
        var space := IndexBlank(trimmed);
        if space == -1 then line
        else trimmed[..space] + "{" + f + "}" + trimmed[space..]
  }

  function InjectLines(ls: seq<string>, f: string): string {
    if ls == [] then ""
    else InjectLine(ls[0], f) + "\n" + InjectLines(ls[1..], f)
  }

  // ---- Whole texts -------------------------------------------------------

  datatype Result = Ok(text: string) | ScanError

  ghost function Inject(raw: string, extra: map<string, string>, limit: nat): Result {
    if extra == map[] then Ok(raw)
    else if TooLong(raw, limit) then ScanError
    else Ok(InjectLines(Lines(raw), Format(extra)))
  }

  lemma {:induction false} InjectLinesAppend(a: seq<string>, b: seq<string>, f: string)
    ensures InjectLines(a + b, f) == InjectLines(a, f) + InjectLines(b, f)
  {
    if a == [] {
      assert a + b == b;
    } else {
      assert (a + b)[1..] == a[1..] + b;
      InjectLinesAppend(a[1..], b, f);
    }
  }

  lemma FirstLine(s: string, l: string, next: string, limit: nat)
    requires RawLines(s) == [l] + RawLines(next)
    ensures TooLong(s, limit) <==> |l| >= limit || TooLong(next, limit)
    ensures forall f :: InjectLines(Lines(s), f) == InjectLine(DropCR(l), f) + "\n" + InjectLines(Lines(next), f)
  {
    assert RawLines(s)[0] == l && RawLines(s)[1..] == RawLines(next);
    assert Lines(s)[1..] == Lines(next);
  }

  /** The body of the scanning loop: what is written for one line. */
  method RewriteLine(line: string, formatted: string) returns (out: string)
    ensures out == InjectLine(line, formatted) + "\n"
  {
    var trimmed := TrimSpace(line);
    if |trimmed| == 0 || trimmed[0] == '#' {
      return line + "\n";
    }
    var braceOpen := IndexByte(trimmed, '{');
    if braceOpen != -1 {
      var braceClose := LastIndexByte(trimmed, '}');
      if braceClose == -1 || braceClose < braceOpen {
        return line + "\n";
      }
      var metricName := trimmed[..braceOpen];
      var existingLabels := trimmed[braceOpen + 1..braceClose];
      var rest := trimmed[braceClose + 1..];
      out := metricName + "{";
      if |existingLabels| > 0 {
        out := out + existingLabels + ",";
      }
      out := out + formatted + "}" + rest + "\n";
    } else {
      var spaceIdx := IndexBlank(trimmed);
      if spaceIdx == -1 {
        return line + "\n";
      }
      out := trimmed[..spaceIdx] + "{" + formatted + "}" + trimmed[spaceIdx..] + "\n";
    }
  }

  /** The scanning loop of the proxy. */
  method InjectLabels(raw: string, extra: map<string, string>, limit: nat) returns (r: Result)
    ensures r == Inject(raw, extra, limit)
    ensures extra == map[] ==> r == Ok(raw)
    ensures r.ScanError? <==> extra != map[] && exists l :: l in RawLines(raw) && |l| >= limit
  {
    if |extra| == 0 {
      assert extra == map[];
      return Ok(raw);
    }
    var formatted := FormatExtraLabels(extra);
    var out := "";
    var todo := raw;
    while todo != ""
      invariant TooLong(raw, limit) == TooLong(todo, limit)
      invariant out + InjectLines(Lines(todo), formatted) == InjectLines(Lines(raw), formatted)
      decreases |todo|
    {
      var newline := IndexByte(todo, '\n');
      var rawLine := if newline < 0 then todo else todo[..newline];
      var next := if newline < 0 then "" else todo[newline + 1..];
      FirstLine(todo, rawLine, next, limit);
      if |rawLine| >= limit {
        return ScanError;
      }
      var text := RewriteLine(DropCR(rawLine), formatted);
      Assoc3(out, text, InjectLines(Lines(next), formatted));
      out := out + text;
      todo := next;
    }
    r := Ok(out);
  }
}
