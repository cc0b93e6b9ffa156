/** The metadata lines of the aggregated page: the text exposition format allows one
    HELP and one TYPE line for each metric name. */
module Metadata {
  import opened Text
  import opened Config
  import opened Exposition
  import opened Relabel
  import opened Injection
  import opened InjectionLaws
  import opened Aggregate
  import opened Collisions

  /** What a metadata line declares: HELP or TYPE, and of which metric. */
  type Declaration = (string, string)

  function Declares(l: string): Option<Declaration> {
    var a := SkipBlanks(l);
    if a == "" || a[0] != '#' then None
    else
      var b := SkipBlanks(a[1..]);
      var kind := b[..TokenLen(b)];
      var c := SkipBlanks(b[TokenLen(b)..]);
      var name := c[..TokenLen(c)];
      if (kind == "HELP" || kind == "TYPE") && name != "" then Some((kind, name)) else None
  }

  /** Nothing is declared twice. */
  ghost predicate DeclaresOnce(ls: seq<string>) {
    forall i, j :: 0 <= i < j < |ls| && Declares(ls[i]).Some? ==> Declares(ls[i]) != Declares(ls[j])
  }

  ghost function Declared(ls: seq<string>): set<Declaration> {
    set i | 0 <= i < |ls| && Declares(ls[i]).Some? :: Declares(ls[i]).value
  }

  lemma DeclaredAppend(a: seq<string>, b: seq<string>)
    ensures Declared(a + b) == Declared(a) + Declared(b)
    ensures DeclaresOnce(a + b) <==> DeclaresOnce(a) && DeclaresOnce(b) && Declared(a) !! Declared(b)
  {
    hide Declares;
    var c := a + b;
    assert forall i :: 0 <= i < |a| ==> c[i] == a[i];
    assert forall j :: 0 <= j < |b| ==> c[|a| + j] == b[j];
    forall d | d in Declared(c) ensures d in Declared(a) + Declared(b) {
      var i :| 0 <= i < |c| && Declares(c[i]) == Some(d);
      if i < |a| { assert Declares(a[i]) == Some(d); } else { assert Declares(b[i - |a|]) == Some(d); }
    }
    forall d | d in Declared(a) ensures d in Declared(c) {
      var i :| 0 <= i < |a| && Declares(a[i]) == Some(d);
      assert Declares(c[i]) == Some(d);
    }
    forall d | d in Declared(b) ensures d in Declared(c) {
      var i :| 0 <= i < |b| && Declares(b[i]) == Some(d);
      assert Declares(c[|a| + i]) == Some(d);
    }
    OnceAppend(a, b);
  }

  lemma OnceAppend(a: seq<string>, b: seq<string>)
    ensures DeclaresOnce(a + b) <==> DeclaresOnce(a) && DeclaresOnce(b) && Declared(a) !! Declared(b)
  {
    hide Declares;
    var c := a + b;
    if DeclaresOnce(c) {
      forall i, j | 0 <= i < j < |a| && Declares(a[i]).Some? ensures Declares(a[i]) != Declares(a[j]) {
        assert c[i] == a[i] && c[j] == a[j];
      }
      forall i, j | 0 <= i < j < |b| && Declares(b[i]).Some? ensures Declares(b[i]) != Declares(b[j]) {
        assert c[|a| + i] == b[i] && c[|a| + j] == b[j];
      }
      forall i, j | 0 <= i < |a| && 0 <= j < |b| && Declares(a[i]).Some? ensures Declares(a[i]) != Declares(b[j]) {
        assert c[i] == a[i] && c[|a| + j] == b[j];
      }
    }
    if DeclaresOnce(a) && DeclaresOnce(b) && Declared(a) !! Declared(b) {
      forall i, j | 0 <= i < j < |c| && Declares(c[i]).Some? ensures Declares(c[i]) != Declares(c[j]) {
        if i < |a| <= j {
          assert Declares(a[i]).value in Declared(a);
          assert Declares(b[j - |a|]).Some? ==> Declares(b[j - |a|]).value in Declared(b);
        }
      }
    }
  }

  // ---- Injection leaves metadata alone --------------------------------------------

  /** Blanks before a `#` are white space to the proxy too. */
  lemma {:induction false} HashIsComment(l: string)
    requires SkipBlanks(l) != "" && SkipBlanks(l)[0] == '#'
    ensures IsComment(l)
  {
    var p := SkipBlanksSplit(l);
    var a := SkipBlanks(l);
    TrimLeftExact(p, a);
    TrimRightKeepsHead(a);
  }

  lemma TrimRightKeepsHead(a: string)
    requires a != "" && a[0] == '#'
    ensures TrimRightSpace(a) == "" || TrimRightSpace(a)[0] == '#'
  {
    TrimRightChars(a);
  }

  /** A line with the extras written into it, or a malformed one, starts with no `#`. */
  lemma RewrittenDeclaresNothing(l: string, f: string)
    requires !IsComment(l)
    ensures Declares(InjectLine(l, f)).None?
  {
    if SkipBlanks(l) != "" && SkipBlanks(l)[0] == '#' { HashIsComment(l); }
    TrimSpaceTrims(l);
    var t := TrimSpace(l);
    assert !IsBlank(t[0]);
    if InjectLine(l, f) != l { RewrittenHead(l, t, f); }
  }

  lemma RewrittenHead(l: string, t: string, f: string)
    requires t != "" && !IsBlank(t[0]) && t[0] != '#' && InjectTrimmed(l, t, f) != l
    ensures var out := InjectTrimmed(l, t, f); out != "" && !IsBlank(out[0]) && out[0] != '#'
  {
  }

  lemma SameDeclares(l: string, f: string)
    ensures Declares(InjectLine(l, f)) == Declares(l)
  {
    if !IsComment(l) {
      RewrittenDeclaresNothing(l, f);
      if SkipBlanks(l) != "" && SkipBlanks(l)[0] == '#' { HashIsComment(l); }
    }
  }

  lemma SameMetadata(a: seq<string>, b: seq<string>)
    requires |a| == |b| && forall i :: 0 <= i < |a| ==> Declares(a[i]) == Declares(b[i])
    ensures Declared(a) == Declared(b) && (DeclaresOnce(a) <==> DeclaresOnce(b))
  {
    hide Declares;
  }

  lemma SectionMetadata(r: ScrapeResult, limit: nat)
    requires IsUp(r, limit) && OneLineKeys(r.target.labels)
    ensures Declared(RawLines(Section(r, limit))) == Declared(Lines(r.data.value))
    ensures DeclaresOnce(RawLines(Section(r, limit))) <==> DeclaresOnce(Lines(r.data.value))
  {
    var ls, f := Lines(r.data.value), Format(ExtraLabels(r.target));
    hide Declares, DeclaresOnce, Declared, RawLines, Section, IsUp, OneLineKeys, ExtraLabels, Lines, Format, InjectLine;
    SectionText(r, limit);
    var out := InjectEach(ls, f);
    forall i | 0 <= i < |ls| ensures Declares(out[i]) == Declares(ls[i]) { SameDeclares(ls[i], f); }
    SameMetadata(ls, out);
    DeclaredAppend(out, [""]);
    BlankDeclaresNothing();
  }

  lemma BlankDeclaresNothing()
    ensures Declared([""]) == {} && DeclaresOnce([""])
  {
    assert Declares([""][0]).None?;
  }

  // ---- The page --------------------------------------------------------------------

  /** What a scraped target's text declares. */
  ghost function DeclaredBy(r: ScrapeResult, limit: nat): set<Declaration> {
    if IsUp(r, limit) then Declared(Lines(r.data.value)) else {}
  }

  ghost function DeclaredByAll(rs: seq<ScrapeResult>, limit: nat): set<Declaration> {
    set k, d | 0 <= k < |rs| && d in DeclaredBy(rs[k], limit) :: d
  }

  /** No target declares anything twice, and no two declare the same. */
  ghost predicate Apart(rs: seq<ScrapeResult>, limit: nat) {
    && (forall k :: 0 <= k < |rs| && IsUp(rs[k], limit) ==> DeclaresOnce(Lines(rs[k].data.value)))
    && (forall j, k :: 0 <= j < k < |rs| ==> DeclaredBy(rs[j], limit) !! DeclaredBy(rs[k], limit))
  }

  ghost predicate OneLineTargets(rs: seq<ScrapeResult>, limit: nat) {
    forall k :: 0 <= k < |rs| && IsUp(rs[k], limit) ==> OneLineKeys(rs[k].target.labels)
  }

  lemma ApartStep(rs: seq<ScrapeResult>, limit: nat)
    requires rs != []
    ensures DeclaredByAll(rs, limit) == DeclaredBy(rs[0], limit) + DeclaredByAll(rs[1..], limit)
    ensures Apart(rs, limit) <==>
      && (IsUp(rs[0], limit) ==> DeclaresOnce(Lines(rs[0].data.value)))
      && Apart(rs[1..], limit) && DeclaredBy(rs[0], limit) !! DeclaredByAll(rs[1..], limit)
    ensures OneLineTargets(rs, limit) ==>
      (IsUp(rs[0], limit) ==> OneLineKeys(rs[0].target.labels)) && OneLineTargets(rs[1..], limit)
  {
    hide IsUp, Lines, DeclaresOnce, DeclaredBy, OneLineKeys;
    var rest := rs[1..];
    assert forall k :: 0 <= k < |rest| ==> rest[k] == rs[k + 1];
    forall d | d in DeclaredByAll(rs, limit) ensures d in DeclaredBy(rs[0], limit) + DeclaredByAll(rest, limit) {
      var k :| 0 <= k < |rs| && d in DeclaredBy(rs[k], limit);
      if k > 0 { assert d in DeclaredBy(rest[k - 1], limit); }
    }
    forall d | d in DeclaredByAll(rest, limit) ensures d in DeclaredByAll(rs, limit) {
      var k :| 0 <= k < |rest| && d in DeclaredBy(rest[k], limit);
      assert d in DeclaredBy(rs[k + 1], limit);
    }
    ApartHead(rs, limit);
  }

  lemma ApartHead(rs: seq<ScrapeResult>, limit: nat)
    requires rs != []
    ensures Apart(rs, limit) <==>
      && (IsUp(rs[0], limit) ==> DeclaresOnce(Lines(rs[0].data.value)))
      && Apart(rs[1..], limit) && DeclaredBy(rs[0], limit) !! DeclaredByAll(rs[1..], limit)
  {
    hide Lines, Enriched, DeclaresOnce, DeclaredBy;
    var rest := rs[1..];
    if Apart(rs, limit) {
      forall k | 0 <= k < |rest| && IsUp(rest[k], limit) ensures DeclaresOnce(Lines(rest[k].data.value)) {
        assert rs[k + 1] == rest[k];
      }
      forall j, k | 0 <= j < k < |rest| ensures DeclaredBy(rest[j], limit) !! DeclaredBy(rest[k], limit) {
        assert rs[j + 1] == rest[j] && rs[k + 1] == rest[k];
      }
    }
    if Apart(rest, limit) && DeclaredBy(rs[0], limit) !! DeclaredByAll(rest, limit) {
      forall j, k | 0 <= j < k < |rs| ensures DeclaredBy(rs[j], limit) !! DeclaredBy(rs[k], limit) {
        assert rs[k] == rest[k - 1];
        if j > 0 {
          assert rs[j] == rest[j - 1];
        } else {
          assert forall d :: d in DeclaredBy(rest[k - 1], limit) ==> d in DeclaredByAll(rest, limit);
        }
      }
      assert forall k :: 1 <= k < |rs| ==> rs[k] == rest[k - 1];
    }
  }

  lemma OneSection(r: ScrapeResult, limit: nat)
    requires IsUp(r, limit) ==> OneLineKeys(r.target.labels)
    ensures Declared(RawLines(Section(r, limit))) == DeclaredBy(r, limit)
    ensures DeclaresOnce(RawLines(Section(r, limit))) <==> (IsUp(r, limit) ==> DeclaresOnce(Lines(r.data.value)))
  {
    if IsUp(r, limit) {
      SectionMetadata(r, limit);
    } else {
      RawLinesOfNothing();
    }
  }

  lemma {:induction false} SectionsMetadata(rs: seq<ScrapeResult>, limit: nat)
    requires OneLineTargets(rs, limit)
    ensures Declared(RawLines(Sections(rs, limit))) == DeclaredByAll(rs, limit)
    ensures DeclaresOnce(RawLines(Sections(rs, limit))) <==> Apart(rs, limit)
  {
    if rs == [] {
      RawLinesOfNothing();
    } else {
      hide Declared, DeclaresOnce, RawLines, Sections, Section, Apart;
      hide DeclaredByAll, DeclaredBy, OneLineTargets, IsUp, Lines;
      ApartStep(rs, limit);
      SectionsMetadata(rs[1..], limit);
      SectionsStep(rs, limit);
      OneSection(rs[0], limit);
      DeclaredAppend(RawLines(Section(rs[0], limit)), RawLines(Sections(rs[1..], limit)));
    }
  }

  const OWN: set<Declaration> :=
    {("HELP", TOTAL), ("TYPE", TOTAL), ("HELP", UP), ("TYPE", UP),
     ("HELP", DURATION), ("TYPE", DURATION), ("HELP", ERRORS), ("TYPE", ERRORS)}

  predicate IsToken(s: string) {
    s != "" && forall c :: c in s ==> !IsBlank(c)
  }

  lemma MetaLine(kind: string, name: string, rest: string)
    requires (kind == "HELP" || kind == "TYPE") && IsToken(name)
    ensures Declares("# " + kind + " " + name + " " + rest) == Some((kind, name))
  {
    var l := "# " + kind + " " + name + " " + rest;
    var c := name + (" " + rest);
    var b := kind + (" " + c);
    assert l == "#" + (" " + b);
    assert IsToken(kind) && kind[0] in kind && name[0] in name;
    SkipBlanksNone(l);
    assert l[1..] == " " + b;
    SkipBlanksExact(" ", b);
    TokenLenExact(kind, " " + c);
    assert b[..|kind|] == kind && b[|kind|..] == " " + c;
    SkipBlanksExact(" ", c);
    TokenLenExact(name, " " + rest);
    assert c[..|name|] == name;
  }

  lemma NoMetaLine(name: string, v: string)
    requires ValidMetricName(name)
    ensures Declares(name + " " + v).None?
  {
    var l := name + " " + v;
    assert l[0] == name[0] && name[0] in name;
    SkipBlanksNone(l);
  }

  lemma TwoDeclared(ls: seq<string>, d: Declaration, e: Declaration)
    requires |ls| == 3 && d != e
    requires Declares(ls[0]) == Some(d) && Declares(ls[1]) == Some(e) && Declares(ls[2]).None?
    ensures Declared(ls) == {d, e} && DeclaresOnce(ls)
  {
    hide Declares;
  }

  lemma MetricText(name: string, kind: string, help: string, v: string)
    ensures MetricLines(name, kind, help, v)
         == ["# " + "HELP" + " " + name + " " + help, "# " + "TYPE" + " " + name + " " + kind, name + " " + v]
  {
    assert "# " + "HELP" + " " == "# HELP " && "# " + "TYPE" + " " == "# TYPE ";
  }

  lemma NameIsToken(name: string)
    requires ValidMetricName(name)
    ensures IsToken(name)
  {
    assert forall c :: c in name ==> IsNameChar(c);
  }

  lemma MetricMetadata(name: string, kind: string, help: string, v: string)
    requires ValidMetricName(name)
    ensures var ls := MetricLines(name, kind, help, v);
      Declared(ls) == {("HELP", name), ("TYPE", name)} && DeclaresOnce(ls)
  {
    hide *;
    NameIsToken(name);
    MetaLine("HELP", name, help);
    MetaLine("TYPE", name, kind);
    NoMetaLine(name, v);
    MetricText(name, kind, help, v);
    TwoDeclared(MetricLines(name, kind, help, v), ("HELP", name), ("TYPE", name));
  }

  lemma FourMetadata(a: seq<string>, b: seq<string>, c: seq<string>, d: seq<string>,
                     na: string, nb: string, nc: string, nd: string)
    requires Declared(a) == {("HELP", na), ("TYPE", na)} && DeclaresOnce(a)
    requires Declared(b) == {("HELP", nb), ("TYPE", nb)} && DeclaresOnce(b)
    requires Declared(c) == {("HELP", nc), ("TYPE", nc)} && DeclaresOnce(c)
    requires Declared(d) == {("HELP", nd), ("TYPE", nd)} && DeclaresOnce(d)
    requires {na} !! {nb} && {na, nb} !! {nc} && {na, nb, nc} !! {nd}
    ensures DeclaresOnce(a + b + c + d)
    ensures Declared(a + b + c + d)
         == {("HELP", na), ("TYPE", na), ("HELP", nb), ("TYPE", nb),
             ("HELP", nc), ("TYPE", nc), ("HELP", nd), ("TYPE", nd)}
  {
    hide Declared, DeclaresOnce;
    DeclaredAppend(a, b);
    DeclaredAppend(a + b, c);
    DeclaredAppend(a + b + c, d);
  }

  lemma SelfMetadata(total: nat, up: nat, elapsed: string, errors: nat)
    ensures var ls := SelfLines(total, up, elapsed, errors); Declared(ls) == OWN && DeclaresOnce(ls)
  {
    SelfNames();
    OwnSet();
    SelfText(total, up, elapsed, errors);
    hide *;
    MetricMetadata(TOTAL, "gauge", TOTAL_HELP, Itoa(total));
    MetricMetadata(UP, "gauge", UP_HELP, Itoa(up));
    MetricMetadata(DURATION, "gauge", DURATION_HELP, elapsed);
    MetricMetadata(ERRORS, "counter", ERRORS_HELP, Itoa(errors));
    FourMetadata(
      MetricLines(TOTAL, "gauge", TOTAL_HELP, Itoa(total)), MetricLines(UP, "gauge", UP_HELP, Itoa(up)),
      MetricLines(DURATION, "gauge", DURATION_HELP, elapsed), MetricLines(ERRORS, "counter", ERRORS_HELP, Itoa(errors)),
      TOTAL, UP, DURATION, ERRORS);
  }

  lemma OwnSet()
    ensures OWN == {("HELP", TOTAL), ("TYPE", TOTAL), ("HELP", UP), ("TYPE", UP),
                    ("HELP", DURATION), ("TYPE", DURATION), ("HELP", ERRORS), ("TYPE", ERRORS)}
  {
  }

  lemma SelfText(total: nat, up: nat, elapsed: string, errors: nat)
    ensures SelfLines(total, up, elapsed, errors)
         == MetricLines(TOTAL, "gauge", TOTAL_HELP, Itoa(total)) + MetricLines(UP, "gauge", UP_HELP, Itoa(up))
          + MetricLines(DURATION, "gauge", DURATION_HELP, elapsed)
          + MetricLines(ERRORS, "counter", ERRORS_HELP, Itoa(errors))
  {
    hide MetricLines, Itoa;
  }

  /** The page declares each metric's help and type once, exactly if no target's text
      declares one twice, no two targets' texts declare the same -- which exporters of
      one kind do -- and none declares a self-metric. */
  lemma PageDeclaresOnceExactlyWhen(rs: seq<ScrapeResult>, elapsed: string, limit: nat)
    requires OneLineTargets(rs, limit) && IsValue(elapsed)
    ensures DeclaresOnce(RawLines(Page(rs, elapsed, limit)))
       <==> Apart(rs, limit) && DeclaredByAll(rs, limit) !! OWN
  {
    hide *;
    var up, errors := CountUp(rs, limit), CountErrors(rs, limit);
    SectionsWhole(rs, limit);
    PageLines(rs, elapsed, limit);
    SelfMetrics(|rs|, up, elapsed, errors);
    SelfMetadata(|rs|, up, elapsed, errors);
    SectionsMetadata(rs, limit);
    DeclaredAppend(RawLines(Sections(rs, limit)), SelfLines(|rs|, up, elapsed, errors));
  }
}
