/** The aggregated page never shows one series for two targets. */
module Collisions {
  import opened Text
  import opened Config
  import opened Exposition
  import opened Relabel
  import opened RelabelProofs
  import opened Injection
  import opened InjectionLaws
  import opened Aggregate

  /** No two lines are samples of the same series. */
  ghost predicate NoCollision(ls: seq<string>) {
    forall i, j :: 0 <= i < j < |ls| && ParseSample(ls[i]).Some? && ParseSample(ls[j]).Some?
      ==> Identity(ParseSample(ls[i]).value) != Identity(ParseSample(ls[j]).value)
  }

  /** Every line is blank, a comment, or a sample. */
  ghost predicate WellFormedText(ls: seq<string>) {
    forall l :: l in ls ==> IsComment(l) || ParseSample(l).Some?
  }

  /** Every sample among the lines carries one of the IDs as its target_id. */
  ghost predicate Tagged(ls: seq<string>, ids: set<string>) {
    forall i :: 0 <= i < |ls| && ParseSample(ls[i]).Some?
      ==> exists id :: id in ids && ("target_id", id) in ParseSample(ls[i]).value.labels
  }

  /** What the theorem asks of one scraped target. */
  ghost predicate GoodChild(r: ScrapeResult) {
    r.data.Some? ==>
      && ValidKeys(r.target.labels)
      && WellFormedText(Lines(r.data.value))
      && NoCollision(Lines(r.data.value))
  }

  lemma CommentIsNoSample(line: string)
    requires ParseSample(line).Some?
    ensures !IsComment(line)
  {
    hide ParseBlock, ParseTail, ParseSample, Finish, TrimSpace;
    var h := SampleShape(line);
    if h.WithBlock? {
      var trimmed := Braced(h.name + h.mid, h.body, h.tail);
      HeadFacts(h.name, h.mid);
      BracedHead(h.name + h.mid, h.body, h.tail);
      assert trimmed[|trimmed| - 1] == h.tail[|h.tail| - 1];
      LineText(line, h);
      TrimSpaceExact(h.pre, trimmed, h.post);
    } else {
      var trimmed := h.name + h.tail;
      HeadFacts(h.name, "");
      assert trimmed[0] == h.name[0] && trimmed[|trimmed| - 1] == h.tail[|h.tail| - 1];
      Assoc3(h.pre, h.name, h.tail);
      TrimSpaceExact(h.pre, trimmed, h.post);
    }
  }

  lemma ParsedDistinct(line: string)
    requires ParseSample(line).Some?
    ensures DistinctNames(ParseSample(line).value.labels)
  {
  }

  /** A label name has one value in a sample. */
  lemma OneTag(ls: seq<Label>, id: string)
    requires DistinctNames(ls) && ("target_id", id) in ls
    ensures forall q :: ("target_id", q) in ls ==> q == id
  {
  }

  lemma TaggedApart(a: seq<string>, ia: set<string>, b: seq<string>, ib: set<string>)
    requires Tagged(a, ia) && Tagged(b, ib) && ia !! ib
    requires NoCollision(a) && NoCollision(b)
    ensures NoCollision(a + b)
    ensures Tagged(a + b, ia + ib)
  {
    var c := a + b;
    forall i, j | 0 <= i < j < |c| && ParseSample(c[i]).Some? && ParseSample(c[j]).Some?
      ensures Identity(ParseSample(c[i]).value) != Identity(ParseSample(c[j]).value)
    {
      if i < |a| <= j {
        var x, y := ParseSample(a[i]).value, ParseSample(b[j - |a|]).value;
        var p :| p in ia && ("target_id", p) in x.labels;
        var q :| q in ib && ("target_id", q) in y.labels;
        ParsedDistinct(a[i]);
        ParsedDistinct(b[j - |a|]);
        OneTag(x.labels, p);
        OneTag(y.labels, q);
        if q != "" {
          assert ("target_id", q) in Identity(y).1 && ("target_id", q) !in Identity(x).1;
        } else {
          assert ("target_id", p) in Identity(x).1 && ("target_id", p) !in Identity(y).1;
        }
      }
    }
    forall i | 0 <= i < |c| && ParseSample(c[i]).Some?
      ensures exists id :: id in ia + ib && ("target_id", id) in ParseSample(c[i]).value.labels
    {
      if i < |a| {
        var p :| p in ia && ("target_id", p) in ParseSample(a[i]).value.labels;
        assert p in ia + ib;
      } else {
        var q :| q in ib && ("target_id", q) in ParseSample(b[i - |a|]).value.labels;
        assert q in ia + ib;
      }
    }
  }

  /** Extras extend identities injectively. */
  lemma ExtrasInjective(x: Sample, y: Sample, m: map<string, string>)
    requires NewNames(x.labels, m) && NewNames(y.labels, m)
    requires Identity(WithExtras(x, m)) == Identity(WithExtras(y, m))
    ensures Identity(x) == Identity(y)
  {
    OldLabels(x, m);
    OldLabels(y, m);
    assert Identity(x).1 == Identity(y).1;
  }

  lemma OldLabels(x: Sample, m: map<string, string>)
    requires NewNames(x.labels, m)
    ensures Identity(x).1 == set l | l in Identity(WithExtras(x, m)).1 && l.0 !in m
  {
    SortedLabelsFacts(m);
    forall l | l in Identity(WithExtras(x, m)).1 && l.0 !in m ensures l in x.labels {
      assert l in x.labels || l in SortedLabels(m);
    }
  }

  /** What a line of a child becomes. */
  lemma ChildLine(l: string, m: map<string, string>)
    requires IsComment(l) || ParseSample(l).Some?
    requires ValidKeys(m)
    ensures var out := ParseSample(InjectLine(l, Format(m)));
      out.Some? ==>
        && ParseSample(l).Some?
        && NewNames(ParseSample(l).value.labels, m)
        && out == Some(WithExtras(ParseSample(l).value, m))
  {
    if ParseSample(l).Some? {
      InjectMeaning(l, m);
    } else if ParseSample(InjectLine(l, Format(m))).Some? {
      CommentIsNoSample(l);
    }
  }

  lemma ExtraLabelsFacts(t: Target)
    requires ValidKeys(t.labels)
    ensures ValidKeys(ExtraLabels(t)) && OneLineKeys(ExtraLabels(t)) && ExtraLabels(t) != map[]
    ensures ("target_id", t.id) in SortedLabels(ExtraLabels(t))
  {
    ValidIsOneLine(ExtraLabels(t));
    SortedLabelsFacts(ExtraLabels(t));
    assert "target_id" in ExtraLabels(t);
    LabelNames();
  }

  lemma LabelNames()
    ensures ValidLabelName("vm_name") && ValidLabelName("target_id")
  {
  }

  /** One target's section: its own samples, all tagged with its ID. */
  lemma SectionLines(r: ScrapeResult, limit: nat)
    requires GoodChild(r) && IsUp(r, limit)
    ensures WholeLines(Section(r, limit))
    ensures NoCollision(RawLines(Section(r, limit)))
    ensures Tagged(RawLines(Section(r, limit)), {r.target.id})
  {
    var m := ExtraLabels(r.target);
    var ls := Lines(r.data.value);
    ExtraLabelsFacts(r.target);
    InjectKeepsLines(r.data.value, m, limit);
    ThenBlankLine(Enriched(r, limit).text);
    SamplesOf(ls, m, r.target.id);
    SamplesThenBlank(InjectEach(ls, Format(m)), r.target.id);
  }

  lemma ThenBlankLine(text: string)
    requires WholeLines(text)
    ensures RawLines(text + "\n") == RawLines(text) + [""] && WholeLines(text + "\n")
  {
    RawLinesAppend(text, "\n");
    RawLinesCons("", "");
    assert "" + "\n" + "" == "\n";
  }

  lemma SamplesOf(ls: seq<string>, m: map<string, string>, id: string)
    requires WellFormedText(ls) && NoCollision(ls) && ValidKeys(m)
    requires ("target_id", id) in SortedLabels(m)
    ensures NoCollision(InjectEach(ls, Format(m))) && Tagged(InjectEach(ls, Format(m)), {id})
  {
    var out := InjectEach(ls, Format(m));
    forall i | 0 <= i < |out|
      ensures ParseSample(out[i]).Some? ==>
        && ParseSample(ls[i]).Some? && NewNames(ParseSample(ls[i]).value.labels, m)
        && ParseSample(out[i]) == Some(WithExtras(ParseSample(ls[i]).value, m))
    {
      assert ls[i] in ls;
      ChildLine(ls[i], m);
    }
    forall i, j | 0 <= i < j < |out| && ParseSample(out[i]).Some? && ParseSample(out[j]).Some?
      ensures Identity(ParseSample(out[i]).value) != Identity(ParseSample(out[j]).value)
    {
      if Identity(ParseSample(out[i]).value) == Identity(ParseSample(out[j]).value) {
        ExtrasInjective(ParseSample(ls[i]).value, ParseSample(ls[j]).value, m);
      }
    }
  }

  lemma SamplesThenBlank(ls: seq<string>, id: string)
    requires NoCollision(ls) && Tagged(ls, {id})
    ensures NoCollision(ls + [""]) && Tagged(ls + [""], {id})
  {
    assert ParseSample("").None?;
    var c := ls + [""];
    assert forall i :: 0 <= i < |ls| ==> c[i] == ls[i];
  }

  ghost function UpIds(rs: seq<ScrapeResult>, limit: nat): set<string> {
    set i | 0 <= i < |rs| && IsUp(rs[i], limit) :: rs[i].target.id
  }

  ghost predicate DistinctIds(rs: seq<ScrapeResult>, limit: nat) {
    forall i, j :: 0 <= i < j < |rs| && IsUp(rs[i], limit) && IsUp(rs[j], limit)
      ==> rs[i].target.id != rs[j].target.id
  }

  lemma NoSections(limit: nat)
    ensures WholeLines(Sections([], limit))
    ensures NoCollision(RawLines(Sections([], limit))) && Tagged(RawLines(Sections([], limit)), UpIds([], limit))
  {
  }

  /** One more section in front. */
  lemma SectionInFront(r: ScrapeResult, rest: string, ids: set<string>, limit: nat)
    requires GoodChild(r) && WholeLines(rest) && NoCollision(RawLines(rest)) && Tagged(RawLines(rest), ids)
    requires IsUp(r, limit) && r.target.id !in ids
    ensures WholeLines(Section(r, limit) + rest)
    ensures NoCollision(RawLines(Section(r, limit) + rest))
    ensures Tagged(RawLines(Section(r, limit) + rest), {r.target.id} + ids)
  {
    SectionLines(r, limit);
    hide GoodChild, IsUp, Section, NoCollision, Tagged, RawLines;
    RawLinesAppend(Section(r, limit), rest);
    TaggedApart(RawLines(Section(r, limit)), {r.target.id}, RawLines(rest), ids);
  }

  lemma {:induction false} SectionsApart(rs: seq<ScrapeResult>, limit: nat)
    requires DistinctIds(rs, limit)
    requires forall i :: 0 <= i < |rs| ==> GoodChild(rs[i])
    ensures WholeLines(Sections(rs, limit))
    ensures NoCollision(RawLines(Sections(rs, limit)))
    ensures Tagged(RawLines(Sections(rs, limit)), UpIds(rs, limit))
  {
    hide GoodChild, IsUp, NoCollision, Tagged, RawLines, WholeLines, UpIds;
    if rs == [] {
      NoSections(limit);
    } else {
      var rest := rs[1..];
      SectionsApart(rest, limit);
      IdsOf(rs, limit);
      if IsUp(rs[0], limit) {
        OtherId(rs, limit);
        SectionInFront(rs[0], Sections(rest, limit), UpIds(rest, limit), limit);
      } else {
        assert "" + Sections(rest, limit) == Sections(rest, limit);
        assert {} + UpIds(rest, limit) == UpIds(rest, limit);
      }
    }
  }

  lemma OtherId(rs: seq<ScrapeResult>, limit: nat)
    requires rs != [] && DistinctIds(rs, limit) && IsUp(rs[0], limit)
    ensures rs[0].target.id !in UpIds(rs[1..], limit)
  {
    hide IsUp;
    assert forall i :: 0 <= i < |rs| - 1 ==> rs[1..][i] == rs[i + 1];
  }

  lemma IdsOf(rs: seq<ScrapeResult>, limit: nat)
    requires rs != []
    ensures UpIds(rs, limit) == (if IsUp(rs[0], limit) then {rs[0].target.id} else {}) + UpIds(rs[1..], limit)
  {
    var rest := rs[1..];
    forall id | id in UpIds(rs, limit)
      ensures id in (if IsUp(rs[0], limit) then {rs[0].target.id} else {}) + UpIds(rest, limit)
    {
      var i :| 0 <= i < |rs| && IsUp(rs[i], limit) && rs[i].target.id == id;
      if i > 0 { assert rest[i - 1] == rs[i]; }
    }
    forall id | id in UpIds(rest, limit) ensures id in UpIds(rs, limit) {
      var i :| 0 <= i < |rest| && IsUp(rest[i], limit) && rest[i].target.id == id;
      assert rs[i + 1] == rest[i];
    }
  }

  // ---- The supervisor's own metrics ------------------------------------------

  lemma SelfSample(name: string, v: string)
    requires ValidMetricName(name) && IsValue(v)
    ensures ParseSample(name + " " + v) == Some(Sample(name, [], v, None))
    ensures '\n' !in name + " " + v
  {
    assert v[0] in v && forall c :: c in v ==> c != '\n';
    assert forall c :: c in name ==> IsNameChar(c);
    hide ParseSample, ParseTail, IsValue, ValidMetricName;
    Assoc3(name, " ", v);
    ParseSamplePlain(name, " ", v);
    ValueTail(" ", v);
  }

  lemma CommentLine(l: string)
    requires l != "" && l[0] == '#'
    ensures ParseSample(l).None?
  {
  }

  lemma {:induction false} RawLinesOfUnlines(ls: seq<string>)
    requires forall l :: l in ls ==> '\n' !in l
    ensures RawLines(Unlines(ls)) == ls
  {
    if ls != [] {
      assert ls[0] in ls;
      RawLinesOfUnlines(ls[1..]);
      RawLinesCons(ls[0], Unlines(ls[1..]));
    }
  }

  /** Every sample among the lines is unlabelled and has one of the names. */
  ghost predicate Named(ls: seq<string>, names: set<string>) {
    forall i :: 0 <= i < |ls| && ParseSample(ls[i]).Some?
      ==> ParseSample(ls[i]).value.labels == [] && ParseSample(ls[i]).value.name in names
  }

  lemma NamedApart(a: seq<string>, na: set<string>, b: seq<string>, nb: set<string>)
    requires Named(a, na) && Named(b, nb) && na !! nb && NoCollision(a) && NoCollision(b)
    ensures NoCollision(a + b) && Named(a + b, na + nb)
  {
    var c := a + b;
    assert forall i :: |a| <= i < |c| ==> c[i] == b[i - |a|];
  }

  lemma NameOneLine(name: string)
    requires ValidMetricName(name)
    ensures '\n' !in name
  {
    assert forall c :: c in name ==> IsNameChar(c);
  }

  lemma MetricLinesOneLine(name: string, kind: string, help: string, v: string)
    requires '\n' !in name && '\n' !in kind && '\n' !in help && '\n' !in name + " " + v
    ensures forall l :: l in MetricLines(name, kind, help, v) ==> '\n' !in l
  {
    assert '\n' !in "# HELP " + name + " " + help;
    assert '\n' !in "# TYPE " + name + " " + kind;
  }

  lemma OneSample(a: string, b: string, c: string, name: string)
    requires ParseSample(a).None? && ParseSample(b).None?
    requires ParseSample(c).Some? && ParseSample(c).value.name == name && ParseSample(c).value.labels == []
    ensures NoCollision([a, b, c]) && Named([a, b, c], {name})
  {
    hide ParseSample;
  }

  lemma MetricSample(name: string, kind: string, help: string, v: string)
    requires ValidMetricName(name) && IsValue(v)
    requires '\n' !in kind && '\n' !in help
    ensures var ls := MetricLines(name, kind, help, v);
      && NoCollision(ls) && Named(ls, {name})
      && (forall l :: l in ls ==> '\n' !in l)
      && ParseSample(ls[2]) == Some(Sample(name, [], v, None))
  {
    var ls := MetricLines(name, kind, help, v);
    SelfSample(name, v);
    NameOneLine(name);
    hide ParseSample, IsValue, ValidMetricName, NoCollision, Named;
    MetricLinesOneLine(name, kind, help, v);
    assert ls[0][0] == '#' && ls[1][0] == '#';
    CommentLine(ls[0]);
    CommentLine(ls[1]);
    OneSample(ls[0], ls[1], ls[2], name);
  }

  /** The self-metrics carry their counts, and no labels. */
  lemma SelfMetrics(total: nat, up: nat, elapsed: string, errors: nat)
    requires IsValue(elapsed)
    ensures var ls := SelfLines(total, up, elapsed, errors);
      && RawLines(Unlines(ls)) == ls
      && NoCollision(ls) && Named(ls, {TOTAL, UP, DURATION, ERRORS})
      && ParseSample(ls[2]) == Some(Sample(TOTAL, [], Itoa(total), None))
      && ParseSample(ls[5]) == Some(Sample(UP, [], Itoa(up), None))
      && ParseSample(ls[8]) == Some(Sample(DURATION, [], elapsed, None))
      && ParseSample(ls[11]) == Some(Sample(ERRORS, [], Itoa(errors), None))
      && ls[1] == "# TYPE " + TOTAL + " gauge" && ls[4] == "# TYPE " + UP + " gauge"
      && ls[7] == "# TYPE " + DURATION + " gauge" && ls[10] == "# TYPE " + ERRORS + " counter"
  {
    SelfTypes(total, up, elapsed, errors);
    SelfNames();
    SelfHelp();
    MetricSample(TOTAL, "gauge", TOTAL_HELP, Itoa(total));
    MetricSample(UP, "gauge", UP_HELP, Itoa(up));
    MetricSample(DURATION, "gauge", DURATION_HELP, elapsed);
    MetricSample(ERRORS, "counter", ERRORS_HELP, Itoa(errors));
    FourMetrics(
      MetricLines(TOTAL, "gauge", TOTAL_HELP, Itoa(total)), MetricLines(UP, "gauge", UP_HELP, Itoa(up)),
      MetricLines(DURATION, "gauge", DURATION_HELP, elapsed), MetricLines(ERRORS, "counter", ERRORS_HELP, Itoa(errors)),
      TOTAL, UP, DURATION, ERRORS);
  }

  lemma SelfTypes(total: nat, up: nat, elapsed: string, errors: nat)
    ensures var ls := SelfLines(total, up, elapsed, errors);
      && |ls| == 12
      && ls[1] == "# TYPE " + TOTAL + " gauge" && ls[4] == "# TYPE " + UP + " gauge"
      && ls[7] == "# TYPE " + DURATION + " gauge" && ls[10] == "# TYPE " + ERRORS + " counter"
  {
    hide Itoa;
  }

  lemma SelfNames()
    ensures ValidMetricName(TOTAL) && ValidMetricName(UP) && ValidMetricName(DURATION) && ValidMetricName(ERRORS)
    ensures {TOTAL} !! {UP} && {TOTAL, UP} !! {DURATION} && {TOTAL, UP, DURATION} !! {ERRORS}
  {
    assert |TOTAL| == 29 && |UP| == 26 && |DURATION| == 39 && |ERRORS| == 35;
  }

  lemma SelfHelp()
    ensures '\n' !in TOTAL_HELP && '\n' !in UP_HELP && '\n' !in DURATION_HELP && '\n' !in ERRORS_HELP
    ensures '\n' !in "gauge" && '\n' !in "counter"
  {
    TotalHelp();
    UpHelp();
    DurationHelp();
    ErrorsHelp();
  }

  lemma TotalHelp() ensures '\n' !in TOTAL_HELP {}
  lemma UpHelp() ensures '\n' !in UP_HELP {}
  lemma DurationHelp() ensures '\n' !in DURATION_HELP {}
  lemma ErrorsHelp() ensures '\n' !in ERRORS_HELP {}

  lemma FourMetrics(a: seq<string>, b: seq<string>, c: seq<string>, d: seq<string>,
                    na: string, nb: string, nc: string, nd: string)
    requires Named(a, {na}) && Named(b, {nb}) && Named(c, {nc}) && Named(d, {nd})
    requires NoCollision(a) && NoCollision(b) && NoCollision(c) && NoCollision(d)
    requires {na} !! {nb} && {na, nb} !! {nc} && {na, nb, nc} !! {nd}
    requires |a| == |b| == |c| == |d| == 3
    requires forall l :: l in a || l in b || l in c || l in d ==> '\n' !in l
    ensures var ls := a + b + c + d;
      && RawLines(Unlines(ls)) == ls
      && NoCollision(ls) && Named(ls, {na, nb, nc, nd})
      && ls[2] == a[2] && ls[5] == b[2] && ls[8] == c[2] && ls[11] == d[2]
  {
    hide NoCollision, Unlines;
    NamedApart(a, {na}, b, {nb});
    NamedApart(a + b, {na} + {nb}, c, {nc});
    NamedApart(a + b + c, {na} + {nb} + {nc}, d, {nd});
    RawLinesOfUnlines(a + b + c + d);
  }

  const SELF := {TOTAL, UP, DURATION, ERRORS}

  /** Some sample among the lines reads, but for empty labels, as a self-metric. */
  ghost predicate ReadsAsSelf(ls: seq<string>) {
    exists i ::
      0 <= i < |ls| && IsSelfSample(ls[i])
  }

  predicate IsSelfSample(l: string) {
    ParseSample(l).Some? && ParseSample(l).value.name in SELF && Identity(ParseSample(l).value).1 == {}
  }

  ghost predicate ShowsName(ls: seq<string>, n: string) {
    exists i ::
      0 <= i < |ls| && ParseSample(ls[i]).Some? && ParseSample(ls[i]).value.name == n
  }

  lemma FourNames(ls: seq<string>, a: string, b: string, c: string, d: string, va: string, vb: string, vc: string,
                  vd: string)
    requires |ls| == 12
    requires ParseSample(ls[2]) == Some(Sample(a, [], va, None)) && ParseSample(ls[5]) == Some(Sample(b, [], vb, None))
    requires ParseSample(ls[8]) == Some(Sample(c, [], vc, None)) && ParseSample(ls[11]) == Some(Sample(d, [], vd, None))
    ensures forall n :: n in {a, b, c, d} ==> ShowsName(ls, n)
  {
    hide ParseSample;
  }

  /** The self-metrics collide with no sample but those. */
  lemma BeforeSelf(a: seq<string>, self: seq<string>)
    requires NoCollision(a) && NoCollision(self) && Named(self, SELF)
    requires forall n :: n in SELF ==> ShowsName(self, n)
    ensures NoCollision(a + self) <==> !ReadsAsSelf(a)
  {
    hide ParseSample;
    var c := a + self;
    if ReadsAsSelf(a) {
      var i :| 0 <= i < |a| && IsSelfSample(a[i]);
      assert ShowsName(self, ParseSample(a[i]).value.name);
      var j :| 0 <= j < |self| && ParseSample(self[j]).Some?
            && ParseSample(self[j]).value.name == ParseSample(a[i]).value.name;
      assert c[i] == a[i] && c[|a| + j] == self[j];
      assert Identity(ParseSample(self[j]).value).1 == {};
    } else {
      forall i, j | 0 <= i < j < |c| && ParseSample(c[i]).Some? && ParseSample(c[j]).Some?
        ensures Identity(ParseSample(c[i]).value) != Identity(ParseSample(c[j]).value)
      {
        if i < |a| <= j {
          assert !IsSelfSample(a[i]);
          assert c[j] == self[j - |a|] && Identity(ParseSample(c[j]).value).1 == {};
        }
      }
    }
  }

  // ---- Nothing is lost ---------------------------------------------------------

  lemma SectionWhole(r: ScrapeResult, limit: nat)
    ensures WholeLines(Section(r, limit))
  {
  }

  lemma {:induction false} SectionsWhole(rs: seq<ScrapeResult>, limit: nat)
    ensures WholeLines(Sections(rs, limit))
  {
    hide Section;
    if rs != [] {
      SectionWhole(rs[0], limit);
      SectionsWhole(rs[1..], limit);
      WholeAppend(Section(rs[0], limit), Sections(rs[1..], limit));
    }
  }

  lemma WholeAppend(a: string, b: string)
    requires WholeLines(a) && WholeLines(b)
    ensures WholeLines(a + b)
  {
  }

  lemma SectionsStep(rs: seq<ScrapeResult>, limit: nat)
    requires rs != []
    ensures RawLines(Sections(rs, limit)) == RawLines(Section(rs[0], limit)) + RawLines(Sections(rs[1..], limit))
  {
    SectionWhole(rs[0], limit);
    hide IsUp, RawLines, Section;
    RawLinesAppend(Section(rs[0], limit), Sections(rs[1..], limit));
  }

  /** A section is its child's lines, each rewritten, and a blank one. */
  lemma SectionText(r: ScrapeResult, limit: nat)
    requires IsUp(r, limit) && OneLineKeys(r.target.labels)
    ensures RawLines(Section(r, limit)) == InjectEach(Lines(r.data.value), Format(ExtraLabels(r.target))) + [""]
  {
    ExtrasOneLine(r.target);
    hide RawLines, Lines, Format, InjectEach, ExtraLabels;
    InjectKeepsLines(r.data.value, ExtraLabels(r.target), limit);
    ThenBlankLine(Enriched(r, limit).text);
  }

  lemma ExtrasOneLine(t: Target)
    requires OneLineKeys(t.labels)
    ensures OneLineKeys(ExtraLabels(t)) && ExtraLabels(t) != map[]
  {
    assert "target_id" in ExtraLabels(t);
  }

  lemma SectionShowsLine(r: ScrapeResult, limit: nat, l: string)
    requires IsUp(r, limit) && OneLineKeys(r.target.labels) && l in Lines(r.data.value)
    ensures InjectLine(l, Format(ExtraLabels(r.target))) in RawLines(Section(r, limit))
  {
    var f, ls := Format(ExtraLabels(r.target)), Lines(r.data.value);
    hide RawLines, Lines, Format, IsUp, InjectLine, ExtraLabels, Section;
    SectionText(r, limit);
    var i :| 0 <= i < |ls| && ls[i] == l;
    assert InjectEach(ls, f)[i] in InjectEach(ls, f);
  }

  lemma {:induction false} SectionLinesIn(rs: seq<ScrapeResult>, limit: nat, k: nat, l: string)
    requires k < |rs| && IsUp(rs[k], limit) && OneLineKeys(rs[k].target.labels) && l in Lines(rs[k].data.value)
    ensures InjectLine(l, Format(ExtraLabels(rs[k].target))) in RawLines(Sections(rs, limit))
  {
    hide IsUp, RawLines, Section, Sections, InjectLine, Format, Lines, OneLineKeys;
    SectionsStep(rs, limit);
    if k == 0 {
      SectionShowsLine(rs[0], limit, l);
    } else {
      SectionLinesIn(rs[1..], limit, k - 1, l);
    }
  }

  /** What is added for a target: its ID, its name unless it has a label `vm_name` of its
      own, and its own labels; each once, in the order of their names, and nothing else. */
  ghost predicate AddedFor(t: Target, added: seq<Label>) {
    && (forall i, j :: 0 <= i < j < |added| ==> Less(added[i].0, added[j].0))
    && ("target_id", t.id) in added
    && (if "vm_name" in t.labels then ("vm_name", t.labels["vm_name"]) else ("vm_name", t.name)) in added
    && (forall n :: n in t.labels && n != "target_id" ==> (n, t.labels[n]) in added)
    && (forall n, v :: (n, v) in added ==> n == "target_id" || n == "vm_name" || n in t.labels)
  }

  /** The sample y is x with what is added for the target behind its own labels. */
  ghost predicate ShownFor(t: Target, x: Sample, y: Sample) {
    exists added ::
      AddedFor(t, added) && y == x.(labels := x.labels + added)
  }

  lemma ExtrasAreAdded(t: Target)
    ensures AddedFor(t, SortedLabels(ExtraLabels(t)))
  {
    var m := ExtraLabels(t);
    ExtraKeys(t);
    InOrder(m);
    hide Less, ExtraLabels, SortedLabels;
    SortedLabelsFacts(m);
  }

  lemma InOrder(m: map<string, string>)
    ensures forall i, j :: 0 <= i < j < |SortedLabels(m)| ==> Less(SortedLabels(m)[i].0, SortedLabels(m)[j].0)
  {
    hide Less;
  }

  lemma ExtraKeys(t: Target)
    ensures LabelsFor(t, ExtraLabels(t))
  {
  }

  lemma ExtrasShown(t: Target, x: Sample)
    ensures ShownFor(t, x, WithExtras(x, ExtraLabels(t)))
  {
    ExtrasAreAdded(t);
    hide AddedFor, ExtraLabels, SortedLabels;
  }

  /** None of the labels is called like one that is added. */
  ghost predicate Unclaimed(labels: seq<Label>, t: Target) {
    forall n, v :: (n, v) in labels ==> n != "target_id" && n != "vm_name" && n !in t.labels
  }

  lemma ApartIsNew(labels: seq<Label>, t: Target)
    ensures NewNames(labels, ExtraLabels(t)) <==> Unclaimed(labels, t)
  {
    if Unclaimed(labels, t) {
      forall i | 0 <= i < |labels| ensures labels[i].0 !in ExtraLabels(t) {
        assert (labels[i].0, labels[i].1) in labels;
      }
    }
  }

  /** Every sample of every scraped target with valid label names is on the page, with
      its name, value, timestamp and labels, and those of the target after them. */
  lemma PageShowsEverySample(rs: seq<ScrapeResult>, elapsed: string, limit: nat, k: nat, l: string)
    requires k < |rs| && IsUp(rs[k], limit) && ValidKeys(rs[k].target.labels) && l in Lines(rs[k].data.value)
    requires ParseSample(l).Some? && Appendable(l) && Unclaimed(ParseSample(l).value.labels, rs[k].target)
    ensures exists out ::
      && out in RawLines(Page(rs, elapsed, limit)) && ParseSample(out).Some?
      && ShownFor(rs[k].target, ParseSample(l).value, ParseSample(out).value)
  {
    var m := ExtraLabels(rs[k].target);
    ExtraLabelsFacts(rs[k].target);
    ValidIsOneLine(rs[k].target.labels);
    SectionsWhole(rs, limit);
    SectionLinesIn(rs, limit, k, l);
    PageLines(rs, elapsed, limit);
    ApartIsNew(ParseSample(l).value.labels, rs[k].target);
    InjectMeaning(l, m);
    ExtrasShown(rs[k].target, ParseSample(l).value);
    assert InjectLine(l, Format(m)) in RawLines(Page(rs, elapsed, limit));
  }

  /** And it shows no other samples, but for the self-metrics. */
  lemma PageShowsNoOther(rs: seq<ScrapeResult>, elapsed: string, limit: nat, out: string) returns (k: nat, l: string)
    requires forall i :: 0 <= i < |rs| ==> GoodChild(rs[i])
    requires out in RawLines(Page(rs, elapsed, limit)) && ParseSample(out).Some?
    requires out !in RawLines(Unlines(SelfLines(|rs|, CountUp(rs, limit), elapsed, CountErrors(rs, limit))))
    ensures k < |rs| && IsUp(rs[k], limit) && l in Lines(rs[k].data.value) && ParseSample(l).Some?
    ensures ShownFor(rs[k].target, ParseSample(l).value, ParseSample(out).value)
  {
    hide RawLines, Page, Lines, GoodChild, IsUp, ParseSample, Format;
    hide InjectLine, ExtraLabels, ShownFor, SelfLines, Sections;
    forall i | 0 <= i < |rs| && IsUp(rs[i], limit)
      ensures OneLineKeys(rs[i].target.labels)
    {
      GoodIsOneLine(rs[i], limit);
    }
    SectionsWhole(rs, limit);
    PageLines(rs, elapsed, limit);
    k, l := SectionsFrom(rs, limit, out);
    GoodLine(rs[k], limit, l);
    ExtrasShown(rs[k].target, ParseSample(l).value);
  }

  lemma GoodLine(r: ScrapeResult, limit: nat, l: string)
    requires GoodChild(r) && IsUp(r, limit) && l in Lines(r.data.value)
    ensures var out := InjectLine(l, Format(ExtraLabels(r.target)));
      ParseSample(out).Some? ==>
        ParseSample(l).Some? && ParseSample(out) == Some(WithExtras(ParseSample(l).value, ExtraLabels(r.target)))
  {
    ExtraLabelsFacts(r.target);
    ChildLine(l, ExtraLabels(r.target));
  }

  // ---- No series twice -----------------------------------------------------------

  /** Every sample on the page but the self-metrics is a child's, with the extras. */
  ghost predicate ComesFrom(out: string, rs: seq<ScrapeResult>, limit: nat, k: nat, l: string) {
    && k < |rs| && IsUp(rs[k], limit) && l in Lines(rs[k].data.value)
    && out == InjectLine(l, Format(ExtraLabels(rs[k].target)))
  }

  lemma SectionFrom(r: ScrapeResult, limit: nat, out: string) returns (l: string)
    requires OneLineKeys(r.target.labels) && out in RawLines(Section(r, limit)) && ParseSample(out).Some?
    ensures IsUp(r, limit) && l in Lines(r.data.value) && out == InjectLine(l, Format(ExtraLabels(r.target)))
  {
    RawLinesOfNothing();
    assert IsUp(r, limit);
    hide RawLines, Lines, Format, IsUp, InjectLine, ExtraLabels, Section, ParseSample, OneLineKeys;
    SectionText(r, limit);
    EmptyIsNoSample();
    var f, ls := Format(ExtraLabels(r.target)), Lines(r.data.value);
    assert out in InjectEach(ls, f);
    var i :| 0 <= i < |ls| && InjectEach(ls, f)[i] == out;
    l := ls[i];
  }

  lemma EmptyIsNoSample()
    ensures ParseSample("").None?
  {
  }

  lemma {:induction false} SectionsFrom(rs: seq<ScrapeResult>, limit: nat, out: string) returns (k: nat, l: string)
    requires forall i :: 0 <= i < |rs| && IsUp(rs[i], limit) ==> OneLineKeys(rs[i].target.labels)
    requires out in RawLines(Sections(rs, limit)) && ParseSample(out).Some?
    ensures ComesFrom(out, rs, limit, k, l)
  {
    assert rs != [] by { RawLinesOfNothing(); }
    SectionsStep(rs, limit);
    RawLinesOfNothing();
    assert !IsUp(rs[0], limit) ==> out !in RawLines(Section(rs[0], limit));
    hide IsUp, Section, InjectLine, Format, Lines, ParseSample, RawLines, OneLineKeys;
    if out in RawLines(Section(rs[0], limit)) {
      k := 0;
      l := SectionFrom(rs[0], limit, out);
    } else {
      var k';
      k', l := SectionsFrom(rs[1..], limit, out);
      k := k' + 1;
    }
  }

  /** A child shows a sample under the name of a self-metric, with empty labels at
      most, and its target has no ID and no label to add to it. */
  ghost predicate Shadows(r: ScrapeResult, limit: nat, l: string) {
    && IsUp(r, limit) && l in Lines(r.data.value)
    && IsSelfSample(l) && Appendable(l)
    && NewNames(ParseSample(l).value.labels, ExtraLabels(r.target))
    && forall k :: k in ExtraLabels(r.target) ==> ExtraLabels(r.target)[k] == ""
  }

  lemma EmptyExtras(x: Sample, m: map<string, string>)
    requires NewNames(x.labels, m)
    ensures Identity(WithExtras(x, m)).1 == {} <==> Identity(x).1 == {} && forall k :: k in m ==> m[k] == ""
  {
    SortedLabelsFacts(m);
    OldLabels(x, m);
    if k :| k in m && m[k] != "" {
      assert (k, m[k]) in SortedLabels(m);
      assert (k, m[k]) in Identity(WithExtras(x, m)).1;
    } else {
      forall l | l in Identity(WithExtras(x, m)).1 ensures l in Identity(x).1 {
        assert l in x.labels || l in SortedLabels(m);
      }
    }
  }

  /** Which of a child's lines come to read as a self-metric. */
  lemma ShadowsExactlyWhen(r: ScrapeResult, limit: nat, l: string)
    requires GoodChild(r) && IsUp(r, limit) && l in Lines(r.data.value)
    ensures IsSelfSample(InjectLine(l, Format(ExtraLabels(r.target)))) <==> Shadows(r, limit, l)
  {
    var m := ExtraLabels(r.target);
    ExtraLabelsFacts(r.target);
    ChildLine(l, m);
    hide IsUp, ParseSample, InjectLine, Format, Appendable, NewNames, Lines, ExtraLabels, GoodChild;
    if ParseSample(l).Some? {
      InjectMeaning(l, m);
      if NewNames(ParseSample(l).value.labels, m) { EmptyExtras(ParseSample(l).value, m); }
    }
  }

  ghost predicate AnyShadows(rs: seq<ScrapeResult>, limit: nat) {
    exists k, l ::
      0 <= k < |rs| && Shadows(rs[k], limit, l)
  }

  lemma GoodIsOneLine(r: ScrapeResult, limit: nat)
    requires GoodChild(r) && IsUp(r, limit)
    ensures OneLineKeys(r.target.labels)
  {
    ValidIsOneLine(r.target.labels);
  }

  lemma SectionsReadAsSelf(rs: seq<ScrapeResult>, limit: nat)
    requires forall i :: 0 <= i < |rs| ==> GoodChild(rs[i])
    ensures ReadsAsSelf(RawLines(Sections(rs, limit))) <==> AnyShadows(rs, limit)
  {
    hide GoodChild, RawLines, Sections, InjectLine, Format, ParseSample, Lines, IsUp, Appendable, NewNames, ExtraLabels;
    var lines := RawLines(Sections(rs, limit));
    forall i | 0 <= i < |rs| && IsUp(rs[i], limit) ensures OneLineKeys(rs[i].target.labels) {
      GoodIsOneLine(rs[i], limit);
    }
    if ReadsAsSelf(lines) {
      var i :| 0 <= i < |lines| && IsSelfSample(lines[i]);
      var k, l := SectionsFrom(rs, limit, lines[i]);
      ShadowsExactlyWhen(rs[k], limit, l);
    }
    if AnyShadows(rs, limit) {
      var k, l :| 0 <= k < |rs| && Shadows(rs[k], limit, l);
      SectionLinesIn(rs, limit, k, l);
      ShadowsExactlyWhen(rs[k], limit, l);
      var out := InjectLine(l, Format(ExtraLabels(rs[k].target)));
      var i :| 0 <= i < |lines| && lines[i] == out;
    }
  }

  /** Of targets with valid label names and children whose own text is well formed and
      without repetition: the page shows no series twice -- not for two targets, not
      within a target, not for a target and the supervisor itself -- exactly if no
      target without ID and labels shows a sample under the name of a self-metric. */
  lemma PageHasNoCollision(rs: seq<ScrapeResult>, elapsed: string, limit: nat)
    requires DistinctIds(rs, limit)
    requires forall i :: 0 <= i < |rs| ==> GoodChild(rs[i])
    requires IsValue(elapsed)
    ensures NoCollision(RawLines(Page(rs, elapsed, limit))) <==> !AnyShadows(rs, limit)
  {
    hide *;
    var up, errors := CountUp(rs, limit), CountErrors(rs, limit);
    var self := SelfLines(|rs|, up, elapsed, errors);
    SectionsApart(rs, limit);
    SelfMetrics(|rs|, up, elapsed, errors);
    SelfNamed(|rs|, up, elapsed, errors);
    PageLines(rs, elapsed, limit);
    BeforeSelf(RawLines(Sections(rs, limit)), self);
    SectionsReadAsSelf(rs, limit);
  }

  lemma PageLines(rs: seq<ScrapeResult>, elapsed: string, limit: nat)
    requires WholeLines(Sections(rs, limit))
    ensures var self := Unlines(SelfLines(|rs|, CountUp(rs, limit), elapsed, CountErrors(rs, limit)));
      RawLines(Page(rs, elapsed, limit)) == RawLines(Sections(rs, limit)) + RawLines(self)
  {
    hide RawLines, Sections, SelfLines, Unlines, WholeLines;
    RawLinesAppend(Sections(rs, limit), Unlines(SelfLines(|rs|, CountUp(rs, limit), elapsed, CountErrors(rs, limit))));
  }

  lemma SelfSet()
    ensures SELF == {TOTAL, UP, DURATION, ERRORS}
  {
  }

  lemma SelfNamed(total: nat, up: nat, elapsed: string, errors: nat)
    requires IsValue(elapsed)
    ensures var self := SelfLines(total, up, elapsed, errors);
      && Named(self, SELF)
      && forall n :: n in SELF ==> ShowsName(self, n)
  {
    hide *;
    SelfSet();
    SelfMetrics(total, up, elapsed, errors);
    SelfLength(total, up, elapsed, errors);
    FourNames(SelfLines(total, up, elapsed, errors), TOTAL, UP, DURATION, ERRORS, Itoa(total), Itoa(up), elapsed,
              Itoa(errors));
  }

  lemma SelfLength(total: nat, up: nat, elapsed: string, errors: nat)
    ensures |SelfLines(total, up, elapsed, errors)| == 12
  {
  }

  /** In particular when every target has an ID. */
  lemma IdsPreventCollision(rs: seq<ScrapeResult>, elapsed: string, limit: nat)
    requires DistinctIds(rs, limit)
    requires forall i :: 0 <= i < |rs| ==> GoodChild(rs[i]) && (IsUp(rs[i], limit) ==> rs[i].target.id != "")
    requires IsValue(elapsed)
    ensures NoCollision(RawLines(Page(rs, elapsed, limit)))
  {
    PageHasNoCollision(rs, elapsed, limit);
    hide GoodChild, IsUp, NoCollision, RawLines, Page, IsSelfSample, Appendable, NewNames;
    forall k, l | 0 <= k < |rs| ensures !Shadows(rs[k], limit, l) {
      assert "target_id" in ExtraLabels(rs[k].target);
    }
  }
}
