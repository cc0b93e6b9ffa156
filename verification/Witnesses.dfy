/** Inputs at which the laws with a condition do fail, one for each condition. */
module Witnesses {
  import opened Text
  import opened Config
  import opened Exposition
  import opened Relabel
  import opened RelabelProofs
  import opened Injection
  import opened InjectionLaws
  import opened Netutil
  import opened Endpoints
  import opened Addresses
  import opened Aggregate
  import opened Collisions
  import opened Metadata
  import Libvirt
  import Reconcile

  // ---- Label injection -----------------------------------------------------------

  const TRAILING_COMMA := "up{a=\"b\",} 1"

  /** A label block with a trailing comma is a sample, and is none after injection. */
  lemma TrailingCommaIsSpoilt(m: map<string, string>)
    requires ValidKeys(m)
    ensures ParseSample(TRAILING_COMMA) == Some(Sample("up", [("a", "b")], "1", None))
    ensures !Appendable(TRAILING_COMMA) && ParseSample(InjectLine(TRAILING_COMMA, Format(m))).None?
  {
    hide Format, InjectLine, ParseSample, NewNames;
    TrailingCommaParses();
    TrailingCommaText();
    InjectMeaning(TRAILING_COMMA, m);
  }

  lemma LabelText()
    ensures RenderLabel(("a", "b")) == "a=\"b\""
  {
    EscapeIsOnePass("b");
    assert EscapeAll("b"[1..]) == "";
    hide EscapeLabelValue;
    assert EscapeLabelValue("b") == "b";
  }

  lemma BlockParses()
    ensures ParseBlock("a=\"b\",} 1") == Got([("a", "b")], " 1")
  {
    hide ParseBlock, RenderLabel, Join;
    LabelText();
    EmptyBlock(" 1");
    RenderStep(("a", "b"), ',', "} 1");
    assert "a=\"b\"" + [','] + "} 1" == "a=\"b\",} 1";
    assert "}" + " 1" == "} 1";
    JoinOne();
  }

  lemma JoinOne()
    ensures Join([("a", "b")], Got([], " 1")) == Got([("a", "b")], " 1")
  {
    var ls: seq<Label> := [("a", "b")];
    assert ls + [] == ls;
  }

  lemma TrailingCommaParses()
    ensures ParseSample(TRAILING_COMMA) == Some(Sample("up", [("a", "b")], "1", None))
  {
    hide ParseBlock, ParseSample, ParseTail;
    BlockParses();
    ParseSampleBlock("", "up", "", "a=\"b\",} 1");
    assert "" + "up" + "" + "{" + "a=\"b\",} 1" == TRAILING_COMMA;
    ValueTail(" ", "1");
    assert " " + "1" == " 1";
  }

  lemma TrailingCommaText()
    ensures !Appendable(TRAILING_COMMA)
  {
    var t := TRAILING_COMMA;
    assert t[..2] == "up";
    IndexByteAt(t, '{', 2);
    assert t[10..] == " 1";
    LastIndexByteAt(t, '}', 9);
    assert t[3..9] == "a=\"b\",";
    assert TrimRightBlanks("a=\"b\",") == "a=\"b\",";
  }

  const METADATA_KEY := "nova_my-key"

  /** A label name that is none, such as a metadata key with a hyphen leads to, takes
      its meaning from every sample of its target. */
  lemma HyphenSpoilsEverySample(t: Target, line: string)
    requires METADATA_KEY in t.labels && ParseSample(line).Some?
    ensures ParseSample(InjectLine(line, Format(ExtraLabels(t))))
         != Some(WithExtras(ParseSample(line).value, ExtraLabels(t)))
  {
    HyphenIsInvalid();
    assert METADATA_KEY in ExtraLabels(t);
    hide ParseSample, InjectLine, Format, ExtraLabels;
    InjectPreservesMeaning(line, ExtraLabels(t));
  }

  lemma HyphenIsInvalid()
    ensures !ValidLabelName(METADATA_KEY)
  {
    assert METADATA_KEY[7] == '-' && '-' in METADATA_KEY;
  }

  // Two targets with different IDs, one with a label name that is none.

  const ID_LABEL := "target_id=\"b\""
  const NAME_LABEL := "vm_name=\"B\""
  const OWN_LABELS := ID_LABEL + "," + NAME_LABEL
  const OTHER_LABELS := "a=\"\"" + "," + OWN_LABELS
  const LONG_NAME := OTHER_LABELS + "} 1\nx"

  /** The targets: `a` labelled with that name, and `b` without labels. */
  function BadlyNamed(): Target { Target("a", "A", "", "", "", map[LONG_NAME := "v"], []) }

  function Unlabelled(): Target { Target("b", "B", "", "", "", map[], []) }

  const UP_LINE := "up 1"

  lemma UpLine()
    ensures ParseSample(UP_LINE) == Some(Sample("up", [], "1", None))
    ensures Lines(UP_LINE + "\n") == [UP_LINE] && !TooLong(UP_LINE + "\n", 1000)
  {
    assert '\n' !in UP_LINE && DropCR(UP_LINE) == UP_LINE;
    OneLine(UP_LINE);
    assert "up" + (" " + "1") == UP_LINE;
    hide ParseSample, RawLines;
    assert IsValue("1");
    ParseSamplePlain("up", " ", "1");
    ValueTail(" ", "1");
    assert " " + "1" == " 1";
  }

  lemma UpInjected(f: string)
    ensures InjectLine(UP_LINE, f) == "up{" + f + "} 1"
  {
    TrimSpaceFixed(UP_LINE);
    assert IsBlank(UP_LINE[2]) && UP_LINE[..2] == "up" && UP_LINE[2..] == " 1";
    assert '{' !in UP_LINE;
    assert IndexBlank(UP_LINE) == 2;
    assert "up" + "{" + f + "}" + " 1" == "up{" + f + "} 1";
  }

  lemma OneIsValue()
    ensures ParseTail(" " + "1") == Some(("1", None)) && ValidMetricName("up")
  {
    assert IsValue("1");
    ValueTail(" ", "1");
  }

  lemma UpSample(ls: seq<Label>, f: string)
    requires f == RenderLabels(ls) && ValidNames(ls) && DistinctNames(ls)
    ensures ParseSample("up{" + f + "} 1") == Some(Sample("up", ls, "1", None))
  {
    hide ParseSample, ParseBlock, RenderLabels, ParseTail, DistinctNames, ValidNames;
    RenderParses(ls, " 1");
    OneIsValue();
    assert f + "}" + " 1" == f + "} 1";
    ParseSampleBlock("", "up", "", f + "} 1");
    assert "" + "up" + "" + "{" + (f + "} 1") == "up{" + f + "} 1";
    assert " " + "1" == " 1";
  }

  lemma SmallValues()
    ensures EscapeLabelValue("") == "" && EscapeLabelValue("b") == "b" && EscapeLabelValue("B") == "B"
  {
    EscapeIsOnePass("");
    EscapeIsOnePass("b");
    EscapeIsOnePass("B");
    assert EscapeAll("b"[1..]) == "" && EscapeAll("B"[1..]) == "";
    hide EscapeLabelValue;
    assert EscapeLabelValue("b") == "b" && EscapeLabelValue("B") == "B";
  }

  lemma RenderTwo(a: Label, b: Label)
    ensures RenderLabels([a, b]) == RenderLabel(a) + "," + RenderLabel(b)
  {
    assert [a, b][1..] == [b];
  }

  lemma RenderThree(a: Label, b: Label, c: Label)
    ensures RenderLabels([a, b, c]) == RenderLabel(a) + "," + (RenderLabel(b) + "," + RenderLabel(c))
  {
    assert [a, b, c][1..] == [b, c];
    RenderTwo(b, c);
  }

  lemma LabelTexts()
    ensures RenderLabel(("a", "")) == "a=\"\"" && RenderLabel(("target_id", "b")) == ID_LABEL
    ensures RenderLabel(("vm_name", "B")) == NAME_LABEL
  {
    SmallValues();
    hide EscapeLabelValue;
  }

  lemma OwnText()
    ensures OWN_LABELS == ID_LABEL + "," + NAME_LABEL && OTHER_LABELS == "a=\"\"" + "," + OWN_LABELS
  {
  }

  lemma UnlabelledText()
    ensures RenderLabels([("target_id", "b"), ("vm_name", "B")]) == OWN_LABELS
    ensures RenderLabels([("a", ""), ("target_id", "b"), ("vm_name", "B")]) == OTHER_LABELS
  {
    LabelTexts();
    hide *;
    OwnText();
    RenderTwo(("target_id", "b"), ("vm_name", "B"));
    RenderThree(("a", ""), ("target_id", "b"), ("vm_name", "B"));
  }

  /** The line the unlabelled target's sample becomes, and what the other's starts with. */
  lemma SameIdentity()
    ensures var x, y := ParseSample("up{" + OTHER_LABELS + "} 1"), ParseSample("up{" + OWN_LABELS + "} 1");
      x.Some? && y.Some? && Identity(x.value) == Identity(y.value)
  {
    var a: Label := ("a", "");
    var t: Label := ("target_id", "b");
    var v: Label := ("vm_name", "B");
    hide ParseSample, RenderLabels, Identity;
    UnlabelledText();
    LabelNames();
    assert ValidLabelName("a");
    UpSample([a, t, v], OTHER_LABELS);
    UpSample([t, v], OWN_LABELS);
    IdentityDropsEmpty(a, t, v);
  }

  lemma IdentityDropsEmpty(a: Label, t: Label, v: Label)
    requires a.1 == ""
    ensures Identity(Sample("up", [a, t, v], "1", None)) == Identity(Sample("up", [t, v], "1", None))
  {
    var x, y := Sample("up", [a, t, v], "1", None), Sample("up", [t, v], "1", None);
    assert x.labels == [a] + y.labels;
    forall l: Label ensures l in Identity(x).1 <==> l in Identity(y).1 {
      assert l in x.labels <==> l == a || l in y.labels;
    }
    assert Identity(x).1 == Identity(y).1;
  }

  lemma FirstKeyFirst(m: map<string, string>, k: string)
    requires k in m && forall j :: j in m && j != k ==> Less(k, j)
    ensures SortedLabels(m) != [] && SortedLabels(m)[0] == (k, m[k])
  {
    var ks := SortedKeys(m.Keys);
    assert k in ks;
    var i :| 0 <= i < |ks| && ks[i] == k;
    if i > 0 {
      assert ks[0] in m.Keys && Less(ks[0], k);
      LessTransitive(k, ks[0], k);
      LessIrreflexive(k);
    }
  }

  lemma TwoKeys(m: map<string, string>, a: string, b: string)
    requires m.Keys == {a, b} && Less(a, b)
    ensures SortedLabels(m) == [(a, m[a]), (b, m[b])]
  {
    hide SortedKeys, SortedLabels;
    var ks := [a, b];
    StrictlySortedUnique(ks, SortedKeys(m.Keys));
  }

  lemma UnlabelledKeys()
    ensures ExtraLabels(Unlabelled()) == map["vm_name" := "B", "target_id" := "b"]
    ensures Less("target_id", "vm_name")
  {
  }

  lemma UnlabelledLabels()
    ensures Format(ExtraLabels(Unlabelled())) == OWN_LABELS
  {
    hide ExtraLabels, SortedLabels, RenderLabels, Less;
    UnlabelledKeys();
    UnlabelledText();
    TwoKeys(ExtraLabels(Unlabelled()), "target_id", "vm_name");
  }

  lemma HeadKey(m: map<string, string>, k: string, x: string, y: string)
    requires k in m && (forall j :: j in m && j != k ==> Less(k, j)) && k == x + "\n" + y
    ensures exists rest: string ::
      Format(m) == x + "\n" + rest
  {
    FirstKeyFirst(m, k);
    var ls := SortedLabels(m);
    RenderHead(ls);
    hide RenderLabels, SortedLabels;
    var tail :| RenderLabels(ls) == ls[0].0 + tail;
    assert x + "\n" + y + tail == x + "\n" + (y + tail);
  }

  lemma BadlyNamedKeys()
    ensures var m := ExtraLabels(BadlyNamed());
      LONG_NAME in m && forall j :: j in m && j != LONG_NAME ==> Less(LONG_NAME, j)
    ensures LONG_NAME == OTHER_LABELS + "} 1" + "\n" + "x"
  {
    assert LONG_NAME[0] == 'a' && LONG_NAME != "vm_name" && LONG_NAME != "target_id";
    assert Less(LONG_NAME, "vm_name") && Less(LONG_NAME, "target_id");
    assert OTHER_LABELS + "} 1\nx" == OTHER_LABELS + "} 1" + "\n" + "x";
  }

  lemma BadlyNamedLabels()
    ensures exists rest: string ::
      Format(ExtraLabels(BadlyNamed())) == OTHER_LABELS + "} 1" + "\n" + rest
  {
    hide *;
    BadlyNamedKeys();
    HeadKey(ExtraLabels(BadlyNamed()), LONG_NAME, OTHER_LABELS + "} 1", "x");
  }

  lemma RenderHead(ls: seq<Label>)
    requires ls != []
    ensures exists tail: string ::
      RenderLabels(ls) == ls[0].0 + tail
  {
    var v := "=\"" + EscapeLabelValue(ls[0].1) + "\"";
    assert RenderLabel(ls[0]) == ls[0].0 + v;
    if |ls| == 1 {
      assert RenderLabels(ls) == ls[0].0 + v;
    } else {
      assert RenderLabels(ls) == ls[0].0 + (v + "," + RenderLabels(ls[1..]));
    }
  }

  /** Both targets' children show well-formed text without repetition. */
  function Scraped(t: Target): ScrapeResult { ScrapeResult(t, Some(UP_LINE + "\n")) }

  lemma BothAreUp()
    ensures IsUp(Scraped(BadlyNamed()), 1000) && IsUp(Scraped(Unlabelled()), 1000)
    ensures Section(Scraped(BadlyNamed()), 1000) == InjectLine(UP_LINE, Format(ExtraLabels(BadlyNamed()))) + "\n" + "\n"
    ensures Section(Scraped(Unlabelled()), 1000) == InjectLine(UP_LINE, Format(ExtraLabels(Unlabelled()))) + "\n" + "\n"
  {
    UpLine();
    hide RawLines, Lines, TooLong, InjectLine, Format, ParseSample;
    OneInjected(Format(ExtraLabels(BadlyNamed())));
    OneInjected(Format(ExtraLabels(Unlabelled())));
    assert "target_id" in ExtraLabels(BadlyNamed()) && "target_id" in ExtraLabels(Unlabelled());
  }

  lemma OneInjected(f: string)
    ensures InjectLines([UP_LINE], f) == InjectLine(UP_LINE, f) + "\n"
  {
    hide InjectLine;
    assert [UP_LINE][1..] == [];
    assert InjectLine(UP_LINE, f) + "\n" + "" == InjectLine(UP_LINE, f) + "\n";
  }

  // Two targets whose exporters show the same metric.

  const TYPE_LINE := "# TYPE up gauge"

  /** Whatever the targets, two exporters that declare the same metric make the page
      declare it twice. */
  lemma SameMetricIsDeclaredTwice(s: Target, t: Target, elapsed: string)
    requires OneLineKeys(s.labels) && OneLineKeys(t.labels) && IsValue(elapsed)
    ensures DeclaresOnce(Lines(TYPE_LINE + "\n"))
    ensures var rs := [ScrapeResult(s, Some(TYPE_LINE + "\n")), ScrapeResult(t, Some(TYPE_LINE + "\n"))];
      !DeclaresOnce(RawLines(Page(rs, elapsed, 1000)))
  {
    TypeLine();
    DeclaredByType(s);
    DeclaredByType(t);
    hide *;
    TypedPage(s, t, elapsed);
  }

  lemma TypedPage(s: Target, t: Target, elapsed: string)
    requires OneLineKeys(s.labels) && OneLineKeys(t.labels) && IsValue(elapsed)
    requires ("TYPE", "up") in DeclaredBy(ScrapeResult(s, Some(TYPE_LINE + "\n")), 1000)
    requires ("TYPE", "up") in DeclaredBy(ScrapeResult(t, Some(TYPE_LINE + "\n")), 1000)
    ensures var rs := [ScrapeResult(s, Some(TYPE_LINE + "\n")), ScrapeResult(t, Some(TYPE_LINE + "\n"))];
      !DeclaresOnce(RawLines(Page(rs, elapsed, 1000)))
  {
    var rs := [ScrapeResult(s, Some(TYPE_LINE + "\n")), ScrapeResult(t, Some(TYPE_LINE + "\n"))];
    hide DeclaresOnce, DeclaredBy, Page, RawLines, OneLineKeys, IsUp, IsValue, Lines;
    PageDeclaresOnceExactlyWhen(rs, elapsed, 1000);
    assert ("TYPE", "up") in DeclaredBy(rs[0], 1000) && ("TYPE", "up") in DeclaredBy(rs[1], 1000);
  }

  lemma TypeLine()
    ensures Lines(TYPE_LINE + "\n") == [TYPE_LINE] && !TooLong(TYPE_LINE + "\n", 1000)
    ensures Declares(TYPE_LINE) == Some(("TYPE", "up")) && DeclaresOnce([TYPE_LINE])
  {
    assert '\n' !in TYPE_LINE && DropCR(TYPE_LINE) == TYPE_LINE;
    OneLine(TYPE_LINE);
    hide RawLines, Lines;
    TypeLineDeclares();
  }

  lemma TypeLineDeclares()
    ensures Declares(TYPE_LINE) == Some(("TYPE", "up"))
  {
    UpIsToken();
    hide IsToken, Declares;
    MetaLine("TYPE", "up", "gauge");
    assert "# " + "TYPE" + " " + "up" + " " + "gauge" == TYPE_LINE;
  }

  lemma UpIsToken()
    ensures IsToken("up")
  {
  }

  lemma DeclaredByType(t: Target)
    ensures ("TYPE", "up") in DeclaredBy(ScrapeResult(t, Some(TYPE_LINE + "\n")), 1000)
  {
    TypeLine();
    hide RawLines, Lines, TooLong, InjectLine, Format, Declares;
    assert "target_id" in ExtraLabels(t);
    assert Declares([TYPE_LINE][0]) == Some(("TYPE", "up"));
  }

  /** A label name that is none lets a target show another one's series: with distinct
      IDs and well-formed children the page shows a series twice. */
  lemma InvalidNameCollides(elapsed: string)
    ensures var rs := [Scraped(BadlyNamed()), Scraped(Unlabelled())];
      && DistinctIds(rs, 1000) && WellFormedText(Lines(UP_LINE + "\n")) && NoCollision(Lines(UP_LINE + "\n"))
      && !NoCollision(RawLines(Page(rs, elapsed, 1000)))
  {
    UpLine();
    hide *;
    FirstLineOfFirst(elapsed);
    TwoUpTargets();
  }

  lemma TwoUpTargets()
    requires Lines(UP_LINE + "\n") == [UP_LINE] && ParseSample(UP_LINE).Some?
    ensures var rs := [Scraped(BadlyNamed()), Scraped(Unlabelled())];
      DistinctIds(rs, 1000) && WellFormedText(Lines(UP_LINE + "\n")) && NoCollision(Lines(UP_LINE + "\n"))
  {
    hide Lines, ParseSample, IsUp, Identity;
  }

  lemma FirstLineOfFirst(elapsed: string)
    ensures !NoCollision(RawLines(Page([Scraped(BadlyNamed()), Scraped(Unlabelled())], elapsed, 1000)))
  {
    BothAreUp();
    BadlyNamedLabels();
    UnlabelledLabels();
    var a, b := Scraped(BadlyNamed()), Scraped(Unlabelled());
    var f, g := Format(ExtraLabels(BadlyNamed())), Format(ExtraLabels(Unlabelled()));
    hide RawLines, Format, ExtraLabels, InjectLine, Section, Sections, Page, NoCollision, ParseSample, Identity, IsUp;
    UpInjected(f);
    UpInjected(g);
    var rest: string :| f == OTHER_LABELS + "} 1" + "\n" + rest;
    var x, y := "up{" + OTHER_LABELS + "} 1", "up{" + g + "} 1";
    CutFirst(x, f, rest);
    SectionsOfTwo(a, b);
    PageOfTwo(a, b, elapsed, x, rest + "} 1\n\n", y);
    SameIdentity();
    TwoLinesCollide(RawLines(Page([a, b], elapsed, 1000)), x, y);
  }

  lemma CutFirst(x: string, f: string, rest: string)
    requires f == OTHER_LABELS + "} 1" + "\n" + rest && x == "up{" + OTHER_LABELS + "} 1"
    ensures "up{" + f + "} 1" + "\n" + "\n" == x + "\n" + (rest + "} 1\n\n")
  {
  }

  lemma SectionsOfTwo(a: ScrapeResult, b: ScrapeResult)
    ensures Sections([a, b], 1000) == Section(a, 1000) + Section(b, 1000)
  {
    hide Section;
    assert [a, b][1..] == [b] && [b][1..] == [];
    assert Sections([b], 1000) == Section(b, 1000) + Sections([], 1000);
  }

  /** A first section that starts with the line x, and a second that starts with y. */
  lemma PageOfTwo(a: ScrapeResult, b: ScrapeResult, elapsed: string, x: string, more: string, y: string)
    requires Section(a, 1000) == x + "\n" + more && '\n' !in x
    requires Section(b, 1000) == y + "\n" + "\n" && '\n' !in y
    requires Sections([a, b], 1000) == Section(a, 1000) + Section(b, 1000)
    ensures var ls := RawLines(Page([a, b], elapsed, 1000));
      exists i, j :: 0 <= i < j < |ls| && ls[i] == x && ls[j] == y
  {
    SectionWhole(a, 1000);
    SectionWhole(b, 1000);
    SectionsWhole([a, b], 1000);
    hide RawLines, Section, Sections, Page, WholeLines, IsUp;
    PageLines([a, b], elapsed, 1000);
    RawLinesAppend(Section(a, 1000), Section(b, 1000));
    RawLinesCons(x, more);
    RawLinesCons(y, "\n");
    var p, q := RawLines(Section(a, 1000)), RawLines(Section(b, 1000));
    var ls := RawLines(Page([a, b], elapsed, 1000));
    assert p[0] == x && q[0] == y;
    assert ls[0] == x && ls[|p|] == y;
  }

  lemma TwoLinesCollide(ls: seq<string>, x: string, y: string)
    requires exists i, j :: 0 <= i < j < |ls| && ls[i] == x && ls[j] == y
    requires ParseSample(x).Some? && ParseSample(y).Some?
    requires Identity(ParseSample(x).value) == Identity(ParseSample(y).value)
    ensures !NoCollision(ls)
  {
    hide ParseSample, Identity;
    var i, j :| 0 <= i < j < |ls| && ls[i] == x && ls[j] == y;
  }

  const STRAY := "up 1}"

  /** A brace behind an unlabelled sample: two injections are not one. */
  lemma StrayBraceDoesNotCompose(fa: string, fb: string)
    requires fa != ""
    ensures InjectLine(InjectLine(STRAY, fa), fb) != InjectLine(STRAY, fa + "," + fb)
  {
    TrimSpaceFixed(STRAY);
    assert IsBlank(STRAY[2]) && STRAY[2..] == " 1}";
    ComposeLine(STRAY, fa, fb);
  }

  /** A target without ID, name and labels that shows a self-metric. */
  const NAMELESS := Target("", "", "10.0.0.1", "", "", map[], [])

  lemma SelfLine(name: string, l: string)
    requires ValidMetricName(name) && name in SELF && l == name + " " + "5"
    ensures IsSelfSample(l) && ParseSample(l).value.labels == []
    ensures '{' !in l && '\n' !in l && DropCR(l) == l
  {
    hide *;
    FiveIsValue();
    SelfSample(name, "5");
    UnlabelledIsSelf(l, name, "5");
    LineChars(name, l);
  }

  lemma FiveIsValue()
    ensures IsValue("5")
  {
  }

  lemma UnlabelledIsSelf(l: string, name: string, v: string)
    requires ParseSample(l) == Some(Sample(name, [], v, None)) && name in SELF
    ensures IsSelfSample(l)
  {
    hide ParseSample;
  }

  lemma LineChars(name: string, l: string)
    requires ValidMetricName(name) && l == name + " " + "5"
    ensures '{' !in l && '\n' !in l && DropCR(l) == l
  {
    assert forall c :: c in name ==> IsNameChar(c);
    assert l[|l| - 1] == '5';
  }

  lemma NoBlockIsAppendable(l: string)
    requires '{' !in l
    ensures Appendable(l)
  {
  }

  /** A target without ID, name and labels, and a line of its child. */
  lemma NamelessShadows(r: ScrapeResult, l: string)
    requires r == ScrapeResult(NAMELESS, Some(l + "\n"))
    requires Lines(l + "\n") == [l] && IsUp(r, 1000)
    requires IsSelfSample(l) && ParseSample(l).value.labels == [] && '{' !in l
    ensures Shadows(r, 1000, l)
  {
    hide Lines, ParseSample, IsUp, IsSelfSample, Appendable;
    NoBlockIsAppendable(l);
    NamelessExtras();
  }

  lemma OneShadow(r: ScrapeResult, l: string, elapsed: string, limit: nat)
    requires GoodChild(r) && Shadows(r, limit, l) && IsValue(elapsed)
    ensures !NoCollision(RawLines(Page([r], elapsed, limit)))
  {
    hide RawLines, Page, NoCollision, GoodChild, IsUp, Shadows, IsValue;
    assert Shadows([r][0], limit, l);
    PageHasNoCollision([r], elapsed, limit);
  }

  /** The page shows such a target's sample twice, if it is named like a self-metric. */
  lemma NamelessTargetCollides(elapsed: string)
    requires IsValue(elapsed)
    ensures var r := ScrapeResult(NAMELESS, Some(UP + " " + "5" + "\n"));
      !NoCollision(RawLines(Page([r], elapsed, 1000)))
  {
    SelfNames();
    SelfSet();
    hide *;
    NamelessCollides(UP, elapsed);
  }

  lemma NamelessCollides(name: string, elapsed: string)
    requires ValidMetricName(name) && name in SELF && IsValue(elapsed)
    ensures var r := ScrapeResult(NAMELESS, Some(name + " " + "5" + "\n"));
      !NoCollision(RawLines(Page([r], elapsed, 1000)))
  {
    var l := name + " " + "5";
    assert |l| < 1000;
    hide *;
    var r := ScrapeResult(NAMELESS, Some(l + "\n"));
    SelfLine(name, l);
    OneLine(l);
    SelfLineParses(l);
    NamelessIsGood(r, l);
    NamelessShadows(r, l);
    OneShadow(r, l, elapsed, 1000);
  }

  lemma SelfLineParses(l: string)
    requires IsSelfSample(l)
    ensures ParseSample(l).Some?
  {
  }

  lemma OneLine(l: string)
    requires '\n' !in l && DropCR(l) == l
    ensures RawLines(l + "\n") == [l] && Lines(l + "\n") == [l]
  {
    RawLinesCons(l, "");
    assert l + "\n" + "" == l + "\n";
    assert [l] + [] == [l];
    hide RawLines;
    assert [l][1..] == [];
  }

  lemma NamelessExtras()
    ensures ExtraLabels(NAMELESS) == map["vm_name" := "", "target_id" := ""]
  {
  }

  lemma NamelessIsGood(r: ScrapeResult, l: string)
    requires r == ScrapeResult(NAMELESS, Some(l + "\n"))
    requires RawLines(l + "\n") == [l] && Lines(l + "\n") == [l] && |l| < 1000 && ParseSample(l).Some?
    ensures GoodChild(r) && IsUp(r, 1000)
  {
    hide RawLines, Lines, ParseSample, IsComment, InjectLines, Format;
  }

  // ---- Endpoints -------------------------------------------------------------------

  const COLONS := "a:b:c"

  /** A name with two colons is given a port each time it is normalised. */
  lemma TwoColonsGrow(p: int)
    ensures !Stable(COLONS)
    ensures NormalizeEndpoint(COLONS, p).Accepted?
    ensures NormalizeEndpoint(NormalizeEndpoint(COLONS, p).endpoint, p) != NormalizeEndpoint(COLONS, p)
  {
    TrimSpaceFixed(COLONS);
    assert Scheme(COLONS) == "" && COLONS[0..] == COLONS;
    assert COLONS[..1] == "a" && COLONS[4..] == "c" && COLONS[..3] == "a:b";
    IndexByteAt(COLONS, ':', 1);
    LastIndexByteAt(COLONS, ':', 3);
    assert SplitHostPort(COLONS).None? by { assert COLONS[..3][1] == ':'; }
    NoAddressIn(COLONS);
    PlainCase(COLONS, p);
  }

  lemma NoAddressIn(s: string)
    requires s == COLONS && LastIndexByte(s, ':') == 3
    ensures V6Host(s).None?
  {
    assert s[4..] == "c" && s[..3] == "a:b";
    assert !IsDecimal("c") by { assert 'c' in "c"; }
    ShortIsNoAddress(s);
  }

  lemma ThreeFields()
    ensures |Fields(COLONS, ':')| == 3
  {
    hide Fields;
    FieldsCons("a", ':', "b:c");
    FieldsCons("b", ':', "c");
    FieldsSingle("c", ':');
    assert "a" + [':'] + "b:c" == COLONS && "b" + [':'] + "c" == "b:c";
  }

  lemma NoPairInColons()
    ensures IndexPair(COLONS) < 0
  {
    var k := IndexPair(COLONS);
    assert k < 0 || k == 0 || k == 1 || k == 2 || k == 3;
  }

  lemma ShortIsNoAddress(s: string)
    requires s == COLONS
    ensures !IsIPv6(s)
  {
    hide Fields, HexGroups, IndexPair, IsMapped, ParseParts, StripZone, StripBrackets;
    ThreeFields();
    NoPairInColons();
    TooFewGroups(s);
    Unwrapped(s);
    NoDotFamily(s);
  }

  lemma TooFewGroups(s: string)
    requires IndexPair(s) < 0 && |Fields(s, ':')| == 3
    ensures ParseParts(s).None?
  {
    hide Fields, HexGroups, ParseIPv4;
  }

  const MISREAD := "2001:db8::1:5555"

  lemma Hex(s: string)
    requires s == "2001" || s == "db8" || s == "1" || s == "5555" || s == "fe80"
    ensures IsGroup(s) && HexValue(s) > 0
    ensures s == "fe80" ==> HexValue(s) == 0xfe80
  {
    assert s[..|s| - 1]
        == if s == "2001" then "200" else if s == "db8" then "db" else if s == "1" then ""
           else if s == "5555" then "555" else "fe8";
    if s == "fe80" {
      assert "fe8"[..2] == "fe" && "fe"[..1] == "f" && "f"[..0] == "";
      assert HexValue("f") == 15;
      assert HexValue("fe") == 254;
    }
  }

  lemma Port5555()
    ensures IsPort("5555")
  {
    assert "5555"[..3] == "555" && "555"[..2] == "55" && "55"[..1] == "5" && "5"[..0] == "";
    assert DecimalValue("5") == 5;
    assert DecimalValue("55") == 55;
    assert DecimalValue("555") == 555;
  }

  lemma PairIs(s: string, k: nat)
    requires k + 1 < |s| && s[k] == ':' && s[k + 1] == ':'
    requires forall j :: 0 <= j < k ==> !(s[j] == ':' && s[j + 1] == ':')
    ensures IndexPair(s) == k
  {
    PairBound(s, k);
  }

  lemma OneGroup(a: string)
    requires IsGroup(a)
    ensures ':' !in a && '.' !in a
    ensures HexGroups([a]) == Some([HexValue(a)])
    ensures LeftGroups(a) == Some([HexValue(a)]) && RightGroups(a) == Some([HexValue(a)])
  {
    HexGroupsSnoc([], a);
    assert [] + [a] == [a] && [] + [HexValue(a)] == [HexValue(a)];
    FieldsSingle(a, ':');
  }

  lemma TwoGroups(a: string, b: string)
    requires IsGroup(a) && IsGroup(b)
    ensures LeftGroups(a + ":" + b) == Some([HexValue(a), HexValue(b)])
    ensures RightGroups(a + ":" + b) == Some([HexValue(a), HexValue(b)])
  {
    hide HexValue, HexGroups;
    OneGroup(a);
    OneGroup(b);
    FieldsCons(a, ':', b);
    FieldsSingle(b, ':');
    assert a + [':'] + b == a + ":" + b;
    HexGroupsSnoc([a], b);
    assert [a] + [b] == [a, b] && [HexValue(a)] + [HexValue(b)] == [HexValue(a), HexValue(b)];
  }

  lemma MisreadColons()
    ensures IndexPair(MISREAD) == 8
    ensures LastIndexByte(MISREAD, ':') == 11 && MISREAD[12..] == "5555"
  {
    hide IndexPair;
    var s := MISREAD;
    PairIs(s, 8);
    assert s[12..] == "5555";
    LastIndexByteAt(s, ':', 11);
  }

  /** The parts of an address of two groups, a gap and two groups. */
  lemma TwoAndTwo(a: string, b: string, c: string, d: string)
    requires IsGroup(a) && IsGroup(b) && IsGroup(c) && IsGroup(d)
    requires IndexPair((a + ":" + b) + "::" + (c + ":" + d)) == |a + ":" + b|
    ensures ParseParts((a + ":" + b) + "::" + (c + ":" + d))
         == Some(Compressed([HexValue(a), HexValue(b)], [HexValue(c), HexValue(d)]))
  {
    hide HexValue, LeftGroups, RightGroups, ParseParts, IndexPair;
    var left, right := a + ":" + b, c + ":" + d;
    TwoGroups(a, b);
    TwoGroups(c, d);
    CompressedParts(left, right);
  }

  lemma MisreadText()
    ensures ("2001" + ":" + "db8") + "::" + ("1" + ":" + "5555") == MISREAD && |"2001" + ":" + "db8"| == 8
  {
  }

  lemma MisreadParts()
    ensures IsGroup("2001") && IsGroup("db8") && IsGroup("1") && IsGroup("5555")
    ensures ParseParts(MISREAD)
         == Some(Compressed([HexValue("2001"), HexValue("db8")], [HexValue("1"), HexValue("5555")]))
  {
    Hex("2001");
    Hex("db8");
    Hex("1");
    Hex("5555");
    hide IndexPair, HexValue, LeftGroups, RightGroups, ParseParts;
    MisreadColons();
    MisreadText();
    TwoAndTwo("2001", "db8", "1", "5555");
  }

  lemma Unwrapped(s: string)
    requires s != "" && s[0] != '[' && '%' !in s
    ensures StripZone(StripBrackets(s)) == s && IsPlain(s)
  {
    PrefixChar('[', s);
  }

  lemma NotMapped(p: Parts)
    requires p.Compressed? && |p.left| + |p.right| <= 7 && p.left != [] && p.left[0] > 0
    ensures Groups(p)[0] == p.left[0] && !IsMapped(Groups(p))
  {
  }

  lemma AddressWithParts(s: string, p: Parts)
    requires s != "" && s[0] != '[' && '%' !in s && '.' !in s && ':' in s
    requires p.Compressed? && |p.left| + |p.right| <= 7 && p.left != [] && p.left[0] > 0
    requires ParseParts(s) == Some(p)
    ensures IsIPv6(s) && IsPlain(s) && CleanIP(s).value.groups[0] == p.left[0]
  {
    hide ParseParts, IsMapped, Groups;
    Unwrapped(s);
    NotMapped(p);
  }

  /** An address with its last group in reach of the port numbers loses that group. */
  lemma LastGroupIsMisread(p: int)
    ensures IsIPv6(MISREAD) && IsPlain(MISREAD)
    ensures NormalizeEndpoint(TCP + MISREAD, p) != Accepted(Bracketed(TCP, MISREAD, Itoa(p)))
  {
    hide NormalizeEndpoint, ParseParts, IndexPair, IsPort, HexValue, IsIPv6, IsPlain;
    hide IsMapped, Groups, CleanIP, Bracketed, Itoa;
    MisreadParts();
    MisreadColons();
    Hex("2001");
    Port5555();
    AddressWithParts(MISREAD, ParseParts(MISREAD).value);
    var cut := Compressed([HexValue("2001"), HexValue("db8")], [HexValue("1"), HexValue("5555")][..1]);
    NotMapped(cut);
    UnscopedStaysWhole(MISREAD, p);
  }

  const LOCAL := "fe80::1"

  lemma LocalParts()
    ensures ParseParts(LOCAL) == Some(Compressed([HexValue("fe80")], [HexValue("1")]))
  {
    hide IndexPair, HexValue, LeftGroups, RightGroups, ParseParts;
    PairIs(LOCAL, 4);
    Hex("fe80");
    Hex("1");
    OneGroup("fe80");
    OneGroup("1");
    assert "fe80" + "::" + "1" == LOCAL;
    CompressedParts("fe80", "1");
  }

  lemma Port1()
    ensures IsPort("1")
  {
    assert "1"[..0] == "";
    assert DecimalValue("1") == 1;
  }

  /** A link-local address on an interface alias loses the alias. */
  lemma AliasIsMisread(p: int)
    ensures IsLinkLocal(LOCAL) && IsPlain(LOCAL)
    ensures NormalizeEndpoint(TCP + (LOCAL + "%" + "eth0:1"), p)
         != Accepted(Bracketed(TCP, LOCAL + "%" + "eth0:1", Itoa(p)))
  {
    hide NormalizeEndpoint, ParseParts, IsPort, HexValue, IsIPv6, IsPlain, CleanIP, Bracketed, Itoa;
    LocalParts();
    Hex("fe80");
    AddressWithParts(LOCAL, ParseParts(LOCAL).value);
    Port1();
    AliasOfEth0();
    ScopedStaysWhole(LOCAL, "eth0:1", p);
  }

  lemma AliasOfEth0()
    ensures SpaceAtEnd("eth0:1") == 0
    ensures ':' in "eth0:1" && LastIndexByte("eth0:1", ':') == 4 && "eth0:1"[5..] == "1"
  {
    var iface := "eth0:1";
    assert iface[5..] == "1";
    LastIndexByteAt(iface, ':', 4);
  }

  // ---- Reconcile ---------------------------------------------------------------------

  /** A new instance whose endpoint has no port is restarted by the second call. */
  lemma SecondCallRestarts(id: string)
    requires id != ""
    ensures var desired := [Target(id, "vm", "10.0.0.1", "", "", map[], [])];
      var once := Reconcile.Reconciled(map[], desired);
      var twice := Reconcile.Reconciled(once, desired);
      && id in twice && twice[id].calls == [Reconcile.CallStart, Reconcile.CallStop, Reconcile.CallStart]
  {
    var t := Target(id, "vm", "10.0.0.1", "", "", map[], []);
    assert [t][..0] == [];
    assert Reconcile.DesiredMap([t]) == map[id := t];
    PortIsAppended();
    hide NormalizeEndpoint, Reconcile.Reconciled, Reconcile.DesiredMap;
    Reconcile.SecondReconcile(map[], [t], id);
  }

  /** A renamed target keeps the name its instance was created with. */
  lemma RenameIsNotPickedUp(id: string, e: string)
    requires id != ""
    ensures var was := map[id := Reconcile.Managed(Target(id, "before", e, "", "", map[], []), [Reconcile.CallStart])];
      var now := Reconcile.Reconciled(was, [Target(id, "after", e, "", "", map[], [])]);
      id in now && now[id].target.name == "before"
  {
    var t := Target(id, "after", e, "", "", map[], []);
    assert [t][..0] == [];
    assert Reconcile.DesiredMap([t]) == map[id := t];
  }

  lemma PortIsAppended()
    ensures NormalizeEndpoint("10.0.0.1", 5555).Accepted? && NormalizeEndpoint("10.0.0.1", 5555).endpoint != "10.0.0.1"
  {
    var e := "10.0.0.1";
    TrimSpaceFixed(e);
    assert Scheme(e) == "" && e[0..] == e;
    PrefixChar('[', e);
    assert ':' !in e;
    if IsIPv6(e) { IPv6HasColon(e); }
  }

  // ---- A virsh table --------------------------------------------------------------------

  predicate IsWord(w: string) {
    w != "" && forall c :: c in w ==> IsSolid(c)
  }

  lemma {:induction false} WordEndAt(w: string, s: string)
    requires (forall c :: c in w ==> IsSolid(c)) && (s == "" || s[0] == ' ')
    ensures Libvirt.WordEnd(w + s) == |w|
    decreases |w|
  {
    if w == "" {
      assert w + s == s;
    } else {
      assert (w + s)[1..] == w[1..] + s && (w + s)[0] == w[0] && w[0] in w;
      WordEndAt(w[1..], s);
    }
  }

  lemma WordsCons(w: string, s: string)
    requires IsWord(w)
    ensures Libvirt.Words(w + [' '] + s) == [w] + Libvirt.Words(s)
  {
    var t := w + ([' '] + s);
    assert w + [' '] + s == t;
    assert t[0] == w[0] && w[0] in w;
    WordEndAt(w, [' '] + s);
    assert t[..|w|] == w && t[|w|..] == [' '] + s;
    assert ([' '] + s)[1..] == s;
    assert Libvirt.Words([' '] + s) == Libvirt.Words(s);
  }

  lemma WordsLast(w: string)
    requires IsWord(w)
    ensures Libvirt.Words(w) == [w]
  {
    assert w[0] in w;
    WordEndAt(w, "");
    assert w + "" == w;
    assert w[..|w|] == w && w[|w|..] == "";
  }

  const TABLE := "eth0 - ipv6 ::1%eth0/128"

  lemma FourWords(a: string, b: string, c: string, d: string)
    requires IsWord(a) && IsWord(b) && IsWord(c) && IsWord(d)
    ensures Libvirt.Words(a + [' '] + (b + [' '] + (c + [' '] + d))) == [a, b, c, d]
  {
    hide Libvirt.Words, IsWord;
    WordsLast(d);
    WordsCons(c, d);
    WordsCons(b, c + [' '] + d);
    WordsCons(a, b + [' '] + (c + [' '] + d));
    assert [a] + ([b] + ([c] + [d])) == [a, b, c, d];
  }

  lemma TableWords()
    ensures Libvirt.Words(TABLE) == ["eth0", "-", "ipv6", "::1%eth0/128"]
  {
    hide Libvirt.Words;
    FourWords("eth0", "-", "ipv6", "::1%eth0/128");
    assert "eth0" + [' '] + ("-" + [' '] + ("ipv6" + [' '] + "::1%eth0/128")) == TABLE;
  }

  lemma LoopbackParts()
    ensures ParseIP("::1") == Some(V6([0, 0, 0, 0, 0, 0, 0, 1]))
  {
    hide IndexPair, HexValue, LeftGroups, RightGroups;
    LoopbackPieces();
    PairIs("::1", 0);
    assert "" + "::" + "1" == "::1";
    CompressedParts("", "1");
    hide ParseParts;
    LoopbackGroups();
  }

  lemma LoopbackPieces()
    ensures LeftGroups("") == Some([]) && RightGroups("1") == Some([1])
  {
    Hex("1");
    OneGroup("1");
    assert "1"[..0] == "";
    assert HexValue("1") == 1;
    hide LeftGroups, RightGroups;
    assert LeftGroups("") == Some([]) by { EmptyLeft(); }
  }

  lemma EmptyLeft()
    ensures LeftGroups("") == Some([])
  {
  }

  lemma LoopbackGroups()
    ensures Groups(Compressed([], [1])) == [0, 0, 0, 0, 0, 0, 0, 1]
  {
    var z := Zeros(7);
    assert [] + z + [1] == [0, 0, 0, 0, 0, 0, 0, 1];
  }

  lemma ZonedLoopback()
    ensures ParseIP("::1%eth0").None? && CleanIP("::1%eth0") == Some(V6([0, 0, 0, 0, 0, 0, 0, 1]))
  {
    var s := "::1%eth0";
    LoopbackParts();
    assert s[..3] == "::1";
    IndexByteAt(s, '%', 3);
    assert '%' in s;
  }

  /** A loopback address with a zone is not recognised, and is chosen. */
  lemma ZonedLoopbackIsChosen()
    ensures Libvirt.Selected(TABLE, "ipv6") == "::1%eth0" && Libvirt.IsUseless("::1%eth0")
  {
    var e := Libvirt.Entry("eth0", "ipv6", "::1%eth0");
    hide Libvirt.Entries, Libvirt.RowEntry, ParseIP, CleanIP, Libvirt.IsGlobal, Libvirt.FindIPv6, Fields;
    ZonedLoopback();
    TableEntry(e);
    NoNewline();
    FieldsSingle(TABLE, '\n');
    OneEntry(TABLE, e);
    FirstOfOne(e);
  }

  lemma NoNewline()
    ensures '\n' !in TABLE
  {
  }

  lemma OneEntry(line: string, e: Libvirt.Entry)
    requires Libvirt.RowEntry([line], 0) == Some(e)
    ensures Libvirt.Entries([line], 1) == [e]
  {
    hide Libvirt.RowEntry;
    assert Libvirt.Entries([line], 0) == [];
  }

  lemma FirstOfOne(e: Libvirt.Entry)
    requires Libvirt.IsGlobal(e)
    ensures Libvirt.FindIPv6([e]) == e.addr
  {
    hide Libvirt.IsGlobal;
  }

  lemma TableEntry(e: Libvirt.Entry)
    requires e == Libvirt.Entry("eth0", "ipv6", "::1%eth0")
    ensures Libvirt.RowEntry([TABLE], 0) == Some(e)
    ensures Libvirt.IsGlobal(e)
  {
    TableIsRow();
    TableLine();
    hide Libvirt.IsRow, Libvirt.LineEntry, Libvirt.Words, ParseIP, CleanIP, TrimSpace, Fields;
    TableInterface();
    ZonedLoopback();
    GlobalIfNotLocal(e);
  }

  lemma GlobalIfNotLocal(e: Libvirt.Entry)
    requires e.proto == "ipv6" && CleanIP(e.addr) == Some(V6([0, 0, 0, 0, 0, 0, 0, 1]))
    ensures Libvirt.IsGlobal(e)
  {
    hide CleanIP;
  }

  lemma TableIsRow()
    ensures TrimSpace(TABLE) == TABLE && Libvirt.IsRow(TABLE)
  {
    TrimSpaceFixed(TABLE);
    TableWords();
    hide Libvirt.Words, TrimSpace;
  }

  lemma TableInterface()
    ensures Libvirt.NearestIface([TABLE], 1) == "eth0"
  {
    TableIsRow();
    TableWords();
    hide Libvirt.Words, TrimSpace, Libvirt.IsRow;
    assert Libvirt.NamesIface(TABLE);
  }

  lemma LineOf(line: string, iface: string, ws: seq<string>, proto: string, masked: string, addr: string)
    requires Libvirt.IsRow(line) && Libvirt.Words(TrimSpace(line)) == ws
    requires Libvirt.ProtoAndMask(ws) == Some((proto, masked))
    requires Fields(masked, '/')[0] == addr && !Libvirt.IsIgnored(iface, addr)
    ensures Libvirt.LineEntry(line, iface) == Some(Libvirt.Entry(iface, proto, addr))
  {
  }

  lemma AddressOfMasked()
    ensures Fields("::1%eth0/128", '/')[0] == "::1%eth0"
  {
    hide Fields;
    FieldsCons("::1%eth0", '/', "128");
    assert "::1%eth0" + ['/'] + "128" == "::1%eth0/128";
  }

  lemma TableLine()
    ensures Libvirt.LineEntry(TABLE, "eth0") == Some(Libvirt.Entry("eth0", "ipv6", "::1%eth0"))
  {
    hide Libvirt.Words, Libvirt.ProtoAndMask, Libvirt.IsIgnored, Libvirt.IsRow, Libvirt.LineEntry, TrimSpace, Fields;
    TableIsRow();
    TableWords();
    ProtoOfTable();
    AddressOfMasked();
    NotIgnored();
    LineOf(TABLE, "eth0", ["eth0", "-", "ipv6", "::1%eth0/128"], "ipv6", "::1%eth0/128", "::1%eth0");
  }

  lemma NotIgnored()
    ensures !Libvirt.IsIgnored("eth0", "::1%eth0")
  {
    ZonedLoopback();
    hide ParseIP, CleanIP;
    assert "::1%eth0"[0] != "127."[0];
    assert "eth0"[0] != "lo:"[0];
  }

  lemma ProtoOfTable()
    ensures Libvirt.ProtoAndMask(["eth0", "-", "ipv6", "::1%eth0/128"]) == Some(("ipv6", "::1%eth0/128"))
  {
    var ws := ["eth0", "-", "ipv6", "::1%eth0/128"];
    assert ws[1..] == ["-", "ipv6", "::1%eth0/128"] && ws[1..][1..] == ["ipv6", "::1%eth0/128"];
    assert "ipv6"[1..] == "pv6";
    assert Libvirt.Proto("ipv6") == Some("ipv6");
  }
}
