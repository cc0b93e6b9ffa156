/** The aggregated /metrics page (internal/pkg/server/server.go) and the concurrent
    scrape behind it (ScrapeAll in internal/pkg/supervisor/manager.go). */
module Aggregate {
  import opened Text
  import opened Config
  import opened Relabel

  /** The outcome of scraping one instance; no data stands for a scrape error. */
  datatype ScrapeResult = ScrapeResult(target: Target, data: Option<string>)

  // ---- Scraping ------------------------------------------------------------

  function Below(n: nat): (s: set<nat>)
    ensures forall i: nat :: i in s <==> i < n
  {
    if n == 0 then {} else Below(n - 1) + {n - 1}
  }

  /** One goroutine per instance, finishing in any order; each stores its result
      at its own index. */
  method ScrapeAll(instances: seq<Target>, outcome: Target -> Option<string>) returns (results: array<ScrapeResult>)
    ensures fresh(results)
    ensures results[..]
         == seq(|instances|, i requires 0 <= i < |instances| => ScrapeResult(instances[i], outcome(instances[i])))
  {
    var unscraped := ScrapeResult(Target("", "", "", "", "", map[], []), None);
    results := new ScrapeResult[|instances|](_ => unscraped);
    var pending := Below(|instances|);
    while pending != {}
      invariant pending <= Below(|instances|)
      invariant forall i :: 0 <= i < |instances| && i !in pending
                  ==> results[i] == ScrapeResult(instances[i], outcome(instances[i]))
    {
      var i :| i in pending;
      results[i] := ScrapeResult(instances[i], outcome(instances[i]));
      pending := pending - {i};
    }
  }

  // ---- The page --------------------------------------------------------------

  /** The labels injected for a target. */
  function ExtraLabels(t: Target): map<string, string> {
    (if "vm_name" in t.labels then t.labels else t.labels["vm_name" := t.name])["target_id" := t.id]
  }

  /** What they are, name by name: the ID; the name, unless the target has a label
      `vm_name` of its own; its own labels; and nothing else. */
  ghost predicate LabelsFor(t: Target, m: map<string, string>) {
    && "target_id" in m && m["target_id"] == t.id
    && "vm_name" in m && m["vm_name"] == (if "vm_name" in t.labels then t.labels["vm_name"] else t.name)
    && (forall n :: n in t.labels && n != "target_id" ==> n in m && m[n] == t.labels[n])
    && (forall n :: n in m ==> n == "target_id" || n == "vm_name" || n in t.labels)
  }

  ghost function Enriched(r: ScrapeResult, limit: nat): Result
    requires r.data.Some?
  {
    Inject(r.data.value, ExtraLabels(r.target), limit)
  }

  /** Scraped, and short enough in every line to be relabelled. */
  ghost predicate IsUp(r: ScrapeResult, limit: nat) {
    r.data.Some? && Enriched(r, limit).Ok?
  }

  ghost function Section(r: ScrapeResult, limit: nat): string {
    if IsUp(r, limit) then Enriched(r, limit).text + "\n" else ""
  }

  ghost function Sections(rs: seq<ScrapeResult>, limit: nat): string {
    if rs == [] then "" else Section(rs[0], limit) + Sections(rs[1..], limit)
  }

  ghost function CountUp(rs: seq<ScrapeResult>, limit: nat): nat {
    if rs == [] then 0 else (if IsUp(rs[0], limit) then 1 else 0) + CountUp(rs[1..], limit)
  }

  function MetricLines(name: string, kind: string, help: string, value: string): seq<string> {
    [ "# HELP " + name + " " + help, "# TYPE " + name + " " + kind, name + " " + value ]
  }

  const TOTAL := "dcgm_supervisor_targets_total"
  const UP := "dcgm_supervisor_targets_up"
  const DURATION := "dcgm_supervisor_scrape_duration_seconds"
  const ERRORS := "dcgm_supervisor_scrape_errors_total"

  const TOTAL_HELP := "Total number of supervised targets"
  const UP_HELP := "Number of successfully scraped targets"
  const DURATION_HELP := "Time taken to aggregate all target scrapes"
  const ERRORS_HELP := "Total number of target scrape failures"

  /** The self-metrics the supervisor appends, line by line. */
  function SelfLines(total: nat, up: nat, elapsed: string, errors: nat): seq<string> {
    MetricLines(TOTAL, "gauge", TOTAL_HELP, Itoa(total))
    + MetricLines(UP, "gauge", UP_HELP, Itoa(up))
    + MetricLines(DURATION, "gauge", DURATION_HELP, elapsed)
    + MetricLines(ERRORS, "counter", ERRORS_HELP, Itoa(errors))
  }

  function Unlines(ls: seq<string>): string {
    if ls == [] then "" else ls[0] + "\n" + Unlines(ls[1..])
  }

  ghost function Page(rs: seq<ScrapeResult>, elapsed: string, limit: nat): string
  {
    Sections(rs, limit) + Unlines(SelfLines(|rs|, CountUp(rs, limit), elapsed, CountErrors(rs, limit)))
  }

  ghost function CountErrors(rs: seq<ScrapeResult>, limit: nat): nat {
    if rs == [] then 0 else (if IsUp(rs[0], limit) then 0 else 1) + CountErrors(rs[1..], limit)
  }

  lemma {:induction false} CountAppend(rs: seq<ScrapeResult>, r: ScrapeResult, limit: nat)
    ensures CountUp(rs + [r], limit) == CountUp(rs, limit) + (if IsUp(r, limit) then 1 else 0)
    ensures CountErrors(rs + [r], limit) == CountErrors(rs, limit) + (if IsUp(r, limit) then 0 else 1)
    ensures Sections(rs + [r], limit) == Sections(rs, limit) + Section(r, limit)
  {
    if rs == [] {
      assert [] + [r] == [r];
      assert Sections([r], limit) == Section(r, limit) + Sections([], limit);
    } else {
      assert (rs + [r])[1..] == rs[1..] + [r];
      CountAppend(rs[1..], r, limit);
      Assoc3(Section(rs[0], limit), Sections(rs[1..], limit), Section(r, limit));
    }
  }

  /** Which targets were scraped and could be relabelled. */
  ghost function UpIndices(rs: seq<ScrapeResult>, limit: nat): set<int> {
    set i | 0 <= i < |rs| && IsUp(rs[i], limit)
  }

  lemma {:induction false} CountIsSize(rs: seq<ScrapeResult>, limit: nat, n: nat)
    requires n == |rs|
    ensures CountUp(rs, limit) == |UpIndices(rs, limit)|
    decreases n
  {
    hide IsUp;
    if n > 0 {
      var init, last := rs[..n - 1], rs[n - 1];
      assert rs == init + [last];
      CountAppend(init, last, limit);
      CountIsSize(init, limit, n - 1);
      var before := UpIndices(init, limit);
      assert UpIndices(rs, limit) == if IsUp(last, limit) then before + {n - 1} else before;
    }
  }

  /** The body of the aggregation loop: the section of one target, if it is up. */
  method EnrichTarget(res: ScrapeResult, limit: nat) returns (section: string, ok: bool)
    ensures ok == IsUp(res, limit) && section == Section(res, limit)
    ensures res.data.Some? ==> exists labels ::
      LabelsFor(res.target, labels) &&
      match Inject(res.data.value, labels, limit)
      case Ok(text) => ok && section == text + "\n"
      case ScanError => !ok && section == ""
  {
    if res.data.None? {
      return "", false;
    }
    var labels := res.target.labels;
    if "vm_name" !in labels {
      labels := labels["vm_name" := res.target.name];
    }
    labels := labels["target_id" := res.target.id];
    assert LabelsFor(res.target, labels);
    var enriched := InjectLabels(res.data.value, labels, limit);
    if enriched.ScanError? {
      return "", false;
    }
    return enriched.text + "\n", true;
  }

  /** The aggregation loop.  The duration arrives already printed. */
  method HandleMetrics(results: seq<ScrapeResult>, elapsed: string, limit: nat)
    returns (page: string, targetsUp: nat, scrapeErrors: nat)
    ensures page == Page(results, elapsed, limit)
    ensures targetsUp == CountUp(results, limit) == |UpIndices(results, limit)|
    ensures targetsUp + scrapeErrors == |results|
  {
    CountIsSize(results, limit, |results|);
    page := "";
    targetsUp := 0;
    scrapeErrors := 0;
    for i := 0 to |results|
      invariant page == Sections(results[..i], limit)
      invariant targetsUp == CountUp(results[..i], limit)
      invariant scrapeErrors == CountErrors(results[..i], limit)
      invariant targetsUp + scrapeErrors == i
    {
      assert results[..i + 1] == results[..i] + [results[i]];
      CountAppend(results[..i], results[i], limit);
      var section, ok := EnrichTarget(results[i], limit);
      page := page + section;
      if ok {
        targetsUp := targetsUp + 1;
      } else {
        scrapeErrors := scrapeErrors + 1;
      }
    }
    assert results[..|results|] == results;
    page := page + Unlines(SelfLines(|results|, targetsUp, elapsed, scrapeErrors));
  }
}
