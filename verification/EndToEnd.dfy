/** From discovery to the page: the targets the pipeline manages have distinct IDs,
    so what is scraped from them never collides. */
module EndToEnd {
  import opened Config
  import opened Exposition
  import opened Relabel
  import opened Aggregate
  import opened Collisions
  import Discovery
  import Labels
  import Reconcile
  import Netutil

  /** The ID that is printed as target_id is the key the instance is managed under. */
  ghost predicate IdsAreKeys(managed: map<string, Reconcile.Managed>) {
    forall id :: id in managed ==> managed[id].target.id == id
  }

  lemma UpdatedId(was: map<string, Reconcile.Managed>, id: string, t: Target)
    requires t.id == id && (id in was ==> was[id].target.id == id)
    ensures Reconcile.Updated(was, id, t).target.id == id
  {
    hide Netutil.NormalizeEndpoint;
  }

  lemma DeliverIds(was: map<string, Reconcile.Managed>, s: seq<Labels.Item>, store: Labels.Store,
                   resolve: Target -> string)
    requires Discovery.Fair(s, store) && IdsAreKeys(was)
    ensures IdsAreKeys(Reconcile.Reconciled(was, Labels.EnrichedAll(s, store, resolve)))
  {
    hide Reconcile.DesiredMap, Reconcile.Updated, Labels.EnrichedAll, Discovery.Fair;
    var r := Labels.EnrichedAll(s, store, resolve);
    var wanted := Reconcile.DesiredMap(r);
    forall id | id in wanted ensures Reconcile.Updated(was, id, wanted[id]).target.id == id {
      assert wanted[id] in r;
      var i :| 0 <= i < |r| && r[i] == wanted[id];
      Discovery.KeyAfter(s, store, resolve, i);
      UpdatedId(was, id, wanted[id]);
    }
  }

  lemma StepKeepsIds(x: Discovery.Pipe, t: Discovery.Step, cap: nat)
    requires Discovery.PipeInv(x) && IdsAreKeys(x.managed) && Discovery.Apply(x, t, cap).Some?
    ensures IdsAreKeys(Discovery.Apply(x, t, cap).value.managed)
  {
    hide Discovery.IsSnapshot, Discovery.Matches, Discovery.Fair, Labels.Sound, Labels.EnrichedAll, Labels.WriteBack;
    hide Reconcile.Reconciled, Discovery.ListsRecorded;
    if t.Deliver? { DeliverIds(x.managed, x.inHand.value, x.store, t.resolve); }
  }

  lemma {:induction false} RunKeepsIds(x: Discovery.Pipe, steps: seq<Discovery.Step>, cap: nat)
    requires cap > 0 && Discovery.QueueInv(x, cap) && Discovery.PipeInv(x) && IdsAreKeys(x.managed)
    requires Discovery.Run(x, steps, cap).Some?
    ensures IdsAreKeys(Discovery.Run(x, steps, cap).value.managed)
    decreases |steps|
  {
    hide Discovery.QueueInv, Discovery.PipeInv, Discovery.Apply, IdsAreKeys;
    if steps != [] {
      Discovery.StepKeepsQueue(x, steps[0], cap);
      Discovery.StepKeepsPipe(x, steps[0], cap);
      StepKeepsIds(x, steps[0], cap);
      RunKeepsIds(Discovery.Apply(x, steps[0], cap).value, steps[1..], cap);
    }
  }

  /** The results of scraping the managed instances, listed in any order. */
  ghost predicate ScrapeOf(managed: map<string, Reconcile.Managed>, order: seq<string>, rs: seq<ScrapeResult>) {
    && |rs| == |order|
    && (forall i, j :: 0 <= i < j < |order| ==> order[i] != order[j])
    && forall i :: 0 <= i < |order| ==> order[i] in managed && rs[i].target == managed[order[i]].target
  }

  /** In every reachable state of the pipeline, whatever the scrapes of the managed
      instances return, and in whatever order they are listed, provided the label names
      are valid and each child's own text is well formed and without repetition: the page shows no series twice,
      unless a target without ID and labels shows a sample named like a self-metric. */
  lemma ScrapedPageHasNoCollision(steps: seq<Discovery.Step>, cap: nat, order: seq<string>,
                                  rs: seq<ScrapeResult>, elapsed: string, limit: nat)
    requires cap > 0 && Discovery.Run(Discovery.INIT_PIPE, steps, cap).Some?
    requires ScrapeOf(Discovery.Run(Discovery.INIT_PIPE, steps, cap).value.managed, order, rs)
    requires forall i :: 0 <= i < |rs| ==> GoodChild(rs[i])
    requires IsValue(elapsed)
    ensures NoCollision(RawLines(Page(rs, elapsed, limit))) <==> !AnyShadows(rs, limit)
    ensures "" !in order ==> NoCollision(RawLines(Page(rs, elapsed, limit)))
  {
    hide GoodChild, NoCollision, Page, RawLines, IsValue, AnyShadows;
    hide IsUp, Discovery.Run, Discovery.PipeInv, Discovery.QueueInv;
    Discovery.InitKeeps(cap);
    RunKeepsIds(Discovery.INIT_PIPE, steps, cap);
    PageHasNoCollision(rs, elapsed, limit);
    if "" !in order {
      forall i | 0 <= i < |rs| ensures rs[i].target.id != "" { assert order[i] in order; }
      IdsPreventCollision(rs, elapsed, limit);
    }
  }
}
