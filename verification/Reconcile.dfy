/** Keeping the running instances in line with the desired targets
    (Reconcile and Shutdown in internal/pkg/supervisor/manager.go, NewInstance in
    internal/pkg/supervisor/instance.go). */
module Reconcile {
  import opened Text
  import opened Config
  import opened Netutil
  import opened Supervision

  // ---- What is managed, as a value ----------------------------------------------

  datatype Call = CallStart | CallStop

  /** A managed instance: its stored target and the calls made on it so far. */
  datatype Managed = Managed(target: Target, calls: seq<Call>)

  /** Where these calls take the instance in the supervision protocol; None when one
      of them is not allowed there. */
  function PhaseAfter(calls: seq<Call>): Option<Phase> {
    if calls == [] then Some(Fresh)
    else
      match (PhaseAfter(calls[..|calls| - 1]), calls[|calls| - 1])
      case (Some(Fresh), CallStart) => Some(Supervised)
      case (Some(Halted), CallStart) => Some(Supervised)
      case (Some(Supervised), CallStop) => Some(Halted)
      case _ => None
  }

  lemma PhaseSnoc(calls: seq<Call>, c: Call)
    ensures PhaseAfter(calls + [c])
         == match (PhaseAfter(calls), c)
            case (Some(Fresh), CallStart) => Some(Supervised)
            case (Some(Halted), CallStart) => Some(Supervised)
            case (Some(Supervised), CallStop) => Some(Halted)
            case _ => None
  {
    assert (calls + [c])[..|calls|] == calls;
  }

  /** The desired targets by key; of several with one key the last counts. */
  function DesiredMap(desired: seq<Target>): (m: map<string, Target>)
    ensures forall k :: k in m ==> Key(m[k]) == k && m[k] in desired
    ensures forall t :: t in desired ==> Key(t) in m
  {
    if desired == [] then map[]
    else
      var init, last := desired[..|desired| - 1], desired[|desired| - 1];
      assert desired == init + [last];
      DesiredMap(init)[Key(last) := last]
  }

  lemma {:induction false} LastDuplicateWins(desired: seq<Target>, i: nat)
    requires i < |desired| && forall j :: i < j < |desired| ==> Key(desired[j]) != Key(desired[i])
    ensures DesiredMap(desired)[Key(desired[i])] == desired[i]
    decreases |desired|
  {
    hide Key, DesiredMap;
    var init, last := desired[..|desired| - 1], desired[|desired| - 1];
    assert desired == init + [last];
    DesiredSnoc(init, last);
    if i < |init| { LastDuplicateWins(init, i); }
  }

  lemma DesiredSnoc(init: seq<Target>, last: Target)
    ensures DesiredMap(init + [last]) == DesiredMap(init)[Key(last) := last]
  {
    assert (init + [last])[..|init|] == init;
  }

  /** With distinct keys, the order of the list does not matter. */
  lemma ListOrderIrrelevant(a: seq<Target>, b: seq<Target>)
    requires forall i, j :: 0 <= i < j < |a| ==> Key(a[i]) != Key(a[j])
    requires forall t :: t in a <==> t in b
    ensures DesiredMap(a) == DesiredMap(b)
  {
    forall k | k in DesiredMap(a) ensures k in DesiredMap(b) && DesiredMap(b)[k] == DesiredMap(a)[k] {
      var t, u := DesiredMap(a)[k], DesiredMap(b)[k];
      assert t in b && u in a && Key(t) == Key(u);
      var i :| 0 <= i < |a| && a[i] == t;
      var j :| 0 <= j < |a| && a[j] == u;
      assert i == j;
    }
    forall k | k in DesiredMap(b) ensures k in DesiredMap(a) {
      assert DesiredMap(b)[k] in a;
    }
  }

  const DEFAULT_PORT := 5555

  /** NewInstance stores the normal form of an endpoint, if there is one. */
  function Normalized(t: Target): Target {
    match NormalizeEndpoint(t.endpoint, DEFAULT_PORT)
    case Accepted(e) => t.(endpoint := e)
    case _ => t
  }

  predicate NeedsRestart(stored: Target, t: Target) {
    stored.endpoint != t.endpoint || stored.netns != t.netns
  }

  function Renewed(m: Managed, t: Target): Managed {
    if NeedsRestart(m.target, t) then Managed(t, m.calls + [CallStop, CallStart])
    else m.(target := m.target.(labels := t.labels, tenant := t.tenant))
  }

  function Updated(was: map<string, Managed>, id: string, t: Target): Managed {
    if id !in was then Managed(Normalized(t), [CallStart]) else Renewed(was[id], t)
  }

  function Reconciled(was: map<string, Managed>, desired: seq<Target>): map<string, Managed> {
    var wanted := DesiredMap(desired);
    map id | id in wanted :: Updated(was, id, wanted[id])
  }

  // ---- Laws -------------------------------------------------------------------------

  /** From any state, the instances are those of the desired keys, and agree with the
      desired targets in all that is scraped by: namespace, labels, tenant, and the
      endpoint, which a new instance holds in normal form. */
  lemma Converges(was: map<string, Managed>, desired: seq<Target>, id: string)
    ensures id in Reconciled(was, desired) <==>
      exists t :: t in desired && (t.id == id || t.id == "") && (t.id == "" ==> t.name == id)
    ensures id in Reconciled(was, desired) ==>
      var t, r := DesiredMap(desired)[id], Reconciled(was, desired)[id].target;
      && r.netns == t.netns && r.labels == t.labels && r.tenant == t.tenant
      && r.endpoint == if id in was then t.endpoint else Normalized(t).endpoint
  {
    hide Normalized, NeedsRestart;
    forall t: Target ensures Key(t) == id <==> (t.id == id || t.id == "") && (t.id == "" ==> t.name == id) { }
    if id in DesiredMap(desired) {
      assert DesiredMap(desired)[id] in desired;
      NormalizedFields(DesiredMap(desired)[id]);
      RenewedFields(if id in was then was[id] else Managed(DesiredMap(desired)[id], []), DesiredMap(desired)[id]);
    }
  }

  lemma RenewedFields(m: Managed, t: Target)
    ensures var r := Renewed(m, t).target;
      r.netns == t.netns && r.labels == t.labels && r.tenant == t.tenant && r.endpoint == t.endpoint
  {
  }

  /** A second Reconcile with the same list restarts exactly the instances the first
      one created whose endpoint is not in normal form; it changes nothing else. */
  lemma SecondReconcile(was: map<string, Managed>, desired: seq<Target>, id: string)
    requires id in DesiredMap(desired)
    ensures var once := Reconciled(was, desired); var twice := Reconciled(once, desired);
      var t := DesiredMap(desired)[id];
      && id in once && id in twice
      && (twice[id] == once[id] <==> id in was || Normalized(t) == t)
      && (twice[id] != once[id] ==> twice[id] == Managed(t, [CallStart, CallStop, CallStart]))
  {
    hide Normalized;
    NormalizedFields(DesiredMap(desired)[id]);
    assert [CallStart] + [CallStop, CallStart] == [CallStart, CallStop, CallStart];
  }

  lemma NormalizedFields(t: Target)
    ensures Normalized(t) == t.(endpoint := Normalized(t).endpoint)
  {
  }

  /** A third one changes nothing at all, whatever the endpoints. */
  lemma ThirdReconcileIsIdle(was: map<string, Managed>, desired: seq<Target>)
    ensures var twice := Reconciled(Reconciled(was, desired), desired); Reconciled(twice, desired) == twice
  {
    var once := Reconciled(was, desired);
    var twice := Reconciled(once, desired);
    hide DesiredMap, Updated;
    forall id | id in DesiredMap(desired) ensures Updated(twice, id, DesiredMap(desired)[id]) == twice[id] {
      Settled(once, twice, id, DesiredMap(desired)[id]);
    }
  }

  /** An instance that has been renewed needs nothing more. */
  lemma Settled(once: map<string, Managed>, twice: map<string, Managed>, id: string, t: Target)
    requires id in once && id in twice && twice[id] == Updated(once, id, t)
    ensures Updated(twice, id, t) == twice[id]
  {
    RenewedFields(once[id], t);
  }

  /** An instance keeps its child exactly if neither the endpoint nor the namespace has
      changed, whatever else has: then the labels and the tenant are new and all else is
      as before. Otherwise it is stopped and started once, with the desired target. */
  lemma RestartsExactlyWhen(was: map<string, Managed>, desired: seq<Target>, id: string)
    requires id in DesiredMap(desired) && id in was
    ensures var t, m, r := DesiredMap(desired)[id], was[id], Reconciled(was, desired)[id];
      && (r.calls == m.calls <==> m.target.endpoint == t.endpoint && m.target.netns == t.netns)
      && (r.calls == m.calls ==> r.target == m.target.(labels := t.labels, tenant := t.tenant))
      && (r.calls != m.calls ==> r.target == t && r.calls == m.calls + [CallStop] + [CallStart])
  {
    var m := was[id];
    assert m.calls + [CallStop] + [CallStart] == m.calls + [CallStop, CallStart];
    assert |m.calls + [CallStop, CallStart]| == |m.calls| + 2;
  }

  /** A new instance is started once, with the desired target but for the normal form of
      its endpoint, if it has one. */
  lemma CreatesOnce(was: map<string, Managed>, desired: seq<Target>, id: string)
    requires id in DesiredMap(desired) && id !in was
    ensures var t, r := DesiredMap(desired)[id], Reconciled(was, desired)[id];
      && r.calls == [CallStart] && r.target == t.(endpoint := r.target.endpoint)
      && match NormalizeEndpoint(t.endpoint, 5555)
         case Accepted(e) => r.target.endpoint == e
         case _ => r.target.endpoint == t.endpoint
  {
    hide NormalizeEndpoint, DesiredMap;
  }

  /** The stored name and arguments follow the desired ones only through a restart or
      a new instance: a changed name alone is not picked up. */
  lemma NameFollowsExactlyWhen(was: map<string, Managed>, desired: seq<Target>, id: string)
    requires id in DesiredMap(desired)
    ensures var t, r := DesiredMap(desired)[id], Reconciled(was, desired)[id].target;
      (r.name == t.name && r.customArgs == t.customArgs) <==>
      (id in was && was[id].target.endpoint == t.endpoint && was[id].target.netns == t.netns ==>
        was[id].target.name == t.name && was[id].target.customArgs == t.customArgs)
  {
    hide Normalized;
    NormalizedFields(DesiredMap(desired)[id]);
  }

  function Dropped(m: Managed): Managed {
    m.(calls := m.calls + [CallStop])
  }

  ghost predicate AllSupervised(m: map<string, Managed>) {
    forall id :: id in m ==> PhaseAfter(m[id].calls) == Some(Supervised)
  }

  /** Reconcile only ever starts what is fresh or halted and stops what is supervised,
      which is what the supervision protocol asks of its caller. */
  lemma KeepsProtocol(was: map<string, Managed>, desired: seq<Target>)
    requires AllSupervised(was)
    ensures AllSupervised(Reconciled(was, desired))
  {
    forall id | id in DesiredMap(desired)
      ensures PhaseAfter(Updated(was, id, DesiredMap(desired)[id]).calls) == Some(Supervised)
    {
      StartPhases(if id in was then was[id].calls else []);
    }
  }

  lemma StartPhases(calls: seq<Call>)
    ensures PhaseAfter([CallStart]) == Some(Supervised)
    ensures PhaseAfter(calls) == Some(Supervised) ==>
      PhaseAfter(calls + [CallStop]) == Some(Halted) && PhaseAfter(calls + [CallStop, CallStart]) == Some(Supervised)
  {
    PhaseSnoc([], CallStart);
    assert [] + [CallStart] == [CallStart];
    PhaseSnoc(calls, CallStop);
    PhaseSnoc(calls + [CallStop], CallStart);
    assert calls + [CallStop] + [CallStart] == calls + [CallStop, CallStart];
  }

  /** A history of calls. */
  function ReconciledAll(was: map<string, Managed>, lists: seq<seq<Target>>): map<string, Managed>
    decreases |lists|
  {
    if lists == [] then was else ReconciledAll(Reconciled(was, lists[0]), lists[1..])
  }

  /** Over any history, from a manager that starts empty: every managed instance has
      been started, and stopped and started again, in turn, and stands started. */
  lemma {:induction false} KeepsProtocolThroughout(was: map<string, Managed>, lists: seq<seq<Target>>)
    requires AllSupervised(was)
    ensures AllSupervised(ReconciledAll(was, lists))
    decreases |lists|
  {
    hide AllSupervised;
    if lists != [] {
      KeepsProtocol(was, lists[0]);
      KeepsProtocolThroughout(Reconciled(was, lists[0]), lists[1..]);
    }
  }

  /** What calls that lead to a supervised instance look like: starts and stops take
      turns, beginning and ending with a start. */
  lemma {:induction false} SupervisedCalls(calls: seq<Call>)
    requires PhaseAfter(calls).Some?
    ensures forall k :: 0 <= k < |calls| ==> calls[k] == if k % 2 == 0 then CallStart else CallStop
    ensures PhaseAfter(calls) == Some(if calls == [] then Fresh else if |calls| % 2 == 1 then Supervised else Halted)
  {
    if calls != [] {
      SupervisedCalls(calls[..|calls| - 1]);
    }
  }

  // ---- The manager itself -----------------------------------------------------------

  /** An instance as the manager sees it; its run loop is in RunLoop. */
  class Instance {
    var target: Target
    ghost var calls: seq<Call>

    constructor (target: Target)
      ensures this.target == Normalized(target) && calls == []
    {
      this.target := Normalized(target);
      calls := [];
    }

    /** The run loop these set going or wind up is modelled in Supervision. */
    method Start()
      requires PhaseAfter(calls) == Some(Fresh) || PhaseAfter(calls) == Some(Halted)
      modifies this`calls
      ensures calls == old(calls) + [CallStart] && PhaseAfter(calls) == Some(Supervised)
    {
      PhaseSnoc(calls, CallStart);
      calls := calls + [CallStart];
    }

    method Stop()
      requires PhaseAfter(calls) == Some(Supervised)
      modifies this`calls
      ensures calls == old(calls) + [CallStop] && PhaseAfter(calls) == Some(Halted)
    {
      PhaseSnoc(calls, CallStop);
      calls := calls + [CallStop];
    }

    ghost function View(): Managed
      reads this
    {
      Managed(target, calls)
    }
  }

  ghost function ViewOf(instances: map<string, Instance>): map<string, Managed>
    reads instances.Values
  {
    map id | id in instances :: instances[id].View()
  }

  ghost predicate Distinct(instances: map<string, Instance>) {
    forall a, b :: a in instances && b in instances && instances[a] == instances[b] ==> a == b
  }

  /** Stops one of several distinct instances, and no other. */
  method StopOne(inst: Instance, ghost all: map<string, Instance>, ghost id: string)
    requires Distinct(all) && id in all && all[id] == inst
    requires id in ViewOf(all) && PhaseAfter(ViewOf(all)[id].calls) == Some(Supervised)
    modifies inst
    ensures ViewOf(all) == old(ViewOf(all))[id := Dropped(old(ViewOf(all)[id]))]
  {
    hide PhaseAfter;
    inst.Stop();
    forall k | k in all && k != id ensures all[k].View() == old(all[k].View()) {
      assert all[k] != all[id];
    }
  }

  /** A changed endpoint or namespace restarts the instance; else its labels and
      tenant are refreshed in place. */
  method Renew(existing: Instance, t: Target, ghost all: map<string, Instance>, ghost id: string)
    requires Distinct(all) && id in all && all[id] == existing
    requires id in ViewOf(all) && PhaseAfter(ViewOf(all)[id].calls) == Some(Supervised)
    modifies existing
    ensures ViewOf(all) == old(ViewOf(all))[id := Renewed(old(ViewOf(all)[id]), t)]
    ensures if old(existing.target).endpoint == t.endpoint && old(existing.target).netns == t.netns
      then existing.target == old(existing.target).(labels := t.labels, tenant := t.tenant)
           && existing.calls == old(existing.calls)
      else existing.target == t && existing.calls == old(existing.calls) + [CallStop, CallStart]
  {
    hide PhaseAfter;
    if existing.target.endpoint != t.endpoint || existing.target.netns != t.netns {
      Restart(existing, t);
    } else {
      existing.target := existing.target.(labels := t.labels);
      existing.target := existing.target.(tenant := t.tenant);
    }
    forall k | k in all && k != id ensures all[k].View() == old(all[k].View()) {
      assert all[k] != all[id];
    }
  }

  method Restart(existing: Instance, t: Target)
    requires PhaseAfter(existing.calls) == Some(Supervised)
    modifies existing
    ensures existing.target == t && existing.calls == old(existing.calls) + [CallStop, CallStart]
  {
    hide PhaseAfter;
    existing.Stop();
    existing.target := t;
    existing.Start();
    assert existing.calls == old(existing.calls) + [CallStop, CallStart];
  }

  // Where the two loops over maps stand when `todo` is still to be visited.

  ghost function Pruned(was: map<string, Managed>, wanted: map<string, Target>, todo: set<string>)
    : map<string, Managed>
  {
    map id | id in was :: if id in wanted || id in todo then was[id] else Dropped(was[id])
  }

  lemma PruneNothing(was: map<string, Managed>, wanted: map<string, Target>)
    ensures Pruned(was, wanted, was.Keys) == was
  {
  }

  lemma PruneStep(was: map<string, Managed>, wanted: map<string, Target>, todo: set<string>, id: string)
    requires id in todo && id in was
    ensures id in Pruned(was, wanted, todo) && Pruned(was, wanted, todo)[id] == was[id]
    ensures Pruned(was, wanted, todo - {id})
         == if id in wanted then Pruned(was, wanted, todo) else Pruned(was, wanted, todo)[id := Dropped(was[id])]
  {
    hide Dropped;
  }

  ghost function Kept(was: map<string, Managed>, wanted: map<string, Target>): map<string, Managed> {
    map id | id in was && id in wanted :: was[id]
  }

  lemma KeptPruned(was: map<string, Managed>, wanted: map<string, Target>)
    ensures Kept(was, wanted).Keys == was.Keys * wanted.Keys && Pruned(was, wanted, {}).Keys == was.Keys
    ensures forall id :: id in Kept(was, wanted) ==> Kept(was, wanted)[id] == Pruned(was, wanted, {})[id]
    ensures AllSupervised(was) ==> AllSupervised(Kept(was, wanted))
  {
    hide Dropped, PhaseAfter;
  }

  ghost function Grown(was: map<string, Managed>, wanted: map<string, Target>, todo: set<string>)
    : map<string, Managed>
  {
    map id | id in wanted && (id in was || id !in todo) :: if id in todo then was[id] else Updated(was, id, wanted[id])
  }

  lemma GrowNothing(was: map<string, Managed>, wanted: map<string, Target>)
    requires was.Keys <= wanted.Keys
    ensures Grown(was, wanted, wanted.Keys) == was
  {
  }

  lemma GrowStep(was: map<string, Managed>, wanted: map<string, Target>, todo: set<string>, id: string)
    requires id in todo && id in wanted
    ensures id in Grown(was, wanted, todo) <==> id in was
    ensures id in was ==> Grown(was, wanted, todo)[id] == was[id]
    ensures Grown(was, wanted, todo - {id}) == Grown(was, wanted, todo)[id := Updated(was, id, wanted[id])]
    ensures Updated(was, id, wanted[id])
         == if id in was then Renewed(was[id], wanted[id]) else Managed(Normalized(wanted[id]), [CallStart])
  {
    hide Renewed, Normalized;
  }

  lemma SubView(some: map<string, Instance>, all: map<string, Instance>)
    requires forall id :: id in some ==> id in all && some[id] == all[id]
    ensures ViewOf(some).Keys == some.Keys && ViewOf(all).Keys == all.Keys
    ensures forall id :: id in some ==> ViewOf(some)[id] == ViewOf(all)[id]
    ensures Distinct(all) ==> Distinct(some)
  {
    hide Instance.View;
  }

  class Manager {
    var instances: map<string, Instance>
    var cancelled: bool

    ghost predicate Valid()
      reads this, instances.Values
    {
      Distinct(instances) && AllSupervised(ViewOf(instances))
    }

    constructor ()
      ensures Valid() && instances == map[] && !cancelled
    {
      instances, cancelled := map[], false;
    }

    /** Whatever order the two maps are walked in, the outcome is the same; the
        instances that are kept are the same objects, the others are stopped. */
    method Reconcile(desired: seq<Target>)
      requires Valid()
      modifies this`instances, instances.Values
      ensures Valid() && ViewOf(instances) == Reconciled(old(ViewOf(instances)), desired)
      ensures forall id :: id in instances ==>
        if id in old(instances) then instances[id] == old(instances)[id] else fresh(instances[id])
      ensures forall id :: id in old(instances) && id !in instances ==>
        var was := old(instances[id].View()); old(instances)[id].View() == was.(calls := was.calls + [CallStop])
    {
      hide Updated, DesiredMap, AllSupervised, PhaseAfter, Pruned, Kept;
      hide Grown, Reconciled, Normalized, Instance.View;
      var wanted := BuildDesired(desired);
      RemoveUnwanted(wanted);
      AddOrUpdate(wanted);
      ReconcileParts(old(ViewOf(instances)), desired);
      assert ViewOf(instances).Keys == instances.Keys;
    }

    method BuildDesired(desired: seq<Target>) returns (wanted: map<string, Target>)
      ensures wanted == DesiredMap(desired)
    {
      wanted := map[];
      for i := 0 to |desired|
        invariant wanted == DesiredMap(desired[..i])
      {
        var t := desired[i];
        var id := t.id;
        if id == "" {
          id := t.name;
        }
        wanted := wanted[id := t];
        assert desired[..i + 1][..i] == desired[..i];
      }
      assert desired[..|desired|] == desired;
    }

    /** Terminates the instances of targets that are no longer wanted. */
    method RemoveUnwanted(wanted: map<string, Target>)
      requires Valid()
      modifies this`instances, instances.Values
      ensures Distinct(instances) && instances.Keys == old(instances).Keys * wanted.Keys
      ensures forall id :: id in instances ==> instances[id] == old(instances)[id]
      ensures ViewOf(instances) == Kept(old(ViewOf(instances)), wanted) && AllSupervised(ViewOf(instances))
      ensures ViewOf(old(instances)) == Pruned(old(ViewOf(instances)), wanted, {})
    {
      hide PhaseAfter, AllSupervised, ViewOf, Pruned, Dropped, Kept, Distinct;
      var todo := instances.Keys;
      ghost var objects, was := instances, ViewOf(instances);
      SubView(instances, objects);
      PruneNothing(was, wanted);
      while todo != {}
        invariant todo <= objects.Keys
        invariant forall id :: id in instances <==> id in objects && (id in wanted || id in todo)
        invariant forall id :: id in instances ==> instances[id] == objects[id]
        invariant ViewOf(objects) == Pruned(was, wanted, todo)
        decreases |todo|
      {
        var id :| id in todo;
        PruneStep(was, wanted, todo, id);
        todo := todo - {id};
        if id !in wanted {
          IsSupervised(was, id);
          RemoveOne(id, objects);
        }
      }
      SubView(instances, objects);
      KeptPruned(was, wanted);
    }

    method RemoveOne(id: string, ghost objects: map<string, Instance>)
      requires id in instances && id in objects && instances[id] == objects[id] && Distinct(objects)
      requires id in ViewOf(objects) && PhaseAfter(ViewOf(objects)[id].calls) == Some(Supervised)
      modifies this`instances, objects[id]
      ensures instances == old(instances) - {id}
      ensures ViewOf(objects) == old(ViewOf(objects))[id := Dropped(old(ViewOf(objects)[id]))]
    {
      StopOne(instances[id], objects, id);
      instances := instances - {id};
    }

    method AddOrUpdate(wanted: map<string, Target>)
      requires Distinct(instances) && AllSupervised(ViewOf(instances)) && instances.Keys <= wanted.Keys
      modifies this`instances, instances.Values
      ensures Distinct(instances) && ViewOf(instances) == Grown(old(ViewOf(instances)), wanted, {})
      ensures forall id :: id in instances ==>
        if id in old(instances) then instances[id] == old(instances)[id] else fresh(instances[id])
    {
      hide PhaseAfter, AllSupervised, Renewed, Normalized, Grown, Updated, ViewOf, Distinct;
      var todo := wanted.Keys;
      ghost var before, was := instances, ViewOf(instances);
      SubView(instances, before);
      GrowNothing(was, wanted);
      while todo != {}
        invariant todo <= wanted.Keys && Distinct(instances)
        invariant forall id :: id in instances <==> id in wanted && (id in before || id !in todo)
        invariant forall id :: id in instances ==>
          if id in before then instances[id] == before[id] else fresh(instances[id])
        invariant ViewOf(instances) == Grown(was, wanted, todo)
        decreases |todo|
      {
        var id :| id in todo;
        GrowStep(was, wanted, todo, id);
        todo := todo - {id};
        if id in was { IsSupervised(was, id); }
        AddOrUpdateOne(id, wanted[id]);
      }
    }

    method AddOrUpdateOne(id: string, t: Target)
      requires Distinct(instances)
      requires id in instances ==>
        id in ViewOf(instances) && PhaseAfter(ViewOf(instances)[id].calls) == Some(Supervised)
      modifies this`instances, if id in instances then {instances[id]} else {}
      ensures Distinct(instances)
      ensures if id in old(instances) then instances == old(instances)
              else id in instances && instances == old(instances)[id := instances[id]] && fresh(instances[id])
      ensures ViewOf(instances) == old(ViewOf(instances))[id :=
        if id in old(instances) then Renewed(old(ViewOf(instances)[id]), t) else Managed(Normalized(t), [CallStart])]
    {
      hide PhaseAfter, Renewed, Normalized;
      if id !in instances {
        var inst := Launch(t);
        instances := instances[id := inst];
      } else {
        Renew(instances[id], t, instances, id);
      }
    }

    method Launch(t: Target) returns (inst: Instance)
      ensures fresh(inst) && inst.View() == Managed(Normalized(t), [CallStart])
    {
      hide Normalized;
      inst := new Instance(t);
      inst.Start();
      assert [] + [CallStart] == [CallStart];
    }

    /** Cancels the root context, stops every instance in any order, and forgets them. */
    method Shutdown()
      requires Valid()
      modifies this, instances.Values
      ensures Valid() && cancelled && instances == map[]
      ensures ViewOf(old(instances)) == Pruned(old(ViewOf(instances)), map[], {})
      ensures forall id :: id in old(instances) ==>
        && id in ViewOf(old(instances)) && id in old(ViewOf(instances))
        && var was := old(ViewOf(instances))[id];
           ViewOf(old(instances))[id] == was.(calls := was.calls + [CallStop])
    {
      hide PhaseAfter, AllSupervised, ViewOf, Pruned, Dropped;
      cancelled := true;
      var todo := instances.Keys;
      ghost var was := ViewOf(instances);
      SubView(instances, instances);
      PruneNothing(was, map[]);
      while todo != {}
        invariant todo <= instances.Keys && cancelled && instances == old(instances)
        invariant ViewOf(instances) == Pruned(was, map[], todo)
        decreases |todo|
      {
        var id :| id in todo;
        PruneStep(was, map[], todo, id);
        todo := todo - {id};
        IsSupervised(was, id);
        StopOne(instances[id], instances, id);
      }
      EachStopped(was);
      instances := map[];
      SubView(instances, instances);
      NoneSupervised(ViewOf(instances));
    }
  }

  lemma EachStopped(was: map<string, Managed>)
    ensures var now := Pruned(was, map[], {});
      forall id :: id in was ==> id in now && now[id] == was[id].(calls := was[id].calls + [CallStop])
  {
  }

  lemma IsSupervised(m: map<string, Managed>, id: string)
    requires AllSupervised(m) && id in m
    ensures PhaseAfter(m[id].calls) == Some(Supervised)
  {
  }

  lemma ReconcileParts(was: map<string, Managed>, desired: seq<Target>)
    ensures Grown(Kept(was, DesiredMap(desired)), DesiredMap(desired), {}) == Reconciled(was, desired)
    ensures AllSupervised(was) ==> AllSupervised(Reconciled(was, desired))
    ensures forall id :: id in was && id !in DesiredMap(desired) ==>
      id in Pruned(was, DesiredMap(desired), {}) && Pruned(was, DesiredMap(desired), {})[id] == Dropped(was[id])
    ensures Reconciled(was, desired).Keys == DesiredMap(desired).Keys
  {
    if AllSupervised(was) { KeepsProtocol(was, desired); }
    hide AllSupervised, PhaseAfter, DesiredMap, Updated;
    var wanted := DesiredMap(desired);
    forall id | id in wanted ensures Updated(Kept(was, wanted), id, wanted[id]) == Updated(was, id, wanted[id]) {
      UpdatedSame(Kept(was, wanted), was, id, wanted[id]);
    }
  }

  lemma NoneSupervised(m: map<string, Managed>)
    requires m.Keys == {}
    ensures AllSupervised(m)
  {
  }

  lemma UpdatedSame(a: map<string, Managed>, b: map<string, Managed>, id: string, t: Target)
    requires id in a <==> id in b
    requires id in a ==> a[id] == b[id]
    ensures Updated(a, id, t) == Updated(b, id, t)
  {
  }
}
