/** The discovery manager and the consumer of its channel as the programs they are,
    with the label maps they share as objects; each channel operation and each delivery
    is proved to be a step of the system in Discovery. */
module Announce {
  import opened Text
  import opened Config
  import opened Labels
  import opened Discovery
  import Reconcile

  // ---- The consumer's loop over one snapshot ------------------------------------------

  /** A copy of a target as it reads now. */
  function Shown(it: Item): Target
    reads if it.labels.Some? then {it.labels.value} else {}
  {
    it.target.(labels := if it.labels.Some? then it.labels.value.entries else map[])
  }

  ghost function MapsOf(s: seq<Item>): set<LabelMap> {
    set i | 0 <= i < |s| && s[i].labels.Some? :: s[i].labels.value
  }

  /** Fills in the namespace of every target in place, and the labels in the map that
      all copies of the target share; only a target without one gets a new map. */
  method EnrichTargets(targets: array<Item>, resolve: Target -> string)
    requires Apart(targets[..])
    modifies targets, MapsOf(targets[..])
    ensures forall i :: 0 <= i < targets.Length ==>
      && targets[i].labels.Some?
      && Shown(targets[i]) == Enriched(old(Shown(targets[i])), resolve(old(Shown(targets[i]))))
      && if old(targets[i]).labels.Some? then targets[i].labels == old(targets[i]).labels
         else fresh(targets[i].labels.value)
  {
    hide Enriched;
    ghost var was := targets[..];
    for i := 0 to targets.Length
      invariant forall k :: i <= k < targets.Length ==> targets[k] == was[k] && Shown(was[k]) == old(Shown(was[k]))
      invariant forall k :: 0 <= k < i ==>
        && targets[k].labels.Some?
        && Shown(targets[k]) == Enriched(old(Shown(was[k])), resolve(old(Shown(was[k]))))
        && if was[k].labels.Some? then targets[k].labels == was[k].labels else fresh(targets[k].labels.value)
    {
      assert was[i].labels.Some? ==> was[i].labels.value in MapsOf(was);
      var it := EnrichTarget(targets[i], resolve);
      targets[i] := it;
    }
  }

  method EnrichTarget(target: Item, resolve: Target -> string) returns (it: Item)
    modifies if target.labels.Some? then {target.labels.value} else {}
    ensures it.labels.Some? && Shown(it) == Enriched(old(Shown(target)), resolve(old(Shown(target))))
    ensures if target.labels.Some? then it.labels == target.labels else fresh(it.labels.value)
  {
    it := target;
    if it.target.netns == "" {
      it := it.(target := it.target.(netns := resolve(Shown(it))));
    }
    if it.labels.None? {
      var made := new LabelMap(map[]);
      it := it.(labels := Some(made));
    }
    var labels := it.labels.value;
    if it.target.tenant != "" && Get(labels.entries, "tenant") == "" {
      labels.entries := labels.entries["tenant" := it.target.tenant];
    }
    if it.target.netns != "" && Get(labels.entries, "netns") == "" {
      labels.entries := labels.entries["netns" := it.target.netns];
    }
  }

  // ---- The manager ----------------------------------------------------------------------

  const CAPACITY := 10

  /** What the consumer may do meanwhile. */
  datatype Act = Takes | Hands(resolve: Target -> string)

  ghost predicate TargetsOf(targets: map<string, map<string, Item>>, lists: Lists) {
    targets.Keys == lists.Keys && forall p :: p in targets ==> targets[p] == ProviderMap(lists[p])
  }

  /** The label maps hold what the system says they do. */
  ghost predicate Shows(store: Store)
    reads store.Keys
  {
    forall c :: c in store ==> c.entries == store[c].entries
  }

  lemma ShownNow(it: Item, store: Store)
    requires Shows(store) && Recorded(it, store)
    ensures Shown(it) == Now(it, store)
  {
  }

  /** The targets it makes are those of the system, and what the loop writes into the
      label maps is what the system writes back. */
  method EnrichSnapshot(s: seq<Item>, resolve: Target -> string, ghost store: Store) returns (targets: seq<Target>)
    requires Fair(s, store) && Apart(s) && Shows(store)
    modifies MapsOf(s)
    ensures targets == EnrichedAll(s, store, resolve)
    ensures Shows(WriteBack(s, targets, store))
  {
    hide Enriched, Fair, Apart, WriteBack;
    var snapshot := new Item[|s|](i requires 0 <= i < |s| => s[i]);
    assert snapshot[..] == s;
    AllShownNow(s, store);
    EnrichTargets(snapshot, resolve);
    WrittenBack(s, snapshot[..], store, resolve);
    targets := seq(snapshot.Length, i requires 0 <= i < snapshot.Length reads * => Shown(snapshot[i]));
  }

  /** The manager of the instances has reconciled itself to this. */
  ghost predicate Supervises(supervisor: Reconcile.Manager, managed: map<string, Reconcile.Managed>)
    reads supervisor, supervisor.instances.Values
  {
    supervisor.Valid() && Reconcile.ViewOf(supervisor.instances) == managed
  }

  method HandOver(supervisor: Reconcile.Manager, enriched: seq<Target>, ghost was: map<string, Reconcile.Managed>)
    requires Supervises(supervisor, was)
    modifies supervisor`instances, supervisor.instances.Values
    ensures Supervises(supervisor, Reconcile.Reconciled(was, enriched))
    ensures fresh(supervisor.instances.Values - old(supervisor.instances.Values))
  {
    hide Reconcile.ViewOf, Reconcile.Reconciled;
    supervisor.Reconcile(enriched);
  }

  /** What handing over does to the system. */
  lemma DeliverIs(x: Pipe, resolve: Target -> string)
    requires x.inHand.Some?
    ensures var r := EnrichedAll(x.inHand.value, x.store, resolve);
      Apply(x, Deliver(resolve), CAPACITY)
      == Some(x.(managed := Reconcile.Reconciled(x.managed, r), store := WriteBack(x.inHand.value, r, x.store),
                  inHand := None))
  {
    hide Reconcile.Reconciled, EnrichedAll, WriteBack;
  }

  lemma PublishIs(x: Pipe, p: string, list: seq<Item>, s: seq<Item>)
    requires x.update == Idle && Fresh(list, x.store) && IsSnapshot(s, x.lists[p := list])
    ensures Apply(x, Publish(p, list, s), CAPACITY)
         == Some(x.(lists := x.lists[p := list], store := WithCells(x.store, list),
                    update := Trying(s), history := x.history + [s]))
  {
    hide Fresh, IsSnapshot, WithCells;
  }

  class Manager {
    var targets: map<string, map<string, Item>>
    var notifyCh: seq<seq<Item>>

    /** The snapshot the consumer is working on, and the manager it hands it to. */
    var inHand: Option<seq<Item>>
    const supervisor: Reconcile.Manager

    ghost var steps: seq<Step>
    ghost var pipe: Pipe

    constructor ()
      ensures Valid() && pipe == INIT_PIPE && fresh(supervisor)
    {
      targets, notifyCh, inHand := map[], [], None;
      supervisor := new Reconcile.Manager();
      steps, pipe := [], INIT_PIPE;
    }

    /** What has been done is a run of the system, which this object shows. */
    ghost predicate Valid()
      reads this, pipe.store.Keys, supervisor, supervisor.instances.Values
    {
      && Run(INIT_PIPE, steps, CAPACITY) == Some(pipe) && Shows(pipe.store)
      && Supervises(supervisor, pipe.managed)
      && TargetsOf(targets, pipe.lists) && notifyCh == pipe.queue && inHand == pipe.inHand
    }

    /** Puts a step on the record, for the caller to show or to have shown. */
    ghost method Took(t: Step)
      requires Run(INIT_PIPE, steps, CAPACITY) == Some(pipe) && Apply(pipe, t, CAPACITY).Some?
      modifies this`steps, this`pipe
      ensures Run(INIT_PIPE, steps, CAPACITY) == Some(pipe) && Some(pipe) == Apply(old(pipe), t, CAPACITY)
    {
      hide Apply, Run;
      RunSnoc(INIT_PIPE, steps, t, CAPACITY);
      pipe := Apply(pipe, t, CAPACITY).value;
      steps := steps + [t];
    }

    /** The snapshots at hand are fair, as in every reachable state. */
    lemma InHandFair()
      requires Valid() && inHand.Some?
      ensures Fair(inHand.value, pipe.store) && Apart(inHand.value)
    {
      hide Run, Fair, IsSnapshot, Matches, Labels.Sound, ListsRecorded;
      InitKeeps(CAPACITY);
      RunKeeps(INIT_PIPE, steps, CAPACITY);
      FairApart(inHand.value, pipe.store);
    }

    /** The consumer takes the next snapshot off the channel. */
    method Take()
      requires Valid() && inHand.None? && notifyCh != []
      modifies this`notifyCh, this`inHand, this`steps, this`pipe
      ensures Valid() && pipe.update == old(pipe.update) && pipe.lists == old(pipe.lists)
      ensures pipe.history == old(pipe.history) && pipe.store == old(pipe.store)
      ensures inHand == Some(old(notifyCh)[0]) && notifyCh == old(notifyCh)[1..]
    {
      hide Run, TargetsOf, Shows, Supervises;
      Took(Receive);
      inHand := Some(notifyCh[0]);
      notifyCh := notifyCh[1..];
    }

    /** The consumer enriches the snapshot and has the manager reconcile with it. */
    method Hand(resolve: Target -> string)
      requires Valid() && inHand.Some?
      modifies this`inHand, this`steps, this`pipe, pipe.store.Keys
      modifies supervisor`instances, supervisor.instances.Values
      ensures Valid() && pipe.update == old(pipe.update) && pipe.lists == old(pipe.lists)
      ensures pipe.history == old(pipe.history) && pipe.store.Keys == old(pipe.store.Keys) && inHand.None?
      ensures Supervises(supervisor, Reconcile.Reconciled(old(pipe.managed),
                                                          EnrichedAll(old(inHand.value), old(pipe.store), resolve)))
      ensures fresh(supervisor.instances.Values - old(supervisor.instances.Values))
    {
      hide Run, Apply, TargetsOf, Reconcile.Reconciled, EnrichedAll, WriteBack, Shows, Supervises;
      var enriched := EnrichInHand(resolve);
      HandOver(supervisor, enriched, pipe.managed);
      Delivered(resolve, enriched);
    }

    method Delivered(resolve: Target -> string, ghost enriched: seq<Target>)
      requires Run(INIT_PIPE, steps, CAPACITY) == Some(pipe) && TargetsOf(targets, pipe.lists)
      requires notifyCh == pipe.queue && inHand == pipe.inHand && inHand.Some?
      requires enriched == EnrichedAll(inHand.value, pipe.store, resolve)
      requires Shows(WriteBack(inHand.value, enriched, pipe.store))
      requires Supervises(supervisor, Reconcile.Reconciled(pipe.managed, enriched))
      modifies this`inHand, this`steps, this`pipe
      ensures Valid() && inHand.None?
      ensures pipe == old(pipe).(managed := Reconcile.Reconciled(old(pipe.managed), enriched),
                                 store := WriteBack(old(inHand.value), enriched, old(pipe.store)), inHand := None)
    {
      hide Run, Apply, TargetsOf, Reconcile.Reconciled, EnrichedAll, WriteBack, Shows, Supervises;
      DeliverIs(pipe, resolve);
      Took(Deliver(resolve));
      inHand := None;
    }

    method EnrichInHand(resolve: Target -> string) returns (enriched: seq<Target>)
      requires Valid() && inHand.Some?
      modifies pipe.store.Keys
      ensures enriched == EnrichedAll(inHand.value, pipe.store, resolve)
      ensures Shows(WriteBack(inHand.value, enriched, pipe.store)) && Supervises(supervisor, pipe.managed)
    {
      hide Run, TargetsOf, EnrichedAll, WriteBack, Fair, Shows, Supervises;
      InHandFair();
      SnapshotMaps(inHand.value, pipe.store);
      enriched := EnrichSnapshot(inHand.value, resolve, pipe.store);
    }

    /** Any consumer: acts that are not enabled are passed over. */
    method Consume(acts: seq<Act>)
      requires Valid()
      modifies this`notifyCh, this`inHand, this`steps, this`pipe, pipe.store.Keys
      modifies supervisor`instances, supervisor.instances.Values
      ensures Valid() && pipe.update == old(pipe.update) && pipe.lists == old(pipe.lists)
      ensures pipe.history == old(pipe.history) && pipe.store.Keys == old(pipe.store.Keys)
      ensures fresh(supervisor.instances.Values - old(supervisor.instances.Values))
    {
      hide Run, TargetsOf, Shows, Supervises;
      for i := 0 to |acts|
        invariant Valid() && pipe.update == old(pipe.update) && pipe.lists == old(pipe.lists)
        invariant pipe.history == old(pipe.history) && pipe.store.Keys == old(pipe.store.Keys)
        invariant fresh(supervisor.instances.Values - old(supervisor.instances.Values))
      {
        match acts[i]
        case Takes =>
          if inHand.None? && notifyCh != [] {
            Take();
          }
        case Hands(resolve) =>
          if inHand.Some? {
            Hand(resolve);
          }
      }
    }

    /** Records a provider's list and announces the snapshot of all lists, while the
        consumer acts before and between the channel operations. The plain send at
        the end always finds room. */
    method UpdateTargets(provider: string, list: seq<Item>, before: seq<Act>, between: seq<Act>, last: seq<Act>)
      requires Valid() && pipe.update == Idle
      requires Fresh(list, pipe.store) && forall i :: 0 <= i < |list| ==> Shown(list[i]) == list[i].target
      modifies this, pipe.store.Keys, MapsOf(list), supervisor`instances, supervisor.instances.Values
      ensures Valid() && pipe.update == Idle && pipe.lists == old(pipe.lists)[provider := list]
      ensures pipe.store.Keys == old(pipe.store.Keys) + MapsOf(list)
      ensures |pipe.history| == |old(pipe.history)| + 1 && old(pipe.history) <= pipe.history
      ensures IsSnapshot(pipe.history[|old(pipe.history)|], pipe.lists)
      ensures fresh(supervisor.instances.Values - old(supervisor.instances.Values))
    {
      hide Run, Apply, TargetsOf, Fresh, WithCells, IsSnapshot, ProviderMap, Shown, Shows, Supervises;
      var result := Record(provider, list);
      Notify(result, before, between, last);
    }

    method Record(provider: string, list: seq<Item>) returns (result: seq<Item>)
      requires Valid() && pipe.update == Idle
      requires Fresh(list, pipe.store) && forall i :: 0 <= i < |list| ==> Shown(list[i]) == list[i].target
      modifies this`targets, this`steps, this`pipe
      ensures Valid() && pipe.update == Trying(result) && pipe.lists == old(pipe.lists)[provider := list]
      ensures pipe.store.Keys == old(pipe.store.Keys) + MapsOf(list)
      ensures pipe.history == old(pipe.history) + [result] && IsSnapshot(result, pipe.lists)
    {
      hide Run, Apply, TargetsOf, Fresh, WithCells, IsSnapshot, ProviderMap, Shown, Shows, Supervises;
      var provMap := BuildProviderMap(list);
      TargetsUpdate(targets, pipe.lists, provider, list);
      targets := targets[provider := provMap];
      result := Snapshot(pipe.lists[provider := list]);
      NewMaps(list, pipe.store);
      PublishIs(pipe, provider, list, result);
      Took(Publish(provider, list, result));
    }

    method Notify(result: seq<Item>, before: seq<Act>, between: seq<Act>, last: seq<Act>)
      requires Valid() && pipe.update == Trying(result)
      modifies this`notifyCh, this`inHand, this`steps, this`pipe, pipe.store.Keys
      modifies supervisor`instances, supervisor.instances.Values
      ensures Valid() && pipe.update == Idle && pipe.lists == old(pipe.lists) && pipe.history == old(pipe.history)
      ensures pipe.store.Keys == old(pipe.store.Keys)
      ensures fresh(supervisor.instances.Values - old(supervisor.instances.Values))
    {
      hide Run, Apply, TargetsOf, Shows, Supervises;
      Consume(before);
      var sent := TryToSend(result);
      if sent {
        return;
      }
      Consume(between);
      MakeRoom(result);
      Consume(last);
      HasRoom();
      PlainSend(result);
    }

    /** The select that sends if there is room. */
    method TryToSend(result: seq<Item>) returns (sent: bool)
      requires Valid() && pipe.update == Trying(result)
      modifies this`notifyCh, this`steps, this`pipe
      ensures Valid() && pipe == old(pipe).(update := pipe.update, queue := pipe.queue)
      ensures pipe.update == if sent then Idle else Draining(result)
      ensures notifyCh == if sent then old(notifyCh) + [result] else old(notifyCh)
    {
      hide Run, TargetsOf, Shows, Supervises;
      Took(TrySend);
      if |notifyCh| < CAPACITY {
        notifyCh := notifyCh + [result];
        return true;
      }
      return false;
    }

    /** The select that takes the oldest snapshot out, if there is one. */
    method MakeRoom(result: seq<Item>)
      requires Valid() && pipe.update == Draining(result)
      modifies this`notifyCh, this`steps, this`pipe
      ensures Valid() && pipe == old(pipe).(update := Sending(result), queue := pipe.queue, next := pipe.next)
      ensures notifyCh == if old(notifyCh) == [] then [] else old(notifyCh)[1..]
    {
      hide Run, TargetsOf, Shows, Supervises;
      Took(Drain);
      if notifyCh != [] {
        notifyCh := notifyCh[1..];
      }
    }

    method PlainSend(result: seq<Item>)
      requires Valid() && pipe.update == Sending(result) && Apply(pipe, Send, CAPACITY).Some?
      modifies this`notifyCh, this`steps, this`pipe
      ensures Valid() && pipe == old(pipe).(update := Idle, queue := pipe.queue)
      ensures notifyCh == old(notifyCh) + [result]
    {
      hide Run, TargetsOf, Shows, Supervises;
      Took(Send);
      notifyCh := notifyCh + [result];
    }

    lemma HasRoom()
      requires Valid() && pipe.update.Sending?
      ensures Apply(pipe, Send, CAPACITY).Some?
    {
      hide Run, Apply, TargetsOf, Shows, Supervises;
      ChannelDelivers(steps, CAPACITY);
    }

    method BuildProviderMap(list: seq<Item>) returns (provMap: map<string, Item>)
      ensures provMap == ProviderMap(list)
    {
      hide ProviderMap;
      ProviderNone();
      provMap := map[];
      for i := 0 to |list|
        invariant provMap == ProviderMap(list[..i])
      {
        var it := list[i];
        if it.target.id == "" {
          it := it.(target := it.target.(id := it.target.name));
        }
        provMap := provMap[it.target.id := it];
        assert list[..i + 1] == list[..i] + [list[i]];
        ProviderSnoc(list[..i], list[i]);
      }
      assert list[..|list|] == list;
    }

    /** CurrentTargets, and the middle of updateTargets: the provider maps merged, in
        any order, and listed, in any order. */
    method Snapshot(ghost lists: Lists) returns (result: seq<Item>)
      requires TargetsOf(targets, lists)
      ensures IsSnapshot(result, lists)
    {
      var unified := Merge();
      ghost var order;
      result, order := Listing(unified);
      ListingIsSnapshot(targets, lists, unified, result, order);
    }

    method Merge() returns (unified: map<string, Item>)
      ensures Merged(unified, targets, targets.Keys)
    {
      unified := map[];
      var todo := targets.Keys;
      while todo != {}
        invariant todo <= targets.Keys && Merged(unified, targets, targets.Keys - todo)
        decreases |todo|
      {
        var p :| p in todo;
        ghost var merged := targets.Keys - todo;
        MergeStep(unified, targets, merged, p);
        unified := MergeInto(unified, targets[p]);
        todo := todo - {p};
        assert targets.Keys - todo == merged + {p};
      }
      assert targets.Keys - todo == targets.Keys;
    }

    method MergeInto(unified: map<string, Item>, pMap: map<string, Item>) returns (r: map<string, Item>)
      ensures r == unified + pMap
    {
      r := unified;
      var todo := pMap.Keys;
      while todo != {}
        invariant todo <= pMap.Keys
        invariant r == unified + map id | id in pMap && id !in todo :: pMap[id]
        decreases |todo|
      {
        var id :| id in todo;
        r := r[id := pMap[id]];
        todo := todo - {id};
      }
      assert pMap == map id | id in pMap && id !in todo :: pMap[id];
    }

    method Listing(unified: map<string, Item>) returns (result: seq<Item>, ghost order: seq<string>)
      ensures Listed(result, unified, order) && forall id :: id in unified ==> id in order
    {
      result, order := [], [];
      var todo := unified.Keys;
      while todo != {}
        invariant todo <= unified.Keys && Listed(result, unified, order)
        invariant forall id :: id in unified ==> (id in order <==> id !in todo)
        decreases |todo|
      {
        var id :| id in todo;
        result := result + [unified[id]];
        order := order + [id];
        todo := todo - {id};
      }
    }
  }

  lemma SnapshotMaps(s: seq<Item>, store: Store)
    requires Fair(s, store)
    ensures MapsOf(s) <= store.Keys
  {
    forall c | c in MapsOf(s) ensures c in store {
      var i :| 0 <= i < |s| && s[i].labels == Some(c);
      assert Recorded(s[i], store);
    }
  }

  lemma AllShownNow(s: seq<Item>, store: Store)
    requires Fair(s, store) && Shows(store)
    ensures forall i :: 0 <= i < |s| ==> Shown(s[i]) == Now(s[i], store)
  {
    forall i | 0 <= i < |s| ensures Shown(s[i]) == Now(s[i], store) {
      RecordedOf(s, store, i);
      ShownNow(s[i], store);
    }
  }

  /** What the loop has left in the label maps is what the system writes back. */
  lemma WrittenBack(s: seq<Item>, after: seq<Item>, store: Store, resolve: Target -> string)
    requires Fair(s, store) && Apart(s) && |after| == |s|
    requires forall i :: 0 <= i < |s| && s[i].labels.Some? ==>
      after[i].labels == s[i].labels && Shown(after[i]) == EnrichedAll(s, store, resolve)[i]
    requires forall c :: c in store && c !in MapsOf(s) ==> c.entries == store[c].entries
    ensures Shows(WriteBack(s, EnrichedAll(s, store, resolve), store))
  {
    hide Fair, EnrichedAll, WriteBack;
    var r := EnrichedAll(s, store, resolve);
    forall c | c in store ensures c.entries == WriteBack(s, r, store)[c].entries {
      if i :| 0 <= i < |s| && s[i].labels == Some(c) {
        WriteBackAt(s, r, store, i);
      } else {
        WriteBackElsewhere(s, r, store, c);
      }
    }
  }

  /** The label maps of a new list, as they come. */
  lemma NewMaps(list: seq<Item>, store: Store)
    requires Shows(store) && Fresh(list, store) && forall i :: 0 <= i < |list| ==> Shown(list[i]) == list[i].target
    ensures Shows(WithCells(store, list)) && WithCells(store, list).Keys == store.Keys + MapsOf(list)
  {
    hide WithCells;
    forall c | c in store || c in MapsOf(list)
      ensures c in WithCells(store, list) && c.entries == WithCells(store, list)[c].entries
    {
      if i :| 0 <= i < |list| && list[i].labels == Some(c) {
        WithCellsAt(store, list, i);
      } else {
        WithCellsElsewhere(store, list, c);
      }
    }
    forall c | c in WithCells(store, list) ensures c in store || c in MapsOf(list) {
      if c !in MapsOf(list) { WithCellsElsewhere(store, list, c); }
    }
  }

  lemma ProviderNone()
    ensures ProviderMap([]) == map[]
  {
  }

  lemma ProviderSnoc(init: seq<Item>, last: Item)
    ensures ProviderMap(init + [last]) == ProviderMap(init)[Identified(last).target.id := Identified(last)]
  {
    assert (init + [last])[..|init|] == init;
  }

  lemma TargetsUpdate(targets: map<string, map<string, Item>>, lists: Lists, p: string, list: seq<Item>)
    requires TargetsOf(targets, lists)
    ensures TargetsOf(targets[p := ProviderMap(list)], lists[p := list])
  {
    hide ProviderMap;
  }

  /** Exactly the IDs of the given providers, each with what one of them has for it. */
  ghost predicate Merged(unified: map<string, Item>, targets: map<string, map<string, Item>>, from: set<string>) {
    && (forall id :: id in unified ==>
          exists p :: p in from && p in targets && id in targets[p] && targets[p][id] == unified[id])
    && (forall p, id :: p in from && p in targets && id in targets[p] ==> id in unified)
  }

  lemma MergeStep(unified: map<string, Item>, targets: map<string, map<string, Item>>, from: set<string>, p: string)
    requires Merged(unified, targets, from) && p in targets
    ensures Merged(unified + targets[p], targets, from + {p})
  {
    var more := unified + targets[p];
    forall id | id in more
      ensures exists q :: q in from + {p} && q in targets && id in targets[q] && targets[q][id] == more[id]
    {
      if id in targets[p] {
        assert p in from + {p};
      } else {
        var q :| q in from && q in targets && id in targets[q] && targets[q][id] == unified[id];
        assert q in from + {p};
      }
    }
  }

  /** The values at the given keys, which are distinct, in that order. */
  ghost predicate Listed(s: seq<Item>, unified: map<string, Item>, order: seq<string>) {
    && |s| == |order|
    && (forall i :: 0 <= i < |s| ==> order[i] in unified && s[i] == unified[order[i]])
    && (forall i, j :: 0 <= i < j < |order| ==> order[i] != order[j])
  }

  lemma MergedOffers(targets: map<string, map<string, Item>>, lists: Lists, unified: map<string, Item>, id: string)
    requires TargetsOf(targets, lists) && Merged(unified, targets, targets.Keys) && id in unified
    ensures unified[id].target.id == id && Offered(lists, unified[id])
  {
    var p :| p in targets && id in targets[p] && targets[p][id] == unified[id];
    assert Offers(lists, p, unified[id]);
  }

  lemma OfferedMerged(targets: map<string, map<string, Item>>, lists: Lists, unified: map<string, Item>, id: string)
    requires TargetsOf(targets, lists) && Merged(unified, targets, targets.Keys) && OffersId(lists, id)
    ensures id in unified
  {
    hide ProviderMap;
    var p :| p in lists && id in ProviderMap(lists[p]);
    assert targets[p] == ProviderMap(lists[p]);
  }

  lemma ListingIsSnapshot(targets: map<string, map<string, Item>>, lists: Lists,
                          unified: map<string, Item>, s: seq<Item>, order: seq<string>)
    requires TargetsOf(targets, lists) && Merged(unified, targets, targets.Keys)
    requires Listed(s, unified, order) && forall id :: id in unified ==> id in order
    ensures IsSnapshot(s, lists)
  {
    hide TargetsOf, Merged, Offered, OffersId;
    forall i | 0 <= i < |s| ensures s[i].target.id == order[i] && Offered(lists, s[i]) {
      MergedOffers(targets, lists, unified, order[i]);
    }
    forall id | OffersId(lists, id) ensures HasId(s, id) {
      OfferedMerged(targets, lists, unified, id);
      var i :| 0 <= i < |order| && order[i] == id;
      assert s[i].target.id == id;
    }
    assert forall i, j :: 0 <= i < j < |s| ==>
      s[i].target.id == order[i] && s[j].target.id == order[j] && order[i] != order[j];
  }
}
