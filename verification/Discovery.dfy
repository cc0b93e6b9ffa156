/** From discovery to the managed instances: provider updates merged under a lock and
    announced on a bounded channel (internal/pkg/discovery/discovery.go), and the
    goroutine that consumes them (pkg/cmd/app.go).

    As in Supervision a run is a sequence of steps; a step names its
    nondeterministic choice, and gives None when it is not enabled. */
module Discovery {
  import opened Text
  import opened Config
  import opened Labels
  import opened Netutil
  import Reconcile

  // ---- Snapshots ------------------------------------------------------------------

  function Identified(it: Item): Item {
    if it.target.id == "" then it.(target := it.target.(id := it.target.name)) else it
  }

  /** A provider's targets by ID; of several with one ID the last counts. */
  function ProviderMap(list: seq<Item>): (m: map<string, Item>)
    ensures forall id :: id in m ==> m[id].target.id == id && (exists it :: it in list && m[id] == Identified(it))
    ensures forall it :: it in list ==> Identified(it).target.id in m
  {
    if list == [] then map[]
    else
      var init, last := list[..|list| - 1], Identified(list[|list| - 1]);
      assert list == init + [list[|list| - 1]];
      ProviderMap(init)[last.target.id := last]
  }

  /** Of the targets of a list that go by one ID -- their own, or without one their name --
      the last is offered, under that ID and otherwise as it was listed. */
  lemma {:induction false} LastListedCounts(list: seq<Item>, i: nat, id: string)
    requires i < |list| && GoesBy(list[i], id) && forall j :: i < j < |list| ==> !GoesBy(list[j], id)
    ensures id in ProviderMap(list)
    ensures ProviderMap(list)[id] == list[i].(target := list[i].target.(id := id))
    decreases |list|
  {
    var init, last := list[..|list| - 1], list[|list| - 1];
    assert ProviderMap(list) == ProviderMap(init)[Identified(last).target.id := Identified(last)];
    GoesByItsId(last, id);
    hide ProviderMap, GoesBy, Identified;
    if i < |init| {
      assert forall j :: 0 <= j < |init| ==> init[j] == list[j];
      LastListedCounts(init, i, id);
    }
  }

  lemma GoesByItsId(it: Item, id: string)
    ensures GoesBy(it, id) <==> Identified(it).target.id == id
    ensures GoesBy(it, id) ==> Identified(it) == it.(target := it.target.(id := id))
  {
  }

  predicate GoesBy(it: Item, id: string) {
    (it.target.id == id && id != "") || (it.target.id == "" && it.target.name == id)
  }

  type Lists = map<string, seq<Item>>

  predicate Offers(lists: Lists, p: string, it: Item) {
    p in lists && it.target.id in ProviderMap(lists[p]) && ProviderMap(lists[p])[it.target.id] == it
  }

  ghost predicate Offered(lists: Lists, it: Item) {
    exists p ::
      Offers(lists, p, it)
  }

  ghost predicate OffersId(lists: Lists, id: string) {
    exists p ::
      p in lists && id in ProviderMap(lists[p])
  }

  ghost predicate HasId(s: seq<Item>, id: string) {
    exists i ::
      0 <= i < |s| && s[i].target.id == id
  }

  ghost predicate DistinctIds(s: seq<Item>) {
    forall i, j :: 0 <= i < j < |s| ==> s[i].target.id != s[j].target.id
  }

  /** One target for each ID that some provider offers, as one of them offers it; which
      one, and in which order, is left to the iteration over maps. */
  ghost predicate IsSnapshot(s: seq<Item>, lists: Lists) {
    && DistinctIds(s)
    && (forall i :: 0 <= i < |s| ==> Offered(lists, s[i]))
    && (forall id :: OffersId(lists, id) ==> HasId(s, id))
  }

  /** A provider makes the label maps of a list for that list. */
  ghost predicate Fresh(list: seq<Item>, store: Store) {
    && Apart(list)
    && forall i :: 0 <= i < |list| ==>
         match list[i].labels
         case None => list[i].target.labels == map[]
         case Some(c) => c !in store
  }

  /** The store with the label maps of a new list. */
  function WithCells(store: Store, list: seq<Item>): (r: Store) {
    if list == [] then store
    else
      var init, last := WithCells(store, list[..|list| - 1]), Identified(list[|list| - 1]);
      match last.labels
      case None => init
      case Some(c) => init[c := Cell(last.target, last.target.labels, [])]
  }

  lemma {:induction false} WithCellsElsewhere(store: Store, list: seq<Item>, c: LabelMap)
    requires forall i :: 0 <= i < |list| ==> list[i].labels != Some(c)
    ensures c in WithCells(store, list) <==> c in store
    ensures c in store ==> WithCells(store, list)[c] == store[c]
  {
    if list != [] { WithCellsElsewhere(store, list[..|list| - 1], c); }
  }

  lemma {:induction false} WithCellsAt(store: Store, list: seq<Item>, i: nat)
    requires Apart(list) && i < |list| && list[i].labels.Some?
    ensures var c, t := list[i].labels.value, Identified(list[i]).target;
      c in WithCells(store, list) && WithCells(store, list)[c] == Cell(t, t.labels, [])
  {
    var n := |list| - 1;
    if i < n {
      WithCellsAt(store, list[..n], i);
      assert list[n].labels != list[i].labels;
    }
  }

  // ---- The system ----------------------------------------------------------------------

  /** The update under way; updates hold a lock, so there is one at most. */
  datatype Update = Idle | Trying(s: seq<Item>) | Draining(s: seq<Item>) | Sending(s: seq<Item>)

  datatype Pipe = Pipe(
    lists: Lists,                             // the latest list of each provider
    store: Store,                             // the label maps published so far
    update: Update,
    queue: seq<seq<Item>>,                    // the channel's buffer
    inHand: Option<seq<Item>>,                // received, not yet reconciled
    managed: map<string, Reconcile.Managed>,
    history: seq<seq<Item>>,                  // every snapshot so far
    next: nat,                                // position in history of the queue's head
    seen: seq<nat>)                           // positions of the snapshots received

  const INIT_PIPE := Pipe(map[], map[], Idle, [], None, map[], [], 0, [])

  datatype Step =
    | Publish(provider: string, list: seq<Item>, snapshot: seq<Item>)
    | TrySend                                 // the select with a default
    | Drain                                   // the select that takes one out, with a default
    | Send                                    // the plain send, which blocks on a full buffer
    | Receive
    | Deliver(resolve: Target -> string)

  ghost function Apply(x: Pipe, t: Step, cap: nat): Option<Pipe> {
    match t
    case Publish(p, list, s) =>
      if x.update == Idle && Fresh(list, x.store) && IsSnapshot(s, x.lists[p := list])
      then Some(x.(lists := x.lists[p := list], store := WithCells(x.store, list),
                   update := Trying(s), history := x.history + [s]))
      else None
    case TrySend =>
      if !x.update.Trying? then None
      else if |x.queue| < cap then Some(x.(queue := x.queue + [x.update.s], update := Idle))
      else Some(x.(update := Draining(x.update.s)))
    case Drain =>
      if !x.update.Draining? then None
      else if x.queue == [] then Some(x.(update := Sending(x.update.s)))
      else Some(x.(queue := x.queue[1..], next := x.next + 1, update := Sending(x.update.s)))
    case Send =>
      if x.update.Sending? && |x.queue| < cap
      then Some(x.(queue := x.queue + [x.update.s], update := Idle))
      else None
    case Receive =>
      if x.inHand.None? && x.queue != []
      then Some(x.(inHand := Some(x.queue[0]), queue := x.queue[1..], next := x.next + 1, seen := x.seen + [x.next]))
      else None
    case Deliver(resolve) =>
      if x.inHand.Some?
      then
        var s := x.inHand.value;
        var r := EnrichedAll(s, x.store, resolve);
        Some(x.(managed := Reconcile.Reconciled(x.managed, r), store := WriteBack(s, r, x.store), inHand := None))
      else None
  }

  ghost function Run(x: Pipe, steps: seq<Step>, cap: nat): Option<Pipe>
    decreases |steps|
  {
    if steps == [] then Some(x)
    else
      match Apply(x, steps[0], cap)
      case None => None
      case Some(y) => Run(y, steps[1..], cap)
  }

  lemma {:induction false} RunSnoc(x: Pipe, steps: seq<Step>, t: Step, cap: nat)
    requires Run(x, steps, cap).Some?
    ensures Run(x, steps + [t], cap) == Apply(Run(x, steps, cap).value, t, cap)
    decreases |steps|
  {
    hide Apply;
    if steps == [] {
      assert [] + [t] == [t] && [t][1..] == [];
      assert forall y :: Run(y, [t][1..], cap) == Some(y);
    } else {
      assert (steps + [t])[1..] == steps[1..] + [t];
      RunSnoc(Apply(x, steps[0], cap).value, steps[1..], t, cap);
    }
  }

  // ---- The channel ----------------------------------------------------------------------

  function Pending(u: Update): seq<seq<Item>> {
    if u == Idle then [] else [u.s]
  }

  /** What is queued and what is about to be are the latest of the history, in order;
      what was received came before; only a newer snapshot drops an older one. */
  ghost predicate QueueInv(x: Pipe, cap: nat) {
    && |x.queue| <= cap
    && (x.update.Sending? ==> |x.queue| < cap)
    && x.next <= |x.history| && x.history[x.next..] == x.queue + Pending(x.update)
    && (forall i :: 0 <= i < |x.seen| ==> x.seen[i] < x.next)
    && (forall i, j :: 0 <= i < j < |x.seen| ==> x.seen[i] < x.seen[j])
    && (x.queue + Pending(x.update) == [] && x.history != [] ==>
      x.seen != [] && x.seen[|x.seen| - 1] == |x.history| - 1)
  }

  lemma ShiftHead(history: seq<seq<Item>>, next: nat, queue: seq<seq<Item>>, rest: seq<seq<Item>>)
    requires next <= |history| && history[next..] == queue + rest && queue != []
    ensures next < |history| && history[next] == queue[0] && history[next + 1..] == queue[1..] + rest
    ensures queue[1..] + rest == [] ==> next == |history| - 1
  {
    assert history[next] == history[next..][0];
    assert history[next + 1..] == history[next..][1..];
    assert (queue + rest)[1..] == queue[1..] + rest;
  }

  lemma PublishQueue(x: Pipe, t: Step, cap: nat)
    requires QueueInv(x, cap) && t.Publish? && Apply(x, t, cap).Some?
    ensures QueueInv(Apply(x, t, cap).value, cap)
  {
    hide IsSnapshot;
    var y := Apply(x, t, cap).value;
    assert x.queue + [] == x.queue;
    assert y.history[y.next..] == x.history[x.next..] + [t.snapshot];
  }

  lemma SendQueue(x: Pipe, t: Step, cap: nat)
    requires QueueInv(x, cap) && (t.TrySend? || t.Send?) && Apply(x, t, cap).Some?
    ensures QueueInv(Apply(x, t, cap).value, cap)
  {
    var y := Apply(x, t, cap).value;
    if y.update == Idle { assert x.queue + [x.update.s] + [] == x.queue + [x.update.s]; }
  }

  lemma DrainQueue(x: Pipe, cap: nat)
    requires cap > 0 && QueueInv(x, cap) && Apply(x, Drain, cap).Some?
    ensures QueueInv(Apply(x, Drain, cap).value, cap)
  {
    if x.queue != [] { ShiftHead(x.history, x.next, x.queue, Pending(x.update)); }
  }

  lemma ReceiveQueue(x: Pipe, cap: nat)
    requires QueueInv(x, cap) && Apply(x, Receive, cap).Some?
    ensures QueueInv(Apply(x, Receive, cap).value, cap)
    ensures x.next < |x.history| && x.queue[0] == x.history[x.next]
  {
    ShiftHead(x.history, x.next, x.queue, Pending(x.update));
  }

  lemma StepKeepsQueue(x: Pipe, t: Step, cap: nat)
    requires cap > 0 && QueueInv(x, cap) && Apply(x, t, cap).Some?
    ensures QueueInv(Apply(x, t, cap).value, cap)
  {
    match t
    case Publish(_, _, _) => PublishQueue(x, t, cap);
    case TrySend => SendQueue(x, t, cap);
    case Send => SendQueue(x, t, cap);
    case Drain => DrainQueue(x, cap);
    case Receive => ReceiveQueue(x, cap);
    case Deliver(_) =>
  }

  // ---- The manager -----------------------------------------------------------------------

  /** An instance serves a published target as the consumer hands it over: its endpoint
      may be in normal form, its namespace is the one given last, and its labels are
      what all deliveries so far have left in the target's label map. */
  ghost predicate Serves(u: Target, it: Item, store: Store) {
    var t := it.target;
    && u.tenant == t.tenant
    && (u.endpoint == t.endpoint || NormalizeEndpoint(t.endpoint, Reconcile.DEFAULT_PORT) == Accepted(u.endpoint))
    && (t.netns != "" ==> u.netns == t.netns)
    && match it.labels
       case None => u.labels == Written(t, [u.netns])
       case Some(c) =>
         && c in store && store[c].given != [] && u.netns == store[c].given[|store[c].given| - 1]
         && u.labels == Written(t, store[c].given)
  }

  /** It serves the target of that ID in the latest list of some provider. */
  ghost predicate ServesOffered(lists: Lists, store: Store, id: string, u: Target) {
    exists p ::
      p in lists && id in ProviderMap(lists[p]) && Serves(u, ProviderMap(lists[p])[id], store)
  }

  ghost predicate Matches(managed: map<string, Reconcile.Managed>, s: seq<Item>, store: Store) {
    && (forall id :: id in managed <==> HasId(s, id))
    && (forall i :: 0 <= i < |s| && s[i].target.id in managed ==> Serves(managed[s[i].target.id].target, s[i], store))
  }

  /** Discovered targets are managed under their IDs. */
  ghost predicate Keyed(s: seq<Item>) {
    forall i :: 0 <= i < |s| ==> Key(s[i].target) == s[i].target.id
  }

  ghost predicate AllRecorded(s: seq<Item>, store: Store) {
    forall i :: 0 <= i < |s| ==> Recorded(s[i], store)
  }

  ghost predicate Fair(s: seq<Item>, store: Store) {
    Keyed(s) && DistinctIds(s) && AllRecorded(s, store)
  }

  lemma FairApart(s: seq<Item>, store: Store)
    requires Fair(s, store)
    ensures Apart(s)
  {
    forall i, j | 0 <= i < j < |s| && s[i].labels.Some? ensures s[i].labels != s[j].labels {
      assert Recorded(s[i], store) && Recorded(s[j], store);
      assert s[i].target.id != s[j].target.id;
    }
  }

  lemma SnapshotFair(s: seq<Item>, lists: Lists, store: Store)
    requires IsSnapshot(s, lists) && ListsRecorded(lists, store)
    ensures Fair(s, store)
  {
    forall i | 0 <= i < |s| ensures Key(s[i].target) == s[i].target.id && Recorded(s[i], store) {
      assert Offered(lists, s[i]);
      var p :| Offers(lists, p, s[i]);
      var it :| it in lists[p] && s[i] == Identified(it);
      var k :| 0 <= k < |lists[p]| && lists[p][k] == it;
      assert Recorded(Identified(lists[p][k]), store);
    }
  }

  /** Every target of the latest lists is on record with its label map. */
  ghost predicate ListsRecorded(lists: Lists, store: Store) {
    forall p, k :: p in lists && 0 <= k < |lists[p]| ==> Recorded(Identified(lists[p][k]), store)
  }

  lemma DeliveredServes(was: map<string, Reconcile.Managed>, s: seq<Item>, store: Store, resolve: Target -> string,
                        i: nat)
    requires Fair(s, store) && Sound(store) && i < |s|
    ensures var r := EnrichedAll(s, store, resolve); var now := Reconcile.Reconciled(was, r);
      s[i].target.id in now && Serves(now[s[i].target.id].target, s[i], WriteBack(s, r, store))
  {
    var r := EnrichedAll(s, store, resolve);
    DeliveredFields(was, s, store, resolve, i);
    var u := Reconcile.Reconciled(was, r)[s[i].target.id].target;
    hide Reconcile.Reconciled, WithDefault, EnrichedAll, NormalizeEndpoint, WriteBack, Fair, Sound, FirstNonempty;
    FairApart(s, store);
    RecordedOf(s, store, i);
    if s[i].labels.Some? {
      WriteBackAt(s, r, store, i);
      CellAfter(s[i], store, resolve(Now(s[i], store)));
    } else {
      WrittenOnce(s[i].target, resolve(s[i].target));
    }
  }

  lemma RecordedOf(s: seq<Item>, store: Store, i: nat)
    requires Fair(s, store) && i < |s|
    ensures Recorded(s[i], store)
  {
  }

  lemma WrittenOnce(t: Target, ns: string)
    ensures Enriched(t, ns).labels == Written(t, [Enriched(t, ns).netns])
  {
    WrittenAgain(t, [], ns);
    assert [] + [Enriched(t, ns).netns] == [Enriched(t, ns).netns];
    assert t.(labels := t.labels) == t;
  }

  /** What Reconcile makes of one delivered target. */
  lemma DeliveredFields(was: map<string, Reconcile.Managed>, s: seq<Item>, store: Store, resolve: Target -> string,
                        i: nat)
    requires Fair(s, store) && i < |s|
    ensures var r := EnrichedAll(s, store, resolve); var now := Reconcile.Reconciled(was, r); var id := s[i].target.id;
      && id in now
      && now[id].target.netns == r[i].netns && now[id].target.labels == r[i].labels
      && now[id].target.tenant == s[i].target.tenant
      && (now[id].target.endpoint == s[i].target.endpoint
          || NormalizeEndpoint(s[i].target.endpoint, Reconcile.DEFAULT_PORT) == Accepted(now[id].target.endpoint))
  {
    hide WriteBack, Recorded, WithDefault, NormalizeEndpoint;
    var r := EnrichedAll(s, store, resolve);
    forall j | 0 <= j < |r| ensures Key(r[j]) == s[j].target.id { KeyAfter(s, store, resolve, j); }
    KeyAfter(s, store, resolve, i);
    Reconcile.LastDuplicateWins(r, i);
    Reconcile.Converges(was, r, s[i].target.id);
    hide Reconcile.Reconciled, Reconcile.DesiredMap, EnrichedAll, Reconcile.Normalized;
    assert r[i] in r;
    NormalForm(r[i]);
  }

  lemma KeyAfter(s: seq<Item>, store: Store, resolve: Target -> string, i: nat)
    requires Fair(s, store) && i < |s|
    ensures var r := EnrichedAll(s, store, resolve)[i];
      && Key(r) == s[i].target.id && r.endpoint == s[i].target.endpoint && r.tenant == s[i].target.tenant
      && r.id == s[i].target.id
  {
    hide WithDefault;
    assert Key(s[i].target) == s[i].target.id;
  }

  lemma NormalForm(t: Target)
    ensures Reconcile.Normalized(t).endpoint == t.endpoint
         || NormalizeEndpoint(t.endpoint, Reconcile.DEFAULT_PORT) == Accepted(Reconcile.Normalized(t).endpoint)
  {
  }

  lemma Delivered(was: map<string, Reconcile.Managed>, s: seq<Item>, store: Store, resolve: Target -> string)
    requires Fair(s, store) && Sound(store)
    ensures var r := EnrichedAll(s, store, resolve);
      Matches(Reconcile.Reconciled(was, r), s, WriteBack(s, r, store))
  {
    hide Fair, Sound, Serves, Reconcile.Reconciled, EnrichedAll, WriteBack;
    var r := EnrichedAll(s, store, resolve);
    var now := Reconcile.Reconciled(was, r);
    forall i | 0 <= i < |s|
      ensures s[i].target.id in now && Serves(now[s[i].target.id].target, s[i], WriteBack(s, r, store))
    {
      DeliveredServes(was, s, store, resolve, i);
    }
    forall id | id in now ensures HasId(s, id) {
      DeliveredId(was, s, store, resolve, id);
    }
  }

  lemma DeliveredId(was: map<string, Reconcile.Managed>, s: seq<Item>, store: Store, resolve: Target -> string,
                    id: string)
    requires Fair(s, store) && id in Reconcile.Reconciled(was, EnrichedAll(s, store, resolve))
    ensures HasId(s, id)
  {
    hide Reconcile.Reconciled, EnrichedAll, Reconcile.DesiredMap, Fair;
    var r := EnrichedAll(s, store, resolve);
    Reconcile.Converges(was, r, id);
    var t :| t in r && Key(t) == id;
    var i :| 0 <= i < |r| && r[i] == t;
    KeyAfter(s, store, resolve, i);
  }

  /** Every label map holds what the deliveries have written, the latest snapshot is
      one of the latest lists, and with nothing in hand the managed instances match
      the last snapshot received. */
  ghost predicate PipeInv(x: Pipe) {
    && Sound(x.store) && ListsRecorded(x.lists, x.store)
    && (forall n :: 0 <= n < |x.history| ==> Fair(x.history[n], x.store))
    && (if x.history == [] then x.lists == map[] else IsSnapshot(x.history[|x.history| - 1], x.lists))
    && (x.inHand.Some? ==> x.seen != [])
    && (forall i :: 0 <= i < |x.seen| ==> x.seen[i] < |x.history|)
    && (x.seen == [] ==> x.managed == map[])
    && (x.seen != [] ==>
          var last := x.history[x.seen[|x.seen| - 1]];
          if x.inHand.Some? then x.inHand.value == last else Matches(x.managed, last, x.store))
  }

  /** More label maps and more deliveries leave what is on record there. */
  ghost predicate Extends(store: Store, later: Store) {
    forall c :: c in store ==> c in later && later[c].origin == store[c].origin
  }

  lemma ExtendsFair(s: seq<Item>, store: Store, later: Store)
    requires Fair(s, store) && Extends(store, later)
    ensures Fair(s, later)
  {
    forall i | 0 <= i < |s| ensures Recorded(s[i], later) { assert Recorded(s[i], store); }
  }

  lemma ExtendsLists(lists: Lists, store: Store, later: Store)
    requires ListsRecorded(lists, store) && Extends(store, later)
    ensures ListsRecorded(lists, later)
  {
    forall p, k | p in lists && 0 <= k < |lists[p]| ensures Recorded(Identified(lists[p][k]), later) {
      assert Recorded(Identified(lists[p][k]), store);
    }
  }

  /** A new list's label maps: the old ones are as they were, the new ones unwritten. */
  lemma NewCells(list: seq<Item>, store: Store)
    requires Fresh(list, store)
    ensures var later := WithCells(store, list);
      && (forall c :: c in store ==> c in later && later[c] == store[c])
      && (forall k :: 0 <= k < |list| ==> Recorded(Identified(list[k]), later))
      && (Sound(store) ==> Sound(later))
  {
    hide WithCells;
    var later := WithCells(store, list);
    forall c | c in store ensures c in later && later[c] == store[c] {
      WithCellsElsewhere(store, list, c);
    }
    forall k | 0 <= k < |list| ensures Recorded(Identified(list[k]), later) {
      if list[k].labels.Some? { WithCellsAt(store, list, k); }
    }
    forall c | c in later && c !in store
      ensures later[c].entries == Written(later[c].origin, later[c].given) && later[c].given == []
    {
      if k :| 0 <= k < |list| && list[k].labels == Some(c) {
        WithCellsAt(store, list, k);
      } else {
        WithCellsElsewhere(store, list, c);
      }
    }
  }

  lemma SameServes(u: Target, it: Item, store: Store, later: Store)
    requires Serves(u, it, store) && forall c :: c in store ==> c in later && later[c] == store[c]
    ensures Serves(u, it, later)
  {
  }

  lemma SameMatches(managed: map<string, Reconcile.Managed>, s: seq<Item>, store: Store, later: Store)
    requires Matches(managed, s, store) && forall c :: c in store ==> c in later && later[c] == store[c]
    ensures Matches(managed, s, later)
  {
    hide Serves, HasId;
    forall i | 0 <= i < |s| && s[i].target.id in managed ensures Serves(managed[s[i].target.id].target, s[i], later) {
      SameServes(managed[s[i].target.id].target, s[i], store, later);
    }
  }

  lemma PublishPipe(x: Pipe, t: Step, cap: nat)
    requires PipeInv(x) && t.Publish? && Apply(x, t, cap).Some?
    ensures PipeInv(Apply(x, t, cap).value)
  {
    hide IsSnapshot, Fair, Matches, WithCells, Sound, Fresh, Recorded, Identified;
    var y := Apply(x, t, cap).value;
    NewCells(t.list, x.store);
    ExtendsLists(x.lists, x.store, y.store);
    SnapshotFair(t.snapshot, y.lists, y.store);
    forall n | 0 <= n < |y.history| ensures Fair(y.history[n], y.store) {
      if n < |x.history| { ExtendsFair(x.history[n], x.store, y.store); }
    }
    if x.seen != [] && x.inHand.None? {
      SameMatches(x.managed, x.history[x.seen[|x.seen| - 1]], x.store, y.store);
    }
  }

  lemma ReceivePipe(x: Pipe, cap: nat)
    requires QueueInv(x, cap) && PipeInv(x) && Apply(x, Receive, cap).Some?
    ensures PipeInv(Apply(x, Receive, cap).value)
  {
    hide IsSnapshot, Fair, Matches, QueueInv, Sound, ListsRecorded;
    ReceiveQueue(x, cap);
  }

  lemma DeliverPipe(x: Pipe, t: Step, cap: nat)
    requires PipeInv(x) && t.Deliver? && Apply(x, t, cap).Some?
    ensures PipeInv(Apply(x, t, cap).value)
  {
    hide IsSnapshot, Fair, Matches, Sound, Reconcile.Reconciled, EnrichedAll, WriteBack, ListsRecorded;
    var y := Apply(x, t, cap).value;
    var s := x.inHand.value;
    Delivered(x.managed, s, x.store, t.resolve);
    FairSound(s, x.store, t.resolve);
    ExtendsLists(x.lists, x.store, y.store);
    forall n | 0 <= n < |y.history| ensures Fair(y.history[n], y.store) {
      ExtendsFair(x.history[n], x.store, y.store);
    }
  }

  lemma FairSound(s: seq<Item>, store: Store, resolve: Target -> string)
    requires Fair(s, store) && Sound(store)
    ensures Sound(WriteBack(s, EnrichedAll(s, store, resolve), store))
  {
    hide Sound, WriteBack, EnrichedAll;
    FairApart(s, store);
    WriteBackSound(s, store, resolve);
  }

  lemma ChannelPipe(x: Pipe, t: Step, cap: nat)
    requires PipeInv(x) && (t.TrySend? || t.Drain? || t.Send?) && Apply(x, t, cap).Some?
    ensures PipeInv(Apply(x, t, cap).value)
  {
    hide IsSnapshot, Fair, Matches, Sound, ListsRecorded, Fresh;
    hide WithCells, EnrichedAll, WriteBack, Reconcile.Reconciled;
  }

  lemma StepKeepsPipe(x: Pipe, t: Step, cap: nat)
    requires cap > 0 && QueueInv(x, cap) && PipeInv(x) && Apply(x, t, cap).Some?
    ensures PipeInv(Apply(x, t, cap).value)
  {
    hide Apply, PipeInv, QueueInv;
    match t
    case Publish(_, _, _) => PublishPipe(x, t, cap);
    case Receive => ReceivePipe(x, cap);
    case Deliver(_) => DeliverPipe(x, t, cap);
    case _ => ChannelPipe(x, t, cap);
  }

  lemma {:induction false} RunKeeps(x: Pipe, steps: seq<Step>, cap: nat)
    requires cap > 0 && QueueInv(x, cap) && PipeInv(x) && Run(x, steps, cap).Some?
    ensures QueueInv(Run(x, steps, cap).value, cap) && PipeInv(Run(x, steps, cap).value)
    decreases |steps|
  {
    hide QueueInv, PipeInv, Apply;
    if steps != [] {
      StepKeepsQueue(x, steps[0], cap);
      StepKeepsPipe(x, steps[0], cap);
      RunKeeps(Apply(x, steps[0], cap).value, steps[1..], cap);
    }
  }

  lemma InitKeeps(cap: nat)
    ensures QueueInv(INIT_PIPE, cap) && PipeInv(INIT_PIPE)
  {
  }

  // ---- Over every run ----------------------------------------------------------------------

  /** Nothing under way and nothing left to receive. */
  predicate Quiescent(x: Pipe) {
    x.update == Idle && x.queue == [] && x.inHand.None?
  }

  /** In every interleaving of updates and consumer: the buffer is within its capacity
      and ends the history of snapshots; the send after the drain is enabled, so it
      never blocks; what the consumer has received is an in-order selection of the
      history, of which it has the latest in hand, and once all is quiet it ends with
      the newest. */
  lemma ChannelDelivers(steps: seq<Step>, cap: nat)
    requires cap > 0 && Run(INIT_PIPE, steps, cap).Some?
    ensures var x := Run(INIT_PIPE, steps, cap).value;
      && |x.queue| <= cap
      && x.next <= |x.history| && x.history[x.next..] == x.queue + Pending(x.update)
      && (x.update.Sending? ==> Apply(x, Send, cap).Some?)
      && (forall i :: 0 <= i < |x.seen| ==> x.seen[i] < |x.history|)
      && (forall i, j :: 0 <= i < j < |x.seen| ==> x.seen[i] < x.seen[j])
      && (x.inHand.Some? ==> x.seen != [] && x.inHand.value == x.history[x.seen[|x.seen| - 1]])
      && (Quiescent(x) && x.history != [] ==> x.seen != [] && x.seen[|x.seen| - 1] == |x.history| - 1)
  {
    InitKeeps(cap);
    RunKeeps(INIT_PIPE, steps, cap);
    hide Run, Fair, IsSnapshot, Matches, Sound, ListsRecorded;
  }

  /** In every interleaving, once providers are quiet and the consumer has drained the
      queue, the managed instances are those of the IDs in the providers' latest lists,
      and each serves a target of one of these lists. */
  lemma Convergence(steps: seq<Step>, cap: nat)
    requires cap > 0 && Run(INIT_PIPE, steps, cap).Some? && Quiescent(Run(INIT_PIPE, steps, cap).value)
    ensures var x := Run(INIT_PIPE, steps, cap).value;
      && (forall id :: id in x.managed <==> OffersId(x.lists, id))
      && (forall id :: id in x.managed ==> ServesOffered(x.lists, x.store, id, x.managed[id].target))
  {
    InitKeeps(cap);
    RunKeeps(INIT_PIPE, steps, cap);
    hide *;
    QuietConverged(Run(INIT_PIPE, steps, cap).value, cap);
  }

  lemma QuietConverged(x: Pipe, cap: nat)
    requires QueueInv(x, cap) && PipeInv(x) && Quiescent(x)
    ensures forall id :: id in x.managed <==> OffersId(x.lists, id)
    ensures forall id :: id in x.managed ==> ServesOffered(x.lists, x.store, id, x.managed[id].target)
  {
    if x.history != [] {
      LastMatches(x, cap);
      SnapshotServed(x.managed, x.history[|x.history| - 1], x.lists, x.store);
    } else {
      assert x.seen == [];
    }
  }

  lemma SnapshotServed(managed: map<string, Reconcile.Managed>, s: seq<Item>, lists: Lists, store: Store)
    requires Matches(managed, s, store) && IsSnapshot(s, lists)
    ensures forall id :: id in managed <==> OffersId(lists, id)
    ensures forall id :: id in managed ==> ServesOffered(lists, store, id, managed[id].target)
  {
    forall id | OffersId(lists, id) ensures id in managed {
      assert HasId(s, id);
    }
    hide IsSnapshot, Matches, Serves, ServesOffered, OffersId;
    forall id | id in managed ensures OffersId(lists, id) && ServesOffered(lists, store, id, managed[id].target) {
      IdServed(managed, s, lists, store, id);
    }
  }

  lemma IdServed(managed: map<string, Reconcile.Managed>, s: seq<Item>, lists: Lists, store: Store, id: string)
    requires Matches(managed, s, store) && IsSnapshot(s, lists) && id in managed
    ensures OffersId(lists, id) && ServesOffered(lists, store, id, managed[id].target)
  {
    hide Serves, ProviderMap;
    assert HasId(s, id);
    var i :| 0 <= i < |s| && s[i].target.id == id;
    assert Offered(lists, s[i]);
    var p :| Offers(lists, p, s[i]);
  }

  lemma LastMatches(x: Pipe, cap: nat)
    requires QueueInv(x, cap) && PipeInv(x) && Quiescent(x) && x.history != []
    ensures Matches(x.managed, x.history[|x.history| - 1], x.store) && IsSnapshot(x.history[|x.history| - 1], x.lists)
  {
    hide Matches, IsSnapshot;
  }

  /** What is left to do without a further update. */
  function Outstanding(x: Pipe): nat {
    2 * |x.queue| + (if x.inHand.Some? then 1 else 0)
    + (match x.update case Idle => 0 case Trying(_) => 5 case Draining(_) => 4 case Sending(_) => 3)
  }

  lemma LessToDo(x: Pipe, t: Step, cap: nat)
    requires !t.Publish? && Apply(x, t, cap).Some?
    ensures Outstanding(Apply(x, t, cap).value) < Outstanding(x)
  {
    hide IsSnapshot, Fresh, WithCells, EnrichedAll, WriteBack, Reconcile.Reconciled;
  }

  lemma SomethingToDo(x: Pipe, cap: nat)
    requires !Quiescent(x) && (x.update.Sending? ==> Apply(x, Send, cap).Some?)
    ensures exists u: Step :: !u.Publish? && Apply(x, u, cap).Some?
  {
    hide IsSnapshot, Fresh, WithCells, EnrichedAll, WriteBack, Reconcile.Reconciled;
    var u :=
      if x.update.Trying? then TrySend
      else if x.update.Draining? then Drain
      else if x.update.Sending? then Send
      else if x.inHand.Some? then Deliver(_ => "")
      else Receive;
    assert Apply(x, u, cap).Some?;
  }

  /** Quiet is reached: a step other than an update always leaves less to do, and some
      such step is enabled until nothing is left. */
  lemma QuietIsReached(steps: seq<Step>, t: Step, cap: nat)
    requires cap > 0 && Run(INIT_PIPE, steps, cap).Some?
    ensures var x := Run(INIT_PIPE, steps, cap).value;
      && (!t.Publish? && Apply(x, t, cap).Some? ==> Outstanding(Apply(x, t, cap).value) < Outstanding(x))
      && (Quiescent(x) <==> Outstanding(x) == 0)
      && (!Quiescent(x) ==> exists u: Step :: !u.Publish? && Apply(x, u, cap).Some?)
  {
    hide Run, Apply;
    ChannelDelivers(steps, cap);
    var x := Run(INIT_PIPE, steps, cap).value;
    if !t.Publish? && Apply(x, t, cap).Some? { LessToDo(x, t, cap); }
    if !Quiescent(x) { SomethingToDo(x, cap); }
  }
}
