/** What the sharing of label maps does to the managed instances: when the namespace
    label of an instance tells its namespace, and why nothing shows of the sharing
    while the resolver's answers do not change. */
module Sharing {
  import opened Text
  import opened Config
  import opened Labels
  import opened Netutil
  import opened Discovery
  import Reconcile
  import Resolver

  // ---- The namespace label -------------------------------------------------------

  /** The label tells the namespace exactly if the target brought that very label, or
      brought none and has a namespace of its own, has no label map to share, or was
      given the last namespace first. */
  ghost predicate LabelExact(u: Target, it: Item, store: Store) {
    Get(u.labels, "netns") == u.netns <==>
      if Get(it.target.labels, "netns") != "" then Get(it.target.labels, "netns") == u.netns
      else it.target.netns != "" || it.labels.None?
           || (it.labels.value in store && store[it.labels.value].given != []
               && FirstNonempty(store[it.labels.value].given) == u.netns)
  }

  lemma ServesLabelExact(u: Target, it: Item, store: Store)
    requires Serves(u, it, store) && Sound(store) && Recorded(it, store)
    ensures LabelExact(u, it, store)
  {
    hide NormalizeEndpoint;
    var given := if it.labels.None? then [u.netns] else store[it.labels.value].given;
    LabelTellsExactlyWhen(it.target, given);
    if it.target.netns != "" { SameGiven(given, it.target.netns); }
    assert FirstNonempty([u.netns][1..]) == "";
  }

  ghost predicate ExactlyServed(lists: Lists, store: Store, id: string, u: Target) {
    exists p ::
      && p in lists && id in ProviderMap(lists[p])
      && Serves(u, ProviderMap(lists[p])[id], store) && LabelExact(u, ProviderMap(lists[p])[id], store)
  }

  /** Once all is quiet, whatever the resolver has answered meanwhile: each instance
      serves a target of a latest list, and its namespace label tells its namespace
      exactly in the cases above. */
  lemma NetnsLabelExactlyWhen(steps: seq<Step>, cap: nat, id: string)
    requires cap > 0 && Run(INIT_PIPE, steps, cap).Some? && Quiescent(Run(INIT_PIPE, steps, cap).value)
    requires id in Run(INIT_PIPE, steps, cap).value.managed
    ensures var x := Run(INIT_PIPE, steps, cap).value; ExactlyServed(x.lists, x.store, id, x.managed[id].target)
  {
    Convergence(steps, cap);
    InitKeeps(cap);
    RunKeeps(INIT_PIPE, steps, cap);
    var x := Run(INIT_PIPE, steps, cap).value;
    hide Run, Serves, LabelExact, Sound, IsSnapshot, Fair, Matches, QueueInv, Recorded;
    var u := x.managed[id].target;
    assert ServesOffered(x.lists, x.store, id, u);
    var p :| p in x.lists && id in ProviderMap(x.lists[p]) && Serves(u, ProviderMap(x.lists[p])[id], x.store);
    OfferedRecorded(x.lists, x.store, p, id);
    ServesLabelExact(u, ProviderMap(x.lists[p])[id], x.store);
  }

  lemma OfferedRecorded(lists: Lists, store: Store, p: string, id: string)
    requires ListsRecorded(lists, store) && p in lists && id in ProviderMap(lists[p])
    ensures Recorded(ProviderMap(lists[p])[id], store)
  {
    hide Recorded, Identified;
    var it :| it in lists[p] && ProviderMap(lists[p])[id] == Identified(it);
    var k :| 0 <= k < |lists[p]| && lists[p][k] == it;
  }

  // ---- A resolver whose answers do not change ---------------------------------------

  /** The answer does not depend on what deliveries write into the labels. */
  ghost predicate Steady(f: Target -> string) {
    forall t: Target, given: seq<string> :: f(t.(labels := Written(t, given))) == f(t)
  }

  /** The search for a namespace is steady: it looks at the tenant label only where
      the target has no tenant to write there. */
  lemma ResolverIsSteady(cfg: Resolver.NetNSConfig, env: Resolver.Env, t: Target, given: seq<string>)
    ensures Resolver.Resolved(cfg, t.(labels := Written(t, given)), env) == Resolver.Resolved(cfg, t, env)
  {
    hide Resolver.ByTenant, Resolver.ByAddress, Resolver.ExtractIP;
    assert Resolver.TenantOf(t.(labels := Written(t, given))) == Resolver.TenantOf(t);
  }

  lemma ResolvedIsSteady(cfg: Resolver.NetNSConfig, env: Resolver.Env)
    ensures Steady(t => Resolver.Resolved(cfg, t, env))
  {
    hide Written, Resolver.Resolved;
    forall t: Target, given: seq<string>
      ensures Resolver.Resolved(cfg, t.(labels := Written(t, given)), env) == Resolver.Resolved(cfg, t, env)
    {
      ResolverIsSteady(cfg, env, t, given);
    }
  }

  /** Every delivery asks the same resolver. */
  ghost predicate Asks(steps: seq<Step>, f: Target -> string) {
    forall k, t :: 0 <= k < |steps| && steps[k].Deliver? ==> steps[k].resolve(t) == f(t)
  }

  function Namespace(t: Target, f: Target -> string): string {
    if t.netns == "" then f(t) else t.netns
  }

  ghost predicate Answered(store: Store, f: Target -> string) {
    forall c :: c in store ==>
      forall k :: 0 <= k < |store[c].given| ==> store[c].given[k] == Namespace(store[c].origin, f)
  }

  /** The instance has the namespace and the labels that its target alone leads to. */
  ghost predicate AsIfUnshared(u: Target, t: Target, f: Target -> string) {
    u.netns == Namespace(t, f) && u.labels == Enriched(t, f(t)).labels
  }

  ghost predicate AllUnshared(managed: map<string, Reconcile.Managed>, s: seq<Item>, f: Target -> string) {
    forall i :: 0 <= i < |s| && s[i].target.id in managed ==>
      AsIfUnshared(managed[s[i].target.id].target, s[i].target, f)
  }

  ghost predicate UnsharedInv(x: Pipe, f: Target -> string) {
    && Answered(x.store, f)
    && (x.seen != [] && x.inHand.None? && x.seen[|x.seen| - 1] < |x.history| ==>
          AllUnshared(x.managed, x.history[x.seen[|x.seen| - 1]], f))
  }

  lemma WrittenSame(t: Target, given: seq<string>, f: Target -> string)
    requires given != [] && forall k :: 0 <= k < |given| ==> given[k] == Namespace(t, f)
    ensures Written(t, given) == Enriched(t, f(t)).labels
  {
    SameGiven(given, Namespace(t, f));
  }

  /** What one delivery makes of one target. */
  lemma DeliveredUnshared(it: Item, store: Store, f: Target -> string, ns: string)
    requires Steady(f) && Sound(store) && Recorded(it, store) && Answered(store, f)
    requires ns == f(Now(it, store))
    ensures AsIfUnshared(Enriched(Now(it, store), ns), it.target, f)
  {
    var t := it.target;
    if it.labels.Some? {
      var c := store[it.labels.value];
      assert Now(it, store) == t.(labels := Written(t, c.given));
      assert f(t.(labels := Written(t, c.given))) == f(t);
      hide Written;
      WrittenAgain(t, c.given, ns);
      WrittenSame(t, c.given + [Namespace(t, f)], f);
    }
  }

  lemma DeliverUnshared(x: Pipe, t: Step, cap: nat, f: Target -> string)
    requires Steady(f) && PipeInv(x) && UnsharedInv(x, f)
    requires t.Deliver? && Apply(x, t, cap).Some? && forall v :: t.resolve(v) == f(v)
    ensures UnsharedInv(Apply(x, t, cap).value, f)
  {
    hide Fair, Sound, Answered, AllUnshared, Matches, IsSnapshot;
    hide ListsRecorded, WriteBack, EnrichedAll, Reconcile.Reconciled;
    var s := x.inHand.value;
    SnapshotUnshared(x.managed, s, x.store, t.resolve, f);
    StoreAnswered(s, x.store, t.resolve, f);
  }

  lemma SnapshotUnshared(was: map<string, Reconcile.Managed>, s: seq<Item>, store: Store, resolve: Target -> string,
                         f: Target -> string)
    requires Steady(f) && Fair(s, store) && Sound(store) && Answered(store, f) && forall v :: resolve(v) == f(v)
    ensures AllUnshared(Reconcile.Reconciled(was, EnrichedAll(s, store, resolve)), s, f)
  {
    hide Steady, Fair, Sound, Answered, Enriched, Now, Reconcile.Reconciled, EnrichedAll, Namespace, NormalizeEndpoint;
    forall i | 0 <= i < |s| && s[i].target.id in Reconcile.Reconciled(was, EnrichedAll(s, store, resolve))
      ensures AsIfUnshared(Reconcile.Reconciled(was, EnrichedAll(s, store, resolve))[s[i].target.id].target,
                            s[i].target, f)
    {
      DeliveredFields(was, s, store, resolve, i);
      RecordedOf(s, store, i);
      DeliveredUnshared(s[i], store, f, resolve(Now(s[i], store)));
    }
  }

  lemma StoreAnswered(s: seq<Item>, store: Store, resolve: Target -> string, f: Target -> string)
    requires Steady(f) && Fair(s, store) && Sound(store) && Answered(store, f) && forall v :: resolve(v) == f(v)
    ensures Answered(WriteBack(s, EnrichedAll(s, store, resolve), store), f)
  {
    hide Steady, Fair, Sound, Enriched, Now, WriteBack, EnrichedAll, Namespace;
    var r := EnrichedAll(s, store, resolve);
    var after := WriteBack(s, r, store);
    FairApart(s, store);
    forall c | c in after
      ensures forall k :: 0 <= k < |after[c].given| ==> after[c].given[k] == Namespace(after[c].origin, f)
    {
      if i :| 0 <= i < |s| && s[i].labels == Some(c) {
        WriteBackAt(s, r, store, i);
        RecordedOf(s, store, i);
        DeliveredUnshared(s[i], store, f, resolve(Now(s[i], store)));
      } else {
        WriteBackElsewhere(s, r, store, c);
      }
    }
  }

  lemma PublishUnshared(x: Pipe, t: Step, cap: nat, f: Target -> string)
    requires PipeInv(x) && UnsharedInv(x, f) && t.Publish? && Apply(x, t, cap).Some?
    ensures UnsharedInv(Apply(x, t, cap).value, f)
  {
    hide Sound, Fair, Matches, IsSnapshot, WithCells, AllUnshared, Recorded, Identified, Namespace;
    var y := Apply(x, t, cap).value;
    forall c | c in y.store
      ensures forall k :: 0 <= k < |y.store[c].given| ==> y.store[c].given[k] == Namespace(y.store[c].origin, f)
    {
      if k :| 0 <= k < |t.list| && t.list[k].labels == Some(c) {
        WithCellsAt(x.store, t.list, k);
      } else {
        WithCellsElsewhere(x.store, t.list, c);
      }
    }
  }

  lemma StepUnshared(x: Pipe, t: Step, cap: nat, f: Target -> string)
    requires Steady(f) && PipeInv(x) && UnsharedInv(x, f)
    requires Apply(x, t, cap).Some? && (t.Deliver? ==> forall v :: t.resolve(v) == f(v))
    ensures UnsharedInv(Apply(x, t, cap).value, f)
  {
    hide Apply, Steady, PipeInv, UnsharedInv;
    if t.Publish? {
      PublishUnshared(x, t, cap, f);
    } else if t.Deliver? {
      DeliverUnshared(x, t, cap, f);
    } else {
      ChannelUnshared(x, t, cap, f);
    }
  }

  lemma ChannelUnshared(x: Pipe, t: Step, cap: nat, f: Target -> string)
    requires UnsharedInv(x, f) && !t.Publish? && !t.Deliver? && Apply(x, t, cap).Some?
    ensures UnsharedInv(Apply(x, t, cap).value, f)
  {
    hide AllUnshared, Answered, IsSnapshot, WriteBack, EnrichedAll, WithCells, Fresh, Reconcile.Reconciled;
  }

  lemma {:induction false} RunUnshared(x: Pipe, steps: seq<Step>, cap: nat, f: Target -> string)
    requires cap > 0 && QueueInv(x, cap) && PipeInv(x) && UnsharedInv(x, f)
    requires Steady(f) && Asks(steps, f) && Run(x, steps, cap).Some?
    ensures UnsharedInv(Run(x, steps, cap).value, f)
    decreases |steps|
  {
    hide QueueInv, PipeInv, UnsharedInv, Apply, Steady;
    if steps != [] {
      StepKeepsQueue(x, steps[0], cap);
      StepKeepsPipe(x, steps[0], cap);
      StepUnshared(x, steps[0], cap, f);
      assert Asks(steps[1..], f);
      RunUnshared(Apply(x, steps[0], cap).value, steps[1..], cap, f);
    }
  }

  ghost predicate ServedUnshared(lists: Lists, id: string, u: Target, f: Target -> string) {
    exists p ::
      && p in lists && id in ProviderMap(lists[p])
      && AsIfUnshared(u, ProviderMap(lists[p])[id].target, f)
  }

  /** With one steady resolver the sharing does not show: once all is quiet each
      instance has the namespace and the labels of a target of a latest list, as
      that target alone leads to them. */
  lemma OneResolverConvergence(steps: seq<Step>, cap: nat, f: Target -> string, id: string)
    requires cap > 0 && Run(INIT_PIPE, steps, cap).Some? && Quiescent(Run(INIT_PIPE, steps, cap).value)
    requires Steady(f) && Asks(steps, f)
    requires id in Run(INIT_PIPE, steps, cap).value.managed
    ensures var x := Run(INIT_PIPE, steps, cap).value; ServedUnshared(x.lists, id, x.managed[id].target, f)
  {
    InitKeeps(cap);
    RunKeeps(INIT_PIPE, steps, cap);
    RunUnshared(INIT_PIPE, steps, cap, f);
    hide *;
    LastUnshared(Run(INIT_PIPE, steps, cap).value, cap, f, id);
  }

  lemma LastUnshared(x: Pipe, cap: nat, f: Target -> string, id: string)
    requires QueueInv(x, cap) && PipeInv(x) && Quiescent(x) && UnsharedInv(x, f) && id in x.managed
    ensures ServedUnshared(x.lists, id, x.managed[id].target, f)
  {
    hide Sound, Fair, ListsRecorded, Answered, Matches, IsSnapshot, AllUnshared;
    assert x.history != [] && x.seen != [];
    LastMatches(x, cap);
    SnapshotServedUnshared(x.managed, x.history[|x.history| - 1], x.lists, x.store, f, id);
  }

  lemma SnapshotServedUnshared(managed: map<string, Reconcile.Managed>, s: seq<Item>, lists: Lists, store: Store,
                               f: Target -> string, id: string)
    requires Matches(managed, s, store) && IsSnapshot(s, lists) && AllUnshared(managed, s, f) && id in managed
    ensures ServedUnshared(lists, id, managed[id].target, f)
  {
    hide AsIfUnshared, Serves, ProviderMap;
    assert HasId(s, id);
    var i :| 0 <= i < |s| && s[i].target.id == id;
    assert Offered(lists, s[i]);
    var p :| Offers(lists, p, s[i]);
  }

  // ---- A label that goes stale --------------------------------------------------------

  /** One provider with one target, and others with none. */
  ghost predicate OnlyTarget(lists: Lists, p: string, it: Item) {
    && p in lists && lists[p] == [it] && it.target.id != ""
    && forall q :: q in lists && q != p ==> lists[q] == []
  }

  lemma OnlyOffered(lists: Lists, p: string, it: Item)
    requires OnlyTarget(lists, p, it)
    ensures forall q, id :: q in lists && id in ProviderMap(lists[q]) <==> q == p && id == it.target.id
    ensures ProviderMap(lists[p])[it.target.id] == it
  {
    assert [it][..0] == [];
    assert ProviderMap([it]) == map[it.target.id := it];
    assert ProviderMap([]) == map[];
  }

  lemma OnlySnapshot(lists: Lists, p: string, it: Item)
    requires OnlyTarget(lists, p, it)
    ensures IsSnapshot([it], lists)
  {
    hide ProviderMap;
    OnlyOffered(lists, p, it);
    assert Offers(lists, p, it);
    forall id | OffersId(lists, id) ensures HasId([it], id) {
      var q :| q in lists && id in ProviderMap(lists[q]);
      assert [it][0].target.id == id;
    }
  }

  /** A static target with a label of its own and no namespace, published once. */
  const VM := Target("vm", "vm", "10.0.0.1", "", "", map["a" := "b"], [])

  /** One namespace to look for routes in. */
  const ROUTES := Resolver.NetNSConfig([Resolver.Item("ns1", [], [])], "", true, "mgmt")

  /** What the resolver says while the namespace has a route, and while it has none. */
  ghost function Answer(env: Resolver.Env, route: bool): Target -> string {
    t => Resolver.Resolved(ROUTES, t, env.(routeChecker := Some((name: string, ip: IP) => route)))
  }

  lemma AnswerAtVM(env: Resolver.Env, route: bool)
    ensures Answer(env, route)(VM) == if route then "ns1" else "mgmt"
  {
    var e := env.(routeChecker := Some((name: string, ip: IP) => route));
    AddressOfVM(e);
    hide Resolver.ExtractIP;
    var ip := Resolver.ExtractIP(VM.endpoint, e).value;
    assert Resolver.ByTenant(ROUTES, Resolver.TenantOf(VM), e).None?;
    assert !Resolver.Covers(ROUTES.items[0], ip, e);
    assert ROUTES.items[1..] == [];
    assert Resolver.SubnetFor(ROUTES.items, ip, e) == Resolver.SubnetFor(ROUTES.items[1..], ip, e);
    assert Resolver.RouteFor(ROUTES.items[1..], ip, e.routeChecker.value).None?;
  }

  lemma AddressOfVM(env: Resolver.Env)
    ensures Resolver.ExtractIP(VM.endpoint, env).Some?
  {
    Octets();
    hide *;
    FourOctets("10", "0", "0", "1");
    VMText();
    PlainAddress(VM.endpoint, env);
  }

  lemma VMText()
    ensures VM.endpoint == "10" + ['.'] + ("0" + ['.'] + ("0" + ['.'] + "1"))
    ensures VM.endpoint != "" && TrimSpace(VM.endpoint) == VM.endpoint
    ensures forall k :: k in VM.endpoint ==> k == '.' || IsDigit(k)
  {
    TrimSpaceFixed(VM.endpoint);
  }

  /** An endpoint without scheme, port, brackets and zone is its own address. */
  lemma PlainAddress(e: string, env: Resolver.Env)
    requires e != "" && TrimSpace(e) == e && ParseIP(e).Some?
    requires forall k :: k in e ==> k == '.' || IsDigit(k)
    ensures Resolver.ExtractIP(e, env).Some?
  {
    hide ParseIP, TrimSpace;
    Resolver.NoScheme(e);
    Resolver.UnwrappedPlain(e);
    hide Resolver.Unwrapped, Resolver.IndexScheme;
    assert SplitHostPort(e).None?;
    assert StripZone(e) == e;
  }

  lemma FourOctets(a: string, b: string, c: string, d: string)
    requires IsOctet(a) && IsOctet(b) && IsOctet(c) && IsOctet(d)
    ensures ParseIP(a + ['.'] + (b + ['.'] + (c + ['.'] + d))).Some?
  {
    OctetDigits(a);
    OctetDigits(b);
    OctetDigits(c);
    OctetDigits(d);
    hide IsOctet, Fields, ParseIPv4, ParseIP;
    FourFields(a, b, c, d);
    OctetsParse(a + ['.'] + (b + ['.'] + (c + ['.'] + d)), a, b, c, d);
    DottedFamily(a + ['.'] + (b + ['.'] + (c + ['.'] + d)));
  }

  lemma OctetDigits(f: string)
    requires IsOctet(f)
    ensures '.' !in f && ':' !in f && '%' !in f
  {
  }

  lemma OctetsParse(e: string, a: string, b: string, c: string, d: string)
    requires IsOctet(a) && IsOctet(b) && IsOctet(c) && IsOctet(d) && Fields(e, '.') == [a, b, c, d]
    ensures ParseIPv4(e).Some?
  {
    hide IsOctet, Fields;
  }

  lemma DottedFamily(e: string)
    requires '.' in e && ':' !in e && '%' !in e && ParseIPv4(e).Some?
    ensures ParseIP(e).Some?
  {
    hide ParseIPv4;
  }

  lemma Octets()
    ensures IsOctet("10") && IsOctet("0") && IsOctet("1")
  {
  }

  lemma FourFields(a: string, b: string, c: string, d: string)
    requires '.' !in a && '.' !in b && '.' !in c && '.' !in d
    ensures Fields(a + ['.'] + (b + ['.'] + (c + ['.'] + d)), '.') == [a, b, c, d]
  {
    hide Fields;
    FieldsSingle(d, '.');
    FieldsCons(c, '.', d);
    FieldsCons(b, '.', c + ['.'] + d);
    FieldsCons(a, '.', b + ['.'] + (c + ['.'] + d));
  }

  /** From a quiet state: the snapshot is sent, received and delivered. */
  lemma Announced(x: Pipe, steps: seq<Step>, p: string, list: seq<Item>, it: Item, c: LabelMap, f: Target -> string)
    returns (steps': seq<Step>)
    requires Run(INIT_PIPE, steps, 10) == Some(x) && Quiescent(x)
    requires it == Item(VM, Some(c)) && Fresh(list, x.store) && IsSnapshot([it], x.lists[p := list])
    requires c in WithCells(x.store, list)
    ensures steps <= steps' && forall k :: |steps| <= k < |steps'| && steps'[k].Deliver? ==> steps'[k].resolve == f
    ensures var y := Run(INIT_PIPE, steps', 10);
      && y.Some? && Quiescent(y.value) && y.value.lists == x.lists[p := list]
      && c in y.value.store && y.value.store[c].origin == WithCells(x.store, list)[c].origin
      && y.value.store[c].given == WithCells(x.store, list)[c].given + [f(Now(it, WithCells(x.store, list)))]
  {
    hide Run, IsSnapshot, Fresh, WithCells, Reconcile.Reconciled;
    var a := Publish(p, list, [it]);
    var x1 := Apply(x, a, 10).value;
    RunSnoc(INIT_PIPE, steps, a, 10);
    var x2 := Apply(x1, TrySend, 10).value;
    RunSnoc(INIT_PIPE, steps + [a], TrySend, 10);
    var x3 := Apply(x2, Receive, 10).value;
    RunSnoc(INIT_PIPE, steps + [a] + [TrySend], Receive, 10);
    assert x2.queue == [[it]] && x3.queue == [];
    var d := Deliver(f);
    var x4 := Apply(x3, d, 10).value;
    RunSnoc(INIT_PIPE, steps + [a] + [TrySend] + [Receive], d, 10);
    steps' := steps + [a] + [TrySend] + [Receive] + [d];
    WriteBackAt([it], EnrichedAll([it], x3.store, d.resolve), x3.store, 0);
  }

  /** The namespace gets its route between two deliveries: the instance moves to ns1
      while its label still says mgmt, which the resolver has answered before. */
  lemma NetnsLabelGoesStale(c: LabelMap, env: Resolver.Env) returns (steps: seq<Step>)
    ensures forall k :: 0 <= k < |steps| && steps[k].Deliver? ==>
      exists route :: steps[k].resolve == Answer(env, route)
    ensures var y := Run(INIT_PIPE, steps, 10);
      && y.Some? && Quiescent(y.value) && "vm" in y.value.managed
      && y.value.managed["vm"].target.netns == "ns1"
      && Get(y.value.managed["vm"].target.labels, "netns") == "mgmt"
  {
    hide Run, Reconcile.Reconciled, NormalizeEndpoint, WithCells, IsSnapshot, ProviderMap, OnlyTarget, Answer;
    var it := Item(VM, Some(c));
    StartOfRun(it, c);
    OnlySnapshot(INIT_PIPE.lists["static" := [it]], "static", it);
    AnswerAtVM(env, false);
    steps := Announced(INIT_PIPE, [], "static", [it], it, c, Answer(env, false));
    var x := Run(INIT_PIPE, steps, 10).value;
    assert [] + ["mgmt"] == ["mgmt"];
    NowLater(x, steps, it, c);
    AnswerLater(env, true, ["mgmt"]);
    EmptyList(x.lists, x.store, it);
    OnlySnapshot(x.lists["file" := []], "static", it);
    steps := Announced(x, steps, "file", [], it, c, Answer(env, true));
    var y := Run(INIT_PIPE, steps, 10).value;
    assert [] + ["mgmt"] + ["ns1"] == ["mgmt", "ns1"];
    StaleFields(y, steps, it, c);
  }

  /** Nor does the answer depend on what has been delivered to the target before. */
  lemma AnswerLater(env: Resolver.Env, route: bool, given: seq<string>)
    ensures Answer(env, route)(VM.(labels := Written(VM, given))) == if route then "ns1" else "mgmt"
  {
    AnswerAtVM(env, route);
    ResolverIsSteady(ROUTES, env.(routeChecker := Some((name: string, ip: IP) => route)), VM, given);
    hide Resolver.Resolved, Written;
  }

  lemma NowLater(x: Pipe, steps: seq<Step>, it: Item, c: LabelMap)
    requires Run(INIT_PIPE, steps, 10) == Some(x) && it == Item(VM, Some(c))
    requires c in x.store && x.store[c].origin == VM && x.store[c].given == ["mgmt"]
    ensures Now(it, x.store) == VM.(labels := Written(VM, ["mgmt"]))
  {
    InitKeeps(10);
    RunKeeps(INIT_PIPE, steps, 10);
    hide Run, Written, QueueInv, Matches, IsSnapshot, ListsRecorded, Fair;
  }

  lemma StartOfRun(it: Item, c: LabelMap)
    requires it == Item(VM, Some(c))
    ensures Run(INIT_PIPE, [], 10) == Some(INIT_PIPE) && Quiescent(INIT_PIPE)
    ensures OnlyTarget(INIT_PIPE.lists["static" := [it]], "static", it) && Fresh([it], INIT_PIPE.store)
    ensures var store := WithCells(INIT_PIPE.store, [it]);
      c in store && store[c].given == [] && store[c].origin == VM && Now(it, store) == VM
  {
    WithCellsAt(INIT_PIPE.store, [it], 0);
  }

  lemma EmptyList(lists: Lists, store: Store, it: Item)
    requires lists == map["static" := [it]] && it.target.id != ""
    ensures OnlyTarget(lists["file" := []], "static", it) && Fresh([], store) && WithCells(store, []) == store
  {
  }

  lemma StaleFields(y: Pipe, steps: seq<Step>, it: Item, c: LabelMap)
    requires Run(INIT_PIPE, steps, 10) == Some(y) && Quiescent(y) && it == Item(VM, Some(c))
    requires OnlyTarget(y.lists, "static", it)
    requires c in y.store && y.store[c].given == ["mgmt", "ns1"]
    ensures "vm" in y.managed && y.managed["vm"].target.netns == "ns1"
    ensures Get(y.managed["vm"].target.labels, "netns") == "mgmt"
  {
    hide Run, ProviderMap, Serves, Reconcile.Reconciled, OnlyTarget;
    Convergence(steps, 10);
    OnlyOffered(y.lists, "static", it);
    assert "vm" in ProviderMap(y.lists["static"]);
    assert OffersId(y.lists, "vm");
    var u := y.managed["vm"].target;
    assert ServesOffered(y.lists, y.store, "vm", u);
    var p :| p in y.lists && "vm" in ProviderMap(y.lists[p]) && Serves(u, ProviderMap(y.lists[p])["vm"], y.store);
    ServesStale(u, it, c, y.store);
  }

  lemma ServesStale(u: Target, it: Item, c: LabelMap, store: Store)
    requires it == Item(VM, Some(c)) && Serves(u, it, store) && store[c].given == ["mgmt", "ns1"]
    ensures u.netns == "ns1" && Get(u.labels, "netns") == "mgmt"
  {
    hide NormalizeEndpoint;
  }
}
