/** The label maps of targets, which copies of a target share, and what the consumer
    of the pipeline writes into them (pkg/cmd/app.go). */
module Labels {
  import opened Text
  import opened Config

  /** A Go map of labels: every copy of a target refers to the same one. */
  class LabelMap {
    var entries: map<string, string>

    constructor (entries: map<string, string>)
      ensures this.entries == entries
    {
      this.entries := entries;
    }
  }

  /** A copy of a target, with its labels as they were when it was published, and the
      map that holds them; None is Go's nil map. */
  datatype Item = Item(target: Target, labels: Option<LabelMap>)

  /** What is known of a label map: the target it was published with, its entries now,
      and the namespaces that target was given by the deliveries so far. */
  datatype Cell = Cell(origin: Target, entries: map<string, string>, given: seq<string>)

  type Store = map<LabelMap, Cell>

  /** A target as its copies show it now. */
  function Now(it: Item, store: Store): Target {
    if it.labels.Some? && it.labels.value in store then it.target.(labels := store[it.labels.value].entries)
    else it.target
  }

  // ---- One target ------------------------------------------------------------------

  function Get(labels: map<string, string>, name: string): string {
    if name in labels then labels[name] else ""
  }

  function WithDefault(labels: map<string, string>, name: string, value: string): map<string, string> {
    if value != "" && Get(labels, name) == "" then labels[name := value] else labels
  }

  /** `ns` is what the resolver says, should it be asked. */
  function Enriched(t: Target, ns: string): Target {
    var netns := if t.netns == "" then ns else t.netns;
    t.(netns := netns, labels := WithDefault(WithDefault(t.labels, "tenant", t.tenant), "netns", netns))
  }

  /** A nonempty label of the target wins over its tenant and namespace, these win over
      nothing; no other label is touched. */
  lemma EnrichedLabels(t: Target, ns: string)
    ensures var r := Enriched(t, ns);
      && r == t.(netns := if t.netns != "" then t.netns else ns, labels := r.labels)
      && Get(r.labels, "tenant") == (if Get(t.labels, "tenant") != "" then Get(t.labels, "tenant") else t.tenant)
      && Get(r.labels, "netns") == (if Get(t.labels, "netns") != "" then Get(t.labels, "netns") else r.netns)
      && forall k :: k != "tenant" && k != "netns" ==>
           (k in r.labels <==> k in t.labels) && (k in t.labels ==> r.labels[k] == t.labels[k])
  {
  }

  /** Enriching a target twice is enriching it once, while the resolver's answer is the same. */
  lemma EnrichedTwice(t: Target, ns: string)
    ensures Enriched(Enriched(t, ns), ns) == Enriched(t, ns)
    ensures Enriched(t, ns) == Enriched(t, Enriched(t, ns).netns)
  {
  }

  // ---- One target, delivered again and again ---------------------------------------------

  function FirstNonempty(ns: seq<string>): string {
    if ns == [] then "" else if ns[0] != "" then ns[0] else FirstNonempty(ns[1..])
  }

  lemma {:induction false} FirstNonemptySnoc(ns: seq<string>, n: string)
    ensures FirstNonempty(ns + [n]) == if FirstNonempty(ns) != "" then FirstNonempty(ns) else n
  {
    if ns == [] {
      assert [] + [n] == [n] && [n][1..] == [];
      assert FirstNonempty([n][1..]) == "";
    } else {
      assert (ns + [n])[1..] == ns[1..] + [n];
      FirstNonemptySnoc(ns[1..], n);
    }
  }

  /** What is in a target's label map after deliveries that gave it these namespaces:
      its tenant, and the first of them that is not empty, where it had no such label. */
  function Written(t: Target, given: seq<string>): map<string, string> {
    if given == [] then t.labels
    else WithDefault(WithDefault(t.labels, "tenant", t.tenant), "netns", FirstNonempty(given))
  }

  /** One more delivery writes into what the earlier ones have left. */
  lemma WrittenAgain(t: Target, given: seq<string>, ns: string)
    ensures var r := Enriched(t.(labels := Written(t, given)), ns);
      r.labels == Written(t, given + [r.netns])
  {
    var n := Enriched(t.(labels := Written(t, given)), ns).netns;
    FirstNonemptySnoc(given, n);
    if given == [] { assert [] + [n] == [n]; }
  }

  /** The namespace label tells the namespace exactly if the target brought that very
      label, or brought none and either has its own namespace or was given the last
      one first. */
  lemma LabelTellsExactlyWhen(t: Target, given: seq<string>)
    requires given != []
    ensures Get(Written(t, given), "netns") == given[|given| - 1]
       <==> if Get(t.labels, "netns") != "" then Get(t.labels, "netns") == given[|given| - 1]
            else FirstNonempty(given) == given[|given| - 1]
  {
  }

  lemma {:induction false} SameGiven(given: seq<string>, n: string)
    requires forall k :: 0 <= k < |given| ==> given[k] == n
    ensures given != [] ==> FirstNonempty(given) == n
  {
    if |given| > 1 && given[0] == "" { SameGiven(given[1..], n); }
  }

  // ---- All targets of a snapshot -----------------------------------------------------------

  /** The label maps of a snapshot are all different. */
  ghost predicate Apart(s: seq<Item>) {
    forall i, j :: 0 <= i < j < |s| && s[i].labels.Some? ==> s[i].labels != s[j].labels
  }

  function EnrichedAll(s: seq<Item>, store: Store, resolve: Target -> string): (r: seq<Target>)
    ensures |r| == |s| && forall i :: 0 <= i < |s| ==> r[i] == Enriched(Now(s[i], store), resolve(Now(s[i], store)))
  {
    seq(|s|, i requires 0 <= i < |s| => Enriched(Now(s[i], store), resolve(Now(s[i], store))))
  }

  /** What the deliveries of `r` leave in the label maps of `s`. */
  function WriteBack(s: seq<Item>, r: seq<Target>, store: Store): (after: Store)
    requires |r| == |s|
    ensures after.Keys == store.Keys && forall c :: c in store ==> after[c].origin == store[c].origin
  {
    if s == [] then store
    else
      var n := |s| - 1;
      var before := WriteBack(s[..n], r[..n], store);
      if s[n].labels.Some? && s[n].labels.value in store then
        var c := s[n].labels.value;
        before[c := Cell(before[c].origin, r[n].labels, before[c].given + [r[n].netns])]
      else before
  }

  lemma {:induction false} WriteBackElsewhere(s: seq<Item>, r: seq<Target>, store: Store, c: LabelMap)
    requires |r| == |s| && c in store && forall i :: 0 <= i < |s| ==> s[i].labels != Some(c)
    ensures WriteBack(s, r, store)[c] == store[c]
  {
    if s != [] {
      WriteBackElsewhere(s[..|s| - 1], r[..|s| - 1], store, c);
    }
  }

  lemma {:induction false} WriteBackAt(s: seq<Item>, r: seq<Target>, store: Store, i: nat)
    requires |r| == |s| && i < |s| && Apart(s) && s[i].labels.Some? && s[i].labels.value in store
    ensures var c := s[i].labels.value;
      WriteBack(s, r, store)[c] == Cell(store[c].origin, r[i].labels, store[c].given + [r[i].netns])
  {
    var n := |s| - 1;
    if i == n {
      WriteBackElsewhere(s[..n], r[..n], store, s[i].labels.value);
    } else {
      WriteBackAt(s[..n], r[..n], store, i);
      assert s[n].labels != s[i].labels;
    }
  }

  /** A published target's label map is on record with it. */
  ghost predicate Recorded(it: Item, store: Store) {
    match it.labels
    case None => it.target.labels == map[]
    case Some(c) => c in store && store[c].origin == it.target
  }

  /** Every label map holds what its deliveries have written. */
  ghost predicate Sound(store: Store) {
    forall c :: c in store ==>
      && store[c].entries == Written(store[c].origin, store[c].given)
      && (store[c].origin.netns != "" ==>
            forall k :: 0 <= k < |store[c].given| ==> store[c].given[k] == store[c].origin.netns)
  }

  lemma CellAfter(it: Item, store: Store, ns: string)
    requires Sound(store) && Recorded(it, store) && it.labels.Some?
    ensures var c, r := store[it.labels.value], Enriched(Now(it, store), ns);
      && r.labels == Written(c.origin, c.given + [r.netns])
      && (c.origin.netns != "" ==> r.netns == c.origin.netns)
  {
    var c := store[it.labels.value];
    assert Now(it, store) == c.origin.(labels := Written(c.origin, c.given));
    WrittenAgain(c.origin, c.given, ns);
  }

  lemma WriteBackSound(s: seq<Item>, store: Store, resolve: Target -> string)
    requires Sound(store) && Apart(s) && forall i :: 0 <= i < |s| ==> Recorded(s[i], store)
    ensures Sound(WriteBack(s, EnrichedAll(s, store, resolve), store))
  {
    hide Written, Enriched, Now, WriteBack, EnrichedAll, FirstNonempty;
    var r := EnrichedAll(s, store, resolve);
    var after := WriteBack(s, r, store);
    forall c | c in after
      ensures after[c].entries == Written(after[c].origin, after[c].given)
      ensures after[c].origin.netns != "" ==>
        forall k :: 0 <= k < |after[c].given| ==> after[c].given[k] == after[c].origin.netns
    {
      if i :| 0 <= i < |s| && s[i].labels == Some(c) {
        WriteBackAt(s, r, store, i);
        CellAfter(s[i], store, resolve(Now(s[i], store)));
      } else {
        WriteBackElsewhere(s, r, store, c);
      }
    }
  }
}
