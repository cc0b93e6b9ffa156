/** The port allocator (internal/pkg/allocator/allocator.go): first-fit over an
    inclusive range, kept as two maps that invert each other. */
module Allocator {
  import opened Text

  // ---- What the allocator holds, as a value --------------------------------------

  datatype Op = Allocate(id: string) | Release(id: string)

  /** Distinct IDs hold distinct ports of the range. */
  ghost predicate Sound(held: map<string, int>, lo: int, hi: int) {
    && (forall id :: id in held ==> lo <= held[id] <= hi)
    && (forall a, b :: a in held && b in held && held[a] == held[b] ==> a == b)
  }

  ghost predicate Taken(held: map<string, int>, port: int) {
    exists id ::
      id in held && held[id] == port
  }

  /** The least port from `lo` up that nobody holds. */
  ghost function FirstFree(held: map<string, int>, lo: int, hi: int): (port: Option<int>)
    ensures port.Some? ==> lo <= port.value <= hi && !Taken(held, port.value)
    ensures forall q :: lo <= q <= hi && (port.None? || q < port.value) ==> Taken(held, q)
    decreases hi - lo
  {
    if lo > hi then None
    else if !Taken(held, lo) then Some(lo)
    else FirstFree(held, lo + 1, hi)
  }

  ghost function Step(held: map<string, int>, op: Op, lo: int, hi: int): map<string, int> {
    match op
    case Allocate(id) =>
      if id in held then held
      else (match FirstFree(held, lo, hi) case None => held case Some(port) => held[id := port])
    case Release(id) => held - {id}
  }

  ghost function Run(held: map<string, int>, ops: seq<Op>, lo: int, hi: int): map<string, int>
    decreases |ops|
  {
    if ops == [] then held else Run(Step(held, ops[0], lo, hi), ops[1..], lo, hi)
  }

  // ---- Laws of every run ------------------------------------------------------------

  lemma StepKeeps(held: map<string, int>, op: Op, lo: int, hi: int)
    requires Sound(held, lo, hi)
    ensures Sound(Step(held, op, lo, hi), lo, hi)
  {
  }

  /** From the empty allocator on, live IDs hold distinct ports of the range. */
  lemma {:induction false} RunKeeps(held: map<string, int>, ops: seq<Op>, lo: int, hi: int)
    requires Sound(held, lo, hi)
    ensures Sound(Run(held, ops, lo, hi), lo, hi)
    decreases |ops|
  {
    if ops != [] {
      StepKeeps(held, ops[0], lo, hi);
      RunKeeps(Step(held, ops[0], lo, hi), ops[1..], lo, hi);
    }
  }

  /** An ID keeps its port until it is released, whatever else happens. */
  lemma {:induction false} KeepsPort(held: map<string, int>, ops: seq<Op>, lo: int, hi: int, id: string)
    requires id in held && Op.Release(id) !in ops
    ensures id in Run(held, ops, lo, hi) && Run(held, ops, lo, hi)[id] == held[id]
    decreases |ops|
  {
    if ops != [] {
      assert ops[0] != Op.Release(id);
      KeepsPort(Step(held, ops[0], lo, hi), ops[1..], lo, hi, id);
    }
  }

  lemma {:induction false} FirstFreeAt(held: map<string, int>, lo: int, hi: int, port: int)
    requires lo <= port <= hi && !Taken(held, port)
    requires forall q :: lo <= q < port ==> Taken(held, q)
    ensures FirstFree(held, lo, hi) == Some(port)
    decreases port - lo
  {
    if lo < port { FirstFreeAt(held, lo + 1, hi, port); }
  }

  lemma AllTaken(held: map<string, int>, lo: int, hi: int)
    requires forall q :: lo <= q <= hi ==> Taken(held, q)
    ensures FirstFree(held, lo, hi).None?
  {
  }

  /** Holding every port of a stretch takes as many IDs. */
  lemma {:induction false} TakenCount(held: map<string, int>, lo: int, n: nat)
    requires forall q :: lo <= q < lo + n ==> Taken(held, q)
    ensures |held| >= n
    decreases n
  {
    if n > 0 {
      assert Taken(held, lo + n - 1);
      var id :| id in held && held[id] == lo + n - 1;
      var rest := held - {id};
      forall q | lo <= q < lo + n - 1 ensures Taken(rest, q) {
        assert Taken(held, q);
        var other :| other in held && held[other] == q;
        assert other in rest && rest[other] == q;
      }
      TakenCount(rest, lo, n - 1);
      assert held.Keys == rest.Keys + {id};
    }
  }

  /** Distinct ports of a range cannot outnumber it. */
  lemma {:induction false} SoundCount(held: map<string, int>, lo: int, n: nat)
    requires Sound(held, lo, lo + n - 1)
    ensures |held| <= n
    decreases n
  {
    if n == 0 {
      assert held.Keys == {};
    } else if Taken(held, lo + n - 1) {
      var id :| id in held && held[id] == lo + n - 1;
      var rest := held - {id};
      SoundCount(rest, lo, n - 1);
      assert held.Keys == rest.Keys + {id};
    } else {
      forall id | id in held ensures held[id] != lo + n - 1 { }
      SoundCount(held, lo, n - 1);
    }
  }

  /** A new ID is refused exactly when as many IDs are live as there are ports. */
  lemma RefusedExactlyWhenFull(held: map<string, int>, lo: int, hi: int)
    requires Sound(held, lo, hi) && lo <= hi
    ensures FirstFree(held, lo, hi).None? <==> |held| == hi - lo + 1
  {
    var port := FirstFree(held, lo, hi);
    SoundCount(held, lo, hi - lo + 1);
    if port.None? {
      TakenCount(held, lo, hi - lo + 1);
    } else {
      var gone := port.value;
      var packed := map id | id in held :: if held[id] > gone then held[id] - 1 else held[id];
      assert forall id :: id in held ==> held[id] != gone;
      SoundCount(packed, lo, hi - lo);
      assert packed.Keys == held.Keys;
    }
  }

  /** The most IDs held at once, from now to the end of a run. */
  ghost function Peak(held: map<string, int>, ops: seq<Op>, lo: int, hi: int): (n: nat)
    ensures n >= |held|
    decreases |ops|
  {
    if ops == [] then |held|
    else
      var later := Peak(Step(held, ops[0], lo, hi), ops[1..], lo, hi);
      if later > |held| then later else |held|
  }

  ghost predicate Below(held: map<string, int>, bound: int) {
    forall id :: id in held ==> held[id] < bound
  }

  lemma StepBelow(held: map<string, int>, op: Op, lo: int, hi: int, peak: nat)
    requires Below(held, lo + peak) && |Step(held, op, lo, hi)| <= peak
    ensures Below(Step(held, op, lo, hi), lo + peak)
  {
    if op.Allocate? && op.id !in held {
      var port := FirstFree(held, lo, hi);
      if port.Some? {
        TakenCount(held, lo, port.value - lo);
        assert Step(held, op, lo, hi).Keys == held.Keys + {op.id};
      }
    }
  }

  /** First fit packs the ports: at no point of a run is a port in use beyond
      start + (the most IDs held at once so far) - 1. */
  lemma {:induction false} HighWater(held: map<string, int>, ops: seq<Op>, lo: int, hi: int, peak: nat)
    requires Below(held, lo + peak) && Peak(held, ops, lo, hi) <= peak
    ensures forall n :: 0 <= n <= |ops| ==> Below(Run(held, ops[..n], lo, hi), lo + peak)
    decreases |ops|
  {
    if ops != [] {
      var next := Step(held, ops[0], lo, hi);
      StepBelow(held, ops[0], lo, hi, peak);
      HighWater(next, ops[1..], lo, hi, peak);
      forall n | 0 < n <= |ops| ensures Below(Run(held, ops[..n], lo, hi), lo + peak) {
        assert ops[..n][1..] == ops[1..][..n - 1];
      }
    }
  }

  lemma HighWaterFromStart(ops: seq<Op>, lo: int, hi: int, n: nat)
    requires n <= |ops|
    ensures Below(Run(map[], ops[..n], lo, hi), lo + Peak(map[], ops, lo, hi))
  {
    HighWater(map[], ops, lo, hi, Peak(map[], ops, lo, hi));
  }

  // ---- Who is live -----------------------------------------------------------------

  /** Step k allocates for `id`, with a port for it: it has one, or one is free. */
  ghost predicate Grants(ops: seq<Op>, lo: int, hi: int, id: string, k: nat) {
    && k < |ops| && ops[k] == Op.Allocate(id)
    && var held := Run(map[], ops[..k], lo, hi); id in held || |held| < hi - lo + 1
  }

  /** Some Allocate of the ID had a port for it, and no Release of it came after. */
  ghost predicate GrantedSince(ops: seq<Op>, lo: int, hi: int, id: string) {
    exists k: nat ::
      Grants(ops, lo, hi, id, k) && Op.Release(id) !in ops[k + 1..]
  }

  lemma {:induction false} RunSnoc(held: map<string, int>, init: seq<Op>, op: Op, lo: int, hi: int)
    ensures Run(held, init + [op], lo, hi) == Step(Run(held, init, lo, hi), op, lo, hi)
    decreases |init|
  {
    hide Step;
    if init == [] {
      assert [] + [op] == [op] && [op][1..] == [];
      assert Run(Step(held, op, lo, hi), [op][1..], lo, hi) == Step(held, op, lo, hi);
    } else {
      assert (init + [op])[1..] == init[1..] + [op];
      RunSnoc(Step(held, init[0], lo, hi), init[1..], op, lo, hi);
    }
  }

  /** What a step does to an ID that is live, or not. */
  lemma StepLive(held: map<string, int>, op: Op, lo: int, hi: int, id: string)
    requires Sound(held, lo, hi) && lo <= hi
    ensures id in Step(held, op, lo, hi) <==>
      if op == Op.Allocate(id) then id in held || |held| < hi - lo + 1 else id in held && op != Op.Release(id)
  {
    hide FirstFree;
    RefusedExactlyWhenFull(held, lo, hi);
    SoundCount(held, lo, hi - lo + 1);
  }

  lemma GrantedSnoc(init: seq<Op>, op: Op, lo: int, hi: int, id: string)
    ensures GrantedSince(init + [op], lo, hi, id) <==>
      Grants(init + [op], lo, hi, id, |init|) || (GrantedSince(init, lo, hi, id) && op != Op.Release(id))
  {
    hide Run;
    var ops := init + [op];
    assert ops[|init| + 1..] == [];
    forall k: nat | k < |init|
      ensures Grants(ops, lo, hi, id, k) <==> Grants(init, lo, hi, id, k)
      ensures ops[k + 1..] == init[k + 1..] + [op]
    {
      assert ops[..k] == init[..k];
    }
  }

  /** After every run: an ID is live exactly if an Allocate of it has succeeded after its
      last Release. */
  lemma {:induction false} LiveExactlyWhen(ops: seq<Op>, lo: int, hi: int, id: string)
    requires lo <= hi
    ensures id in Run(map[], ops, lo, hi) <==> GrantedSince(ops, lo, hi, id)
    decreases |ops|
  {
    if ops != [] {
      var init, op := ops[..|ops| - 1], ops[|ops| - 1];
      assert ops == init + [op] && ops[..|init|] == init;
      LiveExactlyWhen(init, lo, hi, id);
      RunKeeps(map[], init, lo, hi);
      var held := Run(map[], init, lo, hi);
      hide Run, Step, Sound;
      RunSnoc(map[], init, op, lo, hi);
      StepLive(held, op, lo, hi, id);
      GrantedSnoc(init, op, lo, hi, id);
    }
  }

  /** A Release gives the port of its ID back, and takes nothing from the others. */
  lemma ReleaseFrees(ops: seq<Op>, lo: int, hi: int, id: string)
    requires id in Run(map[], ops, lo, hi)
    ensures var held, after := Run(map[], ops, lo, hi), Run(map[], ops + [Op.Release(id)], lo, hi);
      && id !in after && !Taken(after, held[id])
      && forall other :: other != id ==>
           (other in after <==> other in held) && (other in held ==> after[other] == held[other])
  {
    RunSnoc(map[], ops, Op.Release(id), lo, hi);
    RunKeeps(map[], ops, lo, hi);
    hide Run, FirstFree;
  }

  /** When all ports are held, a new ID that comes right after a Release gets the port
      that was released. */
  lemma ReleasedIsReused(ops: seq<Op>, lo: int, hi: int, id: string, next: string)
    requires lo <= hi && |Run(map[], ops, lo, hi)| == hi - lo + 1
    requires id in Run(map[], ops, lo, hi) && next !in Run(map[], ops, lo, hi)
    ensures var held := Run(map[], ops, lo, hi);
      var after := Run(map[], ops + [Op.Release(id)] + [Op.Allocate(next)], lo, hi);
      next in after && after[next] == held[id]
  {
    var held := Run(map[], ops, lo, hi);
    RunKeeps(map[], ops, lo, hi);
    RunSnoc(map[], ops, Op.Release(id), lo, hi);
    RunSnoc(map[], ops + [Op.Release(id)], Op.Allocate(next), lo, hi);
    hide Run;
    RefusedExactlyWhenFull(held, lo, hi);
    var rest := held - {id};
    forall q | lo <= q < held[id] ensures Taken(rest, q) {
      assert Taken(held, q);
      var other :| other in held && held[other] == q;
      assert other in rest && rest[other] == q;
    }
    FirstFreeAt(rest, lo, hi, held[id]);
  }

  // ---- The allocator itself ---------------------------------------------------------

  datatype Created = Created(allocator: PortAllocator) | InvalidRange

  class PortAllocator {
    const startPort: int
    const endPort: int
    var portOf: map<string, int>
    var usedPorts: map<int, string>

    /** Each of the two maps is the other one read backwards. */
    ghost predicate Valid()
      reads this
    {
      && 0 < startPort <= endPort
      && Sound(portOf, startPort, endPort)
      && (forall id :: id in portOf ==> portOf[id] in usedPorts && usedPorts[portOf[id]] == id)
      && (forall port :: port in usedPorts ==> usedPorts[port] in portOf && portOf[usedPorts[port]] == port)
    }

    constructor (startPort: int, endPort: int)
      requires 0 < startPort <= endPort
      ensures Valid() && portOf == map[] && this.startPort == startPort && this.endPort == endPort
    {
      this.startPort, this.endPort := startPort, endPort;
      portOf, usedPorts := map[], map[];
    }

    /** The port of `id`; a new ID gets the least free port, and none when the
        range is exhausted, which is when its ports are all held. */
    method Allocate(id: string) returns (port: Option<int>)
      requires Valid()
      modifies this
      ensures Valid() && portOf == Step(old(portOf), Op.Allocate(id), startPort, endPort)
      ensures port == if id in portOf then Some(portOf[id]) else None
      ensures forall other :: other != id ==>
        (other in portOf <==> other in old(portOf)) && (other in portOf ==> portOf[other] == old(portOf)[other])
      ensures port.None? <==> id !in old(portOf) && |old(portOf)| == endPort - startPort + 1
    {
      hide Taken, FirstFree;
      RefusedExactlyWhenFull(portOf, startPort, endPort);
      if id in portOf {
        return Some(portOf[id]);
      }
      UsedIsTaken();
      var p := startPort;
      while p <= endPort
        invariant startPort <= p <= endPort + 1
        invariant forall q :: startPort <= q < p ==> Taken(portOf, q)
        invariant portOf == old(portOf) && usedPorts == old(usedPorts)
      {
        if p !in usedPorts {
          FirstFreeAt(portOf, startPort, endPort, p);
          Assign(id, p);
          return Some(p);
        }
        p := p + 1;
      }
      AllTaken(portOf, startPort, endPort);
      return None;
    }

    method Assign(id: string, port: int)
      requires Valid() && id !in portOf && port !in usedPorts && startPort <= port <= endPort
      modifies this
      ensures Valid() && portOf == old(portOf)[id := port]
    {
      portOf := portOf[id := port];
      usedPorts := usedPorts[port := id];
    }

    lemma UsedIsTaken()
      requires Valid()
      ensures forall q :: q in usedPorts <==> Taken(portOf, q)
    {
      forall q | q in usedPorts ensures Taken(portOf, q) {
        assert portOf[usedPorts[q]] == q;
      }
    }

    method Release(id: string)
      requires Valid()
      modifies this
      ensures Valid() && portOf == Step(old(portOf), Op.Release(id), startPort, endPort)
      ensures id !in portOf && (id in old(portOf) ==> old(portOf)[id] !in usedPorts)
      ensures forall other :: other != id ==>
        (other in portOf <==> other in old(portOf)) && (other in portOf ==> portOf[other] == old(portOf)[other])
    {
      if id in portOf {
        var port := portOf[id];
        portOf := portOf - {id};
        usedPorts := usedPorts - {port};
      } else {
        assert portOf - {id} == portOf;
      }
    }

    method Get(id: string) returns (port: Option<int>)
      requires Valid()
      ensures port.Some? <==> id in portOf
      ensures port.Some? ==>
        startPort <= port.value <= endPort && port.value in usedPorts && usedPorts[port.value] == id
    {
      port := if id in portOf then Some(portOf[id]) else None;
    }
  }

  /** NewPortAllocator: a range must be positive and not empty. */
  method NewPortAllocator(startPort: int, endPort: int) returns (r: Created)
    ensures r.InvalidRange? <==> startPort <= 0 || endPort <= 0 || startPort > endPort
    ensures r.Created? ==> fresh(r.allocator) && r.allocator.Valid() && r.allocator.portOf == map[]
    ensures r.Created? ==> r.allocator.startPort == startPort && r.allocator.endPort == endPort
  {
    if startPort <= 0 || endPort <= 0 || startPort > endPort {
      return InvalidRange;
    }
    var a := new PortAllocator(startPort, endPort);
    return Created(a);
  }
}
