/** The protocol of lru_map_impl (src/terark/lru_map.hpp) for any number of threads: every section
    executed under the lock is one event, and so are the two unlocked accesses to the solve state
    of a node.  A thread that holds several values counts as that many threads. */
module LruProtocol {

  import opened Sequences

  type Key = string
  type Tid = nat

  datatype Solve = InProgress(solver: Tid) | Failed | Done

  /** An entry that the hash table finds; `released` is the time it last became idle. */
  datatype Node = Node(key: Key, solve: Solve, refs: nat, released: nat)

  /** What a thread between two events is in the middle of. */
  datatype Phase =
    | Solver(slot: nat)            // computing the value, outside the lock
    | Waiter(slot: nat)            // waiting for another thread's value
    | Holder(slot: nat)            // has the value and will release it
    | Failing(slot: nat)           // knows that the value failed and will drop its count
    | Evictor(slot: nat, key: Key) // destroying a victim outside the lock, to make room for `key`

  /** `ring` lists the idle nodes, the most recently released first; `free` is the free list of the
      hash table, whose slots below `nElem` are in use. */
  datatype State = State(cap: nat, nodes: map<nat, Node>, free: seq<nat>, nElem: nat, ring: seq<nat>,
                         threads: map<Tid, Phase>, clock: nat)

  datatype Event =
    | Miss(t: Tid, k: Key)
    | Join(t: Tid, k: Key, x: nat)
    | Refuse(t: Tid, k: Key, x: nat)
    | Hit(t: Tid, k: Key, x: nat)
    | AddNew(t: Tid, k: Key)
    | EvictStart(t: Tid, k: Key)
    | EvictEnd(t: Tid)
    | SolveEnd(t: Tid, ok: bool)
    | WaitEnd(t: Tid)
    | Drop(t: Tid)
    | Release(t: Tid)

  ghost predicate Finds(s: State, k: Key, x: nat) {
    x in s.nodes && s.nodes[x].key == k
  }

  ghost predicate Absent(s: State, k: Key) {
    forall x :: x in s.nodes ==> s.nodes[x].key != k
  }

  /** The elements of the table, victims included. */
  ghost function Size(s: State): int {
    s.nElem - |s.free|
  }

  ghost predicate Enabled(s: State, e: Event) {
    match e
    case Miss(t, k) => t !in s.threads && Absent(s, k)
    case Join(t, k, x) => t !in s.threads && Finds(s, k, x) && s.nodes[x].solve.InProgress?
    case Refuse(t, k, x) => t !in s.threads && Finds(s, k, x) && s.nodes[x].solve.Failed?
    case Hit(t, k, x) => t !in s.threads && Finds(s, k, x) && s.nodes[x].solve.Done?
    case AddNew(t, k) => t !in s.threads && Absent(s, k) && Size(s) < s.cap
    case EvictStart(t, k) => t !in s.threads && Absent(s, k) && Size(s) >= s.cap && s.ring != []
    case EvictEnd(t) => t in s.threads && s.threads[t].Evictor?
    case SolveEnd(t, ok) => t in s.threads && s.threads[t].Solver? && s.threads[t].slot in s.nodes
    case WaitEnd(t) =>
      t in s.threads && s.threads[t].Waiter? && s.threads[t].slot in s.nodes &&
        !s.nodes[s.threads[t].slot].solve.InProgress?
    case Drop(t) =>
      t in s.threads && s.threads[t].Failing? && s.threads[t].slot in s.nodes && s.nodes[s.threads[t].slot].refs > 0
    case Release(t) =>
      t in s.threads && s.threads[t].Holder? && s.threads[t].slot in s.nodes && s.nodes[s.threads[t].slot].refs > 0
  }

  ghost function Without(s: seq<nat>, x: nat): seq<nat> {
    if s == [] then [] else if s[0] == x then s[1..] else [s[0]] + Without(s[1..], x)
  }

  /** Links a new node for `k` in a slot; the thread becomes its solver. */
  ghost function Link(s: State, t: Tid, k: Key): State {
    var x := if s.free == [] then s.nElem else s.free[0];
    s.(nodes := s.nodes[x := Node(k, InProgress(t), 1, 0)],
       free := if s.free == [] then [] else s.free[1..],
       nElem := if s.free == [] then s.nElem + 1 else s.nElem,
       threads := s.threads[t := Solver(x)])
  }

  /** One more thread counted on node `x`. */
  ghost function Count(s: State, x: nat, t: Tid, p: Phase): State
    requires x in s.nodes
  {
    s.(nodes := s.nodes[x := s.nodes[x].(refs := s.nodes[x].refs + 1)],
       ring := Without(s.ring, x),
       threads := s.threads[t := p])
  }

  ghost function Next(s: State, e: Event): State
    requires Enabled(s, e)
  {
    match e
    case Miss(t, k) => s
    case Join(t, k, x) => Count(s, x, t, Waiter(x))
    case Refuse(t, k, x) => s
    case Hit(t, k, x) => Count(s, x, t, Holder(x))
    case AddNew(t, k) => Link(s, t, k)
    case EvictStart(t, k) =>
      var x := s.ring[|s.ring| - 1];
      s.(nodes := s.nodes - {x}, ring := s.ring[..|s.ring| - 1], threads := s.threads[t := Evictor(x, k)])
    case EvictEnd(t) =>
      // the key is not looked up again
      Link(s.(free := [s.threads[t].slot] + s.free, threads := s.threads - {t}), t, s.threads[t].key)
    case SolveEnd(t, ok) =>
      var x := s.threads[t].slot;
      s.(nodes := s.nodes[x := s.nodes[x].(solve := if ok then Done else Failed)],
         threads := s.threads[t := if ok then Holder(x) else Failing(x)])
    case WaitEnd(t) =>
      var x := s.threads[t].slot;
      s.(threads := s.threads[t := if s.nodes[x].solve.Done? then Holder(x) else Failing(x)])
    case Drop(t) =>
      var x := s.threads[t].slot;
      var s1 := s.(threads := s.threads - {t});
      if s.nodes[x].refs == 1 then
        s1.(nodes := s.nodes - {x}, free := [x] + s.free)
      else
        s1.(nodes := s.nodes[x := s.nodes[x].(refs := s.nodes[x].refs - 1)])
    case Release(t) =>
      var x := s.threads[t].slot;
      var n := s.nodes[x].(refs := s.nodes[x].refs - 1);
      var s1 := s.(threads := s.threads - {t});
      if n.refs == 0 then
        s1.(nodes := s.nodes[x := n.(released := s.clock)], ring := [x] + s.ring, clock := s.clock + 1)
      else
        s1.(nodes := s.nodes[x := n])
  }

  ghost function Init(cap: nat): State {
    State(cap, map[], [], 0, [], map[], 0)
  }

  ghost predicate Runs(s: State, es: seq<Event>)
    decreases |es|
  {
    es == [] || (Enabled(s, es[0]) && Runs(Next(s, es[0]), es[1..]))
  }

  ghost function After(s: State, es: seq<Event>): State
    requires Runs(s, es)
    decreases |es|
  {
    if es == [] then s else After(Next(s, es[0]), es[1..])
  }

  // ------------------------------------------------------------------ the invariant

  ghost predicate Uses(p: Phase, x: nat) {
    !p.Evictor? && p.slot == x
  }

  /** The threads solving, waiting for, holding or about to drop node `x`. */
  ghost function Users(threads: map<Tid, Phase>, x: nat): set<Tid> {
    set t | t in threads && Uses(threads[t], x)
  }

  ghost function Evictors(threads: map<Tid, Phase>): set<Tid> {
    set t | t in threads && threads[t].Evictor?
  }

  ghost predicate Counted(nodes: map<nat, Node>, threads: map<Tid, Phase>) {
    forall x :: x in nodes ==> nodes[x].refs == |Users(threads, x)|
  }

  ghost predicate Fits(nodes: map<nat, Node>, free: seq<nat>, nElem: nat, t: Tid, p: Phase) {
    match p
    case Solver(x) => x in nodes && nodes[x].solve == InProgress(t)
    case Waiter(x) => x in nodes
    case Holder(x) => x in nodes && nodes[x].solve == Done
    case Failing(x) => x in nodes && nodes[x].solve == Failed
    case Evictor(x, _) => x !in nodes && x !in free && x < nElem
  }

  ghost predicate Phases(s: State) {
    && (forall t :: t in s.threads ==> Fits(s.nodes, s.free, s.nElem, t, s.threads[t]))
    && (forall t, u :: t in s.threads && u in s.threads && t != u && s.threads[t].Evictor? && s.threads[u].Evictor? ==>
          s.threads[t].slot != s.threads[u].slot)
  }

  ghost predicate SolvedAt(nodes: map<nat, Node>, threads: map<Tid, Phase>, x: nat)
    requires x in nodes
  {
    && (nodes[x].solve.InProgress? ==> nodes[x].solve.solver in threads && threads[nodes[x].solve.solver] == Solver(x))
    && (!nodes[x].solve.Done? ==> nodes[x].refs > 0)
  }

  ghost predicate Solved(nodes: map<nat, Node>, threads: map<Tid, Phase>) {
    forall x :: x in nodes ==> SolvedAt(nodes, threads, x)
  }

  ghost predicate Idle(nodes: map<nat, Node>, x: nat) {
    x in nodes && nodes[x].solve.Done? && nodes[x].refs == 0
  }

  ghost predicate Ring(nodes: map<nat, Node>, ring: seq<nat>) {
    && NoDup(ring)
    && (forall x :: x in ring <==> Idle(nodes, x))
  }

  /** The ring is ordered by the time of the last release. */
  ghost predicate Recent(nodes: map<nat, Node>, ring: seq<nat>, clock: nat) {
    && (forall x :: x in ring ==> x in nodes && nodes[x].released < clock)
    && (forall i, j :: 0 <= i < j < |ring| && ring[i] in nodes && ring[j] in nodes ==>
          nodes[ring[j]].released < nodes[ring[i]].released)
  }

  /** Slots are linked, free or being evicted, within the reserved capacity. */
  ghost predicate Storage(s: State) {
    && s.nElem <= s.cap
    && NoDup(s.free)
    && (forall x :: x in s.free ==> x < s.nElem && x !in s.nodes)
    && (forall x :: x in s.nodes ==> x < s.nElem)
    && s.nElem == |s.nodes| + |s.free| + |Evictors(s.threads)|
  }

  ghost predicate Inv(s: State) {
    && Counted(s.nodes, s.threads)
    && Phases(s)
    && Solved(s.nodes, s.threads)
    && Ring(s.nodes, s.ring)
    && Recent(s.nodes, s.ring, s.clock)
    && Storage(s)
  }

  // ------------------------------------------------------------------ every event keeps it

  ghost function Bit(b: bool): int {
    if b then 1 else 0
  }

  /** A set that differs from another at most in one element. */
  lemma CardAt(a: set<Tid>, b: set<Tid>, t: Tid)
    requires a - {t} == b - {t}
    ensures |a| - Bit(t in a) == |b| - Bit(t in b)
  {
    CardMinus(a, t);
    CardMinus(b, t);
  }

  lemma CardMinus(a: set<Tid>, t: Tid)
    ensures |a| == |a - {t}| + Bit(t in a)
  {
    if t in a { assert a == a - {t} + {t}; } else { assert a == a - {t}; }
  }

  lemma UsersSet(threads: map<Tid, Phase>, t: Tid, p: Phase, x: nat)
    ensures |Users(threads[t := p], x)| == |Users(threads, x)| - Bit(t in Users(threads, x)) + Bit(Uses(p, x))
  {
    assert Users(threads[t := p], x) - {t} == Users(threads, x) - {t};
    assert t in Users(threads[t := p], x) <==> Uses(p, x);
    hide Users, Uses;
    CardAt(Users(threads[t := p], x), Users(threads, x), t);
  }

  lemma UsersDrop(threads: map<Tid, Phase>, t: Tid, x: nat)
    ensures |Users(threads - {t}, x)| == |Users(threads, x)| - Bit(t in Users(threads, x))
  {
    assert Users(threads - {t}, x) - {t} == Users(threads, x) - {t};
    CardAt(Users(threads - {t}, x), Users(threads, x), t);
  }

  lemma EvictorsSet(threads: map<Tid, Phase>, t: Tid, p: Phase)
    ensures |Evictors(threads[t := p])| == |Evictors(threads)| - Bit(t in Evictors(threads)) + Bit(p.Evictor?)
  {
    assert Evictors(threads[t := p]) - {t} == Evictors(threads) - {t};
    assert t in Evictors(threads[t := p]) <==> p.Evictor?;
    hide Evictors;
    CardAt(Evictors(threads[t := p]), Evictors(threads), t);
  }

  lemma EvictorsDrop(threads: map<Tid, Phase>, t: Tid)
    ensures |Evictors(threads - {t})| == |Evictors(threads)| - Bit(t in Evictors(threads))
  {
    assert Evictors(threads - {t}) - {t} == Evictors(threads) - {t};
    CardAt(Evictors(threads - {t}), Evictors(threads), t);
  }

  /** Nobody counts on a slot that is not linked. */
  lemma NoUsers(s: State, x: nat)
    requires Phases(s) && x !in s.nodes
    ensures Users(s.threads, x) == {}
  {
    forall t | t in s.threads ensures !Uses(s.threads[t], x) {
      assert Fits(s.nodes, s.free, s.nElem, t, s.threads[t]);
    }
  }

  lemma {:induction false} WithoutIn(s: seq<nat>, x: nat)
    requires NoDup(s)
    ensures forall y :: y in Without(s, x) <==> y in s && y != x
  {
    if s != [] {
      TailNoDup(s);
      if s[0] != x {
        WithoutIn(s[1..], x);
        assert forall y :: y in s <==> y == s[0] || y in s[1..];
      }
    }
  }

  lemma TailNoDup(s: seq<nat>)
    requires NoDup(s) && s != []
    ensures NoDup(s[1..]) && s[0] !in s[1..]
    ensures forall y :: y in s <==> y == s[0] || y in s[1..]
  {
  }

  lemma ConsNoDup(x: nat, s: seq<nat>)
    requires NoDup(s) && x !in s
    ensures NoDup([x] + s)
  {
  }

  lemma {:induction false} WithoutNoDup(s: seq<nat>, x: nat)
    requires NoDup(s)
    ensures NoDup(Without(s, x))
  {
    if s != [] {
      TailNoDup(s);
      if s[0] != x {
        WithoutNoDup(s[1..], x);
        WithoutIn(s[1..], x);
        ConsNoDup(s[0], Without(s[1..], x));
      }
    }
  }

  lemma {:induction false} WithoutAbsent(s: seq<nat>, x: nat)
    requires x !in s
    ensures Without(s, x) == s
  {
    if s != [] { WithoutAbsent(s[1..], x); }
  }

  lemma CountedKept(s: State, e: Event)
    requires Inv(s) && Enabled(s, e)
    ensures Counted(Next(s, e).nodes, Next(s, e).threads)
  {
    forall x | x in Next(s, e).nodes ensures Next(s, e).nodes[x].refs == |Users(Next(s, e).threads, x)| {
      CountedAt(s, e, x);
    }
  }

  lemma CountedAt(s: State, e: Event, x: nat)
    requires Inv(s) && Enabled(s, e) && x in Next(s, e).nodes
    ensures Next(s, e).nodes[x].refs == |Users(Next(s, e).threads, x)|
  {
    if x == Target(s, e) {
      CountedTarget(s, e);
    } else {
      Untouched(s, e, x);
      assert Users(Next(s, e).threads, x) == Users(s.threads, x);
    }
  }

  lemma CountedTarget(s: State, e: Event)
    requires Inv(s) && Enabled(s, e) && Target(s, e) in Next(s, e).nodes
    ensures Next(s, e).nodes[Target(s, e)].refs == |Users(Next(s, e).threads, Target(s, e))|
  {
    hide Users, Inv, Without, Absent;
    UsersChange(s, e, Target(s, e));
    TargetRefs(s, e);
  }

  /** The threads after an event. */
  lemma ThreadsForm(s: State, e: Event)
    requires Enabled(s, e)
    ensures Next(s, e).threads == if e.t in Next(s, e).threads then s.threads[e.t := Next(s, e).threads[e.t]]
      else s.threads - {e.t}
  {
  }

  lemma UsersChange(s: State, e: Event, x: nat)
    requires Inv(s) && Enabled(s, e)
    ensures |Users(Next(s, e).threads, x)| == (if x in s.nodes then s.nodes[x].refs else 0)
      - Bit(e.t in s.threads && Uses(s.threads[e.t], x))
      + Bit(e.t in Next(s, e).threads && Uses(Next(s, e).threads[e.t], x))
  {
    if x !in s.nodes { NoUsers(s, x); }
    ThreadsForm(s, e);
    assert x in s.nodes ==> s.nodes[x].refs == |Users(s.threads, x)|;
    hide Users, Inv, Next, Enabled;
    InUsers(s.threads, e.t, x);
    if e.t in Next(s, e).threads {
      UsersSet(s.threads, e.t, Next(s, e).threads[e.t], x);
    } else {
      UsersDrop(s.threads, e.t, x);
    }
  }

  lemma TargetRefs(s: State, e: Event)
    requires Inv(s) && Enabled(s, e) && Target(s, e) in Next(s, e).nodes
    ensures var x := Target(s, e);
      Next(s, e).nodes[x].refs == (if x in s.nodes then s.nodes[x].refs else 0)
        - Bit(e.t in s.threads && Uses(s.threads[e.t], x))
        + Bit(e.t in Next(s, e).threads && Uses(Next(s, e).threads[e.t], x))
  {
    hide Users, Inv, Without, Absent;
    Facts(s, e);
    if e.t !in s.threads && !e.Miss? && !e.Refuse? { assert e.t in Next(s, e).threads; }
  }

  lemma InUsers(threads: map<Tid, Phase>, t: Tid, x: nat)
    ensures t in Users(threads, x) <==> t in threads && Uses(threads[t], x)
  {
  }

  /** The slot that `Link` takes is not in use. */
  lemma AllocFresh(s: State)
    requires Phases(s) && Storage(s)
    ensures var x := if s.free == [] then s.nElem else s.free[0];
      x !in s.nodes && (s.free != [] ==> x !in s.free[1..])
  {
    if s.free != [] { TailNoDup(s.free); }
  }

  /** A node with more than one thread on it, or with a thread in the given phase, is not idle. */
  lemma UsedRefs(s: State, t: Tid)
    requires Inv(s) && t in s.threads && !s.threads[t].Evictor?
    ensures s.threads[t].slot in s.nodes && s.nodes[s.threads[t].slot].refs > 0
  {
    assert Fits(s.nodes, s.free, s.nElem, t, s.threads[t]);
    InUsers(s.threads, t, s.threads[t].slot);
  }

  /** Two threads on a node are two of its counts. */
  lemma TwoUsers(s: State, t: Tid, u: Tid, x: nat)
    requires Inv(s) && t != u && t in s.threads && u in s.threads && Uses(s.threads[t], x) && Uses(s.threads[u], x)
    ensures x in s.nodes && s.nodes[x].refs > 1
  {
    UsedRefs(s, t);
    InUsers(s.threads, t, x);
    InUsers(s.threads, u, x);
    assert {t, u} <= Users(s.threads, x);
    SubsetCard({t, u}, Users(s.threads, x));
  }

  lemma SubsetCard(a: set<Tid>, b: set<Tid>)
    requires a <= b
    ensures |a| <= |b|
  {
    assert b == a + (b - a);
  }

  /** What the invariant says about the thread of an event, the victim and the slot to be taken. */
  lemma Facts(s: State, e: Event)
    requires Inv(s) && Enabled(s, e)
    ensures e.t in s.threads ==> Fits(s.nodes, s.free, s.nElem, e.t, s.threads[e.t])
    ensures e.t in s.threads && !s.threads[e.t].Evictor? ==>
      s.threads[e.t].slot in s.nodes && s.nodes[s.threads[e.t].slot].refs > 0
    ensures e.EvictStart? ==> s.ring[|s.ring| - 1] in s.ring && Idle(s.nodes, s.ring[|s.ring| - 1])
    ensures e.EvictStart? ==> s.ring[|s.ring| - 1] !in s.free && s.ring[|s.ring| - 1] < s.nElem
    ensures var x := if s.free == [] then s.nElem else s.free[0];
      x !in s.nodes && (s.free != [] ==> x !in s.free[1..])
    ensures s.free != [] ==> s.free[0] < s.nElem
  {
    AllocFresh(s);
    if e.EvictStart? { assert s.ring[|s.ring| - 1] in s.ring; }
    if e.t in s.threads {
      assert Fits(s.nodes, s.free, s.nElem, e.t, s.threads[e.t]);
      if !s.threads[e.t].Evictor? { UsedRefs(s, e.t); }
    }
  }

  /** The slot an event is about. */
  ghost function Target(s: State, e: Event): nat
    requires Enabled(s, e)
  {
    match e
    case Miss(_, _) => 0
    case Refuse(_, _, x) => x
    case Join(_, _, x) => x
    case Hit(_, _, x) => x
    case AddNew(_, _) => if s.free == [] then s.nElem else s.free[0]
    case EvictStart(_, _) => s.ring[|s.ring| - 1]
    case _ => s.threads[e.t].slot
  }

  lemma Untouched(s: State, e: Event, x: nat)
    requires Enabled(s, e) && x != Target(s, e)
    ensures x in Next(s, e).nodes <==> x in s.nodes
    ensures x in s.nodes ==> Next(s, e).nodes[x] == s.nodes[x]
    ensures e.t in s.threads ==> !Uses(s.threads[e.t], x)
    ensures forall u :: u in s.threads && Uses(s.threads[u], x) <==>
      u in Next(s, e).threads && Uses(Next(s, e).threads[u], x)
  {
  }

  /** The thread of the event. */
  lemma OwnFits(s: State, e: Event)
    requires Inv(s) && Enabled(s, e) && e.t in Next(s, e).threads
    ensures var s' := Next(s, e); Fits(s'.nodes, s'.free, s'.nElem, e.t, s'.threads[e.t])
  {
    hide Inv, Absent, NoDup, Without;
    Facts(s, e);
  }

  /** Any other thread: an event that takes a node away, or ends its computation, meets no other
      thread that needs it. */
  lemma OtherFits(s: State, e: Event, u: Tid)
    requires Inv(s) && Enabled(s, e) && u in s.threads && u != e.t
    ensures var s' := Next(s, e); Fits(s'.nodes, s'.free, s'.nElem, u, s.threads[u])
  {
    OtherFacts(s, e, u);
    Facts(s, e);
    if s.threads[u].slot == Target(s, e) {
      hide Inv, Absent, NoDup, Without;
    } else {
      Untouched(s, e, s.threads[u].slot);
      FreeElsewhere(s, e, s.threads[u].slot);
      hide Inv, Next, Enabled;
    }
  }

  lemma FreeElsewhere(s: State, e: Event, x: nat)
    requires Enabled(s, e) && x != Target(s, e)
    ensures x !in s.free ==> x !in Next(s, e).free
    ensures s.nElem <= Next(s, e).nElem
  {
  }

  lemma OtherFacts(s: State, e: Event, u: Tid)
    requires Inv(s) && Enabled(s, e) && u in s.threads && u != e.t
    ensures Fits(s.nodes, s.free, s.nElem, u, s.threads[u])
    ensures !s.threads[u].Evictor? ==> s.nodes[s.threads[u].slot].refs > 0
    ensures s.threads[u].Evictor? ==> s.threads[u].slot != if s.free == [] then s.nElem else s.free[0]
    ensures e.t in s.threads && !s.threads[u].Evictor? && Uses(s.threads[e.t], s.threads[u].slot) ==>
      s.nodes[s.threads[u].slot].refs > 1
    ensures e.t in s.threads && s.threads[u].Evictor? && s.threads[e.t].Evictor? ==>
      s.threads[u].slot != s.threads[e.t].slot
    ensures e.EvictStart? && s.threads[u].Evictor? ==> s.threads[u].slot != s.ring[|s.ring| - 1]
  {
    hide Counted, Recent, Solved;
    Facts(s, e);
    assert Fits(s.nodes, s.free, s.nElem, u, s.threads[u]);
    if !s.threads[u].Evictor? {
      UsedRefs(s, u);
      if e.t in s.threads && Uses(s.threads[e.t], s.threads[u].slot) {
        TwoUsers(s, u, e.t, s.threads[u].slot);
      }
    }
  }

  lemma OnlyTheThread(s: State, e: Event, u: Tid)
    requires Enabled(s, e) && u != e.t
    ensures u in Next(s, e).threads <==> u in s.threads
    ensures u in s.threads ==> Next(s, e).threads[u] == s.threads[u]
    ensures e.EvictStart? ==> Next(s, e).threads[e.t] == Evictor(s.ring[|s.ring| - 1], e.k)
    ensures e.t in Next(s, e).threads && Next(s, e).threads[e.t].Evictor? ==> e.EvictStart? || e.t in s.threads
  {
  }

  /** Every event but the start of an eviction leaves its thread no evictor. */
  lemma OwnEvictor(s: State, e: Event)
    requires Enabled(s, e) && !e.EvictStart? && e.t in Next(s, e).threads
    ensures !Next(s, e).threads[e.t].Evictor?
  {
  }

  lemma PhasesKept(s: State, e: Event)
    requires Inv(s) && Enabled(s, e)
    ensures Phases(Next(s, e))
  {
    var s' := Next(s, e);
    forall u | u in s'.threads ensures Fits(s'.nodes, s'.free, s'.nElem, u, s'.threads[u]) {
      hide Inv, Next, Enabled, Fits;
      if u == e.t { OwnFits(s, e); } else { OnlyTheThread(s, e, u); OtherFits(s, e, u); }
    }
    forall u, v | u in s'.threads && v in s'.threads && u != v && s'.threads[u].Evictor? && s'.threads[v].Evictor?
      ensures s'.threads[u].slot != s'.threads[v].slot
    {
      hide Next, Enabled, Fits, Counted, Recent, Solved, Ring, Storage;
      if u == e.t { OneVictim(s, e, v); } else if v == e.t { OneVictim(s, e, u); } else {
        OnlyTheThread(s, e, u);
        OnlyTheThread(s, e, v);
      }
    }
    hide Inv, Next, Enabled, Fits;
  }

  lemma OneVictim(s: State, e: Event, u: Tid)
    requires Inv(s) && Enabled(s, e) && u != e.t && e.t in Next(s, e).threads && Next(s, e).threads[e.t].Evictor?
    requires u in Next(s, e).threads && Next(s, e).threads[u].Evictor?
    ensures Next(s, e).threads[u].slot != Next(s, e).threads[e.t].slot
  {
    hide Inv, Next, Enabled, Fits;
    OnlyTheThread(s, e, u);
    if !e.EvictStart? { OwnEvictor(s, e); }
    OtherFacts(s, e, u);
  }

  lemma SolvedKept(s: State, e: Event)
    requires Inv(s) && Enabled(s, e)
    ensures Solved(Next(s, e).nodes, Next(s, e).threads)
  {
    forall x | x in Next(s, e).nodes
      ensures SolvedAt(Next(s, e).nodes, Next(s, e).threads, x)
    {
      SolvedAtKept(s, e, x);
    }
  }

  lemma SolvedAtKept(s: State, e: Event, x: nat)
    requires Inv(s) && Enabled(s, e) && x in Next(s, e).nodes
    ensures SolvedAt(Next(s, e).nodes, Next(s, e).threads, x)
  {
    assert x in s.nodes ==> SolvedAt(s.nodes, s.threads, x);
    if x == Target(s, e) { SolvedTarget(s, e); } else {
      Untouched(s, e, x);
      hide Inv, Next, Enabled;
      if s.nodes[x].solve.InProgress? { OnlyTheThread(s, e, s.nodes[x].solve.solver); }
    }
  }

  lemma SolvedTarget(s: State, e: Event)
    requires Inv(s) && Enabled(s, e) && Target(s, e) in Next(s, e).nodes
    ensures SolvedAt(Next(s, e).nodes, Next(s, e).threads, Target(s, e))
  {
    assert Target(s, e) in s.nodes ==> SolvedAt(s.nodes, s.threads, Target(s, e));
    hide Inv, Absent, NoDup, Without, Counted;
    Facts(s, e);
  }

  lemma RingKept(s: State, e: Event)
    requires Inv(s) && Enabled(s, e)
    ensures Ring(Next(s, e).nodes, Next(s, e).ring)
  {
    forall x ensures x in Next(s, e).ring <==> Idle(Next(s, e).nodes, x) {
      RingAt(s, e, x);
    }
    RingCases(s, e);
    hide Inv, Absent, Without, Idle;
  }

  lemma RingAt(s: State, e: Event, x: nat)
    requires Inv(s) && Enabled(s, e)
    ensures x in Next(s, e).ring <==> Idle(Next(s, e).nodes, x)
  {
    RingCases(s, e);
    assert x in s.ring <==> Idle(s.nodes, x);
    if x == Target(s, e) {
      Facts(s, e);
      hide Inv, Absent, NoDup, Without;
    } else {
      Untouched(s, e, x);
      RingElsewhere(s, e, x);
    }
  }

  lemma RingElsewhere(s: State, e: Event, x: nat)
    requires Inv(s) && Enabled(s, e) && x != Target(s, e)
    ensures x in Next(s, e).ring <==> x in s.ring
  {
    RingCases(s, e);
    hide Inv, Absent, NoDup, Without;
  }

  lemma RingCases(s: State, e: Event)
    requires Inv(s) && Enabled(s, e)
    ensures e.Hit? || e.Join? ==> NoDup(Without(s.ring, e.x))
    ensures e.Hit? || e.Join? ==> forall y :: y in Without(s.ring, e.x) <==> y in s.ring && y != e.x
    ensures e.EvictStart? ==> NoDup(s.ring[..|s.ring| - 1])
    ensures e.EvictStart? ==> forall y :: y in s.ring[..|s.ring| - 1] <==> y in s.ring && y != s.ring[|s.ring| - 1]
    ensures e.Release? ==> NoDup([s.threads[e.t].slot] + s.ring)
    ensures e.Release? ==> forall y :: y in [s.threads[e.t].slot] + s.ring <==> y == s.threads[e.t].slot || y in s.ring
  {
    Facts(s, e);
    assert Ring(s.nodes, s.ring);
    hide Inv, Absent, NoDup, Without, Next;
    if e.Hit? || e.Join? { WithoutIn(s.ring, e.x); WithoutNoDup(s.ring, e.x); }
    if e.EvictStart? { LastIn(s.ring); }
    if e.Release? { ConsIn(s.threads[e.t].slot, s.ring); }
  }

  lemma LastIn(s: seq<nat>)
    requires NoDup(s) && s != []
    ensures NoDup(s[..|s| - 1]) && s[|s| - 1] in s
    ensures forall y :: y in s[..|s| - 1] <==> y in s && y != s[|s| - 1]
  {
  }

  lemma FrontRecent(nodes: map<nat, Node>, s: seq<nat>, clock: nat)
    requires Recent(nodes, s, clock) && NoDup(s) && s != []
    ensures Recent(nodes, s[..|s| - 1], clock)
    ensures s[|s| - 1] !in s[..|s| - 1]
  {
    LastIn(s);
  }

  /** A node released now is newer than all of the ring. */
  lemma LaterRecent(nodes: map<nat, Node>, s: seq<nat>, clock: nat)
    requires Recent(nodes, s, clock)
    ensures Recent(nodes, s, clock + 1)
    ensures forall y :: y in s ==> y in nodes && nodes[y].released < clock
  {
  }

  lemma ConsIn(x: nat, s: seq<nat>)
    requires NoDup(s)
    ensures x !in s ==> NoDup([x] + s)
    ensures forall y :: y in [x] + s <==> y == x || y in s
  {
    if x !in s { ConsNoDup(x, s); }
  }

  /** Being removed leaves the order of the others. */
  lemma {:induction false} WithoutRecent(nodes: map<nat, Node>, s: seq<nat>, x: nat, clock: nat)
    requires Recent(nodes, s, clock) && NoDup(s)
    ensures Recent(nodes, Without(s, x), clock)
  {
    if s != [] {
      TailNoDup(s);
      TailRecent(nodes, s, clock);
      if s[0] != x {
        WithoutRecent(nodes, s[1..], x, clock);
        WithoutIn(s[1..], x);
        ConsRecent(nodes, s[0], Without(s[1..], x), clock);
      }
    }
  }

  lemma TailRecent(nodes: map<nat, Node>, s: seq<nat>, clock: nat)
    requires Recent(nodes, s, clock) && s != []
    ensures Recent(nodes, s[1..], clock)
    ensures s[0] in nodes && nodes[s[0]].released < clock
    ensures forall y :: y in s[1..] && y in nodes ==> nodes[y].released < nodes[s[0]].released
  {
  }

  lemma ConsRecent(nodes: map<nat, Node>, x: nat, s: seq<nat>, clock: nat)
    requires Recent(nodes, s, clock) && x in nodes && nodes[x].released < clock
    requires forall y :: y in s && y in nodes ==> nodes[y].released < nodes[x].released
    ensures Recent(nodes, [x] + s, clock)
  {
  }

  lemma SameRecent(nodes: map<nat, Node>, nodes': map<nat, Node>, s: seq<nat>, clock: nat)
    requires Recent(nodes, s, clock)
    requires forall y :: y in s && y in nodes ==> y in nodes' && nodes'[y].released == nodes[y].released
    ensures Recent(nodes', s, clock)
  {
    assert forall i :: 0 <= i < |s| ==> s[i] in s;
  }

  lemma RingForm(s: State, e: Event)
    requires Enabled(s, e)
    ensures match e {
      case Join(_, _, x) => Next(s, e).ring == Without(s.ring, x)
      case Hit(_, _, x) => Next(s, e).ring == Without(s.ring, x)
      case EvictStart(_, _) => Next(s, e).ring == s.ring[..|s.ring| - 1]
      case Release(t) =>
        if s.nodes[s.threads[t].slot].refs == 1 then
          && Next(s, e).ring == [s.threads[t].slot] + s.ring && Next(s, e).clock == s.clock + 1
          && s.threads[t].slot in Next(s, e).nodes && Next(s, e).nodes[s.threads[t].slot].released == s.clock
        else
          Next(s, e).ring == s.ring
      case _ => Next(s, e).ring == s.ring
    }
    ensures Next(s, e).clock == s.clock || (e.Release? && s.nodes[s.threads[e.t].slot].refs == 1)
  {
  }

  lemma SameReleased(s: State, e: Event, y: nat)
    requires Inv(s) && Enabled(s, e) && y in s.nodes && y in Next(s, e).nodes
    requires e.Release? ==> y != s.threads[e.t].slot
    ensures Next(s, e).nodes[y].released == s.nodes[y].released
  {
    hide Inv, NoDup, Without;
    Facts(s, e);
    if y != Target(s, e) { Untouched(s, e, y); }
  }

  /** Entries that stay in the ring were released when they were. */
  lemma RingReleased(s: State, e: Event)
    requires Inv(s) && Enabled(s, e)
    ensures forall y :: y in s.ring && y in Next(s, e).ring ==>
      y in s.nodes && y in Next(s, e).nodes && Next(s, e).nodes[y].released == s.nodes[y].released
  {
    RingKept(s, e);
    Facts(s, e);
    assert Ring(s.nodes, s.ring);
    hide Inv, Absent, NoDup, Without, Recent, Next, Enabled;
    forall y | y in s.ring && y in Next(s, e).ring
      ensures y in s.nodes && y in Next(s, e).nodes && Next(s, e).nodes[y].released == s.nodes[y].released {
      SameReleased(s, e, y);
    }
  }

  lemma RecentTaken(s: State, e: Event)
    requires Inv(s) && Enabled(s, e) && (e.Hit? || e.Join? || e.EvictStart?)
    ensures Recent(Next(s, e).nodes, Next(s, e).ring, Next(s, e).clock)
  {
    RingForm(s, e);
    RingReleased(s, e);
    assert Recent(s.nodes, s.ring, s.clock) && NoDup(s.ring);
    hide Inv, Absent, NoDup, Without, Recent, Next, Enabled;
    if e.EvictStart? {
      FrontRecent(s.nodes, s.ring, s.clock);
    } else {
      WithoutRecent(s.nodes, s.ring, e.x, s.clock);
      WithoutIn(s.ring, e.x);
    }
    SameRecent(s.nodes, Next(s, e).nodes, Next(s, e).ring, s.clock);
  }

  lemma RecentRest(s: State, e: Event)
    requires Inv(s) && Enabled(s, e) && !e.Hit? && !e.Join? && !e.EvictStart?
    ensures Recent(Next(s, e).nodes, Next(s, e).ring, Next(s, e).clock)
  {
    var s' := Next(s, e);
    RingForm(s, e);
    RingReleased(s, e);
    assert Recent(s.nodes, s.ring, s.clock) && NoDup(s.ring);
    hide Inv, Absent, NoDup, Without, Recent, Next, Enabled;
    LaterRecent(s.nodes, s.ring, s.clock);
    SameRecent(s.nodes, s'.nodes, s.ring, s'.clock);
    if s'.ring != s.ring { ConsRecent(s'.nodes, s.threads[e.t].slot, s.ring, s'.clock); }
  }

  lemma RecentKept(s: State, e: Event)
    requires Inv(s) && Enabled(s, e)
    ensures Recent(Next(s, e).nodes, Next(s, e).ring, Next(s, e).clock)
  {
    hide Inv, Next, Enabled, Recent;
    if e.Hit? || e.Join? || e.EvictStart? { RecentTaken(s, e); } else { RecentRest(s, e); }
  }

  lemma MapCard(m: map<nat, Node>, x: nat, n: Node)
    ensures |m[x := n]| == |m| + Bit(x !in m)
    ensures |m - {x}| == |m| - Bit(x in m)
  {
    assert m[x := n].Keys == m.Keys + {x};
    assert (m - {x}).Keys == m.Keys - {x};
  }

  /** The entries after an event. */
  lemma NodesForm(s: State, e: Event)
    requires Enabled(s, e)
    ensures var x, nodes' := Target(s, e), Next(s, e).nodes;
      nodes' == if x in nodes' then s.nodes[x := nodes'[x]] else s.nodes - {x}
  {
    if Next(s, e) == s && Target(s, e) !in s.nodes { assert s.nodes - {Target(s, e)} == s.nodes; }
  }

  lemma TargetPresence(s: State, e: Event)
    requires Inv(s) && Enabled(s, e)
    ensures Bit(Target(s, e) in Next(s, e).nodes) == Bit(Target(s, e) in s.nodes) + Bit(e.AddNew? || e.EvictEnd?)
      - Bit(e.EvictStart? || (e.Drop? && s.nodes[s.threads[e.t].slot].refs == 1))
  {
    Facts(s, e);
    hide Inv, Absent, NoDup, Without;
  }

  lemma NodesCount(s: State, e: Event)
    requires Inv(s) && Enabled(s, e)
    ensures |Next(s, e).nodes| == |s.nodes| + Bit(e.AddNew? || e.EvictEnd?)
      - Bit(e.EvictStart? || (e.Drop? && s.nodes[s.threads[e.t].slot].refs == 1))
  {
    NodesForm(s, e);
    TargetPresence(s, e);
    hide Inv, Next, Target;
    var x := Target(s, e);
    MapCard(s.nodes, x, if x in Next(s, e).nodes then Next(s, e).nodes[x] else Node("", Done, 0, 0));
  }

  lemma EvictorsCount(s: State, e: Event)
    requires Inv(s) && Enabled(s, e)
    ensures |Evictors(Next(s, e).threads)| == |Evictors(s.threads)| + Bit(e.EvictStart?) - Bit(e.EvictEnd?)
  {
    Facts(s, e);
    ThreadsForm(s, e);
    EvictorPhases(s, e);
    hide Inv, Next, Enabled;
    var t, threads' := e.t, Next(s, e).threads;
    assert t in Evictors(s.threads) <==> t in s.threads && s.threads[t].Evictor?;
    hide Evictors;
    if t in threads' { EvictorsSet(s.threads, t, threads'[t]); } else { EvictorsDrop(s.threads, t); }
  }

  /** Only the start of an eviction makes an evictor, and only its end unmakes one. */
  lemma EvictorPhases(s: State, e: Event)
    requires Enabled(s, e)
    ensures e.t in s.threads && s.threads[e.t].Evictor? <==> e.EvictEnd?
    ensures e.t in Next(s, e).threads && Next(s, e).threads[e.t].Evictor? <==> e.EvictStart?
  {
  }

  lemma StorageKept(s: State, e: Event)
    requires Inv(s) && Enabled(s, e)
    ensures Storage(Next(s, e))
  {
    StorageCount(s, e);
    FreeNoDup(s, e);
    CapKept(s, e);
    hide Inv, Next, Evictors, Enabled;
    forall x: nat ensures x in Next(s, e).free ==> x < Next(s, e).nElem && x !in Next(s, e).nodes {
      StoredAt(s, e, x);
    }
    forall x: nat ensures x in Next(s, e).nodes ==> x < Next(s, e).nElem {
      StoredAt(s, e, x);
    }
  }

  lemma CapKept(s: State, e: Event)
    requires Enabled(s, e)
    ensures Next(s, e).cap == s.cap
  {
  }

  lemma FreeNoDup(s: State, e: Event)
    requires Inv(s) && Enabled(s, e)
    ensures NoDup(Next(s, e).free)
  {
    FreeFacts(s, e);
    assert Storage(s);
    hide Inv, Absent, Without, Evictors, Fits, NoDup;
  }

  lemma StoredAt(s: State, e: Event, x: nat)
    requires Inv(s) && Enabled(s, e)
    ensures x in Next(s, e).free ==> x < Next(s, e).nElem && x !in Next(s, e).nodes
    ensures x in Next(s, e).nodes ==> x < Next(s, e).nElem
  {
    Facts(s, e);
    FreeFacts(s, e);
    assert Storage(s);
    hide Inv, Absent, Without, Evictors, NoDup;
    if x != Target(s, e) { Untouched(s, e, x); FreeElsewhere(s, e, x); }
  }

  lemma StorageCount(s: State, e: Event)
    requires Inv(s) && Enabled(s, e)
    ensures var s' := Next(s, e); s'.nElem == |s'.nodes| + |s'.free| + |Evictors(s'.threads)| && s'.nElem <= s.cap
  {
    NodesCount(s, e);
    EvictorsCount(s, e);
    EvictorsSome(s, e);
    assert Storage(s);
    hide Inv, Absent, Without, Evictors, Fits, NoDup, Storage;
    FreeCount(s, e);
  }

  lemma FreeCount(s: State, e: Event)
    requires Enabled(s, e)
    ensures Next(s, e).nElem - |Next(s, e).free| == s.nElem - |s.free| + Bit(e.AddNew?)
      - Bit(e.Drop? && s.nodes[s.threads[e.t].slot].refs == 1)
    ensures s.nElem <= s.cap ==> Next(s, e).nElem <= s.cap
  {
  }

  lemma FreeFacts(s: State, e: Event)
    requires Inv(s) && Enabled(s, e)
    ensures s.free != [] ==> NoDup(s.free[1..]) && forall y :: y in s.free <==> y == s.free[0] || y in s.free[1..]
    ensures e.EvictEnd? || e.Drop? ==> NoDup([s.threads[e.t].slot] + s.free)
    ensures e.EvictEnd? || e.Drop? ==>
      forall y :: y in [s.threads[e.t].slot] + s.free <==> y == s.threads[e.t].slot || y in s.free
    ensures e.EvictEnd? ==> ([s.threads[e.t].slot] + s.free)[1..] == s.free
  {
    Facts(s, e);
    if s.free != [] { TailNoDup(s.free); }
    if e.EvictEnd? || e.Drop? { ConsIn(s.threads[e.t].slot, s.free); }
  }

  /** A thread that ends an eviction is one of the evictors counted. */
  lemma EvictorsSome(s: State, e: Event)
    requires Enabled(s, e)
    ensures e.EvictEnd? ==> |Evictors(s.threads)| > 0
  {
    if e.EvictEnd? { assert e.t in Evictors(s.threads); }
  }

  /** The invariant is kept by every event. */
  lemma InvKept(s: State, e: Event)
    requires Inv(s) && Enabled(s, e)
    ensures Inv(Next(s, e))
  {
    CountedKept(s, e);
    PhasesKept(s, e);
    SolvedKept(s, e);
    RingKept(s, e);
    RecentKept(s, e);
    StorageKept(s, e);
    hide Counted, Phases, Solved, Ring, Recent, Storage, Next, Enabled;
  }

  // ------------------------------------------------------------------ over whole runs

  lemma {:induction false} InvRuns(s: State, es: seq<Event>)
    requires Inv(s) && Runs(s, es)
    ensures Inv(After(s, es))
    decreases |es|
  {
    hide Inv, Next, Enabled;
    if es != [] {
      InvKept(s, es[0]);
      InvRuns(Next(s, es[0]), es[1..]);
    }
  }

  lemma InvInit(cap: nat)
    ensures Inv(Init(cap))
  {
    assert Evictors(map[]) == {};
  }

  /** In every state that any number of threads can reach: counts are the threads on the node, the
      ring is the findable solved nodes with count 0, and the table stays within its capacity. */
  lemma Reachable(cap: nat, es: seq<Event>)
    requires Runs(Init(cap), es)
    ensures var s := After(Init(cap), es);
      && (forall x :: x in s.nodes ==> s.nodes[x].refs == |Users(s.threads, x)|)
      && (forall t :: t in s.threads && !s.threads[t].Evictor? ==> s.threads[t].slot in s.nodes)
      && NoDup(s.ring)
      && (forall x :: x in s.ring <==> x in s.nodes && s.nodes[x].solve == Done && s.nodes[x].refs == 0)
      && |s.nodes| + |Evictors(s.threads)| <= s.cap == cap
      && s.nElem <= cap
  {
    InvInit(cap);
    InvRuns(Init(cap), es);
    CapRuns(Init(cap), es);
    assert Inv(After(Init(cap), es));
    hide After, Runs, Users, Evictors, NoDup, Recent, Solved;
    forall t | t in After(Init(cap), es).threads && !After(Init(cap), es).threads[t].Evictor?
      ensures After(Init(cap), es).threads[t].slot in After(Init(cap), es).nodes
    {
      UsedRefs(After(Init(cap), es), t);
    }
  }

  lemma {:induction false} CapRuns(s: State, es: seq<Event>)
    requires Runs(s, es)
    ensures After(s, es).cap == s.cap
    decreases |es|
  {
    if es != [] {
      CapRuns(Next(s, es[0]), es[1..]);
    }
  }

  /** The victim is used by no thread, and every other idle node was released later. */
  lemma VictimOldest(s: State, t: Tid, k: Key, y: nat)
    requires Inv(s) && Enabled(s, EvictStart(t, k))
    ensures var x := s.ring[|s.ring| - 1]; var s' := Next(s, EvictStart(t, k));
      && Users(s.threads, x) == {} && x !in s'.nodes && s'.threads[t] == Evictor(x, k)
      && (Idle(s.nodes, y) && y != x ==> Idle(s'.nodes, y) && s.nodes[x].released < s.nodes[y].released)
  {
    var x := s.ring[|s.ring| - 1];
    Facts(s, EvictStart(t, k));
    assert s.nodes[x].refs == |Users(s.threads, x)|;
    if Idle(s.nodes, y) && y != x {
      assert y in s.ring;
      var i :| 0 <= i < |s.ring| && s.ring[i] == y;
    }
  }

  /** An eviction that finds the ring empty dies: then every entry of the full table is counted by
      a thread, or is a victim on its way out. */
  lemma FullOfUse(s: State, x: nat)
    requires Inv(s) && Size(s) >= s.cap && s.ring == []
    ensures |s.nodes| + |Evictors(s.threads)| == s.cap
    ensures x in s.nodes ==> Users(s.threads, x) != {}
  {
    if x in s.nodes {
      assert !Idle(s.nodes, x);
      assert s.nodes[x].refs == |Users(s.threads, x)|;
    }
  }

  /** While a thread is on a node, no event of another thread unlinks the node, gives its slot away
      or revokes its value. */
  lemma StaysForUser(s: State, e: Event, u: Tid)
    requires Inv(s) && Enabled(s, e) && u in s.threads && !s.threads[u].Evictor? && u != e.t
    ensures var x := s.threads[u].slot; var s' := Next(s, e);
      && u in s'.threads && s'.threads[u] == s.threads[u]
      && x in s.nodes && x in s'.nodes && s'.nodes[x].key == s.nodes[x].key
      && (!s.nodes[x].solve.InProgress? ==> s'.nodes[x].solve == s.nodes[x].solve)
  {
    OnlyTheThread(s, e, u);
    OtherFacts(s, e, u);
    Facts(s, e);
    if s.threads[u].slot == Target(s, e) {
      hide Inv, NoDup, Without;
    } else {
      Untouched(s, e, s.threads[u].slot);
      hide Inv, Next, Enabled;
    }
  }

  ghost predicate Leaves(e: Event, u: Tid) {
    e.t == u && (e.Drop? || e.Release?)
  }

  lemma StaysForItself(s: State, e: Event)
    requires Inv(s) && Enabled(s, e) && e.t in s.threads && !s.threads[e.t].Evictor? && !Leaves(e, e.t)
    ensures var x := s.threads[e.t].slot; var s' := Next(s, e);
      && e.t in s'.threads && !s'.threads[e.t].Evictor? && s'.threads[e.t].slot == x
      && x in s.nodes && x in s'.nodes && s'.nodes[x].key == s.nodes[x].key
  {
    Facts(s, e);
  }

  /** From the moment a thread is counted on a node until it releases or drops it, the node stays
      in the table under its key, whatever all threads do. */
  lemma {:induction false} HeldStays(s: State, es: seq<Event>, u: Tid)
    requires Inv(s) && Runs(s, es) && u in s.threads && !s.threads[u].Evictor?
    requires forall e :: e in es ==> !Leaves(e, u)
    ensures var x := s.threads[u].slot; var s' := After(s, es);
      && u in s'.threads && !s'.threads[u].Evictor? && s'.threads[u].slot == x
      && x in s.nodes && x in s'.nodes && s'.nodes[x].key == s.nodes[x].key
    decreases |es|
  {
    if es == [] {
      UsedRefs(s, u);
    } else {
      InvKept(s, es[0]);
      assert es[0] in es && forall e :: e in es[1..] ==> e in es;
      if u == es[0].t { StaysForItself(s, es[0]); } else { StaysForUser(s, es[0], u); }
      hide Inv, Next, Enabled;
      HeldStays(Next(s, es[0]), es[1..], u);
    }
  }

  /** A waiter that goes on waiting while anything happens finds the verdict its solver gave. */
  lemma {:induction false} VerdictStays(s: State, es: seq<Event>, u: Tid)
    requires Inv(s) && Runs(s, es) && u in s.threads && s.threads[u].Waiter?
    requires s.threads[u].slot in s.nodes && !s.nodes[s.threads[u].slot].solve.InProgress?
    requires forall e :: e in es ==> e.t != u
    ensures var x := s.threads[u].slot; var s' := After(s, es);
      && Enabled(s', WaitEnd(u)) && x in s'.nodes
      && Next(s', WaitEnd(u)).threads[u] == if s.nodes[x].solve.Done? then Holder(x) else Failing(x)
    decreases |es|
  {
    if es != [] {
      InvKept(s, es[0]);
      assert es[0] in es && forall e :: e in es[1..] ==> e in es;
      StaysForUser(s, es[0], u);
      hide Inv, Next, Enabled;
      VerdictStays(Next(s, es[0]), es[1..], u);
    }
  }

  /** No two entries of the table have the same key. */
  ghost predicate UniqueKeys(s: State) {
    forall x, y :: x in s.nodes && y in s.nodes && s.nodes[x].key == s.nodes[y].key ==> x == y
  }

  /** The one event that can give a key a second entry is the end of an eviction: the key is not
      looked up again after the lock was dropped. */
  lemma UniqueKept(s: State, e: Event)
    requires Inv(s) && UniqueKeys(s) && Enabled(s, e)
    ensures UniqueKeys(Next(s, e)) <==> (e.EvictEnd? ==> Absent(s, s.threads[e.t].key))
  {
    var s', x := Next(s, e), Target(s, e);
    if e.EvictEnd? && !Absent(s, s.threads[e.t].key) {
      EvictionEnds(s, e.t);
      var y :| y in s.nodes && s.nodes[y].key == s.threads[e.t].key;
      Untouched(s, e, y);
      assert y != s.threads[e.t].slot && s'.nodes[y].key == s'.nodes[s.threads[e.t].slot].key;
    } else {
      forall y, z | y in s'.nodes && z in s'.nodes && s'.nodes[y].key == s'.nodes[z].key ensures y == z {
        if y != x { Untouched(s, e, y); }
        if z != x { Untouched(s, e, z); }
        if x in s'.nodes { TargetKey(s, e); }
        hide Inv, Next, Enabled;
      }
    }
  }

  /** The keys are unique in every state that the run passes through. */
  ghost predicate UniqueThroughout(s: State, es: seq<Event>)
    requires Runs(s, es)
    decreases |es|
  {
    UniqueKeys(s) && (es != [] ==> UniqueThroughout(Next(s, es[0]), es[1..]))
  }

  /** Every eviction that ends in the run finds its key still missing. */
  ghost predicate EndsAlone(s: State, es: seq<Event>)
    requires Runs(s, es)
    decreases |es|
  {
    es != [] ==>
      (es[0].EvictEnd? ==> Absent(s, s.threads[es[0].t].key)) && EndsAlone(Next(s, es[0]), es[1..])
  }

  lemma {:induction false} UniqueRuns(s: State, es: seq<Event>)
    requires Inv(s) && UniqueKeys(s) && Runs(s, es)
    ensures UniqueThroughout(s, es) <==> EndsAlone(s, es)
    decreases |es|
  {
    if es != [] {
      UniqueKept(s, es[0]);
      InvKept(s, es[0]);
      hide Inv, Next, UniqueKeys, Absent;
      if UniqueKeys(Next(s, es[0])) {
        UniqueRuns(Next(s, es[0]), es[1..]);
      } else {
        NotThroughout(Next(s, es[0]), es[1..]);
      }
    }
  }

  lemma NotThroughout(s: State, es: seq<Event>)
    requires Runs(s, es) && !UniqueKeys(s)
    ensures !UniqueThroughout(s, es)
  {
  }

  /** The event puts `k` into the table or starts to make room for it. */
  ghost predicate Adds(e: Event, k: Key) {
    (e.AddNew? || e.EvictStart?) && e.k == k
  }

  /** From the start of an eviction to its end no other thread adds its key. */
  ghost predicate Apart(es: seq<Event>) {
    forall i, j :: 0 <= i < j < |es| && es[i].EvictStart? && Adds(es[j], es[i].k) ==> Ended(es, i, j, es[i].t)
  }

  ghost predicate Ended(es: seq<Event>, i: int, j: int, t: Tid) {
    exists m :: i < m < j && 0 <= m < |es| && es[m] == EvictEnd(t)
  }

  /** The same for an eviction that goes on in the first state. */
  ghost predicate PendingApart(s: State, es: seq<Event>) {
    forall t, j :: t in s.threads && s.threads[t].Evictor? && 0 <= j < |es| && Adds(es[j], s.threads[t].key) ==>
      Ended(es, -1, j, t)
  }

  /** The keys that evictions make room for are missing, and no two are for the same key. */
  ghost predicate PendingKeys(s: State) {
    && (forall t :: t in s.threads && s.threads[t].Evictor? ==> Absent(s, s.threads[t].key))
    && (forall t, u :: t in s.threads && u in s.threads && t != u && s.threads[t].Evictor? && s.threads[u].Evictor? ==>
          s.threads[t].key != s.threads[u].key)
  }

  lemma PendingKept(s: State, e: Event)
    requires Inv(s) && Enabled(s, e) && PendingKeys(s)
    requires forall t :: t in s.threads && s.threads[t].Evictor? ==> !Adds(e, s.threads[t].key)
    ensures PendingKeys(Next(s, e))
  {
    var s' := Next(s, e);
    forall t | t in s'.threads && s'.threads[t].Evictor? ensures Absent(s', s'.threads[t].key) {
      PendingAbsent(s, e, t);
    }
    forall t, u | t in s'.threads && u in s'.threads && t != u && s'.threads[t].Evictor? && s'.threads[u].Evictor?
      ensures s'.threads[t].key != s'.threads[u].key
    {
      PendingThread(s, e, t);
      PendingThread(s, e, u);
      hide Inv, Next, Enabled, Absent;
    }
  }

  /** An evictor is one that was there, or the thread of the event. */
  lemma PendingThread(s: State, e: Event, t: Tid)
    requires Enabled(s, e) && t in Next(s, e).threads && Next(s, e).threads[t].Evictor?
    ensures if t == e.t then e.EvictStart? && Next(s, e).threads[t].key == e.k && Absent(s, e.k)
            else t in s.threads && s.threads[t] == Next(s, e).threads[t]
    ensures e != EvictEnd(t)
  {
    if t == e.t {
      if !e.EvictStart? { OwnEvictor(s, e); }
    } else {
      OnlyTheThread(s, e, t);
    }
  }

  lemma PendingAbsent(s: State, e: Event, t: Tid)
    requires Inv(s) && Enabled(s, e) && PendingKeys(s) && t in Next(s, e).threads && Next(s, e).threads[t].Evictor?
    requires forall t :: t in s.threads && s.threads[t].Evictor? ==> !Adds(e, s.threads[t].key)
    ensures Absent(Next(s, e), Next(s, e).threads[t].key)
  {
    var s' := Next(s, e);
    var k := s'.threads[t].key;
    PendingThread(s, e, t);
    assert Absent(s, k);
    forall x | x in s'.nodes ensures s'.nodes[x].key != k {
      if x == Target(s, e) { TargetKey(s, e); } else { Untouched(s, e, x); }
      hide Inv, Next, Enabled, Target;
    }
  }

  lemma {:induction false} PendingRuns(s: State, es: seq<Event>)
    requires Inv(s) && UniqueKeys(s) && PendingKeys(s) && Runs(s, es) && Apart(es) && PendingApart(s, es)
    ensures UniqueKeys(After(s, es))
    decreases |es|
  {
    if es != [] {
      var e := es[0];
      hide Inv, Next, Enabled, UniqueKeys, Absent, PendingKeys;
      NoneAdds(s, es);
      ApartRest(s, es);
      PendingEnds(s, e);
      UniqueKept(s, e);
      InvKept(s, e);
      PendingKept(s, e);
      PendingRuns(Next(s, e), es[1..]);
    }
  }

  lemma PendingEnds(s: State, e: Event)
    requires Enabled(s, e) && PendingKeys(s)
    ensures e.EvictEnd? ==> e.t in s.threads && s.threads[e.t].Evictor? && Absent(s, s.threads[e.t].key)
  {
  }

  lemma NoneAdds(s: State, es: seq<Event>)
    requires es != [] && PendingApart(s, es)
    ensures forall t :: t in s.threads && s.threads[t].Evictor? ==> !Adds(es[0], s.threads[t].key)
  {
    hide Adds;
  }

  lemma ApartRest(s: State, es: seq<Event>)
    requires es != [] && Enabled(s, es[0]) && Apart(es) && PendingApart(s, es)
    ensures Apart(es[1..]) && PendingApart(Next(s, es[0]), es[1..])
  {
    var e, rest, s' := es[0], es[1..], Next(s, es[0]);
    hide Adds, Next, Enabled;
    forall i, j | 0 <= i < j < |rest| && rest[i].EvictStart? && Adds(rest[j], rest[i].k)
      ensures Ended(rest, i, j, rest[i].t)
    {
      assert Ended(es, i + 1, j + 1, rest[i].t);
      EndedRest(es, i + 1, j + 1, rest[i].t);
    }
    forall t, j | t in s'.threads && s'.threads[t].Evictor? && 0 <= j < |rest| && Adds(rest[j], s'.threads[t].key)
      ensures Ended(rest, -1, j, t)
    {
      PendingThread(s, e, t);
      assert es[j + 1] == rest[j];
      assert Ended(es, if t == e.t then 0 else -1, j + 1, t);
      EndedRest(es, 0, j + 1, t);
    }
  }

  lemma EndedRest(es: seq<Event>, i: int, j: int, t: Tid)
    requires es != [] && i >= 0
    requires Ended(es, i, j, t) || (es[0] != EvictEnd(t) && Ended(es, i - 1, j, t) && i == 0)
    ensures Ended(es[1..], i - 1, j - 1, t)
  {
    var m :| (if Ended(es, i, j, t) then i else i - 1) < m < j && 0 <= m < |es| && es[m] == EvictEnd(t);
    assert es[1..][m - 1] == EvictEnd(t);
  }

  /** A caller that never adds a key while an eviction for the same key goes on has unique keys. */
  lemma UniqueApart(cap: nat, es: seq<Event>)
    requires Runs(Init(cap), es) && Apart(es)
    ensures UniqueKeys(After(Init(cap), es))
  {
    InvInit(cap);
    hide Inv, Apart;
    PendingRuns(Init(cap), es);
  }

  lemma TargetKey(s: State, e: Event)
    requires Inv(s) && Enabled(s, e) && Target(s, e) in Next(s, e).nodes
    ensures var x := Target(s, e);
      if x in s.nodes then Next(s, e).nodes[x].key == s.nodes[x].key
      else e.AddNew? || e.EvictEnd?
    ensures e.AddNew? || e.EvictEnd? ==>
      Target(s, e) !in s.nodes && Next(s, e).nodes[Target(s, e)].key == if e.AddNew? then e.k else s.threads[e.t].key
    ensures e.AddNew? ==> Absent(s, e.k)
  {
    hide Inv, Without;
    Facts(s, e);
  }

  /** Two threads that miss the same key in a full table both evict and both insert. */
  lemma TwiceInserted(s: State, t: Tid, u: Tid, k: Key)
    requires Inv(s) && Size(s) >= s.cap && |s.ring| >= 2 && Absent(s, k)
    requires t != u && t !in s.threads && u !in s.threads
    ensures var es := [EvictStart(t, k), EvictStart(u, k), EvictEnd(t), EvictEnd(u)];
      Runs(s, es) && !UniqueKeys(After(s, es))
  {
    var e0, e1, e2, e3 := EvictStart(t, k), EvictStart(u, k), EvictEnd(t), EvictEnd(u);
    EvictionStarts(s, t, k);
    var s1 := Next(s, e0);
    EvictionStarts(s1, u, k);
    var s2 := Next(s1, e1);
    OnlyTheThread(s1, e1, t);
    EvictionEnds(s2, t);
    var s3 := Next(s2, e2);
    OnlyTheThread(s2, e2, u);
    EvictionEnds(s3, u);
    var s4 := Next(s3, e3);
    OnlyTheThread(s3, e3, t);
    StaysForUser(s3, e3, t);
    hide Inv, Runs, After, Next, Enabled;
    Run4(s, e0, e1, e2, e3);
  }

  lemma EvictionStarts(s: State, t: Tid, k: Key)
    requires Inv(s) && Enabled(s, EvictStart(t, k))
    ensures var s' := Next(s, EvictStart(t, k));
      && Inv(s') && s'.threads == s.threads[t := s'.threads[t]] && s'.threads[t].Evictor? && s'.threads[t].key == k
      && s'.cap == s.cap && Size(s') == Size(s) && |s'.ring| == |s.ring| - 1 && Absent(s', k)
      && Enabled(s', EvictEnd(t))
  {
    InvKept(s, EvictStart(t, k));
  }

  lemma EvictionEnds(s: State, t: Tid)
    requires Inv(s) && Enabled(s, EvictEnd(t))
    ensures var s' := Next(s, EvictEnd(t));
      && Inv(s') && s'.threads[t] == Solver(s.threads[t].slot) && s.threads[t].slot !in s.nodes
      && s.threads[t].slot in s'.nodes && s'.nodes[s.threads[t].slot].key == s.threads[t].key
  {
    InvKept(s, EvictEnd(t));
    Facts(s, EvictEnd(t));
  }

  lemma Run4(s: State, e0: Event, e1: Event, e2: Event, e3: Event)
    requires Enabled(s, e0) && Enabled(Next(s, e0), e1) && Enabled(Next(Next(s, e0), e1), e2)
    requires Enabled(Next(Next(Next(s, e0), e1), e2), e3)
    ensures Runs(s, [e0, e1, e2, e3])
    ensures After(s, [e0, e1, e2, e3]) == Next(Next(Next(Next(s, e0), e1), e2), e3)
  {
    hide Next, Enabled, Runs, After;
    var s1 := Next(s, e0);
    var s2 := Next(s1, e1);
    var s3 := Next(s2, e2);
    assert [e3] + [] == [e3] && [e2] + [e3] == [e2, e3] && [e1] + [e2, e3] == [e1, e2, e3];
    assert [e0] + [e1, e2, e3] == [e0, e1, e2, e3];
    NoRun(Next(s3, e3));
    RunCons(s3, e3, []);
    RunCons(s2, e2, [e3]);
    RunCons(s1, e1, [e2, e3]);
    RunCons(s, e0, [e1, e2, e3]);
  }

  lemma NoRun(s: State)
    ensures Runs(s, []) && After(s, []) == s
  {
  }

  lemma RunCons(s: State, e: Event, es: seq<Event>)
    requires Enabled(s, e) && Runs(Next(s, e), es)
    ensures Runs(s, [e] + es) && After(s, [e] + es) == After(Next(s, e), es)
  {
    hide Next, Enabled;
    assert ([e] + es)[1..] == es;
  }

  lemma {:induction false} RunJoin(s: State, a: seq<Event>, b: seq<Event>)
    requires Runs(s, a) && Runs(After(s, a), b)
    ensures Runs(s, a + b) && After(s, a + b) == After(After(s, a), b)
    decreases |a|
  {
    hide Next, Enabled;
    if a == [] {
      assert a + b == b;
    } else {
      RunJoin(Next(s, a[0]), a[1..], b);
      assert (a + b)[1..] == a[1..] + b;
    }
  }

  /** n keys, each shorter than n, have been looked up, solved and released. */
  ghost predicate Filled(s: State, n: nat) {
    && Inv(s) && s.threads == map[] && s.free == [] && s.nElem == n == |s.ring|
    && (forall x :: x in s.nodes ==> |s.nodes[x].key| < n)
  }

  function LongKey(n: nat): (k: Key)
    ensures |k| == n
  {
    seq(n, _ => 'k')
  }

  /** On the way to one more: thread 0 is busy with slot n. */
  ghost predicate Filling(s: State, n: nat, solve: Solve, phase: Phase) {
    && Inv(s) && s.threads == map[0 := phase] && s.free == [] && s.nElem == n + 1 && |s.ring| == n
    && n in s.nodes && s.nodes[n].solve == solve && s.nodes[n].refs == 1
    && (forall x :: x in s.nodes ==> |s.nodes[x].key| < n + 1)
  }

  lemma FillAdd(s: State, n: nat)
    requires Filled(s, n) && n < s.cap
    ensures var e := AddNew(0, LongKey(n));
      Enabled(s, e) && Filling(Next(s, e), n, InProgress(0), Solver(n)) && Next(s, e).cap == s.cap
  {
    assert Absent(s, LongKey(n));
    InvKept(s, AddNew(0, LongKey(n)));
    hide Inv;
  }

  lemma FillSolve(s: State, n: nat)
    requires Filling(s, n, InProgress(0), Solver(n))
    ensures var e := SolveEnd(0, true);
      Enabled(s, e) && Filling(Next(s, e), n, Done, Holder(n)) && Next(s, e).cap == s.cap
  {
    InvKept(s, SolveEnd(0, true));
    hide Inv;
  }

  lemma FillRelease(s: State, n: nat)
    requires Filling(s, n, Done, Holder(n))
    ensures Enabled(s, Release(0)) && Filled(Next(s, Release(0)), n + 1) && Next(s, Release(0)).cap == s.cap
  {
    InvKept(s, Release(0));
    hide Inv;
  }

  lemma FillNext(s: State, n: nat) returns (es: seq<Event>)
    requires Filled(s, n) && n < s.cap
    ensures Runs(s, es) && Filled(After(s, es), n + 1) && After(s, es).cap == s.cap
  {
    hide Inv, Next, Enabled, Runs, After, Filled, Filling;
    var e0, e1, e2 := AddNew(0, LongKey(n)), SolveEnd(0, true), Release(0);
    FillAdd(s, n);
    var s1 := Next(s, e0);
    FillSolve(s1, n);
    var s2 := Next(s1, e1);
    FillRelease(s2, n);
    es := [e0, e1, e2];
    assert [e2] + [] == [e2] && [e1] + [e2] == [e1, e2] && [e0] + [e1, e2] == es;
    NoRun(Next(s2, e2));
    RunCons(s2, e2, []);
    RunCons(s1, e1, [e2]);
    RunCons(s, e0, [e1, e2]);
  }

  lemma {:induction false} Fill(cap: nat, n: nat) returns (es: seq<Event>)
    requires n <= cap
    ensures Runs(Init(cap), es) && Filled(After(Init(cap), es), n) && After(Init(cap), es).cap == cap
  {
    if n == 0 {
      InvInit(cap);
      es := [];
    } else {
      hide Filled, Runs, After;
      var a := Fill(cap, n - 1);
      var b := FillNext(After(Init(cap), a), n - 1);
      RunJoin(Init(cap), a, b);
      es := a + b;
    }
  }

  /** With room for at most one entry, an evictor leaves no entry for its key to meet. */
  lemma {:induction false} UniqueSmall(s: State, es: seq<Event>)
    requires Inv(s) && UniqueKeys(s) && s.cap <= 1 && Runs(s, es)
    ensures UniqueKeys(After(s, es))
    decreases |es|
  {
    if es != [] {
      var e := es[0];
      EvictorsSome(s, e);
      assert Storage(s);
      UniqueKept(s, e);
      InvKept(s, e);
      assert Next(s, e).cap == s.cap;
      hide Inv, Next, Enabled, UniqueKeys;
      UniqueSmall(Next(s, e), es[1..]);
    }
  }

  /** The map keeps its keys unique in every run if and only if it has room for at most one entry;
      its constructor asks for more than two. */
  lemma UniqueIff(cap: nat)
    ensures (forall es :: Runs(Init(cap), es) ==> UniqueKeys(After(Init(cap), es))) <==> cap <= 1
  {
    InvInit(cap);
    if cap <= 1 {
      forall es | Runs(Init(cap), es)
        ensures UniqueKeys(After(Init(cap), es))
      {
        UniqueSmall(Init(cap), es);
      }
    } else {
      var es := Fill(cap, cap);
      var s, k := After(Init(cap), es), LongKey(cap);
      assert Absent(s, k);
      TwiceInserted(s, 0, 1, k);
      var more := [EvictStart(0, k), EvictStart(1, k), EvictEnd(0), EvictEnd(1)];
      RunJoin(Init(cap), es, more);
      assert !UniqueKeys(After(Init(cap), es + more));
    }
  }
}
