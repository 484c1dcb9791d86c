/** lru_map_impl (src/terark/lru_map.hpp) as it is stored: reference counts, and one field per node
    that is a link of the ring of idle nodes or the solve state.  Each method is one section under
    the lock, or one unlocked access to the solve state; it carries out one event of LruProtocol.
    The hash table stands here as the map from the slots its chains reach to their keys; its search
    may return any slot with the key. */
module LruMap {

  import opened LruProtocol
  import opened Sequences

  // marks in link fields; a slot number is smaller than all of them
  const NIL: nat := 0xFFFF_FFFF
  const IN_PROGRESS: nat := 0xFFFF_FFFF
  const SOLVE_FAIL: nat := 0xFFFF_FFFE
  const SOLVE_DONE: nat := 0xFFFF_FFFD

  datatype Outcome =
    | NotFound                // lru_get of a key that is not there
    | Wait(slot: nat)         // another thread is solving it: call WaitSolve
    | Refused                 // its solving failed
    | Found(slot: nat)        // the thread now holds it
    | Solve(slot: nat)        // the thread has to solve it: call WakeSolve
    | Evicting(victim: nat)   // the lock is dropped to destroy the victim: call FinishEvict
    | Die                     // the table is full and no node is idle

  datatype Read = Sleeps | Died | Verdict(ok: bool)

  ghost function Succ(ring: seq<nat>, i: nat): nat
    requires i < |ring|
  {
    if i + 1 < |ring| then ring[i + 1] else ring[0]
  }

  ghost function Pred(ring: seq<nat>, i: nat): nat
    requires i < |ring|
  {
    if i > 0 then ring[i - 1] else ring[|ring| - 1]
  }

  /** From `head`, `next` goes once around the ring, and `prev` is its inverse. */
  ghost predicate Linked(ring: seq<nat>, head: nat, next: seq<nat>, prev: seq<nat>) {
    && NoDup(ring) && |next| == |prev|
    && head == (if ring == [] then NIL else ring[0])
    && (forall i :: 0 <= i < |ring| ==> ring[i] < |next|)
    && (forall i {:trigger next[ring[i]]} :: 0 <= i < |ring| ==> next[ring[i]] == Succ(ring, i))
    && (forall i {:trigger prev[ring[i]]} :: 0 <= i < |ring| ==> prev[ring[i]] == Pred(ring, i))
  }

  ghost function Code(s: Solve): nat {
    match s case InProgress(_) => IN_PROGRESS case Failed => SOLVE_FAIL case Done => SOLVE_DONE
  }

  ghost function KeysOf(nodes: map<nat, Node>): map<nat, Key> {
    map x | x in nodes :: nodes[x].key
  }

  /** The fields of a linked node. */
  ghost predicate Stored(nodes: map<nat, Node>, x: nat, refcnt: seq<nat>, next: seq<nat>)
    requires x in nodes
  {
    && x < |refcnt| && x < |next|
    && refcnt[x] == nodes[x].refs
    && (!Idle(nodes, x) ==> next[x] == Code(nodes[x].solve))
  }

  ghost predicate AllStored(nodes: map<nat, Node>, refcnt: seq<nat>, next: seq<nat>) {
    forall x :: x in nodes ==> Stored(nodes, x, refcnt, next)
  }

  ghost function Recount(s: State, x: nat, refs: nat): map<nat, Node>
    requires x in s.nodes
  {
    s.nodes[x := s.nodes[x].(refs := refs)]
  }

  /** What a lookup answers for the entry it finds, and leaves behind: it waits for a value that is
      being solved, is refused a failed one, and holds a solved one, which leaves the ring. */
  ghost predicate Looked(s: State, s': State, t: Tid, x: nat, r: Outcome) {
    x in s.nodes &&
    match s.nodes[x].solve
    case InProgress(_) =>
      r == Wait(x) && s' == s.(nodes := Recount(s, x, s.nodes[x].refs + 1), threads := s.threads[t := Waiter(x)])
    case Failed =>
      r == Refused && s' == s
    case Done =>
      && r == Found(x) && x !in s'.ring
      && s' == s.(nodes := Recount(s, x, s.nodes[x].refs + 1), ring := Without(s.ring, x),
                  threads := s.threads[t := Holder(x)])
  }

  /** A new entry for a key that was missing, solved by the thread. */
  ghost predicate Added(s: State, s': State, t: Tid, x: nat, k: Key) {
    && x !in s.nodes && x == (if s.free == [] then s.nElem else s.free[0])
    && s' == s.(nodes := s.nodes[x := Node(k, InProgress(t), 1, 0)], threads := s.threads[t := Solver(x)],
                free := if s.free == [] then [] else s.free[1..],
                nElem := if s.free == [] then s.nElem + 1 else s.nElem)
  }

  /** The longest idle entry is out of the map, and the thread destroys it. */
  ghost predicate Evicted(s: State, s': State, t: Tid, x: nat, k: Key) {
    && s.ring != [] && x == s.ring[|s.ring| - 1]
    && s' == s.(nodes := s.nodes - {x}, ring := s.ring[..|s.ring| - 1], threads := s.threads[t := Evictor(x, k)])
  }

  /** The new entry takes the slot of the victim. */
  ghost predicate Refilled(s: State, s': State, t: Tid, x: nat, k: Key) {
    s' == s.(nodes := s.nodes[x := Node(k, InProgress(t), 1, 0)], threads := s.threads[t := Solver(x)])
  }

  /** The verdict of the solver, on the node and for the solver itself. */
  ghost predicate Woken(s: State, s': State, t: Tid, x: nat, ok: bool) {
    && x in s.nodes
    && s' == s.(nodes := s.nodes[x := s.nodes[x].(solve := if ok then Done else Failed)],
                threads := s.threads[t := if ok then Holder(x) else Failing(x)])
  }

  /** A count less; the last thread puts the solved node at the head of the ring. */
  ghost predicate Released(s: State, s': State, t: Tid, x: nat) {
    && x in s.nodes && s.nodes[x].refs > 0
    && if s.nodes[x].refs > 1 then
         s' == s.(nodes := Recount(s, x, s.nodes[x].refs - 1), threads := s.threads - {t})
       else
         s' == s.(nodes := s.nodes[x := s.nodes[x].(refs := 0, released := s.clock)], ring := [x] + s.ring,
                  threads := s.threads - {t}, clock := s.clock + 1)
  }

  /** A count less; the last thread erases the failed node. */
  ghost predicate Dropped(s: State, s': State, t: Tid, x: nat) {
    && x in s.nodes && s.nodes[x].refs > 0
    && if s.nodes[x].refs > 1 then
         s' == s.(nodes := Recount(s, x, s.nodes[x].refs - 1), threads := s.threads - {t})
       else
         s' == s.(nodes := s.nodes - {x}, free := [x] + s.free, threads := s.threads - {t})
  }

  /** One more hit; the count has 32 bits. */
  function HitOnce(hitcnt: seq<nat>, x: nat): (r: seq<nat>)
    requires x < |hitcnt|
    ensures |r| == |hitcnt|
  {
    hitcnt[x := (hitcnt[x] + 1) % 0x1_0000_0000]
  }

  class LruMap {
    const cap: nat
    var keys: map<nat, Key>
    var free: seq<nat>
    var nElem: nat
    var refcnt: seq<nat>
    var hitcnt: seq<nat>
    var next: seq<nat>
    var prev: seq<nat>
    var head: nat
    var len: nat
    var numEvicting: nat

    ghost var st: State

    ghost predicate Valid()
      reads this
    {
      && Inv(st) && st.cap == cap <= SOLVE_DONE
      && |refcnt| == |hitcnt| == |next| == |prev| == cap
      && keys == KeysOf(st.nodes) && free == st.free && nElem == st.nElem
      && AllStored(st.nodes, refcnt, next)
      && Linked(st.ring, head, next, prev)
      && len == |st.ring| && numEvicting == |Evictors(st.threads)|
    }

    constructor (cap: nat)
      requires 2 < cap <= SOLVE_DONE
      ensures Valid() && st == Init(cap)
    {
      InvInit(cap);
      this.cap := cap;
      keys, free, nElem := map[], [], 0;
      refcnt, next, prev := seq(cap, _ => 0), seq(cap, _ => 0), seq(cap, _ => 0);
      hitcnt := seq(cap, _ => 0);
      head, len, numEvicting := NIL, 0, 0;
      st := Init(cap);
      assert Evictors(map[]) == {};
    }

    /** Puts a node that is not in the ring at its head. */
    method InsertAsNewHead(slot: nat, ghost ring: seq<nat>)
      requires Linked(ring, head, next, prev) && len == |ring| && slot < |next| < NIL && slot !in ring
      modifies this`next, this`prev, this`head, this`len
      ensures Linked([slot] + ring, head, next, prev) && len == |[slot] + ring| && |next| == old(|next|)
      ensures forall x :: 0 <= x < |next| && x !in [slot] + ring ==> next[x] == old(next)[x]
    {
      if head == NIL {
        next, prev := next[slot := slot], prev[slot := slot];
      } else {
        var tail := prev[head];
        RingInsert(ring, head, next, prev, slot);
        next, prev := next[slot := head], prev[slot := tail];
        next := next[tail := slot];
        prev := prev[head := slot];
      }
      head := slot;
      len := len + 1;
    }

    /** Takes a node out of the ring; its links become SOLVE_DONE. */
    method RemoveNode(slot: nat, ghost ring: seq<nat>)
      requires Linked(ring, head, next, prev) && len == |ring| && slot in ring && |next| <= SOLVE_DONE
      modifies this`next, this`prev, this`head, this`len
      ensures Linked(Without(ring, slot), head, next, prev) && len == |Without(ring, slot)| && |next| == old(|next|)
      ensures slot < |next| && next[slot] == SOLVE_DONE
      ensures forall x :: 0 <= x < |next| && x !in ring ==> next[x] == old(next)[x]
    {
      RingRemove(ring, head, next, prev, slot);
      var p, n := prev[slot], next[slot];
      next := next[p := n];
      prev := prev[n := p];
      if slot == head {
        if len == 1 { head := NIL; } else { head := n; }
      }
      prev := prev[slot := SOLVE_DONE];
      next := next[slot := SOLVE_DONE];
      len := len - 1;
    }

    /** Any slot with the key that the chains reach; nElem when there is none. */
    method FindI(k: Key) returns (idx: nat)
      requires Valid()
      ensures idx == nElem ==> Absent(st, k)
      ensures idx != nElem ==> idx in keys && keys[idx] == k
    {
      if x :| x in keys && keys[x] == k {
        idx := x;
        assert idx in st.nodes && idx < nElem;
      } else {
        idx := nElem;
        forall x | x in st.nodes ensures st.nodes[x].key != k { assert x in keys; }
      }
    }

    /** What both lru_get and lru_add do with a node they find. */
    method Lookup(t: Tid, k: Key, x: nat) returns (r: Outcome, ghost e: Event)
      requires Valid() && t !in st.threads && x in keys && keys[x] == k
      modifies this`refcnt, this`hitcnt, this`next, this`prev, this`head, this`len, this`st
      ensures r.Found? ==> r.slot == x
      ensures hitcnt == if r.Found? && x < |old(hitcnt)| then HitOnce(old(hitcnt), x) else old(hitcnt)
      ensures Valid() && Enabled(old(st), e) && st == Next(old(st), e) && Answers(e, t, k, r, st)
      ensures Looked(old(st), st, t, x, r) && (r.Wait? || r.Refused? || r.Found?)
    {
      hide Inv, AllStored, KeysOf, Evictors, Next, Linked, Without, NoDup, HitOnce, Looked;
      Decoded(x);
      if next[x] == IN_PROGRESS {
        e, r := Join(t, k, x), Wait(x);
        refcnt := refcnt[x := refcnt[x] + 1];
      } else if next[x] == SOLVE_FAIL {
        e, r := Refuse(t, k, x), Refused;
      } else {
        e, r := Hit(t, k, x), Found(x);
        if refcnt[x] == 0 { RemoveNode(x, st.ring); }
        refcnt := refcnt[x := refcnt[x] + 1];
        hitcnt := HitOnce(hitcnt, x);
      }
      LookupCommit(old(st), e, old(refcnt), old(next), refcnt, next);
      LookedAt(st, e, t, k, x, r);
      st := Next(st, e);
    }

    method LruGet(t: Tid, k: Key) returns (r: Outcome, ghost e: Event)
      requires Valid() && t !in st.threads
      modifies this
      ensures Valid() && Enabled(old(st), e) && st == Next(old(st), e) && Answers(e, t, k, r, st)
      ensures r.NotFound? <==> Absent(old(st), k)
      ensures r.NotFound? ==> st == old(st)
      ensures !r.NotFound? ==> exists x :: Finds(old(st), k, x) && Looked(old(st), st, t, x, r)
      ensures UniqueKeys(old(st)) ==> forall x :: Finds(old(st), k, x) ==> Looked(old(st), st, t, x, r)
      ensures hitcnt == if r.Found? && r.slot < |old(hitcnt)| then HitOnce(old(hitcnt), r.slot) else old(hitcnt)
    {
      hide Looked;
      var idx := FindI(k);
      if idx == nElem { return NotFound, Miss(t, k); }
      Decoded(idx);
      assert Finds(st, k, idx);
      hide LruMap.Valid;
      r, e := Lookup(t, k, idx);
    }

    /** The key is linked into a slot of the free list or a new one; its node starts in progress
        with one count, that of the thread. */
    method Insert(k: Key) returns (slot: nat)
      requires |refcnt| == |hitcnt| == |next| == |prev|
      requires free == [] ==> nElem < |next|
      requires free != [] ==> free[0] < |next|
      modifies this`keys, this`free, this`nElem, this`refcnt, this`hitcnt, this`next, this`prev
      ensures slot == (if old(free) == [] then old(nElem) else old(free)[0]) && slot < |next|
      ensures free == (if old(free) == [] then [] else old(free)[1..])
      ensures nElem == old(nElem) + (if old(free) == [] then 1 else 0)
      ensures keys == old(keys)[slot := k]
      ensures refcnt == old(refcnt)[slot := 1] && next == old(next)[slot := IN_PROGRESS]
      ensures prev == old(prev)[slot := IN_PROGRESS] && hitcnt == old(hitcnt)[slot := 1]
    {
      if free == [] {
        slot := nElem;
        nElem := nElem + 1;
      } else {
        slot := free[0];
        free := free[1..];
      }
      keys := keys[slot := k];
      refcnt, hitcnt := refcnt[slot := 1], hitcnt[slot := 1];
      next, prev := next[slot := IN_PROGRESS], prev[slot := IN_PROGRESS];
    }

    method LruAdd(t: Tid, k: Key) returns (r: Outcome, ghost e: Event)
      requires Valid() && t !in st.threads
      modifies this
      ensures Valid() && !r.NotFound?
      ensures !r.Die? ==> Enabled(old(st), e) && st == Next(old(st), e) && Answers(e, t, k, r, st)
      ensures !Absent(old(st), k) ==> exists x :: Finds(old(st), k, x) && Looked(old(st), st, t, x, r)
      ensures UniqueKeys(old(st)) ==> forall x :: Finds(old(st), k, x) ==> Looked(old(st), st, t, x, r)
      ensures Absent(old(st), k) && old(|keys| + numEvicting) < cap ==> r.Solve? && Added(old(st), st, t, r.slot, k)
      ensures Absent(old(st), k) && old(|keys| + numEvicting) >= cap && old(st).ring != [] ==>
        r.Evicting? && Evicted(old(st), st, t, r.victim, k)
      ensures r.Die? <==> Absent(old(st), k) && old(|keys| + numEvicting) >= cap && old(st).ring == []
      ensures r.Die? ==> unchanged(this)
      ensures r.Found? && r.slot < |old(hitcnt)| ==> hitcnt == HitOnce(old(hitcnt), r.slot)
      ensures r.Solve? && r.slot < |old(hitcnt)| ==> hitcnt == old(hitcnt)[r.slot := 1]
    {
      hide LruMap.Valid, Looked, Added, Evicted, Answers, Size, HitOnce, Next, Enabled, Inv;
      Entries();
      EmptyRing();
      var idx := FindI(k);
      if idx != nElem {
        Decoded(idx);
        assert Finds(st, k, idx);
        r, e := Lookup(t, k, idx);
        return;
      }
      if nElem - |free| >= cap {
        if head == NIL {
          return Die, Miss(t, k);
        }
        r, e := EvictLeastRecent(t, k);
      } else {
        r, e := AddAbsent(t, k);
      }
    }

    /** The elements of the table are its entries and the victims. */
    lemma Entries()
      requires Valid()
      ensures nElem - |free| == |keys| + numEvicting
    {
      assert Storage(st) && keys.Keys == st.nodes.Keys;
      assert |keys| == |keys.Keys| && |st.nodes| == |st.nodes.Keys|;
    }

    lemma EmptyRing()
      requires Valid()
      ensures head == NIL <==> st.ring == []
      ensures nElem - |free| == Size(st) && cap == st.cap && nElem <= |next|
      ensures head != NIL ==> head < cap && prev[head] == st.ring[|st.ring| - 1] && prev[head] in st.ring
    {
      if st.ring != [] { var _ := At(st.ring, head, next, prev, st.ring[0]); }
    }

    method AddAbsent(t: Tid, k: Key) returns (r: Outcome, ghost e: Event)
      requires Valid() && t !in st.threads && Absent(st, k) && nElem - |free| < cap
      modifies this
      ensures Valid() && r.Solve? && Added(old(st), st, t, r.slot, k)
      ensures r.slot < |old(hitcnt)| ==> hitcnt == old(hitcnt)[r.slot := 1]
      ensures Enabled(old(st), e) && st == Next(old(st), e) && Answers(e, t, k, r, st)
    {
      hide Inv, AllStored, KeysOf, Evictors, Next, Linked;
      e := AddNew(t, k);
      AddedAt(st, t, k);
      InsertCommit(st, e, head, refcnt, next, prev);
      var slot := Insert(k);
      st := Next(st, e);
      r := Solve(slot);
    }

    /** Takes the tail of the ring as victim and unlinks it; the lock is then dropped. */
    method EvictLeastRecent(t: Tid, k: Key) returns (r: Outcome, ghost e: Event)
      requires Valid() && t !in st.threads && Absent(st, k) && nElem - |free| >= cap && head != NIL
      modifies this
      ensures Valid() && r.Evicting? && Evicted(old(st), st, t, r.victim, k)
      ensures Enabled(old(st), e) && st == Next(old(st), e) && Answers(e, t, k, r, st)
    {
      hide Inv, AllStored, KeysOf, Evictors, Next, Linked, Without, Enabled, NoDup, Absent;
      EmptyRing();
      CanEvict(st, t, k);
      e := EvictStart(t, k);
      var victim := prev[head];
      RemoveNode(victim, st.ring);
      EvictCommit(st, e, refcnt, old(next), next);
      EvictedAt(st, t, k);
      LinkedOff(Without(st.ring, victim), victim, head, next, prev, IN_PROGRESS);
      prev := prev[victim := IN_PROGRESS];
      keys := keys - {victim};
      numEvicting := numEvicting + 1;
      st := Next(st, e);
      r := Evicting(victim);
    }

    /** The victim has been destroyed: its slot is freed and taken at once for the new key. */
    method FinishEvict(t: Tid, victim: nat, k: Key) returns (slot: nat)
      requires Valid() && t in st.threads && st.threads[t] == Evictor(victim, k)
      modifies this
      ensures Valid() && st == Next(old(st), EvictEnd(t)) && st.threads[t] == Solver(slot)
      ensures Refilled(old(st), st, t, victim, k)
      ensures slot == victim && (slot < |old(hitcnt)| ==> hitcnt == old(hitcnt)[slot := 1])
    {
      hide Inv, AllStored, KeysOf, Evictors, Next, Linked;
      ghost var e := EvictEnd(t);
      RefilledAt(st, t, k);
      InsertCommit(st, e, head, refcnt, next, prev);
      free := [victim] + free;
      numEvicting := numEvicting - 1;
      slot := Insert(k);
      st := Next(st, e);
    }

    /** The solver publishes its verdict, without the lock. */
    method WakeSolve(t: Tid, x: nat, ok: bool)
      requires Valid() && t in st.threads && st.threads[t] == Solver(x)
      modifies this`next, this`st
      ensures Valid() && Enabled(old(st), SolveEnd(t, ok)) && st == Next(old(st), SolveEnd(t, ok))
      ensures Woken(old(st), st, t, x, ok)
      ensures x < |old(next)| && next == old(next)[x := if ok then SOLVE_DONE else SOLVE_FAIL]
    {
      hide Inv, AllStored, KeysOf, Evictors, Next, Linked;
      SolveCommit(st, t, ok, head, refcnt, next, prev);
      WokenAt(st, t, x, ok);
      next := next[x := if ok then SOLVE_DONE else SOLVE_FAIL];
      st := Next(st, SolveEnd(t, ok));
    }

    /** One round of `wait_solve`, without the lock: the thread sleeps and reads again while the state
        is in progress; a later read that finds a verdict, never a link of the ring, returns it; a
        first read that finds one dies. */
    method WaitSolve(t: Tid, x: nat, first: bool) returns (r: Read)
      requires Valid() && t in st.threads && st.threads[t] == Waiter(x)
      modifies this`st
      ensures Valid() && x in old(st).nodes
      ensures r.Sleeps? <==> old(st).nodes[x].solve.InProgress?
      ensures r.Died? <==> first && !old(st).nodes[x].solve.InProgress?
      ensures !r.Verdict? ==> st == old(st)
      ensures r.Verdict? ==> Enabled(old(st), WaitEnd(t)) && st == Next(old(st), WaitEnd(t))
      ensures r.Verdict? ==> next[x] == if r.ok then SOLVE_DONE else SOLVE_FAIL
      ensures r.Verdict? ==> r.ok == old(st).nodes[x].solve.Done?
      ensures r.Verdict? ==> st == old(st).(threads := old(st).threads[t := if r.ok then Holder(x) else Failing(x)])
    {
      hide Inv, AllStored, KeysOf, Evictors, Linked, Next, Enabled;
      UsedRefs(st, t);
      WaitRead(st, x, refcnt, next);
      if next[x] == IN_PROGRESS { return Sleeps; }
      if first { return Died; }
      WaitCommit(st, t, refcnt, next);
      WaitedAt(st, t, x);
      r := Verdict(next[x] == SOLVE_DONE);
      st := Next(st, WaitEnd(t));
    }

    /** A thread that was told of a failure drops its count; the last one erases the entry. */
    method DropFailed(t: Tid, x: nat)
      requires Valid() && t in st.threads && st.threads[t] == Failing(x)
      modifies this
      ensures Valid() && Enabled(old(st), Drop(t)) && st == Next(old(st), Drop(t))
      ensures Dropped(old(st), st, t, x)
    {
      hide Inv, AllStored, KeysOf, Evictors, Next, Linked;
      DropCommit(st, t, refcnt, next);
      DroppedAt(st, t, x);
      refcnt := refcnt[x := refcnt[x] - 1];
      if refcnt[x] == 0 {
        keys := keys - {x};
        free := [x] + free;
      }
      st := Next(st, Drop(t));
    }

    method LruRelease(t: Tid, x: nat)
      requires Valid() && t in st.threads && st.threads[t] == Holder(x)
      modifies this
      ensures Valid() && Enabled(old(st), Release(t)) && st == Next(old(st), Release(t))
      ensures Released(old(st), st, t, x)
    {
      hide Inv, AllStored, KeysOf, Evictors, Next, Linked;
      ReleaseCommit(st, t, refcnt, next);
      ReleasedAt(st, t, x);
      ghost var ring := st.ring;
      refcnt := refcnt[x := refcnt[x] - 1];
      if refcnt[x] == 0 {
        InsertAsNewHead(x, ring);
      }
      ReleaseStored(old(st), t, old(refcnt), old(next), next);
      st := Next(st, Release(t));
    }

    lemma Decoded(x: nat)
      requires Valid() && x in keys
      ensures x in st.nodes && st.nodes[x].key == keys[x] && x < cap && refcnt[x] == st.nodes[x].refs
      ensures st.nodes[x].solve.InProgress? <==> next[x] == IN_PROGRESS
      ensures st.nodes[x].solve.Failed? <==> next[x] == SOLVE_FAIL
      ensures x in st.ring <==> Idle(st.nodes, x)
      ensures st.nodes[x].solve.Done? && st.nodes[x].refs > 0 ==> next[x] == SOLVE_DONE
      ensures Idle(st.nodes, x) ==> next[x] < cap
    {
      assert Stored(st.nodes, x, refcnt, next);
      if x in st.ring { var _ := At(st.ring, head, next, prev, x); }
    }
  }

  /** The outcome tells the thread which event it was. */
  ghost predicate Answers(e: Event, t: Tid, k: Key, r: Outcome, s: State) {
    match r
    case NotFound => e == Miss(t, k)
    case Wait(x) => e == Join(t, k, x)
    case Refused => e.Refuse? && e.t == t && e.k == k
    case Found(x) => e == Hit(t, k, x)
    case Solve(x) => e == AddNew(t, k) && t in s.threads && s.threads[t] == Solver(x)
    case Evicting(x) => e == EvictStart(t, k) && t in s.threads && s.threads[t] == Evictor(x, k)
    case Die => false
  }

  lemma LookedAt(s: State, e: Event, t: Tid, k: Key, x: nat, r: Outcome)
    requires Inv(s) && Enabled(s, e)
    requires (e == Join(t, k, x) && r == Wait(x)) || (e == Refuse(t, k, x) && r == Refused) ||
      (e == Hit(t, k, x) && r == Found(x))
    ensures Looked(s, Next(s, e), t, x, r)
  {
    assert Ring(s.nodes, s.ring);
    assert x in s.ring <==> Idle(s.nodes, x);
    hide Inv, Ring;
    if x in s.ring { WithoutIn(s.ring, x); } else { WithoutAbsent(s.ring, x); }
    hide Without;
  }

  lemma AddedAt(s: State, t: Tid, k: Key)
    requires Inv(s) && Enabled(s, AddNew(t, k))
    ensures var x := if s.free == [] then s.nElem else s.free[0]; Added(s, Next(s, AddNew(t, k)), t, x, k)
  {
    Facts(s, AddNew(t, k));
    hide Inv;
  }

  lemma EvictedAt(s: State, t: Tid, k: Key)
    requires Enabled(s, EvictStart(t, k))
    ensures s.ring != [] && Evicted(s, Next(s, EvictStart(t, k)), t, s.ring[|s.ring| - 1], k)
  {
  }

  lemma RefilledAt(s: State, t: Tid, k: Key)
    requires Enabled(s, EvictEnd(t)) && s.threads[t].key == k
    ensures Refilled(s, Next(s, EvictEnd(t)), t, s.threads[t].slot, k)
  {
    assert (s.threads - {t})[t := Solver(s.threads[t].slot)] == s.threads[t := Solver(s.threads[t].slot)];
    assert ([s.threads[t].slot] + s.free)[1..] == s.free;
  }

  lemma WokenAt(s: State, t: Tid, x: nat, ok: bool)
    requires Enabled(s, SolveEnd(t, ok)) && s.threads[t].slot == x
    ensures Woken(s, Next(s, SolveEnd(t, ok)), t, x, ok)
  {
  }

  lemma WaitedAt(s: State, t: Tid, x: nat)
    requires Enabled(s, WaitEnd(t)) && s.threads[t].slot == x
    ensures Next(s, WaitEnd(t)) ==
      s.(threads := s.threads[t := if s.nodes[x].solve.Done? then Holder(x) else Failing(x)])
  {
  }

  lemma DroppedAt(s: State, t: Tid, x: nat)
    requires Enabled(s, Drop(t)) && s.threads[t].slot == x
    ensures Dropped(s, Next(s, Drop(t)), t, x)
  {
  }

  lemma ReleasedAt(s: State, t: Tid, x: nat)
    requires Enabled(s, Release(t)) && s.threads[t].slot == x
    ensures Released(s, Next(s, Release(t)), t, x)
  {
  }

  /** The fields of every node are right again when those of the event's node are. */
  lemma StoredKept(s: State, e: Event, refcnt: seq<nat>, next: seq<nat>, refcnt': seq<nat>, next': seq<nat>)
    requires Enabled(s, e) && AllStored(s.nodes, refcnt, next) && Ring(s.nodes, s.ring)
    requires |refcnt'| == |refcnt| && |next'| == |next|
    requires forall y :: 0 <= y < |refcnt| && y != Target(s, e) ==> refcnt'[y] == refcnt[y]
    requires forall y :: 0 <= y < |next| && y != Target(s, e) && y !in s.ring ==> next'[y] == next[y]
    requires Target(s, e) in Next(s, e).nodes ==> Stored(Next(s, e).nodes, Target(s, e), refcnt', next')
    ensures AllStored(Next(s, e).nodes, refcnt', next')
  {
    forall y | y in Next(s, e).nodes ensures Stored(Next(s, e).nodes, y, refcnt', next') {
      if y != Target(s, e) {
        Untouched(s, e, y);
        assert Stored(s.nodes, y, refcnt, next);
        hide Next, Enabled, Ring;
        assert y in s.ring <==> Idle(s.nodes, y) by { assert Ring(s.nodes, s.ring); }
      }
    }
  }

  /** What every event leaves to be said about the table. */
  lemma Commit(s: State, e: Event)
    requires Inv(s) && Enabled(s, e)
    ensures Inv(Next(s, e)) && Next(s, e).cap == s.cap
    ensures |Evictors(Next(s, e).threads)| == |Evictors(s.threads)| + Bit(e.EvictStart?) - Bit(e.EvictEnd?)
    ensures KeysOf(Next(s, e).nodes) ==
      if e.AddNew? || e.EvictEnd? then KeysOf(s.nodes)[Target(s, e) := if e.AddNew? then e.k else s.threads[e.t].key]
      else if Target(s, e) in s.nodes && Target(s, e) !in Next(s, e).nodes then KeysOf(s.nodes) - {Target(s, e)}
      else KeysOf(s.nodes)
    ensures e.EvictEnd? || e.AddNew? ==> Target(s, e) !in s.nodes
    ensures Ring(s.nodes, s.ring)
  {
    InvKept(s, e);
    CapKept(s, e);
    EvictorsCount(s, e);
    KeysChange(s, e);
    Facts(s, e);
    hide Next, Enabled, Evictors, KeysOf;
  }

  lemma KeysChange(s: State, e: Event)
    requires Inv(s) && Enabled(s, e)
    ensures KeysOf(Next(s, e).nodes) ==
      if e.AddNew? || e.EvictEnd? then KeysOf(s.nodes)[Target(s, e) := if e.AddNew? then e.k else s.threads[e.t].key]
      else if Target(s, e) in s.nodes && Target(s, e) !in Next(s, e).nodes then KeysOf(s.nodes) - {Target(s, e)}
      else KeysOf(s.nodes)
  {
    var s', x := Next(s, e), Target(s, e);
    if x in s'.nodes { TargetKey(s, e); } else { TargetGone(s, e); }
    hide Next, Enabled, Inv, Target, KeysOf;
    forall y: nat | y != x ensures y in s'.nodes <==> y in s.nodes
      ensures y in s.nodes ==> s'.nodes[y] == s.nodes[y]
    {
      Untouched(s, e, y);
    }
    KeysBut(s.nodes, s'.nodes, x);
  }

  lemma KeysBut(nodes: map<nat, Node>, nodes': map<nat, Node>, x: nat)
    requires forall y: nat :: y != x ==> (y in nodes' <==> y in nodes)
    requires forall y: nat :: y != x && y in nodes ==> nodes'[y] == nodes[y]
    ensures x in nodes' ==> KeysOf(nodes') == KeysOf(nodes)[x := nodes'[x].key]
    ensures x !in nodes' ==> KeysOf(nodes') == KeysOf(nodes) - {x}
    ensures x !in nodes' && x !in nodes ==> KeysOf(nodes') == KeysOf(nodes)
    ensures x in nodes' && x in nodes && nodes'[x].key == nodes[x].key ==> KeysOf(nodes') == KeysOf(nodes)
  {
  }

  lemma TargetGone(s: State, e: Event)
    requires Enabled(s, e) && Target(s, e) !in Next(s, e).nodes
    ensures !e.AddNew? && !e.EvictEnd?
  {
  }

  lemma LookupCommit(s: State, e: Event, refcnt: seq<nat>, next: seq<nat>, refcnt': seq<nat>, next': seq<nat>)
    requires Inv(s) && Enabled(s, e) && (e.Join? || e.Refuse? || e.Hit?)
    requires AllStored(s.nodes, refcnt, next) && |refcnt'| == |refcnt| && |next'| == |next|
    requires e.x < |refcnt|
    requires e.Refuse? ==> refcnt' == refcnt && next' == next
    requires !e.Refuse? ==> refcnt' == refcnt[e.x := refcnt[e.x] + 1]
    requires e.Join? ==> next' == next
    requires e.Hit? ==> forall y :: 0 <= y < |next| && y !in s.ring ==> next'[y] == next[y]
    requires e.Hit? && e.x in s.ring ==> next'[e.x] == SOLVE_DONE
    ensures Inv(Next(s, e)) && AllStored(Next(s, e).nodes, refcnt', next')
    ensures KeysOf(Next(s, e).nodes) == KeysOf(s.nodes) && Next(s, e).free == s.free && Next(s, e).nElem == s.nElem
    ensures Next(s, e).ring == (if e.Hit? then Without(s.ring, e.x) else s.ring) && Next(s, e).cap == s.cap
    ensures e.Hit? && e.x !in s.ring ==> Next(s, e).ring == s.ring
    ensures |Evictors(Next(s, e).threads)| == |Evictors(s.threads)|
  {
    hide Inv, Next, Enabled, Evictors, KeysOf, AllStored, Ring, Without;
    Commit(s, e);
    LookupTarget(s, e);
    LookupStored(s, e.x, refcnt, next);
    if e.x !in s.ring { WithoutAbsent(s.ring, e.x); }
    StoredKept(s, e, refcnt, next, refcnt', next');
  }

  lemma LookupStored(s: State, x: nat, refcnt: seq<nat>, next: seq<nat>)
    requires Inv(s) && AllStored(s.nodes, refcnt, next) && x in s.nodes
    ensures Stored(s.nodes, x, refcnt, next) && (x in s.ring <==> Idle(s.nodes, x))
  {
  }

  lemma LookupTarget(s: State, e: Event)
    requires Inv(s) && Enabled(s, e) && (e.Join? || e.Refuse? || e.Hit?)
    ensures var s' := Next(s, e); var x := e.x;
      && Target(s, e) == x && x in s.nodes && x in s'.nodes && s'.nodes[x].solve == s.nodes[x].solve
      && s'.nodes[x].refs == s.nodes[x].refs + (if e.Refuse? then 0 else 1)
      && s'.free == s.free && s'.nElem == s.nElem
      && s'.ring == (if e.Refuse? then s.ring else Without(s.ring, x))
      && (e.Join? ==> s.nodes[x].solve.InProgress?) && (e.Hit? ==> s.nodes[x].solve.Done?)
  {
  }

  /** A new node in the slot that `Insert` takes. */
  lemma InsertCommit(s: State, e: Event, head: nat, refcnt: seq<nat>, next: seq<nat>, prev: seq<nat>)
    requires Inv(s) && Enabled(s, e) && (e.AddNew? || e.EvictEnd?)
    requires AllStored(s.nodes, refcnt, next) && Linked(s.ring, head, next, prev)
    requires |refcnt| == |next| == |prev| == s.cap <= SOLVE_DONE
    ensures var free := if e.EvictEnd? then [s.threads[e.t].slot] + s.free else s.free;
      var x := if free == [] then s.nElem else free[0];
      var s' := Next(s, e);
      && x < s.cap && Inv(s') && s'.cap == s.cap && s'.ring == s.ring
      && s'.free == (if free == [] then [] else free[1..]) && s'.nElem == s.nElem + (if free == [] then 1 else 0)
      && AllStored(s'.nodes, refcnt[x := 1], next[x := IN_PROGRESS])
      && Linked(s'.ring, head, next[x := IN_PROGRESS], prev[x := IN_PROGRESS])
      && KeysOf(s'.nodes) == KeysOf(s.nodes)[x := if e.AddNew? then e.k else s.threads[e.t].key]
      && |Evictors(s'.threads)| == |Evictors(s.threads)| - Bit(e.EvictEnd?)
      && e.t in s'.threads && s'.threads[e.t] == Solver(x)
  {
    hide Linked, AllStored, Counted, Phases, Solved, Recent, Storage;
    Commit(s, e);
    InsertTarget(s, e);
    var x := Target(s, e);
    assert x !in s.ring;
    hide Inv, Next, Enabled, Evictors, KeysOf, Ring;
    LinkedOff(s.ring, x, head, next, prev, IN_PROGRESS);
    StoredKept(s, e, refcnt, next, refcnt[x := 1], next[x := IN_PROGRESS]);
  }

  lemma InsertTarget(s: State, e: Event)
    requires Inv(s) && Enabled(s, e) && (e.AddNew? || e.EvictEnd?)
    ensures var free := if e.EvictEnd? then [s.threads[e.t].slot] + s.free else s.free;
      var x := if free == [] then s.nElem else free[0];
      var s' := Next(s, e);
      && x == Target(s, e) < s.cap && s'.ring == s.ring
      && s'.free == (if free == [] then [] else free[1..]) && s'.nElem == s.nElem + (if free == [] then 1 else 0)
      && e.t in s'.threads && s'.threads[e.t] == Solver(x)
      && x in s'.nodes && s'.nodes[x].refs == 1 && s'.nodes[x].solve.InProgress?
  {
    Facts(s, e);
    assert Storage(s) && Inv(s);
  }

  /** Writes to a node that is not in the ring. */
  lemma LinkedOff(ring: seq<nat>, x: nat, head: nat, next: seq<nat>, prev: seq<nat>, v: nat)
    requires Linked(ring, head, next, prev) && x !in ring && x < |next|
    ensures Linked(ring, head, next[x := v], prev[x := v])
    ensures Linked(ring, head, next[x := v], prev)
    ensures Linked(ring, head, next, prev[x := v])
  {
  }

  lemma WithoutLast(s: seq<nat>)
    requires NoDup(s) && s != []
    ensures Without(s, s[|s| - 1]) == s[..|s| - 1] && s[|s| - 1] !in s[..|s| - 1]
  {
    WithoutCut(s, |s| - 1);
    assert Cut(s, |s| - 1) == s[..|s| - 1];
  }

  lemma EvictCommit(s: State, e: Event, refcnt: seq<nat>, next: seq<nat>, next': seq<nat>)
    requires Inv(s) && Enabled(s, e) && e.EvictStart?
    requires AllStored(s.nodes, refcnt, next) && |next'| == |next|
    requires forall y :: 0 <= y < |next| && y !in s.ring ==> next'[y] == next[y]
    ensures var x := s.ring[|s.ring| - 1];
      var s' := Next(s, e);
      && Inv(s') && s'.cap == s.cap && s'.ring == Without(s.ring, x) && s'.free == s.free && s'.nElem == s.nElem
      && AllStored(s'.nodes, refcnt, next') && KeysOf(s'.nodes) == KeysOf(s.nodes) - {x}
      && |Evictors(s'.threads)| == |Evictors(s.threads)| + 1
      && e.t in s'.threads && s'.threads[e.t] == Evictor(x, e.k) && NoDup(s.ring) && x !in Without(s.ring, x)
  {
    Commit(s, e);
    EvictTarget(s, e);
    hide Inv, Next, Enabled, Evictors, KeysOf, AllStored, NoDup, Without;
    WithoutLast(s.ring);
    StoredKept(s, e, refcnt, next, refcnt, next');
  }

  lemma EvictTarget(s: State, e: Event)
    requires Inv(s) && Enabled(s, e) && e.EvictStart?
    ensures var x := s.ring[|s.ring| - 1];
      var s' := Next(s, e);
      && x == Target(s, e) && x in s.nodes && x !in s'.nodes && s'.ring == s.ring[..|s.ring| - 1]
      && s'.free == s.free && s'.nElem == s.nElem && e.t in s'.threads && s'.threads[e.t] == Evictor(x, e.k)
  {
    Facts(s, e);
  }

  lemma SolveCommit(s: State, t: Tid, ok: bool, head: nat, refcnt: seq<nat>, next: seq<nat>, prev: seq<nat>)
    requires Inv(s) && t in s.threads && s.threads[t].Solver?
    requires AllStored(s.nodes, refcnt, next) && Linked(s.ring, head, next, prev)
    ensures Enabled(s, SolveEnd(t, ok))
    ensures var x, s' := s.threads[t].slot, Next(s, SolveEnd(t, ok));
      var next' := if x < |next| then next[x := if ok then SOLVE_DONE else SOLVE_FAIL] else next;
      && x < |next| && Inv(s') && s'.cap == s.cap && s'.ring == s.ring && s'.free == s.free && s'.nElem == s.nElem
      && AllStored(s'.nodes, refcnt, next') && KeysOf(s'.nodes) == KeysOf(s.nodes)
      && |Evictors(s'.threads)| == |Evictors(s.threads)| && Linked(s'.ring, head, next', prev)
  {
    UsedRefs(s, t);
    var e, x := SolveEnd(t, ok), s.threads[t].slot;
    Commit(s, e);
    assert Stored(s.nodes, x, refcnt, next);
    SolveTarget(s, t, ok);
    assert x !in s.ring;
    hide Inv, Next, Enabled, Evictors, KeysOf, AllStored;
    LinkedOff(s.ring, x, head, next, prev, if ok then SOLVE_DONE else SOLVE_FAIL);
    hide Linked;
    StoredKept(s, e, refcnt, next, refcnt, next[x := if ok then SOLVE_DONE else SOLVE_FAIL]);
  }

  lemma SolveTarget(s: State, t: Tid, ok: bool)
    requires Enabled(s, SolveEnd(t, ok))
    ensures var x, s' := s.threads[t].slot, Next(s, SolveEnd(t, ok));
      && x == Target(s, SolveEnd(t, ok)) && x in s'.nodes && s'.nodes[x].refs == s.nodes[x].refs
      && s'.nodes[x].solve == (if ok then Done else Failed)
      && s'.ring == s.ring && s'.free == s.free && s'.nElem == s.nElem
  {
  }

  lemma WaitRead(s: State, x: nat, refcnt: seq<nat>, next: seq<nat>)
    requires Inv(s) && x in s.nodes && s.nodes[x].refs > 0 && AllStored(s.nodes, refcnt, next)
    ensures x < |next| && (next[x] == IN_PROGRESS <==> s.nodes[x].solve.InProgress?)
  {
    assert Stored(s.nodes, x, refcnt, next);
  }

  lemma WaitCommit(s: State, t: Tid, refcnt: seq<nat>, next: seq<nat>)
    requires Inv(s) && t in s.threads && s.threads[t].Waiter? && AllStored(s.nodes, refcnt, next)
    requires s.threads[t].slot in s.nodes && !s.nodes[s.threads[t].slot].solve.InProgress?
    ensures Enabled(s, WaitEnd(t))
    ensures var x, s' := s.threads[t].slot, Next(s, WaitEnd(t));
      && x < |next| && (next[x] == SOLVE_DONE || next[x] == SOLVE_FAIL)
      && t in s'.threads && s'.threads[t] == (if next[x] == SOLVE_DONE then Holder(x) else Failing(x))
      && Inv(s') && s'.nodes == s.nodes && s'.cap == s.cap && s'.ring == s.ring && s'.free == s.free &&
        s'.nElem == s.nElem
      && |Evictors(s'.threads)| == |Evictors(s.threads)|
  {
    UsedRefs(s, t);
    Commit(s, WaitEnd(t));
    assert Stored(s.nodes, s.threads[t].slot, refcnt, next);
    hide Inv, AllStored, KeysOf, Evictors;
  }

  lemma CanEvict(s: State, t: Tid, k: Key)
    requires t !in s.threads && Absent(s, k) && Size(s) >= s.cap && s.ring != []
    ensures Enabled(s, EvictStart(t, k))
  {
  }

  lemma DropCommit(s: State, t: Tid, refcnt: seq<nat>, next: seq<nat>)
    requires Inv(s) && t in s.threads && s.threads[t].Failing?
    requires AllStored(s.nodes, refcnt, next)
    ensures Enabled(s, Drop(t))
    ensures var x, s' := s.threads[t].slot, Next(s, Drop(t));
      && x < |refcnt| && refcnt[x] > 0 && Inv(s') && s'.cap == s.cap && s'.ring == s.ring && s'.nElem == s.nElem
      && s'.free == (if refcnt[x] == 1 then [x] + s.free else s.free)
      && AllStored(s'.nodes, refcnt[x := refcnt[x] - 1], next)
      && KeysOf(s'.nodes) == (if refcnt[x] == 1 then KeysOf(s.nodes) - {x} else KeysOf(s.nodes))
      && |Evictors(s'.threads)| == |Evictors(s.threads)|
  {
    UsedRefs(s, t);
    var e, x := Drop(t), s.threads[t].slot;
    Commit(s, e);
    assert Stored(s.nodes, x, refcnt, next) && Fits(s.nodes, s.free, s.nElem, t, s.threads[t]);
    DropTarget(s, t);
    hide Inv, Next, Enabled, Evictors, KeysOf, AllStored;
    StoredKept(s, e, refcnt, next, refcnt[x := refcnt[x] - 1], next);
  }

  lemma DropTarget(s: State, t: Tid)
    requires Enabled(s, Drop(t))
    ensures var x, s' := s.threads[t].slot, Next(s, Drop(t));
      && x == Target(s, Drop(t)) && s'.ring == s.ring && s'.nElem == s.nElem
      && if s.nodes[x].refs == 1 then x !in s'.nodes && s'.free == [x] + s.free
         else x in s'.nodes && s'.nodes[x] == s.nodes[x].(refs := s.nodes[x].refs - 1) && s'.free == s.free
  {
  }

  lemma ReleaseCommit(s: State, t: Tid, refcnt: seq<nat>, next: seq<nat>)
    requires Inv(s) && t in s.threads && s.threads[t].Holder?
    requires AllStored(s.nodes, refcnt, next)
    ensures Enabled(s, Release(t))
    ensures var x, s' := s.threads[t].slot, Next(s, Release(t));
      && x < |refcnt| && refcnt[x] > 0 && x < |next| && x !in s.ring && Inv(s') && s'.cap == s.cap
      && s'.ring == (if refcnt[x] == 1 then [x] + s.ring else s.ring)
      && s'.free == s.free && s'.nElem == s.nElem
      && KeysOf(s'.nodes) == KeysOf(s.nodes)
      && |Evictors(s'.threads)| == |Evictors(s.threads)|
  {
    UsedRefs(s, t);
    Commit(s, Release(t));
    assert Stored(s.nodes, s.threads[t].slot, refcnt, next);
    ReleaseTarget(s, t);
    hide Next, Enabled, Evictors, KeysOf, AllStored;
  }

  lemma ReleaseTarget(s: State, t: Tid)
    requires Enabled(s, Release(t))
    ensures var x, s' := s.threads[t].slot, Next(s, Release(t));
      && x == Target(s, Release(t)) && x in s'.nodes && s'.nodes[x].solve == s.nodes[x].solve
      && s'.nodes[x].refs == s.nodes[x].refs - 1
      && s'.ring == (if s.nodes[x].refs == 1 then [x] + s.ring else s.ring)
      && s'.free == s.free && s'.nElem == s.nElem
  {
  }

  lemma ReleaseStored(s: State, t: Tid, refcnt: seq<nat>, next: seq<nat>, next': seq<nat>)
    requires Inv(s) && t in s.threads && s.threads[t].Holder? && Enabled(s, Release(t))
    requires AllStored(s.nodes, refcnt, next) && |next'| == |next|
    requires s.threads[t].slot < |refcnt| && refcnt[s.threads[t].slot] > 0
    requires refcnt[s.threads[t].slot] > 1 ==> next' == next
    requires forall y :: 0 <= y < |next| && y != s.threads[t].slot && y !in s.ring ==> next'[y] == next[y]
    ensures AllStored(Next(s, Release(t)).nodes, refcnt[s.threads[t].slot := refcnt[s.threads[t].slot] - 1], next')
  {
    var x := s.threads[t].slot;
    assert Stored(s.nodes, x, refcnt, next) && Fits(s.nodes, s.free, s.nElem, t, s.threads[t]);
    ReleaseTarget(s, t);
    assert Ring(s.nodes, s.ring);
    hide Inv, Next, Enabled, AllStored, Ring;
    StoredKept(s, Release(t), refcnt, next, refcnt[x := refcnt[x] - 1], next');
  }

  /** A node put before the head. */
  lemma RingInsert(ring: seq<nat>, head: nat, next: seq<nat>, prev: seq<nat>, x: nat)
    requires Linked(ring, head, next, prev) && ring != [] && x < |next| && x !in ring
    ensures head < |prev| && prev[head] < |next| && head != x && prev[head] != x
    ensures Linked([x] + ring, x, next[x := head][prev[head] := x], prev[x := prev[head]][head := x])
    ensures prev[head] in ring
  {
    assert prev[ring[0]] == Pred(ring, 0) && ring[|ring| - 1] in ring && ring[0] in ring;
    ConsNoDup(x, ring);
    var ring', next', prev' := [x] + ring, next[x := head][prev[head] := x], prev[x := prev[head]][head := x];
    forall i | 0 <= i < |ring'| ensures next'[ring'[i]] == Succ(ring', i) && prev'[ring'[i]] == Pred(ring', i) {
      InsertLinks(ring, next, prev, x, i);
    }
  }

  lemma InsertLinks(ring: seq<nat>, next: seq<nat>, prev: seq<nat>, x: nat, i: nat)
    requires NoDup(ring) && |next| == |prev| && ring != [] && x < |next| && x !in ring && i <= |ring|
    requires forall j :: 0 <= j < |ring| ==> ring[j] < |next|
    requires forall j {:trigger next[ring[j]]} :: 0 <= j < |ring| ==> next[ring[j]] == Succ(ring, j)
    requires forall j {:trigger prev[ring[j]]} :: 0 <= j < |ring| ==> prev[ring[j]] == Pred(ring, j)
    ensures var r, head, tail := [x] + ring, ring[0], ring[|ring| - 1];
      && next[x := head][tail := x][r[i]] == Succ(r, i)
      && prev[x := tail][head := x][r[i]] == Pred(r, i)
  {
    if i > 0 {
      assert next[ring[i - 1]] == Succ(ring, i - 1) && prev[ring[i - 1]] == Pred(ring, i - 1);
    }
  }

  ghost function Cut(s: seq<nat>, k: nat): seq<nat>
    requires k < |s|
  {
    seq(|s| - 1, i requires 0 <= i < |s| - 1 => if i < k then s[i] else s[i + 1])
  }

  lemma {:induction false} WithoutCut(s: seq<nat>, k: nat)
    requires k < |s| && NoDup(s)
    ensures Without(s, s[k]) == Cut(s, k)
  {
    if k > 0 {
      TailNoDup(s);
      WithoutCut(s[1..], k - 1);
    }
  }

  lemma CutNoDup(s: seq<nat>, k: nat)
    requires k < |s| && NoDup(s)
    ensures NoDup(Cut(s, k))
  {
    var r := Cut(s, k);
    forall i, j | 0 <= i < j < |r| ensures r[i] != r[j] {
      assert s[if i < k then i else i + 1] != s[if j < k then j else j + 1];
    }
  }

  /** The two links around a node joined. */
  lemma RingRemove(ring: seq<nat>, head: nat, next: seq<nat>, prev: seq<nat>, x: nat)
    requires Linked(ring, head, next, prev) && x in ring && |next| <= SOLVE_DONE
    ensures x < |next| && next[x] < |next| && prev[x] < |next| && next[x] in ring && prev[x] in ring
    ensures Linked(Without(ring, x), if x == head then (if |ring| == 1 then NIL else next[x]) else head,
                   next[prev[x] := next[x]][x := SOLVE_DONE], prev[next[x] := prev[x]][x := SOLVE_DONE])
    ensures |Without(ring, x)| == |ring| - 1 && x !in Without(ring, x)
  {
    var k := At(ring, head, next, prev, x);
    WithoutCut(ring, k);
    WithoutIn(ring, x);
    hide NoDup, Without, Linked;
    CutLinked(ring, head, next, prev, k);
  }

  lemma At(ring: seq<nat>, head: nat, next: seq<nat>, prev: seq<nat>, x: nat) returns (k: nat)
    requires Linked(ring, head, next, prev) && x in ring
    ensures k < |ring| && ring[k] == x
    ensures x < |next| && next[x] == Succ(ring, k) < |next| && prev[x] == Pred(ring, k) < |next|
    ensures head == ring[0] && (x == head <==> k == 0) && NoDup(ring)
  {
    k :| 0 <= k < |ring| && ring[k] == x;
    assert next[ring[k]] == Succ(ring, k) && prev[ring[k]] == Pred(ring, k);
  }

  lemma CutLinked(ring: seq<nat>, head: nat, next: seq<nat>, prev: seq<nat>, k: nat)
    requires Linked(ring, head, next, prev) && k < |ring| && |next| <= SOLVE_DONE
    ensures ring[k] < |next| && Succ(ring, k) < |next| && Pred(ring, k) < |next|
    ensures Linked(Cut(ring, k), if k == 0 then (if |ring| == 1 then NIL else Succ(ring, k)) else head,
                   next[Pred(ring, k) := Succ(ring, k)][ring[k] := SOLVE_DONE],
                   prev[Succ(ring, k) := Pred(ring, k)][ring[k] := SOLVE_DONE])
  {
    CutNoDup(ring, k);
    CutAllLinks(ring, next, prev, k);
    hide NoDup;
  }

  lemma CutAllLinks(ring: seq<nat>, next: seq<nat>, prev: seq<nat>, k: nat)
    requires NoDup(ring) && |next| == |prev| && k < |ring|
    requires forall j :: 0 <= j < |ring| ==> ring[j] < |next|
    requires forall j {:trigger next[ring[j]]} :: 0 <= j < |ring| ==> next[ring[j]] == Succ(ring, j)
    requires forall j {:trigger prev[ring[j]]} :: 0 <= j < |ring| ==> prev[ring[j]] == Pred(ring, j)
    ensures Succ(ring, k) < |next| && Pred(ring, k) < |next|
    ensures var r := Cut(ring, k);
      var next', prev' := next[Pred(ring, k) := Succ(ring, k)][ring[k] := SOLVE_DONE],
        prev[Succ(ring, k) := Pred(ring, k)][ring[k] := SOLVE_DONE];
      && (forall i {:trigger next'[r[i]]} :: 0 <= i < |r| ==> r[i] < |next| && next'[r[i]] == Succ(r, i))
      && (forall i {:trigger prev'[r[i]]} :: 0 <= i < |r| ==> r[i] < |next| && prev'[r[i]] == Pred(r, i))
  {
    var r := Cut(ring, k);
    forall i | 0 <= i < |r|
      ensures r[i] < |next|
      ensures next[Pred(ring, k) := Succ(ring, k)][ring[k] := SOLVE_DONE][r[i]] == Succ(r, i)
      ensures prev[Succ(ring, k) := Pred(ring, k)][ring[k] := SOLVE_DONE][r[i]] == Pred(r, i)
    {
      CutLinks(ring, next, prev, k, i);
    }
  }

  lemma CutLinks(ring: seq<nat>, next: seq<nat>, prev: seq<nat>, k: nat, i: nat)
    requires NoDup(ring) && |next| == |prev| && k < |ring| && i < |ring| - 1
    requires forall j :: 0 <= j < |ring| ==> ring[j] < |next|
    requires forall j {:trigger next[ring[j]]} :: 0 <= j < |ring| ==> next[ring[j]] == Succ(ring, j)
    requires forall j {:trigger prev[ring[j]]} :: 0 <= j < |ring| ==> prev[ring[j]] == Pred(ring, j)
    ensures var x, r := ring[k], Cut(ring, k);
      && Succ(ring, k) < |next| && Pred(ring, k) < |next| && r[i] < |next|
      && next[Pred(ring, k) := Succ(ring, k)][x := SOLVE_DONE][r[i]] == Succ(r, i)
      && prev[Succ(ring, k) := Pred(ring, k)][x := SOLVE_DONE][r[i]] == Pred(r, i)
  {
    var j := if i < k then i else i + 1;
    assert next[ring[j]] == Succ(ring, j) && prev[ring[j]] == Pred(ring, j);
  }
}
