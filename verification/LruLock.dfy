/** The futex lock of LruMapLock (src/terark/lru_map.cpp) for any number of threads.  Every atomic
    access to the word is one event; a weak compare-and-exchange may fail although the word has the
    expected value, and a thread may return from the futex wait at any time. */
module LruLock {

  type Tid = nat

  /** Where a thread is; threads that do nothing with the lock are not listed. */
  datatype Pc =
    | Try        // about to exchange 0 for 1
    | Mark       // read 1, about to exchange 1 for 2
    | Asleep     // in the futex wait
    | Owner      // lock() has returned, unlock() has not begun
    | Leaving    // unlock() has subtracted 1 from 2 and will store 0

  datatype State = State(word: int, pcs: map<Tid, Pc>)

  datatype Event =
    | Lock(t: Tid)
    | FirstCas(t: Tid, spurious: bool)
    | SecondCas(t: Tid, spurious: bool)
    | Wake(t: Tid)
    | FetchSub(t: Tid)
    | Store(t: Tid)

  ghost predicate Enabled(s: State, e: Event) {
    match e
    case Lock(t) => t !in s.pcs
    case FirstCas(t, _) => t in s.pcs && s.pcs[t] == Try
    case SecondCas(t, _) => t in s.pcs && s.pcs[t] == Mark
    case Wake(t) => t in s.pcs && s.pcs[t] == Asleep
    case FetchSub(t) => t in s.pcs && s.pcs[t] == Owner
    case Store(t) => t in s.pcs && s.pcs[t] == Leaving
  }

  ghost function Next(s: State, e: Event): State
    requires Enabled(s, e)
  {
    match e
    case Lock(t) => s.(pcs := s.pcs[t := Try])
    case FirstCas(t, spurious) =>
      if s.word == 0 && !spurious then State(1, s.pcs[t := Owner])
      else if s.word == 0 then s
      else s.(pcs := s.pcs[t := if s.word == 2 then Asleep else Mark])
    case SecondCas(t, spurious) =>
      if s.word == 1 && !spurious then State(2, s.pcs[t := Asleep]) else s.(pcs := s.pcs[t := Try])
    case Wake(t) => s.(pcs := s.pcs[t := Try])
    case FetchSub(t) => State(s.word - 1, if s.word == 1 then s.pcs - {t} else s.pcs[t := Leaving])
    case Store(t) => State(0, s.pcs - {t})
  }

  ghost predicate Runs(s: State, es: seq<Event>)
    decreases |es|
  {
    es == [] || (Enabled(s, es[0]) && Runs(Next(s, es[0]), es[1..]))
  }

  ghost function After(s: State, es: seq<Event>): State
    requires Runs(s, es)
    decreases |es|
  {
    if es == [] then s else After(Next(s, es[0]), es[1..])
  }

  /** The thread keeps the others out. */
  ghost predicate Holds(s: State, t: Tid) {
    t in s.pcs && (s.pcs[t] == Owner || s.pcs[t] == Leaving)
  }

  ghost predicate Inv(s: State) {
    && 0 <= s.word <= 2
    && (s.word == 0 ==> forall t :: !Holds(s, t))
    && (s.word != 0 ==> exists t :: Holds(s, t))
    && (forall t, u :: Holds(s, t) && Holds(s, u) ==> t == u)
  }

  lemma InvKept(s: State, e: Event)
    requires Inv(s) && Enabled(s, e)
    ensures Inv(Next(s, e))
  {
    var s' := Next(s, e);
    assert Holds(s, e.t) <==> e.FetchSub? || e.Store?;
    if s.word != 0 {
      var h :| Holds(s, h);
      assert h != e.t ==> Holds(s', h);
      assert e.FetchSub? && s.word == 2 ==> Holds(s', e.t);
    } else if e.FirstCas? && !e.spurious {
      assert Holds(s', e.t);
    }
    assert forall t :: t != e.t ==> (Holds(s', t) <==> Holds(s, t));
  }

  lemma {:induction false} InvRuns(s: State, es: seq<Event>)
    requires Inv(s) && Runs(s, es)
    ensures Inv(After(s, es))
    decreases |es|
  {
    if es != [] {
      InvKept(s, es[0]);
      InvRuns(Next(s, es[0]), es[1..]);
    }
  }

  /** Mutual exclusion: in every reachable state at most one thread is inside, and the word is 0
      exactly when no thread owns the lock or is between its subtraction and its store of 0. */
  lemma MutualExclusion(es: seq<Event>, t: Tid, u: Tid)
    requires Runs(State(0, map[]), es)
    ensures var s := After(State(0, map[]), es);
      && (t in s.pcs && u in s.pcs && s.pcs[t] == Owner && s.pcs[u] == Owner ==> t == u)
      && (s.word == 0 <==> forall v :: v in s.pcs ==> s.pcs[v] != Owner && s.pcs[v] != Leaving)
      && s.word in {0, 1, 2}
  {
    InvRuns(State(0, map[]), es);
    var s := After(State(0, map[]), es);
    assert t in s.pcs && u in s.pcs && s.pcs[t] == Owner && s.pcs[u] == Owner ==> Holds(s, t) && Holds(s, u);
    if s.word == 0 {
      forall v | v in s.pcs
        ensures s.pcs[v] != Owner && s.pcs[v] != Leaving
      {
        assert !Holds(s, v);
      }
    } else {
      var h :| Holds(s, h);
      assert h in s.pcs;
    }
  }

  /** The lock as it is stored; each method is one atomic access. */
  class Futex {
    var word: int
    ghost var pcs: map<Tid, Pc>

    ghost predicate Valid()
      reads this
    {
      Inv(State(word, pcs))
    }

    constructor ()
      ensures Valid() && word == 0 && pcs == map[]
    {
      word, pcs := 0, map[];
    }

    /** compare_exchange_weak: succeeds only if the word is `expected`; returns what it read. */
    method CompareExchangeWeak(expected: int, desired: int, spurious: bool) returns (ok: bool, read: int)
      modifies this`word
      ensures read == old(word) && ok == (read == expected && !spurious)
      ensures word == if ok then desired else old(word)
    {
      read := word;
      ok := read == expected && !spurious;
      if ok { word := desired; }
    }

    /** One round of the loop of lock(), up to the second exchange or the wait. */
    method TryLock(t: Tid, spurious: bool) returns (pc: Pc)
      requires Valid() && t in pcs && pcs[t] == Try
      modifies this
      ensures Valid() && State(word, pcs) == Next(old(State(word, pcs)), FirstCas(t, spurious))
      ensures pcs == old(pcs)[t := pc] && word == if pc == Owner then 1 else old(word)
      ensures pc == Owner <==> old(word) == 0 && !spurious
      ensures pc == Mark <==> old(word) == 1
      ensures pc == Asleep <==> old(word) == 2
      ensures pc == Try <==> old(word) == 0 && spurious
    {
      InvKept(State(word, pcs), FirstCas(t, spurious));
      var ok, read := CompareExchangeWeak(0, 1, spurious);
      pc := if ok then Owner else if read == 0 then Try else if read == 2 then Asleep else Mark;
      assert pc == Try ==> pcs[t := pc] == pcs;
      pcs := pcs[t := pc];
    }

    /** The second exchange of the round: announces a waiter. */
    method MarkWaiter(t: Tid, spurious: bool) returns (pc: Pc)
      requires Valid() && t in pcs && pcs[t] == Mark
      modifies this
      ensures Valid() && State(word, pcs) == Next(old(State(word, pcs)), SecondCas(t, spurious))
      ensures pcs == old(pcs)[t := pc] && word == if pc == Asleep then 2 else old(word)
      ensures pc == if old(word) == 1 && !spurious then Asleep else Try
    {
      InvKept(State(word, pcs), SecondCas(t, spurious));
      var ok, _ := CompareExchangeWeak(1, 2, spurious);
      pc := if ok then Asleep else Try;
      pcs := pcs[t := pc];
    }

    /** fetch_sub of unlock(); the word it read is never 0. */
    method Subtract(t: Tid) returns (before: int)
      requires Valid() && t in pcs && pcs[t] == Owner
      modifies this
      ensures Valid() && State(word, pcs) == Next(old(State(word, pcs)), FetchSub(t))
      ensures before == old(word) >= 1 && word == before - 1
      ensures pcs == if before == 1 then old(pcs) - {t} else old(pcs)[t := Leaving]
    {
      InvKept(State(word, pcs), FetchSub(t));
      assert Holds(State(word, pcs), t);
      before := word;
      word := word - 1;
      pcs := if before == 1 then pcs - {t} else pcs[t := Leaving];
    }

    /** The store of 0 that follows when there was a waiter. */
    method Clear(t: Tid)
      requires Valid() && t in pcs && pcs[t] == Leaving
      modifies this
      ensures Valid() && State(word, pcs) == Next(old(State(word, pcs)), Store(t))
      ensures word == 0 && pcs == old(pcs) - {t}
    {
      InvKept(State(word, pcs), Store(t));
      word := 0;
      pcs := pcs - {t};
    }
  }
}
