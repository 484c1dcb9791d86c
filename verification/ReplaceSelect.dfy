/** Replacement selection (src/terark/replace_select_sort.hpp) on the bottom-up heap of
    src/terark/heap_ext.hpp, with the order `greater`: the least element is on top.  The reader is a
    sequence, the writers are the runs. */
module ReplaceSelect {

  ghost predicate Sorted(s: seq<int>) {
    forall i, j :: 0 <= i < j < |s| ==> s[i] <= s[j]
  }

  ghost function Parent(i: int): int {
    (i - 1) / 2
  }

  ghost predicate Child(i: int, len: nat, x: int) {
    0 < i < len && Parent(i) == x
  }

  /** Node i is `top` or below it. */
  ghost predicate Under(i: nat, top: nat) {
    i == top || (top < i && Under((i - 1) / 2, top))
  }

  lemma {:induction false} UnderAbove(i: nat, top: nat)
    requires Under(i, top) && i != top
    ensures top <= (i - 1) / 2 && Under((i - 1) / 2, top)
  {
    if (i - 1) / 2 != top { UnderAbove((i - 1) / 2, top); }
  }

  lemma UnderKid(i: nat, top: nat, child: nat)
    requires Under(i, top) && (child == 2 * i + 1 || child == 2 * i + 2)
    ensures Under(child, top) && top <= i
  {
    if i != top { UnderAbove(i, top); }
  }

  /** No node of s[lo..len] is greater than its children there. */
  ghost predicate HeapFrom(s: seq<int>, lo: nat, len: nat) {
    len <= |s| && forall i {:trigger Parent(i)} :: 0 < i < len && lo <= Parent(i) ==> s[Parent(i)] <= s[i]
  }

  /** The same with the node `hole` left out: the nodes around it are in order with each other. */
  ghost predicate HeapAround(s: seq<int>, lo: nat, len: nat, hole: nat) {
    && lo <= hole < len <= |s|
    && (forall i {:trigger Parent(i)} :: 0 < i < len && lo <= Parent(i) && i != hole && Parent(i) != hole ==>
      s[Parent(i)] <= s[i])
    && (hole > 0 && lo <= Parent(hole) ==>
          forall i {:trigger Parent(i)} :: 0 < i < len && Parent(i) == hole ==> s[Parent(hole)] <= s[i])
  }

  /** The element at `x` is not greater than any child of `hole`. */
  ghost predicate BelowKids(s: seq<int>, len: nat, hole: nat, v: int) {
    len <= |s| && forall i {:trigger Parent(i)} :: 0 < i < len && Parent(i) == hole ==> v <= s[i]
  }

  lemma SwapMultiset(s: seq<int>, i: nat, j: nat, v: int)
    requires i < |s| && j < |s| && i != j
    ensures multiset(s[i := s[j]][j := v]) == multiset(s[i := v])
  {
    var t := s[i := v];
    assert s[i := s[j]][j := v] == t[i := t[j]][j := t[i]];
  }

  lemma MoveDown(s: seq<int>, top: nat, len: nat, hole: nat, child: nat)
    requires HeapAround(s, top, len, hole) && Child(child, len, hole) && BelowKids(s, len, hole, s[child])
    ensures child > hole && HeapAround(s[hole := s[child]], top, len, child)
  {
    var s' := s[hole := s[child]];
    forall i | 0 < i < len && top <= Parent(i) && i != child && Parent(i) != child ensures s'[Parent(i)] <= s'[i] {
    }
    forall i | 0 < i < len && Parent(i) == child ensures s'[Parent(child)] <= s'[i] {
    }
  }

  lemma MoveUp(s: seq<int>, top: nat, len: nat, hole: nat, v: int)
    requires HeapAround(s, top, len, hole) && hole > top && top <= Parent(hole) && s[Parent(hole)] > v
    ensures top <= Parent(hole) < hole
    ensures HeapAround(s[hole := s[Parent(hole)]], top, len, Parent(hole))
    ensures BelowKids(s[hole := s[Parent(hole)]], len, Parent(hole), v)
  {
    var p := Parent(hole);
    var s' := s[hole := s[p]];
    forall i | 0 < i < len && Parent(i) == p ensures v <= s'[i] {
    }
  }

  /** A hole that moved: with the value put into it, the elements are the same; beyond the heap nothing
      changed. */
  ghost predicate Shifted(s0: seq<int>, i: nat, s: seq<int>, j: nat, len: nat, val: int) {
    && |s| == |s0| && i < |s0| && j < |s| && len <= |s|
    && multiset(s[j := val]) == multiset(s0[i := val])
    && s[len..] == s0[len..]
  }

  lemma ShiftedNot(s: seq<int>, i: nat, len: nat, val: int)
    requires i < |s| && len <= |s|
    ensures Shifted(s, i, s, i, len, val)
  {
  }

  lemma ShiftedTwice(s0: seq<int>, i: nat, s1: seq<int>, j: nat, s2: seq<int>, k: nat, len: nat, val: int)
    requires Shifted(s0, i, s1, j, len, val) && Shifted(s1, j, s2, k, len, val)
    ensures Shifted(s0, i, s2, k, len, val)
  {
  }

  /** Moves the hole down to a leaf, always to the lesser child. */
  method HoleDown(a: array<int>, top: nat, len: nat, ghost val: int) returns (hole: nat)
    requires top < len <= a.Length && HeapFrom(a[..], top + 1, len)
    modifies a
    ensures HeapAround(a[..], top, len, hole) && len <= 2 * hole + 1 && Under(hole, top)
    ensures Shifted(old(a[..]), top, a[..], hole, len, val)
  {
    hole := top;
    DownStart(a[..], top, len);
    hide HeapAround, HeapFrom, Parent, Under, Shifted;
    ShiftedNot(a[..], top, len, val);
    ghost var s0 := a[..];
    var child2 := 2 * hole + 2;
    while child2 < len
      invariant top <= hole < len && HeapAround(a[..], top, len, hole) && child2 == 2 * hole + 2 && Under(hole, top)
      invariant Shifted(s0, top, a[..], hole, len, val)
    {
      ghost var s1, hole1 := a[..], hole;
      if a[child2] > a[child2 - 1] { child2 := child2 - 1; }
      UnderKid(hole, top, child2);
      hole := MoveHole(a, top, len, hole, child2, val);
      ShiftedTwice(s0, top, s1, hole1, a[..], hole, len, val);
      child2 := 2 * hole + 2;
    }
    if child2 == len {
      ghost var s1, hole1 := a[..], hole;
      UnderKid(hole, top, child2 - 1);
      hole := MoveHole(a, top, len, hole, child2 - 1, val);
      ShiftedTwice(s0, top, s1, hole1, a[..], hole, len, val);
    }
  }

  lemma DownStart(s: seq<int>, top: nat, len: nat)
    requires top < len <= |s| && HeapFrom(s, top + 1, len)
    ensures HeapAround(s, top, len, top)
  {
  }

  lemma Kids(s: seq<int>, len: nat, hole: nat, child: nat)
    requires len <= |s| && child < len && (child == 2 * hole + 1 || child == 2 * hole + 2)
    requires 2 * hole + 1 < len && s[child] <= s[2 * hole + 1] && (2 * hole + 2 < len ==> s[child] <= s[2 * hole + 2])
    ensures Child(child, len, hole) && BelowKids(s, len, hole, s[child])
  {
    forall i | 0 < i < len && Parent(i) == hole ensures s[child] <= s[i] {
      assert i == 2 * hole + 1 || i == 2 * hole + 2;
    }
  }

  method MoveHole(a: array<int>, top: nat, len: nat, hole: nat, child: nat, ghost val: int) returns (hole': nat)
    requires top <= hole < child < len <= a.Length && HeapAround(a[..], top, len, hole)
    requires child == 2 * hole + 1 || child == 2 * hole + 2
    requires a[child] <= a[2 * hole + 1] && (2 * hole + 2 < len ==> a[child] <= a[2 * hole + 2])
    modifies a
    ensures hole' == child && HeapAround(a[..], top, len, child)
    ensures Shifted(old(a[..]), hole, a[..], child, len, val)
  {
    hide HeapAround, Parent, BelowKids, Child;
    Kids(a[..], len, hole, child);
    MoveDown(a[..], top, len, hole, child);
    SwapMultiset(a[..], hole, child, val);
    a[hole] := a[child];
    assert a[..] == old(a[..])[hole := old(a[..])[child]];
    hole' := child;
  }

  /** Moves the hole up to where `val` fits, and fills it. */
  method HoleUp(a: array<int>, start: nat, top: nat, val: int, ghost len: nat)
    requires start < len <= a.Length && HeapAround(a[..], top, len, start) && BelowKids(a[..], len, start, val)
    requires Under(start, top)
    modifies a
    ensures HeapFrom(a[..], top, len)
    ensures multiset(a[..]) == multiset(old(a[..])[start := val])
    ensures a[len..] == old(a[len..])
  {
    var hole := start;
    Around(a[..], top, len, hole);
    hide HeapAround, BelowKids, HeapFrom;
    while hole > top && a[(hole - 1) / 2] > val
      invariant top <= hole < len && HeapAround(a[..], top, len, hole) && BelowKids(a[..], len, hole, val) &&
        Under(hole, top)
      invariant multiset(a[..][hole := val]) == multiset(old(a[..])[start := val])
      invariant a[len..] == old(a[len..])
    {
      ghost var s := a[..];
      var parent := (hole - 1) / 2;
      UnderAbove(hole, top);
      MoveUp(s, top, len, hole, val);
      SwapMultiset(s, hole, parent, val);
      a[hole] := a[parent];
      assert a[..] == s[hole := s[parent]];
      hole := parent;
    }
    ghost var s := a[..];
    a[hole] := val;
    assert a[..] == s[hole := val];
    Filled(s, top, len, hole, val);
  }

  lemma Around(s: seq<int>, top: nat, len: nat, hole: nat)
    requires HeapAround(s, top, len, hole)
    ensures top <= hole < len
  {
  }

  lemma Filled(s: seq<int>, top: nat, len: nat, hole: nat, val: int)
    requires HeapAround(s, top, len, hole) && BelowKids(s, len, hole, val)
    requires hole <= top || s[Parent(hole)] <= val
    ensures HeapFrom(s[hole := val], top, len)
  {
  }

  lemma NoKids(s: seq<int>, len: nat, leaf: nat, val: int)
    requires len <= |s| && len <= 2 * leaf + 1
    ensures BelowKids(s, len, leaf, val)
  {
    assert forall i {:trigger Parent(i)} :: 0 < i < len ==> Parent(i) < leaf;
  }

  /** Puts `val` into the heap in place of its node `top`: down to a leaf, then up to where it fits. */
  method AdjustHeap(a: array<int>, top: nat, len: nat, val: int)
    requires top < len <= a.Length && HeapFrom(a[..], top + 1, len)
    modifies a
    ensures HeapFrom(a[..], top, len)
    ensures multiset(a[..]) == multiset(old(a[..])[top := val])
    ensures a[len..] == old(a[len..])
  {
    var leaf := HoleDown(a, top, len, val);
    Around(a[..], top, len, leaf);
    NoKids(a[..], len, leaf, val);
    HoleUp(a, leaf, top, val, len);
  }

  /** `std::make_heap`: the nodes with children are put into the heap one by one, the last first. */
  method MakeHeap(a: array<int>, len: nat)
    requires len <= a.Length
    modifies a
    ensures HeapFrom(a[..], 0, len) && multiset(a[..]) == multiset(old(a[..])) && a[len..] == old(a[len..])
  {
    var i := len / 2;
    while i > 0
      invariant 0 <= i <= len / 2 && HeapFrom(a[..], i, len)
      invariant multiset(a[..]) == multiset(old(a[..])) && a[len..] == old(a[len..])
    {
      i := i - 1;
      ghost var s := a[..];
      assert s[i := s[i]] == s;
      AdjustHeap(a, i, len, a[i]);
    }
  }

  /** The least element is on top. */
  lemma {:induction false} TopLeast(s: seq<int>, len: nat, i: nat)
    requires HeapFrom(s, 0, len) && i < len
    ensures s[0] <= s[i]
  {
    if i > 0 {
      assert s[Parent(i)] <= s[i];
      TopLeast(s, len, Parent(i));
    }
  }

  /** `std::sort` of a range, as the sequence it leaves there. */
  function SortedOf(s: seq<int>): (r: seq<int>)
    ensures multiset(r) == multiset(s)
  {
    if s == [] then [] else
      assert s == s[..|s| - 1] + [s[|s| - 1]];
      Insert(SortedOf(s[..|s| - 1]), s[|s| - 1])
  }

  function Insert(s: seq<int>, x: int): (r: seq<int>)
    ensures multiset(r) == multiset(s) + multiset{x}
  {
    if s == [] || s[|s| - 1] <= x then s + [x] else
      assert s == s[..|s| - 1] + [s[|s| - 1]];
      Insert(s[..|s| - 1], x) + [s[|s| - 1]]
  }

  lemma {:induction false} InsertSorted(s: seq<int>, x: int)
    requires Sorted(s)
    ensures Sorted(Insert(s, x))
  {
    if s != [] && s[|s| - 1] > x {
      var front, last := s[..|s| - 1], s[|s| - 1];
      InsertSorted(front, x);
      forall k | k in Insert(front, x) ensures k <= last {
        assert k in multiset(front) + multiset{x};
      }
      AppendSorted(Insert(front, x), last);
    }
  }

  lemma AppendSorted(s: seq<int>, x: int)
    requires Sorted(s) && forall k :: k in s ==> k <= x
    ensures Sorted(s + [x])
  {
    assert forall i :: 0 <= i < |s| ==> s[i] in s;
  }

  lemma {:induction false} SortedOfSorted(s: seq<int>)
    ensures Sorted(SortedOf(s))
  {
    if s != [] {
      SortedOfSorted(s[..|s| - 1]);
      InsertSorted(SortedOf(s[..|s| - 1]), s[|s| - 1]);
    }
  }

  /** All elements of all runs. */
  ghost function Elements(runs: seq<seq<int>>): multiset<int> {
    if runs == [] then multiset{} else Elements(runs[..|runs| - 1]) + multiset(runs[|runs| - 1])
  }

  lemma ElementsAdd(runs: seq<seq<int>>, run: seq<int>)
    ensures Elements(runs + [run]) == Elements(runs) + multiset(run)
  {
    assert (runs + [run])[..|runs|] == runs;
  }

  ghost predicate AllSorted(runs: seq<seq<int>>) {
    forall r :: 0 <= r < |runs| ==> Sorted(runs[r])
  }

  /** Everything written to the current run is at most everything the heap holds. */
  ghost predicate Leads(run: seq<int>, s: seq<int>, hlen: nat) {
    && Sorted(run) && hlen <= |s|
    && forall i, j :: 0 <= i < |run| && 0 <= j < hlen ==> run[i] <= s[j]
  }

  lemma FirstOf(r: seq<int>, s: seq<int>)
    requires multiset(r) == multiset(s) && s != []
    ensures r != [] && r[0] in s
  {
    assert |multiset(r)| == |multiset(s)|;
    assert r[0] in multiset(r);
    assert r[0] in multiset(s);
  }

  /** Sorting leaves the least element first. */
  lemma SortedFirst(s: seq<int>, x: int)
    requires s != [] && forall k :: k in s ==> x <= k
    ensures SortedOf(s) != [] && x <= SortedOf(s)[0] && SortedOf(s)[0] in s
    ensures x in s ==> SortedOf(s)[0] == x
  {
    var r := SortedOf(s);
    SortedOfSorted(s);
    hide SortedOf;
    FirstOf(r, s);
    if x in s {
      assert x in multiset(s);
      assert x in multiset(r);
      var j :| 0 <= j < |r| && r[j] == x;
    }
  }

  ghost predicate LongEnough(runs: seq<seq<int>>, size: nat) {
    forall r :: 0 <= r < |runs| ==> size <= |runs[r]|
  }

  /** What is kept for the next run is less than the last element of the current one. */
  ghost predicate Aside(s: seq<int>, hlen: nat, run: seq<int>) {
    hlen <= |s| && (hlen < |s| ==> run != []) &&
    forall j :: hlen <= j < |s| ==> s[j] < run[|run| - 1]
  }

  /** `run` had to end: `next` starts below its last element. */
  ghost predicate Breaks(run: seq<int>, next: int) {
    run != [] && next < run[|run| - 1]
  }

  /** No two runs next to each other could have been one. */
  ghost predicate AllBreak(runs: seq<seq<int>>) {
    && (forall r :: 0 <= r < |runs| ==> runs[r] != [])
    && (forall r :: 0 < r < |runs| ==> runs[r] != [] && Breaks(runs[r - 1], runs[r][0]))
  }

  /** The first element of the current run, which may still be on top of the heap. */
  ghost function First(run: seq<int>, s: seq<int>): int
    requires s != []
  {
    if run != [] then run[0] else s[0]
  }

  ghost predicate Apart(s: seq<int>, hlen: nat, run: seq<int>, done: seq<seq<int>>) {
    && Aside(s, hlen, run) && AllBreak(done)
    && (s != [] && done != [] ==> Breaks(done[|done| - 1], First(run, s)))
  }

  /** Between two reads: the heap in s[..hlen], the elements kept for the next run after it. */
  ghost predicate Selecting(s: seq<int>, hlen: nat, run: seq<int>, done: seq<seq<int>>, seen: multiset<int>) {
    && 1 <= hlen <= |s| && HeapFrom(s, 0, hlen) && Leads(run, s, hlen)
    && AllSorted(done) && LongEnough(done, |s|) && |s| <= |run| + hlen
    && Apart(s, hlen, run, done)
    && Elements(done) + multiset(run) + multiset(s) == seen
  }

  /** The top goes to the run; the element that replaces it in the heap is not less. */
  lemma TopOut(s: seq<int>, hlen: nat, run: seq<int>, s': seq<int>, hlen': nat, val: int)
    requires 1 <= hlen <= |s| == |s'| && HeapFrom(s, 0, hlen) && Leads(run, s, hlen) && s[0] <= val && hlen' <= hlen
    requires multiset(s') == multiset(s[0 := val]) && s'[hlen'..] == s[hlen'..] && 0 < hlen'
    ensures Leads(run + [s[0]], s', hlen')
  {
    forall j | 0 <= j < hlen' ensures s'[j] in s[0 := val][..hlen'] {
      FrontSame(s[0 := val], s', hlen', j);
    }
    forall j | 0 <= j < hlen' ensures s[0] <= s'[j] {
      var i :| 0 <= i < hlen' && s[0 := val][i] == s'[j];
      if i > 0 { TopLeast(s, hlen, i); }
    }
    forall i | 0 <= i < |run| ensures run[i] <= s[0] { }
  }

  lemma FrontSame(s: seq<int>, s': seq<int>, n: nat, j: nat)
    requires |s| == |s'| && n <= |s| && j < n && multiset(s) == multiset(s') && s[n..] == s'[n..]
    ensures s'[j] in s[..n]
  {
    assert s == s[..n] + s[n..] && s' == s'[..n] + s'[n..];
    assert multiset(s) == multiset(s[..n]) + multiset(s[n..]);
    assert multiset(s') == multiset(s'[..n]) + multiset(s'[n..]);
    var x := s'[j];
    assert multiset(s[..n])[x] == multiset(s)[x] - multiset(s[n..])[x] == multiset(s'[..n])[x];
    assert s'[..n][j] == x && x in multiset(s'[..n]);
  }

  /** One element is read: the top of the heap is written, and the new element takes a place in the
      heap, or is kept for the next run. */
  method Select(vec: array<int>, hlen: nat, curr: int, run: seq<int>, done: seq<seq<int>>, ghost seen: multiset<int>)
    returns (hlen': nat, run': seq<int>, done': seq<seq<int>>)
    requires Selecting(vec[..], hlen, run, done, seen)
    modifies vec
    ensures Selecting(vec[..], hlen', run', done', seen + multiset{curr})
    ensures curr >= old(vec[0]) ==> hlen' == hlen && done' == done && run' == run + [old(vec[0])]
    ensures curr < old(vec[0]) && hlen > 1 ==> hlen' == hlen - 1 && done' == done && run' == run + [old(vec[0])]
    ensures curr < old(vec[0]) && hlen == 1 ==>
      hlen' == vec.Length && done' == done + [run + [old(vec[0])]] && run' == []
  {
    hide HeapFrom, Leads, AllSorted, LongEnough, Elements, Apart;
    ghost var s := vec[..];
    hlen', done' := hlen, done;
    run' := run + [vec[0]];
    HeapLater(s, hlen);
    if curr >= vec[0] {
      AdjustHeap(vec, 0, hlen, curr);
      TopOut(s, hlen, run, vec[..], hlen, curr);
      ApartStays(s, vec[..], hlen, run, done);
    } else {
      hlen' := hlen' - 1;
      if hlen' > 0 {
        SetAside(vec, hlen', curr, run, done, seen);
      } else {
        NextRun(s, hlen, run, done, seen);
        done', run' := done + [run'], [];
        ghost var s1 := s[0 := curr];
        vec[0] := curr;
        assert vec[..] == s1;
        MakeHeap(vec, vec.Length);
        hlen' := vec.Length;
        EmptyLeads(vec[..], hlen');
        ApartNext(s, hlen, curr, vec[..], run, done);
      }
    }
  }

  method SetAside(vec: array<int>, h: nat, curr: int, run: seq<int>, done: seq<seq<int>>, ghost seen: multiset<int>)
    requires Selecting(vec[..], h + 1, run, done, seen) && 0 < h && curr < vec[0]
    modifies vec
    ensures Selecting(vec[..], h, run + [old(vec[0])], done, seen + multiset{curr})
  {
    ghost var s := vec[..];
    TopLeast(s, h + 1, h);
    HeapLess(s, h + 1, h);
    HeapLater(s, h);
    hide HeapFrom, AllSorted, LongEnough, Elements, Apart;
    ghost var val := vec[h];
    AdjustHeap(vec, 0, h, vec[h]);
    LeadsLess(run, s, h + 1, h);
    TopOut(s, h, run, vec[..], h, val);
    ghost var s1 := vec[..];
    vec[h] := curr;
    assert vec[..] == s1[h := curr];
    Kept(s, s1, vec[..], h, curr);
    HeapFront(s1, vec[..], h);
    LeadsFront(run + [s[0]], s1, vec[..], h);
    ApartAside(s, s1, h, curr, run, done);
  }

  lemma ApartStays(s: seq<int>, s': seq<int>, hlen: nat, run: seq<int>, done: seq<seq<int>>)
    requires 1 <= hlen <= |s| == |s'| && s'[hlen..] == s[hlen..] && Apart(s, hlen, run, done) && Leads(run, s, hlen)
    ensures Apart(s', hlen, run + [s[0]], done)
  {
    hide AllBreak;
    forall j | hlen <= j < |s'| ensures s'[j] < s[0] {
      assert s'[j] == s'[hlen..][j - hlen] == s[hlen..][j - hlen] == s[j];
      assert run[|run| - 1] <= s[0];
    }
  }

  lemma ApartAside(s: seq<int>, s1: seq<int>, h: nat, curr: int, run: seq<int>, done: seq<seq<int>>)
    requires 0 < h < |s| == |s1| && s1[h..] == s[h..] && Apart(s, h + 1, run, done) && Leads(run, s, h + 1)
    requires curr < s[0]
    ensures Apart(s1[h := curr], h, run + [s[0]], done)
  {
    hide AllBreak;
    var s2 := s1[h := curr];
    forall j | h <= j < |s1| ensures s2[j] < s[0] {
      assert s1[j] == s1[h..][j - h] == s[h..][j - h] == s[j];
      if j > h { assert run[|run| - 1] <= s[0]; }
    }
  }

  /** A new run starts with the least of the elements kept. */
  lemma ApartNext(s: seq<int>, hlen: nat, curr: int, s': seq<int>, run: seq<int>, done: seq<seq<int>>)
    requires hlen == 1 <= |s| == |s'| && Apart(s, hlen, run, done) && Leads(run, s, hlen) && curr < s[0]
    requires multiset(s') == multiset(s[0 := curr])
    ensures Apart(s', |s'|, [], done + [run + [s[0]]])
  {
    assert s'[0] in multiset(s[0 := curr]);
    var i :| 0 <= i < |s| && s[0 := curr][i] == s'[0];
    assert s'[0] < s[0] by { if i > 0 { assert run[|run| - 1] <= s[0]; } }
    AddBreak(done, run + [s[0]], First(run, s));
  }

  lemma AddBreak(runs: seq<seq<int>>, run: seq<int>, first: int)
    requires AllBreak(runs) && run != [] && run[0] == first && (runs != [] ==> Breaks(runs[|runs| - 1], first))
    ensures AllBreak(runs + [run])
  {
  }

  lemma HeapLater(s: seq<int>, len: nat)
    requires HeapFrom(s, 0, len)
    ensures HeapFrom(s, 1, len)
  {
  }

  lemma HeapLess(s: seq<int>, len: nat, h: nat)
    requires HeapFrom(s, 0, len) && h <= len
    ensures HeapFrom(s, 0, h)
  {
  }

  lemma LeadsLess(run: seq<int>, s: seq<int>, len: nat, h: nat)
    requires Leads(run, s, len) && h <= len
    ensures Leads(run, s, h)
  {
  }

  lemma HeapFront(s: seq<int>, s': seq<int>, h: nat)
    requires HeapFrom(s, 0, h) && h <= |s| == |s'| && s'[..h] == s[..h]
    ensures HeapFrom(s', 0, h)
  {
    assert forall i :: 0 <= i < h ==> s'[i] == s'[..h][i] && s[i] == s[..h][i];
  }

  lemma LeadsFront(run: seq<int>, s: seq<int>, s': seq<int>, h: nat)
    requires Leads(run, s, h) && h <= |s| == |s'| && s'[..h] == s[..h]
    ensures Leads(run, s', h)
  {
    assert forall i :: 0 <= i < h ==> s'[i] == s'[..h][i] && s[i] == s[..h][i];
  }

  lemma EmptyLeads(s: seq<int>, h: nat)
    requires h <= |s|
    ensures Leads([], s, h)
  {
  }

  /** The run is finished with the last element of the heap. */
  lemma NextRun(s: seq<int>, hlen: nat, run: seq<int>, done: seq<seq<int>>, seen: multiset<int>)
    requires Selecting(s, hlen, run, done, seen) && hlen == 1
    ensures var done' := done + [run + [s[0]]];
      && AllSorted(done') && LongEnough(done', |s|)
      && forall c :: Elements(done') + multiset(s[0 := c]) == seen + multiset{c}
  {
    hide Apart;
    ElementsAdd(done, run + [s[0]]);
    forall c ensures multiset(s[0 := c]) == multiset(s) - multiset{s[0]} + multiset{c} {}
  }

  /** The stored element replaces a copy of the one moved to the top. */
  lemma Kept(s: seq<int>, s1: seq<int>, s2: seq<int>, h: nat, curr: int)
    requires 0 < h < |s| == |s1| && s2 == s1[h := curr]
    requires multiset(s1) == multiset(s[0 := s[h]]) && s1[h..] == s[h..]
    ensures multiset(s2) + multiset{s[0]} == multiset(s) + multiset{curr}
    ensures s2[..h] == s1[..h]
  {
    assert s1[h] == s[h];
  }

  lemma NoRuns(s: seq<int>, size: nat)
    ensures AllSorted([]) && LongEnough([], size) && Elements([]) == multiset{} && AllBreak([])
  {
  }

  lemma OnlyRun(s: seq<int>, size: nat)
    ensures AllSorted([SortedOf(s)]) && Elements([SortedOf(s)]) == multiset(s) && LongEnough([SortedOf(s)][..0], size)
  {
    SortedOfSorted(s);
    ElementsAdd([], SortedOf(s));
    assert [] + [SortedOf(s)] == [SortedOf(s)];
  }

  /** What the end of the input leaves: the heap ends the current run, the rest is the last run. */
  lemma LastRuns(s: seq<int>, hlen: nat, run: seq<int>, done: seq<seq<int>>, seen: multiset<int>)
    requires Selecting(s, hlen, run, done, seen)
    ensures var run1 := run + SortedOf(s[..hlen]);
      && LongEnough(done, |s|)
      && AllBreak(done + [run1])
      && (hlen < |s| ==> AllBreak(done + [run1] + [SortedOf(s[hlen..])]))
      && (hlen < |s| ==> LongEnough(done + [run1], |s|) && AllSorted(done + [run1] + [SortedOf(s[hlen..])])
                         && Elements(done + [run1] + [SortedOf(s[hlen..])]) == seen)
      && (hlen == |s| ==> AllSorted(done + [run1]) && Elements(done + [run1]) == seen)
  {
    LastBreaks(s, hlen, run, done);
    hide HeapFrom, Leads, Elements, Sorted, AllSorted, LongEnough, Apart, AllBreak;
    LastElements(s, hlen, run, done, seen);
    SortedOfSorted(s[hlen..]);
    RunOn(s, hlen, run);
    SumRuns(s, hlen, run);
    var run1 := run + SortedOf(s[..hlen]);
    AddRun(done, run1, |s|);
    AddRun(done + [run1], SortedOf(s[hlen..]), |s|);
  }

  lemma LastBreaks(s: seq<int>, hlen: nat, run: seq<int>, done: seq<seq<int>>)
    requires 1 <= hlen <= |s| && HeapFrom(s, 0, hlen) && Leads(run, s, hlen) && Apart(s, hlen, run, done)
    ensures var run1 := run + SortedOf(s[..hlen]);
      && AllBreak(done + [run1])
      && (hlen < |s| ==> AllBreak(done + [run1] + [SortedOf(s[hlen..])]))
  {
    var top := SortedOf(s[..hlen]);
    assert s[..hlen][0] == s[0];
    forall k | k in s[..hlen] ensures s[0] <= k {
      var i :| 0 <= i < hlen && s[i] == k;
      TopLeast(s, hlen, i);
    }
    SortedFirst(s[..hlen], s[0]);
    RunOn(s, hlen, run);
    var run1 := run + top;
    hide SortedOf, HeapFrom, AllBreak;
    AddBreak(done, run1, First(run, s));
    if hlen < |s| {
      LastKept(s, hlen, run, run1);
      AddBreak(done + [run1], SortedOf(s[hlen..]), SortedOf(s[hlen..])[0]);
    }
  }

  lemma LastKept(s: seq<int>, hlen: nat, run: seq<int>, run1: seq<int>)
    requires hlen < |s| && Aside(s, hlen, run) && |run| <= |run1| && run1[..|run|] == run && Sorted(run1)
    ensures SortedOf(s[hlen..]) != [] && Breaks(run1, SortedOf(s[hlen..])[0])
  {
    var r := SortedOf(s[hlen..]);
    FirstOf(r, s[hlen..]);
    var j :| 0 <= j < |s[hlen..]| && s[hlen..][j] == r[0];
    assert s[hlen + j] == r[0];
    assert run1[|run| - 1] == run1[..|run|][|run| - 1] == run[|run| - 1];
  }

  lemma AddRun(runs: seq<seq<int>>, run: seq<int>, size: nat)
    ensures AllSorted(runs) && Sorted(run) ==> AllSorted(runs + [run])
    ensures LongEnough(runs, size) && size <= |run| ==> LongEnough(runs + [run], size)
  {
    hide Sorted;
  }

  lemma LastElements(s: seq<int>, hlen: nat, run: seq<int>, done: seq<seq<int>>, seen: multiset<int>)
    requires hlen <= |s| && Elements(done) + multiset(run) + multiset(s) == seen
    ensures var run1 := run + SortedOf(s[..hlen]);
      && Elements(done + [run1] + [SortedOf(s[hlen..])]) == seen
      && (hlen == |s| ==> Elements(done + [run1]) == seen)
  {
    hide Elements;
    var run1 := run + SortedOf(s[..hlen]);
    ElementsAdd(done, run1);
    ElementsAdd(done + [run1], SortedOf(s[hlen..]));
    SumRuns(s, hlen, run);
    Regroup(Elements(done), multiset(run1), multiset(SortedOf(s[hlen..])), multiset(run), multiset(s));
    hide SortedOf;
  }

  lemma Regroup(e: multiset<int>, a: multiset<int>, b: multiset<int>, r: multiset<int>, m: multiset<int>)
    ensures a + b == r + m ==> e + a + b == e + r + m
    ensures a == r + m ==> e + a == e + r + m
  {
    assert e + a + b == e + (a + b) && e + r + m == e + (r + m);
  }

  lemma SumRuns(s: seq<int>, hlen: nat, run: seq<int>)
    requires hlen <= |s|
    ensures multiset(run + SortedOf(s[..hlen])) + multiset(SortedOf(s[hlen..])) == multiset(run) + multiset(s)
    ensures hlen == |s| ==> multiset(run + SortedOf(s[..hlen])) == multiset(run) + multiset(s)
    ensures |run + SortedOf(s[..hlen])| == |run| + hlen
  {
    assert s == s[..hlen] + s[hlen..];
    assert multiset(s) == multiset(s[..hlen]) + multiset(s[hlen..]);
    assert |SortedOf(s[..hlen])| == |multiset(SortedOf(s[..hlen]))| == |multiset(s[..hlen])| == hlen;
    assert hlen == |s| ==> s[..hlen] == s;
  }

  lemma RunOn(s: seq<int>, hlen: nat, run: seq<int>)
    requires Leads(run, s, hlen)
    ensures Sorted(run + SortedOf(s[..hlen]))
  {
    var r := SortedOf(s[..hlen]);
    SortedOfSorted(s[..hlen]);
    forall j | 0 <= j < |r| ensures r[j] in s[..hlen] {
      assert r[j] in multiset(r);
    }
  }

  /** Replacement selection: every run is sorted, together they are the input, every run but the last
      holds at least as many elements as `vec`, and every run starts below the last element of the
      one before; so sorted input is one run.  An empty `vec` is an error. */
  method ReplaceSelectSort(vec: array<int>, input: seq<int>) returns (ok: bool, runs: seq<seq<int>>)
    modifies vec
    ensures ok <==> vec.Length > 0
    ensures ok ==> |runs| > 0 && AllSorted(runs) && Elements(runs) == multiset(input)
    ensures ok ==> LongEnough(runs[..|runs| - 1], vec.Length)
    ensures ok ==> (input != [] ==> AllBreak(runs)) && (Sorted(input) ==> |runs| == 1)
  {
    hide HeapFrom, Leads, AllSorted, LongEnough, Elements, Selecting, AllBreak;
    if vec.Length == 0 { return false, []; }
    ok := true;
    var hlen := Fill(vec, input);
    if hlen < vec.Length {
      OnlyRun(input, vec.Length);
      OneBreaks(input);
      return true, [SortedOf(vec[..hlen])];
    }
    ghost var s := vec[..];
    MakeHeap(vec, vec.Length);
    var run, done: seq<seq<int>> := [], [];
    var k := hlen;
    Begin(s, vec[..], input, hlen);
    while k < |input|
      invariant vec.Length <= k <= |input| && hlen >= 0 && Selecting(vec[..], hlen, run, done, multiset(input[..k]))
      invariant Sorted(input) ==> hlen == vec.Length && done == []
    {
      ghost var seen := multiset(input[..k]);
      assert input[..k + 1] == input[..k] + [input[k]];
      TopSeen(vec[..], hlen, run, done, input, k);
      hlen, run, done := Select(vec, hlen, input[k], run, done, seen);
      k := k + 1;
    }
    assert input[..k] == input;
    runs := Drain(vec, hlen, run, done, multiset(input));
  }

  lemma OneBreaks(s: seq<int>)
    ensures s != [] ==> AllBreak([SortedOf(s)])
  {
    if s != [] { FirstOf(SortedOf(s), s); }
  }

  /** In sorted input no element is less than one before it. */
  lemma TopSeen(s: seq<int>, hlen: nat, run: seq<int>, done: seq<seq<int>>, input: seq<int>, k: nat)
    requires k < |input| && Selecting(s, hlen, run, done, multiset(input[..k]))
    ensures s != [] && (Sorted(input) ==> s[0] <= input[k])
  {
    hide HeapFrom, Leads, AllSorted, LongEnough, Elements, Apart;
    assert s[0] in multiset(s);
    assert s[0] in multiset(input[..k]);
    var i :| 0 <= i < k && input[..k][i] == s[0];
    assert input[i] == s[0];
  }

  /** Reads until the array is full or the input ends. */
  method Fill(vec: array<int>, input: seq<int>) returns (hlen: nat)
    modifies vec
    ensures hlen <= vec.Length && hlen <= |input| && vec[..hlen] == input[..hlen]
    ensures hlen < vec.Length ==> vec[..hlen] == input
    ensures hlen == vec.Length ==> vec[..] == input[..hlen]
  {
    hlen := 0;
    while hlen < vec.Length && hlen < |input|
      invariant hlen <= vec.Length && hlen <= |input| && vec[..hlen] == input[..hlen]
    {
      vec[hlen] := input[hlen];
      hlen := hlen + 1;
    }
    assert hlen < vec.Length ==> input[..hlen] == input;
    assert hlen == vec.Length ==> vec[..] == vec[..hlen];
  }

  lemma Begin(s: seq<int>, s': seq<int>, input: seq<int>, hlen: nat)
    requires 1 <= hlen == |s| == |s'| <= |input| && s == input[..hlen] && multiset(s') == multiset(s) &&
      HeapFrom(s', 0, hlen)
    ensures Selecting(s', hlen, [], [], multiset(input[..hlen]))
  {
    NoRuns(s, hlen);
    EmptyLeads(s', hlen);
    hide HeapFrom, Leads, AllSorted, LongEnough, Elements, AllBreak;
  }

  /** The end of the input: the heap ends the current run, and what was kept is one more. */
  method Drain(vec: array<int>, hlen: nat, run: seq<int>, done: seq<seq<int>>, ghost seen: multiset<int>)
    returns (runs: seq<seq<int>>)
    requires Selecting(vec[..], hlen, run, done, seen)
    ensures |runs| > 0 && AllSorted(runs) && Elements(runs) == seen && LongEnough(runs[..|runs| - 1], vec.Length)
    ensures AllBreak(runs) && |runs| == |done| + if hlen < vec.Length then 2 else 1
  {
    hide HeapFrom, Leads, AllSorted, LongEnough, Elements, AllBreak, Apart;
    LastRuns(vec[..], hlen, run, done, seen);
    assert vec[..][..hlen] == vec[..hlen] && vec[..][hlen..] == vec[hlen..];
    var run1 := run + SortedOf(vec[..hlen]);
    runs := done + [run1];
    assert runs[..|runs| - 1] == done;
    if hlen < vec.Length {
      ghost var most := runs;
      runs := runs + [SortedOf(vec[hlen..])];
      assert runs[..|runs| - 1] == most;
    }
  }
}
