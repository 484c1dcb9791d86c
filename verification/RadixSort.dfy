/** The radix sort of src/terark/radix_sort.cpp: least significant position first, on lists linked
    through indices, for keys of any mix of lengths.  Keys are sequences of character codes. */
module RadixSort {

  import opened Sequences

  const NIL: int := -1

  // ------------------------------------------------------------------ linked lists of indices

  ghost function Follow(s: seq<nat>, i: nat): int {
    if i < |s| then s[i] else NIL
  }

  /** The links within s; what the last element links to is open. */
  ghost predicate Linked(s: seq<nat>, link: seq<int>) {
    && NoDup(s)
    && (forall i :: 0 <= i < |s| ==> s[i] < |link|)
    && (forall i {:trigger link[s[i]]} :: 0 <= i < |s| - 1 ==> link[s[i]] == Follow(s, i + 1))
  }

  /** A list with its ends; the tail means nothing when the list is empty. */
  ghost predicate Ends(s: seq<nat>, head: int, tail: int) {
    head == Follow(s, 0) && (s != [] ==> tail == s[|s| - 1])
  }

  ghost predicate Chain(first: int, s: seq<nat>, link: seq<int>) {
    Linked(s, link) && first == Follow(s, 0) && (s != [] ==> link[s[|s| - 1]] == NIL)
  }

  lemma LinkedFrame(s: seq<nat>, link: seq<int>, x: nat, v: int)
    requires Linked(s, link) && x < |link| && (x !in s || (s != [] && x == s[|s| - 1]))
    ensures Linked(s, link[x := v])
  {
  }

  /** Two lists joined at the tail of the first. */
  lemma LinkedJoin(s: seq<nat>, r: seq<nat>, link: seq<int>)
    requires Linked(s, link) && Linked(r, link) && s != [] && r != [] && link[s[|s| - 1]] == r[0]
    requires forall x :: x in s ==> x !in r
    ensures Linked(s + r, link)
  {
    var t := s + r;
    forall i | 0 <= i < |t| - 1 ensures link[t[i]] == Follow(t, i + 1) {
      if i < |s| - 1 { assert link[s[i]] == Follow(s, i + 1); }
      else if i >= |s| { assert link[r[i - |s|]] == Follow(r, i - |s| + 1); }
    }
    forall i, j | 0 <= i < j < |t| ensures t[i] != t[j] {
      if i < |s| && j >= |s| { assert s[i] in s && r[j - |s|] in r; }
    }
  }

  // ------------------------------------------------------------------ what is sorted by

  type Key = seq<nat>

  /** Position -1 stands for the length of the key. */
  ghost predicate HasCode(keys: seq<Key>, x: nat, pos: int) {
    x < |keys| && -1 <= pos < |keys[x]|
  }

  function Code(keys: seq<Key>, x: nat, pos: int): nat
    requires HasCode(keys, x, pos)
  {
    if pos < 0 then |keys[x]| else keys[x][pos]
  }

  ghost predicate AllHave(keys: seq<Key>, s: seq<nat>, pos: int) {
    forall x :: x in s ==> HasCode(keys, x, pos)
  }

  /** The elements of s with code k, in their order. */
  ghost function ByCode(keys: seq<Key>, s: seq<nat>, pos: int, k: nat): seq<nat>
    requires AllHave(keys, s, pos)
  {
    if s == [] then [] else
      ByCode(keys, s[..|s| - 1], pos, k) + if Code(keys, s[|s| - 1], pos) == k then [s[|s| - 1]] else []
  }

  /** The lists for the codes below n, one after the other. */
  ghost function Gather(keys: seq<Key>, s: seq<nat>, pos: int, n: nat): seq<nat>
    requires AllHave(keys, s, pos)
  {
    if n == 0 then [] else Gather(keys, s, pos, n - 1) + ByCode(keys, s, pos, n - 1)
  }

  lemma {:induction false} ByCodeIn(keys: seq<Key>, s: seq<nat>, pos: int, k: nat)
    requires AllHave(keys, s, pos)
    ensures forall x :: x in ByCode(keys, s, pos, k) <==> x in s && Code(keys, x, pos) == k
  {
    if s != [] {
      ByCodeIn(keys, s[..|s| - 1], pos, k);
      assert forall x :: x in s <==> x in s[..|s| - 1] || x == s[|s| - 1];
    }
  }

  lemma {:induction false} GatherAt(keys: seq<Key>, s: seq<nat>, pos: int, n: nat, x: nat)
    requires AllHave(keys, s, pos)
    ensures x in Gather(keys, s, pos, n) <==> x in s && Code(keys, x, pos) < n
  {
    if n > 0 {
      GatherAt(keys, s, pos, n - 1, x);
      ByCodeIn(keys, s, pos, n - 1);
      hide ByCode;
    }
  }

  lemma {:induction false} GatherIn(keys: seq<Key>, s: seq<nat>, pos: int, n: nat)
    requires AllHave(keys, s, pos)
    ensures forall x :: x in Gather(keys, s, pos, n) <==> x in s && Code(keys, x, pos) < n
  {
    forall x ensures x in Gather(keys, s, pos, n) <==> x in s && Code(keys, x, pos) < n {
      GatherAt(keys, s, pos, n, x);
    }
  }

  // ------------------------------------------------------------------ the order

  /** Lexicographic, a proper prefix first. */
  ghost predicate Less(a: Key, b: Key) {
    b != [] && (a == [] || a[0] < b[0] || (a[0] == b[0] && Less(a[1..], b[1..])))
  }

  /** By the keys from position d on, equal ones by index. */
  ghost predicate Before(keys: seq<Key>, x: nat, y: nat, d: nat) {
    && x < |keys| && y < |keys| && d <= |keys[x]| && d <= |keys[y]|
    && (Less(keys[x][d..], keys[y][d..]) || (keys[x][d..] == keys[y][d..] && x < y))
  }

  ghost predicate SortedBy(keys: seq<Key>, s: seq<nat>, d: nat) {
    forall i, j :: 0 <= i < j < |s| ==> Before(keys, s[i], s[j], d)
  }

  lemma {:induction false} LessIrreflexive(a: Key)
    ensures !Less(a, a)
  {
    if a != [] { LessIrreflexive(a[1..]); }
  }

  lemma SortedNoDup(keys: seq<Key>, s: seq<nat>, d: nat)
    requires SortedBy(keys, s, d)
    ensures NoDup(s)
  {
    forall i, j | 0 <= i < j < |s| ensures s[i] != s[j] {
      assert Before(keys, s[i], s[j], d);
      if s[i] == s[j] { LessIrreflexive(keys[s[i]][d..]); }
    }
  }

  lemma FirstDecides(keys: seq<Key>, x: nat, y: nat, d: nat)
    requires HasCode(keys, x, d) && HasCode(keys, y, d)
    ensures Code(keys, x, d) < Code(keys, y, d) ==> Before(keys, x, y, d)
    ensures Code(keys, x, d) == Code(keys, y, d) && Before(keys, x, y, d + 1) ==> Before(keys, x, y, d)
  {
    var a, b := keys[x][d..], keys[y][d..];
    assert a[1..] == keys[x][d + 1..] && b[1..] == keys[y][d + 1..];
    assert a == [a[0]] + a[1..] && b == [b[0]] + b[1..];
  }

  lemma {:induction false} ByCodeSorted(keys: seq<Key>, s: seq<nat>, d: nat, k: nat)
    requires AllHave(keys, s, d) && SortedBy(keys, s, d + 1)
    ensures SortedBy(keys, ByCode(keys, s, d, k), d)
  {
    if s != [] {
      var front, x := s[..|s| - 1], s[|s| - 1];
      ByCodeSorted(keys, front, d, k);
      ByCodeIn(keys, front, d, k);
      if Code(keys, x, d) == k {
        forall y | y in ByCode(keys, front, d, k) ensures Before(keys, y, x, d) {
          var i :| 0 <= i < |front| && front[i] == y;
          assert Before(keys, s[i], x, d + 1);
          FirstDecides(keys, y, x, d);
        }
        AppendSorted(keys, ByCode(keys, front, d, k), [x], d);
      }
    }
  }

  lemma AppendSorted(keys: seq<Key>, s: seq<nat>, r: seq<nat>, d: nat)
    requires SortedBy(keys, s, d) && SortedBy(keys, r, d)
    requires forall x, y :: x in s && y in r ==> Before(keys, x, y, d)
    ensures SortedBy(keys, s + r, d)
  {
    var t := s + r;
    forall i, j | 0 <= i < j < |t| ensures Before(keys, t[i], t[j], d) {
      if i < |s| && j >= |s| { assert t[i] in s && t[j] in r; }
    }
  }

  /** A stable distribution by the character at d sorts by the keys from d on what was sorted by the
      keys after it. */
  lemma {:induction false} GatherSorted(keys: seq<Key>, s: seq<nat>, d: nat, n: nat)
    requires AllHave(keys, s, d) && SortedBy(keys, s, d + 1)
    ensures SortedBy(keys, Gather(keys, s, d, n), d)
  {
    if n > 0 {
      GatherSorted(keys, s, d, n - 1);
      ByCodeSorted(keys, s, d, n - 1);
      GatherIn(keys, s, d, n - 1);
      ByCodeIn(keys, s, d, n - 1);
      hide SortedBy, Before;
      forall x, y | x in Gather(keys, s, d, n - 1) && y in ByCode(keys, s, d, n - 1) ensures Before(keys, x, y, d) {
        FirstDecides(keys, x, y, d);
      }
      AppendSorted(keys, Gather(keys, s, d, n - 1), ByCode(keys, s, d, n - 1), d);
    }
  }

  // ------------------------------------------------------------------ what the sort computes

  ghost function Indices(n: nat): (s: seq<nat>)
    ensures |s| == n && forall i :: 0 <= i < n ==> s[i] == i
    ensures forall x: nat :: x in s <==> x < n
  {
    if n == 0 then [] else Indices(n - 1) + [n - 1]
  }

  /** The indices of the keys of length k. */
  ghost function Chunk(keys: seq<Key>, k: nat): seq<nat> {
    assert AllHave(keys, Indices(|keys|), -1);
    ByCode(keys, Indices(|keys|), -1, k)
  }

  /** The keys of at least k characters, when those after the first k have been sorted. */
  ghost function Level(keys: seq<Key>, radix: nat, max: nat, k: nat): (s: seq<nat>)
    ensures forall x :: x in s ==> x < |keys| && k <= |keys[x]|
    decreases max - k
  {
    ByCodeIn(keys, Indices(|keys|), -1, k);
    if k >= max then
      Chunk(keys, k)
    else
      GatherIn(keys, Level(keys, radix, max, k + 1), k, radix);
      Chunk(keys, k) + Gather(keys, Level(keys, radix, max, k + 1), k, radix)
  }

  ghost predicate Input(keys: seq<Key>, radix: nat, max: nat) {
    forall x :: 0 <= x < |keys| ==> |keys[x]| <= max && forall i :: 0 <= i < |keys[x]| ==> keys[x][i] < radix
  }

  ghost predicate Ascending(s: seq<nat>) {
    forall i, j :: 0 <= i < j < |s| ==> s[i] < s[j]
  }

  lemma ChunkSorted(keys: seq<Key>, k: nat)
    ensures SortedBy(keys, Chunk(keys, k), k)
    ensures forall x: nat :: x in Chunk(keys, k) <==> x < |keys| && |keys[x]| == k
  {
    ByCodeIn(keys, Indices(|keys|), -1, k);
    ByCodeOrder(keys, Indices(|keys|), k);
    var c := Chunk(keys, k);
    forall i, j | 0 <= i < j < |c| ensures Before(keys, c[i], c[j], k) {
      assert c[i] in c && c[j] in c;
      assert keys[c[i]][k..] == [] && keys[c[j]][k..] == [];
    }
  }

  lemma {:induction false} ByCodeOrder(keys: seq<Key>, s: seq<nat>, k: nat)
    requires AllHave(keys, s, -1) && Ascending(s)
    ensures Ascending(ByCode(keys, s, -1, k))
  {
    if s != [] {
      var front := s[..|s| - 1];
      ByCodeOrder(keys, front, k);
      ByCodeIn(keys, front, -1, k);
      var c := ByCode(keys, front, -1, k);
      forall i | 0 <= i < |c| ensures c[i] < s[|s| - 1] {
        assert c[i] in c && c[i] in front;
        var y :| 0 <= y < |front| && front[y] == c[i];
        assert s[y] == c[i];
      }
    }
  }

  lemma {:induction false} LevelSorted(keys: seq<Key>, radix: nat, max: nat, k: nat)
    requires Input(keys, radix, max) && k <= max
    ensures SortedBy(keys, Level(keys, radix, max, k), k)
    ensures forall x: nat :: x in Level(keys, radix, max, k) <==> x < |keys| && k <= |keys[x]|
    decreases max - k
  {
    ChunkSorted(keys, k);
    if k < max {
      var up := Level(keys, radix, max, k + 1);
      LevelSorted(keys, radix, max, k + 1);
      GatherIn(keys, up, k, radix);
      GatherSorted(keys, up, k, radix);
      forall x, y | x in Chunk(keys, k) && y in Gather(keys, up, k, radix) ensures Before(keys, x, y, k) {
        assert keys[x][k..] == [] && keys[y][k..] != [];
      }
      AppendSorted(keys, Chunk(keys, k), Gather(keys, up, k, radix), k);
    }
  }

  ghost predicate InOrder(keys: seq<Key>, x: nat, y: nat) {
    x < |keys| && y < |keys| && (Less(keys[x], keys[y]) || (keys[x] == keys[y] && x < y))
  }

  /** The whole sort: a permutation of the indices, in lexicographic order of the keys with a proper
      prefix first, equal keys in their first order. */
  lemma StableSort(keys: seq<Key>, radix: nat, max: nat)
    requires Input(keys, radix, max)
    ensures var s := Level(keys, radix, max, 0);
      && NoDup(s) && (forall x: nat :: x in s <==> x < |keys|) && |s| == |keys|
      && (forall i, j :: 0 <= i < j < |s| ==> InOrder(keys, s[i], s[j]))
  {
    var s := Level(keys, radix, max, 0);
    LevelSorted(keys, radix, max, 0);
    SortedNoDup(keys, s, 0);
    NoDupCard(s, |keys|);
    forall i, j | 0 <= i < j < |s|
      ensures InOrder(keys, s[i], s[j])
    {
      assert Before(keys, s[i], s[j], 0);
      assert keys[s[i]][0..] == keys[s[i]] && keys[s[j]][0..] == keys[s[j]];
    }
  }

  lemma NoDupCard(s: seq<nat>, n: nat)
    requires NoDup(s) && forall x: nat :: x in s <==> x < n
    ensures |s| == n
  {
    NoDupSize(s);
    NoDupSize(Indices(n));
    assert SetOf(s) == SetOf(Indices(n)) by {
      forall x ensures x in SetOf(s) <==> x in SetOf(Indices(n)) {
        if x in SetOf(s) { assert Indices(n)[x] == x; }
      }
    }
  }

  // ------------------------------------------------------------------ the lists in memory

  /** One bucket: the ends of its list, and the links within it. */
  ghost predicate Bucket(s: seq<nat>, head: int, tail: int, link: seq<int>) {
    Ends(s, head, tail) && Linked(s, link)
  }

  ghost predicate Buckets(keys: seq<Key>, s: seq<nat>, pos: int, heads: seq<int>, tails: seq<int>, link: seq<int>,
                          from: nat) {
    && AllHave(keys, s, pos) && |heads| == |tails|
    && forall k :: from <= k < |heads| ==> Bucket(ByCode(keys, s, pos, k), heads[k], tails[k], link)
  }

  /** The rest of the list, from its i-th element on, is still linked as it was. */
  ghost predicate Rest(s: seq<nat>, i: nat, link: seq<int>) {
    && NoDup(s) && (forall j :: 0 <= j < |s| ==> s[j] < |link|)
    && (forall j {:trigger link[s[j]]} :: i <= j < |s| ==> link[s[j]] == Follow(s, j + 1))
  }

  ghost predicate SameOff(s: seq<nat>, link: seq<int>, link': seq<int>) {
    |link'| == |link| && forall x :: 0 <= x < |link| && x !in s ==> link'[x] == link[x]
  }

  lemma {:induction false} NoBuckets(keys: seq<Key>, s: seq<nat>, pos: int, heads: seq<int>, tails: seq<int>,
                                     link: seq<int>)
    requires |heads| == |tails| && forall k :: 0 <= k < |heads| ==> heads[k] == NIL
    ensures Buckets(keys, [], pos, heads, tails, link, 0)
  {
  }

  lemma {:induction false} ByCodeNext(keys: seq<Key>, s: seq<nat>, i: nat, pos: int, k: nat)
    requires AllHave(keys, s, pos) && i < |s|
    ensures AllHave(keys, s[..i], pos) && AllHave(keys, s[..i + 1], pos) && HasCode(keys, s[i], pos)
    ensures ByCode(keys, s[..i + 1], pos, k) == ByCode(keys, s[..i], pos, k) + if Code(keys, s[i], pos) == k
      then [s[i]] else []
  {
    assert s[..i + 1][..i] == s[..i] && s[..i + 1][i] == s[i];
    assert s[i] in s && forall x :: x in s[..i + 1] ==> x in s;
    assert forall x :: x in s[..i] ==> x in s;
  }

  /** The links once x has been put behind the tail of its bucket. */
  function Appended(head: int, tail: int, link: seq<int>, x: nat): seq<int>
    requires head != NIL ==> 0 <= tail < |link|
  {
    if head == NIL then link else link[tail := x]
  }

  lemma {:induction false} TailSeen(keys: seq<Key>, s: seq<nat>, i: nat, pos: int, k: nat, head: int, tail: int,
                                    link: seq<int>)
    requires i < |s| && AllHave(keys, s[..i], pos) && NoDup(s) && Bucket(ByCode(keys, s[..i], pos, k), head, tail, link)
    ensures head != NIL ==>
      0 <= tail < |link| && tail in s[..i] && tail in s && HasCode(keys, tail, pos) && Code(keys, tail, pos) == k
    ensures head != NIL ==> tail != s[i]
    ensures head == NIL <==> ByCode(keys, s[..i], pos, k) == []
  {
    var b := ByCode(keys, s[..i], pos, k);
    ByCodeIn(keys, s[..i], pos, k);
    if b != [] {
      assert b[|b| - 1] in b;
      NotSeen(s, i);
    }
  }

  lemma RestNext(s: seq<nat>, i: nat, link: seq<int>, x: nat, v: int)
    requires Rest(s, i, link) && i < |s|
    ensures Rest(s, i + 1, link) && link[s[i]] == Follow(s, i + 1)
    ensures x < |link| && x in s[..i] ==>
      Rest(s, i + 1, link[x := v]) && link[x := v][s[i]] == Follow(s, i + 1) && SameOff(s, link, link[x := v])
  {
    assert link[s[i]] == Follow(s, i + 1);
    if x < |link| && x in s[..i] {
      var y :| 0 <= y < i && s[y] == x;
    }
  }

  lemma OwnBucket(b: seq<nat>, head: int, tail: int, link: seq<int>, x: nat)
    requires Bucket(b, head, tail, link) && x !in b && x < |link|
    ensures head != NIL ==> 0 <= tail < |link|
    ensures Bucket(b + [x], if head == NIL then x else head, x, Appended(head, tail, link, x))
  {
    if b != [] {
      LinkedFrame(b, link, tail, x);
      LinkedJoin(b, [x], link[tail := x]);
    }
  }

  lemma OtherBucket(b: seq<nat>, head: int, tail: int, link: seq<int>, y: nat, x: int)
    requires Bucket(b, head, tail, link) && y < |link| && y !in b
    ensures Bucket(b, head, tail, link[y := x])
  {
    LinkedFrame(b, link, y, x);
  }

  /** The i-th element goes to the end of its bucket. */
  lemma {:induction false} Distributed(keys: seq<Key>, s: seq<nat>, i: nat, pos: int, heads: seq<int>, tails: seq<int>,
                                       link: seq<int>)
    requires AllHave(keys, s, pos) && i < |s| && Rest(s, i, link)
    requires AllHave(keys, s[..i], pos) && Buckets(keys, s[..i], pos, heads, tails, link, 0)
    requires HasCode(keys, s[i], pos) && Code(keys, s[i], pos) < |heads| == |tails|
    ensures var c := Code(keys, s[i], pos);
      && (heads[c] != NIL ==> 0 <= tails[c] < |link|)
      && var link' := Appended(heads[c], tails[c], link, s[i]);
      && Rest(s, i + 1, link') && |link'| == |link| && s[i] < |link| && link'[s[i]] == Follow(s, i + 1) &&
        SameOff(s, link, link')
      && AllHave(keys, s[..i + 1], pos)
      && Buckets(keys, s[..i + 1], pos, if heads[c] == NIL then heads[c := s[i]] else heads, tails[c := s[i]], link', 0)
  {
    hide Rest, NoDup, Bucket, SameOff, ByCode, AllHave;
    var c, x := Code(keys, s[i], pos), s[i];
    OneDistributed(keys, s, i, pos, heads, tails, link);
    var heads', tails' := if heads[c] == NIL then heads[c := x] else heads, tails[c := x];
    var link' := Appended(heads[c], tails[c], link, x);
    forall k | 0 <= k < |heads| ensures Bucket(ByCode(keys, s[..i + 1], pos, k), heads'[k], tails'[k], link') {
      if k != c { OtherDistributed(keys, s, i, pos, heads, tails, link, k); }
    }
  }

  lemma {:induction false} OneDistributed(keys: seq<Key>, s: seq<nat>, i: nat, pos: int, heads: seq<int>,
                                          tails: seq<int>, link: seq<int>)
    requires AllHave(keys, s, pos) && i < |s| && Rest(s, i, link)
    requires AllHave(keys, s[..i], pos) && Buckets(keys, s[..i], pos, heads, tails, link, 0)
    requires HasCode(keys, s[i], pos) && Code(keys, s[i], pos) < |heads| == |tails|
    ensures var c := Code(keys, s[i], pos);
      && (heads[c] != NIL ==> 0 <= tails[c] < |link|)
      && var link' := Appended(heads[c], tails[c], link, s[i]);
      && Rest(s, i + 1, link') && |link'| == |link| && s[i] < |link| && link'[s[i]] == Follow(s, i + 1) &&
        SameOff(s, link, link')
      && AllHave(keys, s[..i + 1], pos)
      && Bucket(ByCode(keys, s[..i + 1], pos, c), if heads[c] == NIL then s[i] else heads[c], s[i], link')
  {
    var c, x := Code(keys, s[i], pos), s[i];
    var b := ByCode(keys, s[..i], pos, c);
    assert Bucket(b, heads[c], tails[c], link);
    hide Rest, NoDup, Bucket, SameOff, ByCode, AllHave, Buckets;
    RestParts(s, i, link);
    ByCodeNext(keys, s, i, pos, c);
    TailSeen(keys, s, i, pos, c, heads[c], tails[c], link);
    RestNext(s, i, link, if heads[c] == NIL then 0 else tails[c], x);
    SameOffSelf(s, link);
    NotSeen(s, i);
    ByCodeIn(keys, s[..i], pos, c);
    OwnBucket(b, heads[c], tails[c], link, x);
  }

  lemma {:induction false} NotByCode(keys: seq<Key>, s: seq<nat>, pos: int, k: nat, y: nat)
    requires AllHave(keys, s, pos) && HasCode(keys, y, pos) && Code(keys, y, pos) != k
    ensures y !in ByCode(keys, s, pos, k)
  {
    ByCodeIn(keys, s, pos, k);
  }

  lemma {:induction false} TailCode(keys: seq<Key>, s: seq<nat>, i: nat, pos: int, k: nat, head: int, tail: int,
                                    link: seq<int>)
    requires i < |s| && AllHave(keys, s[..i], pos) && NoDup(s) && Bucket(ByCode(keys, s[..i], pos, k), head, tail, link)
    ensures head != NIL ==> 0 <= tail < |link| && HasCode(keys, tail, pos) && Code(keys, tail, pos) == k
  {
    TailSeen(keys, s, i, pos, k, head, tail, link);
  }

  lemma {:induction false} OtherDistributed(keys: seq<Key>, s: seq<nat>, i: nat, pos: int, heads: seq<int>,
                                            tails: seq<int>, link: seq<int>, k: nat)
    requires AllHave(keys, s, pos) && i < |s| && Rest(s, i, link)
    requires AllHave(keys, s[..i], pos) && Buckets(keys, s[..i], pos, heads, tails, link, 0)
    requires HasCode(keys, s[i], pos) && Code(keys, s[i], pos) < |heads| == |tails| && k < |heads| &&
      k != Code(keys, s[i], pos)
    ensures var c := Code(keys, s[i], pos);
      && (heads[c] != NIL ==> 0 <= tails[c] < |link|)
      && AllHave(keys, s[..i + 1], pos)
      && Bucket(ByCode(keys, s[..i + 1], pos, k), heads[k], tails[k], Appended(heads[c], tails[c], link, s[i]))
  {
    var c, x := Code(keys, s[i], pos), s[i];
    assert Bucket(ByCode(keys, s[..i], pos, c), heads[c], tails[c], link);
    assert Bucket(ByCode(keys, s[..i], pos, k), heads[k], tails[k], link);
    hide Rest, NoDup, Bucket, SameOff, ByCode, AllHave, Buckets, HasCode, Code;
    RestParts(s, i, link);
    TailCode(keys, s, i, pos, c, heads[c], tails[c], link);
    ByCodeNext(keys, s, i, pos, k);
    if heads[c] != NIL {
      NotByCode(keys, s[..i], pos, k, tails[c]);
      OtherBucket(ByCode(keys, s[..i], pos, k), heads[k], tails[k], link, tails[c], x);
    }
  }

  lemma SameOffSelf(s: seq<nat>, link: seq<int>)
    ensures SameOff(s, link, link)
  {
  }

  lemma RestParts(s: seq<nat>, i: nat, link: seq<int>)
    requires Rest(s, i, link) && i < |s|
    ensures NoDup(s) && s[i] < |link|
  {
  }

  /** The first i elements have been distributed. */
  ghost predicate Half(keys: seq<Key>, s: seq<nat>, i: nat, pos: int, heads: seq<int>, tails: seq<int>, link: seq<int>,
                       link0: seq<int>) {
    && i <= |s| && AllHave(keys, s, pos) && Rest(s, i, link) && AllHave(keys, s[..i], pos)
    && Buckets(keys, s[..i], pos, heads, tails, link, 0) && SameOff(s, link0, link)
  }

  lemma HalfStep(keys: seq<Key>, s: seq<nat>, i: nat, pos: int, heads: seq<int>, tails: seq<int>, link: seq<int>,
                 link0: seq<int>)
    requires Half(keys, s, i, pos, heads, tails, link, link0) && i < |s| && HasCode(keys, s[i], pos)
    requires Code(keys, s[i], pos) < |heads| == |tails|
    ensures var c := Code(keys, s[i], pos);
      && (heads[c] != NIL ==> 0 <= tails[c] < |link|)
      && var link' := Appended(heads[c], tails[c], link, s[i]);
      && s[i] < |link'| == |link| && link'[s[i]] == Follow(s, i + 1)
      && Half(keys, s, i + 1, pos, if heads[c] == NIL then heads[c := s[i]] else heads, tails[c := s[i]], link', link0)
  {
    Distributed(keys, s, i, pos, heads, tails, link);
    var c := Code(keys, s[i], pos);
    SameOffTwice(s, link0, link, Appended(heads[c], tails[c], link, s[i]));
    hide Rest, Buckets, SameOff;
  }

  lemma NotSeen(s: seq<nat>, i: nat)
    requires NoDup(s) && i < |s|
    ensures s[i] !in s[..i] && forall y :: 0 <= y < i ==> s[y] in s[..i]
  {
  }

  ghost predicate CodesBelow(keys: seq<Key>, s: seq<nat>, pos: int, n: nat)
    requires AllHave(keys, s, pos)
  {
    forall x :: x in s ==> Code(keys, x, pos) < n
  }

  lemma CodeAt(keys: seq<Key>, s: seq<nat>, pos: int, n: nat, i: nat)
    requires AllHave(keys, s, pos) && CodesBelow(keys, s, pos, n) && i < |s|
    ensures HasCode(keys, s[i], pos) && Code(keys, s[i], pos) < n
  {
    assert s[i] in s;
  }

  class Sorter {
    const keys: seq<Key>
    const radix: nat
    const max: nat
    var link: seq<int>
    var headLink: int

    constructor (keys: seq<Key>, radix: nat, max: nat)
      ensures this.keys == keys && this.radix == radix && this.max == max &&
        link == seq(|keys|, i => if i + 1 < |keys| then i + 1 else NIL)
      ensures headLink == NIL
    {
      this.keys, this.radix, this.max := keys, radix, max;
      link := seq(|keys|, i => if i + 1 < |keys| then i + 1 else NIL);
      headLink := NIL;
    }

    /** Puts every element of a list at the end of the list for its code. */
    method Distribute(first: int, pos: int, n: nat, ghost s: seq<nat>) returns (heads: seq<int>, tails: seq<int>)
      requires Chain(first, s, link) && |link| == |keys| && AllHave(keys, s, pos)
      requires CodesBelow(keys, s, pos, n)
      modifies this`link
      ensures |heads| == n && Buckets(keys, s, pos, heads, tails, link, 0) && SameOff(s, old(link), link)
    {
      heads, tails := seq(n, _ => NIL), seq(n, _ => NIL);
      NoBuckets(keys, s, pos, heads, tails, link);
      ChainRest(first, s, link);
      assert s[..0] == [];
      assert Half(keys, s, 0, pos, heads, tails, link, link);
      hide Half, Chain, Buckets, SameOff, CodesBelow, AllHave;
      var p := first;
      ghost var i := 0;
      while p != NIL
        invariant i <= |s| && p == Follow(s, i) && |heads| == |tails| == n && |link| == |keys|
        invariant Half(keys, s, i, pos, heads, tails, link, old(link))
        decreases |s| - i
      {
        CodeAt(keys, s, pos, n, i);
        HalfStep(keys, s, i, pos, heads, tails, link, old(link));
        var k := Code(keys, p, pos);
        if heads[k] == NIL { heads := heads[k := p]; } else { link := link[tails[k] := p]; }
        tails := tails[k := p];
        p := link[p];
        i := i + 1;
      }
      assert s[..i] == s;
      HalfEnd(keys, s, pos, heads, tails, link, old(link));
    }

    /** Joins the lists of all buckets into one. */
    method Collect(heads: seq<int>, tails: seq<int>, ghost s: seq<nat>, ghost pos: int) returns (first: int)
      requires AllHave(keys, s, pos) && CodesBelow(keys, s, pos, |heads|) && s != [] && |link| == |keys|
      requires Buckets(keys, s, pos, heads, tails, link, 0)
      modifies this`link
      ensures Chain(first, Gather(keys, s, pos, |heads|), link) && SameOff(s, old(link), link)
    {
      hide Buckets, Chain, SameOff, Bucket, AllHave, Gather, ByCode, CodesBelow;
      SomeBucket(keys, s, pos, heads, tails, link);
      ghost var some := FirstBucket(keys, s, pos, heads, tails, link);
      var j := 0;
      GatherNone(keys, s, pos);
      while heads[j] == NIL
        invariant j <= some && Gather(keys, s, pos, j) == [] && link == old(link)
        decreases some - j
      {
        BucketEmpty(keys, s, pos, heads, tails, link, j);
        GatherNext(keys, s, pos, j);
        j := j + 1;
      }
      var last;
      first, last := heads[j], tails[j];
      CollectStart(keys, s, pos, heads, tails, link, j);
      j := j + 1;
      while j < |heads|
        invariant j <= |heads| && |link| == |keys|
        invariant Collected(keys, s, pos, heads, tails, link, old(link), j, first, last)
      {
        CollectStep(keys, s, pos, heads, tails, link, old(link), j, first, last);
        if heads[j] != NIL {
          link := link[last := heads[j]];
          last := tails[j];
        }
        j := j + 1;
      }
      CollectEnd(keys, s, pos, heads, tails, link, old(link), first, last);
      link := link[last := NIL];
    }

    /** One pass over the characters at a position. */
    method SortAt(first: int, pos: nat, ghost s: seq<nat>) returns (first': int)
      requires Chain(first, s, link) && |link| == |keys| && AllHave(keys, s, pos) && CodesBelow(keys, s, pos, radix) &&
        s != []
      modifies this`link
      ensures Chain(first', Gather(keys, s, pos, radix), link) && SameOff(s, old(link), link)
    {
      hide Chain, SameOff, AllHave, CodesBelow, Buckets, Gather;
      var heads, tails := Distribute(first, pos, radix, s);
      ghost var link1 := link;
      SameOffLen(s, old(link), link);
      first' := Collect(heads, tails, s, pos);
      SameOffTwice(s, old(link), link1, link);
    }

    /** The chunks of keys shorter than k are as the first pass left them. */
    ghost predicate Lower(lenHeads: seq<int>, lenTails: seq<int>, k: nat)
      reads this`link
    {
      && k <= |lenHeads| == |lenTails| && |link| == |keys|
      && forall l :: 0 <= l < k ==> Bucket(Chunk(keys, l), lenHeads[l], lenTails[l], link)
    }

    /** Sorts by length, then by the characters from the last position to the first; keys come in at
        the position of their last character, before the longer ones. */
    method Sort()
      requires Input(keys, radix, max) && |keys| > 0 && Chain(0, Indices(|keys|), link) && |link| == |keys|
      requires exists x :: 0 <= x < |keys| && |keys[x]| == max
      modifies this`link, this`headLink
      ensures max == 0 ==> unchanged(this)
      ensures max > 0 ==> Chain(headLink, Level(keys, radix, max, 0), link) && |link| == |keys|
    {
      if max == 0 { return; }
      hide Chain, Level, Sorter.Lower, Input;
      var lenHeads, lenTails, initialFirst := SortKeylen();
      var klen := max;
      var first := lenHeads[klen];
      while klen > 1
        invariant 1 <= klen <= max && |lenHeads| == |lenTails| == max + 1 && |link| == |keys|
        invariant Chain(first, Level(keys, radix, max, klen), link) && Lower(lenHeads, lenTails, klen)
      {
        var linked;
        first, linked := SortLevel(klen, first, lenHeads, lenTails);
        if linked { first := lenHeads[klen - 1]; }
        klen := klen - 1;
      }
      var linked;
      first, linked := SortLevel(1, first, lenHeads, lenTails);
      headLink := if linked then initialFirst else first;
    }

    /** The first pass, by length; the ends of the chunks are kept. */
    method SortKeylen() returns (lenHeads: seq<int>, lenTails: seq<int>, initialFirst: int)
      requires Input(keys, radix, max) && |keys| > 0 && Chain(0, Indices(|keys|), link) && |link| == |keys|
      requires exists x :: 0 <= x < |keys| && |keys[x]| == max
      modifies this`link
      ensures |link| == |keys| && |lenHeads| == |lenTails| == max + 1
      ensures Lower(lenHeads, lenTails, max) && Chain(lenHeads[max], Level(keys, radix, max, max), link)
      ensures lenHeads[0] != NIL ==> initialFirst == lenHeads[0]
    {
      hide Chain, SameOff, CodesBelow, Buckets, Gather, Level, Sorter.Lower, Input, AllHave;
      ghost var all := Indices(|keys|);
      LengthCodes(keys, radix, max);
      lenHeads, lenTails := Distribute(0, -1, max + 1, all);
      SameOffLen(all, old(link), link);
      ghost var link1 := link;
      SomeBucket(keys, all, -1, lenHeads, lenTails, link);
      initialFirst := Collect(lenHeads, lenTails, all, -1);
      SameOffLen(all, link1, link);
      Grouped(initialFirst, lenHeads, lenTails, link1);
    }

    /** One round of the loop: the list of the keys of at least klen characters is sorted by the last
        of these, and linked behind the chunk of keys one shorter, if there is one. */
    method SortLevel(klen: nat, first: int, lenHeads: seq<int>, lenTails: seq<int>) returns (first': int, linked: bool)
      requires Input(keys, radix, max) && exists x :: 0 <= x < |keys| && |keys[x]| == max
      requires 1 <= klen <= max && |lenHeads| == |lenTails| == max + 1 && |link| == |keys|
      requires Chain(first, Level(keys, radix, max, klen), link) && Lower(lenHeads, lenTails, klen)
      modifies this`link
      ensures |link| == |keys| && Lower(lenHeads, lenTails, klen - 1) && (linked <==> lenHeads[klen - 1] != NIL)
      ensures Chain(if linked then lenHeads[klen - 1] else first', Level(keys, radix, max, klen - 1), link)
    {
      hide Chain, SameOff, CodesBelow, Buckets, Gather, Level, Input, AllHave, Bucket;
      LevelCodes(keys, radix, max, klen - 1);
      ghost var link0 := link;
      first' := SortAt(first, klen - 1, Level(keys, radix, max, klen));
      SameOffLen(Level(keys, radix, max, klen), link0, link);
      LowerKept(lenHeads, lenTails, klen, link0);
      ChunkEnds(lenHeads, lenTails, klen - 1);
      LevelJoin(keys, radix, max, klen - 1, first', lenHeads[klen - 1], lenTails[klen - 1], link);
      linked := lenHeads[klen - 1] != NIL;
      if linked {
        LowerLinked(lenHeads, lenTails, klen - 1, lenTails[klen - 1], first');
        link := link[lenTails[klen - 1] := first'];
      }
    }

    /** Writes the place each object comes from into `addr`, by walking the sorted list. */
    method Addresses(ghost s: seq<nat>) returns (addr: seq<nat>)
      requires Chain(headLink, s, link) && |s| == |keys| == |link|
      ensures addr == s
    {
      var p, j := headLink, 0;
      addr := seq(|keys|, _ => 0);
      while p != NIL
        invariant j <= |s| && p == Follow(s, j) && |addr| == |s| && addr[..j] == s[..j]
        decreases |s| - j
      {
        addr := addr[j := p];
        assert j + 1 < |s| ==> link[s[j]] == Follow(s, j + 1);
        p := link[p];
        j := j + 1;
      }
      assert addr[..j] == addr && s[..j] == s;
    }

    lemma Grouped(initialFirst: int, lenHeads: seq<int>, lenTails: seq<int>, link1: seq<int>)
      requires AllHave(keys, Indices(|keys|), -1) && |lenHeads| == |lenTails| == max + 1 && |link| == |keys| == |link1|
      requires Chain(initialFirst, Gather(keys, Indices(|keys|), -1, max + 1), link)
      requires Buckets(keys, Indices(|keys|), -1, lenHeads, lenTails, link1, 0)
      requires exists x :: 0 <= x < |keys| && |keys[x]| == max
      ensures Lower(lenHeads, lenTails, max) && Chain(lenHeads[max], Level(keys, radix, max, max), link)
      ensures lenHeads[0] != NIL ==> initialFirst == lenHeads[0]
    {
      var all := Indices(|keys|);
      forall l | 0 <= l <= max ensures Bucket(Chunk(keys, l), lenHeads[l], lenTails[l], link) {
        assert Bucket(ByCode(keys, all, -1, l), lenHeads[l], lenTails[l], link1);
        var pre, post := GatherPart(keys, all, -1, max + 1, l);
        LinkedPart(pre, Chunk(keys, l), post, link);
      }
      var x :| 0 <= x < |keys| && |keys[x]| == max;
      ByCodeIn(keys, all, -1, max);
      assert x in Chunk(keys, max);
      GatherNext(keys, all, -1, max);
      var pre0, post0 := GatherPart(keys, all, -1, max + 1, 0);
      GatherNone(keys, all, -1);
      assert Bucket(Chunk(keys, 0), lenHeads[0], lenTails[0], link);
    }

    lemma LowerKept(lenHeads: seq<int>, lenTails: seq<int>, k: nat, link0: seq<int>)
      requires SameOff(Level(keys, radix, max, k), link0, link) && |link| == |keys|
      requires k <= |lenHeads| == |lenTails| && forall l :: 0 <= l < k ==>
        Bucket(Chunk(keys, l), lenHeads[l], lenTails[l], link0)
      ensures Lower(lenHeads, lenTails, k)
    {
      forall l | 0 <= l < k ensures Bucket(Chunk(keys, l), lenHeads[l], lenTails[l], link) {
        ChunkSorted(keys, l);
        LinkedSame(Chunk(keys, l), link0, link);
      }
    }

    lemma ChunkEnds(lenHeads: seq<int>, lenTails: seq<int>, l: nat)
      requires Lower(lenHeads, lenTails, l + 1)
      ensures |lenHeads| == |lenTails| > l && Bucket(Chunk(keys, l), lenHeads[l], lenTails[l], link)
    {
    }

    lemma LowerLinked(lenHeads: seq<int>, lenTails: seq<int>, k: nat, tail: int, v: int)
      requires Lower(lenHeads, lenTails, k + 1) && lenHeads[k] != NIL && tail == lenTails[k]
      ensures 0 <= tail < |link| == |keys|
      ensures k <= |lenHeads| == |lenTails|
      ensures forall l :: 0 <= l < k ==> Bucket(Chunk(keys, l), lenHeads[l], lenTails[l], link[tail := v])
    {
      assert Bucket(Chunk(keys, k), lenHeads[k], tail, link);
      LastIn(Chunk(keys, k), lenHeads[k], tail, link);
      ChunkSorted(keys, k);
      forall l | 0 <= l < k ensures Bucket(Chunk(keys, l), lenHeads[l], lenTails[l], link[tail := v]) {
        ChunkSorted(keys, l);
        OtherBucket(Chunk(keys, l), lenHeads[l], lenTails[l], link, tail, v);
      }
    }
  }

  lemma SomeBucket(keys: seq<Key>, s: seq<nat>, pos: int, heads: seq<int>, tails: seq<int>, link: seq<int>)
    requires Buckets(keys, s, pos, heads, tails, link, 0)
    ensures |heads| == |tails|
  {
  }

  lemma FirstBucket(keys: seq<Key>, s: seq<nat>, pos: int, heads: seq<int>, tails: seq<int>,
                    link: seq<int>) returns (j: nat)
    requires AllHave(keys, s, pos) && CodesBelow(keys, s, pos, |heads|) && s != [] &&
      Buckets(keys, s, pos, heads, tails, link, 0)
    ensures j < |heads| && heads[j] != NIL
  {
    assert s[0] in s;
    j := Code(keys, s[0], pos);
    ByCodeIn(keys, s, pos, j);
    assert s[0] in ByCode(keys, s, pos, j) && Bucket(ByCode(keys, s, pos, j), heads[j], tails[j], link);
  }

  lemma GatherNone(keys: seq<Key>, s: seq<nat>, pos: int)
    requires AllHave(keys, s, pos)
    ensures Gather(keys, s, pos, 0) == []
  {
  }

  lemma GatherNext(keys: seq<Key>, s: seq<nat>, pos: int, j: nat)
    requires AllHave(keys, s, pos)
    ensures Gather(keys, s, pos, j + 1) == Gather(keys, s, pos, j) + ByCode(keys, s, pos, j)
  {
  }

  lemma BucketEmpty(keys: seq<Key>, s: seq<nat>, pos: int, heads: seq<int>, tails: seq<int>, link: seq<int>, j: nat)
    requires Buckets(keys, s, pos, heads, tails, link, 0) && j < |heads| && heads[j] == NIL
    ensures ByCode(keys, s, pos, j) == []
  {
    assert Bucket(ByCode(keys, s, pos, j), heads[j], tails[j], link);
  }

  /** The lists of the buckets below j have been joined. */
  ghost predicate Collected(keys: seq<Key>, s: seq<nat>, pos: int, heads: seq<int>, tails: seq<int>, link: seq<int>,
                            link0: seq<int>, j: nat, first: int, last: int) {
    && j <= |heads| == |tails| && AllHave(keys, s, pos) && Buckets(keys, s, pos, heads, tails, link, j)
    && Gather(keys, s, pos, j) != [] && Bucket(Gather(keys, s, pos, j), first, last, link)
    && SameOff(s, link0, link)
  }

  lemma CollectStart(keys: seq<Key>, s: seq<nat>, pos: int, heads: seq<int>, tails: seq<int>, link: seq<int>, j: nat)
    requires AllHave(keys, s, pos) && Buckets(keys, s, pos, heads, tails, link, 0) && j < |heads| == |tails| &&
      heads[j] != NIL
    requires Gather(keys, s, pos, j) == []
    ensures Collected(keys, s, pos, heads, tails, link, link, j + 1, heads[j], tails[j])
  {
    GatherNext(keys, s, pos, j);
    assert Bucket(ByCode(keys, s, pos, j), heads[j], tails[j], link);
    assert [] + ByCode(keys, s, pos, j) == ByCode(keys, s, pos, j);
  }

  lemma CollectStep(keys: seq<Key>, s: seq<nat>, pos: int, heads: seq<int>, tails: seq<int>, link: seq<int>,
                    link0: seq<int>, j: nat, first: int, last: int)
    requires Collected(keys, s, pos, heads, tails, link, link0, j, first, last) && j < |heads|
    ensures |tails| == |heads| && 0 <= last < |link|
    ensures heads[j] == NIL ==> Collected(keys, s, pos, heads, tails, link, link0, j + 1, first, last)
    ensures heads[j] != NIL ==> Collected(keys, s, pos, heads, tails, link[last := heads[j]], link0, j + 1, first,
      tails[j])
  {
    hide Linked, NoDup, Gather, ByCode, Ends;
    var g, b := Gather(keys, s, pos, j), ByCode(keys, s, pos, j);
    GatherNext(keys, s, pos, j);
    assert Bucket(b, heads[j], tails[j], link);
    LastIn(g, first, last, link);
    if heads[j] == NIL {
      BucketNil(b, heads[j], tails[j], link);
      assert g + [] == g;
    } else {
      GatherIn(keys, s, pos, j);
      ByCodeIn(keys, s, pos, j);
      JoinBuckets(g, first, last, b, heads[j], tails[j], link);
      hide AllHave;
      forall k | j + 1 <= k < |heads|
        ensures Bucket(ByCode(keys, s, pos, k), heads[k], tails[k],
          link[last := heads[j]])
      {
        ByCodeIn(keys, s, pos, k);
        OtherBucket(ByCode(keys, s, pos, k), heads[k], tails[k], link, last, heads[j]);
      }
    }
  }

  lemma BucketNil(b: seq<nat>, head: int, tail: int, link: seq<int>)
    requires Bucket(b, head, tail, link)
    ensures head == NIL <==> b == []
  {
  }

  lemma JoinBuckets(g: seq<nat>, first: int, last: int, b: seq<nat>, head: int, tail: int, link: seq<int>)
    requires g != [] && Bucket(g, first, last, link) && Bucket(b, head, tail, link) && head != NIL
    requires forall x :: x in g ==> x !in b
    ensures 0 <= last < |link| && Bucket(g + b, first, tail, link[last := head]) && g + b != []
  {
    LastIn(g, first, last, link);
    LinkedFrame(g, link, last, head);
    LinkedFrame(b, link, last, head);
    LinkedJoin(g, b, link[last := head]);
  }

  lemma LastIn(g: seq<nat>, first: int, last: int, link: seq<int>)
    requires g != [] && Bucket(g, first, last, link)
    ensures 0 <= last < |link| && last in g && last == g[|g| - 1]
  {
  }

  lemma CollectEnd(keys: seq<Key>, s: seq<nat>, pos: int, heads: seq<int>, tails: seq<int>, link: seq<int>,
                   link0: seq<int>,
                   first: int, last: int)
    requires Collected(keys, s, pos, heads, tails, link, link0, |heads|, first, last)
    ensures 0 <= last < |link|
    ensures Chain(first, Gather(keys, s, pos, |heads|), link[last := NIL]) && SameOff(s, link0, link[last := NIL])
  {
    var g := Gather(keys, s, pos, |heads|);
    LastIn(g, first, last, link);
    GatherIn(keys, s, pos, |heads|);
    LinkedFrame(g, link, last, NIL);
  }

  lemma HalfEnd(keys: seq<Key>, s: seq<nat>, pos: int, heads: seq<int>, tails: seq<int>, link: seq<int>,
                link0: seq<int>)
    requires Half(keys, s, |s|, pos, heads, tails, link, link0)
    ensures Buckets(keys, s, pos, heads, tails, link, 0) && SameOff(s, link0, link)
  {
    assert s[..|s|] == s;
  }

  lemma ChainRest(first: int, s: seq<nat>, link: seq<int>)
    requires Chain(first, s, link)
    ensures Rest(s, 0, link) && SameOff(s, link, link) && first == Follow(s, 0)
  {
    forall j | 0 <= j < |s| ensures link[s[j]] == Follow(s, j + 1) {}
  }

  lemma SameOffTwice(s: seq<nat>, a: seq<int>, b: seq<int>, c: seq<int>)
    requires SameOff(s, a, b) && SameOff(s, b, c)
    ensures SameOff(s, a, c)
  {
  }

  lemma SameOffLen(s: seq<nat>, a: seq<int>, b: seq<int>)
    requires SameOff(s, a, b)
    ensures |a| == |b|
  {
  }

  lemma LengthCodes(keys: seq<Key>, radix: nat, max: nat)
    requires Input(keys, radix, max)
    ensures AllHave(keys, Indices(|keys|), -1) && CodesBelow(keys, Indices(|keys|), -1, max + 1)
    ensures |keys| > 0 ==> Indices(|keys|) != []
  {
  }

  lemma LevelCodes(keys: seq<Key>, radix: nat, max: nat, k: nat)
    requires Input(keys, radix, max) && k < max && exists x :: 0 <= x < |keys| && |keys[x]| == max
    ensures AllHave(keys, Level(keys, radix, max, k + 1), k) &&
      CodesBelow(keys, Level(keys, radix, max, k + 1), k, radix)
    ensures Level(keys, radix, max, k + 1) != []
  {
    LevelSorted(keys, radix, max, k + 1);
    var x :| 0 <= x < |keys| && |keys[x]| == max;
    assert x in Level(keys, radix, max, k + 1);
  }

  /** The chunk of keys of length k before the sorted longer ones. */
  lemma LevelJoin(keys: seq<Key>, radix: nat, max: nat, k: nat, first: int, head: int, tail: int, link: seq<int>)
    requires Input(keys, radix, max) && k < max && AllHave(keys, Level(keys, radix, max, k + 1), k)
    requires Level(keys, radix, max, k + 1) != [] && CodesBelow(keys, Level(keys, radix, max, k + 1), k, radix)
    requires Chain(first, Gather(keys, Level(keys, radix, max, k + 1), k, radix), link)
    requires Bucket(Chunk(keys, k), head, tail, link)
    ensures head == NIL ==> Chain(first, Level(keys, radix, max, k), link)
    ensures head != NIL ==> 0 <= tail < |link| && Chain(head, Level(keys, radix, max, k), link[tail := first])
  {
    var c, g := Chunk(keys, k), Gather(keys, Level(keys, radix, max, k + 1), k, radix);
    ChunkSorted(keys, k);
    GatherIn(keys, Level(keys, radix, max, k + 1), k, radix);
    assert Level(keys, radix, max, k + 1)[0] in g;
    assert Level(keys, radix, max, k) == c + g;
    if head == NIL {
      assert c + g == g;
    } else {
      LastIn(c, head, tail, link);
      LinkedFrame(c, link, tail, first);
      LinkedFrame(g, link, tail, first);
      LinkedJoin(c, g, link[tail := first]);
    }
  }

  lemma {:induction false} GatherPart(keys: seq<Key>, s: seq<nat>, pos: int, n: nat, k: nat) returns (pre: seq<nat>,
                                      post: seq<nat>)
    requires AllHave(keys, s, pos) && k < n
    ensures pre == Gather(keys, s, pos, k) && Gather(keys, s, pos, n) == pre + ByCode(keys, s, pos, k) + post
  {
    pre := Gather(keys, s, pos, k);
    if k == n - 1 { post := []; } else {
      var p, q := GatherPart(keys, s, pos, n - 1, k);
      post := q + ByCode(keys, s, pos, n - 1);
    }
  }

  lemma LinkedPart(a: seq<nat>, b: seq<nat>, c: seq<nat>, link: seq<int>)
    requires Linked(a + b + c, link)
    ensures Linked(b, link)
  {
    var t := a + b + c;
    forall i | 0 <= i < |b|
      ensures b[i] == t[|a| + i] {}
      forall i | 0 <= i < |b| - 1 ensures link[b[i]] == Follow(b, i + 1)
    {
      assert link[t[|a| + i]] == Follow(t, |a| + i + 1);
    }
    forall i, j | 0 <= i < j < |b| ensures b[i] != b[j] {
      assert t[|a| + i] != t[|a| + j];
    }
  }

  lemma LinkedSame(b: seq<nat>, link: seq<int>, link': seq<int>)
    requires Linked(b, link) && |link'| == |link| && forall x :: x in b && x < |link| ==> link'[x] == link[x]
    ensures Linked(b, link')
  {
    assert forall i :: 0 <= i < |b| ==> b[i] in b;
  }

  // ------------------------------------------------------------------ the objects in place

  ghost predicate Permutes(s: seq<nat>) {
    NoDup(s) && forall j :: 0 <= j < |s| ==> s[j] < |s|
  }

  /** The places in `done` hold what belongs there, the others what they held. */
  ghost predicate Placed(s: seq<nat>, addr: seq<nat>, obj: seq<int>, obj0: seq<int>, done: set<nat>) {
    && |s| == |addr| == |obj| == |obj0| && (forall x :: x in done ==> x < |s|)
    && (forall x :: 0 <= x < |s| ==> s[x] < |s|)
    && (forall x :: 0 <= x < |s| && x in done ==> addr[x] == x && obj[x] == obj0[s[x]])
    && (forall x :: 0 <= x < |s| && x !in done ==> addr[x] == s[x])
  }

  ghost predicate Untouched(obj: seq<int>, obj0: seq<int>, done: set<nat>) {
    |obj| == |obj0| && forall x :: 0 <= x < |obj| && x !in done ==> obj[x] == obj0[x]
  }

  /** A set of whole cycles. */
  ghost predicate Closed(s: seq<nat>, done: set<nat>) {
    forall x :: 0 <= x < |s| ==> (x in done <==> s[x] in done)
  }

  /** Within a cycle that started at `start` and has come to `j`, of which `last` was the place before. */
  ghost predicate OnCycle(s: seq<nat>, done: set<nat>, start: nat, j: nat, last: nat) {
    && start < |s| && j < |s| && j !in done
    && (forall x :: 0 <= x < |s| && x in done ==> s[x] in done || s[x] == j)
    && (forall x :: 0 <= x < |s| && s[x] in done ==> x in done || s[x] == start)
    && (j != start ==> start in done && last < |s| && last in done && s[last] == j)
  }

  lemma Same(s: seq<nat>, x: nat, y: nat)
    requires Permutes(s) && x < |s| && y < |s|
    ensures s[x] == s[y] ==> x == y
  {
  }

  /** One move along the cycle. */
  lemma CycleStep(s: seq<nat>, done: set<nat>, start: nat, j: nat, last: nat)
    requires Permutes(s) && OnCycle(s, done, start, j, last) && s[j] != start
    ensures s[j] < |s| && s[j] !in done && s[j] != j
    ensures OnCycle(s, done + {j}, start, s[j], j)
  {
    if j != start { Same(s, last, j); }
    forall x | 0 <= x < |s| && s[x] in done + {j} ensures x in done + {j} || s[x] == start {
      if j != start { Same(s, x, last); }
    }
  }

  lemma CycleEnd(s: seq<nat>, done: set<nat>, start: nat, j: nat, last: nat)
    requires Permutes(s) && OnCycle(s, done, start, j, last) && s[j] == start
    ensures Closed(s, done + {j}) && start in done + {j}
  {
    forall x | 0 <= x < |s| ensures x in done + {j} <==> s[x] in done + {j} {
      Same(s, x, j);
      if j != start { Same(s, x, last); }
    }
  }

  /** Moves every object to its place, cycle by cycle, with one object in hand (`rearrange_fast`). */
  method Rearrange(obj: array<int>, addr0: seq<nat>)
    requires Permutes(addr0) && |addr0| == obj.Length
    modifies obj
    ensures forall j :: 0 <= j < obj.Length ==> obj[j] == old(obj[addr0[j]])
  {
    hide Placed, Untouched, Closed, Permutes, Still;
    var addr := addr0;
    ghost var s, obj0, done := addr0, obj[..], {};
    NothingPlaced(s, obj0);
    for i := 0 to obj.Length
      invariant Placed(s, addr, obj[..], obj0, done) && Untouched(obj[..], obj0, done) && Closed(s, done)
      invariant Still(s, done, i)
    {
      PlacedParts(s, addr, obj[..], obj0, done, i);
      ghost var done0 := done;
      if addr[i] != i {
        addr, done := Cycle(obj, addr, i, s, obj0, done);
      }
      StillNext(s, done0, done, i);
    }
    AllPlaced(s, addr, obj[..], obj0, done);
  }

  /** Below n, every place is done or is its own. */
  ghost predicate Still(s: seq<nat>, done: set<nat>, n: nat) {
    n <= |s| && forall x :: 0 <= x < n ==> x in done || s[x] == x
  }

  lemma NothingPlaced(s: seq<nat>, obj: seq<int>)
    requires Permutes(s) && |obj| == |s|
    ensures Placed(s, s, obj, obj, {}) && Untouched(obj, obj, {}) && Closed(s, {}) && Still(s, {}, 0)
  {
  }

  lemma StillNext(s: seq<nat>, done0: set<nat>, done: set<nat>, i: nat)
    requires Still(s, done0, i) && done0 <= done && i < |s| && (i in done || s[i] == i)
    ensures Still(s, done, i + 1)
  {
  }

  lemma AllPlaced(s: seq<nat>, addr: seq<nat>, obj: seq<int>, obj0: seq<int>, done: set<nat>)
    requires Placed(s, addr, obj, obj0, done) && Untouched(obj, obj0, done) && Still(s, done, |s|)
    ensures |obj| == |obj0| == |s| && forall j :: 0 <= j < |s| ==> s[j] < |s| && obj[j] == obj0[s[j]]
  {
  }

  method Cycle(obj: array<int>, addr0: seq<nat>, i: nat, ghost s: seq<nat>, ghost obj0: seq<int>, ghost done0: set<nat>)
    returns (addr: seq<nat>, ghost done: set<nat>)
    requires Permutes(s) && i < |s| == obj.Length && Placed(s, addr0, obj[..], obj0, done0)
    requires Untouched(obj[..], obj0, done0) && Closed(s, done0) && addr0[i] != i
    modifies obj
    ensures Placed(s, addr, obj[..], obj0, done) && Untouched(obj[..], obj0, done) && Closed(s, done)
    ensures done0 <= done && i in done
  {
    hide Placed, Untouched, OnCycle, Closed, Permutes;
    addr, done := addr0, done0;
    PlacedParts(s, addr, obj[..], obj0, done, i);
    CycleStart(s, done, i);
    var temp := obj[i];
    var j := i;
    ghost var last := i;
    while addr[j] != i
      invariant j < |s| == |addr| && j !in done && addr[j] == s[j] && OnCycle(s, done, i, j, last) && done0 <= done
      invariant Placed(s, addr, obj[..], obj0, done) && Untouched(obj[..], obj0, done)
      invariant temp == obj0[i]
      decreases SetOf(Indices(|s|)) - done
    {
      CycleStep(s, done, i, j, last);
      ghost var obj1 := obj[..];
      PlacedStep(s, addr, obj1, obj0, done, j);
      var k := addr[j];
      PlacedParts(s, addr, obj1, obj0, done, k);
      obj[j] := obj[k];
      addr := addr[j := j];
      assert obj[..] == obj1[j := obj0[s[j]]];
      assert j in SetOf(Indices(|s|)) && j !in done;
      done, last := done + {j}, j;
      j := k;
      PlacedParts(s, addr, obj[..], obj0, done, j);
    }
    CycleEnd(s, done, i, j, last);
    PlacedStep(s, addr, obj[..], obj0, done, j);
    ghost var obj1 := obj[..];
    obj[j] := temp;
    assert obj[..] == obj1[j := obj0[s[j]]];
    addr := addr[j := j];
    done := done + {j};
  }

  lemma PlacedParts(s: seq<nat>, addr: seq<nat>, obj: seq<int>, obj0: seq<int>, done: set<nat>, j: nat)
    requires Placed(s, addr, obj, obj0, done) && Untouched(obj, obj0, done) && j < |s|
    ensures |s| == |addr| == |obj| == |obj0| && s[j] < |s| && (forall x :: x in done ==> x < |s|)
    ensures j !in done ==> addr[j] == s[j] && obj[j] == obj0[j]
    ensures j in done ==> addr[j] == j
  {
  }

  lemma PlacedStep(s: seq<nat>, addr: seq<nat>, obj: seq<int>, obj0: seq<int>, done: set<nat>, j: nat)
    requires Placed(s, addr, obj, obj0, done) && Untouched(obj, obj0, done) && j < |s| && j !in done
    ensures |s| == |addr| == |obj| == |obj0| && s[j] < |s|
    ensures Placed(s, addr[j := j], obj[j := obj0[s[j]]], obj0, done + {j})
    ensures Untouched(obj[j := obj0[s[j]]], obj0, done + {j})
  {
  }

  lemma CycleStart(s: seq<nat>, done: set<nat>, i: nat)
    requires Closed(s, done) && i < |s| && i !in done
    ensures OnCycle(s, done, i, i, i)
  {
  }

  /** The whole: the objects come out in the lexicographic order of their keys, a proper prefix
      first, equal keys in the order they came in. */
  method SortObjects(keys: seq<Key>, radix: nat, max: nat, obj: array<int>) returns (ghost order: seq<nat>)
    requires Input(keys, radix, max) && |keys| == obj.Length > 0
    requires exists x :: 0 <= x < |keys| && |keys[x]| == max
    modifies obj
    ensures |order| == obj.Length && NoDup(order) && forall x: nat :: x in order <==> x < obj.Length
    ensures forall j :: 0 <= j < obj.Length ==> order[j] < obj.Length && obj[j] == old(obj[order[j]])
    ensures forall i, j :: 0 <= i < j < obj.Length ==> InOrder(keys, order[i], order[j])
  {
    var sorter := new Sorter(keys, radix, max);
    StableSort(keys, radix, max);
    if max == 0 {
      order := Indices(|keys|);
      return;
    }
    order := Level(keys, radix, max, 0);
    FirstLinks(|keys|, sorter.link);
    hide Level, Chain, Input;
    sorter.Sort();
    var addr := sorter.Addresses(order);
    assert forall j :: 0 <= j < |order| ==> order[j] in order;
    Rearrange(obj, addr);
  }

  lemma FirstLinks(n: nat, link: seq<int>)
    requires n > 0 && link == seq(n, i => if i + 1 < n then i + 1 else NIL)
    ensures Chain(0, Indices(n), link)
  {
  }
}
