/** gold_hash_tab (src/terark/gold_hash_map.hpp): a hash table whose collision chains are threaded
    through slot numbers in `link`, whose deleted slots are threaded through their own element
    storage, and which rehashes and compacts in place.  Specified as a finite map. */
module GoldHash {

  import opened Sequences

  type Key = string
  type Value = int

  // link values are 32 bits wide; the two largest are marks
  const TAIL: nat := 0xFFFF_FFFF
  const DELMARK: nat := 0xFFFF_FFFE

  /** The storage of a slot: an element, the free-list link written over a destroyed one, or
      memory never constructed. */
  datatype Cell = Elem(key: Key, value: Value) | FreeLink(next: nat) | Raw

  /** `s` without its `k`-th entry. */
  ghost function Without(s: seq<nat>, k: nat): seq<nat>
    requires k < |s|
  {
    s[..k] + s[k + 1..]
  }

  /** What the link of the `i`-th slot of a list holds. */
  ghost function After(s: seq<nat>, i: nat): nat {
    if i + 1 < |s| then s[i + 1] else TAIL
  }

  /** Following `link` from `head` visits exactly the slots `s` and ends in TAIL. */
  ghost predicate IsChain(head: nat, s: seq<nat>, link: seq<nat>) {
    && head == (if s == [] then TAIL else s[0])
    && NoDup(s)
    && (forall i :: 0 <= i < |s| ==> s[i] < |link|)
    && (forall i {:trigger link[s[i]]} :: 0 <= i < |s| ==> link[s[i]] == After(s, i))
  }

  /** Following the links stored in freed elements from `head` visits exactly the slots `s`. */
  ghost predicate IsFreeList(head: nat, s: seq<nat>, data: seq<Cell>) {
    && head == (if s == [] then TAIL else s[0])
    && NoDup(s)
    && (forall i :: 0 <= i < |s| ==> s[i] < |data|)
    && (forall i {:trigger data[s[i]]} :: 0 <= i < |s| ==> data[s[i]] == FreeLink(After(s, i)))
  }

  ghost predicate HasKey(data: seq<Cell>, s: nat, k: Key) {
    s < |data| && data[s].Elem? && data[s].key == k
  }

  ghost predicate Stored(data: seq<Cell>, at: map<Key, nat>) {
    forall k :: k in at ==> HasKey(data, at[k], k)
  }

  /** Every key of `at` is stored in its slot, and that slot is on the chain of the key's bucket;
      the chains hold nothing else. */
  ghost predicate Hashed(bucket: seq<nat>, link: seq<nat>, data: seq<Cell>, hash: Key -> nat,
                         at: map<Key, nat>, chains: seq<seq<nat>>) {
    && |chains| == |bucket| > 0
    && |link| == |data|
    && (forall i :: 0 <= i < |bucket| ==> IsChain(bucket[i], chains[i], link))
    && (forall k :: k in at ==> HasKey(data, at[k], k) && at[k] in chains[hash(k) % |bucket|])
    && (forall i, s :: 0 <= i < |bucket| && s in chains[i] ==> InBucket(data, hash, at, |bucket|, s, i))
  }

  ghost predicate InBucket(data: seq<Cell>, hash: Key -> nat, at: map<Key, nat>, nb: nat, s: nat, i: nat)
    requires nb > 0
  {
    && s < |data| && data[s].Elem?
    && data[s].key in at && at[data[s].key] == s
    && hash(data[s].key) % nb == i
  }

  lemma ChainCons(head: nat, s: seq<nat>, link: seq<nat>, slot: nat)
    requires IsChain(head, s, link) && slot < |link| && slot !in s
    ensures IsChain(slot, [slot] + s, link[slot := head])
  {
    var s' := [slot] + s;
    assert forall i :: 0 < i < |s'| ==> s'[i] == s[i - 1];
  }

  lemma ChainFrame(head: nat, s: seq<nat>, link: seq<nat>, x: nat, v: nat)
    requires IsChain(head, s, link) && x < |link| && x !in s
    ensures IsChain(head, s, link[x := v])
  {
  }

  lemma ChainDrop(head: nat, s: seq<nat>, link: seq<nat>, k: nat)
    requires IsChain(head, s, link) && k < |s|
    ensures IsChain(if k == 0 then link[s[k]] else head, Without(s, k),
                    if k == 0 then link else link[s[k - 1] := link[s[k]]])
  {
    var s' := Without(s, k);
    var link' := if k == 0 then link else link[s[k - 1] := link[s[k]]];
    forall i | 0 <= i < |s'|
      ensures s'[i] == s[if i < k then i else i + 1]
      ensures link'[s'[i]] == After(s', i)
    {
      var m := if i < k then i else i + 1;
      if k > 0 && m != k - 1 { assert s[m] != s[k - 1]; }
    }
    forall i, j | 0 <= i < j < |s'| ensures s'[i] != s'[j] {
      var m, m' := if i < k then i else i + 1, if j < k then j else j + 1;
      assert s[m] != s[m'];
    }
    var head' := if k == 0 then link[s[k]] else head;
    assert IsChain(head', s', link');
  }

  /** The finite map a table stands for. */
  ghost function Values(data: seq<Cell>, at: map<Key, nat>): map<Key, Value> {
    map k | k in at && HasKey(data, at[k], k) :: data[at[k]].value
  }

  /** Puts an unlinked element at the head of its bucket's chain. */
  lemma LinkHead(bucket: seq<nat>, link: seq<nat>, data: seq<Cell>, hash: Key -> nat,
                 at: map<Key, nat>, chains: seq<seq<nat>>, slot: nat)
    requires Hashed(bucket, link, data, hash, at, chains)
    requires slot < |data| && data[slot].Elem? && data[slot].key !in at
    ensures var k := data[slot].key; var i := hash(k) % |bucket|;
      Hashed(bucket[i := slot], link[slot := bucket[i]], data, hash, at[k := slot], chains[i := [slot] + chains[i]])
  {
    hide IsChain;
    var k := data[slot].key;
    var i := hash(k) % |bucket|;
    var bucket', link', at', chains' :=
      bucket[i := slot], link[slot := bucket[i]], at[k := slot], chains[i := [slot] + chains[i]];
    forall j | 0 <= j < |bucket| ensures IsChain(bucket'[j], chains'[j], link') {
      assert slot !in chains[j];
      if j == i {
        ChainCons(bucket[i], chains[i], link, slot);
      } else {
        ChainFrame(bucket[j], chains[j], link, slot, bucket[i]);
      }
    }
    forall j, s | 0 <= j < |bucket| && s in chains'[j] ensures InBucket(data, hash, at', |bucket|, s, j) {
      assert s != slot ==> s in chains[j] && InBucket(data, hash, at, |bucket|, s, j);
    }
    forall l | l in at' ensures at'[l] in chains'[hash(l) % |bucket|] {
      if l == k { assert chains'[i][0] == slot; } else { assert at[l] in chains[hash(l) % |bucket|]; }
    }
  }

  /** Takes the slot at position `k` of its chain out of it. */
  lemma Unlink(bucket: seq<nat>, link: seq<nat>, data: seq<Cell>, hash: Key -> nat,
               at: map<Key, nat>, chains: seq<seq<nat>>, i: nat, k: nat)
    requires Hashed(bucket, link, data, hash, at, chains)
    requires i < |bucket| && k < |chains[i]|
    ensures Linked(data, at, chains[i][k]) && chains[i][k] < |link| == |data| && data[chains[i][k]].Elem?
    ensures k > 0 ==> chains[i][k - 1] < |link|
    ensures Hashed(if k == 0 then bucket[i := link[chains[i][k]]] else bucket,
                   if k == 0 then link else link[chains[i][k - 1] := link[chains[i][k]]],
                   data, hash, at - {data[chains[i][k]].key}, chains[i := Without(chains[i], k)])
    ensures chains[i][k] !in Without(chains[i], k)
  {
    ChainNoDup(bucket[i], chains[i], link, k);
    assert InBucket(data, hash, at, |bucket|, chains[i][k], i);
    assert k > 0 ==> InBucket(data, hash, at, |bucket|, chains[i][k - 1], i);
    UnlinkChains(bucket, link, data, hash, at, chains, i, k);
    UnlinkOthers(data, hash, at, |bucket|, chains, i, k);
    hide IsChain, InBucket;
  }

  lemma UnlinkChains(bucket: seq<nat>, link: seq<nat>, data: seq<Cell>, hash: Key -> nat,
                     at: map<Key, nat>, chains: seq<seq<nat>>, i: nat, k: nat)
    requires Hashed(bucket, link, data, hash, at, chains)
    requires i < |bucket| && k < |chains[i]| && chains[i][k] < |link| && (k > 0 ==> chains[i][k - 1] < |link|)
    ensures var bucket' := if k == 0 then bucket[i := link[chains[i][k]]] else bucket;
            var link' := if k == 0 then link else link[chains[i][k - 1] := link[chains[i][k]]];
            var chains' := chains[i := Without(chains[i], k)];
            forall j :: 0 <= j < |bucket| ==> IsChain(bucket'[j], chains'[j], link')
  {
    var c := chains[i];
    var slot := c[k];
    var bucket' := if k == 0 then bucket[i := link[slot]] else bucket;
    var link' := if k == 0 then link else link[c[k - 1] := link[slot]];
    ChainDrop(bucket[i], c, link, k);
    hide IsChain;
    forall j | 0 <= j < |bucket| ensures IsChain(bucket'[j], chains[i := Without(c, k)][j], link') {
      if j != i && k > 0 {
        assert c[k - 1] in c && c[k - 1] !in chains[j];
        ChainFrame(bucket[j], chains[j], link, c[k - 1], link[slot]);
      }
    }
  }

  lemma ChainNoDup(head: nat, s: seq<nat>, link: seq<nat>, k: nat)
    requires IsChain(head, s, link) && k < |s|
    ensures s[k] !in Without(s, k)
  {
  }

  lemma UnlinkOthers(data: seq<Cell>, hash: Key -> nat, at: map<Key, nat>, nb: nat, chains: seq<seq<nat>>, i: nat,
                     k: nat)
    requires nb == |chains| > i && k < |chains[i]| && chains[i][k] !in Without(chains[i], k)
    requires forall l :: l in at ==> HasKey(data, at[l], l) && at[l] in chains[hash(l) % nb]
    requires forall j, s :: 0 <= j < nb && s in chains[j] ==> InBucket(data, hash, at, nb, s, j)
    requires InBucket(data, hash, at, nb, chains[i][k], i)
    ensures var at' := at - {data[chains[i][k]].key}; var chains' := chains[i := Without(chains[i], k)];
            && (forall l :: l in at' ==> at'[l] in chains'[hash(l) % nb])
            && (forall j, s :: 0 <= j < nb && s in chains'[j] ==> InBucket(data, hash, at', nb, s, j))
  {
    var c := chains[i];
    var at', chains' := at - {data[c[k]].key}, chains[i := Without(c, k)];
    forall j, s | 0 <= j < nb && s in chains'[j] ensures InBucket(data, hash, at', nb, s, j) {
      assert s in chains[j] && InBucket(data, hash, at, nb, s, j);
    }
    forall l | l in at' ensures at'[l] in chains'[hash(l) % nb] {
      StillOnChain(c, k, at[l]);
    }
  }

  lemma StillOnChain(c: seq<nat>, k: nat, x: nat)
    requires k < |c|
    ensures x in c && x != c[k] ==> x in Without(c, k)
  {
    if m :| 0 <= m < |c| && c[m] == x && m != k {
      assert (Without(c, k))[if m < k then m else m - 1] == x;
    }
  }

  /** Who uses which slot: chained elements, free slots (marked by DELMARK in `link`), and
      detached slots, which are allocated but reached from neither. */
  ghost predicate Slots(nElem: nat, link: seq<nat>, data: seq<Cell>, at: map<Key, nat>,
                        free: seq<nat>, detached: set<nat>) {
    && nElem <= |data| == |link| <= DELMARK
    && Marked(nElem, link, free)
    && Owners(nElem, data, at, free, detached)
  }

  ghost predicate Marked(nElem: nat, link: seq<nat>, free: seq<nat>) {
    && nElem <= |link|
    && (forall s :: 0 <= s < nElem ==> (link[s] == DELMARK <==> s in free))
  }

  ghost predicate Owners(nElem: nat, data: seq<Cell>, at: map<Key, nat>, free: seq<nat>, detached: set<nat>) {
    && (forall s :: 0 <= s < nElem ==> s in free || s in detached || Linked(data, at, s))
    && (forall s :: s in free ==> s < nElem && s !in detached && !Linked(data, at, s))
    && (forall s :: s in detached ==> s < nElem && !Linked(data, at, s))
    && (forall k :: k in at ==> at[k] < nElem)
    && nElem == |at| + |free| + |detached|
  }

  ghost predicate Linked(data: seq<Cell>, at: map<Key, nat>, s: nat) {
    s < |data| && data[s].Elem? && data[s].key in at && at[data[s].key] == s
  }

  // the table of bucket counts: the first entry not less than the request
  const PRIMES_32: seq<nat> := [5, 11, 19, 37, 53, 97, 193, 389, 769, 1543, 3079, 6151, 12289, 24593, 49157, 98317,
    196613, 393241, 786433, 1572869, 3145739, 6291469, 12582917, 25165843, 50331653, 100663319, 201326611,
    402653189, 805306457, 1610612741, 3221225473, 4294967291]
  const PRIMES_64: seq<nat> := [8589934583, 17179869143, 34359738337, 68719476731, 137438953447, 274877906899,
    549755813881, 1099511627689, 2199023255531, 4398046511093, 8796093022151, 17592186044399, 35184372088777,
    70368744177643, 140737488355213, 281474976710597, 562949953421231, 1125899906842597, 2251799813685119,
    4503599627370449, 9007199254740881, 18014398509481951, 36028797018963913, 72057594037927931,
    144115188075855859, 288230376151711717, 576460752303423433, 1152921504606846883, 2305843009213693951,
    4611686018427387847, 9223372036854775783, 18446744073709551557]
  const PRIMES: seq<nat> := PRIMES_32 + PRIMES_64

  function NextPrime(n: nat, i: nat := 0): (p: nat)
    requires i < |PRIMES|
    ensures 5 <= p
    ensures n <= 18446744073709551557 ==> n <= p
    decreases |PRIMES| - i
  {
    PrimesBig(i);
    if n <= PRIMES[i] || i + 1 == |PRIMES| then PRIMES[i] else NextPrime(n, i + 1)
  }

  /** A new element gets the slot freed last, or the next one at the end of the arrays. */
  ghost predicate SlotRule(atEnd: bool, n0: nat, n: nat, free: seq<nat>, slot: nat) {
    if atEnd then slot == n0 && n == n0 + 1 else free != [] && slot == free[0] && n == n0
  }

  /** The size of the arrays after a slot has been taken: doubled when they are full and the slot comes
      from their end. */
  function Grown(atEnd: bool, n: nat, size: nat): nat {
    if atEnd && n == size then (if n == 0 then 1 else 2 * n) else size
  }

  lemma PrimesBig(i: nat)
    requires i < |PRIMES|
    ensures 5 <= PRIMES[i]
  {
    assert forall j :: 0 <= j < |PRIMES_32| ==> 5 <= PRIMES_32[j];
    assert forall j :: 0 <= j < |PRIMES_64| ==> 5 <= PRIMES_64[j];
  }

  function BucketsFor(cap: nat, loadFactor: nat): nat
    requires loadFactor > 0
  {
    cap * 256 / loadFactor + 1
  }

  /** Whether a table reserved for `cap` elements takes that many.  It does while the load of its
      buckets fits into 32 bits; of those that do not, only five right below the largest number of
      slots are large enough again. */
  predicate LoadFits(cap: nat, loadFactor: nat)
    requires loadFactor > 0
  {
    || NextPrime(BucketsFor(cap, loadFactor)) * loadFactor / 256 < 0x1_0000_0000
    || (loadFactor == 64 && 0xFFFF_FFF6 <= cap <= 0xFFFF_FFF8)
    || (loadFactor == 32 && 0xFFFF_FFFD <= cap)
  }

  /** `reserve(cap)` makes room for `cap` elements if and only if the load fits. */
  lemma EnoughBuckets(cap: nat, loadFactor: nat)
    requires cap <= DELMARK && 10 <= loadFactor <= 255
    ensures var n := NextPrime(BucketsFor(cap, loadFactor));
      n > 1 && (cap <= MaxLoad(n, loadFactor) <==> LoadFits(cap, loadFactor))
  {
    hide NextPrime;
    var n := NextPrime(BucketsFor(cap, loadFactor));
    Quotient(cap * 256, loadFactor);
    EnoughFor(cap, BucketsFor(cap, loadFactor), n, loadFactor);
    if cap > 0xFFFF_F000 {
      LoadAtTop(cap, loadFactor);
    } else {
      PrimeNear(BucketsFor(cap, loadFactor), 0);
      LoadNear(cap, BucketsFor(cap, loadFactor), n, loadFactor);
    }
    hide BucketsFor;
    Wrapped(n * loadFactor / 256, cap);
  }

  /** With the default load factor the promise fails for this capacity. */
  lemma ReserveTooLarge()
    ensures var n := NextPrime(BucketsFor(3_100_000_000, 179));
      n == 8589934583 && MaxLoad(n, 179) == 1711276025 < 3_100_000_000
  {
    hide NextPrime;
    TopPrimes();
    hide PRIMES;
    PrimeIs(BucketsFor(3_100_000_000, 179), 32, 0);
  }

  /** The same condition for the default load factor. */
  lemma DefaultLoad(cap: nat)
    requires cap <= DELMARK
    ensures cap <= MaxLoad(NextPrime(BucketsFor(cap, 179)), 179) <==> cap <= 3_003_121_660
  {
    EnoughBuckets(cap, 179);
    hide NextPrime, MaxLoad;
    TopPrimes();
    hide PRIMES;
    if cap <= 3_003_121_660 {
      PrimeAtMost(BucketsFor(cap, 179), 31, 0);
    } else {
      PrimeIs(BucketsFor(cap, 179), 32, 0);
    }
  }

  lemma PrimesStep(i: nat)
    requires i + 1 < |PRIMES|
    ensures PRIMES[i] < PRIMES[i + 1]
  {
    assert forall i :: 0 < i < |PRIMES_32| ==> PRIMES_32[i - 1] < PRIMES_32[i];
    assert forall i :: 0 < i < |PRIMES_64| ==> PRIMES_64[i - 1] < PRIMES_64[i];
  }

  lemma PrimesDouble(i: nat)
    requires i < |PRIMES|
    ensures PRIMES[i] <= if i == 0 then 5 else 2 * PRIMES[i - 1] + 1000
  {
    assert forall i :: 0 < i < |PRIMES_32| ==> PRIMES_32[i] <= 2 * PRIMES_32[i - 1] + 1000;
    assert forall i :: 0 < i < |PRIMES_64| ==> PRIMES_64[i] <= 2 * PRIMES_64[i - 1] + 1000;
  }

  lemma {:induction false} PrimesRise(i: nat, j: nat)
    requires i < j < |PRIMES|
    ensures PRIMES[i] < PRIMES[j]
    decreases j - i
  {
    hide PRIMES;
    PrimesStep(i);
    if i + 1 < j { PrimesRise(i + 1, j); }
  }

  lemma {:induction false} PrimeAtMost(b: nat, j: nat, i: nat)
    requires i <= j < |PRIMES| && b <= PRIMES[j]
    ensures NextPrime(b, i) <= PRIMES[j]
    decreases j - i
  {
    hide PRIMES;
    if i < j {
      PrimesRise(i, j);
      PrimeAtMost(b, j, i + 1);
    }
  }

  lemma {:induction false} PrimeIs(b: nat, j: nat, i: nat)
    requires i <= j < |PRIMES| && 0 < j && PRIMES[j - 1] < b <= PRIMES[j]
    ensures NextPrime(b, i) == PRIMES[j]
    decreases j - i
  {
    hide PRIMES;
    if i < j {
      if i < j - 1 { PrimesRise(i, j - 1); }
      PrimeIs(b, j, i + 1);
    }
  }

  lemma {:induction false} PrimeNear(b: nat, i: nat)
    requires i < |PRIMES| && 0 < b && (0 < i ==> PRIMES[i - 1] < b)
    ensures NextPrime(b, i) <= 2 * b + 1000
    decreases |PRIMES| - i
  {
    hide PRIMES;
    PrimesDouble(i);
    if i + 1 < |PRIMES| && PRIMES[i] < b { PrimeNear(b, i + 1); }
  }

  /** The load of a capacity right below the largest number of slots, load factor by load factor. */
  lemma LoadAtTop(cap: nat, d: nat)
    requires 0xFFFF_F000 < cap <= DELMARK && 10 <= d <= 255
    ensures var q := NextPrime(BucketsFor(cap, d)) * d / 256;
      && q < 0x2_0000_0000
      && (q >= 0x1_0000_0000 ==> (q - 0x1_0000_0000 >= cap <==> LoadFits(cap, d)))
  {
    hide NextPrime, BucketsFor;
    if d == 16 || d == 32 || d == 64 || d == 128 {
      LoadAtPower(cap, d);
    } else {
      TopPrimes();
      hide PRIMES;
      if d > 128 {
        BandLoad(cap, d, 32, 129, 255);
      } else if d > 64 {
        BandLoad(cap, d, 33, 65, 127);
      } else if d > 32 {
        BandLoad(cap, d, 34, 33, 63);
      } else if d > 16 {
        BandLoad(cap, d, 35, 17, 31);
      } else {
        BandLoad(cap, d, 36, 10, 15);
      }
    }
  }

  lemma TopPrimes()
    ensures |PRIMES| == 64
    ensures PRIMES[31] == 4294967291 && PRIMES[32] == 8589934583 && PRIMES[33] == 17179869143
    ensures PRIMES[34] == 34359738337 && PRIMES[35] == 68719476731 && PRIMES[36] == 137438953447
  {
  }

  /** The number of buckets for a load factor that divides 256. */
  lemma LoadAtPower(cap: nat, d: nat)
    requires 0xFFFF_F000 < cap <= DELMARK && (d == 16 || d == 32 || d == 64 || d == 128)
    ensures NextPrime(BucketsFor(cap, d)) ==
      if d == 128 then (if cap <= 0xFFFF_FFFB then 8589934583 else 17179869143)
      else if d == 64 then (if cap <= 0xFFFF_FFF5 then 17179869143 else 34359738337)
      else if d == 32 then (if cap <= 0xFFFF_FFFC then 34359738337 else 68719476731)
      else 68719476731
  {
    hide NextPrime;
    TopPrimes();
    hide PRIMES;
    var b := BucketsFor(cap, d);
    if d == 128 {
      PrimeIs(b, if cap <= 0xFFFF_FFFB then 32 else 33, 0);
    } else if d == 64 {
      PrimeIs(b, if cap <= 0xFFFF_FFF5 then 33 else 34, 0);
    } else if d == 32 {
      PrimeIs(b, if cap <= 0xFFFF_FFFC then 34 else 35, 0);
    } else {
      PrimeIs(b, 35, 0);
    }
  }

  lemma BandLoad(cap: nat, d: nat, j: nat, lo: nat, hi: nat)
    requires cap <= DELMARK && 0 < lo <= d <= hi && j < |PRIMES|
    requires DELMARK * 256 < PRIMES[j] * lo && PRIMES[j] * hi / 256 < 0x1_FFFF_F000
    ensures NextPrime(BucketsFor(cap, d)) * d / 256 < 0x1_FFFF_F000
  {
    hide NextPrime, PRIMES;
    PrimeBound(cap, d, PRIMES[j], lo);
    PrimeAtMost(BucketsFor(cap, d), j, 0);
    ScaledTwice(NextPrime(BucketsFor(cap, d)), PRIMES[j], d, hi);
  }

  lemma PrimeBound(cap: nat, d: nat, p: nat, lo: nat)
    requires cap * 256 < p * lo && 0 < lo <= d
    ensures BucketsFor(cap, d) <= p
  {
    Scaled(lo, d, p);
    QuotientLess(cap * 256, d, cap * 256 / d, cap * 256 % d, p);
  }

  lemma ScaledTwice(n: nat, p: nat, d: nat, hi: nat)
    requires n <= p && d <= hi
    ensures n * d / 256 <= p * hi / 256
  {
    Scaled(n, p, d);
    Scaled(d, hi, p);
  }

  lemma QuotientLess(x: nat, d: nat, q: nat, r: nat, p: nat)
    requires x == d * q + r && x < p * d
    ensures q < p
  {
    if p <= q { Scaled(p, q, d); }
  }

  lemma Wrapped(q: nat, cap: nat)
    requires cap <= q && q < 0x2_0000_0000
    ensures q % 0x1_0000_0000 == if q < 0x1_0000_0000 then q else q - 0x1_0000_0000
  {
  }

  lemma LoadNear(cap: nat, b: nat, n: nat, d: nat)
    requires 10 <= d <= 255 && b == cap * 256 / d + 1 && n <= 2 * b + 1000
    ensures n * d / 256 < 2 * cap + 1000
  {
    var q, r := cap * 256 / d, cap * 256 % d;
    assert n <= 2 * q + 1002;
    Scaled(n, 2 * q + 1002, d);
    assert (2 * q + 1002) * d == 2 * (d * q) + 1002 * d;
    assert d * q + r == cap * 256;
  }

  lemma Scaled(a: nat, b: nat, d: nat)
    requires a <= b
    ensures a * d <= b * d && d * a <= d * b
  {
  }

  lemma Quotient(x: nat, d: nat)
    requires d > 0
    ensures x < (x / d + 1) * d && x / d <= x
  {
    QuotientBounds(x, d, x / d, x % d);
  }

  lemma QuotientBounds(x: nat, d: nat, q: nat, r: nat)
    requires x == d * q + r && r < d
    ensures x < (q + 1) * d && q <= x
  {
    assert (q + 1) * d == d * q + d;
    assert (d - 1) * q == d * q - q;
  }

  lemma EnoughFor(cap: nat, q: nat, n: nat, d: nat)
    requires cap * 256 < q * d && q <= n
    ensures cap <= n * d / 256
  {
    assert q * d <= n * d;
  }

  /** Every slot below `n` but one has kept its contents. */
  ghost predicate KeptBut(data: seq<Cell>, data0: seq<Cell>, n: nat, slot: nat) {
    n <= |data| == |data0| && forall s :: 0 <= s < n && s != slot ==> data[s] == data0[s]
  }

  /** How many elements `n` buckets take before there must be more; kept in 32 bits.  The shared
      dummy bucket of an empty table takes none. */
  function MaxLoad(n: nat, loadFactor: nat): nat {
    if n == 1 then 0 else n * loadFactor / 256 % 0x1_0000_0000
  }

  class Table {
    const hash: Key -> nat
    var data: seq<Cell>
    var link: seq<nat>
    var bucket: seq<nat>
    var nElem: nat
    var maxload: nat
    var freelistHead: nat
    var freelistSize: nat
    var loadFactor: nat
    var autoGc: bool
    var reuse: bool

    ghost var at: map<Key, nat>
    ghost var chains: seq<seq<nat>>
    ghost var free: seq<nat>
    ghost var detached: set<nat>

    ghost predicate Valid()
      reads this
    {
      && Hashed(bucket, link, data, hash, at, chains)
      && Slots(nElem, link, data, at, free, detached)
      && IsFreeList(freelistHead, free, data) && freelistSize == |free|
      && 10 <= loadFactor <= 255
      && (|bucket| == 1 ==> at == map[])
      && maxload == MaxLoad(|bucket|, loadFactor)
    }

    ghost function Contents(): map<Key, Value>
      reads this`data, this`at
    {
      Values(data, at)
    }

    constructor (hash: Key -> nat)
      ensures Valid() && Contents() == map[] && detached == {} && this.hash == hash
      ensures nElem == 0 && reuse && !autoGc && loadFactor == 179
    {
      this.hash := hash;
      data, link, bucket := [], [], [TAIL];
      nElem, maxload, freelistHead, freelistSize := 0, 0, TAIL, 0;
      loadFactor, autoGc, reuse := 179, false, true;
      at, chains, free, detached := map[], [[]], [], {};
    }

    /** The slot of a key, or nElem when it is not in the table. */
    method Find(key: Key) returns (idx: nat)
      requires Valid()
      ensures key in at ==> idx == at[key] && idx < nElem && Linked(data, at, idx) && data[idx].key == key
      ensures key !in at ==> idx == nElem
    {
      ghost var i, k := hash(key) % |bucket|, 0;
      var p := bucket[hash(key) % |bucket|];
      assert IsChain(p, chains[i], link);
      while p != TAIL
        invariant k <= |chains[i]|
        invariant p == if k < |chains[i]| then chains[i][k] else TAIL
        invariant forall j :: 0 <= j < k ==> !HasKey(data, chains[i][j], key)
        decreases |chains[i]| - k
      {
        assert p in chains[i];
        if data[p].key == key { return p; }
        p := link[p];
        k := k + 1;
      }
      return nElem;
    }

    /** Makes a slot that is on no chain the newest of its bucket. */
    method Hang(slot: nat, ghost on: map<Key, nat>)
      requires Hashed(bucket, link, data, hash, on, chains)
      requires slot < |data| <= DELMARK && data[slot].Elem? && data[slot].key !in on
      modifies this`bucket, this`link, this`chains
      ensures |bucket| == old(|bucket|)
      ensures Hashed(bucket, link, data, hash, on[data[slot].key := slot], chains)
      ensures |link| == old(|link|) && link[slot] != DELMARK
      ensures forall s :: 0 <= s < |link| && s != slot ==> link[s] == old(link)[s]
    {
      var i := hash(data[slot].key) % |bucket|;
      LinkHead(bucket, link, data, hash, on, chains, slot);
      ChainHead(bucket[i], chains[i], link);
      chains := chains[i := [slot] + chains[i]];
      link := link[slot := bucket[i]];
      bucket := bucket[i := slot];
    }

    /** Rebuilds every chain: each slot below nElem that is not marked deleted goes to the head of
        its bucket.  With an empty free list the old links, marks included, are not looked at. */
    method Relink()
      requires |bucket| > 0 && nElem <= |data| == |link| <= DELMARK
      requires Owners(nElem, data, at, free, detached) && detached == {}
      requires IsFreeList(freelistHead, free, data) && freelistSize == |free|
      requires freelistSize == 0 || Marked(nElem, link, free)
      requires Stored(data, at)
      requires |bucket| == 1 ==> nElem == 0 && Hashed(bucket, link, data, hash, at, chains)
      modifies this`bucket, this`link, this`chains
      ensures |bucket| == old(|bucket|)
      ensures Hashed(bucket, link, data, hash, at, chains)
      ensures Slots(nElem, link, data, at, free, detached)
    {
      hide Hashed, Owners, IsFreeList;
      if |bucket| == 1 { return; }
      bucket := seq(|bucket|, _ => TAIL);
      chains := seq(|bucket|, _ => []);
      EmptyHashed(bucket, link, data, hash, chains);
      assert Below(at, 0) == map[];
      for j := 0 to nElem
        invariant |bucket| == old(|bucket|)
        invariant Hashed(bucket, link, data, hash, Below(at, j), chains)
        invariant |link| == |data|
        invariant Marked(j, link, free)
        invariant freelistSize == 0 || Marked(nElem, link, free)
      {
        BelowStep(data, at, j);
        OneOwner(freelistHead, nElem, data, at, free, j);
        if freelistSize == 0 || link[j] != DELMARK {
          Hang(j, Below(at, j));
        }
      }
      AllBelow(nElem, data, at, free, detached);
    }

    /** `newBucketSize` is rounded up to a prime of the table; nothing happens when the table
        already has that many buckets. */
    method Rehash(newBucketSize: nat) returns (n: nat)
      requires Valid() && detached == {}
      modifies this`bucket, this`link, this`chains, this`maxload
      ensures Valid() && n == |bucket| == NextPrime(newBucketSize)
    {
      hide Hashed, Owners, Marked, IsFreeList, NextPrime, Stored, MaxLoad;
      KeysStored(bucket, link, data, hash, at, chains);
      n := NextPrime(newBucketSize);
      if n != |bucket| {
        bucket := seq(n, _ => TAIL);
        Relink();
        maxload := MaxLoad(n, loadFactor);
      }
    }

    /** Grows (or shrinks) the node arrays; slots below nElem keep their contents. */
    method ReserveNodes(cap: nat)
      requires Valid() && nElem <= cap <= DELMARK
      modifies this`data, this`link
      ensures Valid() && Contents() == old(Contents())
      ensures |link| == |data| >= nElem
      ensures forall s :: 0 <= s < nElem ==> data[s] == old(data)[s] && link[s] == old(link)[s]
      ensures |data| == if cap == nElem then old(|data|) else cap
    {
      if cap != |data| && cap != nElem {
        hide Hashed, Owners, Marked, IsFreeList, Values;
        ghost var data0, link0 := data, link;
        data := data[..nElem] + seq(cap - nElem, _ => Raw);
        link := link[..nElem] + seq(cap - nElem, _ => 0);
        SameTable(bucket, link0, data0, link, data, hash, at, chains, nElem, free, detached, freelistHead);
      }
    }

    /** Makes room for `cap` elements: no insertion up to that number changes the arrays. */
    method Reserve(cap: nat)
      requires Valid() && detached == {} && nElem <= cap <= DELMARK
      modifies this`data, this`link, this`bucket, this`chains, this`maxload
      ensures Valid() && Contents() == old(Contents())
      ensures cap != nElem ==> |data| == cap
      ensures |bucket| == NextPrime(BucketsFor(cap, loadFactor))
      ensures cap <= maxload <==> LoadFits(cap, loadFactor)
    {
      hide Table.Valid, Table.Contents, NextPrime, MaxLoad, BucketsFor, LoadFits;
      ReserveNodes(cap);
      LoadFacts();
      EnoughBuckets(cap, loadFactor);
      var _ := Rehash(BucketsFor(cap, loadFactor));
      LoadFacts();
    }

    lemma LoadFacts()
      requires Valid()
      ensures 10 <= loadFactor <= 255 && maxload == MaxLoad(|bucket|, loadFactor) && nElem <= |data|
    {
    }

    /** Takes a slot off the free list, or a new one at the end of the arrays. */
    method RiskSlotAlloc() returns (slot: nat)
      requires Valid()
      requires (freelistSize == 0 || !reuse) && nElem == |data| ==> 2 * nElem <= DELMARK && nElem < DELMARK
      modifies this`data, this`link, this`nElem, this`freelistHead, this`freelistSize, this`free, this`detached
      ensures Valid() && Contents() == old(Contents())
      ensures slot !in old(detached) && !Linked(data, at, slot) && detached == old(detached) + {slot}
      ensures SlotRule(old(freelistSize) == 0 || !reuse, old(nElem), nElem, old(free), slot)
      ensures free == if old(freelistSize) == 0 || !reuse then old(free) else old(free)[1..]
      ensures reuse && old(nElem - freelistSize) < old(|data|) ==> |data| == old(|data|)
      ensures |data| == Grown(old(freelistSize) == 0 || !reuse, old(nElem), old(|data|))
      ensures forall s :: 0 <= s < old(nElem) && s != slot ==> data[s] == old(data)[s]
    {
      hide Hashed, Owners, Marked, IsFreeList, Values, Linked, MaxLoad;
      if freelistSize == 0 || !reuse {
        slot := nElem;
        if nElem == |data| {
          ReserveNodes(if nElem == 0 then 1 else 2 * nElem);
        }
        AllocNew(bucket, link, data, hash, at, chains, nElem, free, detached, freelistHead);
        nElem := nElem + 1;
      } else {
        slot := freelistHead;
        AllocReuse(bucket, link, data, hash, at, chains, nElem, free, detached, freelistHead);
        freelistSize := freelistSize - 1;
        freelistHead := data[slot].next;
        free := free[1..];
      }
      link := link[slot := TAIL];
      detached := detached + {slot};
    }

    /** Looks the key up and, when it is missing, puts it into a fresh slot at the head of its
        bucket; a full table first gets more buckets. */
    method LazyInsert(key: Key, value: Value) returns (idx: nat, inserted: bool)
      requires Valid() && (detached == {} || nElem - freelistSize < maxload)
      requires (freelistSize == 0 || !reuse) && nElem == |data| ==> 2 * nElem <= DELMARK && nElem < DELMARK
      modifies this
      ensures Valid() && detached == old(detached)
      ensures inserted <==> key !in old(at)
      ensures !inserted ==> unchanged(this) && idx == at[key]
      ensures inserted ==> at == old(at)[key := idx] && Contents() == old(Contents())[key := value]
      ensures inserted ==> SlotRule(old(freelistSize) == 0 || !reuse, old(nElem), nElem, old(free), idx)
      ensures inserted ==> free == if old(freelistSize) == 0 || !reuse then old(free) else old(free)[1..]
      ensures old(nElem - freelistSize) < old(maxload) ==> |bucket| == old(|bucket|) && maxload == old(maxload)
      ensures inserted && old(nElem - freelistSize) >= old(maxload) ==> |bucket| == NextPrime(old(|bucket|) + 1)
      ensures reuse && old(nElem - freelistSize) < old(|data|) ==> |data| == old(|data|)
      ensures inserted ==> |data| == Grown(old(freelistSize) == 0 || !reuse, old(nElem), old(|data|))
      ensures autoGc == old(autoGc) && reuse == old(reuse)
    {
      assert key in at ==> at[key] < nElem;
      hide Hashed, Slots, IsFreeList, Values, Linked, NextPrime, Grown;
      idx := Find(key);
      inserted := idx == nElem;
      if inserted { idx := InsertNew(key, value); }
    }

    /** The insertion itself, of a key that is not there. */
    method InsertNew(key: Key, value: Value) returns (slot: nat)
      requires Valid() && (detached == {} || nElem - freelistSize < maxload) && key !in at
      requires (freelistSize == 0 || !reuse) && nElem == |data| ==> 2 * nElem <= DELMARK && nElem < DELMARK
      modifies this
      ensures Valid() && detached == old(detached)
      ensures at == old(at)[key := slot] && Contents() == old(Contents())[key := value]
      ensures SlotRule(old(freelistSize) == 0 || !reuse, old(nElem), nElem, old(free), slot)
      ensures free == if old(freelistSize) == 0 || !reuse then old(free) else old(free)[1..]
      ensures old(nElem - freelistSize) < old(maxload) ==> |bucket| == old(|bucket|) && maxload == old(maxload)
      ensures old(nElem - freelistSize) >= old(maxload) ==> |bucket| == NextPrime(old(|bucket|) + 1)
      ensures reuse && old(nElem - freelistSize) < old(|data|) ==> |data| == old(|data|)
      ensures |data| == Grown(old(freelistSize) == 0 || !reuse, old(nElem), old(|data|))
      ensures autoGc == old(autoGc) && reuse == old(reuse)
    {
      hide Hashed, Slots, IsFreeList, Values, Linked, MaxLoad, SlotRule, Table.Contents, NextPrime, Grown;
      GrowIfFull();
      slot := RiskSlotAlloc();
      Construct(slot, key, value);
    }

    /** Gives a table that has reached its maximal load more buckets. */
    method GrowIfFull()
      requires Valid() && (detached == {} || nElem - freelistSize < maxload)
      modifies this`bucket, this`link, this`chains, this`maxload
      ensures Valid() && |bucket| > 1
      ensures nElem - freelistSize < old(maxload) ==> |bucket| == old(|bucket|) && maxload == old(maxload)
      ensures nElem - freelistSize >= old(maxload) ==> |bucket| == NextPrime(old(|bucket|) + 1)
    {
      SomeBuckets(bucket, link, data, hash, at, chains);
      hide Hashed, Owners, Marked, IsFreeList, NextPrime;
      if nElem - freelistSize >= maxload {
        var _ := Rehash(|bucket| + 1);
      }
    }

    /** Constructs the element of an allocated slot and hangs it into the table. */
    method Construct(slot: nat, key: Key, value: Value)
      requires Valid() && slot in detached && key !in at && |bucket| > 1
      modifies this`data, this`link, this`bucket, this`chains, this`at, this`detached
      ensures Valid() && at == old(at)[key := slot] && detached == old(detached) - {slot}
      ensures Contents() == old(Contents())[key := value]
      ensures |data| == old(|data|) && |bucket| == old(|bucket|)
    {
      hide Hashed, Owners, IsFreeList, Values, Linked;
      ConsElem(bucket, link, data, hash, at, chains, nElem, free, detached, freelistHead, slot, key, value);
      data := data[slot := Elem(key, value)];
      Hang(slot, at);
      at := at[key := slot];
      detached := detached - {slot};
    }

    /** Walks the chain of bucket `i` with a pointer to the link that leads to the current slot,
        up to `slot`: that link is the bucket itself, or the link of slot `prev`. */
    method LinkTo(slot: nat, i: nat, ghost k: nat) returns (first: bool, prev: nat)
      requires i < |bucket| == |chains| && IsChain(bucket[i], chains[i], link)
      requires k < |chains[i]| && chains[i][k] == slot
      ensures first <==> k == 0
      ensures k > 0 ==> prev == chains[i][k - 1]
    {
      var curr := bucket[i];
      ghost var n := 0;
      first, prev := true, 0;
      while curr != slot
        invariant n <= k && curr == chains[i][n]
        invariant first <==> n == 0
        invariant n > 0 ==> prev == chains[i][n - 1]
        decreases k - n
      {
        prev, first := curr, false;
        assert link[chains[i][n]] == After(chains[i], n);
        curr := link[curr];
        n := n + 1;
      }
    }

    /** The buckets and links once the link that leads to `slot` skips it. */
    method Skipped(slot: nat, first: bool, prev: nat, i: nat, ghost k: nat) returns (bucket': seq<nat>, link': seq<nat>)
      requires Valid() && i < |bucket| && k < |chains[i]| && chains[i][k] == slot
      requires (first <==> k == 0) && (k > 0 ==> prev == chains[i][k - 1])
      ensures Linked(data, at, slot) && slot !in detached && |bucket'| == |bucket| == |chains|
      ensures Hashed(bucket', link', data, hash, at - {data[slot].key}, chains[i := Without(chains[i], k)])
      ensures Slots(nElem, link', data, at - {data[slot].key}, free, detached + {slot})
    {
      hide Owners, Marked, IsFreeList, Values, IsChain, Without;
      assert IsChain(bucket[i], chains[i], link) && |chains| == |bucket|;
      Unlink(bucket, link, data, hash, at, chains, i, k);
      LinksKept(link, bucket[i], chains[i], k, nElem, free, data, at, detached);
      var next := link[slot];
      bucket' := if first then bucket[i := next] else bucket;
      link' := if first then link else link[prev := next];
      DetachOwner(nElem, link, data, at, free, detached, slot, link');
    }

    /** Makes the link that leads to `slot` skip it; the slot is then detached. */
    method UnlinkSlot(slot: nat, first: bool, prev: nat, i: nat, ghost k: nat)
      requires Valid() && i < |bucket| && k < |chains[i]| && chains[i][k] == slot
      requires (first <==> k == 0) && (k > 0 ==> prev == chains[i][k - 1])
      modifies this`bucket, this`link, this`chains, this`at, this`detached
      ensures Valid() && Linked(data, old(at), slot)
      ensures at == old(at) - {data[slot].key} && detached == old(detached) + {slot}
      ensures slot !in old(detached) && |bucket| == old(|bucket|)
    {
      hide Hashed, Slots, IsFreeList, Values, Without;
      var bucket', link' := Skipped(slot, first, prev, i, k);
      bucket, link := bucket', link';
      chains, at, detached := chains[i := Without(chains[i], k)], at - {data[slot].key}, detached + {slot};
    }

    /** Unlinks the element of a slot and leaves it constructed (`risk_unlink`). */
    method RiskUnlink(idx: nat)
      requires Valid() && Linked(data, at, idx)
      modifies this`bucket, this`link, this`chains, this`at, this`detached
      ensures Valid() && at == old(at) - {data[idx].key}
      ensures idx !in old(detached) && detached == old(detached) + {idx} && |bucket| == old(|bucket|)
    {
      var i := hash(data[idx].key) % |bucket|;
      ghost var k := OnChain(bucket, link, data, hash, at, chains, idx);
      var first, prev := LinkTo(idx, i, k);
      UnlinkSlot(idx, first, prev, i, k);
    }

    /** Destroys the element of a detached slot and puts the slot at the head of the free list. */
    method PushFree(slot: nat)
      requires Valid() && slot in detached
      modifies this`data, this`link, this`freelistHead, this`freelistSize, this`free, this`detached
      ensures Valid() && Contents() == old(Contents())
      ensures free == [slot] + old(free) && detached == old(detached) - {slot}
      ensures KeptBut(data, old(data), nElem, slot)
    {
      hide Hashed, Owners, Marked, IsFreeList, Values, Linked;
      FreeSlot(bucket, link, data, hash, at, chains, nElem, free, detached, freelistHead, slot);
      link := link[slot := DELMARK];
      data := data[slot := FreeLink(freelistHead)];
      freelistSize := freelistSize + 1;
      freelistHead := slot;
      free, detached := [slot] + free, detached - {slot};
    }

    /** One more free slot makes more than half of the table free, and is to compact it. */
    ghost predicate GcDue()
      reads this`autoGc, this`reuse, this`freelistSize, this`nElem
    {
      autoGc && reuse && freelistSize + 1 > nElem / 2
    }

    /** Frees a detached slot; with auto gc, a table that is more than half free is compacted,
        which renumbers the slots. */
    method FastSlotFree(slot: nat)
      requires Valid() && slot in detached && (GcDue() ==> detached == {slot})
      modifies this
      ensures Valid() && Contents() == old(Contents()) && detached == old(detached) - {slot}
      ensures at.Keys == old(at).Keys
      ensures autoGc == old(autoGc) && reuse == old(reuse)
      ensures !old(GcDue()) ==> at == old(at) && nElem == old(nElem) && free == [slot] + old(free)
      ensures !old(GcDue()) ==> KeptBut(data, old(data), nElem, slot)
      ensures !old(GcDue()) ==> |bucket| == old(|bucket|) && maxload == old(maxload)
      ensures old(GcDue()) ==> free == [] && nElem == |at| && SameOrder(at, old(at))
    {
      hide Hashed, Slots, IsFreeList, Values, MaxLoad, KeptBut, SameOrder;
      PushFree(slot);
      if !reuse { return; }
      if autoGc && freelistSize > nElem / 2 {
        var _ := RevokeDeleted();
      }
    }

    /** Walks the chain of the key's bucket, holding the link that leads to the current slot. */
    method FindLink(key: Key) returns (found: bool, first: bool, prev: nat, slot: nat, ghost k: nat)
      requires Valid()
      ensures found <==> key in at
      ensures found ==> hash(key) % |bucket| < |chains| && k < |chains[hash(key) % |bucket|]|
      ensures found ==> slot == at[key] == chains[hash(key) % |bucket|][k]
      ensures found ==> (first <==> k == 0) && (k > 0 ==> prev == chains[hash(key) % |bucket|][k - 1])
    {
      assert |link| <= DELMARK;
      hide Slots, IsFreeList;
      ghost var i := hash(key) % |bucket|;
      slot, first, prev, k := bucket[hash(key) % |bucket|], true, 0, 0;
      assert IsChain(slot, chains[i], link);
      while slot != TAIL
        invariant k <= |chains[i]|
        invariant slot == if k < |chains[i]| then chains[i][k] else TAIL
        invariant (first <==> k == 0) && (k > 0 ==> prev == chains[i][k - 1])
        invariant forall j :: 0 <= j < k ==> !HasKey(data, chains[i][j], key)
        decreases |chains[i]| - k
      {
        assert slot in chains[i] && InBucket(data, hash, at, |bucket|, slot, i);
        if data[slot].key == key { return true, first, prev, slot, k; }
        prev, first := slot, false;
        slot := link[slot];
        k := k + 1;
      }
      found := false;
    }

    /** Unlinks a slot and frees it. */
    method Drop(slot: nat, first: bool, prev: nat, i: nat, ghost k: nat, ghost key: Key)
      requires Valid() && i < |bucket| && k < |chains[i]| && chains[i][k] == slot
      requires (first <==> k == 0) && (k > 0 ==> prev == chains[i][k - 1])
      requires HasKey(data, slot, key) && (GcDue() ==> detached == {})
      modifies this
      ensures Valid() && detached == old(detached)
      ensures Contents() == old(Contents()) - {key} && at.Keys == old(at).Keys - {key}
      ensures autoGc == old(autoGc) && reuse == old(reuse)
      ensures !old(GcDue()) ==> at == old(at) - {key} && free == [slot] + old(free)
      ensures !old(GcDue()) ==> nElem == old(nElem) && KeptBut(data, old(data), nElem, slot)
      ensures !old(GcDue()) ==> |bucket| == old(|bucket|) && maxload == old(maxload)
      ensures old(GcDue()) ==> free == [] && nElem == |at| && SameOrder(at, old(at) - {key})
    {
      hide Hashed, Slots, IsFreeList, Linked, Values, MaxLoad, Without, KeptBut, SameOrder;
      UnlinkSlot(slot, first, prev, i, k);
      ValuesWithout(data, old(at), key);
      FastSlotFree(slot);
    }

    /** Erases a key; 1 when it was there.  Other slots keep their numbers unless auto gc compacts. */
    method Erase(key: Key) returns (n: nat)
      requires Valid() && (GcDue() ==> detached == {})
      modifies this
      ensures Valid() && detached == old(detached)
      ensures Contents() == old(Contents()) - {key} && at.Keys == old(at).Keys - {key}
      ensures n == if key in old(at) then 1 else 0
      ensures n == 0 ==> unchanged(this)
      ensures n == 1 && !old(GcDue()) ==> at == old(at) - {key} && free == [old(at)[key]] + old(free)
      ensures n == 1 && old(GcDue()) ==> free == [] && nElem == |at| && SameOrder(at, old(at) - {key})
    {
      var found, first, prev, slot, k := FindLink(key);
      hide Hashed, Slots, IsFreeList, Linked, Values, MaxLoad, KeptBut, SameOrder;
      if found {
        Found(bucket, link, data, hash, at, chains, key);
        Drop(slot, first, prev, hash(key) % |bucket|, k, key);
        n := 1;
      } else {
        NotThere(data, at, key);
        n := 0;
      }
    }

    /** Erases the element of a slot. */
    method EraseI(idx: nat)
      requires Valid() && idx < nElem && Linked(data, at, idx) && (GcDue() ==> detached == {})
      modifies this
      ensures Valid() && detached == old(detached)
      ensures Contents() == old(Contents()) - {old(data)[idx].key}
      ensures autoGc == old(autoGc) && reuse == old(reuse)
      ensures !old(GcDue()) ==> at == old(at) - {old(data)[idx].key} && nElem == old(nElem)
      ensures !old(GcDue()) ==> free == [idx] + old(free) && KeptBut(data, old(data), nElem, idx)
      ensures !old(GcDue()) ==> |bucket| == old(|bucket|) && maxload == old(maxload)
      ensures old(GcDue()) ==> free == [] && nElem == |at| && SameOrder(at, old(at) - {old(data)[idx].key})
    {
      var i := hash(data[idx].key) % |bucket|;
      ghost var k := OnChain(bucket, link, data, hash, at, chains, idx);
      hide Hashed, Slots, IsFreeList, Linked, Values, MaxLoad, KeptBut, IsChain, SameOrder;
      var first, prev := LinkTo(idx, i, k);
      Drop(idx, first, prev, i, k, data[idx].key);
    }

    /** Erases every element that `pred` selects without renumbering the others, until the end:
        with auto gc, a table that is then more than half free is compacted once. */
    method KeepIdEraseIf(pred: (Key, Value) -> bool) returns (erased: nat)
      requires Valid() && detached == {}
      modifies this
      ensures Valid() && detached == {}
      ensures Contents() == Rejected(old(Contents()), pred)
      ensures erased == old(Size(at)) - Size(at)
      ensures var gc := autoGc && old(freelistSize) + erased > old(nElem) / 2;
        && (!gc ==> at == Survivors(old(at), old(Contents()), pred, nElem) && nElem == old(nElem))
        && (gc ==> free == [] && nElem == |at|)
      ensures SameOrder(at, old(at))
      ensures autoGc == old(autoGc) && reuse == old(reuse)
    {
      Rejecting(nElem, bucket, link, data, hash, at, chains, free, detached, pred);
      hide Hashed, Slots, IsFreeList, Linked, Values, MaxLoad, SameOrder, Survivors, Rejected, Only, Size;
      ghost var at0 := at;
      var oldAutoGc := autoGc;
      autoGc := false;
      FreeCount();
      erased := EraseSelected(pred);
      FreeCount();
      autoGc := oldAutoGc;
      if oldAutoGc && freelistSize > nElem / 2 {
        ghost var at1 := at;
        var _ := RevokeDeleted();
        OrderTransitive(at, at1, at0);
      }
    }

    /** One step of the scan: with no free slots at the start the mark is not looked at. */
    method EraseIfSelected(pred: (Key, Value) -> bool, i: nat, noneFree: bool,
                           ghost at0: map<Key, nat>, ghost c0: map<Key, Value>) returns (hit: bool)
      requires Valid() && detached == {} && !autoGc && i < nElem
      requires at == Survivors(at0, c0, pred, i) && Contents() == Only(c0, at) && at0.Keys == c0.Keys
      requires noneFree ==> forall s :: s in free ==> s < i
      modifies this
      ensures Valid() && detached == {} && !autoGc && reuse == old(reuse) && nElem == old(nElem)
      ensures at == Survivors(at0, c0, pred, i + 1) && Contents() == Only(c0, at)
      ensures noneFree ==> forall s :: s in free ==> s < i + 1
      ensures Size(at) == old(Size(at)) - if hit then 1 else 0
    {
      hide Table.Valid, Table.Contents, Linked, Survivors, Only, KeptBut, Size;
      Scanning(pred, i, at0, c0);
      hit := (noneFree || link[i] != DELMARK) && pred(data[i].key, data[i].value);
      if hit {
        OnlyWithout(c0, at, data[i].key);
        SizeWithout(at, data[i].key);
        EraseI(i);
      }
    }

    /** What the scan knows about slot `i`. */
    lemma Scanning(pred: (Key, Value) -> bool, i: nat, at0: map<Key, nat>, c0: map<Key, Value>)
      requires Valid() && detached == {} && i < nElem
      requires at == Survivors(at0, c0, pred, i) && Contents() == Only(c0, at) && at0.Keys == c0.Keys
      ensures i < |link| == |data| && (i !in free <==> Linked(data, at, i)) && (i !in free <==> link[i] != DELMARK)
      ensures Linked(data, at, i) ==> data[i].Elem? && data[i].key in at && data[i].key in c0
      ensures Linked(data, at, i) ==> c0[data[i].key] == data[i].value
      ensures var next := Survivors(at0, c0, pred, i + 1);
        next == if Linked(data, at, i) && pred(data[i].key, data[i].value) then at - {data[i].key} else at
    {
      LiveSlot(nElem, bucket, link, data, hash, at, chains, free, freelistHead, i);
      SurvivorStep(data, at0, c0, pred, i);
      OnlyAt(c0, at);
      hide Hashed, Slots, IsFreeList, Linked, Values, MaxLoad, Survivors, Only;
    }

    lemma FreeCount()
      requires Valid() && detached == {}
      ensures freelistSize == |free| == nElem - Size(at)
    {
      assert Slots(nElem, link, data, at, free, detached) && |detached| == 0;
    }

    lemma StartScan(pred: (Key, Value) -> bool)
      requires Valid()
      ensures at == Survivors(at, Contents(), pred, 0) && Contents() == Only(Contents(), at)
      ensures Contents().Keys == at.Keys && freelistSize == |free|
    {
      AllSurvive(bucket, link, data, hash, at, chains, pred);
    }

    method EraseSelected(pred: (Key, Value) -> bool) returns (erased: nat)
      requires Valid() && detached == {} && !autoGc
      modifies this
      ensures Valid() && detached == {} && nElem == old(nElem)
      ensures at == Survivors(old(at), old(Contents()), pred, nElem)
      ensures Contents() == Only(old(Contents()), at)
      ensures erased == old(Size(at)) - Size(at)
      ensures !autoGc && reuse == old(reuse)
    {
      hide Table.Valid, Table.Contents, Survivors, Only, Size;
      StartScan(pred);
      ghost var at0, c0 := at, Contents();
      var n := nElem;
      erased := 0;
      var noneFree := freelistSize == 0;
      for i := 0 to n
        invariant Valid() && detached == {} && !autoGc && reuse == old(reuse) && nElem == n
        invariant at == Survivors(at0, c0, pred, i) && Contents() == Only(c0, at)
        invariant at0.Keys == c0.Keys
        invariant erased == Size(at0) - Size(at)
        invariant noneFree ==> forall s :: s in free ==> s < i
      {
        var hit := EraseIfSelected(pred, i, noneFree, at0, c0);
        if hit { erased := erased + 1; }
      }
    }

    /** Moves the live elements down over the deleted ones, keeping their order, and rebuilds the
        chains. */
    method RevokeDeleted() returns (erased: nat)
      requires Valid() && detached == {}
      modifies this
      ensures Valid() && Contents() == old(Contents()) && detached == {}
      ensures erased == old(freelistSize) && freelistSize == 0 && nElem == |at|
      ensures at.Keys == old(at).Keys
      ensures SameOrder(at, old(at))
      ensures autoGc == old(autoGc) && reuse == old(reuse)
    {
      hide Hashed, Values, Owners, Marked, Linked, Rank, Ranked, IsFreeList, SameOrder, Stored;
      if freelistSize == 0 {
        NothingDeleted(nElem, data, at, free);
        return 0;
      }
      erased := RevokeDeletedNoRelink();
      Relink();
    }

    /** The compaction itself; `bucket` and `link` are stale afterwards. */
    method RevokeDeletedNoRelink() returns (erased: nat)
      requires Valid() && detached == {} && freelistSize > 0
      modifies this`data, this`nElem, this`freelistHead, this`freelistSize, this`at, this`free
      ensures |data| == |link| && at == Ranked(old(at), link) && nElem == Rank(link, old(nElem))
      ensures free == [] && freelistSize == 0 && IsFreeList(freelistHead, free, data)
      ensures Owners(nElem, data, at, free, {}) && nElem <= |data|
      ensures Stored(data, at)
      ensures SameOrder(at, old(at)) && at.Keys == old(at).Keys && nElem == |at|
      ensures Contents() == old(Contents()) && erased == old(freelistSize)
      ensures |bucket| > 0 && |data| <= DELMARK
      ensures |bucket| == 1 ==> nElem == 0 && Hashed(bucket, link, data, hash, at, chains)
    {
      hide Hashed, IsFreeList, Values, Owners, Marked, NoDup, Linked, Rank, Ranked, SameOrder, Moved, Stored;
      ghost var data0, at' := data, Ranked(at, link);
      var n := nElem;
      var i := MoveLive(n);
      Compacted(bucket, n, link, data0, data, hash, at, chains, free, freelistHead);
      erased := n - i;
      at, nElem := at', i;
      free, freelistHead, freelistSize := [], TAIL, 0;
    }

    /** Moves the elements of the unmarked slots below `n` down, in order. */
    method MoveLive(n: nat) returns (i: nat)
      requires n <= |data| == |link|
      modifies this`data
      ensures |data| == |link| && i == Rank(link, n)
      ensures Moved(link, old(data), data, n, n)
    {
      hide Moved, Rank;
      i := 0;
      MovedNone(link, data, n);
      while i < n && link[i] != DELMARK
        invariant data == old(data)
        invariant i <= n && Moved(link, data, data, n, i) && Rank(link, i) == i
      {
        MovedStep(link, data, data, n, i);
        i := i + 1;
      }
      if i == n { return; }
      MovedStep(link, data, data, n, i);
      var j := i + 1;
      while j < n
        invariant i < j <= n && i == Rank(link, j) && |data| == |link|
        invariant Moved(link, old(data), data, n, j)
      {
        MovedStep(link, old(data), data, n, j);
        if link[j] != DELMARK {
          data := data[i := data[j]];
          i := i + 1;
        }
        j := j + 1;
      }
    }
  }

  /** Slots below `j` have been moved down, the rest up to `n` are untouched. */
  ghost predicate Moved(link: seq<nat>, data0: seq<Cell>, data: seq<Cell>, n: nat, j: nat) {
    && n <= |link| == |data| == |data0| && j <= n
    && (forall t {:trigger Rank(link, t)} :: 0 <= t < j && link[t] != DELMARK ==> data[Rank(link, t)] == data0[t])
    && (forall t :: j <= t < n ==> data[t] == data0[t])
  }

  lemma MovedNone(link: seq<nat>, data: seq<Cell>, n: nat)
    requires n <= |link| == |data|
    ensures Moved(link, data, data, n, 0) && Rank(link, 0) == 0
  {
  }

  lemma {:induction false} MovedStep(link: seq<nat>, data0: seq<Cell>, data: seq<Cell>, n: nat, j: nat)
    requires Moved(link, data0, data, n, j) && j < n
    ensures |data| == |link| && Rank(link, j) <= j
    ensures Rank(link, j + 1) == Rank(link, j) + if link[j] == DELMARK then 0 else 1
    ensures link[j] == DELMARK ==> Moved(link, data0, data, n, j + 1)
    ensures link[j] != DELMARK ==> Moved(link, data0, data[Rank(link, j) := data[j]], n, j + 1)
    ensures Rank(link, j) == j ==> data[Rank(link, j) := data[j]] == data
  {
    if link[j] == DELMARK { SkippedStep(link, data0, data, n, j); } else { LiveStep(link, data0, data, n, j); }
    hide Moved;
  }

  lemma {:induction false} SkippedStep(link: seq<nat>, data0: seq<Cell>, data: seq<Cell>, n: nat, j: nat)
    requires Moved(link, data0, data, n, j) && j < n && link[j] == DELMARK
    ensures Moved(link, data0, data, n, j + 1)
  {
    hide Rank;
    assert forall t :: 0 <= t < j + 1 && link[t] != DELMARK ==> t < j;
  }

  lemma {:induction false} LiveStep(link: seq<nat>, data0: seq<Cell>, data: seq<Cell>, n: nat, j: nat)
    requires Moved(link, data0, data, n, j) && j < n && link[j] != DELMARK
    ensures Rank(link, j) <= j && Moved(link, data0, data[Rank(link, j) := data[j]], n, j + 1)
  {
    var data' := data[Rank(link, j) := data[j]];
    hide Rank;
    forall t | 0 <= t < j + 1 && link[t] != DELMARK ensures data'[Rank(link, t)] == data0[t] {
      RankMono(link, t, j);
    }
  }

  /** How many slots below `n` are not marked deleted. */
  ghost function Rank(link: seq<nat>, n: nat): (r: nat)
    ensures r <= n
  {
    if n == 0 || n > |link| then 0 else Rank(link, n - 1) + if link[n - 1] != DELMARK then 1 else 0
  }

  /** Slot numbers after compaction. */
  ghost function Ranked(at: map<Key, nat>, link: seq<nat>): map<Key, nat> {
    map k | k in at :: Rank(link, at[k])
  }

  ghost predicate SameOrder(at: map<Key, nat>, at0: map<Key, nat>) {
    forall k, l :: k in at && l in at && k in at0 && l in at0 ==> (at[k] < at[l] <==> at0[k] < at0[l])
  }

  /** All that holds once the elements have been moved. */
  lemma Compacted(bucket: seq<nat>, n: nat, link: seq<nat>, data0: seq<Cell>, data: seq<Cell>, hash: Key -> nat,
                  at: map<Key, nat>, chains: seq<seq<nat>>, free: seq<nat>, head: nat)
    requires Hashed(bucket, link, data0, hash, at, chains) && Slots(n, link, data0, at, free, {})
    requires IsFreeList(head, free, data0) && Moved(link, data0, data, n, n)
    ensures Rank(link, n) + |free| == n && Rank(link, n) == |Ranked(at, link)| && n <= |data|
    ensures Owners(Rank(link, n), data, Ranked(at, link), [], {}) && Stored(data, Ranked(at, link))
    ensures Values(data, Ranked(at, link)) == Values(data0, at)
    ensures SameOrder(Ranked(at, link), at) && Ranked(at, link).Keys == at.Keys
    ensures IsFreeList(TAIL, [], data) && |bucket| > 0
    ensures at == map[] ==> Rank(link, n) == 0 && Hashed(bucket, link, data, hash, Ranked(at, link), chains)
  {
    assert NoDup(free) && |data| == |link|;
    assert |bucket| > 0;
    hide Hashed, IsFreeList, Values, Owners, Marked, NoDup, Linked, Rank, Ranked, SameOrder, Moved, Stored;
    KeysStored(bucket, link, data0, hash, at, chains);
    RankCount(n, link, data0, at, free);
    CompactOwners(n, link, data0, data, at, free);
    RankedOrder(n, link, data0, at, free);
    assert |Ranked(at, link).Keys| == |at.Keys|;
    NoFree(data);
    if at == map[] {
      NothingHashed(bucket, link, data0, data, hash, chains);
      assert Ranked(at, link).Keys == {};
      assert Ranked(at, link) == map[];
    }
  }

  lemma RankedOrder(n: nat, link: seq<nat>, data: seq<Cell>, at: map<Key, nat>, free: seq<nat>)
    requires Slots(n, link, data, at, free, {})
    requires Stored(data, at)
    ensures SameOrder(Ranked(at, link), at) && Ranked(at, link).Keys == at.Keys
  {
    forall k, l | k in at && l in at ensures at[k] < at[l] <==> Rank(link, at[k]) < Rank(link, at[l]) {
      assert Linked(data, at, at[k]) && Linked(data, at, at[l]);
      if at[k] < at[l] { RankMono(link, at[k], at[l]); } else { RankMono(link, at[l], at[k]); }
    }
  }

  lemma SomeBuckets(bucket: seq<nat>, link: seq<nat>, data: seq<Cell>, hash: Key -> nat, at: map<Key, nat>,
                    chains: seq<seq<nat>>)
    requires Hashed(bucket, link, data, hash, at, chains)
    ensures |bucket| > 0
  {
  }

  lemma NotThere(data: seq<Cell>, at: map<Key, nat>, key: Key)
    requires key !in at
    ensures Values(data, at) - {key} == Values(data, at) && at.Keys - {key} == at.Keys
  {
  }

  lemma ValuesWithout(data: seq<Cell>, at: map<Key, nat>, key: Key)
    ensures Values(data, at - {key}) == Values(data, at) - {key}
    ensures (at - {key}).Keys == at.Keys - {key}
  {
  }

  lemma Found(bucket: seq<nat>, link: seq<nat>, data: seq<Cell>, hash: Key -> nat, at: map<Key, nat>,
              chains: seq<seq<nat>>, key: Key)
    requires Hashed(bucket, link, data, hash, at, chains) && key in at
    ensures at[key] < |data| && data[at[key]].Elem? && data[at[key]].key == key
    ensures |chains| == |bucket| > 0
  {
  }

  lemma OnChain(bucket: seq<nat>, link: seq<nat>, data: seq<Cell>, hash: Key -> nat, at: map<Key, nat>,
                chains: seq<seq<nat>>, idx: nat) returns (k: nat)
    requires Hashed(bucket, link, data, hash, at, chains) && Linked(data, at, idx)
    ensures var i := hash(data[idx].key) % |bucket|;
      |chains| == |bucket| && k < |chains[i]| && chains[i][k] == idx && IsChain(bucket[i], chains[i], link)
  {
    var i := hash(data[idx].key) % |bucket|;
    assert at[data[idx].key] in chains[i];
    k :| 0 <= k < |chains[i]| && chains[i][k] == idx;
  }

  /** What an erasure by `pred` leaves. */
  ghost function Rejected(c: map<Key, Value>, pred: (Key, Value) -> bool): map<Key, Value> {
    map k | k in c && !pred(k, c[k]) :: c[k]
  }

  ghost function Only(c: map<Key, Value>, at: map<Key, nat>): map<Key, Value> {
    map k | k in c && k in at :: c[k]
  }

  /** What is left when the slots below `i` have been looked at. */
  ghost function Survivors(at: map<Key, nat>, c: map<Key, Value>, pred: (Key, Value) -> bool, i: nat): map<Key, nat> {
    map k | k in at && k in c && (at[k] >= i || !pred(k, c[k])) :: at[k]
  }

  lemma AllSurvive(bucket: seq<nat>, link: seq<nat>, data: seq<Cell>, hash: Key -> nat, at: map<Key, nat>,
                   chains: seq<seq<nat>>, pred: (Key, Value) -> bool)
    requires Hashed(bucket, link, data, hash, at, chains)
    ensures Values(data, at).Keys == at.Keys && Survivors(at, Values(data, at), pred, 0) == at
    ensures Only(Values(data, at), at) == Values(data, at)
  {
  }

  lemma SurvivorStep(data: seq<Cell>, at0: map<Key, nat>, c0: map<Key, Value>, pred: (Key, Value) -> bool, i: nat)
    requires at0.Keys == c0.Keys
    requires Stored(data, Survivors(at0, c0, pred, i))
    ensures var at, at' := Survivors(at0, c0, pred, i), Survivors(at0, c0, pred, i + 1);
      && (!Linked(data, at, i) ==> at' == at)
      && (Linked(data, at, i) ==>
        data[i].key in c0 && at' == if pred(data[i].key, c0[data[i].key]) then at - {data[i].key} else at)
  {
    var at := Survivors(at0, c0, pred, i);
    forall k | k in at && at[k] == i ensures Linked(data, at, i) && data[i].key == k {
      assert HasKey(data, at[k], k);
    }
  }

  lemma LiveSlot(nElem: nat, bucket: seq<nat>, link: seq<nat>, data: seq<Cell>, hash: Key -> nat, at: map<Key, nat>,
                 chains: seq<seq<nat>>, free: seq<nat>, head: nat, i: nat)
    requires Hashed(bucket, link, data, hash, at, chains) && Slots(nElem, link, data, at, free, {})
    requires IsFreeList(head, free, data) && i < nElem
    ensures i < |link| == |data| && Stored(data, at)
    ensures i !in free <==> Linked(data, at, i)
    ensures i !in free <==> link[i] != DELMARK
    ensures Linked(data, at, i) ==> data[i].Elem? && data[i].key in at
    ensures Linked(data, at, i) ==> data[i].key in Values(data, at) && Values(data, at)[data[i].key] == data[i].value
  {
    OneOwner(head, nElem, data, at, free, i);
  }

  lemma OnlyWithout(c: map<Key, Value>, at: map<Key, nat>, k: Key)
    ensures Only(c, at - {k}) == Only(c, at) - {k}
  {
  }

  ghost function Size(at: map<Key, nat>): nat {
    |at|
  }

  lemma SizeWithout(at: map<Key, nat>, k: Key)
    requires k in at
    ensures Size(at - {k}) == Size(at) - 1
  {
    assert (at - {k}).Keys == at.Keys - {k};
  }

  lemma OnlyAt(c: map<Key, Value>, at: map<Key, nat>)
    ensures forall k :: k in Only(c, at) ==> k in c && Only(c, at)[k] == c[k]
  {
  }

  lemma Rejecting(nElem: nat, bucket: seq<nat>, link: seq<nat>, data: seq<Cell>, hash: Key -> nat, at: map<Key, nat>,
                  chains: seq<seq<nat>>, free: seq<nat>, detached: set<nat>, pred: (Key, Value) -> bool)
    requires Hashed(bucket, link, data, hash, at, chains) && Slots(nElem, link, data, at, free, detached)
    ensures var c, left := Values(data, at), Survivors(at, Values(data, at), pred, nElem);
      Only(c, left) == Rejected(c, pred) && SameOrder(left, at)
  {
  }

  lemma OrderTransitive(at2: map<Key, nat>, at1: map<Key, nat>, at0: map<Key, nat>)
    requires SameOrder(at2, at1) && SameOrder(at1, at0) && at2.Keys == at1.Keys
    ensures SameOrder(at2, at0) && Size(at2) == Size(at1)
  {
    assert |at2| == |at2.Keys| && |at1| == |at1.Keys|;
    forall k, l | k in at2 && l in at2 && k in at0 && l in at0 ensures at2[k] < at2[l] <==> at0[k] < at0[l] {
      assert k in at1 && l in at1;
    }
  }

  lemma NothingDeleted(nElem: nat, data: seq<Cell>, at: map<Key, nat>, free: seq<nat>)
    requires Owners(nElem, data, at, free, {}) && free == []
    ensures nElem == |at| && SameOrder(at, at)
  {
  }

  lemma NoFree(data: seq<Cell>)
    ensures IsFreeList(TAIL, [], data)
  {
  }

  lemma NothingHashed(bucket: seq<nat>, link: seq<nat>, data: seq<Cell>, data': seq<Cell>, hash: Key -> nat,
                      chains: seq<seq<nat>>)
    requires Hashed(bucket, link, data, hash, map[], chains) && |data'| == |data|
    ensures Hashed(bucket, link, data', hash, map[], chains)
  {
    assert forall i :: 0 <= i < |bucket| ==> chains[i] == [] || chains[i][0] !in chains[i];
  }

  lemma {:induction false} RankMono(link: seq<nat>, a: nat, b: nat)
    requires a <= b <= |link|
    ensures Rank(link, a) <= Rank(link, b)
    ensures a < b && link[a] != DELMARK ==> Rank(link, a) < Rank(link, b)
  {
    if a < b { RankMono(link, a, b - 1); }
  }

  lemma {:induction false} RankOnto(link: seq<nat>, n: nat, r: nat) returns (t: nat)
    requires n <= |link| && r < Rank(link, n)
    ensures t < n && link[t] != DELMARK && Rank(link, t) == r
  {
    if r == Rank(link, n - 1) { t := n - 1; } else { t := RankOnto(link, n - 1, r); }
  }

  /** The deleted slots below `n`. */
  ghost function Deleted(link: seq<nat>, n: nat): (d: set<nat>)
    requires n <= |link|
    ensures Rank(link, n) + |d| == n
    ensures forall s: nat :: s in d <==> s < n && link[s] == DELMARK
  {
    if n == 0 then {} else Deleted(link, n - 1) + if link[n - 1] == DELMARK then {n - 1} else {}
  }

  lemma RankCount(n: nat, link: seq<nat>, data: seq<Cell>, at: map<Key, nat>, free: seq<nat>)
    requires Slots(n, link, data, at, free, {}) && NoDup(free)
    ensures Rank(link, n) + |free| == n && Rank(link, n) == |at|
  {
    NoDupSize(free);
    assert Deleted(link, n) == SetOf(free);
  }

  lemma MovedAt(n: nat, link: seq<nat>, data0: seq<Cell>, data: seq<Cell>, at: map<Key, nat>, free: seq<nat>, k: Key)
    requires Slots(n, link, data0, at, free, {}) && Moved(link, data0, data, n, n)
    requires k in at && HasKey(data0, at[k], k)
    ensures Rank(link, at[k]) < Rank(link, n) && HasKey(data, Rank(link, at[k]), k)
    ensures data[Rank(link, at[k])] == data0[at[k]]
  {
    assert Linked(data0, at, at[k]);
    RankMono(link, at[k], n);
    hide Rank;
  }

  lemma MovedOwner(n: nat, link: seq<nat>, data0: seq<Cell>, data: seq<Cell>, at: map<Key, nat>, free: seq<nat>, s: nat)
    requires Slots(n, link, data0, at, free, {}) && Moved(link, data0, data, n, n)
    requires s < Rank(link, n)
    ensures Linked(data, Ranked(at, link), s)
  {
    var t := RankOnto(link, n, s);
    assert Linked(data0, at, t);
    hide Rank;
  }

  lemma CompactStored(n: nat, link: seq<nat>, data0: seq<Cell>, data: seq<Cell>, at: map<Key, nat>, free: seq<nat>)
    requires Slots(n, link, data0, at, free, {}) && Stored(data0, at)
    requires Moved(link, data0, data, n, n)
    ensures forall k :: k in at ==> Ranked(at, link)[k] < Rank(link, n)
    ensures Stored(data, Ranked(at, link))
    ensures Values(data, Ranked(at, link)) == Values(data0, at)
  {
    hide Slots, Moved, Rank;
    forall k | k in at
      ensures Rank(link, at[k]) < Rank(link, n) && HasKey(data, Rank(link, at[k]), k)
      ensures data[Rank(link, at[k])] == data0[at[k]]
    {
      MovedAt(n, link, data0, data, at, free, k);
    }
  }

  lemma CompactOwners(n: nat, link: seq<nat>, data0: seq<Cell>, data: seq<Cell>, at: map<Key, nat>, free: seq<nat>)
    requires Slots(n, link, data0, at, free, {}) && NoDup(free)
    requires Stored(data0, at)
    requires Moved(link, data0, data, n, n)
    ensures Owners(Rank(link, n), data, Ranked(at, link), [], {})
    ensures Stored(data, Ranked(at, link))
    ensures Values(data, Ranked(at, link)) == Values(data0, at)
  {
    hide Slots, Moved, Rank, Values, Stored, NoDup, Linked;
    var at' := Ranked(at, link);
    RankCount(n, link, data0, at, free);
    CompactStored(n, link, data0, data, at, free);
    forall s | 0 <= s < Rank(link, n) ensures Linked(data, at', s) {
      MovedOwner(n, link, data0, data, at, free, s);
    }
    assert at'.Keys == at.Keys;
  }

  lemma FreeSlot(bucket: seq<nat>, link: seq<nat>, data: seq<Cell>, hash: Key -> nat, at: map<Key, nat>,
                 chains: seq<seq<nat>>, nElem: nat, free: seq<nat>, detached: set<nat>, head: nat, slot: nat)
    requires Hashed(bucket, link, data, hash, at, chains) && Slots(nElem, link, data, at, free, detached)
    requires IsFreeList(head, free, data) && slot in detached
    ensures slot < |data| == |link|
    ensures var data', link' := data[slot := FreeLink(head)], link[slot := DELMARK];
      && Hashed(bucket, link', data', hash, at, chains)
      && Slots(nElem, link', data', at, [slot] + free, detached - {slot})
      && IsFreeList(slot, [slot] + free, data')
      && Values(data', at) == Values(data, at)
  {
    var data' := data[slot := FreeLink(head)];
    assert !Linked(data, at, slot) && slot !in free;
    FreeValues(data, at, slot, FreeLink(head));
    FreeOwners(nElem, link, data, at, free, detached, slot, head);
    FreeCons(head, free, data, slot);
    hide IsChain, Values, Slots, IsFreeList;
    OffChains(bucket, link, data, hash, at, chains, slot, DELMARK);
    assert forall i, s :: 0 <= i < |bucket| && s in chains[i] ==> InBucket(data, hash, at, |bucket|, s, i);
  }

  lemma FreeCons(head: nat, free: seq<nat>, data: seq<Cell>, slot: nat)
    requires IsFreeList(head, free, data) && slot !in free && slot < |data|
    ensures IsFreeList(slot, [slot] + free, data[slot := FreeLink(head)])
  {
    var data', free' := data[slot := FreeLink(head)], [slot] + free;
    FreeMoved(head, free, data, data');
    forall i | 0 <= i < |free'| ensures data'[free'[i]] == FreeLink(After(free', i)) {
      if i > 0 { assert data'[free[i - 1]] == FreeLink(After(free, i - 1)); }
    }
  }

  lemma FreeOwners(nElem: nat, link: seq<nat>, data: seq<Cell>, at: map<Key, nat>, free: seq<nat>, detached: set<nat>,
                   slot: nat, head: nat)
    requires Slots(nElem, link, data, at, free, detached) && slot in detached
    ensures Slots(nElem, link[slot := DELMARK], data[slot := FreeLink(head)], at, [slot] + free, detached - {slot})
  {
    var data' := data[slot := FreeLink(head)];
    forall s | 0 <= s < nElem ensures s in [slot] + free || s in detached - {slot} || Linked(data', at, s) {
      assert s in free || s in detached || Linked(data, at, s);
    }
  }

  lemma FreeValues(data: seq<Cell>, at: map<Key, nat>, slot: nat, c: Cell)
    requires slot < |data| && !Linked(data, at, slot) && !c.Elem?
    ensures Values(data[slot := c], at) == Values(data, at)
  {
  }

  lemma LinksKept(link: seq<nat>, head: nat, c: seq<nat>, k: nat, nElem: nat, free: seq<nat>,
                  data: seq<Cell>, at: map<Key, nat>, detached: set<nat>)
    requires IsChain(head, c, link) && k < |c|
    requires Slots(nElem, link, data, at, free, detached)
    ensures k > 0 ==> link[c[k - 1]] != DELMARK && link[c[k]] != DELMARK
  {
    if k > 0 {
      assert link[c[k - 1]] == After(c, k - 1) && link[c[k]] == After(c, k);
    }
  }

  lemma DetachOwner(nElem: nat, link: seq<nat>, data: seq<Cell>, at: map<Key, nat>, free: seq<nat>, detached: set<nat>,
                    slot: nat, link': seq<nat>)
    requires Slots(nElem, link, data, at, free, detached) && Linked(data, at, slot)
    requires |link'| == |link|
    requires forall s :: 0 <= s < nElem ==> (link'[s] == DELMARK <==> link[s] == DELMARK)
    ensures Slots(nElem, link', data, at - {data[slot].key}, free, detached + {slot})
    ensures slot !in detached
  {
    var at' := at - {data[slot].key};
    assert at'.Keys == at.Keys - {data[slot].key};
    forall s | 0 <= s < nElem ensures s in free || s in detached + {slot} || Linked(data, at', s) {
      assert s in free || s in detached || Linked(data, at, s);
    }
    assert slot !in detached;
    assert |detached + {slot}| == |detached| + 1;
  }

  lemma ConsElem(bucket: seq<nat>, link: seq<nat>, data: seq<Cell>, hash: Key -> nat, at: map<Key, nat>,
                 chains: seq<seq<nat>>, nElem: nat, free: seq<nat>, detached: set<nat>, head: nat, slot: nat, key: Key,
                   value: Value)
    requires Hashed(bucket, link, data, hash, at, chains) && Slots(nElem, link, data, at, free, detached)
    requires IsFreeList(head, free, data) && slot in detached && key !in at
    ensures slot < nElem && slot !in free
    ensures var data', at' := data[slot := Elem(key, value)], at[key := slot];
      && Hashed(bucket, link, data', hash, at, chains)
      && Owners(nElem, data', at', free, detached - {slot})
      && IsFreeList(head, free, data')
      && Values(data', at') == Values(data, at)[key := value]
  {
    ConsHashed(bucket, link, data, hash, at, chains, nElem, free, detached, slot, key, value);
    ConsOwner(nElem, data, at, free, detached, slot, key, value);
    ConsValues(nElem, data, at, slot, key, value);
    hide Values, Hashed;
    FreeMoved(head, free, data, data[slot := Elem(key, value)]);
  }

  lemma ConsHashed(bucket: seq<nat>, link: seq<nat>, data: seq<Cell>, hash: Key -> nat, at: map<Key, nat>,
                   chains: seq<seq<nat>>, nElem: nat, free: seq<nat>, detached: set<nat>, slot: nat, key: Key,
                     value: Value)
    requires Hashed(bucket, link, data, hash, at, chains) && Slots(nElem, link, data, at, free, detached)
    requires slot in detached && key !in at
    ensures Hashed(bucket, link, data[slot := Elem(key, value)], hash, at, chains)
  {
    hide IsChain;
    assert !Linked(data, at, slot);
    assert forall i, s :: 0 <= i < |bucket| && s in chains[i] ==> InBucket(data, hash, at, |bucket|, s, i);
  }

  lemma ConsOwner(nElem: nat, data: seq<Cell>, at: map<Key, nat>, free: seq<nat>, detached: set<nat>,
                  slot: nat, key: Key, value: Value)
    requires Owners(nElem, data, at, free, detached) && nElem <= |data| && slot in detached && key !in at
    ensures Owners(nElem, data[slot := Elem(key, value)], at[key := slot], free, detached - {slot})
  {
    var data', at' := data[slot := Elem(key, value)], at[key := slot];
    forall s | 0 <= s < nElem ensures s in free || s in detached - {slot} || Linked(data', at', s) {
      assert s == slot || s in free || s in detached || Linked(data, at, s);
    }
  }

  lemma ConsValues(nElem: nat, data: seq<Cell>, at: map<Key, nat>, slot: nat, key: Key, value: Value)
    requires slot < |data| && key !in at && !Linked(data, at, slot)
    ensures Values(data[slot := Elem(key, value)], at[key := slot]) == Values(data, at)[key := value]
  {
    assert forall k :: k in at && HasKey(data, at[k], k) ==> at[k] != slot;
  }

  lemma OffChains(bucket: seq<nat>, link: seq<nat>, data: seq<Cell>, hash: Key -> nat, at: map<Key, nat>,
                  chains: seq<seq<nat>>, slot: nat, v: nat)
    requires Hashed(bucket, link, data, hash, at, chains) && slot < |link| && !Linked(data, at, slot)
    ensures Hashed(bucket, link[slot := v], data, hash, at, chains)
  {
    forall i | 0 <= i < |bucket| ensures IsChain(bucket[i], chains[i], link[slot := v]) {
      assert slot !in chains[i];
      ChainFrame(bucket[i], chains[i], link, slot, v);
    }
  }

  lemma AllocNew(bucket: seq<nat>, link: seq<nat>, data: seq<Cell>, hash: Key -> nat, at: map<Key, nat>,
                 chains: seq<seq<nat>>, nElem: nat, free: seq<nat>, detached: set<nat>, head: nat)
    requires Hashed(bucket, link, data, hash, at, chains) && Slots(nElem, link, data, at, free, detached)
    requires nElem < |data|
    ensures Hashed(bucket, link[nElem := TAIL], data, hash, at, chains)
    ensures Slots(nElem + 1, link[nElem := TAIL], data, at, free, detached + {nElem})
    ensures nElem !in detached && !Linked(data, at, nElem)
  {
    OffChains(bucket, link, data, hash, at, chains, nElem, TAIL);
  }

  lemma AllocReuse(bucket: seq<nat>, link: seq<nat>, data: seq<Cell>, hash: Key -> nat, at: map<Key, nat>,
                   chains: seq<seq<nat>>, nElem: nat, free: seq<nat>, detached: set<nat>, head: nat)
    requires Hashed(bucket, link, data, hash, at, chains) && Slots(nElem, link, data, at, free, detached)
    requires IsFreeList(head, free, data) && |free| > 0
    ensures head == free[0] < nElem && data[head].FreeLink?
    ensures head !in detached && !Linked(data, at, head)
    ensures Hashed(bucket, link[head := TAIL], data, hash, at, chains)
    ensures Slots(nElem, link[head := TAIL], data, at, free[1..], detached + {head})
    ensures IsFreeList(data[head].next, free[1..], data)
  {
    assert free[0] in free && data[free[0]] == FreeLink(After(free, 0));
    OffChains(bucket, link, data, hash, at, chains, head, TAIL);
    assert forall s :: s in free <==> s == head || s in free[1..];
    var f := free[1..];
    forall i | 0 <= i < |f| ensures data[f[i]] == FreeLink(After(f, i)) {
      assert data[free[i + 1]] == FreeLink(After(free, i + 1));
    }
  }

  lemma SameTable(bucket: seq<nat>, link: seq<nat>, data: seq<Cell>, link': seq<nat>, data': seq<Cell>,
                  hash: Key -> nat,
                  at: map<Key, nat>, chains: seq<seq<nat>>, nElem: nat, free: seq<nat>, detached: set<nat>, head: nat)
    requires Hashed(bucket, link, data, hash, at, chains)
    requires Slots(nElem, link, data, at, free, detached)
    requires IsFreeList(head, free, data)
    requires nElem <= |data'| == |link'| <= DELMARK
    requires forall s :: 0 <= s < nElem ==> data'[s] == data[s] && link'[s] == link[s]
    ensures Hashed(bucket, link', data', hash, at, chains)
    ensures Slots(nElem, link', data', at, free, detached)
    ensures IsFreeList(head, free, data')
    ensures Values(data', at) == Values(data, at)
  {
    hide Values;
    SameValues(data, data', at, nElem);
    forall s | s in free ensures s < nElem && data'[s] == data[s] {}
    FreeMoved(head, free, data, data');
    forall i, s | 0 <= i < |bucket| && s in chains[i] ensures s < nElem && InBucket(data', hash, at, |bucket|, s, i) {
      assert InBucket(data, hash, at, |bucket|, s, i);
    }
    forall i | 0 <= i < |bucket| ensures IsChain(bucket[i], chains[i], link') {
      ChainMoved(bucket[i], chains[i], link, link');
    }
  }

  lemma SameValues(data: seq<Cell>, data': seq<Cell>, at: map<Key, nat>, nElem: nat)
    requires nElem <= |data| && nElem <= |data'|
    requires forall s :: 0 <= s < nElem ==> data'[s] == data[s]
    requires forall k :: k in at ==> at[k] < nElem
    ensures Values(data', at) == Values(data, at)
  {
  }

  lemma ChainMoved(head: nat, s: seq<nat>, link: seq<nat>, link': seq<nat>)
    requires IsChain(head, s, link)
    requires forall x :: x in s && x < |link| ==> x < |link'| && link'[x] == link[x]
    ensures IsChain(head, s, link')
  {
    assert forall i :: 0 <= i < |s| ==> s[i] in s;
  }

  lemma FreeMoved(head: nat, s: seq<nat>, data: seq<Cell>, data': seq<Cell>)
    requires IsFreeList(head, s, data)
    requires forall x :: x in s && x < |data| ==> x < |data'| && data'[x] == data[x]
    ensures IsFreeList(head, s, data')
  {
    assert forall i :: 0 <= i < |s| ==> s[i] in s;
  }

  lemma OneOwner(head: nat, nElem: nat, data: seq<Cell>, at: map<Key, nat>, free: seq<nat>, s: nat)
    requires Owners(nElem, data, at, free, {}) && IsFreeList(head, free, data) && s < nElem
    ensures s in free <==> !Linked(data, at, s)
  {
    if s in free { FreeCell(head, free, data, s); }
  }

  lemma AllBelow(nElem: nat, data: seq<Cell>, at: map<Key, nat>, free: seq<nat>, detached: set<nat>)
    requires Owners(nElem, data, at, free, detached)
    ensures Below(at, nElem) == at
  {
  }

  lemma FreeCell(head: nat, free: seq<nat>, data: seq<Cell>, s: nat)
    requires IsFreeList(head, free, data) && s in free
    ensures s < |data| && data[s].FreeLink?
  {
    var i :| 0 <= i < |free| && free[i] == s;
  }

  lemma ChainHead(head: nat, s: seq<nat>, link: seq<nat>)
    requires IsChain(head, s, link) && |link| <= DELMARK
    ensures head != DELMARK
  {
  }

  /** The keys in slots below `j`. */
  ghost function Below(at: map<Key, nat>, j: nat): map<Key, nat> {
    map k | k in at && at[k] < j :: at[k]
  }

  lemma BelowStep(data: seq<Cell>, at: map<Key, nat>, j: nat)
    requires Stored(data, at)
    ensures Linked(data, at, j) ==> data[j].key !in Below(at, j) && Below(at, j + 1) == Below(at, j)[data[j].key := j]
    ensures !Linked(data, at, j) ==> Below(at, j + 1) == Below(at, j)
  {
    forall k | k in at && at[k] == j ensures Linked(data, at, j) && data[j].key == k {
      assert HasKey(data, at[k], k);
    }
  }

  lemma KeysStored(bucket: seq<nat>, link: seq<nat>, data: seq<Cell>, hash: Key -> nat, at: map<Key, nat>,
                   chains: seq<seq<nat>>)
    requires Hashed(bucket, link, data, hash, at, chains)
    ensures Stored(data, at)
  {
  }

  lemma EmptyHashed(bucket: seq<nat>, link: seq<nat>, data: seq<Cell>, hash: Key -> nat, chains: seq<seq<nat>>)
    requires |bucket| == |chains| > 0 && |link| == |data|
    requires forall i :: 0 <= i < |bucket| ==> bucket[i] == TAIL && chains[i] == []
    ensures Hashed(bucket, link, data, hash, map[], chains)
  {
  }
}
