/** The slots and the string pool of hash_strmap (src/terark/hash_strmap.hpp): keys lie one after the
    other in a pool of bytes, deleted ones are kept on free lists by size, their links written over
    the key bytes, or are squeezed out by compaction.  Offsets are in bytes here; the program stores
    them divided by the alignment. */
module StrPool {

  import opened Sequences
  import opened LinkedLists
  import opened StrOrder

  // slot numbers are links of 4 bytes
  const LINK: nat := 4
  const MAXLINK: nat := 0xFFFF_FFFD

  // ------------------------------------------------------------------ slots

  /** A whole number of words. */
  ghost predicate Whole(size: int, align: nat) {
    align > 0 && size % align == 0
  }

  /** The slots tile the pool. */
  ghost predicate Tiled(offset: seq<nat>, pool: seq<Byte>, align: nat) {
    && |offset| > 0 && offset[0] == 0 && offset[|offset| - 1] == |pool|
    && LINK <= align <= 128
    && (forall i, j :: 0 <= i < j < |offset| ==> offset[i] + align <= offset[j])
    && (forall i :: 0 <= i < |offset| - 1 ==> Whole(offset[i + 1] - offset[i], align))
  }

  lemma Bounds(offset: seq<nat>, pool: seq<Byte>, align: nat, s: nat)
    requires Tiled(offset, pool, align) && s + 1 < |offset|
    ensures offset[s] + align <= offset[s + 1] <= |pool| && LINK <= align <= 128
    ensures Whole(offset[s + 1] - offset[s], align)
  {
    if s + 2 < |offset| { assert offset[s + 1] + align <= offset[|offset| - 1]; }
  }

  lemma Elsewhere(offset: seq<nat>, pool: seq<Byte>, align: nat, s: nat, t: nat)
    requires Tiled(offset, pool, align) && s + 1 < |offset| && t + 1 < |offset| && s != t
    ensures offset[s + 1] <= offset[t] || offset[t + 1] <= offset[s]
  {
    if s + 1 < t { assert offset[s + 1] + align <= offset[t]; }
    if t + 1 < s { assert offset[t + 1] + align <= offset[s]; }
  }

  function Slot(offset: seq<nat>, pool: seq<Byte>, s: nat): (b: seq<Byte>)
    requires s + 1 < |offset| && offset[s] <= offset[s + 1] <= |pool|
    ensures |b| == offset[s + 1] - offset[s]
  {
    pool[offset[s]..offset[s + 1]]
  }

  /** The last byte says how many more there are than the key has. */
  ghost predicate HasKey(b: seq<Byte>) {
    |b| > 0 && b[|b| - 1] as int < |b|
  }

  function KeyOf(b: seq<Byte>): Key
    requires HasKey(b)
  {
    b[..|b| - 1 - b[|b| - 1] as int]
  }

  // ------------------------------------------------------------------ links in deleted slots

  function StoreLittle(v: nat): (b: seq<Byte>)
    ensures |b| == LINK
  {
    var v1 := v / 256;
    var v2 := v1 / 256;
    var v3 := v2 / 256;
    [v % 256, v1 % 256, v2 % 256, v3 % 256]
  }

  lemma LoadFour(b: seq<Byte>)
    requires |b| == LINK
    ensures LoadLittle(b) == b[0] as int + 256 * (b[1] as int + 256 * (b[2] as int + 256 * b[3] as int))
  {
    assert b[1..][1..][1..][1..] == [];
    assert LoadLittle(b[1..][1..][1..]) == b[3];
    assert LoadLittle(b[1..][1..]) == b[2] as int + 256 * b[3] as int;
  }

  lemma StoredLittle(v: nat)
    requires v <= TAIL
    ensures LoadLittle(StoreLittle(v)) == v
  {
    hide LoadLittle;
    LoadFour(StoreLittle(v));
  }

  function LinkAt(offset: seq<nat>, pool: seq<Byte>, s: nat): nat
    requires s < |offset| && offset[s] + LINK <= |pool|
  {
    LoadLittle(pool[offset[s]..offset[s] + LINK])
  }

  function SetLink(offset: seq<nat>, pool: seq<Byte>, s: nat, v: nat): (r: seq<Byte>)
    requires s < |offset| && offset[s] + LINK <= |pool|
    ensures |r| == |pool|
  {
    pool[..offset[s]] + StoreLittle(v) + pool[offset[s] + LINK..]
  }

  /** The first bytes of every slot, read as links. */
  ghost function Links(offset: seq<nat>, pool: seq<Byte>, align: nat): (r: seq<nat>)
    requires Tiled(offset, pool, align)
    ensures |r| == |offset| - 1
    ensures forall s {:trigger r[s]} :: 0 <= s < |r| ==>
      offset[s] + LINK <= |pool| && r[s] == LinkAt(offset, pool, s)
  {
    seq(|offset| - 1, s requires 0 <= s < |offset| - 1 => Bounds(offset, pool, align, s); LinkAt(offset, pool, s))
  }

  ghost predicate SameSlot(offset: seq<nat>, pool: seq<Byte>, pool': seq<Byte>, t: nat) {
    && t + 1 < |offset| && offset[t] <= offset[t + 1] <= |pool| && offset[t + 1] <= |pool'|
    && Slot(offset, pool', t) == Slot(offset, pool, t)
  }

  /** All slots but one are as they were. */
  ghost predicate OnlySlot(offset: seq<nat>, pool: seq<Byte>, pool': seq<Byte>, s: nat) {
    |pool'| == |pool| && forall t: nat :: t + 1 < |offset| && t != s ==> SameSlot(offset, pool, pool', t)
  }

  /** Bytes written within one slot. */
  lemma WritesSlot(offset: seq<nat>, pool: seq<Byte>, align: nat, pool': seq<Byte>, s: nat, lo: nat, hi: nat)
    requires Tiled(offset, pool, align) && s + 1 < |offset| && offset[s] <= lo <= hi <= offset[s + 1] &&
      |pool'| == |pool|
    requires forall w :: 0 <= w < |pool| && !(lo <= w < hi) ==> pool'[w] == pool[w]
    ensures OnlySlot(offset, pool, pool', s) && Tiled(offset, pool', align)
  {
    Bounds(offset, pool, align, s);
    forall t: nat | t + 1 < |offset| && t != s ensures SameSlot(offset, pool, pool', t) {
      Bounds(offset, pool, align, t);
      Elsewhere(offset, pool, align, s, t);
      SameSlice(pool, pool', lo, hi, offset[t], offset[t + 1]);
    }
  }

  /** The links of the other slots are as they were, too. */
  lemma OtherLinks(offset: seq<nat>, pool: seq<Byte>, align: nat, pool': seq<Byte>, s: nat, t: nat)
    requires Tiled(offset, pool, align) && Tiled(offset, pool', align) && OnlySlot(offset, pool, pool', s)
    requires t + 1 < |offset| && t != s
    ensures Links(offset, pool', align)[t] == Links(offset, pool, align)[t]
  {
    Bounds(offset, pool, align, t);
    assert SameSlot(offset, pool, pool', t);
    var n := SizeOf(offset, t);
    assert pool[offset[t]..offset[t] + LINK] == Slot(offset, pool, t)[..LINK];
    assert pool'[offset[t]..offset[t] + LINK] == Slot(offset, pool', t)[..LINK];
  }

  /** Writing the link of a slot changes that slot only. */
  lemma SetLinkKeeps(offset: seq<nat>, pool: seq<Byte>, align: nat, s: nat, v: nat)
    requires Tiled(offset, pool, align) && s + 1 < |offset| && v <= TAIL
    ensures offset[s] + LINK <= |pool|
    ensures var pool' := SetLink(offset, pool, s, v);
      && Tiled(offset, pool', align) && OnlySlot(offset, pool, pool', s)
      && Links(offset, pool', align) == Links(offset, pool, align)[s := v]
  {
    Bounds(offset, pool, align, s);
    var pool' := SetLink(offset, pool, s, v);
    WritesSlot(offset, pool, align, pool', s, offset[s], offset[s] + LINK);
    StoredLittle(v);
    assert pool'[offset[s]..offset[s] + LINK] == StoreLittle(v);
    hide Tiled, OnlySlot, SetLink, StoreLittle;
    forall t | 0 <= t < |offset| - 1
      ensures Links(offset, pool', align)[t] == Links(offset, pool, align)[s := v][t]
    {
      if t != s { OtherLinks(offset, pool, align, pool', s, t); }
    }
  }

  lemma SameSlice(a: seq<Byte>, b: seq<Byte>, lo: nat, hi: nat, from: nat, to: nat)
    requires |a| == |b| && lo <= hi <= |a| && from <= to <= |a| && (to <= lo || hi <= from)
    requires forall w :: 0 <= w < |a| && !(lo <= w < hi) ==> a[w] == b[w]
    ensures a[from..to] == b[from..to]
  {
  }

  // ------------------------------------------------------------------ the layout of a key

  function AlignUp(n: nat, align: nat): nat
    requires align > 0
  {
    (n + align - 1) / align * align
  }

  lemma AlignedUp(n: nat, align: nat)
    requires align > 0
    ensures n <= AlignUp(n, align) < n + align && Whole(AlignUp(n, align), align)
  {
    var q := (n + align - 1) / align;
    assert n + align - 1 == align * q + (n + align - 1) % align;
    ModUnique(q * align, align, q, 0);
  }

  lemma ModUnique(x: nat, a: nat, k: nat, r: nat)
    requires r < a && x == a * k + r
    ensures x / a == k && x % a == r
  {
    var k' := x / a;
    assert x == a * k' + x % a;
    if k < k' { Scale(k + 1, k', a); }
    if k' < k { Scale(k' + 1, k, a); }
  }

  lemma Scale(a: nat, b: nat, m: nat)
    requires a <= b
    ensures a * m <= b * m
  {
  }

  /** The bytes of a slot after its last word was cleared, the surplus was noted in the last byte and
      the key was copied to the front. */
  function Laid(b: seq<Byte>, key: Key, align: nat): (r: seq<Byte>)
    requires |key| < |b| && align <= |b| && |b| - |key| - 1 < 256
    ensures |r| == |b|
  {
    var cleared := b[..|b| - align] + Zeros(align);
    var noted: seq<Byte> := cleared[|b| - 1 := |b| - |key| - 1];
    key + noted[|key|..]
  }

  lemma LaidKey(b: seq<Byte>, key: Key, align: nat)
    requires |key| < |b| && LINK <= align <= |b| && |b| - |key| - 1 < 256
    ensures HasKey(Laid(b, key, align)) && KeyOf(Laid(b, key, align)) == key
  {
    var r := Laid(b, key, align);
    assert r[|r| - 1] == |b| - |key| - 1;
  }

  // ------------------------------------------------------------------ free lists

  function SizeOf(offset: seq<nat>, s: nat): int
    requires s + 1 < |offset|
  {
    offset[s + 1] as int - offset[s] as int
  }

  /** The list for a size: one for each size up to `fastleng` words, and one for all others. */
  function ClassOf(size: int, align: nat, fastleng: nat): int
    requires align > 0
  {
    if size / align - 1 < fastleng then size / align - 1 else fastleng
  }

  /** The lists hold exactly the deleted slots, each on the list for its size. */
  ghost predicate Listed(offset: seq<nat>, dead: seq<bool>, align: nat, fastleng: nat, lists: seq<seq<nat>>) {
    && align > 0 && |offset| == |dead| + 1 && |lists| == fastleng + 1
    && (forall c :: 0 <= c < |lists| ==> NoDup(lists[c]))
    && (forall c, s: nat {:trigger s in lists[c]} :: 0 <= c < |lists| ==>
          (s in lists[c] <==> s < |dead| && dead[s] && ClassOf(SizeOf(offset, s), align, fastleng) == c))
  }

  ghost predicate Alive(dead: seq<bool>, s: nat) {
    s < |dead| && !dead[s]
  }

  ghost predicate AllKeys(offset: seq<nat>, dead: seq<bool>, pool: seq<Byte>) {
    forall s: nat {:trigger Alive(dead, s)} :: Alive(dead, s) ==>
      s + 1 < |offset| && offset[s] <= offset[s + 1] <= |pool| && HasKey(Slot(offset, pool, s))
  }

  /** The keys of the live slots. */
  ghost function Keys(offset: seq<nat>, dead: seq<bool>, pool: seq<Byte>): map<nat, Key>
    requires AllKeys(offset, dead, pool)
  {
    map s: nat | s < |dead| && Alive(dead, s) :: KeyOf(Slot(offset, pool, s))
  }

  ghost function FreeBytes(offset: seq<nat>, dead: seq<bool>): int
    requires |offset| == |dead| + 1
  {
    if dead == [] then 0 else
      var n := |dead| - 1;
      FreeBytes(offset[..n + 1], dead[..n]) + if dead[n] then SizeOf(offset, n) else 0
  }

  ghost function DeadCount(dead: seq<bool>): nat {
    if dead == [] then 0 else DeadCount(dead[..|dead| - 1]) + if dead[|dead| - 1] then 1 else 0
  }

  lemma {:induction false} CountSet(offset: seq<nat>, dead: seq<bool>, s: nat, b: bool)
    requires |offset| == |dead| + 1 && s < |dead| && dead[s] != b
    ensures FreeBytes(offset, dead[s := b]) == FreeBytes(offset, dead) + if b then SizeOf(offset, s)
      else 0 - SizeOf(offset, s)
    ensures DeadCount(dead[s := b]) == DeadCount(dead) + if b then 1 else -1
  {
    var n := |dead| - 1;
    var dead' := dead[s := b];
    if s == n {
      assert dead'[..n] == dead[..n];
    } else {
      CountSet(offset[..n + 1], dead[..n], s, b);
      assert dead'[..n] == dead[..n][s := b];
    }
  }

  /** A slot that a deleted mark is put on goes to the front of its list. */
  lemma PushListed(offset: seq<nat>, dead: seq<bool>, align: nat, fastleng: nat, lists: seq<seq<nat>>, s: nat)
    requires Listed(offset, dead, align, fastleng, lists) && s < |dead| && !dead[s] && align <= SizeOf(offset, s)
    ensures var c := ClassOf(SizeOf(offset, s), align, fastleng);
      && 0 <= c < |lists| && s !in lists[c]
      && Listed(offset, dead[s := true], align, fastleng, lists[c := [s] + lists[c]])
  {
    var size := SizeOf(offset, s);
    assert size / align >= 1 by { Quotient(size, align); }
  }

  lemma Quotient(size: int, align: nat)
    requires 0 < align <= size
    ensures size / align >= 1
  {
    assert size == align * (size / align) + size % align;
  }

  /** A slot on a list is deleted and of the size of the list. */
  lemma ListedSlot(offset: seq<nat>, dead: seq<bool>, align: nat, fastleng: nat, lists: seq<seq<nat>>, c: nat, k: nat)
    requires Listed(offset, dead, align, fastleng, lists) && c < |lists| && k < |lists[c]|
    ensures var s := lists[c][k]; s < |dead| && dead[s] && ClassOf(SizeOf(offset, s), align, fastleng) == c
  {
    var s := lists[c][k];
    assert s in lists[c];
  }

  /** What a list holds. */
  ghost predicate Holds(offset: seq<nat>, dead: seq<bool>, align: nat, fastleng: nat, l: seq<nat>, c: int)
    requires align > 0 && |offset| == |dead| + 1
  {
    && NoDup(l)
    && forall s: nat {:trigger s in l} ::
         s in l <==> s < |dead| && dead[s] && ClassOf(SizeOf(offset, s), align, fastleng) == c
  }

  lemma ListedHolds(offset: seq<nat>, dead: seq<bool>, align: nat, fastleng: nat, lists: seq<seq<nat>>)
    requires align > 0 && |offset| == |dead| + 1 && |lists| == fastleng + 1
    ensures Listed(offset, dead, align, fastleng, lists) <==>
      forall c :: 0 <= c < |lists| ==> Holds(offset, dead, align, fastleng, lists[c], c)
  {
    hide NoDup, ClassOf;
    if Listed(offset, dead, align, fastleng, lists) {
      forall c | 0 <= c < |lists| ensures Holds(offset, dead, align, fastleng, lists[c], c) {
      }
    }
    if forall c :: 0 <= c < |lists| ==> Holds(offset, dead, align, fastleng, lists[c], c) {
      forall c | 0 <= c < |lists| ensures NoDup(lists[c]) {
        assert Holds(offset, dead, align, fastleng, lists[c], c);
      }
      forall c, s: nat | 0 <= c < |lists|
        ensures s in lists[c] <==> s < |dead| && dead[s] && ClassOf(SizeOf(offset, s), align, fastleng) == c
      {
        assert Holds(offset, dead, align, fastleng, lists[c], c);
      }
    }
  }

  lemma HoldsWithout(offset: seq<nat>, dead: seq<bool>, align: nat, fastleng: nat, l: seq<nat>, c: int, k: nat)
    requires align > 0 && |offset| == |dead| + 1 && Holds(offset, dead, align, fastleng, l, c)
    requires k < |l| && l[k] < |dead|
    ensures Holds(offset, dead[l[k] := false], align, fastleng, l[..k] + l[k + 1..], c)
  {
    hide ClassOf;
    CutList(l, k);
    var r := l[..k] + l[k + 1..];
    hide NoDup;
    forall s: nat ensures s in r <==>
      s < |dead| && dead[l[k] := false][s] && ClassOf(SizeOf(offset, s), align, fastleng) == c
    {
      assert s in r <==> s in l && s != l[k];
    }
  }

  lemma HoldsOther(offset: seq<nat>, dead: seq<bool>, align: nat, fastleng: nat, l: seq<nat>, c: int, s: nat)
    requires align > 0 && |offset| == |dead| + 1 && Holds(offset, dead, align, fastleng, l, c) && s < |dead|
    requires ClassOf(SizeOf(offset, s), align, fastleng) != c
    ensures Holds(offset, dead[s := false], align, fastleng, l, c)
  {
    hide ClassOf, NoDup;
  }

  /** The k-th slot of a list comes back to life. */
  lemma TakeListed(offset: seq<nat>, dead: seq<bool>, align: nat, fastleng: nat, lists: seq<seq<nat>>, c: nat, k: nat)
    requires Listed(offset, dead, align, fastleng, lists) && c < |lists| && k < |lists[c]|
    ensures var s := lists[c][k];
      && s < |dead| && dead[s] && ClassOf(SizeOf(offset, s), align, fastleng) == c
      && Listed(offset, dead[s := false], align, fastleng, lists[c := lists[c][..k] + lists[c][k + 1..]])
  {
    ListedSlot(offset, dead, align, fastleng, lists, c, k);
    ListedHolds(offset, dead, align, fastleng, lists);
    var s := lists[c][k];
    var dead', lists' := dead[s := false], lists[c := lists[c][..k] + lists[c][k + 1..]];
    ListedHolds(offset, dead', align, fastleng, lists');
    assert align > 0 && |offset| == |dead| + 1 && |lists| == fastleng + 1;
    hide Holds, Listed, ClassOf;
    forall d | 0 <= d < |lists'| ensures Holds(offset, dead', align, fastleng, lists'[d], d) {
      if d == c {
        HoldsWithout(offset, dead, align, fastleng, lists[c], c, k);
      } else {
        HoldsOther(offset, dead, align, fastleng, lists[d], d, s);
      }
    }
  }

  lemma CutList(l: seq<nat>, k: nat)
    requires NoDup(l) && k < |l|
    ensures NoDup(l[..k] + l[k + 1..]) && forall x :: x in l[..k] + l[k + 1..] <==> x in l && x != l[k]
  {
    var r := l[..k] + l[k + 1..];
    assert forall i :: 0 <= i < |r| ==> r[i] == l[if i < k then i else i + 1];
    forall x | x in l && x != l[k] ensures x in r {
      var i :| 0 <= i < |l| && l[i] == x;
      assert r[if i < k then i else i - 1] == x;
    }
  }

  // ------------------------------------------------------------------ the lists in the pool

  /** The lists, threaded through the first bytes of the deleted slots. */
  ghost predicate Threaded(offset: seq<nat>, dead: seq<bool>, pool: seq<Byte>, align: nat, fastleng: nat,
                           lists: seq<seq<nat>>, heads: seq<nat>) {
    && Tiled(offset, pool, align) && |offset| == |dead| + 1 && |dead| <= MAXLINK
    && Listed(offset, dead, align, fastleng, lists)
    && Chains(lists, heads, Links(offset, pool, align))
  }

  lemma HeadsBound(l: seq<nat>, head: nat, links: seq<nat>)
    requires FastChain(l, head, links) && |links| <= MAXLINK
    ensures head <= TAIL && (head != TAIL <==> l != [])
  {
  }

  /** `put_to_freelist` */
  lemma PutThreaded(offset: seq<nat>, dead: seq<bool>, pool: seq<Byte>, align: nat, fastleng: nat,
                    lists: seq<seq<nat>>, heads: seq<nat>, s: nat)
    requires Threaded(offset, dead, pool, align, fastleng, lists, heads) && s < |dead| && !dead[s]
    ensures offset[s] + LINK <= |pool| && align <= SizeOf(offset, s)
    ensures var c := ClassOf(SizeOf(offset, s), align, fastleng);
      && 0 <= c < |lists| == |heads| && heads[c] <= TAIL
      && var pool' := SetLink(offset, pool, s, heads[c]);
      && Threaded(offset, dead[s := true], pool', align, fastleng, lists[c := [s] + lists[c]], heads[c := s])
      && OnlySlot(offset, pool, pool', s)
  {
    Bounds(offset, pool, align, s);
    PushListed(offset, dead, align, fastleng, lists, s);
    var c := ClassOf(SizeOf(offset, s), align, fastleng);
    var links := Links(offset, pool, align);
    HeadsBound(lists[c], heads[c], links);
    SetLinkKeeps(offset, pool, align, s, heads[c]);
    var pool' := SetLink(offset, pool, s, heads[c]);
    var links' := Links(offset, pool', align);
    hide Tiled, OnlySlot, SetLink, ClassOf, Links;
    forall d | 0 <= d < |lists| ensures s !in lists[d] { ListAvoids(offset, dead, align, fastleng, lists, d, s); }
    PushChains(lists, heads, links, c, s);
  }

  /** A list does not mind a write to the link of another slot. */
  lemma AvoidsFrame(l: seq<nat>, head: nat, links: seq<nat>, s: nat, v: nat)
    requires FastChain(l, head, links) && s !in l && s < |links|
    ensures FastChain(l, head, links[s := v])
  {
    hide FastChain;
    SetAvoids(l, links, s, v);
    FastFrame(l, head, links, links[s := v]);
  }

  /** The chains once a slot that is on no list is put at the front of list c. */
  lemma PushChains(lists: seq<seq<nat>>, heads: seq<nat>, links: seq<nat>, c: nat, s: nat)
    requires Chains(lists, heads, links) && c < |lists| && s < |links|
    requires forall d :: 0 <= d < |lists| ==> s !in lists[d]
    ensures |heads| == |lists| && Chains(lists[c := [s] + lists[c]], heads[c := s], links[s := heads[c]])
  {
    var links', lists', heads' := links[s := heads[c]], lists[c := [s] + lists[c]], heads[c := s];
    hide FastChain;
    forall d | 0 <= d < |lists'| ensures FastChain(lists'[d], heads'[d], links') {
      AvoidsFrame(lists[d], heads[d], links, s, heads[c]);
      if d == c { FastCons(lists[c], heads[c], links', s); }
    }
  }

  lemma ListAvoids(offset: seq<nat>, dead: seq<bool>, align: nat, fastleng: nat, lists: seq<seq<nat>>, d: nat, s: nat)
    requires Listed(offset, dead, align, fastleng, lists) && d < |lists| && s < |dead| && !dead[s]
    ensures s !in lists[d]
  {
  }

  lemma SetAvoids(l: seq<nat>, links: seq<nat>, s: nat, v: nat)
    requires s !in l && s < |links|
    ensures forall i :: 0 <= i < |l| && l[i] < |links| ==> links[s := v][l[i]] == links[l[i]]
  {
    forall i | 0 <= i < |l| && l[i] < |links| ensures links[s := v][l[i]] == links[l[i]] { assert l[i] in l; }
  }

  /** The links around the k-th element joined. */
  lemma UnlinkChain(l: seq<nat>, head: nat, links: seq<nat>, k: nat)
    requires FastChain(l, head, links) && NoDup(l) && k < |l|
    ensures l[k] < |links| && (k > 0 ==> l[k - 1] < |links|)
    ensures k == 0 ==> head == l[0] && FastChain(l[..k] + l[k + 1..], links[l[k]], links)
    ensures k > 0 ==> FastChain(l[..k] + l[k + 1..], head, links[l[k - 1] := links[l[k]]])
  {
    var r := l[..k] + l[k + 1..];
    assert forall i :: 0 <= i < |r| ==> r[i] == l[if i < k then i else i + 1];
    if k == 0 {
      FastTail(l, head, links);
      assert r == l[1..];
    } else {
      var links' := links[l[k - 1] := links[l[k]]];
      forall i | 0 <= i < |r| ensures r[i] < |links'| && links'[r[i]] == Follow(r, i + 1) {
        var j := if i < k then i else i + 1;
        assert links[l[j]] == Follow(l, j + 1) && links[l[k]] == Follow(l, k + 1);
        if i != k - 1 { assert l[j] != l[k - 1]; }
      }
    }
  }

  /** The k-th slot of a list is taken. */
  lemma TakeThreaded(offset: seq<nat>, dead: seq<bool>, pool: seq<Byte>, align: nat, fastleng: nat,
                     lists: seq<seq<nat>>, heads: seq<nat>, c: nat, k: nat, heads': seq<nat>, pool': seq<Byte>)
    requires Threaded(offset, dead, pool, align, fastleng, lists, heads) && c < |lists| && k < |lists[c]|
    requires lists[c][k] < |offset| && offset[lists[c][k]] + LINK <= |pool|
    requires heads' == if k == 0 then heads[c := LinkAt(offset, pool, lists[c][0])] else heads
    requires k > 0 ==> lists[c][k - 1] < |offset| && offset[lists[c][k - 1]] + LINK <= |pool|
    requires pool' == if k == 0 then pool else SetLink(offset, pool, lists[c][k - 1], LinkAt(offset, pool, lists[c][k]))
    ensures var s := lists[c][k];
      && s < |dead| && dead[s] && ClassOf(SizeOf(offset, s), align, fastleng) == c
      && Threaded(offset, dead[s := false], pool', align, fastleng, lists[c := lists[c][..k] + lists[c][k + 1..]],
        heads')
    ensures k > 0 ==> dead[lists[c][k - 1]] && OnlySlot(offset, pool, pool', lists[c][k - 1])
  {
    var l, s, links := lists[c], lists[c][k], Links(offset, pool, align);
    TakeListed(offset, dead, align, fastleng, lists, c, k);
    ChainOf(offset, dead, pool, align, fastleng, lists, heads, c, k);
    if k > 0 {
      ListedSlot(offset, dead, align, fastleng, lists, c, k - 1);
      ApartLists(offset, dead, align, fastleng, lists, c, l[k - 1]);
      SetLinkKeeps(offset, pool, align, l[k - 1], links[s]);
    }
    hide Tiled, OnlySlot, SetLink, LinkAt, ClassOf, Listed, Chains, Links;
    TakeChains(lists, heads, links, c, k);
  }

  lemma ChainOf(offset: seq<nat>, dead: seq<bool>, pool: seq<Byte>, align: nat, fastleng: nat,
                lists: seq<seq<nat>>, heads: seq<nat>, c: nat, k: nat)
    requires Threaded(offset, dead, pool, align, fastleng, lists, heads) && c < |lists| && k < |lists[c]|
    ensures lists[c][k] < |offset| - 1 && offset[lists[c][k]] + LINK <= |pool| && NoDup(lists[c])
    ensures LinkAt(offset, pool, lists[c][k]) == Links(offset, pool, align)[lists[c][k]] <= TAIL
  {
    ListedSlot(offset, dead, align, fastleng, lists, c, k);
    var links := Links(offset, pool, align);
    assert FastChain(lists[c], heads[c], links);
    assert links[lists[c][k]] == Follow(lists[c], k + 1);
    FollowBound(lists[c], k + 1, links);
  }

  /** A slot is on one list only. */
  lemma ApartLists(offset: seq<nat>, dead: seq<bool>, align: nat, fastleng: nat, lists: seq<seq<nat>>, c: nat, s: nat)
    requires Listed(offset, dead, align, fastleng, lists) && c < |lists| && s in lists[c]
    ensures forall d :: 0 <= d < |lists| && d != c ==> s !in lists[d]
  {
  }

  /** The chains once the k-th slot has been unlinked from list c. */
  lemma TakeChains(lists: seq<seq<nat>>, heads: seq<nat>, links: seq<nat>, c: nat, k: nat)
    requires Chains(lists, heads, links) && c < |lists| && k < |lists[c]| && NoDup(lists[c])
    requires k > 0 ==> forall d :: 0 <= d < |lists| && d != c ==> lists[c][k - 1] !in lists[d]
    ensures lists[c][k] < |links| && (k > 0 ==> lists[c][k - 1] < |links|) && |heads| == |lists|
    ensures var l := lists[c];
      Chains(lists[c := l[..k] + l[k + 1..]], if k == 0 then heads[c := links[l[0]]] else heads,
             if k == 0 then links else links[l[k - 1] := links[l[k]]])
  {
    var l := lists[c];
    assert FastChain(l, heads[c], links);
    UnlinkChain(l, heads[c], links, k);
    var links' := if k == 0 then links else links[l[k - 1] := links[l[k]]];
    var lists', heads' := lists[c := l[..k] + l[k + 1..]], if k == 0 then heads[c := links[l[0]]] else heads;
    hide FastChain, NoDup;
    forall d | 0 <= d < |lists'| ensures FastChain(lists'[d], heads'[d], links') {
      if d != c && k > 0 {
        SetAvoids(lists[d], links, l[k - 1], links[l[k]]);
        FastFrame(lists[d], heads[d], links, links');
      }
    }
  }

  lemma FollowBound(l: seq<nat>, i: nat, links: seq<nat>)
    requires (forall j :: 0 <= j < |l| ==> l[j] < |links|) && |links| <= MAXLINK
    ensures Follow(l, i) <= TAIL
  {
  }

  // ------------------------------------------------------------------ the keys

  lemma DropKey(offset: seq<nat>, dead: seq<bool>, pool: seq<Byte>, pool': seq<Byte>, s: nat)
    requires AllKeys(offset, dead, pool) && s < |dead| && OnlySlot(offset, pool, pool', s)
    ensures AllKeys(offset, dead[s := true], pool')
    ensures Keys(offset, dead[s := true], pool') == Keys(offset, dead, pool) - {s}
  {
    var dead' := dead[s := true];
    forall t: nat | Alive(dead', t)
      ensures t != s && Alive(dead, t) && SameSlot(offset, pool, pool', t)
    {
      assert Alive(dead, t);
    }
  }

  /** A write into a deleted slot. */
  lemma SameKeys(offset: seq<nat>, dead: seq<bool>, pool: seq<Byte>, pool': seq<Byte>, s: nat)
    requires AllKeys(offset, dead, pool) && s < |dead| && dead[s] && OnlySlot(offset, pool, pool', s)
    ensures AllKeys(offset, dead, pool') && Keys(offset, dead, pool') == Keys(offset, dead, pool)
  {
    forall t: nat | Alive(dead, t) ensures SameSlot(offset, pool, pool', t) {
    }
  }

  /** The key is written into a slot that comes to life. */
  lemma PutKey(offset: seq<nat>, dead: seq<bool>, pool: seq<Byte>, pool': seq<Byte>, s: nat, key: Key)
    requires AllKeys(offset, dead, pool) && s < |dead| && dead[s] && OnlySlot(offset, pool, pool', s)
    requires s + 1 < |offset| && offset[s] <= offset[s + 1] <= |pool'|
    requires HasKey(Slot(offset, pool', s)) && KeyOf(Slot(offset, pool', s)) == key
    ensures AllKeys(offset, dead[s := false], pool')
    ensures var keys' := Keys(offset, dead[s := false], pool');
      s in keys' && keys'[s] == key && keys' - {s} == Keys(offset, dead, pool)
  {
    var dead' := dead[s := false];
    assert Alive(dead', s) && !Alive(dead, s);
    forall t: nat | Alive(dead', t) && t != s ensures Alive(dead, t) && SameSlot(offset, pool, pool', t) {
      assert Alive(dead, t);
    }
  }

  // ------------------------------------------------------------------ a new slot at the end

  lemma AppendTiled(offset: seq<nat>, pool: seq<Byte>, align: nat, fill: seq<Byte>)
    requires Tiled(offset, pool, align) && align <= |fill| && Whole(|fill|, align)
    ensures Tiled(offset + [|pool| + |fill|], pool + fill, align)
  {
    hide Whole;
    var offset', pool', n := offset + [|pool| + |fill|], pool + fill, |offset| - 1;
    forall i, j | 0 <= i < j < |offset'| ensures offset'[i] + align <= offset'[j] {
      if j == n + 1 && i < n { assert offset[i] + align <= offset[n]; }
    }
    var size := |fill|;
    forall i | 0 <= i < |offset'| - 1 ensures Whole(offset'[i + 1] - offset'[i], align) {
      if i < n {
        assert offset'[i + 1] - offset'[i] == offset[i + 1] - offset[i];
      } else {
        assert offset'[i + 1] - offset'[i] == size;
      }
    }
  }

  lemma AppendSlot(offset: seq<nat>, pool: seq<Byte>, align: nat, fill: seq<Byte>, t: nat)
    requires Tiled(offset, pool, align) && t + 1 < |offset|
    ensures SameSlot(offset, pool, pool + fill, t)
    ensures SameSlot(offset + [|pool| + |fill|], pool, pool + fill, t)
    ensures LinkAt(offset, pool, t) == LinkAt(offset, pool + fill, t)
  {
    Bounds(offset, pool, align, t);
    var pool' := pool + fill;
    assert pool'[offset[t]..offset[t + 1]] == pool[offset[t]..offset[t + 1]];
    assert pool'[offset[t]..offset[t] + LINK] == pool[offset[t]..offset[t] + LINK];
  }

  lemma AppendLinks(offset: seq<nat>, pool: seq<Byte>, align: nat, fill: seq<Byte>)
    requires Tiled(offset, pool, align) && Tiled(offset + [|pool| + |fill|], pool + fill, align)
    ensures Links(offset, pool, align) <= Links(offset + [|pool| + |fill|], pool + fill, align)
  {
    var offset', pool' := offset + [|pool| + |fill|], pool + fill;
    var links, links' := Links(offset, pool, align), Links(offset', pool', align);
    forall t | 0 <= t < |links| ensures links'[t] == links[t] {
      AppendSlot(offset, pool, align, fill, t);
      assert LinkAt(offset', pool', t) == LinkAt(offset, pool', t);
    }
  }

  lemma AppendListed(offset: seq<nat>, dead: seq<bool>, align: nat, fastleng: nat, lists: seq<seq<nat>>, end: nat)
    requires Listed(offset, dead, align, fastleng, lists)
    ensures Listed(offset + [end], dead + [false], align, fastleng, lists)
  {
    var offset', dead' := offset + [end], dead + [false];
    forall c, s: nat | 0 <= c < |lists|
      ensures s in lists[c] <==> s < |dead'| && dead'[s] && ClassOf(SizeOf(offset', s), align, fastleng) == c
    {
      assert s in lists[c] <==> s < |dead| && dead[s] && ClassOf(SizeOf(offset, s), align, fastleng) == c;
    }
  }

  lemma ChainGrows(l: seq<nat>, head: nat, links: seq<nat>, links': seq<nat>)
    requires FastChain(l, head, links) && links <= links'
    ensures FastChain(l, head, links')
  {
    forall i | 0 <= i < |l| ensures l[i] < |links'| && links'[l[i]] == Follow(l, i + 1) {
      assert links'[..|links|][l[i]] == links[l[i]];
    }
  }

  lemma AppendThreaded(offset: seq<nat>, dead: seq<bool>, pool: seq<Byte>, align: nat, fastleng: nat,
                       lists: seq<seq<nat>>, heads: seq<nat>, fill: seq<Byte>)
    requires Threaded(offset, dead, pool, align, fastleng, lists, heads) && |dead| < MAXLINK
    requires align <= |fill| && Whole(|fill|, align)
    ensures Threaded(offset + [|pool| + |fill|], dead + [false], pool + fill, align, fastleng, lists, heads)
  {
    AppendTiled(offset, pool, align, fill);
    AppendLinks(offset, pool, align, fill);
    AppendListed(offset, dead, align, fastleng, lists, |pool| + |fill|);
    var links, links' := Links(offset, pool, align), Links(offset + [|pool| + |fill|], pool + fill, align);
    hide Tiled, Links, Listed;
    forall d | 0 <= d < |lists| ensures FastChain(lists[d], heads[d], links') {
      ChainGrows(lists[d], heads[d], links, links');
    }
  }

  lemma AppendKeys(offset: seq<nat>, dead: seq<bool>, pool: seq<Byte>, align: nat, fill: seq<Byte>)
    requires Tiled(offset, pool, align) && |offset| == |dead| + 1 && AllKeys(offset, dead, pool)
    requires align <= |fill| && Whole(|fill|, align)
    ensures var offset', pool' := offset + [|pool| + |fill|], pool + fill;
      && AllKeys(offset', dead + [true], pool')
      && Keys(offset', dead + [true], pool') == Keys(offset, dead, pool)
  {
    hide Tiled;
    var offset', dead', pool' := offset + [|pool| + |fill|], dead + [true], pool + fill;
    forall t: nat | Alive(dead', t) ensures Alive(dead, t) && SameSlot(offset', pool, pool', t) {
      assert Alive(dead, t);
      AppendSlot(offset, pool, align, fill, t);
    }
  }

  lemma AppendCounts(offset: seq<nat>, dead: seq<bool>, end: nat)
    requires |offset| == |dead| + 1
    ensures FreeBytes(offset + [end], dead + [false]) == FreeBytes(offset, dead)
    ensures DeadCount(dead + [false]) == DeadCount(dead)
  {
    var offset', dead', n := offset + [end], dead + [false], |dead|;
    assert offset'[..n + 1] == offset && dead'[..n] == dead;
  }

  // ------------------------------------------------------------------ compaction

  /** The live slots before slot i, one after the other. */
  ghost function Packed(offset: seq<nat>, dead: seq<bool>, pool: seq<Byte>, align: nat, i: nat): seq<Byte>
    requires Tiled(offset, pool, align) && |offset| == |dead| + 1 && i <= |dead|
  {
    if i == 0 then [] else
      Bounds(offset, pool, align, i - 1);
      Packed(offset, dead, pool, align, i - 1) + if dead[i - 1] then [] else Slot(offset, pool, i - 1)
  }

  ghost function Starts(offset: seq<nat>, dead: seq<bool>, pool: seq<Byte>, align: nat, i: nat): seq<nat>
    requires Tiled(offset, pool, align) && |offset| == |dead| + 1 && i <= |dead|
  {
    if i == 0 then [] else
      Starts(offset, dead, pool, align, i - 1)
      + if dead[i - 1] then [] else [|Packed(offset, dead, pool, align, i - 1)|]
  }

  /** The place of slot i among the live ones. */
  ghost function Rank(dead: seq<bool>, i: nat): int
    requires i <= |dead|
  {
    i - DeadCount(dead[..i])
  }

  lemma RankStep(dead: seq<bool>, i: nat)
    requires i < |dead|
    ensures Rank(dead, i + 1) == Rank(dead, i) + if dead[i] then 0 else 1
    ensures DeadCount(dead[..i + 1]) == DeadCount(dead[..i]) + if dead[i] then 1 else 0
  {
    assert dead[..i + 1][..i] == dead[..i];
  }

  lemma {:induction false} RankMonotone(dead: seq<bool>, i: nat, j: nat)
    requires i <= j <= |dead|
    ensures Rank(dead, i) <= Rank(dead, j) <= j
    ensures i < j && !dead[i] ==> Rank(dead, i) < Rank(dead, j)
  {
    if i < j {
      RankMonotone(dead, i, j - 1);
      RankStep(dead, j - 1);
    }
  }

  /** Every place is that of a live slot. */
  lemma {:induction false} RankOnto(dead: seq<bool>, i: nat, r: nat) returns (s: nat)
    requires i <= |dead| && r < Rank(dead, i)
    ensures s < i && !dead[s] && Rank(dead, s) == r
  {
    RankStep(dead, i - 1);
    if r == Rank(dead, i - 1) { s := i - 1; } else { s := RankOnto(dead, i - 1, r); }
  }

  /** How much there is before slot i once the deleted slots are gone. */
  lemma {:induction false} PackedCounts(offset: seq<nat>, dead: seq<bool>, pool: seq<Byte>, align: nat, i: nat)
    requires Tiled(offset, pool, align) && |offset| == |dead| + 1 && i <= |dead|
    ensures |Starts(offset, dead, pool, align, i)| == Rank(dead, i)
    ensures |Packed(offset, dead, pool, align, i)| == offset[i] - FreeBytes(offset[..i + 1], dead[..i])
    ensures |Packed(offset, dead, pool, align, i)| <= offset[i]
  {
    if i == 0 {
      assert offset[..1] == [0];
    } else {
      PackedCounts(offset, dead, pool, align, i - 1);
      PackedStep(offset, dead, pool, align, i - 1);
      RankStep(dead, i - 1);
      assert offset[..i + 1][..i] == offset[..i] && dead[..i][..i - 1] == dead[..i - 1];
      hide Tiled, Packed, Starts, DeadCount, Whole;
    }
  }

  lemma PackedStep(offset: seq<nat>, dead: seq<bool>, pool: seq<Byte>, align: nat, i: nat)
    requires Tiled(offset, pool, align) && |offset| == |dead| + 1 && i < |dead|
    ensures offset[i] <= offset[i + 1] <= |pool|
    ensures align <= |Slot(offset, pool, i)| && Whole(|Slot(offset, pool, i)|, align)
    ensures var p, q := Starts(offset, dead, pool, align, i), Packed(offset, dead, pool, align, i);
      if dead[i] then
        Starts(offset, dead, pool, align, i + 1) == p && Packed(offset, dead, pool, align, i + 1) == q
      else
        Starts(offset, dead, pool, align, i + 1) == p + [|q|]
        && Packed(offset, dead, pool, align, i + 1) == q + Slot(offset, pool, i)
  {
    Bounds(offset, pool, align, i);
  }

  /** The packed slots tile the packed pool. */
  lemma {:induction false} PackedTiled(offset: seq<nat>, dead: seq<bool>, pool: seq<Byte>, align: nat, i: nat)
    requires Tiled(offset, pool, align) && |offset| == |dead| + 1 && i <= |dead|
    ensures var p := Packed(offset, dead, pool, align, i);
      Tiled(Starts(offset, dead, pool, align, i) + [|p|], p, align)
  {
    if i == 0 {
      assert Starts(offset, dead, pool, align, 0) + [0] == [0];
    } else {
      PackedTiled(offset, dead, pool, align, i - 1);
      PackedStep(offset, dead, pool, align, i - 1);
      hide Tiled, Packed, Starts;
      var p, q := Starts(offset, dead, pool, align, i - 1), Packed(offset, dead, pool, align, i - 1);
      if !dead[i - 1] { AppendTiled(p + [|q|], q, align, Slot(offset, pool, i - 1)); }
    }
  }

  /** A live slot among the packed ones. */
  ghost predicate At(starts: seq<nat>, packed: seq<Byte>, r: nat, b: seq<Byte>) {
    && r < |starts| && starts[r] + |b| <= |packed| && packed[starts[r]..starts[r] + |b|] == b
    && (r + 1 < |starts| ==> starts[r + 1] == starts[r] + |b|)
    && (r + 1 == |starts| ==> |packed| == starts[r] + |b|)
  }

  lemma {:induction false} PackedAt(offset: seq<nat>, dead: seq<bool>, pool: seq<Byte>, align: nat, i: nat, s: nat)
    requires Tiled(offset, pool, align) && |offset| == |dead| + 1 && s < i <= |dead| && !dead[s]
    ensures offset[s] <= offset[s + 1] <= |pool| && 0 <= Rank(dead, s)
    ensures At(Starts(offset, dead, pool, align, i), Packed(offset, dead, pool, align, i), Rank(dead, s),
               Slot(offset, pool, s))
  {
    hide Tiled, Packed, Starts, At, Rank, Whole;
    SlotPlace(offset, dead, pool, align, s);
    if s == i - 1 {
      PackedStep(offset, dead, pool, align, s);
      PackedLen(offset, dead, pool, align, s);
      AtLast(Starts(offset, dead, pool, align, s), Packed(offset, dead, pool, align, s), Slot(offset, pool, s));
    } else {
      PackedAt(offset, dead, pool, align, i - 1, s);
      AtNext(offset, dead, pool, align, i - 1, Rank(dead, s), Slot(offset, pool, s));
    }
  }

  lemma SlotPlace(offset: seq<nat>, dead: seq<bool>, pool: seq<Byte>, align: nat, s: nat)
    requires Tiled(offset, pool, align) && |offset| == |dead| + 1 && s < |dead|
    ensures offset[s] <= offset[s + 1] <= |pool| && 0 <= Rank(dead, s)
  {
    Bounds(offset, pool, align, s);
    PackedLen(offset, dead, pool, align, s);
  }

  /** What is in place stays in place when the next slot is packed. */
  lemma AtNext(offset: seq<nat>, dead: seq<bool>, pool: seq<Byte>, align: nat, i: nat, r: nat, b: seq<Byte>)
    requires Tiled(offset, pool, align) && |offset| == |dead| + 1 && i < |dead|
    requires At(Starts(offset, dead, pool, align, i), Packed(offset, dead, pool, align, i), r, b)
    ensures At(Starts(offset, dead, pool, align, i + 1), Packed(offset, dead, pool, align, i + 1), r, b)
  {
    hide Tiled, Packed, Starts, At, Whole;
    PackedStep(offset, dead, pool, align, i);
    var p, q := Starts(offset, dead, pool, align, i), Packed(offset, dead, pool, align, i);
    if !dead[i] { AtGrows(p, q, r, b, p + [|q|], q + Slot(offset, pool, i)); }
  }

  lemma PackedLen(offset: seq<nat>, dead: seq<bool>, pool: seq<Byte>, align: nat, i: nat)
    requires Tiled(offset, pool, align) && |offset| == |dead| + 1 && i <= |dead|
    ensures |Starts(offset, dead, pool, align, i)| == Rank(dead, i)
  {
    PackedCounts(offset, dead, pool, align, i);
  }

  lemma AtLast(p: seq<nat>, q: seq<Byte>, b: seq<Byte>)
    ensures At(p + [|q|], q + b, |p|, b)
  {
    assert (q + b)[|q|..] == b;
  }

  lemma AtGrows(p: seq<nat>, q: seq<Byte>, r: nat, b: seq<Byte>, p': seq<nat>, q': seq<Byte>)
    requires At(p, q, r, b) && q <= q' && (p' == p ==> q' == q) && (p' == p || p' == p + [|q|])
    ensures At(p', q', r, b)
  {
    assert q'[..|q|] == q;
    assert q'[p[r]..p[r] + |b|] == q[p[r]..p[r] + |b|];
  }

  ghost function AllAlive(n: nat): (dead: seq<bool>)
    ensures |dead| == n && forall i :: 0 <= i < n ==> !dead[i]
  {
    seq(n, _ => false)
  }

  lemma {:induction false} NoneDead(offset: seq<nat>, dead: seq<bool>)
    requires |offset| == |dead| + 1 && forall i :: 0 <= i < |dead| ==> !dead[i]
    ensures FreeBytes(offset, dead) == 0 && DeadCount(dead) == 0
  {
    if dead != [] { NoneDead(offset[..|dead|], dead[..|dead| - 1]); }
  }

  /** All live keys, in their order and without gaps. */
  ghost predicate Compacted(keys: map<nat, Key>, dead: seq<bool>, keys': map<nat, Key>, n': nat) {
    && n' == Rank(dead, |dead|)
    && (forall r: nat :: r in keys' <==> r < n')
    && (forall s {:trigger keys[s]} :: s in keys ==>
          s < |dead| && Rank(dead, s) in keys' && keys'[Rank(dead, s)] == keys[s])
  }

  /** Slot r of the new pool has the bytes of slot s of the old one. */
  ghost predicate MovedTo(offset: seq<nat>, pool: seq<Byte>, s: nat, offset': seq<nat>, pool': seq<Byte>, r: int) {
    && s + 1 < |offset| && offset[s] <= offset[s + 1] <= |pool|
    && 0 <= r && r + 1 < |offset'| && offset'[r] <= offset'[r + 1] <= |pool'|
    && Slot(offset', pool', r) == Slot(offset, pool, s)
  }

  lemma PackedMoved(offset: seq<nat>, dead: seq<bool>, pool: seq<Byte>, align: nat, s: nat)
    requires Tiled(offset, pool, align) && |offset| == |dead| + 1 && Alive(dead, s)
    ensures var starts, pool' := Starts(offset, dead, pool, align, |dead|), Packed(offset, dead, pool, align, |dead|);
      MovedTo(offset, pool, s, starts + [|pool'|], pool', Rank(dead, s))
  {
    PackedAt(offset, dead, pool, align, |dead|, s);
    Bounds(offset, pool, align, s);
    hide Tiled, Packed, Starts, Rank, At;
    AtSlot(Starts(offset, dead, pool, align, |dead|), Packed(offset, dead, pool, align, |dead|), Rank(dead, s),
           Slot(offset, pool, s));
  }

  lemma AtSlot(starts: seq<nat>, packed: seq<Byte>, r: nat, b: seq<Byte>)
    requires At(starts, packed, r, b)
    ensures var offset := starts + [|packed|];
      r + 1 < |offset| && offset[r] <= offset[r + 1] <= |packed| && Slot(offset, packed, r) == b
  {
    var offset := starts + [|packed|];
    assert offset[r + 1] == starts[r] + |b|;
  }

  lemma MovedAllKeys(offset: seq<nat>, dead: seq<bool>, pool: seq<Byte>, offset': seq<nat>, pool': seq<Byte>, n': nat)
    requires AllKeys(offset, dead, pool) && n' == Rank(dead, |dead|)
    requires forall s: nat :: Alive(dead, s) ==> MovedTo(offset, pool, s, offset', pool', Rank(dead, s))
    ensures AllKeys(offset', AllAlive(n'), pool')
  {
    hide Rank;
    forall r: nat | Alive(AllAlive(n'), r)
      ensures r + 1 < |offset'| && offset'[r] <= offset'[r + 1] <= |pool'| && HasKey(Slot(offset', pool', r))
    {
      var s := RankOnto(dead, |dead|, r);
      assert Alive(dead, s) && MovedTo(offset, pool, s, offset', pool', Rank(dead, s));
    }
  }

  lemma MovedKeys(offset: seq<nat>, dead: seq<bool>, pool: seq<Byte>, offset': seq<nat>, pool': seq<Byte>, n': nat)
    requires AllKeys(offset, dead, pool) && n' == Rank(dead, |dead|) && AllKeys(offset', AllAlive(n'), pool')
    requires forall s: nat :: Alive(dead, s) ==> MovedTo(offset, pool, s, offset', pool', Rank(dead, s))
    ensures Compacted(Keys(offset, dead, pool), dead, Keys(offset', AllAlive(n'), pool'), n')
  {
    var keys, keys' := Keys(offset, dead, pool), Keys(offset', AllAlive(n'), pool');
    forall r: nat ensures r in keys' <==> r < n' {
      assert Alive(AllAlive(n'), r) <==> r < n';
    }
    forall s | s in keys ensures s < |dead| && Rank(dead, s) in keys' && keys'[Rank(dead, s)] == keys[s] {
      assert Alive(dead, s) && MovedTo(offset, pool, s, offset', pool', Rank(dead, s));
      RankMonotone(dead, s, |dead|);
      hide Rank;
      assert Alive(AllAlive(n'), Rank(dead, s));
    }
  }

  /** What compaction makes of the keys. */
  lemma PackedKeys(offset: seq<nat>, dead: seq<bool>, pool: seq<Byte>, align: nat)
    requires Tiled(offset, pool, align) && |offset| == |dead| + 1 && AllKeys(offset, dead, pool)
    ensures var n := |dead|;
      var starts, pool' := Starts(offset, dead, pool, align, n), Packed(offset, dead, pool, align, n);
      var offset', n' := starts + [|pool'|], |starts|;
      && Tiled(offset', pool', align) && n' <= n && AllKeys(offset', AllAlive(n'), pool')
      && Compacted(Keys(offset, dead, pool), dead, Keys(offset', AllAlive(n'), pool'), n')
      && FreeBytes(offset', AllAlive(n')) == 0 && DeadCount(AllAlive(n')) == 0
  {
    var n := |dead|;
    PackedTiled(offset, dead, pool, align, n);
    PackedCounts(offset, dead, pool, align, n);
    RankMonotone(dead, n, n);
    hide Tiled, Packed, Starts, Rank, DeadCount, FreeBytes, MovedTo, Compacted, AllKeys;
    var starts, pool' := Starts(offset, dead, pool, align, n), Packed(offset, dead, pool, align, n);
    var offset', n' := starts + [|pool'|], |starts|;
    NoneDead(offset', AllAlive(n'));
    forall s: nat | Alive(dead, s) ensures MovedTo(offset, pool, s, offset', pool', Rank(dead, s)) {
      PackedMoved(offset, dead, pool, align, s);
    }
    MovedAllKeys(offset, dead, pool, offset', pool', n');
    MovedKeys(offset, dead, pool, offset', pool', n');
  }

  /** Compaction half done: the live slots below idx2 have been moved to the front. */
  ghost predicate Half(offset0: seq<nat>, dead: seq<bool>, pool0: seq<Byte>, align: nat, idx2: nat,
                       offset: seq<nat>, pool: seq<Byte>, idx1: nat, loffset: nat) {
    && Tiled(offset0, pool0, align) && |offset0| == |dead| + 1 == |offset| && |pool| == |pool0|
    && idx1 < idx2 <= |dead| && loffset <= offset0[idx2] <= |pool|
    && offset[..idx1] == Starts(offset0, dead, pool0, align, idx2)
    && pool[..loffset] == Packed(offset0, dead, pool0, align, idx2)
    && offset[idx2..] == offset0[idx2..]
    && pool[offset0[idx2]..] == pool0[offset0[idx2]..]
  }

  lemma FrontJoin(offset: seq<nat>, pool: seq<Byte>, i: nat)
    requires i + 1 < |offset| && offset[i] <= offset[i + 1] <= |pool|
    ensures offset[..i] + [offset[i]] == offset[..i + 1]
    ensures pool[..offset[i]] + Slot(offset, pool, i) == pool[..offset[i + 1]]
    ensures |pool[..offset[i]]| == offset[i]
  {
  }

  /** Up to the first deleted slot nothing has to move. */
  lemma {:induction false} FrontStays(offset: seq<nat>, dead: seq<bool>, pool: seq<Byte>, align: nat, i: nat)
    requires Tiled(offset, pool, align) && |offset| == |dead| + 1 && i <= |dead|
    requires forall s :: 0 <= s < i ==> !dead[s]
    ensures offset[i] <= |pool|
    ensures Starts(offset, dead, pool, align, i) == offset[..i] &&
      Packed(offset, dead, pool, align, i) == pool[..offset[i]]
  {
    if i > 0 {
      FrontStays(offset, dead, pool, align, i - 1);
      PackedStep(offset, dead, pool, align, i - 1);
      hide Tiled, Starts, Packed, Whole;
      FrontJoin(offset, pool, i - 1);
    }
  }

  lemma HalfStart(offset: seq<nat>, dead: seq<bool>, pool: seq<Byte>, align: nat, i: nat)
    requires Tiled(offset, pool, align) && |offset| == |dead| + 1 && i < |dead| && dead[i]
    requires forall s :: 0 <= s < i ==> !dead[s]
    ensures Half(offset, dead, pool, align, i + 1, offset, pool, i, offset[i])
  {
    FrontStays(offset, dead, pool, align, i);
    PackedStep(offset, dead, pool, align, i);
  }

  lemma HalfStep(offset0: seq<nat>, dead: seq<bool>, pool0: seq<Byte>, align: nat, idx2: nat,
                 offset: seq<nat>, pool: seq<Byte>, idx1: nat, loffset: nat)
    requires Half(offset0, dead, pool0, align, idx2, offset, pool, idx1, loffset) && idx2 < |dead|
    ensures idx1 < |offset| == |dead| + 1
    ensures offset[idx2] == offset0[idx2] <= offset[idx2 + 1] == offset0[idx2 + 1] <= |pool|
    ensures loffset <= offset[idx2]
    ensures if dead[idx2] then
        Half(offset0, dead, pool0, align, idx2 + 1, offset, pool, idx1, loffset)
      else
        var len := offset[idx2 + 1] - offset[idx2];
        Half(offset0, dead, pool0, align, idx2 + 1, offset[idx1 := loffset],
             pool[..loffset] + pool[offset[idx2]..offset[idx2 + 1]] + pool[loffset + len..], idx1 + 1, loffset + len)
  {
    PackedStep(offset0, dead, pool0, align, idx2);
    hide Tiled, Starts, Packed, Whole;
    assert offset[idx2..][0] == offset0[idx2..][0] && offset[idx2..][1] == offset0[idx2..][1];
    var from, to := offset0[idx2], offset0[idx2 + 1];
    assert pool[from..to] == pool[from..][..to - from] == pool0[from..][..to - from] == pool0[from..to];
    assert pool[to..] == pool[from..][to - from..] == pool0[from..][to - from..] == pool0[to..];
    assert offset[idx2 + 1..] == offset[idx2..][1..] == offset0[idx2..][1..] == offset0[idx2 + 1..];
    if !dead[idx2] {
      var len := to - from;
      var pool' := pool[..loffset] + pool[from..to] + pool[loffset + len..];
      assert pool'[..loffset + len] == pool[..loffset] + pool[from..to];
      assert pool'[to..] == pool[to..];
      assert offset[idx1 := loffset][..idx1 + 1] == offset[..idx1] + [loffset];
      assert offset[idx1 := loffset][idx2 + 1..] == offset[idx2 + 1..];
    }
  }

  lemma HalfEnd(offset0: seq<nat>, dead: seq<bool>, pool0: seq<Byte>, align: nat,
                offset: seq<nat>, pool: seq<Byte>, idx1: nat, loffset: nat)
    requires Half(offset0, dead, pool0, align, |dead|, offset, pool, idx1, loffset)
    ensures idx1 < |offset| == |dead| + 1 && loffset <= |pool| == |pool0|
    ensures offset[..idx1] == Starts(offset0, dead, pool0, align, |dead|)
    ensures pool[..loffset] == Packed(offset0, dead, pool0, align, |dead|)
    ensures loffset == |pool| - FreeBytes(offset0, dead) && idx1 == |dead| - DeadCount(dead)
  {
    PackedCounts(offset0, dead, pool0, align, |dead|);
    assert offset0[|dead|] == |pool0|;
    hide Tiled, Starts, Packed, Whole, FreeBytes, DeadCount;
    assert offset0[..|dead| + 1] == offset0 && dead[..|dead|] == dead;
    assert |offset[..idx1]| == idx1 && |pool[..loffset]| == loffset;
  }

  // ------------------------------------------------------------------ other lists for the same slots

  /** Some lists have been joined to the list for large sizes: those from nl up to, but not including, i. */
  function MergedClass(size: int, align: nat, fastleng: nat, nl: nat, i: nat): int
    requires align > 0
  {
    var c := ClassOf(size, align, fastleng);
    if nl <= c < i then fastleng else c
  }

  ghost predicate Merged(offset: seq<nat>, dead: seq<bool>, pool: seq<Byte>, align: nat, fastleng: nat, nl: nat, i: nat,
                         lists: seq<seq<nat>>, heads: seq<nat>) {
    && Tiled(offset, pool, align) && |offset| == |dead| + 1 && |dead| <= MAXLINK
    && |lists| == |heads| == fastleng + 1 && nl <= i <= fastleng
    && (forall c :: 0 <= c < |lists| ==> NoDup(lists[c]))
    && (forall c, s: nat {:trigger s in lists[c]} :: 0 <= c < |lists| ==>
          (s in lists[c] <==>
             s < |dead| && dead[s] && MergedClass(SizeOf(offset, s), align, fastleng, nl, i) == c))
    && (forall c :: 0 <= c < |lists| && !(nl <= c < i) ==> FastChain(lists[c], heads[c], Links(offset, pool, align)))
  }

  lemma MergeStart(offset: seq<nat>, dead: seq<bool>, pool: seq<Byte>, align: nat, fastleng: nat, nl: nat,
                   lists: seq<seq<nat>>, heads: seq<nat>)
    requires Threaded(offset, dead, pool, align, fastleng, lists, heads) && nl <= fastleng
    ensures Merged(offset, dead, pool, align, fastleng, nl, nl, lists, heads)
  {
  }

  lemma MergeEnd(offset: seq<nat>, dead: seq<bool>, pool: seq<Byte>, align: nat, fastleng: nat, nl: nat,
                 lists: seq<seq<nat>>, heads: seq<nat>)
    requires Merged(offset, dead, pool, align, fastleng, nl, fastleng, lists, heads)
    ensures |lists| == |heads| == fastleng + 1 && nl <= fastleng
    ensures Threaded(offset, dead, pool, align, nl, lists[..nl] + [lists[fastleng]], heads[..nl] + [heads[fastleng]])
  {
    var lists', heads' := lists[..nl] + [lists[fastleng]], heads[..nl] + [heads[fastleng]];
    forall c, s: nat | 0 <= c < |lists'|
      ensures s in lists'[c] <==> s < |dead| && dead[s] && ClassOf(SizeOf(offset, s), align, nl) == c
    {
      var d := if c < nl then c else fastleng;
      assert lists'[c] == lists[d];
      assert s in lists[d] <==>
        s < |dead| && dead[s] && MergedClass(SizeOf(offset, s), align, fastleng, nl, fastleng) == d;
    }
    forall c | 0 <= c < |lists'| ensures FastChain(lists'[c], heads'[c], Links(offset, pool, align)) {
      var d := if c < nl then c else fastleng;
      assert FastChain(lists[d], heads[d], Links(offset, pool, align));
    }
  }

  /** Two lists joined: the last element of the first leads to the second. */
  lemma JoinChain(a: seq<nat>, b: seq<nat>, ha: nat, hb: nat, links: seq<nat>)
    requires FastChain(a, ha, links) && FastChain(b, hb, links) && NoDup(a) && a != []
    requires forall x :: x in a ==> x !in b
    ensures a[|a| - 1] < |links| && FastChain(a + b, ha, links[a[|a| - 1] := hb])
  {
    var t, r := a[|a| - 1], a + b;
    var links' := links[t := hb];
    forall i | 0 <= i < |r| ensures r[i] < |links'| && links'[r[i]] == Follow(r, i + 1) {
      if i < |a| - 1 {
        assert a[i] != t && links[a[i]] == Follow(a, i + 1);
      } else if i >= |a| {
        assert links[b[i - |a|]] == Follow(b, i - |a| + 1);
        assert t in a && b[i - |a|] in b;
      }
    }
  }

  lemma MergedSlot(offset: seq<nat>, dead: seq<bool>, pool: seq<Byte>, align: nat, fastleng: nat, nl: nat, i: nat,
                   lists: seq<seq<nat>>, heads: seq<nat>, c: nat, k: nat)
    requires Merged(offset, dead, pool, align, fastleng, nl, i, lists, heads) && c <= fastleng && !(nl <= c < i)
    requires k < |lists[c]|
    ensures var s := lists[c][k];
      && s + 1 < |offset| == |dead| + 1 && dead[s] && s < TAIL && offset[s] + LINK <= offset[s + 1] <= |pool|
      && LinkAt(offset, pool, s) == Follow(lists[c], k + 1) <= TAIL && heads[c] == lists[c][0]
  {
    var s, links := lists[c][k], Links(offset, pool, align);
    assert s in lists[c];
    Bounds(offset, pool, align, s);
    assert FastChain(lists[c], heads[c], links);
    assert links[s] == Follow(lists[c], k + 1);
    if k + 1 < |lists[c]| { assert lists[c][k + 1] in lists[c]; }
  }

  lemma MergedHeads(offset: seq<nat>, dead: seq<bool>, pool: seq<Byte>, align: nat, fastleng: nat, nl: nat, i: nat,
                    lists: seq<seq<nat>>, heads: seq<nat>, c: nat)
    requires Merged(offset, dead, pool, align, fastleng, nl, i, lists, heads) && c <= fastleng && !(nl <= c < i)
    ensures heads[c] <= TAIL && (heads[c] == TAIL <==> lists[c] == [])
  {
    assert FastChain(lists[c], heads[c], Links(offset, pool, align));
    HeadsBound(lists[c], heads[c], Links(offset, pool, align));
  }

  /** List i is put before the list for large sizes. */
  lemma MergeStep(offset: seq<nat>, dead: seq<bool>, pool: seq<Byte>, align: nat, fastleng: nat, nl: nat, i: nat,
                  lists: seq<seq<nat>>, heads: seq<nat>)
    requires Merged(offset, dead, pool, align, fastleng, nl, i, lists, heads) && i < fastleng
    ensures lists[i] == [] ==> Merged(offset, dead, pool, align, fastleng, nl, i + 1, lists, heads)
    ensures lists[i] != [] ==>
      var t := lists[i][|lists[i]| - 1];
      && t < |dead| && dead[t] && offset[t] + LINK <= |pool|
      && var pool' := SetLink(offset, pool, t, heads[fastleng]);
      && OnlySlot(offset, pool, pool', t)
      && Merged(offset, dead, pool', align, fastleng, nl, i + 1,
                lists[i := []][fastleng := lists[i] + lists[fastleng]], heads[fastleng := heads[i]])
  {
    MergedHeads(offset, dead, pool, align, fastleng, nl, i, lists, heads, fastleng);
    if lists[i] == [] {
      MergeEmpty(offset, dead, pool, align, fastleng, nl, i, lists, heads);
    } else {
      var l, h := lists[i], lists[fastleng];
      var t := l[|l| - 1];
      MergedSlot(offset, dead, pool, align, fastleng, nl, i, lists, heads, i, |l| - 1);
      SetLinkKeeps(offset, pool, align, t, heads[fastleng]);
      var pool' := SetLink(offset, pool, t, heads[fastleng]);
      var links, links' := Links(offset, pool, align), Links(offset, pool', align);
      var lists', heads' := lists[i := []][fastleng := l + h], heads[fastleng := heads[i]];
      MergeLists(offset, dead, pool, align, fastleng, nl, i, lists, heads);
      assert FastChain(l, heads[i], links) && FastChain(h, heads[fastleng], links);
      JoinChain(l, h, heads[i], heads[fastleng], links);
      hide Tiled, OnlySlot, SetLink, MergedClass, Links;
      forall c | 0 <= c < |lists'| && !(nl <= c < i + 1) ensures FastChain(lists'[c], heads'[c], links') {
        if c != fastleng {
          assert t in lists[i] && t !in lists[c];
          SetAvoids(lists[c], links, t, heads[fastleng]);
          FastFrame(lists[c], heads[c], links, links');
        }
      }
    }
  }

  lemma MergeEmpty(offset: seq<nat>, dead: seq<bool>, pool: seq<Byte>, align: nat, fastleng: nat, nl: nat, i: nat,
                   lists: seq<seq<nat>>, heads: seq<nat>)
    requires Merged(offset, dead, pool, align, fastleng, nl, i, lists, heads) && i < fastleng && lists[i] == []
    ensures Merged(offset, dead, pool, align, fastleng, nl, i + 1, lists, heads)
  {
    forall c, s: nat | 0 <= c < |lists|
      ensures s in lists[c] <==>
        s < |dead| && dead[s] && MergedClass(SizeOf(offset, s), align, fastleng, nl, i + 1) == c
    {
      assert s in lists[c] <==> s < |dead| && dead[s] && MergedClass(SizeOf(offset, s), align, fastleng, nl, i) == c;
      assert !(s in lists[i]);
    }
  }

  /** What the lists hold then. */
  lemma MergeLists(offset: seq<nat>, dead: seq<bool>, pool: seq<Byte>, align: nat, fastleng: nat, nl: nat, i: nat,
                   lists: seq<seq<nat>>, heads: seq<nat>)
    requires Merged(offset, dead, pool, align, fastleng, nl, i, lists, heads) && i < fastleng
    ensures forall x :: x in lists[i] ==> x !in lists[fastleng]
    ensures var lists' := lists[i := []][fastleng := lists[i] + lists[fastleng]];
      && (forall c :: 0 <= c < |lists'| ==> NoDup(lists'[c]))
      && (forall c, s: nat {:trigger s in lists'[c]} :: 0 <= c < |lists'| ==>
            (s in lists'[c] <==>
               s < |dead| && dead[s] && MergedClass(SizeOf(offset, s), align, fastleng, nl, i + 1) == c))
  {
    var lists' := lists[i := []][fastleng := lists[i] + lists[fastleng]];
    forall x | x in lists[i] ensures x !in lists[fastleng] {
    }
    JoinNoDup(lists[i], lists[fastleng]);
    forall c, s: nat | 0 <= c < |lists'|
      ensures s in lists'[c] <==>
        s < |dead| && dead[s] && MergedClass(SizeOf(offset, s), align, fastleng, nl, i + 1) == c
    {
      assert s in lists[c] <==> s < |dead| && dead[s] && MergedClass(SizeOf(offset, s), align, fastleng, nl, i) == c;
      assert s in lists[i] <==> s < |dead| && dead[s] && MergedClass(SizeOf(offset, s), align, fastleng, nl, i) == i;
      assert s in lists[fastleng] <==>
        s < |dead| && dead[s] && MergedClass(SizeOf(offset, s), align, fastleng, nl, i) == fastleng;
    }
  }

  lemma JoinNoDup(a: seq<nat>, b: seq<nat>)
    requires NoDup(a) && NoDup(b) && forall x :: x in a ==> x !in b
    ensures NoDup(a + b)
  {
    var r := a + b;
    forall i, j | 0 <= i < j < |r| ensures r[i] != r[j] {
      if i < |a| <= j { assert a[i] in a && b[j - |a|] in b; }
    }
  }

  /** The deleted slots below i. */
  ghost function Upto(dead: seq<bool>, i: nat): (r: seq<bool>)
    ensures |r| == |dead| && forall j :: 0 <= j < |dead| ==> (r[j] <==> j < i && dead[j])
  {
    seq(|dead|, j requires 0 <= j < |dead| => j < i && dead[j])
  }

  /** Lists for no slots at all. */
  lemma NothingThreaded(offset: seq<nat>, dead: seq<bool>, pool: seq<Byte>, align: nat, nl: nat)
    requires Tiled(offset, pool, align) && |offset| == |dead| + 1 && |dead| <= MAXLINK
    ensures Threaded(offset, Upto(dead, 0), pool, align, nl, seq(nl + 1, _ => []), seq(nl + 1, _ => TAIL))
  {
    var lists: seq<seq<nat>>, heads := seq(nl + 1, _ => []), seq(nl + 1, _ => TAIL);
    forall c | 0 <= c < |lists| ensures FastChain(lists[c], heads[c], Links(offset, pool, align)) {
    }
  }

  /** The list for large sizes is being sorted into new lists: `kept` stays, `rest` is still to be seen. */
  ghost predicate Enlarging(offset: seq<nat>, dead: seq<bool>, pool: seq<Byte>, align: nat, nl: nat,
                            lists: seq<seq<nat>>, heads: seq<nat>, kept: seq<nat>, rest: seq<nat>) {
    && Tiled(offset, pool, align) && |offset| == |dead| + 1 && |dead| <= MAXLINK
    && |lists| == nl + 1 && lists[nl] == kept + rest
    && (forall c :: 0 <= c < |lists| ==> NoDup(lists[c]))
    && (forall c, s: nat {:trigger s in lists[c]} :: 0 <= c < |lists| ==>
          (s in lists[c] <==>
             s < |dead| && dead[s] && (if s in rest then nl else ClassOf(SizeOf(offset, s), align, nl)) == c))
    && Chains(lists, heads, Links(offset, pool, align))
  }

  /** The lists up to `from`, then empty ones, then the last. */
  ghost predicate Spread<T>(a: seq<T>, b: seq<T>, from: nat, nl: nat, none: T) {
    && |a| == from + 1 && from < nl && |b| == nl + 1
    && forall c :: 0 <= c <= nl ==> b[c] == if c < from then a[c] else if c < nl then none else a[from]
  }

  lemma Spreads<T>(a: seq<T>, from: nat, nl: nat, none: T)
    requires |a| == from + 1 && from < nl
    ensures Spread(a, a[..from] + seq(nl - from, _ => none) + [a[from]], from, nl, none)
  {
  }

  lemma SpreadLists(offset: seq<nat>, dead: seq<bool>, align: nat, fastleng: nat, nl: nat, lists: seq<seq<nat>>,
                    lists': seq<seq<nat>>)
    requires Listed(offset, dead, align, fastleng, lists) && Spread(lists, lists', fastleng, nl, [])
    ensures forall c :: 0 <= c < |lists'| ==> NoDup(lists'[c])
    ensures forall c, s: nat {:trigger s in lists'[c]} :: 0 <= c < |lists'| ==>
      (s in lists'[c] <==>
         s < |dead| && dead[s] && (if s in lists[fastleng] then nl else ClassOf(SizeOf(offset, s), align, nl)) == c)
  {
    var rest := lists[fastleng];
    forall c, s: nat | 0 <= c < |lists'|
      ensures s in lists'[c] <==>
        s < |dead| && dead[s] && (if s in rest then nl else ClassOf(SizeOf(offset, s), align, nl)) == c
    {
      if c < fastleng {
        assert s in lists[c] <==> s < |dead| && dead[s] && ClassOf(SizeOf(offset, s), align, fastleng) == c;
      }
      assert s in rest <==> s < |dead| && dead[s] && ClassOf(SizeOf(offset, s), align, fastleng) == fastleng;
    }
  }

  lemma SpreadChains(lists: seq<seq<nat>>, lists': seq<seq<nat>>, heads: seq<nat>, heads': seq<nat>, links: seq<nat>,
                     from: nat, nl: nat)
    requires Chains(lists, heads, links) && Spread(lists, lists', from, nl, []) && Spread(heads, heads', from, nl, TAIL)
    ensures Chains(lists', heads', links)
  {
    NoChain(links);
    hide FastChain;
  }

  lemma NoChain(links: seq<nat>)
    ensures FastChain([], TAIL, links)
  {
  }

  lemma EnlargeStart(offset: seq<nat>, dead: seq<bool>, pool: seq<Byte>, align: nat, fastleng: nat, nl: nat,
                     lists: seq<seq<nat>>, heads: seq<nat>)
    requires Threaded(offset, dead, pool, align, fastleng, lists, heads) && fastleng < nl
    ensures |lists| == |heads| == fastleng + 1
    ensures Enlarging(offset, dead, pool, align, nl,
                      lists[..fastleng] + seq(nl - fastleng, _ => []) + [lists[fastleng]],
                      heads[..fastleng] + seq(nl - fastleng, _ => TAIL) + [heads[fastleng]], [], lists[fastleng])
  {
    hide Tiled, Links, Listed, Chains;
    Counted(offset, dead, pool, align, fastleng, lists, heads);
    Spreads(lists, fastleng, nl, []);
    Spreads(heads, fastleng, nl, TAIL);
    var lists' := lists[..fastleng] + seq(nl - fastleng, _ => []) + [lists[fastleng]];
    var heads' := heads[..fastleng] + seq(nl - fastleng, _ => TAIL) + [heads[fastleng]];
    SpreadLists(offset, dead, align, fastleng, nl, lists, lists');
    SpreadChains(lists, lists', heads, heads', Links(offset, pool, align), fastleng, nl);
    assert lists'[nl] == [] + lists[fastleng];
  }

  lemma Counted(offset: seq<nat>, dead: seq<bool>, pool: seq<Byte>, align: nat, fastleng: nat,
                lists: seq<seq<nat>>, heads: seq<nat>)
    requires Threaded(offset, dead, pool, align, fastleng, lists, heads)
    ensures |lists| == |heads| == fastleng + 1 && align > 0
  {
  }

  lemma EnlargeEnd(offset: seq<nat>, dead: seq<bool>, pool: seq<Byte>, align: nat, nl: nat,
                   lists: seq<seq<nat>>, heads: seq<nat>, kept: seq<nat>)
    requires Enlarging(offset, dead, pool, align, nl, lists, heads, kept, [])
    ensures Threaded(offset, dead, pool, align, nl, lists, heads)
  {
  }

  lemma EnlargingSlot(offset: seq<nat>, dead: seq<bool>, pool: seq<Byte>, align: nat, nl: nat,
                      lists: seq<seq<nat>>, heads: seq<nat>, kept: seq<nat>, rest: seq<nat>)
    requires Enlarging(offset, dead, pool, align, nl, lists, heads, kept, rest)
    ensures |heads| == |lists| == nl + 1
    ensures forall c :: 0 <= c < |heads| ==> heads[c] <= TAIL
    ensures kept == [] ==> heads[nl] == Follow(rest, 0)
    ensures rest != [] ==>
      var s := rest[0];
      && s < |dead| && dead[s] && s < TAIL && offset[s] + LINK <= offset[s + 1] <= |pool|
      && 1 <= SizeOf(offset, s) / align && SizeOf(offset, s) >= align > 0
      && LinkAt(offset, pool, s) == Follow(rest, 1) <= TAIL
    ensures kept != [] ==>
      var p := kept[|kept| - 1];
      p < |dead| && dead[p] && p < TAIL && offset[p] + LINK <= |pool| && p !in rest
  {
    var l, links := lists[nl], Links(offset, pool, align);
    assert FastChain(l, heads[nl], links);
    forall c | 0 <= c < |heads| ensures heads[c] <= TAIL {
      assert FastChain(lists[c], heads[c], links);
      HeadsBound(lists[c], heads[c], links);
    }
    if rest != [] {
      assert l[|kept|] == rest[0] && rest[0] in lists[nl];
      assert links[l[|kept|]] == Follow(l, |kept| + 1) == Follow(rest, 1);
      if |rest| > 1 { assert l[|kept| + 1] == rest[1] && rest[1] in lists[nl]; }
      Bounds(offset, pool, align, rest[0]);
      Quotient(SizeOf(offset, rest[0]), align);
    }
    if kept != [] {
      var p := kept[|kept| - 1];
      assert l[|kept| - 1] == p && p in lists[nl];
      Bounds(offset, pool, align, p);
      assert forall j :: 0 <= j < |rest| ==> rest[j] == l[|kept| + j];
    }
  }

  /** A slot that stays. */
  lemma EnlargeKeep(offset: seq<nat>, dead: seq<bool>, pool: seq<Byte>, align: nat, nl: nat,
                    lists: seq<seq<nat>>, heads: seq<nat>, kept: seq<nat>, rest: seq<nat>)
    requires Enlarging(offset, dead, pool, align, nl, lists, heads, kept, rest) && rest != []
    requires rest[0] + 1 < |offset| && SizeOf(offset, rest[0]) / align - 1 >= nl
    ensures Enlarging(offset, dead, pool, align, nl, lists, heads, kept + [rest[0]], rest[1..])
  {
    var s0 := rest[0];
    assert kept + [s0] + rest[1..] == kept + rest;
    assert forall x :: x in rest <==> x == s0 || x in rest[1..];
    assert s0 in lists[nl] && ClassOf(SizeOf(offset, s0), align, nl) == nl;
    hide Tiled, Chains, Links;
    forall c, s: nat | 0 <= c < |lists|
      ensures s in lists[c] <==>
        s < |dead| && dead[s] && (if s in rest[1..] then nl else ClassOf(SizeOf(offset, s), align, nl)) == c
    {
      assert s in lists[c] <==>
        s < |dead| && dead[s] && (if s in rest then nl else ClassOf(SizeOf(offset, s), align, nl)) == c;
    }
  }

  /** The chains when the first of `rest` goes to list c. */
  ghost predicate InNoOther(lists: seq<seq<nat>>, c: nat, s: nat) {
    forall d :: 0 <= d < |lists| && d != c ==> s !in lists[d]
  }

  lemma CutOut(l: seq<nat>, k: nat)
    requires NoDup(l) && k < |l|
    ensures l[k] !in l[..k] + l[k + 1..]
  {
    CutList(l, k);
  }

  lemma MoveChains(lists: seq<seq<nat>>, heads: seq<nat>, links: seq<nat>, nl: nat, kept: seq<nat>, rest: seq<nat>,
                   c: nat)
    requires Chains(lists, heads, links) && |lists| == nl + 1 && lists[nl] == kept + rest && rest != [] && c < nl
    requires forall d :: 0 <= d < |lists| ==> NoDup(lists[d])
    requires InNoOther(lists, nl, rest[0]) && (kept != [] ==> InNoOther(lists, nl, kept[|kept| - 1]))
    ensures rest[0] < |links| && (kept != [] ==> kept[|kept| - 1] < |links|)
    ensures var s, next := rest[0], links[rest[0]];
      var links1 := links[s := heads[c]];
      var links' := if kept == [] then links1 else links1[kept[|kept| - 1] := next];
      var heads1 := heads[c := s];
      Chains(lists[nl := kept + rest[1..]][c := [s] + lists[c]], if kept == [] then heads1[nl := next]
        else heads1, links')
  {
    var s, k, l := rest[0], |kept|, lists[nl];
    assert l[k] == s && l[..k] == kept && l[k + 1..] == rest[1..];
    if k > 0 { assert l[k - 1] == kept[k - 1] && l[k - 1] != s; }
    assert NoDup(l);
    CutOut(l, k);
    hide Chains, NoDup, FastChain;
    TakeChains(lists, heads, links, nl, k);
    var lists0 := lists[nl := l[..k] + l[k + 1..]];
    var heads0 := if k == 0 then heads[nl := links[s]] else heads;
    var links0 := if k == 0 then links else links[l[k - 1] := links[s]];
    PushChains(lists0, heads0, links0, c, s);
    assert heads0[c := s] == if k == 0 then heads[c := s][nl := links[s]] else heads[c := s];
    assert links0[s := heads[c]] == if k == 0 then links[s := heads[c]] else links[s := heads[c]][l[k - 1] := links[s]];
  }

  /** The links after the two writes: the slot that moves, and the one before it if there is one. */
  lemma TwoLinks(offset: seq<nat>, pool: seq<Byte>, align: nat, s: nat, v: nat, kept: seq<nat>, next: nat)
    requires Tiled(offset, pool, align) && s + 1 < |offset| && v <= TAIL && next <= TAIL
    requires kept != [] ==> kept[|kept| - 1] + 1 < |offset|
    ensures offset[s] + LINK <= |pool| && (kept != [] ==> offset[kept[|kept| - 1]] + LINK <= |pool|)
    ensures var pool1 := SetLink(offset, pool, s, v);
      var pool2 := if kept == [] then pool1 else SetLink(offset, pool1, kept[|kept| - 1], next);
      var links1 := Links(offset, pool, align)[s := v];
      && OnlySlot(offset, pool, pool1, s) && (kept != [] ==> OnlySlot(offset, pool1, pool2, kept[|kept| - 1]))
      && Tiled(offset, pool2, align)
      && Links(offset, pool2, align) == if kept == [] then links1 else links1[kept[|kept| - 1] := next]
  {
    hide Tiled, Links, OnlySlot, SetLink;
    SetLinkKeeps(offset, pool, align, s, v);
    if kept != [] { SetLinkKeeps(offset, SetLink(offset, pool, s, v), align, kept[|kept| - 1], next); }
  }

  lemma MovedChains(offset: seq<nat>, dead: seq<bool>, pool: seq<Byte>, align: nat, nl: nat, lists: seq<seq<nat>>,
                    heads: seq<nat>, kept: seq<nat>, rest: seq<nat>, c: nat)
    requires Enlarging(offset, dead, pool, align, nl, lists, heads, kept, rest) && rest != [] && c < nl
    ensures |heads| == nl + 1 && rest[0] < |offset| - 1 && (kept != [] ==> kept[|kept| - 1] < |offset| - 1)
    ensures var s, links := rest[0], Links(offset, pool, align);
      var links1 := links[s := heads[c]];
      var heads1 := heads[c := s];
      Chains(lists[nl := kept + rest[1..]][c := [s] + lists[c]],
             if kept == [] then heads1[nl := links[s]] else heads1,
             if kept == [] then links1 else links1[kept[|kept| - 1] := links[s]])
  {
    var l := lists[nl];
    assert l[|kept|] == rest[0] && (kept != [] ==> l[|kept| - 1] == kept[|kept| - 1]);
    OneEach(offset, dead, pool, align, nl, lists, heads, kept, rest, |kept|);
    if kept != [] { OneEach(offset, dead, pool, align, nl, lists, heads, kept, rest, |kept| - 1); }
    MoveChains(lists, heads, Links(offset, pool, align), nl, kept, rest, c);
  }

  /** A slot that moves. */
  lemma EnlargeMove(offset: seq<nat>, dead: seq<bool>, pool: seq<Byte>, align: nat, nl: nat, lists: seq<seq<nat>>,
                    heads: seq<nat>, kept: seq<nat>, rest: seq<nat>, c: nat, pool1: seq<Byte>, pool2: seq<Byte>)
    requires Enlarging(offset, dead, pool, align, nl, lists, heads, kept, rest) && rest != [] && c < nl
    requires rest[0] + 1 < |offset| && SizeOf(offset, rest[0]) / align - 1 == c
    requires offset[rest[0]] + LINK <= |pool| && |heads| == nl + 1
    requires pool1 == SetLink(offset, pool, rest[0], heads[c])
    requires kept != [] ==> kept[|kept| - 1] < |offset| && offset[kept[|kept| - 1]] + LINK <= |pool|
    requires pool2 == if kept == [] then pool1
      else SetLink(offset, pool1, kept[|kept| - 1], LinkAt(offset, pool, rest[0]))
    ensures var s := rest[0];
      var heads1 := heads[c := s];
      && Enlarging(offset, dead, pool2, align, nl, lists[nl := kept + rest[1..]][c := [s] + lists[c]],
                   if kept == [] then heads1[nl := LinkAt(offset, pool, s)] else heads1, kept, rest[1..])
      && OnlySlot(offset, pool, pool1, s) && (kept != [] ==> OnlySlot(offset, pool1, pool2, kept[|kept| - 1]))
  {
    MoveLists(offset, dead, pool, align, nl, lists, heads, kept, rest, c);
    hide Tiled, Links, OnlySlot, SetLink, LinkAt, Chains, NoDup, ClassOf;
    EnlargingSlot(offset, dead, pool, align, nl, lists, heads, kept, rest);
    MovedChains(offset, dead, pool, align, nl, lists, heads, kept, rest, c);
    TwoLinks(offset, pool, align, rest[0], heads[c], kept, LinkAt(offset, pool, rest[0]));
    assert LinkAt(offset, pool, rest[0]) == Links(offset, pool, align)[rest[0]];
  }

  /** A slot of the list for large sizes is on no other list. */
  lemma OneEach(offset: seq<nat>, dead: seq<bool>, pool: seq<Byte>, align: nat, nl: nat,
                lists: seq<seq<nat>>, heads: seq<nat>, kept: seq<nat>, rest: seq<nat>, i: nat)
    requires Enlarging(offset, dead, pool, align, nl, lists, heads, kept, rest) && i < |lists[nl]|
    ensures InNoOther(lists, nl, lists[nl][i])
  {
    hide Tiled, Links, Chains, ClassOf;
    assert lists[nl][i] in lists[nl];
  }

  lemma MoveLists(offset: seq<nat>, dead: seq<bool>, pool: seq<Byte>, align: nat, nl: nat,
                  lists: seq<seq<nat>>, heads: seq<nat>, kept: seq<nat>, rest: seq<nat>, c: nat)
    requires Enlarging(offset, dead, pool, align, nl, lists, heads, kept, rest) && rest != [] && c < nl
    requires rest[0] + 1 < |offset| && SizeOf(offset, rest[0]) / align - 1 == c
    ensures var lists' := lists[nl := kept + rest[1..]][c := [rest[0]] + lists[c]];
      && (forall d :: 0 <= d < |lists'| ==> NoDup(lists'[d]))
      && (forall d, s: nat {:trigger s in lists'[d]} :: 0 <= d < |lists'| ==>
            (s in lists'[d] <==>
               s < |dead| && dead[s] && (if s in rest[1..] then nl else ClassOf(SizeOf(offset, s), align, nl)) == d))
  {
    assert align > 0;
    hide Tiled, Links, Chains;
    var s0, k, l := rest[0], |kept|, lists[nl];
    var lists' := lists[nl := kept + rest[1..]][c := [s0] + lists[c]];
    assert l[k] == s0 && l[..k] == kept && l[k + 1..] == rest[1..];
    CutList(l, k);
    assert s0 in l;
    assert s0 !in lists[c];
    assert forall x :: x in rest <==> x == s0 || x in rest[1..];
    assert s0 !in rest[1..] by { assert forall i :: 0 <= i < |rest[1..]| ==> rest[1..][i] == l[k + 1 + i]; }
    forall d, s: nat | 0 <= d < |lists'|
      ensures s in lists'[d] <==>
        s < |dead| && dead[s] && (if s in rest[1..] then nl else ClassOf(SizeOf(offset, s), align, nl)) == d
    {
      assert s in lists[d] <==>
        s < |dead| && dead[s] && (if s in rest then nl else ClassOf(SizeOf(offset, s), align, nl)) == d;
    }
  }

  // ------------------------------------------------------------------ the map's storage

  ghost predicate Pooled(offset: seq<nat>, dead: seq<bool>, pool: seq<Byte>, align: nat) {
    && Tiled(offset, pool, align) && |offset| == |dead| + 1 && |dead| <= MAXLINK
    && AllKeys(offset, dead, pool)
  }

  /** The counters. */
  ghost predicate Books(offset: seq<nat>, dead: seq<bool>, freepool: int, nDeleted: int) {
    |offset| == |dead| + 1 && freepool == FreeBytes(offset, dead) && nDeleted == DeadCount(dead)
  }

  /** The free lists, when they are enabled. */
  ghost predicate FreeLists(offset: seq<nat>, dead: seq<bool>, pool: seq<Byte>, align: nat, fastleng: int,
                            lists: seq<seq<nat>>, heads: seq<nat>) {
    fastleng == -1 || (fastleng >= 0 && Threaded(offset, dead, pool, align, fastleng, lists, heads))
  }

  /** Where a new key goes: into a deleted slot, behind all slots, or behind all slots once the deleted
      ones are gone. */
  ghost predicate Placed(keys: map<nat, Key>, dead: seq<bool>, keys': map<nat, Key>, n': nat, slot: nat) {
    || (slot < |dead| == n' && dead[slot] && keys' == keys)
    || (slot == |dead| == n' - 1 && keys' == keys)
    || (slot == n' - 1 && Compacted(keys, dead, keys', slot))
  }

  lemma FreedBooks(offset: seq<nat>, dead: seq<bool>, freepool: int, nDeleted: int, s: nat)
    requires Books(offset, dead, freepool, nDeleted) && s < |dead|
    ensures !dead[s] ==> Books(offset, dead[s := true], freepool + SizeOf(offset, s), nDeleted + 1)
    ensures dead[s] ==> Books(offset, dead[s := false], freepool - SizeOf(offset, s), nDeleted - 1)
  {
    CountSet(offset, dead, s, !dead[s]);
  }

  lemma {:induction false} SomeDead(dead: seq<bool>)
    requires DeadCount(dead) > 0
    ensures exists s :: 0 <= s < |dead| && dead[s]
  {
    if !dead[|dead| - 1] {
      SomeDead(dead[..|dead| - 1]);
      var s :| 0 <= s < |dead| - 1 && dead[..|dead| - 1][s];
      assert dead[s];
    }
  }

  lemma NoneFree(offset: seq<nat>, dead: seq<bool>, freepool: int, nDeleted: int)
    requires Books(offset, dead, freepool, nDeleted) && nDeleted == 0
    ensures freepool == 0
  {
    NoDead(dead);
    NoneDead(offset, dead);
  }

  lemma {:induction false} NoDead(dead: seq<bool>)
    requires DeadCount(dead) == 0
    ensures forall i :: 0 <= i < |dead| ==> !dead[i]
  {
    if dead != [] {
      NoDead(dead[..|dead| - 1]);
      forall i | 0 <= i < |dead| ensures !dead[i] {
        if i < |dead| - 1 { assert !dead[..|dead| - 1][i]; }
      }
    }
  }

  /** None of the first five slots of the list for large sizes has this size. */
  ghost predicate NotAmong(offset: seq<nat>, lists: seq<seq<nat>>, c: int, size: nat) {
    && 0 <= c < |lists|
    && forall k :: 0 <= k < 5 && k < |lists[c]| ==> lists[c][k] + 1 < |offset| && SizeOf(offset, lists[c][k]) != size
  }

  /** The slot is one of the first five. */
  ghost predicate Among(lists: seq<seq<nat>>, c: int, slot: nat) {
    0 <= c < |lists| && exists k :: 0 <= k < 5 && k < |lists[c]| && slot == lists[c][k]
  }

  /** The list for a size holds the deleted slots of that size. */
  lemma SomeListed(offset: seq<nat>, dead: seq<bool>, align: nat, fastleng: nat, lists: seq<seq<nat>>, size: nat,
                   s: nat)
    requires Listed(offset, dead, align, fastleng, lists) && s < |dead| && dead[s] && SizeOf(offset, s) == size
    requires align <= size && size / align - 1 < fastleng
    ensures 0 <= size / align - 1 < |lists| && s in lists[size / align - 1]
  {
    Quotient(size, align);
    assert ClassOf(SizeOf(offset, s), align, fastleng) == size / align - 1;
  }

  ghost predicate SomeOfSize(offset: seq<nat>, dead: seq<bool>, size: nat) {
    exists s: nat :: s < |dead| && s + 1 < |offset| && dead[s] && SizeOf(offset, s) == size
  }

  lemma SameSize(a: nat, b: nat, align: nat)
    requires align > 0 && Whole(a, align) && Whole(b, align) && a / align == b / align
    ensures a == b
  {
    assert a == align * (a / align) && b == align * (b / align);
  }

  /** A new slot at the end, for a key that is not there yet. */
  lemma AppendPending(offset: seq<nat>, dead: seq<bool>, pool: seq<Byte>, align: nat, fastleng: int,
                      lists: seq<seq<nat>>, heads: seq<nat>, freepool: int, nDeleted: int, fill: seq<Byte>)
    requires Pooled(offset, dead, pool, align) && Books(offset, dead, freepool, nDeleted)
    requires FreeLists(offset, dead, pool, align, fastleng, lists, heads) && |dead| < MAXLINK
    requires align <= |fill| && Whole(|fill|, align)
    ensures var offset', dead', pool' := offset + [|pool| + |fill|], dead + [true], pool + fill;
      && Pooled(offset', dead', pool', align) && dead'[|dead| := false] == dead + [false]
      && Books(offset', dead + [false], freepool, nDeleted)
      && FreeLists(offset', dead + [false], pool', align, fastleng, lists, heads)
      && Keys(offset', dead', pool') == Keys(offset, dead, pool)
      && SizeOf(offset', |dead|) == |fill|
  {
    AppendTiled(offset, pool, align, fill);
    AppendKeys(offset, dead, pool, align, fill);
    AppendCounts(offset, dead, |pool| + |fill|);
    if fastleng >= 0 { AppendThreaded(offset, dead, pool, align, fastleng, lists, heads, fill); }
    assert offset[|dead|] == |pool|;
    hide Tiled, Threaded, AllKeys, Keys, FreeBytes, DeadCount;
  }

  /** How a request for more room ends. */
  datatype Room =
    | Enough
    | Dies      // a TERARK_VERIFY fails
    | Overruns  // the program goes on, and its new slot would end behind the pool

  /** Offsets divided by the alignment have 32 bits. */
  function MaxOffset(align: nat): nat {
    TAIL * align
  }

  /** What `gc_on_strpool_is_full` checks first: `len` bytes are in the pool, `free` of them in
      deleted slots. */
  predicate Guarded(len: int, free: int, size: int, align: nat) {
    len - free + size <= MaxOffset(align)
  }

  /** When it then makes enough room. */
  predicate Suffices(len: int, free: int, size: int, maxpool: int, align: nat, noLists: bool) {
    len + size <= MaxOffset(align) || Squeezes(len, free, size, maxpool, noLists)
  }

  /** The size the pool grows to, in whole units. */
  function NewMax(len: nat, size: nat, align: nat): nat
    requires align > 0
  {
    var wanted := ((len + size) * 103 / 64 + 63) / 64 * 64;
    (if wanted < MaxOffset(align) then wanted else MaxOffset(align)) / align * align
  }

  lemma NewMaxRoom(len: nat, size: nat, align: nat)
    requires Whole(len, align) && Whole(size, align) && len <= MaxOffset(align)
    ensures len <= NewMax(len, size, align) <= MaxOffset(align)
    ensures len + size <= NewMax(len, size, align) <==> len + size <= MaxOffset(align)
  {
    var wanted := ((len + size) * 103 / 64 + 63) / 64 * 64;
    assert len + size <= wanted;
    WholeSum(len, size, align);
    hide Whole, MaxOffset;
    var most := if wanted < MaxOffset(align) then wanted else MaxOffset(align);
    WholeFloor(len, most, align);
    if len + size <= most { WholeFloor(len + size, most, align); }
  }

  /** When it compacts instead of enlarging the pool. */
  predicate Squeezes(len: int, free: int, size: int, maxpool: int, noLists: bool) {
    noLists && free >= maxpool / 2 && free >= size
  }

  /** The check is weaker: with lists, a pool that has grown to its limit passes it as soon as it has
      a deleted slot, and gets no room. */
  lemma GuardTooWeak()
    ensures var len, free, size := MaxOffset(8), 64, 40;
      Guarded(len, free, size, 8) && !Suffices(len, free, size, MaxOffset(8), 8, false)
  {
  }

  lemma {:induction false} WholeOffset(offset: seq<nat>, pool: seq<Byte>, align: nat, i: nat)
    requires Tiled(offset, pool, align) && i < |offset|
    ensures Whole(offset[i], align)
  {
    if i > 0 {
      WholeOffset(offset, pool, align, i - 1);
      Bounds(offset, pool, align, i - 1);
      hide Tiled;
      WholeSum(offset[i - 1], offset[i] - offset[i - 1], align);
    }
  }

  lemma WholePool(offset: seq<nat>, pool: seq<Byte>, align: nat)
    requires Tiled(offset, pool, align)
    ensures Whole(|pool|, align) && align > 0
  {
    WholeOffset(offset, pool, align, |offset| - 1);
  }

  lemma WholeSum(a: nat, b: nat, align: nat)
    requires Whole(a, align) && Whole(b, align)
    ensures Whole(a + b, align)
  {
    assert a == align * (a / align) && b == align * (b / align);
    ModUnique(a + b, align, a / align + b / align, 0);
  }

  /** Sizes rounded down to whole units keep what is whole. */
  lemma WholeFloor(a: nat, b: nat, align: nat)
    requires Whole(a, align) && a <= b
    ensures a <= b / align * align <= b
  {
    var p, q := a / align, b / align;
    assert a == align * p && b == align * q + b % align;
    if q < p { Scale(q + 1, p, align); }
    Scale(p, if p <= q then q else p, align);
  }

  /** The slot is the first of list c, and the lists are otherwise as they were. */
  ghost predicate AtFront(lists: seq<seq<nat>>, lists': seq<seq<nat>>, c: int, slot: nat) {
    0 <= c < |lists| && lists' == lists[c := [slot] + lists[c]]
  }

  class StrMap {
    const align: nat
    var offset: seq<nat>
    var dead: seq<bool>
    var pool: seq<Byte>
    var fastleng: int
    var heads: seq<nat>
    var freepool: int
    var nDeleted: int
    var maxNodes: nat
    var maxpool: nat
    var autoCompact: bool

    ghost var lists: seq<seq<nat>>

    ghost predicate Valid() reads this {
      && Pooled(offset, dead, pool, align)
      && Books(offset, dead, freepool, nDeleted)
      && FreeLists(offset, dead, pool, align, fastleng, lists, heads)
      && |pool| <= maxpool <= MaxOffset(align) && |dead| <= maxNodes <= MAXLINK
    }

    /** A slot has been taken for a key that is not there yet. */
    ghost predicate Pending(slot: nat) reads this {
      && Pooled(offset, dead, pool, align) && slot < |dead| && dead[slot]
      && Books(offset, dead[slot := false], freepool, nDeleted)
      && FreeLists(offset, dead[slot := false], pool, align, fastleng, lists, heads)
      && |pool| <= maxpool <= MaxOffset(align) && |dead| <= maxNodes <= MAXLINK
    }

    ghost function Contents(): map<nat, Key>
      requires AllKeys(offset, dead, pool)
      reads this
    {
      Keys(offset, dead, pool)
    }

    constructor (align: nat)
      requires LINK <= align <= 128
      ensures Valid() && Contents() == map[] && fastleng == -1 && this.align == align
    {
      this.align := align;
      offset, dead, pool := [0], [], [];
      fastleng, heads, lists := -1, [], [];
      freepool, nDeleted, maxNodes, maxpool, autoCompact := 0, 0, 0, 0, true;
    }

    /** `key` */
    method KeyAt(idx: nat) returns (key: Key)
      requires Valid() && Alive(dead, idx)
      ensures key == Contents()[idx]
    {
      var b := pool[offset[idx]..offset[idx + 1]];
      assert b == Slot(offset, pool, idx);
      var last: int := b[|b| - 1];
      key := b[..|b| - (last + 1)];
    }

    /** `put_to_freelist`: a deleted slot goes to the front of the list for its size.  The lists hold the
        deleted slots that are `marked`. */
    method PutToFreelist(slot: nat, ghost marked: seq<bool>)
      requires Pooled(offset, dead, pool, align) && slot < |dead| == |marked| && dead[slot] && !marked[slot]
      requires fastleng >= 0 && Threaded(offset, marked, pool, align, fastleng, lists, heads)
      modifies this`pool, this`heads, this`lists
      ensures Pooled(offset, dead, pool, align) && Contents() == old(Contents()) && |pool| == |old(pool)|
      ensures Threaded(offset, marked[slot := true], pool, align, fastleng, lists, heads)
      ensures AtFront(old(lists), lists, ListOf(slot), slot)
    {
      PutThreaded(offset, marked, pool, align, fastleng, lists, heads, slot);
      hide Tiled, AllKeys, Keys, Threaded, OnlySlot, SetLink, ClassOf;
      var size := offset[slot + 1] as int - offset[slot] as int;
      var c := ClassOf(size, align, fastleng);
      assert size == SizeOf(offset, slot);
      ghost var pool0 := pool;
      pool := SetLink(offset, pool, slot, heads[c]);
      heads, lists := heads[c := slot], lists[c := [slot] + lists[c]];
      SameKeys(offset, dead, pool0, pool, slot);
      assert Tiled(offset, pool, align) by {
        TiledOf(offset, marked[slot := true], pool, align, fastleng, lists, heads);
      }
    }

    /** The list for the size of a slot. */
    ghost function ListOf(slot: nat): int
      requires slot + 1 < |offset| && align > 0 && fastleng >= 0
      reads this`offset, this`fastleng
    {
      ClassOf(SizeOf(offset, slot), align, fastleng)
    }

    method FirstDead() returns (i: nat)
      requires DeadCount(dead) > 0
      ensures i < |dead| && dead[i] && forall s :: 0 <= s < i ==> !dead[s]
    {
      SomeDead(dead);
      hide DeadCount;
      i := 0;
      while !dead[i]
        invariant i < |dead| && forall s :: 0 <= s < i ==> !dead[s]
        invariant exists s :: i <= s < |dead| && dead[s]
        decreases |dead| - i
      {
        i := i + 1;
      }
    }

    /** `revoke_deleted_no_relink`: the live keys move together, in their order. */
    method RevokeNoRelink()
      requires Valid() && fastleng == -1 && nDeleted > 0
      modifies this`offset, this`dead, this`pool, this`freepool, this`nDeleted
      ensures Valid() && nDeleted == 0 == freepool && |dead| <= |old(dead)| && |pool| == |old(pool)| - old(freepool)
      ensures Compacted(old(Contents()), old(dead), Contents(), |dead|)
    {
      hide Tiled, AllKeys, Half, Packed, Starts, Compacted, FreeBytes, DeadCount, Keys;
      ghost var offset0, pool0 := offset, pool;
      var n := |dead|;
      var idx1 := FirstDead();
      var loffset: nat := offset[idx1];
      HalfStart(offset, dead, pool, align, idx1);
      PackedKeys(offset, dead, pool, align);
      for idx2 := idx1 + 1 to n
        invariant Half(offset0, dead, pool0, align, idx2, offset, pool, idx1, loffset)
        invariant dead == old(dead) && |dead| == n && freepool == old(freepool) && nDeleted == old(nDeleted)
      {
        HalfStep(offset0, dead, pool0, align, idx2, offset, pool, idx1, loffset);
        if !dead[idx2] {
          var len: nat := offset[idx2 + 1] - offset[idx2];
          pool := pool[..loffset] + pool[offset[idx2]..offset[idx2 + 1]] + pool[loffset + len..];
          offset := offset[idx1 := loffset];
          loffset := loffset + len;
          idx1 := idx1 + 1;
        }
      }
      HalfEnd(offset0, dead, pool0, align, offset, pool, idx1, loffset);
      assert |offset[..idx1]| == idx1;
      offset, pool := offset[..idx1] + [loffset], pool[..loffset];
      dead := seq(idx1, _ => false);
      assert dead == AllAlive(idx1);
      freepool, nDeleted := 0, 0;
    }

    /** `revoke_deleted` */
    method RevokeDeleted()
      requires Valid() && fastleng == -1
      modifies this`offset, this`dead, this`pool, this`freepool, this`nDeleted
      ensures Valid() && nDeleted == 0 == freepool && |dead| <= |old(dead)| && |pool| == |old(pool)| - old(freepool)
      ensures if old(nDeleted) == 0 then Contents() == old(Contents()) && dead == old(dead)
        else Compacted(old(Contents()), old(dead), Contents(), |dead|)
    {
      hide Tiled, AllKeys, Books, FreeLists, Compacted, Keys;
      if nDeleted != 0 {
        assert nDeleted > 0 by { BooksCount(); }
        RevokeNoRelink();
      } else {
        NoneFree(offset, dead, freepool, nDeleted);
      }
    }

    lemma BooksCount()
      requires Books(offset, dead, freepool, nDeleted) && Tiled(offset, pool, align)
      ensures nDeleted >= 0 && freepool >= 0
    {
      PackedCounts(offset, dead, pool, align, |dead|);
      assert offset[..|dead| + 1] == offset && dead[..|dead|] == dead;
    }

    /** `reserve_nodes`, which compacts first when no lists are kept. */
    method ReserveNodes(cap: nat)
      requires Valid() && |dead| <= cap
      modifies this`offset, this`dead, this`pool, this`freepool, this`nDeleted, this`maxNodes
      ensures Valid() && maxNodes == (if cap > MAXLINK then MAXLINK else cap)
      ensures |dead| <= |old(dead)| && |pool| == |old(pool)| - (old(freepool) - freepool)
      ensures freepool == if fastleng == -1 && autoCompact then 0 else old(freepool)
      ensures if fastleng == -1 && autoCompact && old(nDeleted) != 0 then
          nDeleted == 0 && Compacted(old(Contents()), old(dead), Contents(), |dead|)
        else Contents() == old(Contents()) && dead == old(dead) && offset == old(offset) && nDeleted == old(nDeleted)
    {
      hide Books, FreeLists, Compacted, Tiled, AllKeys, Keys, MaxOffset;
      if fastleng == -1 && autoCompact {
        if nDeleted != 0 {
          assert nDeleted > 0 && freepool >= 0 by { BooksCount(); }
          RevokeNoRelink();
        } else {
          NoneFree(offset, dead, freepool, nDeleted);
        }
      }
      maxNodes := if cap > MAXLINK then MAXLINK else cap;
    }

    /** `gc_on_strpool_is_full`: compaction when that gives enough room, else a larger pool. */
    method GcOnFull(size: nat) returns (ok: bool)
      requires Valid() && 0 < size && Whole(size, align)
      modifies this`offset, this`dead, this`pool, this`freepool, this`nDeleted, this`maxpool
      ensures Valid() && |dead| <= |old(dead)|
      ensures ok <==> Guarded(|old(pool)|, old(freepool), size, align)
      ensures ok ==>
        (|pool| + size <= maxpool <==>
         Suffices(|old(pool)|, old(freepool), size, old(maxpool), align, fastleng == -1))
      ensures ok && Squeezes(|old(pool)|, old(freepool), size, old(maxpool), fastleng == -1) ==>
        && Compacted(old(Contents()), old(dead), Contents(), |dead|)
        && freepool == 0 == nDeleted && maxpool == old(maxpool)
      ensures !(ok && Squeezes(|old(pool)|, old(freepool), size, old(maxpool), fastleng == -1)) ==>
        Contents() == old(Contents()) && dead == old(dead) && offset == old(offset) && nDeleted == old(nDeleted)
    {
      hide Books, FreeLists, Compacted, Tiled, AllKeys, Keys, MaxOffset, Whole;
      assert freepool >= 0 && (freepool > 0 ==> nDeleted > 0) by { BooksCount(); FreeSome(); }
      ok := |pool| - freepool + size <= MaxOffset(align);
      if !ok { return; }
      if fastleng == -1 && freepool >= maxpool / 2 && freepool >= size {
        RevokeNoRelink();
      } else {
        WholePool(offset, pool, align);
        NewMaxRoom(|pool|, size, align);
        maxpool := NewMax(|pool|, size, align);
      }
    }

    /** The first slot of a fast list. */
    method AllocInFastlist(c: nat) returns (slot: nat)
      requires Valid() && 0 <= fastleng && c < |lists| && lists[c] != []
      modifies this`heads, this`lists, this`freepool, this`nDeleted
      ensures Pending(slot) && slot == old(lists)[c][0]
      ensures ClassOf(SizeOf(offset, slot), align, fastleng) == c
    {
      hide Tiled, AllKeys, Keys, FreeBytes, DeadCount, ClassOf;
      ListSlot(c, 0);
      slot := heads[c];
      var next := LinkAt(offset, pool, slot);
      TakeThreaded(offset, dead, pool, align, fastleng, lists, heads, c, 0, heads[c := next], pool);
      FreedBooks(offset, dead, freepool, nDeleted, slot);
      heads := heads[c := next];
      lists := lists[c := lists[c][..0] + lists[c][1..]];
      freepool := freepool - (offset[slot + 1] - offset[slot]);
      nDeleted := nDeleted - 1;
    }

    lemma ListSlot(c: nat, k: nat)
      requires fastleng >= 0 && Threaded(offset, dead, pool, align, fastleng, lists, heads)
      requires c < |lists| && k < |lists[c]|
      ensures |heads| == |lists| && lists[c][k] + 1 < |offset| && lists[c][k] < TAIL
      ensures offset[lists[c][k]] + LINK <= offset[lists[c][k] + 1] <= |pool|
      ensures heads[c] == lists[c][0] && dead[lists[c][k]]
      ensures LinkAt(offset, pool, lists[c][k]) == Follow(lists[c], k + 1)
      ensures ClassOf(SizeOf(offset, lists[c][k]), align, fastleng) == c
    {
      TakeListed(offset, dead, align, fastleng, lists, c, k);
      Bounds(offset, pool, align, lists[c][k]);
      var links := Links(offset, pool, align);
      assert FastChain(lists[c], heads[c], links);
      assert links[lists[c][k]] == Follow(lists[c], k + 1);
    }

    /** Looks at up to five slots of the list for large sizes. */
    method AllocInHugelist(size: nat) returns (slot: nat)
      requires Valid() && 0 <= fastleng
      modifies this`pool, this`heads, this`lists, this`freepool, this`nDeleted
      ensures slot == TAIL ==> Valid() && pool == old(pool) && heads == old(heads) && lists == old(lists)
      ensures slot == TAIL ==> freepool == old(freepool) && nDeleted == old(nDeleted)
      ensures slot == TAIL ==> NotAmong(offset, lists, fastleng, size)
      ensures slot != TAIL ==> Pending(slot) && SizeOf(offset, slot) == size && Contents() == old(Contents())
      ensures slot != TAIL ==> Among(old(lists), fastleng, slot)
      ensures |pool| == |old(pool)|
    {
      hide Tiled, AllKeys, Keys, FreeBytes, DeadCount, ClassOf, Threaded, SetLink, LinkAt;
      ListCount();
      ghost var l := lists[fastleng];
      var k, prev, curr := 0, TAIL, heads[fastleng];
      while curr != TAIL && k < 5
        invariant Valid() && |heads| == |lists| == fastleng + 1 && l == lists[fastleng]
        invariant pool == old(pool) && heads == old(heads) && lists == old(lists)
        invariant freepool == old(freepool) && nDeleted == old(nDeleted)
        invariant 0 <= k <= |l| && k <= 5 && curr == Follow(l, k) && prev == if k == 0 then TAIL else l[k - 1]
        invariant forall j :: 0 <= j < k ==> l[j] + 1 < |offset| && SizeOf(offset, l[j]) != size
        decreases |l| - k
      {
        ListSlot(fastleng, k);
        if offset[curr + 1] - offset[curr] == size {
          assert Among(old(lists), fastleng, curr) by { assert curr == l[k]; }
          TakeHuge(k, prev, curr);
          return curr;
        }
        prev, curr, k := curr, LinkAt(offset, pool, curr), k + 1;
      }
      if curr == TAIL && k < |l| { ListSlot(fastleng, k); }
      slot := TAIL;
    }

    lemma ListCount()
      requires fastleng >= 0 && Threaded(offset, dead, pool, align, fastleng, lists, heads)
      ensures |heads| == |lists| == fastleng + 1
      ensures heads[fastleng] == Follow(lists[fastleng], 0)
    {
    }

    /** Unlinks the k-th slot of the list for large sizes. */
    method TakeHuge(k: nat, prev: nat, curr: nat)
      requires Valid() && 0 <= fastleng && |heads| == |lists| == fastleng + 1 && k < |lists[fastleng]|
      requires curr == lists[fastleng][k] && prev == if k == 0 then TAIL else lists[fastleng][k - 1]
      modifies this`pool, this`heads, this`lists, this`freepool, this`nDeleted
      ensures Pending(curr) && Contents() == old(Contents()) && |pool| == |old(pool)|
    {
      hide Tiled, AllKeys, Keys, FreeBytes, DeadCount, ClassOf, Threaded, SetLink, LinkAt, OnlySlot;
      ghost var c: nat := fastleng;
      ListSlot(c, k);
      if k > 0 { ListSlot(c, k - 1); }
      var next := LinkAt(offset, pool, curr);
      ghost var pool0 := pool;
      ghost var heads1 := if k == 0 then heads[c := next] else heads;
      ghost var pool1 := if k == 0 then pool else SetLink(offset, pool, prev, next);
      TakeThreaded(offset, dead, pool, align, c, lists, heads, c, k, heads1, pool1);
      if k > 0 { SameKeys(offset, dead, pool0, pool1, prev); }
      assert Tiled(offset, pool1, align) by {
        TiledOf(offset, dead[curr := false], pool1, align, c, lists[c := lists[c][..k] + lists[c][k + 1..]], heads1);
      }
      FreedBooks(offset, dead, freepool, nDeleted, curr);
      if prev == TAIL { heads := heads[fastleng := next]; } else { pool := SetLink(offset, pool, prev, next); }
      lists := lists[c := lists[c][..k] + lists[c][k + 1..]];
      freepool := freepool - (offset[curr + 1] - offset[curr]);
      nDeleted := nDeleted - 1;
    }

    /** Makes the pool large enough. */
    method MakeRoom(size: nat) returns (room: Room)
      requires Valid() && 0 < size && Whole(size, align)
      modifies this`offset, this`dead, this`pool, this`freepool, this`nDeleted, this`maxpool
      ensures room.Enough? ==> Valid() && |pool| + size <= maxpool && |dead| <= |old(dead)|
      ensures room.Enough? <==>
        || |old(pool)| + size <= MaxOffset(align)
        || (autoCompact && Suffices(|old(pool)|, old(freepool), size, old(maxpool), align, fastleng == -1))
      ensures room.Dies? <==> autoCompact && !Guarded(|old(pool)|, old(freepool), size, align)
      ensures room.Enough? ==>
        if autoCompact && |old(pool)| + size > old(maxpool) &&
           Squeezes(|old(pool)|, old(freepool), size, old(maxpool), fastleng == -1)
        then Compacted(old(Contents()), old(dead), Contents(), |dead|)
        else Contents() == old(Contents()) && dead == old(dead)
    {
      hide Tiled, AllKeys, Keys, Books, FreeLists, Compacted, Whole, MaxOffset;
      assert freepool >= 0 by { BooksCount(); }
      if size <= maxpool - |pool| { return Enough; }
      if autoCompact {
        var ok := GcOnFull(size);
        room := if !ok then Dies else if |pool| + size <= maxpool then Enough else Overruns;
      } else if |pool| + size <= MaxOffset(align) {
        maxpool := |pool| + size;
        room := Enough;
      } else {
        room := Overruns;
      }
    }

    /** What the compaction by `reserve_nodes` sets free when all slots are in use. */
    ghost function Regained(): int
      reads this
    {
      if |dead| == maxNodes && fastleng == -1 && autoCompact then freepool else 0
    }

    /** Whether the map is compacted on the way to a new slot. */
    ghost predicate Compacts(size: nat)
      reads this
    {
      autoCompact && fastleng == -1 && nDeleted != 0 &&
      (|dead| == maxNodes || (|pool| + size > maxpool && Squeezes(|pool|, freepool, size, maxpool, true)))
    }

    /** Whether there is room for a new slot: the numbers are not used up, and the pool can be made
        large enough, be it by compaction. */
    ghost predicate HasRoom(size: nat)
      reads this
    {
      && |dead| < MAXLINK
      && (|pool| - Regained() + size <= MaxOffset(align) ||
          (autoCompact && Suffices(|pool| - Regained(), freepool - Regained(), size, maxpool, align, fastleng == -1)))
    }

    /** Whether the program stops instead. */
    ghost predicate Stops(size: nat)
      reads this
    {
      |dead| == MAXLINK || (autoCompact && !Guarded(|pool|, freepool, size, align))
    }

    /** A slot behind all others; the map makes room first, which may compact it. */
    method NewSlot(size: nat) returns (room: Room, slot: nat)
      requires Valid() && align <= size && Whole(size, align)
      modifies this`offset, this`dead, this`pool, this`freepool, this`nDeleted, this`maxNodes, this`maxpool
      ensures room.Enough? <==> old(HasRoom(size))
      ensures room.Dies? <==> old(Stops(size))
      ensures room.Enough? ==> Pending(slot) && SizeOf(offset, slot) == size && slot + 1 == |dead|
      ensures room.Enough? ==>
        if old(Compacts(size)) then Compacted(old(Contents()), old(dead), Contents(), slot)
        else Contents() == old(Contents()) && slot == |old(dead)|
    {
      hide Tiled, AllKeys, Keys, Books, FreeLists, Compacted, Whole, MaxOffset, Suffices;
      assert nDeleted == 0 ==> freepool == 0 by { FreeSome(); BooksCount(); }
      slot := |dead|;
      if |dead| == maxNodes {
        if |dead| >= MAXLINK { return Dies, slot; }
        ReserveNodes(if |dead| == 0 then 1 else (|dead| + 1) * 103 / 64);
      }
      AlignRange();
      room := MakeRoom(size);
      if room.Enough? { slot := Append(size); }
    }

    /** The slot itself, its bytes arbitrary. */
    method Append(size: nat) returns (slot: nat)
      requires Valid() && align <= size && Whole(size, align) && |dead| < maxNodes && |pool| + size <= maxpool
      modifies this`offset, this`dead, this`pool
      ensures Pending(slot) && SizeOf(offset, slot) == size && slot == |old(dead)| == |dead| - 1
      ensures Contents() == old(Contents())
    {
      hide Tiled, AllKeys, Keys, Books, FreeLists, Whole, MaxOffset;
      var fill: seq<Byte> := *;
      if |fill| != size { fill := seq(size, _ => 0); }
      AppendPending(offset, dead, pool, align, fastleng, lists, heads, freepool, nDeleted, fill);
      slot := |dead|;
      offset, dead, pool := offset + [|pool| + size], dead + [true], pool + fill;
    }

    /** Whether a deleted slot on a list serves: any of a small size, one of the first five of a
        large size. */
    ghost predicate Serves(size: nat)
      reads this
    {
      align > 0 && fastleng >= 0 &&
      if size / align - 1 < fastleng then SomeOfSize(offset, dead, size) else !NotAmong(offset, lists, fastleng, size)
    }

    /** `alloc_slot`: a deleted slot when one serves, or else a new one when there is room. */
    method AllocSlot(size: nat) returns (room: Room, slot: nat)
      requires Valid() && align <= size && Whole(size, align)
      modifies this
      ensures room.Enough? <==> old(Serves(size) || HasRoom(size))
      ensures room.Dies? <==> old(!Serves(size) && Stops(size))
      ensures room.Enough? ==> Pending(slot) && SizeOf(offset, slot) == size && fastleng == old(fastleng)
      ensures room.Enough? ==> Placed(old(Contents()), old(dead), Contents(), |dead|, slot)
      ensures old(Serves(size)) ==> slot < |old(dead)| && |pool| == |old(pool)|
      ensures old(Serves(size)) && size / align - 1 < fastleng ==>
        && 0 <= size / align - 1 < |old(lists)| && old(lists)[size / align - 1] != []
        && slot == old(lists)[size / align - 1][0]
      ensures room.Enough? && !old(Serves(size)) ==>
        if old(Compacts(size)) then Compacted(old(Contents()), old(dead), Contents(), slot) && slot == |dead| - 1
        else Contents() == old(Contents()) && slot == |old(dead)|
    {
      hide Tiled, AllKeys, Keys, Books, Compacted, ClassOf, MaxOffset, Suffices;
      AlignRange();
      Quotient(size, align);
      if fastleng != -1 {
        var c := size / align - 1;
        ListCount();
        ExactListed(size);
        if c < fastleng {
          if heads[c] != TAIL {
            ListHead(c);
            ListServes(c, size);
            slot := AllocInFastlist(c);
            ExactSize(slot, c, size);
            return Enough, slot;
          }
          EmptyList(c);
        } else {
          slot := AllocInHugelist(size);
          if slot != TAIL {
            return Enough, slot;
          }
        }
      }
      room, slot := NewSlot(size);
    }

    /** A slot on the list for a small size is of that size. */
    lemma ListServes(c: nat, size: nat)
      requires Valid() && c < fastleng && fastleng + 1 == |lists| && lists[c] != []
      requires Whole(size, align) && size / align - 1 == c
      ensures Serves(size)
    {
      ListSlot(c, 0);
      ExactSize(lists[c][0], c, size);
    }

    lemma ExactListed(size: nat)
      requires fastleng >= 0 && Threaded(offset, dead, pool, align, fastleng, lists, heads) && align <= size
      ensures size / align - 1 < fastleng && SomeOfSize(offset, dead, size) ==>
        0 <= size / align - 1 < |lists| && lists[size / align - 1] != []
    {
      if size / align - 1 < fastleng && SomeOfSize(offset, dead, size) {
        var s: nat :| s < |dead| && s + 1 < |offset| && dead[s] && SizeOf(offset, s) == size;
        SomeListed(offset, dead, align, fastleng, lists, size, s);
      }
    }

    lemma ListHead(c: nat)
      requires fastleng >= 0 && Threaded(offset, dead, pool, align, fastleng, lists, heads) && c < |lists| == |heads|
      ensures heads[c] != TAIL ==> lists[c] != []
    {
    }

    lemma EmptyList(c: nat)
      requires fastleng >= 0 && Threaded(offset, dead, pool, align, fastleng, lists, heads) && c < |lists| == |heads|
      requires heads[c] == TAIL
      ensures lists[c] == []
    {
      if lists[c] != [] { ListSlot(c, 0); }
    }

    lemma ExactSize(slot: nat, c: nat, size: nat)
      requires Tiled(offset, pool, align) && slot + 1 < |offset| && 0 <= fastleng && c < fastleng
      requires ClassOf(SizeOf(offset, slot), align, fastleng) == c && Whole(size, align) && size / align - 1 == c
      ensures SizeOf(offset, slot) == size
    {
      Bounds(offset, pool, align, slot);
      SameSize(SizeOf(offset, slot), size, align);
    }

    /** What `lazy_insert_with_hash_i` does for a key that is not there: the key is written into the slot
        that is found for it, with its surplus in the last byte. */
    method Place(key: Key) returns (room: Room, slot: nat)
      requires Valid()
      modifies this
      ensures room.Enough? ==> Valid() && slot in Contents() && Contents()[slot] == key && fastleng == old(fastleng)
      ensures room.Enough? ==> Placed(old(Contents()), old(dead), Contents() - {slot}, |dead|, slot)
      ensures var size := AlignUp(|key| + 1, align);
        && (room.Enough? <==> old(Serves(size) || HasRoom(size)))
        && (room.Dies? <==> old(!Serves(size) && Stops(size)))
        && (old(Serves(size)) ==> slot < |old(dead)| && |pool| == |old(pool)|)
        && (room.Enough? && !old(Serves(size)) ==>
             if old(Compacts(size)) then Compacted(old(Contents()), old(dead), Contents() - {slot}, slot)
             else slot == |old(dead)|)
    {
      hide Tiled, AllKeys, Keys, Books, Compacted, ClassOf, FreeLists, AlignUp;
      hide StrMap.Serves, StrMap.HasRoom, StrMap.Stops, StrMap.Compacts;
      assert LINK <= align <= 128 by { AlignRange(); }
      AlignedUp(|key| + 1, align);
      var size := AlignUp(|key| + 1, align);
      AtLeastOne(|key| + 1, align, size);
      room, slot := AllocSlot(size);
      if room.Enough? { WriteKey(slot, key); }
    }

    lemma AlignRange()
      requires Tiled(offset, pool, align)
      ensures LINK <= align <= 128
    {
    }

    method WriteKey(slot: nat, key: Key)
      requires Pending(slot) && SizeOf(offset, slot) == AlignUp(|key| + 1, align)
      modifies this`pool, this`dead
      ensures Valid() && slot in Contents() && Contents()[slot] == key && Contents() - {slot} == old(Contents())
      ensures |pool| == |old(pool)| && |dead| == |old(dead)|
    {
      hide Tiled, AllKeys, Keys, Books, FreeLists, AlignUp, Laid, HasKey, KeyOf, OnlySlot, Slot, Overwrite;
      RoomFor(offset, pool, align, slot, key);
      ghost var pool0 := pool;
      LaidKey(Slot(offset, pool, slot), key, align);
      var laid := Laid(Slot(offset, pool, slot), key, align);
      Overwritten(offset, pool, align, slot, laid);
      pool := Overwrite(pool, offset[slot], laid);
      PutKey(offset, dead, pool0, pool, slot, key);
      WriteThreaded(pool0, slot);
      dead := dead[slot := false];
    }

    /** The lists survive a write into a slot that is on none of them. */
    lemma WriteThreaded(pool0: seq<Byte>, slot: nat)
      requires slot < |dead| && FreeLists(offset, dead[slot := false], pool0, align, fastleng, lists, heads)
      requires Tiled(offset, pool0, align) && Tiled(offset, pool, align) && OnlySlot(offset, pool0, pool, slot)
      requires |offset| == |dead| + 1
      ensures FreeLists(offset, dead[slot := false], pool, align, fastleng, lists, heads)
    {
      if fastleng >= 0 {
        var links, links' := Links(offset, pool0, align), Links(offset, pool, align);
        hide Tiled, OnlySlot;
        forall t | 0 <= t < |links| && t != slot ensures links'[t] == links[t] {
          OtherLinks(offset, pool0, align, pool, slot, t);
        }
        forall d | 0 <= d < |lists| ensures FastChain(lists[d], heads[d], links') {
          ListAvoids(offset, dead[slot := false], align, fastleng, lists, d, slot);
          forall i | 0 <= i < |lists[d]| && lists[d][i] < |links| ensures links'[lists[d][i]] == links[lists[d][i]] {
            assert lists[d][i] in lists[d];
          }
          FastFrame(lists[d], heads[d], links, links');
        }
      }
    }

    /** `enable_freelist`: lists for the sizes of keys up to the given length, for all slots that are
        deleted now.  The keys stay where they are. */
    method EnableFreelist(maxKeyLen: nat)
      requires Valid() && 0 < maxKeyLen < 32 * 1024
      modifies this`pool, this`fastleng, this`heads, this`lists
      ensures Valid() && Contents() == old(Contents())
      ensures fastleng == (maxKeyLen + align - 1) / align && fastleng >= 0
    {
      hide Tiled, AllKeys, Keys, Books, Threaded;
      AlignRange();
      AtLeastZero(maxKeyLen + align - 1, align);
      var newlistLen := (maxKeyLen + align - 1) / align;
      if newlistLen == fastleng { return; }
      if newlistLen < fastleng {
        ShrinkLists(newlistLen);
      } else if fastleng == -1 {
        BuildLists(newlistLen);
      } else {
        EnlargeLists(newlistLen);
      }
    }

    /** The lists for the larger sizes are put before the one for all others. */
    method ShrinkLists(nl: nat)
      requires Valid() && nl < fastleng
      modifies this`pool, this`fastleng, this`heads, this`lists
      ensures Valid() && Contents() == old(Contents()) && fastleng == nl && |pool| == |old(pool)|
    {
      hide Tiled, AllKeys, Keys, Books, Threaded, Merged, SetLink, LinkAt, OnlySlot;
      MergeStart(offset, dead, pool, align, fastleng, nl, lists, heads);
      assert nl <= fastleng && |heads| == |lists| == fastleng + 1 by { ListCount(); }
      var i := nl;
      while i < fastleng
        invariant nl <= i <= fastleng == old(fastleng) && |heads| == |lists| == fastleng + 1
        invariant Pooled(offset, dead, pool, align) && Contents() == old(Contents()) && |pool| == |old(pool)|
        invariant Merged(offset, dead, pool, align, fastleng, nl, i, lists, heads)
      {
        MergeStep(offset, dead, pool, align, fastleng, nl, i, lists, heads);
        MergedHeads(offset, dead, pool, align, fastleng, nl, i, lists, heads, i);
        if heads[i] != TAIL {
          var t := LastOf(nl, i);
          ghost var pool0 := pool;
          pool := SetLink(offset, pool, t, heads[fastleng]);
          heads := heads[fastleng := heads[i]];
          lists := lists[i := []][fastleng := lists[i] + lists[fastleng]];
          SameKeys(offset, dead, pool0, pool, t);
          assert Tiled(offset, pool, align) by {
            MergedTiled(offset, dead, pool, align, fastleng, nl, i + 1, lists, heads);
          }
        }
        i := i + 1;
      }
      MergeEnd(offset, dead, pool, align, fastleng, nl, lists, heads);
      heads := heads[..nl] + [heads[fastleng]];
      lists := lists[..nl] + [lists[fastleng]];
      fastleng := nl;
    }

    /** Walks to the end of list i. */
    method LastOf(ghost nl: nat, i: nat) returns (t: nat)
      requires fastleng >= 0 && nl <= i < fastleng && |heads| == |lists| == fastleng + 1 && lists[i] != []
      requires Merged(offset, dead, pool, align, fastleng, nl, i, lists, heads)
      ensures t == lists[i][|lists[i]| - 1] && t + 1 < |offset| == |dead| + 1
      ensures dead[t] && offset[t] + LINK <= |pool|
    {
      hide Merged, LinkAt;
      MergedSlot(offset, dead, pool, align, fastleng, nl, i, lists, heads, i, 0);
      t := heads[i];
      ghost var k := 0;
      var next := LinkAt(offset, pool, t);
      while next != TAIL
        invariant 0 <= k < |lists[i]| && t == lists[i][k] && next == Follow(lists[i], k + 1)
        invariant t + 1 < |offset| == |dead| + 1 && dead[t] && offset[t] + LINK <= |pool|
        decreases |lists[i]| - k
      {
        MergedSlot(offset, dead, pool, align, fastleng, nl, i, lists, heads, i, k + 1);
        t, k := next, k + 1;
        next := LinkAt(offset, pool, t);
      }
      if k + 1 < |lists[i]| { MergedSlot(offset, dead, pool, align, fastleng, nl, i, lists, heads, i, k + 1); }
    }

    /** The lists are built from the deletion marks. */
    method BuildLists(nl: nat)
      requires Valid() && fastleng == -1
      modifies this`pool, this`fastleng, this`heads, this`lists
      ensures Valid() && Contents() == old(Contents()) && fastleng == nl && |pool| == |old(pool)|
    {
      hide Tiled, AllKeys, Keys, Books, Threaded, SetLink, OnlySlot, ClassOf;
      NothingThreaded(offset, dead, pool, align, nl);
      fastleng, heads, lists := nl, seq(nl + 1, _ => TAIL), seq(nl + 1, _ => []);
      for i := 0 to |dead|
        invariant fastleng == nl && Pooled(offset, dead, pool, align) && dead == old(dead) && offset == old(offset)
        invariant Contents() == old(Contents()) && |pool| == |old(pool)|
        invariant Threaded(offset, Upto(dead, i), pool, align, fastleng, lists, heads)
      {
        if dead[i] {
          PutToFreelist(i, Upto(dead, i));
          assert Upto(dead, i)[i := true] == Upto(dead, i + 1);
        } else {
          assert Upto(dead, i) == Upto(dead, i + 1);
        }
      }
      assert Upto(dead, |dead|) == dead;
    }

    /** New lists take their slots from the list for large sizes. */
    method EnlargeLists(nl: nat)
      requires Valid() && 0 <= fastleng < nl
      modifies this`pool, this`fastleng, this`heads, this`lists
      ensures Valid() && Contents() == old(Contents()) && fastleng == nl && |pool| == |old(pool)|
    {
      hide Tiled, AllKeys, Keys, Books, Threaded, Enlarging, SetLink, LinkAt, OnlySlot;
      EnlargeStart(offset, dead, pool, align, fastleng, nl, lists, heads);
      ghost var kept: seq<nat>, rest := [], lists[fastleng];
      heads := heads[..fastleng] + seq(nl - fastleng, _ => TAIL) + [heads[fastleng]];
      lists := lists[..fastleng] + seq(nl - fastleng, _ => []) + [lists[fastleng]];
      EnlargingSlot(offset, dead, pool, align, nl, lists, heads, kept, rest);
      var pprev, curr := TAIL, heads[nl];
      while curr != TAIL
        invariant Pooled(offset, dead, pool, align) && Contents() == old(Contents()) && |pool| == |old(pool)|
        invariant Enlarging(offset, dead, pool, align, nl, lists, heads, kept, rest)
        invariant curr == Follow(rest, 0) && pprev == if kept == [] then TAIL else kept[|kept| - 1]
        decreases |rest|
      {
        EnlargingSlot(offset, dead, pool, align, nl, lists, heads, kept, rest);
        var iFast := (offset[curr + 1] - offset[curr]) / align - 1;
        var next := LinkAt(offset, pool, curr);
        if iFast < nl {
          MoveToFast(nl, pprev, curr, iFast, kept, rest);
        } else {
          EnlargeKeep(offset, dead, pool, align, nl, lists, heads, kept, rest);
          kept := kept + [curr];
          pprev := curr;
        }
        rest := rest[1..];
        curr := next;
      }
      if rest != [] { EnlargingSlot(offset, dead, pool, align, nl, lists, heads, kept, rest); }
      EnlargeEnd(offset, dead, pool, align, nl, lists, heads, kept);
      fastleng := nl;
    }

    method MoveToFast(nl: nat, pprev: nat, curr: nat, iFast: nat, ghost kept: seq<nat>, ghost rest: seq<nat>)
      requires Pooled(offset, dead, pool, align) && Enlarging(offset, dead, pool, align, nl, lists, heads, kept, rest)
      requires rest != [] && curr == rest[0] && pprev == if kept == [] then TAIL else kept[|kept| - 1]
      requires curr + 1 < |offset| && iFast == SizeOf(offset, curr) / align - 1 < nl
      modifies this`pool, this`heads, this`lists
      ensures Pooled(offset, dead, pool, align) && Contents() == old(Contents()) && |pool| == |old(pool)|
      ensures Enlarging(offset, dead, pool, align, nl, lists, heads, kept, rest[1..])
    {
      hide Tiled, AllKeys, Keys, Enlarging, SetLink, LinkAt, OnlySlot;
      EnlargingSlot(offset, dead, pool, align, nl, lists, heads, kept, rest);
      ghost var pool0 := pool;
      ghost var pool1 := SetLink(offset, pool, curr, heads[iFast]);
      ghost var pool2 := if kept == [] then pool1 else SetLink(offset, pool1, pprev, LinkAt(offset, pool, curr));
      EnlargeMove(offset, dead, pool, align, nl, lists, heads, kept, rest, iFast, pool1, pool2);
      SameKeys(offset, dead, pool0, pool1, curr);
      if kept != [] { SameKeys(offset, dead, pool1, pool2, pprev); }
      var next := LinkAt(offset, pool, curr);
      pool := SetLink(offset, pool, curr, heads[iFast]);
      heads := heads[iFast := curr];
      if pprev == TAIL { heads := heads[nl := next]; } else { pool := SetLink(offset, pool, pprev, next); }
      lists := lists[nl := kept + rest[1..]][iFast := [curr] + lists[iFast]];
      assert Tiled(offset, pool, align) by {
        EnlargingTiled(offset, dead, pool, align, nl, lists, heads, kept, rest[1..]);
      }
    }

    /** `disable_freelist` */
    method DisableFreelist()
      requires Valid()
      modifies this`fastleng, this`heads, this`lists
      ensures Valid() && Contents() == old(Contents()) && fastleng == -1
    {
      fastleng, heads, lists := -1, [], [];
    }

    lemma FreeSome()
      requires Books(offset, dead, freepool, nDeleted)
      ensures freepool > 0 ==> nDeleted != 0
    {
      if nDeleted == 0 { NoneFree(offset, dead, freepool, nDeleted); }
    }

    /** `risk_slot_free` */
    method SlotFree(idx: nat)
      requires Valid() && Alive(dead, idx)
      modifies this
      ensures Valid() && fastleng == old(fastleng)
      ensures var keys, dead1 := old(Contents()) - {idx}, old(dead)[idx := true];
        if fastleng == -1 && autoCompact && old(nDeleted) + 1 >= |old(dead)| / 2 then
          Compacted(keys, dead1, Contents(), |dead|) && nDeleted == 0 == freepool
        else
          && Contents() == keys && dead == dead1 && offset == old(offset) && nDeleted == old(nDeleted) + 1
          && freepool == old(freepool) + SizeOf(offset, idx)
          && (fastleng >= 0 ==> align > 0 && AtFront(old(lists), lists, ListOf(idx), idx))
    {
      hide Tiled, AllKeys, Threaded, Compacted, FreeBytes, DeadCount;
      AlignRange();
      OnlySelf(offset, pool, align, idx);
      DropKey(offset, dead, pool, pool, idx);
      FreedBooks(offset, dead, freepool, nDeleted, idx);
      assert dead[idx := true][idx := false] == dead;
      dead := dead[idx := true];
      freepool := freepool + offset[idx + 1] - offset[idx];
      nDeleted := nDeleted + 1;
      if fastleng == -1 {
        if autoCompact && nDeleted >= |dead| / 2 { RevokeDeleted(); }
      } else {
        PutToFreelist(idx, dead[idx := false]);
      }
    }
  }

  lemma TiledOf(offset: seq<nat>, dead: seq<bool>, pool: seq<Byte>, align: nat, fastleng: nat,
                lists: seq<seq<nat>>, heads: seq<nat>)
    requires Threaded(offset, dead, pool, align, fastleng, lists, heads)
    ensures Tiled(offset, pool, align)
  {
  }

  lemma AtLeastOne(n: nat, align: nat, size: nat)
    requires 0 < n <= size && align > 0 && Whole(size, align)
    ensures align <= size
  {
    assert size == align * (size / align);
    if size < align { ModUnique(size, align, 0, size); }
  }

  function Overwrite(pool: seq<Byte>, beg: nat, b: seq<Byte>): (r: seq<Byte>)
    requires beg + |b| <= |pool|
  {
    pool[..beg] + b + pool[beg + |b|..]
  }

  lemma Overwritten(offset: seq<nat>, pool: seq<Byte>, align: nat, s: nat, b: seq<Byte>)
    requires Tiled(offset, pool, align) && s + 1 < |offset| && |b| == SizeOf(offset, s)
    ensures offset[s] + |b| == offset[s + 1] <= |pool|
    ensures var pool' := Overwrite(pool, offset[s], b);
      |pool'| == |pool| && Slot(offset, pool', s) == b && OnlySlot(offset, pool, pool', s) &&
        Tiled(offset, pool', align)
  {
    Bounds(offset, pool, align, s);
    var pool' := Overwrite(pool, offset[s], b);
    assert pool'[offset[s]..offset[s + 1]] == b;
    WritesSlot(offset, pool, align, pool', s, offset[s], offset[s + 1]);
  }

  lemma RoomFor(offset: seq<nat>, pool: seq<Byte>, align: nat, s: nat, key: Key)
    requires Tiled(offset, pool, align) && s + 1 < |offset| && SizeOf(offset, s) == AlignUp(|key| + 1, align)
    ensures offset[s] + align <= offset[s + 1] <= |pool| && LINK <= align
    ensures |key| < SizeOf(offset, s) && SizeOf(offset, s) - |key| - 1 < 256
  {
    Bounds(offset, pool, align, s);
    AlignedUp(|key| + 1, align);
  }

  lemma AtLeastZero(x: nat, a: nat)
    requires a > 0
    ensures x / a >= 0
  {
  }

  lemma MergedTiled(offset: seq<nat>, dead: seq<bool>, pool: seq<Byte>, align: nat, fastleng: nat, nl: nat, i: nat,
                    lists: seq<seq<nat>>, heads: seq<nat>)
    requires Merged(offset, dead, pool, align, fastleng, nl, i, lists, heads)
    ensures Tiled(offset, pool, align)
  {
  }

  lemma EnlargingTiled(offset: seq<nat>, dead: seq<bool>, pool: seq<Byte>, align: nat, nl: nat,
                       lists: seq<seq<nat>>, heads: seq<nat>, kept: seq<nat>, rest: seq<nat>)
    requires Enlarging(offset, dead, pool, align, nl, lists, heads, kept, rest)
    ensures Tiled(offset, pool, align)
  {
  }

  lemma OnlySelf(offset: seq<nat>, pool: seq<Byte>, align: nat, s: nat)
    requires Tiled(offset, pool, align)
    ensures OnlySlot(offset, pool, pool, s)
  {
    forall t: nat | t + 1 < |offset| ensures SameSlot(offset, pool, pool, t) { Bounds(offset, pool, align, t); }
  }
}
