/** MemPool_LockNone (src/terark/mempool_lock_none.hpp): fast lists for short blocks, the skip list
    for the others, and the end of the arena, which moves both ways.  One word is AlignSize bytes,
    and a link is one word. */
module BestFit {

  import opened Arena
  import opened LinkedLists
  import opened ThreadCache
  import opened SkipList

  /** The block that a search looked at last, if it looked at one. */
  ghost predicate Seen(huge: seq<Block>, m: seq<nat>, n2: nat, c: nat) {
    n2 != TAIL ==> c < |huge| && n2 == huge[c].pos < |m| && m[n2] == huge[c].len
  }

  // ------------------------------------------------------------------ the arena and its lists

  ghost predicate Owners(d: Division) {
    forall o :: o in d ==>
      match o
      case Live(p) => d[o].lo == p < d[o].hi
      case Free(t, p) => t == 0 && d[o].lo == p < d[o].hi
      case Hot(_) => false
      case Granted(t) => t == 0 && d[o].lo < d[o].hi
  }

  ghost predicate Parted(d: Division, n: nat) {
    Tiles(d, n) && Owners(d) && n <= TAIL
  }

  ghost function Lists(fast: seq<seq<nat>>, huge: seq<Block>): Cache {
    Cache(0, 0, fast, huge, 0, 0, 0)
  }

  ghost predicate Listing(d: Division, fmax: nat, fast: seq<seq<nat>>, huge: seq<Block>) {
    RECORD <= fmax && Listed(d, 0, fmax, Lists(fast, huge))
  }

  /** A block at the start of another owner's span. */
  lemma OnlyOwner(d: Division, n: nat, o: Owner, o': Owner)
    requires Parted(d, n) && o in d && o' != o && (o' == Live(d[o].lo) || o' == Free(0, d[o].lo))
    ensures o' !in d
  {
    if o' in d { StartsDiffer(d, n, o, o'); }
  }

  lemma GiveParted(d: Division, n: nat, o: Owner, o': Owner)
    requires Parted(d, n) && o in d && o' != o && (o' == Live(d[o].lo) || o' == Free(0, d[o].lo))
    ensures o' !in d && Parted(Give(d, o, o'), n)
  {
    OnlyOwner(d, n, o, o');
    hide Tiles;
    GiveTiles(d, n, o, o');
  }

  /** The spans of other owners. */
  lemma OtherSpan(d: Division, n: nat, o: Owner, w: nat, o': Owner)
    requires Tiles(d, n) && o in d && o' in d && Within(d[o], w) && o' != o
    ensures !Within(d[o'], w)
  {
    Partition(d, n, w);
  }

  lemma HugeBlock(d: Division, fmax: nat, fast: seq<seq<nat>>, huge: seq<Block>, i: nat)
    requires Listing(d, fmax, fast, huge) && i < |huge|
    ensures Free(0, huge[i].pos) in d && d[Free(0, huge[i].pos)] == Span(huge[i].pos, huge[i].pos + huge[i].len)
    ensures fmax < huge[i].len
  {
    assert huge[i] in huge;
  }

  lemma ApartHuge(d: Division, n: nat, fmax: nat, fast: seq<seq<nat>>, huge: seq<Block>)
    requires Parted(d, n) && Listing(d, fmax, fast, huge)
    ensures Apart(huge)
  {
    hide Listing, Tiles;
    assert RECORD <= fmax by { Minimum(d, fmax, fast, huge); }
    forall i, j | 0 <= i < j < |huge|
      ensures huge[i].pos + RECORD <= huge[j].pos || huge[j].pos + RECORD <= huge[i].pos
    {
      HugeBlock(d, fmax, fast, huge, i);
      HugeBlock(d, fmax, fast, huge, j);
      HugeDiffer(d, fmax, fast, huge, i, j);
      StartsDiffer(d, n, Free(0, huge[i].pos), Free(0, huge[j].pos));
    }
  }

  lemma Minimum(d: Division, fmax: nat, fast: seq<seq<nat>>, huge: seq<Block>)
    requires Listing(d, fmax, fast, huge)
    ensures RECORD <= fmax == |fast|
  {
  }

  lemma HugeDiffer(d: Division, fmax: nat, fast: seq<seq<nat>>, huge: seq<Block>, i: nat, j: nat)
    requires Listing(d, fmax, fast, huge) && i < j < |huge|
    ensures huge[i].pos != huge[j].pos
  {
  }

  /** Words of live blocks and of short free blocks are in no record. */
  lemma OffOwner(d: Division, n: nat, fmax: nat, fast: seq<seq<nat>>, huge: seq<Block>, o: Owner, w: nat)
    requires Parted(d, n) && Listing(d, fmax, fast, huge) && o in d && Within(d[o], w)
    requires o.Free? ==> Len(d[o]) <= fmax
    ensures Off(huge, w)
  {
    hide Listing, Parted;
    assert RECORD <= fmax by { Minimum(d, fmax, fast, huge); }
    assert Tiles(d, n) by { PartedTiles(d, n); }
    hide Tiles;
    forall i | 0 <= i < |huge| ensures !(huge[i].pos <= w < huge[i].pos + RECORD) {
      HugeBlock(d, fmax, fast, huge, i);
      OtherSpan(d, n, o, w, Free(0, huge[i].pos));
    }
  }

  lemma PartedTiles(d: Division, n: nat)
    requires Parted(d, n)
    ensures Tiles(d, n)
  {
  }

  /** The words of free blocks are as they were. */
  ghost predicate FreeSame(d: Division, m: seq<nat>, m': seq<nat>) {
    forall p {:trigger Free(0, p)} :: Free(0, p) in d ==>
      d[Free(0, p)].lo == p && d[Free(0, p)].hi <= |m| && d[Free(0, p)].hi <= |m'| && SameIn(d[Free(0, p)], m, m')
  }

  lemma FastMove(l: seq<nat>, head: nat, m: seq<nat>, m': seq<nat>)
    requires FastChain(l, head, m) && forall i :: 0 <= i < |l| && l[i] < |m| ==> l[i] < |m'| && m'[l[i]] == m[l[i]]
    ensures FastChain(l, head, m')
  {
  }

  lemma FastEntry(d: Division, fmax: nat, fast: seq<seq<nat>>, huge: seq<Block>, i: nat, j: nat)
    requires Listing(d, fmax, fast, huge) && i < |fast| && j < |fast[i]|
    ensures Free(0, fast[i][j]) in d && Len(d[Free(0, fast[i][j])]) == i + 1 && i < fmax
  {
    assert fast[i][j] in fast[i];
  }

  /** The fast lists survive writes into the records of huge blocks. */
  lemma ChainsOff(d: Division, n: nat, fmax: nat, fast: seq<seq<nat>>, huge: seq<Block>, heads: seq<nat>, m: seq<nat>,
                  m': seq<nat>)
    requires Parted(d, n) && Listing(d, fmax, fast, huge) && Chains(fast, heads, m) && |m'| == |m|
    requires forall w :: 0 <= w < |m| && Off(huge, w) ==> m'[w] == m[w]
    ensures Chains(fast, heads, m')
  {
    hide Listing, Off, FastChain;
    forall i | 0 <= i < |fast| ensures FastChain(fast[i], heads[i], m') {
      forall j | 0 <= j < |fast[i]| && fast[i][j] < |m| ensures m'[fast[i][j]] == m[fast[i][j]] {
        FastEntry(d, fmax, fast, huge, i, j);
        OffOwner(d, n, fmax, fast, huge, Free(0, fast[i][j]), fast[i][j]);
      }
      FastMove(fast[i], heads[i], m, m');
    }
  }

  lemma ChainsFrame(d: Division, fmax: nat, fast: seq<seq<nat>>, huge: seq<Block>, heads: seq<nat>, m: seq<nat>,
                    m': seq<nat>)
    requires Listing(d, fmax, fast, huge) && Chains(fast, heads, m) && FreeSame(d, m, m')
    ensures Chains(fast, heads, m')
  {
    hide Listing, FastChain;
    forall i | 0 <= i < |fast| ensures FastChain(fast[i], heads[i], m') {
      forall j | 0 <= j < |fast[i]| && fast[i][j] < |m| ensures fast[i][j] < |m'| && m'[fast[i][j]] == m[fast[i][j]] {
        FastEntry(d, fmax, fast, huge, i, j);
      }
      FastMove(fast[i], heads[i], m, m');
    }
  }

  /** The skip list survives writes elsewhere, and the growing and shrinking of the arena. */
  lemma LinkedFrame(huge: seq<Block>, ht: Levels, head: seq<nat>, height: nat, m: seq<nat>, m': seq<nat>)
    requires Linked(huge, ht, head, height, m)
    requires Room(huge, m') && forall i, w {:trigger huge[i], m'[w]} ::
      0 <= i < |huge| && huge[i].pos <= w < huge[i].pos + RECORD && w < |m| ==> m'[w] == m[w]
    ensures Linked(huge, ht, head, height, m')
  {
    hide FollowHuge, NextAt;
    forall k: nat | k < LEVELS ensures LevelOk(huge, ht, head, m', k) {
      assert LevelOk(huge, ht, head, m, k);
      forall i | OnLevel(ht, i, k) ensures Leads(huge, ht, head, m', i, k) {
        LeadsAt(huge, ht, head, m, i, k);
      }
      LeadsAll(huge, ht, head, m', k);
    }
  }

  lemma ListsFrame(d: Division, fmax: nat, fast: seq<seq<nat>>, heads: seq<nat>, huge: seq<Block>, ht: Levels,
                   head: seq<nat>, height: nat,
                   m: seq<nat>, m': seq<nat>)
    requires Listing(d, fmax, fast, huge) && FreeSame(d, m, m')
    requires Chains(fast, heads, m) && Linked(huge, ht, head, height, m)
    ensures Chains(fast, heads, m') && Linked(huge, ht, head, height, m')
  {
    ChainsFrame(d, fmax, fast, huge, heads, m, m');
    hide Listing, Linked, Chains;
    assert RECORD <= fmax by { Minimum(d, fmax, fast, huge); }
    forall i, w | 0 <= i < |huge| && huge[i].pos <= w < huge[i].pos + RECORD
      ensures huge[i].pos + RECORD <= |m'| && (w < |m| ==> m'[w] == m[w])
    {
      HugeBlock(d, fmax, fast, huge, i);
      assert SameIn(d[Free(0, huge[i].pos)], m, m');
    }
    forall i | 0 <= i < |huge| ensures huge[i].pos + RECORD <= |m'| {
      HugeBlock(d, fmax, fast, huge, i);
    }
    LinkedFrame(huge, ht, head, height, m, m');
  }

  // ------------------------------------------------------------------ what a caller sees

  /** Live blocks other than those at `but` keep their place and their words. */
  ghost predicate KeepsLive(d: Division, m: seq<nat>, d': Division, m': seq<nat>, but: set<nat>) {
    forall p {:trigger Live(p)} :: p !in but ==>
      && (Live(p) in d <==> Live(p) in d')
      && (Live(p) in d ==>
            d'[Live(p)] == d[Live(p)] && d[Live(p)].hi <= |m| && d[Live(p)].hi <= |m'| && SameIn(d[Live(p)], m, m'))
  }

  lemma KeepsLiveTwice(d: Division, m: seq<nat>, d1: Division, m1: seq<nat>, d2: Division, m2: seq<nat>, but: set<nat>)
    requires KeepsLive(d, m, d1, m1, but) && KeepsLive(d1, m1, d2, m2, but)
    ensures KeepsLive(d, m, d2, m2, but)
  {
  }

  // ------------------------------------------------------------------ putting a block on a list

  lemma GiveListed(d: Division, n: nat, fmax: nat, fast: seq<seq<nat>>, huge: seq<Block>, o: Owner, pos: nat, len: nat)
    requires Parted(d, n) && Listing(d, fmax, fast, huge)
    requires o in d && !o.Free? && d[o] == Span(pos, pos + len)
    ensures Free(0, pos) !in d && Parted(Give(d, o, Free(0, pos)), n) && 0 < len
    ensures len <= fmax ==> Listing(Give(d, o, Free(0, pos)), fmax, fast[len - 1 := [pos] + fast[len - 1]], huge)
    ensures len > fmax ==> forall b :: 0 <= b <= |huge| ==>
      Listing(Give(d, o, Free(0, pos)), fmax, fast, Inserted(huge, b, Block(pos, len)))
  {
    GiveParted(d, n, o, Free(0, pos));
    hide Parted;
    var d' := Give(d, o, Free(0, pos));
    assert 0 < len by { OwnerLen(d, n, o); }
    PushListed(d, d', 0, fmax, Lists(fast, huge), pos, len);
    if len > fmax {
      forall b | 0 <= b <= |huge| ensures Listing(d', fmax, fast, Inserted(huge, b, Block(pos, len))) {
        ReorderListed(d', fmax, fast, huge, b, Block(pos, len));
      }
    }
  }

  lemma OwnerLen(d: Division, n: nat, o: Owner)
    requires Parted(d, n) && o in d
    ensures d[o].lo < d[o].hi <= n <= TAIL
  {
    SpanBounds(d, n, o);
  }

  lemma SameBlocks(huge: seq<Block>, b: nat, x: Block)
    requires b <= |huge|
    ensures forall y :: y in Inserted(huge, b, x) <==> y in [x] + huge
  {
    assert huge == huge[..b] + huge[b..];
    assert forall y :: y in huge <==> y in huge[..b] || y in huge[b..];
  }

  lemma {:induction false} SameStarts(huge: seq<Block>, b: nat, x: Block)
    requires b <= |huge|
    ensures NoDupBlocks(Inserted(huge, b, x)) <==> NoDupBlocks([x] + huge)
  {
    var r, r' := [x] + huge, Inserted(huge, b, x);
    if NoDupBlocks(r) {
      forall i, j | 0 <= i < j < |r'| ensures r'[i].pos != r'[j].pos {
        var i0 := if i == b then 0 else if i < b then i + 1 else i;
        var j0 := if j == b then 0 else if j < b then j + 1 else j;
        assert r[i0] == r'[i] && r[j0] == r'[j];
      }
    }
    if NoDupBlocks(r') {
      forall i, j | 0 <= i < j < |r| ensures r[i].pos != r[j].pos {
        var i0 := if i == 0 then b else if i <= b then i - 1 else i;
        var j0 := if j <= b then j - 1 else j;
        assert r'[i0] == r[i] && r'[j0] == r[j];
      }
    }
  }

  /** The order of the huge list does not matter to what it lists. */
  lemma ReorderListed(d: Division, fmax: nat, fast: seq<seq<nat>>, huge: seq<Block>, b: nat, x: Block)
    requires b <= |huge|
    ensures Listing(d, fmax, fast, [x] + huge) <==> Listing(d, fmax, fast, Inserted(huge, b, x))
  {
    SameBlocks(huge, b, x);
    SameStarts(huge, b, x);
    hide NoDupBlocks, Inserted, FastListed;
    SameListed(d, fmax, [x] + huge, Inserted(huge, b, x));
    SameListed(d, fmax, Inserted(huge, b, x), [x] + huge);
    hide HugeListed;
  }

  lemma SameListed(d: Division, fmax: nat, r: seq<Block>, r': seq<Block>)
    requires forall y :: y in r <==> y in r'
    requires NoDupBlocks(r) <==> NoDupBlocks(r')
    ensures HugeListed(d, 0, fmax, r) ==> HugeListed(d, 0, fmax, r')
  {
    hide NoDupBlocks;
  }

  // ------------------------------------------------------------------ taking blocks, and the end of the arena

  lemma TakeFast(d: Division, n: nat, fmax: nat, fast: seq<seq<nat>>, huge: seq<Block>, len: nat)
    requires Parted(d, n) && Listing(d, fmax, fast, huge) && 0 < len <= fmax && |fast| == fmax && fast[len - 1] != []
    ensures var p := fast[len - 1][0]; var d' := Give(d, Free(0, p), Live(p));
      && Free(0, p) in d && d[Free(0, p)] == Span(p, p + len) && Live(p) !in d
      && Parted(d', n) && Listing(d', fmax, fast[len - 1 := fast[len - 1][1..]], huge)
  {
    var p := fast[len - 1][0];
    FastEntry(d, fmax, fast, huge, len - 1, 0);
    assert d[Free(0, p)].lo == p && p < d[Free(0, p)].hi;
    GiveParted(d, n, Free(0, p), Live(p));
    hide Parted;
    PopFastListed(d, Give(d, Free(0, p), Live(p)), 0, fmax, Lists(fast, huge), len);
  }

  lemma TakeHuge(d: Division, n: nat, fmax: nat, fast: seq<seq<nat>>, huge: seq<Block>, b: nat)
    requires Parted(d, n) && Listing(d, fmax, fast, huge) && b < |huge|
    ensures var p := huge[b].pos; var d' := Give(d, Free(0, p), Live(p));
      && Free(0, p) in d && d[Free(0, p)] == Span(p, p + huge[b].len) && Live(p) !in d
      && Parted(d', n) && Listing(d', fmax, fast, huge[..b] + huge[b + 1..])
  {
    var p := huge[b].pos;
    HugeBlock(d, fmax, fast, huge, b);
    GiveParted(d, n, Free(0, p), Live(p));
    hide Parted;
    var huge0 := huge[..b] + huge[b + 1..];
    WithoutBlock(huge, b);
    ReorderListed(d, fmax, fast, huge0, b, huge[b]);
    var c := Lists(fast, [huge[b]] + huge0);
    PopHugeListed(d, Give(d, Free(0, p), Live(p)), 0, fmax, c);
    assert c.huge[1..] == huge0;
  }

  lemma WithoutBlock(huge: seq<Block>, b: nat)
    requires b < |huge|
    ensures Inserted(huge[..b] + huge[b + 1..], b, huge[b]) == huge
  {
  }

  /** The upper part of a live block is taken away. */
  lemma CutParted(d: Division, n: nat, fmax: nat, fast: seq<seq<nat>>, huge: seq<Block>, p: nat, len: nat)
    requires Parted(d, n) && Listing(d, fmax, fast, huge) && Live(p) in d && Granted(0) !in d
    requires 0 < len && p + len < d[Live(p)].hi
    ensures var d' := Cut(d, Live(p), p + len, Granted(0));
      && Parted(d', n) && Listing(d', fmax, fast, huge)
      && d'[Live(p)] == Span(p, p + len) && d'[Granted(0)] == Span(p + len, d[Live(p)].hi)
  {
    hide Tiles, Listed;
    var d' := Cut(d, Live(p), p + len, Granted(0));
    assert d[Live(p)].lo == p < d[Live(p)].hi;
    CutTiles(d, n, Live(p), p + len, Granted(0));
    assert Owners(d');
    assert SameFree(d, d', 0, -1);
    ListedFrame(d, d', 0, fmax, Lists(fast, huge));
  }

  /** The last span of the arena is given up. */
  lemma DropParted(d: Division, n: nat, fmax: nat, fast: seq<seq<nat>>, huge: seq<Block>, o: Owner)
    requires Parted(d, n) && Listing(d, fmax, fast, huge) && o in d && !o.Free? && d[o].hi == n
    ensures Parted(d - {o}, d[o].lo) && Listing(d - {o}, fmax, fast, huge)
    ensures forall p :: p in d && p != o ==> d[p].hi <= d[o].lo
  {
    forall p | p in d && p != o ensures d[p].hi <= d[o].lo {
      OwnerLen(d, n, p);
      StartsDiffer(d, n, o, p);
    }
    DropTiling(d, n, o);
    hide Tiles;
    ListedFrame(d, d - {o}, 0, fmax, Lists(fast, huge));
  }

  lemma DropTiling(d: Division, n: nat, o: Owner)
    requires Tiles(d, n) && o in d && d[o].lo < d[o].hi == n && forall p :: p in d && p != o ==> d[p].hi <= d[o].lo
    ensures Tiles(d - {o}, d[o].lo) && d[o].lo < n
  {
    var tag :| |tag| == n && OwnersFit(d, tag);
    var d', tag' := d - {o}, tag[..d[o].lo];
    forall u | 0 <= u < |tag'| ensures tag'[u] in d' && Within(d'[tag'[u]], u) {
      assert Within(d[tag[u]], u);
    }
    assert OwnersFit(d', tag');
  }

  lemma GrowParted(d: Division, n: nat, fmax: nat, fast: seq<seq<nat>>, huge: seq<Block>, len: nat)
    requires Parted(d, n) && Listing(d, fmax, fast, huge) && 0 < len && n + len <= TAIL
    ensures Live(n) !in d && Parted(d[Live(n) := Span(n, n + len)], n + len)
    ensures Listing(d[Live(n) := Span(n, n + len)], fmax, fast, huge)
  {
    if Live(n) in d { OwnerLen(d, n, Live(n)); }
    GrowTiles(d, n, len, Live(n));
    hide Tiles;
    ListedFrame(d, d[Live(n) := Span(n, n + len)], 0, fmax, Lists(fast, huge));
  }

  /** The last block of the arena gets another length. */
  lemma StretchParted(d: Division, n: nat, fmax: nat, fast: seq<seq<nat>>, huge: seq<Block>, p: nat, len: nat)
    requires Parted(d, n) && Listing(d, fmax, fast, huge) && Live(p) in d && d[Live(p)].hi == n && 0 < len &&
      p + len <= TAIL
    ensures Parted(d[Live(p) := Span(p, p + len)], p + len) && Listing(d[Live(p) := Span(p, p + len)], fmax, fast, huge)
    ensures forall o :: o in d && o != Live(p) ==> d[o].hi <= p
  {
    DropParted(d, n, fmax, fast, huge, Live(p));
    var d1 := d - {Live(p)};
    GrowParted(d1, p, fmax, fast, huge, len);
    hide Tiles, Listed;
    assert d1[Live(p) := Span(p, p + len)] == d[Live(p) := Span(p, p + len)];
  }

  /** The division after `alloc`: a free block of which the front is taken, or the end of the arena.
      What is left of the block is a free block, unless it is the end of the arena. */
  ghost function Carved(d: Division, n: nat, pos: nat, req: nat): Division {
    if Free(0, pos) in d then
      var hi := d[Free(0, pos)].hi;
      var d1 := (d - {Free(0, pos)})[Live(pos) := Span(pos, pos + req)];
      if hi == pos + req || hi == n then d1 else d1[Free(0, pos + req) := Span(pos + req, hi)]
    else
      d[Live(pos) := Span(pos, pos + req)]
  }

  /** `pos` is a shortest free block of at least `req` words. */
  ghost predicate BestOf(d: Division, pos: nat, req: nat) {
    && Free(0, pos) in d && Len(d[Free(0, pos)]) >= req
    && (forall q :: Free(0, q) in d && Len(d[Free(0, q)]) >= req ==> Len(d[Free(0, pos)]) <= Len(d[Free(0, q)]))
  }

  ghost predicate NoneFits(d: Division, req: nat) {
    forall q :: Free(0, q) in d ==> Len(d[Free(0, q)]) < req
  }

  lemma Fitting(d: Division, fmax: nat, fast: seq<seq<nat>>, huge: seq<Block>, req: nat)
    requires Listing(d, fmax, fast, huge) && Ordered(huge) && req > fmax
    ensures var b := Below(huge, req); if b < |huge| then BestOf(d, huge[b].pos, req) else NoneFits(d, req)
  {
    var b := Below(huge, req);
    forall q | Free(0, q) in d && Len(d[Free(0, q)]) >= req
      ensures b < |huge| && huge[b].len <= Len(d[Free(0, q)])
    {
      var x := Block(q, Len(d[Free(0, q)]));
      assert x in huge;
      var i :| 0 <= i < |huge| && huge[i] == x;
      AfterBelow(huge, req, i);
    }
    if b < |huge| { HugeBlock(d, fmax, fast, huge, b); }
  }

  lemma FreshBlock(d': Division, n: nat, fmax: nat, fast: seq<seq<nat>>, huge: seq<Block>, x: Block, m: seq<nat>)
    requires Parted(d', n) && n == |m| && x.len > fmax >= RECORD
    requires Listing(d', fmax, fast, Inserted(huge, Below(huge, x.len), x))
    requires Free(0, x.pos) in d' && d'[Free(0, x.pos)] == Span(x.pos, x.pos + x.len)
    ensures Fresh(huge, Below(huge, x.len), x, m)
  {
    ApartHuge(d', n, fmax, fast, Inserted(huge, Below(huge, x.len), x));
    OwnerLen(d', n, Free(0, x.pos));
  }

  /** A short block on its list, its first word the link. */
  lemma PushFastStored(d: Division, n: nat, fmax: nat, fast: seq<seq<nat>>, heads: seq<nat>, huge: seq<Block>,
                       ht: Levels, head: seq<nat>, height: nat,
                       m: seq<nat>, o: Owner, pos: nat, len: nat)
    requires Parted(d, n) && n == |m| && Listing(d, fmax, fast, huge) && Chains(fast, heads, m) &&
      Linked(huge, ht, head, height, m)
    requires o in d && !o.Free? && d[o] == Span(pos, pos + len) && 0 < len <= fmax
    ensures pos < |m| && len <= |heads| == |fast|
    ensures var m' := m[pos := heads[len - 1]];
      Chains(fast[len - 1 := [pos] + fast[len - 1]], heads[len - 1 := pos], m') && Linked(huge, ht, head, height, m')
  {
    hide Parted, Listing, Linked, FastChain;
    OwnerLen(d, n, o);
    Minimum(d, fmax, fast, huge);
    var m' := m[pos := heads[len - 1]];
    FreeSameWrite(d, n, m, o, pos, heads[len - 1]);
    ListsFrame(d, fmax, fast, heads, huge, ht, head, height, m, m');
    FastCons(fast[len - 1], heads[len - 1], m', pos);
  }

  lemma FreeSameWrite(d: Division, n: nat, m: seq<nat>, o: Owner, w: nat, v: nat)
    requires Parted(d, n) && n == |m| && o in d && !o.Free? && Within(d[o], w) && w < |m|
    ensures FreeSame(d, m, m[w := v])
  {
    forall p | Free(0, p) in d
      ensures d[Free(0, p)].lo == p && d[Free(0, p)].hi <= |m| && SameIn(d[Free(0, p)], m, m[w := v])
    {
      OwnerLen(d, n, Free(0, p));
      OtherSpan(d, n, o, w, Free(0, p));
    }
  }

  lemma ShrinkSame(d: Division, pos: nat, m: seq<nat>)
    requires pos <= |m| && Parted(d, pos)
    ensures FreeSame(d, m, m[..pos])
  {
    OwnersBound(d, pos);
  }

  lemma GrowSame(d: Division, m: seq<nat>, fill: seq<nat>)
    requires Parted(d, |m|)
    ensures FreeSame(d, m, m + fill)
  {
    forall p | Free(0, p) in d
      ensures d[Free(0, p)].lo == p && d[Free(0, p)].hi <= |m| && SameIn(d[Free(0, p)], m, m + fill)
    {
      OwnerLen(d, |m|, Free(0, p));
    }
  }

  lemma OwnersBound(d: Division, n: nat)
    requires Parted(d, n)
    ensures forall o :: o in d ==> d[o].lo < d[o].hi <= n
  {
    forall o | o in d ensures d[o].lo < d[o].hi <= n { OwnerLen(d, n, o); }
  }

  lemma NotAtEnd(d: Division, n: nat)
    requires Parted(d, n)
    ensures Live(n) !in d && Free(0, n) !in d
  {
    OwnersBound(d, n);
  }

  lemma OffKeeps(d: Division, n: nat, fmax: nat, fast: seq<seq<nat>>, huge: seq<Block>, res: nat, m: seq<nat>,
                 m': seq<nat>)
    requires Parted(d, n) && Listing(d, fmax, fast, huge) && |m'| == |m| == n && Free(0, res) in d
    requires forall w :: 0 <= w < |m| && Off(huge, w) ==> m'[w] == m[w]
    ensures KeepsLive(d, m, Give(d, Free(0, res), Live(res)), m', {res})
  {
    hide Listing, Off, Parted;
    OwnersBound(d, n);
    forall p | Live(p) in d ensures SameIn(d[Live(p)], m, m') {
      forall w | d[Live(p)].lo <= w < d[Live(p)].hi ensures m'[w] == m[w] {
        OffOwner(d, n, fmax, fast, huge, Live(p), w);
      }
    }
  }

  lemma KeepsSelf(d: Division, n: nat, m: seq<nat>)
    requires Parted(d, n) && n == |m|
    ensures KeepsLive(d, m, d, m, {})
  {
    OwnersBound(d, n);
  }

  lemma CutKeeps(d: Division, n: nat, pos: nat, mid: nat, m: seq<nat>)
    requires Parted(d, n) && n == |m| && Live(pos) in d
    ensures KeepsLive(d, m, Cut(d, Live(pos), mid, Granted(0)), m, {pos})
  {
    OwnersBound(d, n);
  }

  /** A live block with only its first `req` words; the others are free, or no longer in the arena. */
  ghost function Lowered(d: Division, n: nat, pos: nat, req: nat): Division
    requires Live(pos) in d
  {
    var hi := d[Live(pos)].hi;
    var d1 := d[Live(pos) := Span(pos, pos + req)];
    if hi == n then d1 else d1[Free(0, pos + req) := Span(pos + req, hi)]
  }

  lemma LoweredForm(d: Division, d': Division, n: nat, pos: nat, req: nat)
    requires Live(pos) in d && d[Live(pos)].lo == pos && Granted(0) !in d
    requires var d1 := Cut(d, Live(pos), pos + req, Granted(0));
      d' == if d[Live(pos)].hi == n then d1 - {Granted(0)} else Give(d1, Granted(0), Free(0, pos + req))
    ensures d' == Lowered(d, n, pos, req)
  {
  }

  lemma CarvedForm(d: Division, n: nat, pos: nat, req: nat)
    requires Free(0, pos) in d && d[Free(0, pos)].lo == pos && d[Free(0, pos)].hi >= pos + req
    ensures var d1 := Give(d, Free(0, pos), Live(pos));
      Carved(d, n, pos, req) == if d[Free(0, pos)].hi == pos + req then d1 else Lowered(d1, n, pos, req)
  {
    var d1 := Give(d, Free(0, pos), Live(pos));
    if d[Free(0, pos)].hi == pos + req {
      assert d1 == (d - {Free(0, pos)})[Live(pos) := Span(pos, pos + req)];
    } else {
      assert d1[Live(pos) := Span(pos, pos + req)] == (d - {Free(0, pos)})[Live(pos) := Span(pos, pos + req)];
    }
  }

  /** A block inside the arena is still inside it when another one has been taken: the end of the
      arena comes down only to the end of the block taken. */
  lemma StillInside(d: Division, n: nat, d': Division, n': nat, pos: nat, len: nat, r: nat, req: nat)
    requires Parted(d, n) && Parted(d', n') && d' == Carved(d, n, r, req) && Live(r) !in d && 0 < req
    requires Live(pos) in d && d[Live(pos)] == Span(pos, pos + len) && pos + len < n
    ensures pos + len < n'
  {
    OwnersBound(d', n');
    PartedTiles(d, n);
    var tag :| |tag| == n && OwnersFit(d, tag);
    var o := tag[pos + len];
    assert o in d && Within(d[o], pos + len);
    if o == Free(0, r) {
      assert Live(r) in d' && d'[Live(r)] == Span(r, r + req);
      OwnersApart(d, n, Live(pos), o);
    } else {
      if o == Free(0, r + req) && Free(0, r) in d && d[Free(0, r)].hi > r + req {
        PartedStarts(d, n, o);
        PartedStarts(d, n, Free(0, r));
        OwnersApart(d, n, Free(0, r), o);
      }
      assert o in d' && d'[o] == d[o];
    }
  }

  lemma PartedStarts(d: Division, n: nat, o: Owner)
    requires Parted(d, n) && o in d && o.Free?
    ensures d[o].lo == o.pos
  {
  }

  lemma LiveKept(d: Division, m: seq<nat>, d': Division, m': seq<nat>, pos: nat, r: nat)
    requires KeepsLive(d, m, d', m', {r}) && Live(pos) in d && Live(r) !in d
    ensures Live(pos) in d' && d'[Live(pos)] == d[Live(pos)] && SameIn(d[Live(pos)], m, m') && pos != r
    ensures d[Live(pos)].hi <= |m| && d[Live(pos)].hi <= |m'|
  {
  }

  lemma OwnersApart(d: Division, n: nat, o: Owner, o': Owner)
    requires Parted(d, n) && o in d && o' in d && o != o'
    ensures d[o].hi <= d[o'].lo || d[o'].hi <= d[o].lo
  {
    OwnersBound(d, n);
    PartedTiles(d, n);
    StartsDiffer(d, n, o, o');
  }

  /** The division after `alloc3`: the last block of the arena stretches or shrinks with it, another
      one gives up its end, or is free once its words are in the block at `r`. */
  ghost function Resized(d: Division, n: nat, pos: nat, oldlen: nat, newlen: nat, r: nat): Division {
    if pos + oldlen == n then d[Live(pos) := Span(pos, pos + newlen)]
    else if newlen < oldlen then
      d[Live(pos) := Span(pos, pos + newlen)][Free(0, pos + newlen) := Span(pos + newlen, pos + oldlen)]
    else if newlen == oldlen then d
    else (Carved(d, n, r, newlen) - {Live(pos)})[Free(0, pos) := Span(pos, pos + oldlen)]
  }

  lemma ResizedMoved(d: Division, n: nat, d1: Division, pos: nat, oldlen: nat, newlen: nat, r: nat)
    requires pos + oldlen != n && newlen > oldlen && d1 == Carved(d, n, r, newlen)
    requires Live(pos) in d1 && d1[Live(pos)] == Span(pos, pos + oldlen)
    ensures Resized(d, n, pos, oldlen, newlen, r) == Give(d1, Live(pos), Free(0, pos))
  {
  }

  lemma ResizedLess(d: Division, n: nat, pos: nat, oldlen: nat, newlen: nat)
    requires pos + oldlen != n && newlen < oldlen && Live(pos) in d && d[Live(pos)] == Span(pos, pos + oldlen)
    ensures Resized(d, n, pos, oldlen, newlen, pos) == Lowered(d, n, pos, newlen)
  {
  }

  ghost predicate SameWords(m: seq<nat>, p: nat, m': seq<nat>, q: nat, len: nat) {
    p + len <= |m| && q + len <= |m'| && m'[q..q + len] == m[p..p + len]
  }

  ghost predicate ExactOf(d: Division, pos: nat, req: nat) {
    Free(0, pos) in d && Len(d[Free(0, pos)]) == req
  }

  ghost predicate NoneExact(d: Division, req: nat) {
    forall q :: Free(0, q) in d ==> Len(d[Free(0, q)]) != req
  }

  /** What the head of a fast list says. */
  lemma HeadFacts(d: Division, n: nat, fmax: nat, fast: seq<seq<nat>>, huge: seq<Block>, heads: seq<nat>, m: seq<nat>,
                  req: nat)
    requires Parted(d, n) && n == |m| && Listing(d, fmax, fast, huge) && Chains(fast, heads, m) && 0 < req <= fmax
    ensures |heads| == |fast| == fmax
    ensures heads[req - 1] != TAIL <==> fast[req - 1] != []
    ensures fast[req - 1] == [] ==> NoneExact(d, req)
  {
    hide Tiles;
    var l := fast[req - 1];
    assert FastChain(l, heads[req - 1], m);
    if l == [] {
      forall q | Free(0, q) in d ensures Len(d[Free(0, q)]) != req { assert q !in l; }
    }
  }

  lemma GiveKeeps(d: Division, n: nat, pos: nat, m: seq<nat>)
    requires Parted(d, n) && n == |m| && Free(0, pos) in d
    ensures KeepsLive(d, m, Give(d, Free(0, pos), Live(pos)), m, {pos})
  {
    OwnersBound(d, n);
  }

  lemma GrowKeeps(d: Division, m: seq<nat>, d': Division, m': seq<nat>, req: nat)
    requires Parted(d, |m|) && |m'| == |m| + req && m'[..|m|] == m
    requires Free(0, |m|) !in d && d' == d[Live(|m|) := Span(|m|, |m| + req)]
    ensures KeepsLive(d, m, d', m', {|m|}) && d' == Carved(d, |m|, |m|, req)
  {
    OwnersBound(d, |m|);
    forall w | 0 <= w < |m| ensures m'[w] == m[w] { assert m'[..|m|][w] == m'[w]; }
  }

  lemma CarvedLive(d: Division, n: nat, pos: nat, req: nat)
    ensures Live(pos) in Carved(d, n, pos, req) && Carved(d, n, pos, req)[Live(pos)] == Span(pos, pos + req)
  {
  }

  lemma CopySame(d: Division, m: seq<nat>, m': seq<nat>, dst: nat, len: nat)
    requires Parted(d, |m|) && |m'| == |m| && Live(dst) in d && dst + len <= d[Live(dst)].hi
    requires forall w :: 0 <= w < |m| && !(dst <= w < dst + len) ==> m'[w] == m[w]
    ensures FreeSame(d, m, m')
  {
    forall p: nat | Free(0, p) in d
      ensures d[Free(0, p)].lo == p && d[Free(0, p)].hi <= |m| &&
        SameIn(d[Free(0, p)], m, m')
    {
      OwnersBound(d, |m|);
      LiveStart(d, |m|, dst);
      forall w | p <= w < d[Free(0, p)].hi ensures m'[w] == m[w] {
        if dst <= w < dst + len { OtherSpan(d, |m|, Live(dst), w, Free(0, p)); }
      }
    }
  }

  lemma LiveStart(d: Division, n: nat, p: nat)
    requires Parted(d, n) && Live(p) in d
    ensures d[Live(p)].lo == p
  {
  }

  lemma StretchSame(d': Division, m: seq<nat>, m': seq<nat>, pos: nat)
    requires pos <= |m| && pos <= |m'| && Parted(d', |m'|) && forall o :: o in d' && o != Live(pos) ==> d'[o].hi <= pos
    requires forall w :: 0 <= w < pos ==> m'[w] == m[w]
    ensures FreeSame(d', m, m')
  {
  }

  lemma KeepsMore(d: Division, m: seq<nat>, d': Division, m': seq<nat>, but: set<nat>, but': set<nat>)
    requires KeepsLive(d, m, d', m', but) && but <= but'
    ensures KeepsLive(d, m, d', m', but')
  {
  }

  lemma CopyKeeps(d: Division, m: seq<nat>, m': seq<nat>, dst: nat, len: nat)
    requires Parted(d, |m|) && |m'| == |m| && Live(dst) in d && dst + len <= d[Live(dst)].hi
    requires forall w :: 0 <= w < |m| && !(dst <= w < dst + len) ==> m'[w] == m[w]
    ensures KeepsLive(d, m, d, m', {dst})
  {
    OwnersBound(d, |m|);
    LiveStart(d, |m|, dst);
    forall p | Live(p) in d && p != dst ensures SameIn(d[Live(p)], m, m') {
      forall w | d[Live(p)].lo <= w < d[Live(p)].hi ensures m'[w] == m[w] {
        if dst <= w < dst + len { OtherSpan(d, |m|, Live(dst), w, Live(p)); }
      }
    }
  }

  lemma LoweredLive(d: Division, n: nat, pos: nat, req: nat)
    requires Live(pos) in d
    ensures Live(pos) in Lowered(d, n, pos, req) && Lowered(d, n, pos, req)[Live(pos)] == Span(pos, pos + req)
  {
  }

  lemma OffNew(huge: seq<Block>, b: nat, x: Block, m0: seq<nat>, m: seq<nat>)
    requires b <= |huge| && LinkWrites(Inserted(huge, b, x), m0, m) && x.pos < |m|
    ensures forall w :: 0 <= w < |m| && Off(Inserted(huge, b, x), w) ==> m[x.pos := x.len][w] == m0[w]
  {
    assert Inserted(huge, b, x)[b] == x;
  }

  lemma LinkWritesOff(huge: seq<Block>, m0: seq<nat>, m: seq<nat>)
    requires LinkWrites(huge, m0, m)
    ensures forall w :: 0 <= w < |m| && Off(huge, w) ==> m[w] == m0[w]
  {
  }

  lemma RecordsRoom(huge: seq<Block>, m: seq<nat>)
    requires Records(huge, m)
    ensures Room(huge, m)
  {
  }

  /** The two ways a level is handled are what `Unlinks` says. */
  lemma UnlinksForm(huge: seq<Block>, ht: Levels, b: nat, x: Block, h: nat, head: seq<nat>, m: seq<nat>, k: nat)
    requires |ht| == |huge| && b <= |huge| && k < |head|
    requires Has(head, m, NodeAt(Inserted(huge, b, x), PrevAt(ht, b, k)), k)
    requires h > k ==> Has(head, m, At(x.pos), k)
    ensures var u := NodeAt(Inserted(huge, b, x), PrevAt(ht, b, k));
      && (u.At? ==> u.pos + 1 + k < |m|)
      && (h <= k ==> Unlinks(huge, ht, b, x, h, head, m, head, m, k))
      && (h > k ==> var v := Link(head, m, At(x.pos), k);
            Unlinks(huge, ht, b, x, h, head, m, if u.Head? then head[k := v] else head,
                    if u.Head? then m else m[u.pos + 1 + k := v], k))
  {
  }

  class MemPool {
    const fmax: nat
    var mem: seq<nat>
    var heads: seq<nat>
    var head: seq<nat>
    var height: nat

    ghost var d: Division
    ghost var fast: seq<seq<nat>>
    ghost var huge: seq<Block>
    ghost var ht: Levels

    /** What holds also in the middle of an operation. */
    ghost predicate Sound()
      reads this
    {
      Parted(d, |mem|) && Listing(d, fmax, fast, huge) && Chains(fast, heads, mem) && Skip()
    }

    ghost predicate Valid()
      reads this
    {
      Sound() && Granted(0) !in d
    }

    constructor (fmax: nat)
      requires RECORD <= fmax
      ensures Valid() && this.fmax == fmax && d == map[] && mem == []
    {
      this.fmax := fmax;
      mem, heads, head, height := [], seq(fmax, _ => TAIL), seq(LEVELS, _ => TAIL), 0;
      d, fast, huge, ht := map[], seq(fmax, _ => []), [], [];
      new;
      assert Parted(d, 0) by { assert OwnersFit(map[], []); }
    }

    ghost predicate Skip()
      reads this`mem, this`head, this`height, this`huge, this`ht
    {
      Linked(huge, ht, head, height, mem)
    }

    /** `random_level` */
    method RandomLevel() returns (k: nat)
      ensures k < LEVELS
    {
      k := 1;
      var again: bool := *;
      while again && k < LEVELS
        invariant 1 <= k <= LEVELS
      {
        k := k + 1;
        again := *;
      }
      k := k - 1;
    }

    /** The walk along one level, as far as the blocks are too short. */
    method SearchLevel(len: nat, k: nat, x: Node, n0: nat, ghost i0: int, ghost c0: nat)
      returns (n1: Node, n2: nat, ghost i: int, ghost c: nat)
      requires Skip() && k < height && -1 <= i0 < Below(huge, len) && x == NodeAt(huge, i0) && OnLevel(ht, i0, k)
      requires Seen(huge, mem, n0, c0)
      ensures -1 <= i < Below(huge, len) && n1 == NodeAt(huge, i) && OnLevel(ht, i, k) && Seen(huge, mem, n2, c)
      ensures PrevAt(ht, Below(huge, len), k) == i
      ensures NextAt(ht, i + 1, k) < |huge| ==> n2 != TAIL && c == NextAt(ht, i + 1, k)
    {
      hide Linked, NextAt, PrevAt, Below, Has, Link;
      n1, n2, i, c := x, n0, i0, c0;
      SearchStep(huge, ht, head, height, mem, len, i, k);
      while Link(head, mem, n1, k) != TAIL && mem[Link(head, mem, n1, k)] < len
        invariant -1 <= i < Below(huge, len) && n1 == NodeAt(huge, i) && OnLevel(ht, i, k) && Has(head, mem, n1, k)
        invariant Link(head, mem, n1, k) != TAIL ==> Link(head, mem, n1, k) < |mem|
        invariant Seen(huge, mem, n2, c)
        decreases Below(huge, len) - i
      {
        SearchStep(huge, ht, head, height, mem, len, i, k);
        n2 := Link(head, mem, n1, k);
        i := NextAt(ht, i + 1, k);
        c := i;
        n1 := At(n2);
        SearchStep(huge, ht, head, height, mem, len, i, k);
      }
      SearchStep(huge, ht, head, height, mem, len, i, k);
      if Link(head, mem, n1, k) != TAIL {
        n2 := Link(head, mem, n1, k);
        c := NextAt(ht, i + 1, k);
      }
    }

    /** The last node of each level before the blocks of at least `len`, and the block that the
        search looked at last: the first of them, if there is one. */
    method FindUpdate(len: nat) returns (update: seq<Node>, n2: nat)
      requires Skip()
      ensures |update| == LEVELS
      ensures forall k :: 0 <= k < height ==> update[k] == NodeAt(huge, PrevAt(ht, Below(huge, len), k))
      ensures n2 != TAIL ==> n2 < |mem|
      ensures (n2 != TAIL && mem[n2] >= len) <==> Below(huge, len) < |huge|
      ensures Below(huge, len) < |huge| ==> n2 == huge[Below(huge, len)].pos
    {
      HeightFacts();
      hide Skip, NextAt, PrevAt, Below;
      update := seq(LEVELS, _ => Head);
      n2 := TAIL;
      var n1 := Head;
      var k := height;
      ghost var i: int := -1;
      ghost var b := Below(huge, len);
      ghost var c: nat := 0;
      while k > 0
        invariant 0 <= k <= height && |update| == LEVELS
        invariant -1 <= i < b && n1 == NodeAt(huge, i) && OnLevel(ht, i, k)
        invariant forall l :: k <= l < height ==> update[l] == NodeAt(huge, PrevAt(ht, b, l))
        invariant Seen(huge, mem, n2, c)
        invariant k == 0 < height ==> (if b < |huge| then c == b && n2 != TAIL else true)
      {
        k := k - 1;
        n1, n2, i, c := SearchLevel(len, k, n1, n2, i, c);
        if k == 0 { BottomFacts(b); }
        update := update[k := n1];
      }
      if n2 != TAIL { SeenLen(len, c); }
    }

    lemma SeenLen(len: nat, c: nat)
      requires Skip() && c < |huge|
      ensures huge[c].len >= len <==> c >= Below(huge, len)
    {
      AfterBelow(huge, len, c);
    }

    /** The list insertion in `sfree`. */
    method InsertHuge(pos: nat, len: nat)
      requires Skip() && Fresh(huge, Below(huge, len), Block(pos, len), mem)
      modifies this`mem, this`head, this`height, this`huge, this`ht
      ensures Skip() && huge == Inserted(old(huge), Below(old(huge), len), Block(pos, len))
      ensures |mem| == |old(mem)| && forall w :: 0 <= w < |mem| && Off(huge, w) ==> mem[w] == old(mem)[w]
    {
      hide Linked, Fresh, Off, LinkWrites, OnFrom, Below, Apart, Room, Has, Link, PrevAt, InsertHead, InsertMem;
      var update, _ := FindUpdate(len);
      var k := RandomLevel();
      ghost var b, x, was := Below(huge, len), Block(pos, len), height;
      SkipFacts();
      if k >= height {
        k := height;
        height := height + 1;
        update := update[k := Head];
        PrevHead(k);
      }
      ghost var h := k + 1;
      FreshFacts(b, x);
      InsertStart(huge, ht, b, x, h, head, was, mem);
      NothingWritten(Inserted(huge, b, x), mem);
      var j := k + 1;
      while j > 0
        invariant 0 <= j <= h && |head| == LEVELS && |mem| == |old(mem)| && huge == old(huge) && ht == old(ht)
        invariant height == (if k == was then was + 1 else was)
        invariant OnFrom(huge, ht, b, x, h, head, mem, j)
        invariant LinkWrites(Inserted(huge, b, x), old(mem), mem)
        invariant Room(Inserted(huge, b, x), mem)
      {
        j := j - 1;
        InsertStep(huge, ht, b, x, h, head, mem, j);
        InsertWrites(huge, ht, b, x, head, mem, j);
        ghost var head1, mem1 := InsertHead(huge, ht, b, x, head, j), InsertMem(huge, ht, b, x, head, mem, j);
        WritesTransitive(Inserted(huge, b, x), old(mem), mem, mem1);
        RoomSame(Inserted(huge, b, x), mem, mem1);
        TwoWrites(update[j], b, x, j);
        mem := mem[pos + 1 + j := Link(head, mem, update[j], j)];
        if update[j].Head? { head := head[j := pos]; } else { mem := mem[update[j].pos + 1 + j := pos]; }
      }
      InsertEnd(huge, ht, old(head), was, old(mem), b, x, k, head, mem);
      assert forall w :: 0 <= w < |mem| && Off(Inserted(huge, b, x), w) ==> mem[pos := len][w] == old(mem)[w] by {
        OffNew(huge, b, x, old(mem), mem);
      }
      mem := mem[pos := len];
      huge, ht := Inserted(huge, b, x), InsertedHt(ht, b, h);
    }

    lemma SkipFacts()
      requires Skip()
      ensures |ht| == |huge| && |head| == LEVELS && height <= LEVELS && Records(huge, mem)
      ensures forall i :: 0 <= i < |ht| ==> 1 <= ht[i] <= height
    {
    }

    lemma PrevHead(k: nat)
      requires |ht| == |huge| && forall i :: 0 <= i < |ht| ==> ht[i] <= k
      ensures forall b: nat :: b <= |ht| ==> PrevAt(ht, b, k) == -1
    {
    }

    lemma FreshFacts(b: nat, x: Block)
      requires Fresh(huge, b, x, mem) && Records(huge, mem)
      ensures b <= |huge| && Apart(Inserted(huge, b, x)) && x.pos + RECORD <= |mem| && Room(Inserted(huge, b, x), mem)
    {
      RoomInserted(huge, b, x, mem);
    }

    lemma TwoWrites(u: Node, b: nat, x: Block, j: nat)
      requires |ht| == |huge| && b <= |huge| && j < LEVELS == |head| && x.pos + RECORD <= |mem|
      requires u == NodeAt(huge, PrevAt(ht, b, j)) && Has(head, mem, u, j)
      ensures u.At? ==> u.pos + 1 + j < |mem|
      ensures InsertHead(huge, ht, b, x, head, j) == if u.Head? then head[j := x.pos] else head
      ensures InsertMem(huge, ht, b, x, head, mem, j) ==
        var m1 := mem[x.pos + 1 + j := Link(head, mem, u, j)]; if u.Head? then m1 else m1[u.pos + 1 + j := x.pos]
    {
    }

    /** The list removal in `alloc`: every level on which the search stopped before the block. */
    method RemoveHuge(update: seq<Node>, len: nat, res: nat)
      requires Skip() && Apart(huge)
      requires |update| == LEVELS && forall k :: 0 <= k < height ==>
        update[k] == NodeAt(huge, PrevAt(ht, Below(huge, len), k))
      requires Below(huge, len) < |huge| && res == huge[Below(huge, len)].pos
      modifies this`mem, this`head, this`height, this`huge, this`ht
      ensures Skip()
      ensures var b := Below(old(huge), len); huge == old(huge)[..b] + old(huge)[b + 1..]
      ensures |mem| == |old(mem)| && forall w :: 0 <= w < |mem| && Off(old(huge), w) ==> mem[w] == old(mem)[w]
    {
      hide Linked, Off, LinkWrites, OnFrom, Below, Apart, Room, Has, Link, PrevAt, Unlinks, Loose;
      SkipFacts();
      ghost var b := Below(huge, len);
      ghost var x, h := huge[b], ht[b];
      ghost var huge0, ht0 := huge[..b] + huge[b + 1..], ht[..b] + ht[b + 1..];
      WithoutInserted(huge, ht, b);
      NothingWritten(huge, mem);
      RecordsRoom(huge, mem);
      RemoveStart(huge0, ht0, b, x, h, head, height, mem);
      var k := 0;
      while k < height
        invariant k <= height == old(height) && |head| == LEVELS && |mem| == |old(mem)| && huge == old(huge) &&
          ht == old(ht)
        invariant OnFrom(huge0, ht0, b, x, h, head, mem, k)
        invariant LinkWrites(huge, old(mem), mem)
        invariant Room(huge, mem)
      {
        ghost var head1, mem1 := head, mem;
        RemoveTest(huge0, ht0, b, x, h, head, mem, k);
        UnlinksForm(huge0, ht0, b, x, h, head, mem, k);
        if Link(head, mem, update[k], k) == res {
          var v := Link(head, mem, At(res), k);
          if update[k].Head? { head := head[k := v]; } else { mem := mem[update[k].pos + 1 + k := v]; }
        }
        assert Unlinks(huge0, ht0, b, x, h, head1, mem1, head, mem, k);
        RemoveStep(huge0, ht0, b, x, h, head1, mem1, head, mem, k);
        UnlinkWrites(huge0, ht0, b, x, h, head1, mem1, head, mem, k);
        WritesTransitive(huge, old(mem), mem1, mem);
        RoomSame(huge, mem1, mem);
        k := k + 1;
      }
      RemoveEnd(huge0, ht0, b, x, h, old(head), height, old(mem), head, mem);
      LinkWritesOff(huge, old(mem), mem);
      huge, ht := huge0, ht0;
      Trim();
    }

    /** Empty top levels are given up. */
    method Trim()
      requires Loose(huge, ht, head, height, mem)
      modifies this`height
      ensures Skip()
    {
      hide Loose, Linked;
      LooseTop(huge, ht, head, height, mem);
      while height > 0 && head[height - 1] == TAIL
        invariant Loose(huge, ht, head, height, mem) && |head| == LEVELS && height <= LEVELS
      {
        LooseTop(huge, ht, head, height, mem);
        height := height - 1;
      }
      LooseTop(huge, ht, head, height, mem);
    }

    /** The lists in `sfree`: the block of `o`, live or just cut off, becomes free. */
    method PushFree(pos: nat, len: nat, ghost o: Owner)
      requires Sound() && o in d && !o.Free? && d[o] == Span(pos, pos + len)
      modifies this`mem, this`heads, this`head, this`height, this`d, this`fast, this`huge, this`ht
      ensures Sound() && d == Give(old(d), o, Free(0, pos)) && |mem| == |old(mem)|
      ensures Free(0, pos) !in old(d)
      ensures forall p, w :: Live(p) in d && Within(d[Live(p)], w) && w < |mem| ==> mem[w] == old(mem)[w]
    {
      hide Tiles, Parted, Listing, Chains, Linked, Off, Fresh, Below;
      GiveListed(d, |mem|, fmax, fast, huge, o, pos, len);
      OwnerLen(d, |mem|, o);
      Minimum(d, fmax, fast, huge);
      ghost var d' := Give(d, o, Free(0, pos));
      if len <= fmax {
        PushFastStored(d, |mem|, fmax, fast, heads, huge, ht, head, height, mem, o, pos, len);
        mem := mem[pos := heads[len - 1]];
        heads := heads[len - 1 := pos];
        fast := fast[len - 1 := [pos] + fast[len - 1]];
      } else {
        FreshBlock(d', |mem|, fmax, fast, huge, Block(pos, len), mem);
        ghost var huge', mem0 := Inserted(huge, Below(huge, len), Block(pos, len)), mem;
        assert Listing(d', fmax, fast, huge');
        InsertHuge(pos, len);
        ChainsOff(d', |mem|, fmax, fast, huge', heads, mem0, mem);
      }
      d := d';
      PartedTiles(d, |mem|);
      forall p, w | Live(p) in d && Within(d[Live(p)], w) && w < |mem| ensures mem[w] == old(mem)[w] {
        if len <= fmax {
          OtherSpan(d, |mem|, Live(p), w, Free(0, pos));
        } else {
          OffOwner(d, |mem|, fmax, fast, huge, Live(p), w);
        }
      }
    }

    /** The end of the arena moves down over the span of `o`. */
    method Shrink(pos: nat, ghost o: Owner)
      requires Sound() && o in d && !o.Free? && d[o] == Span(pos, |mem|)
      modifies this`mem, this`d
      ensures Sound() && d == old(d) - {o} && mem == old(mem)[..pos] && pos <= |old(mem)|
      ensures forall p :: p in d ==> d[p].hi <= |mem|
    {
      hide Parted, Listing, Chains, Linked;
      OwnerLen(d, |mem|, o);
      DropParted(d, |mem|, fmax, fast, huge, o);
      ShrinkSame(d - {o}, pos, mem);
      ListsFrame(d - {o}, fmax, fast, heads, huge, ht, head, height, mem, mem[..pos]);
      mem := mem[..pos];
      d := d - {o};
    }

    /** `sfree` of a live block or of what was cut off one. */
    method Sfree(pos: nat, len: nat, ghost o: Owner)
      requires Sound() && o in d && !o.Free? && d[o] == Span(pos, pos + len)
      modifies this`mem, this`heads, this`head, this`height, this`d, this`fast, this`huge, this`ht
      ensures Sound() && pos + len <= |old(mem)|
      ensures pos + len == |old(mem)| ==> d == old(d) - {o} && |mem| == pos
      ensures pos + len < |old(mem)| ==>
        d == Give(old(d), o, Free(0, pos)) && |mem| == |old(mem)| && Free(0, pos) !in old(d)
      ensures KeepsLive(old(d), old(mem), d, mem, if o.Live? then {o.pos} else {})
    {
      hide Parted, Listing, Chains, Linked;
      OwnersBound(d, |mem|);
      if pos + len == |mem| { Shrink(pos, o); } else { PushFree(pos, len, o); }
      OwnersBound(d, |mem|);
    }

    /** A new block at the end of the arena. */
    method Grow(req: nat) returns (pos: nat)
      requires Sound() && 0 < req && |mem| + req <= TAIL
      modifies this`mem, this`d
      ensures Sound() && pos == |old(mem)| && |mem| == pos + req && mem[..pos] == old(mem)
      ensures Live(pos) !in old(d) && Free(0, pos) !in old(d) && d == old(d)[Live(pos) := Span(pos, pos + req)]
    {
      hide Parted, Listing, Chains, Linked;
      pos := |mem|;
      NotAtEnd(d, pos);
      GrowParted(d, pos, fmax, fast, huge, req);
      var fill: seq<nat> := *;
      if |fill| != req { fill := seq(req, _ => 0); }
      GrowSame(d, mem, fill);
      ListsFrame(d, fmax, fast, heads, huge, ht, head, height, mem, mem + fill);
      mem := mem + fill;
      d := d[Live(pos) := Span(pos, pos + req)];
    }

    /** The first block of a fast list. */
    method PopFast(req: nat) returns (pos: nat)
      requires Sound() && 0 < req <= fmax && |fast| == fmax && fast[req - 1] != []
      modifies this`heads, this`d, this`fast
      ensures Sound() && pos == old(fast)[req - 1][0]
      ensures Free(0, pos) in old(d) && old(d)[Free(0, pos)] == Span(pos, pos + req) && Live(pos) !in old(d)
      ensures d == Give(old(d), Free(0, pos), Live(pos))
    {
      hide Parted, Listing, Linked, FastChain;
      TakeFast(d, |mem|, fmax, fast, huge, req);
      FastTail(fast[req - 1], heads[req - 1], mem);
      pos := heads[req - 1];
      heads := heads[req - 1 := mem[pos]];
      d := Give(d, Free(0, pos), Live(pos));
      fast := fast[req - 1 := fast[req - 1][1..]];
    }

    /** A block off the skip list, for the caller. */
    method Detach(update: seq<Node>, req: nat, res: nat)
      requires Sound()
      requires |update| == LEVELS && forall k :: 0 <= k < height ==>
        |ht| == |huge| && update[k] == NodeAt(huge, PrevAt(ht, Below(huge, req), k))
      requires Below(huge, req) < |huge| && res == huge[Below(huge, req)].pos
      modifies this`mem, this`head, this`height, this`huge, this`ht, this`d
      ensures Sound() && |mem| == |old(mem)|
      ensures Free(0, res) in old(d) && d == Give(old(d), Free(0, res), Live(res)) && Live(res) !in old(d)
      ensures KeepsLive(old(d), old(mem), d, mem, {res})
    {
      hide Parted, Listing, Linked, Chains, Off, Below, NodeAt, PrevAt;
      ghost var b := Below(huge, req);
      SkipFacts();
      TakeHuge(d, |mem|, fmax, fast, huge, b);
      ApartHuge(d, |mem|, fmax, fast, huge);
      RemoveHuge(update, req, res);
      ChainsOff(d, |mem|, fmax, fast, old(huge), heads, old(mem), mem);
      OffKeeps(d, |mem|, fmax, fast, old(huge), res, old(mem), mem);
      d := Give(d, Free(0, res), Live(res));
    }

    /** The upper part of a live block is freed. */
    method FreeRest(pos: nat, req: nat, rest: nat)
      requires Valid() && Live(pos) in d && d[Live(pos)] == Span(pos, pos + req + rest) && 0 < req && 0 < rest
      modifies this`mem, this`heads, this`head, this`height, this`d, this`fast, this`huge, this`ht
      ensures Valid() && pos + req + rest <= |old(mem)|
      ensures d == Lowered(old(d), |old(mem)|, pos, req)
      ensures KeepsLive(old(d), old(mem), d, mem, {pos})
      ensures pos + req <= |mem| <= |old(mem)| && SameIn(Span(pos, pos + req), old(mem), mem)
    {
      hide Parted, Listing, Linked, Chains;
      ghost var d0, m0 := d, mem;
      CutParted(d, |mem|, fmax, fast, huge, pos, req);
      CutKeeps(d, |mem|, pos, pos + req, mem);
      d := Cut(d, Live(pos), pos + req, Granted(0));
      ghost var d1 := d;
      Sfree(pos + req, rest, Granted(0));
      KeepsMore(d1, m0, d, mem, {}, {pos});
      KeepsLiveTwice(d0, m0, d1, m0, d, mem, {pos});
      LoweredForm(d0, d, |m0|, pos, req);
      assert Live(pos) in d1 && d1[Live(pos)] == Span(pos, pos + req);
    }

    /** A long request from the skip list, if a block is long enough; what is left of it is freed. */
    method TakeLong(req: nat) returns (pos: nat, found: bool)
      requires Valid() && req > fmax
      modifies this`mem, this`heads, this`head, this`height, this`d, this`fast, this`huge, this`ht
      ensures Valid()
      ensures !found ==> NoneFits(old(d), req) && d == old(d) && mem == old(mem)
      ensures found ==> BestOf(old(d), pos, req) && Live(pos) !in old(d) && d == Carved(old(d), |old(mem)|, pos, req)
      ensures KeepsLive(old(d), old(mem), d, mem, if found then {pos} else {}) && |mem| <= |old(mem)|
    {
      hide Parted, Listing, Linked, Chains, Below, NodeAt, PrevAt, BestOf, NoneFits, KeepsLive, Carved, Lowered;
      SkipFacts();
      KeepsSelf(d, |mem|, mem);
      SkipOrder();
      Fitting(d, fmax, fast, huge, req);
      var update, n2 := FindUpdate(req);
      if n2 == TAIL || mem[n2] < req {
        return n2, false;
      }
      LengthAt(req);
      var rest := mem[n2] - req;
      pos, found := n2, true;
      ghost var d0, m0 := d, mem;
      Detach(update, req, pos);
      ghost var d1, m1 := d, mem;
      CarvedForm(d0, |mem|, pos, req);
      if rest > 0 {
        FreeRest(pos, req, rest);
        KeepsLiveTwice(d0, m0, d1, m1, d, mem, {pos});
      }
    }

    lemma SkipOrder()
      requires Skip()
      ensures Ordered(huge)
    {
    }

    lemma LengthAt(req: nat)
      requires Sound() && Below(huge, req) < |huge|
      ensures var x := huge[Below(huge, req)];
        x.len >= req && x.pos < |mem| && mem[x.pos] == x.len
        && Free(0, x.pos) in d && d[Free(0, x.pos)] == Span(x.pos, x.pos + x.len)
    {
      HugeBlock(d, fmax, fast, huge, Below(huge, req));
    }

    /** `alloc`: a short request gets a free block of its length, a long one a shortest free block that
        is long enough; without one, the arena grows. */
    method Alloc(req: nat) returns (pos: nat)
      requires Valid() && 0 < req && |mem| + req <= TAIL
      modifies this`mem, this`heads, this`head, this`height, this`d, this`fast, this`huge, this`ht
      ensures Valid() && Live(pos) !in old(d) && d == Carved(old(d), |old(mem)|, pos, req)
      ensures Live(pos) in d && d[Live(pos)] == Span(pos, pos + req) && pos + req <= |mem|
      ensures KeepsLive(old(d), old(mem), d, mem, {pos})
      ensures req <= fmax ==> ExactOf(old(d), pos, req) || (NoneExact(old(d), req) && pos == |old(mem)|)
      ensures req > fmax ==> BestOf(old(d), pos, req) || (NoneFits(old(d), req) && pos == |old(mem)|)
      ensures |mem| <= |old(mem)| + req
    {
      hide Parted, Listing, Linked, FastChain, BestOf, NoneFits, NoneExact, KeepsLive, Carved;
      OwnersBound(d, |mem|);
      Minimum(d, fmax, fast, huge);
      ghost var d0, m0 := d, mem;
      if req <= fmax {
        HeadFacts(d, |mem|, fmax, fast, huge, heads, mem, req);
        if heads[req - 1] != TAIL {
          pos := PopFast(req);
          CarvedForm(d0, |m0|, pos, req);
          GiveKeeps(d0, |m0|, pos, m0);
        } else {
          pos := Grow(req);
          GrowKeeps(d0, m0, d, mem, req);
        }
      } else {
        var found;
        pos, found := TakeLong(req);
        if !found {
          pos := Grow(req);
          GrowKeeps(d0, m0, d, mem, req);
        }
      }
      CarvedLive(d0, |m0|, pos, req);
      OwnersBound(d, |mem|);
    }

    /** `sfree` by a caller. */
    method Release(pos: nat, len: nat)
      requires Valid() && Live(pos) in d && d[Live(pos)] == Span(pos, pos + len)
      modifies this`mem, this`heads, this`head, this`height, this`d, this`fast, this`huge, this`ht
      ensures Valid() && pos + len <= |old(mem)|
      ensures pos + len == |old(mem)| ==> d == old(d) - {Live(pos)} && |mem| == pos
      ensures pos + len < |old(mem)| ==> d == Give(old(d), Live(pos), Free(0, pos)) && |mem| == |old(mem)|
      ensures KeepsLive(old(d), old(mem), d, mem, {pos})
    {
      hide Parted, Listing, Linked, Chains;
      Sfree(pos, len, Live(pos));
    }

    /** A caller writes into a live block. */
    method Write(w: nat, v: nat, ghost pos: nat)
      requires Valid() && Live(pos) in d && Within(d[Live(pos)], w)
      modifies this`mem
      ensures Valid() && w < |old(mem)| && mem == old(mem)[w := v]
    {
      hide Parted, Listing, Linked, Chains;
      OwnersBound(d, |mem|);
      FreeSameWrite(d, |mem|, mem, Live(pos), w, v);
      ListsFrame(d, fmax, fast, heads, huge, ht, head, height, mem, mem[w := v]);
      mem := mem[w := v];
    }

    /** `memcpy` from one live block to another. */
    method CopyWords(src: nat, dst: nat, len: nat)
      requires Valid() && Live(src) in d && Live(dst) in d && src != dst
      requires src + len <= d[Live(src)].hi && dst + len <= d[Live(dst)].hi
      modifies this`mem
      ensures Valid() && |mem| == |old(mem)| && src + len <= |mem| && dst + len <= |mem|
      ensures SameWords(old(mem), src, mem, dst, len)
      ensures forall w :: 0 <= w < |mem| && !(dst <= w < dst + len) ==> mem[w] == old(mem)[w]
    {
      hide Parted, Listing, Linked, Chains;
      OwnersBound(d, |mem|);
      ghost var m' := mem[..dst] + mem[src..src + len] + mem[dst + len..];
      CopySame(d, mem, m', dst, len);
      ListsFrame(d, fmax, fast, heads, huge, ht, head, height, mem, m');
      mem := mem[..dst] + mem[src..src + len] + mem[dst + len..];
    }

    /** The last block of the arena gets another length in place. */
    method Stretch(pos: nat, newlen: nat)
      requires Valid() && Live(pos) in d && d[Live(pos)].hi == |mem| && 0 < newlen && pos + newlen <= TAIL
      modifies this`mem, this`d
      ensures Valid() && |mem| == pos + newlen && d == old(d)[Live(pos) := Span(pos, pos + newlen)]
      ensures forall w :: 0 <= w < |mem| && w < |old(mem)| ==> mem[w] == old(mem)[w]
      ensures KeepsLive(old(d), old(mem), d, mem, {pos})
    {
      hide Parted, Listing, Linked, Chains;
      OwnersBound(d, |mem|);
      LiveStart(d, |mem|, pos);
      StretchParted(d, |mem|, fmax, fast, huge, pos, newlen);
      var more := if pos + newlen <= |mem| then 0 else pos + newlen - |mem|;
      var fill: seq<nat> := *;
      if |fill| != more { fill := seq(more, _ => 0); }
      ghost var m', d' := (mem + fill)[..pos + newlen], d[Live(pos) := Span(pos, pos + newlen)];
      StretchSame(d', mem, m', pos);
      ListsFrame(d', fmax, fast, heads, huge, ht, head, height, mem, m');
      mem := (mem + fill)[..pos + newlen];
      d := d';
    }

    /** The words of a block go to a longer one, and the block is freed. */
    method MoveBlock(pos: nat, oldlen: nat, newlen: nat, r: nat)
      requires Valid() && r != pos && oldlen <= newlen
      requires Live(pos) in d && d[Live(pos)] == Span(pos, pos + oldlen) && Live(r) in d &&
        d[Live(r)] == Span(r, r + newlen)
      modifies this`mem, this`heads, this`head, this`height, this`d, this`fast, this`huge, this`ht
      ensures Valid() && Live(pos) !in d && Live(r) in d && d[Live(r)] == Span(r, r + newlen) && r + newlen <= |mem|
      ensures SameWords(old(mem), pos, mem, r, oldlen)
      ensures KeepsLive(old(d), old(mem), d, mem, {pos, r})
      ensures pos + oldlen < |old(mem)| ==> d == Give(old(d), Live(pos), Free(0, pos)) && |mem| == |old(mem)|
    {
      hide Parted, Listing, Linked, Chains;
      ghost var d0, m0 := d, mem;
      CopyWords(pos, r, oldlen);
      ghost var m1 := mem;
      CopyKeeps(d0, m0, m1, r, oldlen);
      Release(pos, oldlen);
      KeepsMore(d0, m1, d, mem, {pos}, {pos, r});
      KeepsMore(d0, m0, d0, m1, {r}, {pos, r});
      KeepsLiveTwice(d0, m0, d0, m1, d, mem, {pos, r});
      assert SameIn(d0[Live(r)], m1, mem);
    }

    /** `alloc3`: a block of another length with the same first words. */
    method Alloc3(pos: nat, oldlen: nat, newlen: nat) returns (r: nat)
      requires Valid() && Live(pos) in d && d[Live(pos)] == Span(pos, pos + oldlen)
      requires 0 < newlen && |mem| + newlen <= TAIL
      modifies this`mem, this`heads, this`head, this`height, this`d, this`fast, this`huge, this`ht
      ensures Valid() && Live(r) in d && d[Live(r)] == Span(r, r + newlen) && r + newlen <= |mem| &&
        pos + oldlen <= |old(mem)|
      ensures SameWords(old(mem), pos, mem, r, if oldlen < newlen then oldlen else newlen)
      ensures KeepsLive(old(d), old(mem), d, mem, {pos, r})
      ensures r != pos ==> Live(pos) !in d && Live(r) !in old(d)
      ensures newlen <= oldlen || pos + oldlen == |old(mem)| <==> r == pos
      ensures r != pos && newlen <= fmax ==>
        ExactOf(old(d), r, newlen) || (NoneExact(old(d), newlen) && r == |old(mem)|)
      ensures r != pos && newlen > fmax ==>
        BestOf(old(d), r, newlen) || (NoneFits(old(d), newlen) && r == |old(mem)|)
      ensures d == Resized(old(d), |old(mem)|, pos, oldlen, newlen, r)
    {
      hide Parted, Listing, Linked, Chains, Carved, Lowered, BestOf, NoneFits, ExactOf, NoneExact, KeepsLive;
      OwnersBound(d, |mem|);
      KeepsSelf(d, |mem|, mem);
      KeepsMore(d, mem, d, mem, {}, {pos});
      ghost var d0, m0 := d, mem;
      r := pos;
      assert {pos, pos} == {pos};
      if pos + oldlen == |mem| {
        Stretch(pos, newlen);
      } else if newlen < oldlen {
        ResizedLess(d, |mem|, pos, oldlen, newlen);
        FreeRest(pos, newlen, oldlen - newlen);
        LoweredLive(d0, |m0|, pos, newlen);
      } else if newlen > oldlen {
        r := Alloc(newlen);
        ghost var d1, m1 := d, mem;
        LiveKept(d0, m0, d1, m1, pos, r);
        StillInside(d0, |m0|, d1, |m1|, pos, oldlen, r, newlen);
        ResizedMoved(d0, |m0|, d1, pos, oldlen, newlen, r);
        MoveBlock(pos, oldlen, newlen, r);
        KeepsMore(d0, m0, d1, m1, {r}, {pos, r});
        KeepsLiveTwice(d0, m0, d1, m1, d, mem, {pos, r});
      }
    }

    lemma HeightFacts()
      requires Skip()
      ensures |ht| == |huge| && height <= LEVELS && (height == 0 ==> |huge| == 0)
    {
      if |huge| > 0 { assert 1 <= ht[0] <= height; }
    }

    lemma BottomFacts(b: nat)
      requires Skip() && b <= |huge|
      ensures |ht| == |huge| && PrevAt(ht, b, 0) == b - 1 && NextAt(ht, b, 0) == b
    {
      BottomNext(ht, b);
    }
  }
}
