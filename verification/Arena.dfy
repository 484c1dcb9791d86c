/** The arena of ThreadCacheMemPool (src/terark/mempool_thread_cache.cpp) as a division of its
    units: one unit is AlignSize bytes, and every offset and length in the pool is a multiple of it.
    A division gives every owner one span; it tiles the arena when every unit has one owner. */
module Arena {

  import opened Sequences

  type Tid = nat

  datatype Owner =
    | Live(pos: nat)          // a block some caller has
    | Free(t: Tid, pos: nat)  // a block on a list of thread t
    | Hot(t: Tid)             // the bump area of thread t
    | Granted(t: Tid)         // taken from the shared mark by thread t, not yet its hot area

  datatype Span = Span(lo: nat, hi: nat)

  type Division = map<Owner, Span>

  ghost predicate Within(s: Span, u: int) {
    s.lo <= u < s.hi
  }

  ghost predicate OwnersFit(d: Division, tag: seq<Owner>) {
    && (forall o :: o in d ==> d[o].lo <= d[o].hi <= |tag|)
    && (forall u :: 0 <= u < |tag| ==> tag[u] in d && Within(d[tag[u]], u))
    && (forall o, u {:trigger d[o], tag[u]} :: o in d && 0 <= u < |tag| && Within(d[o], u) ==> tag[u] == o)
  }

  /** Every unit below `n` has exactly one owner, and no owner has units beyond. */
  ghost predicate Tiles(d: Division, n: nat) {
    exists tag :: |tag| == n && OwnersFit(d, tag)
  }

  ghost function Painted(tag: seq<Owner>, s: Span, o: Owner): (r: seq<Owner>)
    ensures |r| == |tag|
    ensures forall u :: 0 <= u < |tag| ==> r[u] == if Within(s, u) then o else tag[u]
  {
    seq(|tag|, u requires 0 <= u < |tag| => if Within(s, u) then o else tag[u])
  }

  /** No two owners share a unit, and every unit below `n` has an owner. */
  lemma Partition(d: Division, n: nat, u: nat)
    requires Tiles(d, n)
    ensures u < n ==> exists o :: o in d && Within(d[o], u)
    ensures forall o, o' :: o in d && o' in d && Within(d[o], u) && Within(d[o'], u) ==> o == o' && u < n
  {
    var tag :| |tag| == n && OwnersFit(d, tag);
    if u < n { assert tag[u] in d && Within(d[tag[u]], u); }
  }

  // ------------------------------------------------------------------ ways to change a division

  /** The span of `o` gets a new owner. */
  ghost function Give(d: Division, o: Owner, o': Owner): Division
    requires o in d
  {
    (d - {o})[o' := d[o]]
  }

  lemma GiveTiles(d: Division, n: nat, o: Owner, o': Owner)
    requires Tiles(d, n) && o in d && o' !in d
    ensures Tiles(Give(d, o, o'), n)
  {
    var tag :| |tag| == n && OwnersFit(d, tag);
    var d', tag' := Give(d, o, o'), Painted(tag, d[o], o');
    forall p, u | p in d' && 0 <= u < |tag'| && Within(d'[p], u) ensures tag'[u] == p {
      assert Within(d[if p == o' then o else p], u);
    }
    assert OwnersFit(d', tag');
  }

  /** The upper part of the span of `o` gets a new owner. */
  ghost function Cut(d: Division, o: Owner, mid: nat, o': Owner): Division
    requires o in d
  {
    d[o := Span(d[o].lo, mid)][o' := Span(mid, d[o].hi)]
  }

  lemma CutTiles(d: Division, n: nat, o: Owner, mid: nat, o': Owner)
    requires Tiles(d, n) && o in d && o' !in d && d[o].lo <= mid <= d[o].hi
    ensures Tiles(Cut(d, o, mid, o'), n)
  {
    var tag :| |tag| == n && OwnersFit(d, tag);
    var d', tag' := Cut(d, o, mid, o'), Painted(tag, Span(mid, d[o].hi), o');
    forall p, u | p in d' && 0 <= u < |tag'| && Within(d'[p], u) ensures tag'[u] == p {
      assert tag[u] == if p == o' then o else p;
      assert Within(Span(mid, d[o].hi), u) ==> tag[u] == o;
    }
    forall u | 0 <= u < |tag'| ensures tag'[u] in d' && Within(d'[tag'[u]], u) {
      assert Within(d[tag[u]], u);
    }
    assert OwnersFit(d', tag');
  }

  /** The lower part of the span of `o` gets a new owner. */
  ghost function CutLow(d: Division, o: Owner, mid: nat, o': Owner): Division
    requires o in d
  {
    d[o := Span(mid, d[o].hi)][o' := Span(d[o].lo, mid)]
  }

  lemma CutLowTiles(d: Division, n: nat, o: Owner, mid: nat, o': Owner)
    requires Tiles(d, n) && o in d && o' !in d && d[o].lo <= mid <= d[o].hi
    ensures Tiles(CutLow(d, o, mid, o'), n)
  {
    var tag :| |tag| == n && OwnersFit(d, tag);
    var d', tag' := CutLow(d, o, mid, o'), Painted(tag, Span(d[o].lo, mid), o');
    forall p, u | p in d' && 0 <= u < |tag'| && Within(d'[p], u) ensures tag'[u] == p {
      assert tag[u] == if p == o' then o else p;
      assert Within(Span(d[o].lo, mid), u) ==> tag[u] == o;
    }
    forall u | 0 <= u < |tag'| ensures tag'[u] in d' && Within(d'[tag'[u]], u) {
      assert Within(d[tag[u]], u);
    }
    assert OwnersFit(d', tag');
  }

  /** `o` gets the span of `o'`, which begins where its own ends or ends where its own begins. */
  ghost function Absorb(d: Division, o: Owner, o': Owner): Division
    requires o in d && o' in d
  {
    (d - {o'})[o := if d[o].hi == d[o'].lo then Span(d[o].lo, d[o'].hi) else Span(d[o'].lo, d[o].hi)]
  }

  lemma AbsorbTiles(d: Division, n: nat, o: Owner, o': Owner)
    requires Tiles(d, n) && o in d && o' in d && o != o'
    requires d[o].hi == d[o'].lo || d[o'].hi == d[o].lo
    ensures Tiles(Absorb(d, o, o'), n)
  {
    var tag :| |tag| == n && OwnersFit(d, tag);
    var d', tag' := Absorb(d, o, o'), Painted(tag, d[o'], o);
    forall p, u | p in d' && 0 <= u < |tag'| && Within(d'[p], u) ensures tag'[u] == p {
      assert Within(d[o'], u) ==> tag[u] == o';
      assert p == o ==> tag[u] == o || Within(d[o'], u);
      assert p != o ==> tag[u] == p;
    }
    forall u | 0 <= u < |tag'| ensures tag'[u] in d' && Within(d'[tag'[u]], u) {
      assert Within(d[tag[u]], u);
    }
    assert OwnersFit(d', tag');
  }

  /** An owner of nothing disappears. */
  lemma DropTiles(d: Division, n: nat, o: Owner)
    requires Tiles(d, n) && o in d && d[o].lo == d[o].hi
    ensures Tiles(d - {o}, n)
  {
    var tag :| |tag| == n && OwnersFit(d, tag);
    var d', tag' := d - {o}, tag;
    forall p, u | p in d' && 0 <= u < |tag'| && Within(d'[p], u) ensures tag'[u] == p {
      assert Within(d[p], u);
    }
    forall u | 0 <= u < |tag'| ensures tag'[u] in d' && Within(d'[tag'[u]], u) {
      assert Within(d[tag[u]], u);
    }
    assert OwnersFit(d', tag');
  }

  /** The arena grows by the span of a new owner. */
  lemma GrowTiles(d: Division, n: nat, len: nat, o: Owner)
    requires Tiles(d, n) && o !in d
    ensures Tiles(d[o := Span(n, n + len)], n + len)
  {
    var tag :| |tag| == n && OwnersFit(d, tag);
    var more := seq(len, _ => o);
    var d', tag' := d[o := Span(n, n + len)], tag + more;
    forall p, u | p in d' && 0 <= u < |tag'| && Within(d'[p], u) ensures tag'[u] == p {
      assert p != o ==> Within(d[p], u);
    }
    forall u | 0 <= u < |tag'| ensures tag'[u] in d' && Within(d'[tag'[u]], u) {
      assert u < n ==> Within(d[tag[u]], u);
    }
    assert OwnersFit(d', tag');
  }

  lemma SpanBounds(d: Division, n: nat, o: Owner)
    requires Tiles(d, n) && o in d
    ensures d[o].lo <= d[o].hi <= n
  {
    var tag :| |tag| == n && OwnersFit(d, tag);
  }

  /** Two spans that are not empty start at different units. */
  lemma StartsDiffer(d: Division, n: nat, o: Owner, o': Owner)
    requires Tiles(d, n) && o in d && o' in d && o != o' && d[o].lo < d[o].hi && d[o'].lo < d[o'].hi
    ensures d[o].hi <= d[o'].lo || d[o'].hi <= d[o].lo
  {
    if d[o].lo < d[o'].hi && d[o'].lo < d[o].hi {
      Partition(d, n, if d[o].lo < d[o'].lo then d[o'].lo else d[o].lo);
    }
  }

  // ------------------------------------------------------------------ thread caches

  datatype Block = Block(pos: nat, len: nat)

  /** The bump area and the lists of one thread: `fast[i]` lists blocks of i + 1 units, the most
      recently freed first, and `huge` all longer ones.  `frag` is its count of listed units, of
      which `inc` are not yet in the count of the pool; `hugeSum` counts the units in `huge`. */
  datatype Cache = Cache(hotPos: nat, hotEnd: nat, fast: seq<seq<nat>>, huge: seq<Block>,
                         frag: int, inc: int, hugeSum: int)

  /** Fixed for a pool: its capacity, the longest block of the fast lists, how much a thread may be
      ahead of the pool's count, the chunk size, and the misalignment of the arena to chunks. */
  datatype Config = Config(cap: nat, fmax: nat, flush: nat, chunk: nat, skew: nat)

  /** The arena is used up to `n`.  A thread in `grants` has advanced `n` for a request and not yet
      made what it got its hot area. */
  datatype State = State(cfg: Config, n: nat, d: Division, caches: seq<Cache>, pool: int, grants: map<Tid, nat>)

  ghost function Len(s: Span): int {
    s.hi - s.lo
  }

  ghost function Put(s: State, t: Tid, c: Cache): State
    requires t < |s.caches|
  {
    s.(caches := s.caches[t := c])
  }

  /** `reduce_frag_size` */
  ghost function ReduceFrag(s: State, t: Tid, x: nat): State
    requires t < |s.caches|
  {
    var c := s.caches[t].(frag := s.caches[t].frag - x, inc := s.caches[t].inc - x);
    if c.inc + s.cfg.flush < 0 then Put(s.(pool := s.pool + c.inc), t, c.(inc := 0)) else Put(s, t, c)
  }

  ghost function AddFrag(s: State, t: Tid, x: nat): State
    requires t < |s.caches|
  {
    var c := s.caches[t].(frag := s.caches[t].frag + x, inc := s.caches[t].inc + x);
    if c.inc > s.cfg.flush then Put(s.(pool := s.pool + c.inc), t, c.(inc := 0)) else Put(s, t, c)
  }

  /** `sfree` of the span of `o`: next to the hot area it joins it, else it goes to a list. */
  ghost function Sfree(s: State, t: Tid, o: Owner): State
    requires t < |s.caches| && o in s.d && s.d[o].lo < s.d[o].hi && Hot(t) in s.d
    requires |s.caches[t].fast| == s.cfg.fmax
  {
    var c, pos, len := s.caches[t], s.d[o].lo, s.d[o].hi - s.d[o].lo;
    if s.d[o].hi == c.hotPos then
      Put(s.(d := Absorb(s.d, Hot(t), o)), t, c.(hotPos := pos))
    else if len <= s.cfg.fmax then
      AddFrag(Put(s.(d := Give(s.d, o, Free(t, pos))), t, c.(fast := c.fast[len - 1 := [pos] + c.fast[len - 1]])), t,
        len)
    else
      AddFrag(Put(s.(d := Give(s.d, o, Free(t, pos))), t,
                  c.(huge := [Block(pos, len)] + c.huge, hugeSum := c.hugeSum + len)), t, len)
  }

  /** What is left of the hot area goes to a list; the thread is then without one. */
  ghost function Retire(s: State, t: Tid): State
    requires t < |s.caches| && Hot(t) in s.d && s.d[Hot(t)] == Span(s.caches[t].hotPos, s.caches[t].hotEnd)
    requires |s.caches[t].fast| == s.cfg.fmax
  {
    if s.caches[t].hotPos < s.caches[t].hotEnd then Sfree(s, t, Hot(t)) else s.(d := s.d - {Hot(t)})
  }

  /** The span of `o` becomes the hot area. */
  ghost function MakeHot(s: State, t: Tid, o: Owner): State
    requires t < |s.caches| && o in s.d
  {
    Put(s.(d := Give(s.d, o, Hot(t))), t, s.caches[t].(hotPos := s.d[o].lo, hotEnd := s.d[o].hi))
  }

  ghost predicate Ready(s: State, t: Tid) {
    && t < |s.caches| && |s.caches[t].fast| == s.cfg.fmax
    && Hot(t) in s.d && s.d[Hot(t)] == Span(s.caches[t].hotPos, s.caches[t].hotEnd)
    && s.caches[t].hotPos <= s.caches[t].hotEnd
  }

  datatype Take = NoRoom | Took(pos: nat, s: State)

  /** The first block of a fast list. */
  ghost function PopFast(s: State, t: Tid, len: nat): State
    requires Ready(s, t) && 0 < len <= s.cfg.fmax && s.caches[t].fast[len - 1] != []
  {
    var c := s.caches[t];
    Put(s, t, c.(fast := c.fast[len - 1 := c.fast[len - 1][1..]]))
  }

  /** The front of the hot area. */
  ghost function Bump(s: State, t: Tid, req: nat): Take
    requires Ready(s, t)
  {
    var p := s.caches[t].hotPos;
    if p + req <= s.caches[t].hotEnd then
      Took(p, Put(s.(d := CutLow(s.d, Hot(t), p + req, Live(p))), t, s.caches[t].(hotPos := p + req)))
    else
      NoRoom
  }

  /** The first huge block, off its list but still in the counts, held as Granted. */
  ghost function PopHuge(s: State, t: Tid): State
    requires Ready(s, t) && s.caches[t].huge != [] && Free(t, s.caches[t].huge[0].pos) in s.d
  {
    var c := s.caches[t];
    Put(s.(d := Give(s.d, Free(t, c.huge[0].pos), Granted(t))), t, c.(huge := c.huge[1..]))
  }

  ghost function UncountHuge(s: State, t: Tid, len: nat): State
    requires t < |s.caches|
  {
    ReduceFrag(Put(s, t, s.caches[t].(hugeSum := s.caches[t].hugeSum - len)), t, len)
  }

  /** The blocks that the lists name are in the division. */
  ghost predicate Named(s: State, t: Tid) {
    && t < |s.caches|
    && (forall i, p :: 0 <= i < |s.caches[t].fast| && p in s.caches[t].fast[i] ==> Free(t, p) in s.d)
    && (forall b :: b in s.caches[t].huge ==>
      Free(t, b.pos) in s.d && s.d[Free(t, b.pos)] == Span(b.pos, b.pos + b.len))
  }

  /** `TCMemPoolOneThread::alloc` for a request that has a fast list: that list, the list of blocks
      twice as long, the hot area, or a huge block as the new hot area. */
  ghost function TakeSmall(s: State, t: Tid, req: nat): Take
    requires Ready(s, t) && Named(s, t) && 0 < req <= s.cfg.fmax
  {
    var c := s.caches[t];
    if c.fast[req - 1] != [] then
      var p := c.fast[req - 1][0];
      var s1 := PopFast(s, t, req);
      Took(p, ReduceFrag(s1.(d := Give(s.d, Free(t, p), Live(p))), t, req))
    else if 2 * req <= s.cfg.fmax && c.fast[2 * req - 1] != [] then
      var p := c.fast[2 * req - 1][0];
      var s1 := PopFast(s, t, 2 * req);
      var d1 := Cut(Give(s.d, Free(t, p), Live(p)), Live(p), p + req, Free(t, p + req));
      Took(p, ReduceFrag(Put(s1.(d := d1), t, s1.caches[t].(fast := s1.caches[t].fast[req - 1 := [p + req]])), t, req))
    else if Bump(s, t, req).Took? then
      Bump(s, t, req)
    else if c.huge != [] && c.huge[0].len >= req then
      var b := c.huge[0];
      var s1 := Retire(PopHuge(s, t), t);
      var s2 := MakeHot(s1.(d := CutLow(s1.d, Granted(t), b.pos + req, Live(b.pos))), t, Granted(t));
      Took(b.pos, UncountHuge(s2, t, b.len))
    else
      NoRoom
  }

  /** The same for a longer request: the first huge block if it is long enough, or the hot area. */
  ghost function TakeLarge(s: State, t: Tid, req: nat): Take
    requires Ready(s, t) && Named(s, t) && s.cfg.fmax < req
  {
    var c := s.caches[t];
    if c.huge != [] && c.huge[0].len >= req then
      var b := c.huge[0];
      var s1 := UncountHuge(PopHuge(s, t), t, b.len);
      if b.len > req then
        Took(b.pos, Sfree(s1.(d := CutLow(s1.d, Granted(t), b.pos + req, Live(b.pos))), t, Granted(t)))
      else
        Took(b.pos, s1.(d := Give(s1.d, Granted(t), Live(b.pos))))
    else
      Bump(s, t, req)
  }

  ghost function TakeLocal(s: State, t: Tid, req: nat): Take
    requires Ready(s, t) && Named(s, t) && 0 < req
  {
    if req <= s.cfg.fmax then TakeSmall(s, t, req) else TakeLarge(s, t, req)
  }

  // ------------------------------------------------------------------ the invariant

  ghost predicate NoDupBlocks(s: seq<Block>) {
    forall i, j :: 0 <= i < j < |s| ==> s[i].pos != s[j].pos
  }

  /** The fast lists of thread t name its free blocks of their length, each once. */
  ghost predicate FastListed(d: Division, t: Tid, fast: seq<seq<nat>>) {
    && (forall i :: 0 <= i < |fast| ==> NoDup(fast[i]))
    && (forall i, p :: 0 <= i < |fast| ==> (p in fast[i] <==> Free(t, p) in d && Len(d[Free(t, p)]) == i + 1))
  }

  /** The huge list of thread t names its other free blocks, each once, with their lengths. */
  ghost predicate HugeListed(d: Division, t: Tid, fmax: nat, huge: seq<Block>) {
    && NoDupBlocks(huge)
    && (forall b :: b in huge ==>
      Free(t, b.pos) in d && d[Free(t, b.pos)] == Span(b.pos, b.pos + b.len) && fmax < b.len)
    && (forall p :: Free(t, p) in d && Len(d[Free(t, p)]) > fmax ==> Block(p, Len(d[Free(t, p)])) in huge)
  }

  ghost predicate Listed(d: Division, t: Tid, fmax: nat, c: Cache) {
    && |c.fast| == fmax
    && FastListed(d, t, c.fast)
    && HugeListed(d, t, fmax, c.huge)
  }

  ghost predicate Proper(d: Division, threads: nat, o: Owner)
    requires o in d
  {
    match o
    case Live(p) => d[o].lo == p && d[o].lo < d[o].hi
    case Free(t, p) => t < threads && d[o].lo == p && d[o].lo < d[o].hi
    case Hot(t) => t < threads
    case Granted(t) => t < threads && d[o].lo < d[o].hi
  }

  ghost predicate AllProper(d: Division, threads: nat) {
    forall o :: o in d ==> Proper(d, threads, o)
  }

  ghost predicate HotAt(d: Division, t: Tid, c: Cache) {
    && Hot(t) in d && d[Hot(t)] == Span(c.hotPos, c.hotEnd) && c.hotPos <= c.hotEnd
  }

  /** Thread t may be without its hot area, the others have theirs. */
  ghost predicate InvBut(s: State, t: Tid) {
    && Tiles(s.d, s.n) && s.n <= s.cfg.cap
    && AllProper(s.d, |s.caches|)
    && (forall u :: 0 <= u < |s.caches| ==> Listed(s.d, u, s.cfg.fmax, s.caches[u]))
    && (forall u :: 0 <= u < |s.caches| && u != t ==> HotAt(s.d, u, s.caches[u]))
  }

  /** The whole invariant of the division and the lists. */
  ghost predicate Sound(s: State) {
    InvBut(s, |s.caches|)
  }

  /** Owners that an operation of thread t may touch. */
  ghost predicate Concerns(o: Owner, t: Tid) {
    match o
    case Live(_) => true
    case Free(u, _) => u == t
    case Hot(u) => u == t
    case Granted(u) => u == t
  }

  ghost predicate OnlyFor(d: Division, d': Division, t: Tid) {
    forall o :: !Concerns(o, t) ==> (o in d' <==> o in d) && (o in d ==> d'[o] == d[o])
  }

  /** The free blocks of thread t, but for the one at `pos`. */
  ghost predicate SameFree(d: Division, d': Division, t: Tid, pos: int) {
    forall p {:trigger Free(t, p)} :: p != pos ==>
      (Free(t, p) in d' <==> Free(t, p) in d) && (Free(t, p) in d ==> d'[Free(t, p)] == d[Free(t, p)])
  }

  lemma ListedFrame(d: Division, d': Division, t: Tid, fmax: nat, c: Cache)
    requires Listed(d, t, fmax, c) && SameFree(d, d', t, -1)
    ensures Listed(d', t, fmax, c)
  {
  }

  lemma PushListed(d: Division, d': Division, t: Tid, fmax: nat, c: Cache, pos: nat, len: nat)
    requires Listed(d, t, fmax, c) && SameFree(d, d', t, pos) && 0 < len
    requires Free(t, pos) !in d && Free(t, pos) in d' && d'[Free(t, pos)] == Span(pos, pos + len)
    ensures len <= fmax ==> Listed(d', t, fmax, c.(fast := c.fast[len - 1 := [pos] + c.fast[len - 1]]))
    ensures len > fmax ==> Listed(d', t, fmax, c.(huge := [Block(pos, len)] + c.huge))
  {
  }

  lemma PopFastListed(d: Division, d': Division, t: Tid, fmax: nat, c: Cache, len: nat)
    requires Listed(d, t, fmax, c) && 0 < len <= fmax && c.fast[len - 1] != []
    requires var p := c.fast[len - 1][0]; SameFree(d, d', t, p) && Free(t, p) !in d'
    ensures Listed(d', t, fmax, c.(fast := c.fast[len - 1 := c.fast[len - 1][1..]]))
  {
  }

  lemma PopHugeListed(d: Division, d': Division, t: Tid, fmax: nat, c: Cache)
    requires Listed(d, t, fmax, c) && c.huge != []
    requires SameFree(d, d', t, c.huge[0].pos) && Free(t, c.huge[0].pos) !in d'
    ensures Listed(d', t, fmax, c.(huge := c.huge[1..]))
  {
  }

  // ------------------------------------------------------------------ the operations keep it

  /** An operation of thread t leaves the others as they were. */
  lemma Rebuild(s: State, s': State, t: Tid)
    requires InvBut(s, t) && t < |s.caches| == |s'.caches| && s'.cfg == s.cfg
    requires forall u :: 0 <= u < |s.caches| && u != t ==> s'.caches[u] == s.caches[u]
    requires OnlyFor(s.d, s'.d, t) && Tiles(s'.d, s'.n) && s'.n <= s.cfg.cap
    requires AllProper(s'.d, |s'.caches|) && Listed(s'.d, t, s.cfg.fmax, s'.caches[t])
    ensures InvBut(s', t)
    ensures HotAt(s'.d, t, s'.caches[t]) ==> Sound(s')
  {
    hide Tiles, AllProper, Listed;
    forall u | 0 <= u < |s'.caches| && u != t
      ensures Listed(s'.d, u, s.cfg.fmax, s'.caches[u]) && HotAt(s'.d, u, s'.caches[u])
    {
      assert SameFree(s.d, s'.d, u, -1);
      ListedFrame(s.d, s'.d, u, s.cfg.fmax, s.caches[u]);
      assert HotAt(s.d, u, s.caches[u]) && !Concerns(Hot(u), t);
    }
  }

  lemma SoundBut(s: State, t: Tid)
    requires Sound(s) && t < |s.caches|
    ensures InvBut(s, t) && Ready(s, t) && Named(s, t)
  {
    assert Listed(s.d, t, s.cfg.fmax, s.caches[t]) && HotAt(s.d, t, s.caches[t]);
  }

  /** A span that is not empty is the only one at its start. */
  lemma NotThere(s: State, t: Tid, o: Owner, o': Owner)
    requires InvBut(s, t) && o in s.d && s.d[o].lo < s.d[o].hi
    requires o' == Live(s.d[o].lo) || (exists u :: o' == Free(u, s.d[o].lo))
    ensures o' in s.d ==> o' == o
  {
    if o' in s.d && o' != o {
      assert Proper(s.d, |s.caches|, o');
      StartsDiffer(s.d, s.n, o, o');
    }
  }

  lemma FragKeeps(s: State, t: Tid, x: nat)
    requires t < |s.caches|
    ensures var s1, s2 := ReduceFrag(s, t, x), AddFrag(s, t, x);
      && s1.d == s.d == s2.d && s1.n == s.n == s2.n && s1.cfg == s.cfg == s2.cfg && s1.grants == s.grants == s2.grants
      && s1.caches == s.caches[t := s.caches[t].(frag := s1.caches[t].frag, inc := s1.caches[t].inc)]
      && s2.caches == s.caches[t := s.caches[t].(frag := s2.caches[t].frag, inc := s2.caches[t].inc)]
  {
  }

  lemma GiveFacts(d: Division, t: Tid, threads: nat, o: Owner, o': Owner)
    requires o in d && AllProper(d, threads) && o != o' && Concerns(o, t) && Concerns(o', t)
    requires Proper(d[o' := d[o]], threads, o')
    ensures AllProper(Give(d, o, o'), threads) && OnlyFor(d, Give(d, o, o'), t)
    ensures o !in Give(d, o, o') && o' in Give(d, o, o') && Give(d, o, o')[o'] == d[o]
    ensures forall p :: p != o && p != o' ==>
      (p in Give(d, o, o') <==> p in d) && (p in d ==> Give(d, o, o')[p] == d[p])
  {
    forall p | p in Give(d, o, o') ensures Proper(Give(d, o, o'), threads, p) {
      if p != o' { assert Proper(d, threads, p); }
    }
  }

  lemma AbsorbFacts(d: Division, t: Tid, threads: nat, o: Owner)
    requires o in d && Hot(t) in d && AllProper(d, threads) && o != Hot(t) && Concerns(o, t)
    ensures var d' := Absorb(d, Hot(t), o); AllProper(d', threads) && OnlyFor(d, d', t) && o !in d' && Hot(t) in d'
    ensures var d' := Absorb(d, Hot(t), o);
      forall p :: p != o && p != Hot(t) ==> (p in d' <==> p in d) && (p in d ==> d'[p] == d[p])
  {
    var d' := Absorb(d, Hot(t), o);
    assert Proper(d, threads, Hot(t));
    forall p | p in d' ensures Proper(d', threads, p) {
      if p != Hot(t) { assert Proper(d, threads, p); }
    }
  }

  /** A freed span that joins the hot area. */
  lemma SfreeJoins(s: State, t: Tid, o: Owner)
    requires Sound(s) && Ready(s, t) && o in s.d && s.d[o].lo < s.d[o].hi && s.d[o].hi == s.caches[t].hotPos
    requires o.Live? || o == Granted(t)
    ensures var s' := Sfree(s, t, o); Sound(s') && s'.n == s.n && OnlyFor(s.d, s'.d, t) && o !in s'.d
  {
    SoundBut(s, t);
    var s' := Sfree(s, t, o);
    assert Listed(s.d, t, s.cfg.fmax, s.caches[t]);
    AbsorbFacts(s.d, t, |s.caches|, o);
    hide Listed, Tiles, AllProper, InvBut;
    SoundParts(s, t);
    AbsorbTiles(s.d, s.n, Hot(t), o);
    ListedFrame(s.d, s'.d, t, s.cfg.fmax, s.caches[t]);
    hide OnlyFor;
    ListedSame(s'.d, t, s.cfg.fmax, s.caches[t], s'.caches[t]);
    Rebuild(s, s', t);
  }

  lemma SoundParts(s: State, t: Tid)
    requires InvBut(s, t)
    ensures Tiles(s.d, s.n) && s.n <= s.cfg.cap && AllProper(s.d, |s.caches|)
    ensures t < |s.caches| ==> Listed(s.d, t, s.cfg.fmax, s.caches[t])
  {
  }

  /** Only the lists of a cache matter to `Listed`. */
  lemma ListedSame(d: Division, t: Tid, fmax: nat, c: Cache, c': Cache)
    requires Listed(d, t, fmax, c) && c'.fast == c.fast && c'.huge == c.huge
    ensures Listed(d, t, fmax, c')
  {
  }

  /** The cache after a block was put on the list for its length. */
  ghost function Pushed(c: Cache, fmax: nat, pos: nat, len: nat): Cache
    requires |c.fast| == fmax && 0 < len
  {
    if len <= fmax then
      c.(fast := c.fast[len - 1 := [pos] + c.fast[len - 1]])
    else
      c.(huge := [Block(pos, len)] + c.huge)
  }

  lemma PushedListed(d: Division, d': Division, t: Tid, fmax: nat, c: Cache, pos: nat, len: nat)
    requires Listed(d, t, fmax, c) && SameFree(d, d', t, pos) && 0 < len
    requires Free(t, pos) !in d && Free(t, pos) in d' && d'[Free(t, pos)] == Span(pos, pos + len)
    ensures |c.fast| == fmax && Listed(d', t, fmax, Pushed(c, fmax, pos, len))
  {
    PushListed(d, d', t, fmax, c, pos, len);
  }

  lemma GiveSame(d: Division, t: Tid, o: Owner, pos: nat)
    requires o in d && !o.Free?
    ensures SameFree(d, Give(d, o, Free(t, pos)), t, pos)
  {
  }

  lemma GivePush(s: State, t: Tid, o: Owner)
    requires InvBut(s, t) && t < |s.caches| && o in s.d && s.d[o].lo < s.d[o].hi && |s.caches[t].fast| == s.cfg.fmax
    requires o.Live? || o == Granted(t) || o == Hot(t)
    ensures var pos := s.d[o].lo; var d' := Give(s.d, o, Free(t, pos));
      && Tiles(d', s.n) && AllProper(d', |s.caches|) && OnlyFor(s.d, d', t) && o !in d' && Free(t, pos) !in s.d
      && Listed(d', t, s.cfg.fmax, Pushed(s.caches[t], s.cfg.fmax, pos, s.d[o].hi - pos))
      && (o != Hot(t) && Hot(t) in s.d ==> Hot(t) in d' && d'[Hot(t)] == s.d[Hot(t)])
  {
    SoundParts(s, t);
    var pos := s.d[o].lo;
    NotThere(s, t, o, Free(t, pos));
    GiveFacts(s.d, t, |s.caches|, o, Free(t, pos));
    GiveSame(s.d, t, o, pos);
    hide Listed, Tiles, AllProper, InvBut, OnlyFor, SameFree, Proper, Pushed, Give;
    GiveTiles(s.d, s.n, o, Free(t, pos));
    PushedListed(s.d, Give(s.d, o, Free(t, pos)), t, s.cfg.fmax, s.caches[t], pos, s.d[o].hi - pos);
  }

  lemma SfreeForm(s: State, t: Tid, o: Owner)
    requires Ready(s, t) && o in s.d && s.d[o].lo < s.d[o].hi && s.d[o].hi != s.caches[t].hotPos
    ensures var s', c := Sfree(s, t, o), Pushed(s.caches[t], s.cfg.fmax, s.d[o].lo, s.d[o].hi - s.d[o].lo);
      && s'.d == Give(s.d, o, Free(t, s.d[o].lo)) && s'.n == s.n && s'.cfg == s.cfg && s'.grants == s.grants
      && |s'.caches| == |s.caches| && (forall u :: 0 <= u < |s.caches| && u != t ==> s'.caches[u] == s.caches[u])
      && s'.caches[t].fast == c.fast && s'.caches[t].huge == c.huge
      && s'.caches[t].hotPos == c.hotPos == s.caches[t].hotPos && s'.caches[t].hotEnd == c.hotEnd == s.caches[t].hotEnd
  {
  }

  /** A freed span that goes to a list; `o` may be the hot area itself. */
  lemma SfreeLists(s: State, t: Tid, o: Owner)
    requires InvBut(s, t) && Ready(s, t) && o in s.d && s.d[o].lo < s.d[o].hi && s.d[o].hi != s.caches[t].hotPos
    requires o.Live? || o == Granted(t) || o == Hot(t)
    ensures var s' := Sfree(s, t, o);
      && InvBut(s', t) && s'.n == s.n && OnlyFor(s.d, s'.d, t) && o !in s'.d
      && (o != Hot(t) ==> Sound(s'))
      && Free(t, s.d[o].lo) !in s.d && s'.d == Give(s.d, o, Free(t, s.d[o].lo))
      && |s'.caches| == |s.caches| && s'.cfg == s.cfg && s'.grants == s.grants
      && s'.caches[t].hotPos == s.caches[t].hotPos && s'.caches[t].hotEnd == s.caches[t].hotEnd
  {
    hide Listed, Tiles, AllProper, InvBut, OnlyFor, Give, Sound, Sfree, Pushed;
    GivePush(s, t, o);
    SoundParts(s, t);
    SfreeForm(s, t, o);
    var s', pos, len := Sfree(s, t, o), s.d[o].lo, s.d[o].hi - s.d[o].lo;
    ListedSame(s'.d, t, s.cfg.fmax, Pushed(s.caches[t], s.cfg.fmax, pos, len), s'.caches[t]);
    Rebuild(s, s', t);
  }

  lemma SfreeKeeps(s: State, t: Tid, o: Owner)
    requires Sound(s) && t < |s.caches| && o in s.d && s.d[o].lo < s.d[o].hi
    requires o.Live? || o == Granted(t)
    ensures Ready(s, t)
    ensures var s' := Sfree(s, t, o);
      Sound(s') && s'.n == s.n && OnlyFor(s.d, s'.d, t) && o !in s'.d && s'.cfg == s.cfg && |s'.caches| == |s.caches|
  {
    SoundBut(s, t);
    hide InvBut, Sound, OnlyFor;
    if s.d[o].hi == s.caches[t].hotPos { SfreeJoins(s, t, o); } else { SfreeLists(s, t, o); }
  }

  lemma DropFacts(s: State, t: Tid)
    requires InvBut(s, t) && Ready(s, t) && s.caches[t].hotPos == s.caches[t].hotEnd
    ensures InvBut(s.(d := s.d - {Hot(t)}), t)
  {
    SoundParts(s, t);
    var s' := s.(d := s.d - {Hot(t)});
    assert AllProper(s'.d, |s.caches|) by {
      forall o | o in s'.d ensures Proper(s'.d, |s.caches|, o) { assert Proper(s.d, |s.caches|, o); }
    }
    DropTiles(s.d, s.n, Hot(t));
    ListedFrame(s.d, s'.d, t, s.cfg.fmax, s.caches[t]);
    Rebuild(s, s', t);
  }

  lemma RetireKeeps(s: State, t: Tid)
    requires InvBut(s, t) && Ready(s, t)
    ensures var s' := Retire(s, t);
      && InvBut(s', t) && s'.n == s.n && OnlyFor(s.d, s'.d, t) && Hot(t) !in s'.d && s'.cfg == s.cfg
      && |s'.caches| == |s.caches| && s'.grants == s.grants
      && (forall o :: o != Hot(t) && o in s.d ==> o in s'.d && s'.d[o] == s.d[o])
      && (forall o :: o in s'.d && !o.Free? ==> o in s.d)
  {
    if s.caches[t].hotPos < s.caches[t].hotEnd {
      SfreeLists(s, t, Hot(t));
    } else {
      DropFacts(s, t);
    }
    hide InvBut, Sfree;
  }

  /** The span of `o` as the hot area of a thread that has none. */
  lemma MakeHotKeeps(s: State, t: Tid, o: Owner)
    requires InvBut(s, t) && t < |s.caches| && o in s.d && Hot(t) !in s.d && (o == Granted(t) || o.Live?)
    ensures Sound(MakeHot(s, t, o)) && Ready(MakeHot(s, t, o), t)
  {
    SoundParts(s, t);
    var s' := MakeHot(s, t, o);
    GiveFacts(s.d, t, |s.caches|, o, Hot(t));
    SpanBounds(s.d, s.n, o);
    hide InvBut, AllProper, Listed, Tiles;
    GiveTiles(s.d, s.n, o, Hot(t));
    ListedFrame(s.d, s'.d, t, s.cfg.fmax, s.caches[t]);
    ListedSame(s'.d, t, s.cfg.fmax, s.caches[t], s'.caches[t]);
    Rebuild(s, s', t);
    SoundBut(s', t);
  }

  /** The one block that has come to life, of the requested length. */
  ghost predicate Gains(d: Division, d': Division, t: Tid, p: nat, len: nat) {
    && Live(p) !in d && Live(p) in d' && d'[Live(p)] == Span(p, p + len)
    && Moves(d, d', t, p)
    && Granted(t) !in d'
  }

  /** What thread t does, with no effect on live blocks other than the one at `p`. */
  ghost predicate Moves(d: Division, d': Division, t: Tid, p: nat) {
    && OnlyFor(d, d', t)
    && (forall q {:trigger Live(q)} :: q != p ==>
      (Live(q) in d' <==> Live(q) in d) && (Live(q) in d ==> d'[Live(q)] == d[Live(q)]))
  }

  lemma MovesTransitive(d: Division, d1: Division, d2: Division, t: Tid, p: nat)
    requires Moves(d, d1, t, p) && Moves(d1, d2, t, p)
    ensures Moves(d, d2, t, p)
  {
    forall o | !Concerns(o, t) ensures (o in d2 <==> o in d) && (o in d ==> d2[o] == d[o]) {
      assert o in d1 <==> o in d;
    }
    forall q: nat | q != p ensures (Live(q) in d2 <==> Live(q) in d) && (Live(q) in d ==> d2[Live(q)] == d[Live(q)]) {
      assert Live(q) in d1 <==> Live(q) in d;
    }
  }

  lemma NoLive(s: State, t: Tid, o: Owner)
    requires InvBut(s, t) && o in s.d && s.d[o].lo < s.d[o].hi && !o.Live?
    ensures Live(s.d[o].lo) !in s.d
  {
    NotThere(s, t, o, Live(s.d[o].lo));
  }

  /** The first block of a fast list, given to the caller. */
  lemma PopKeeps(s: State, t: Tid, len: nat)
    requires Sound(s) && t < |s.caches| && 0 < len <= s.cfg.fmax && |s.caches[t].fast| == s.cfg.fmax
    requires s.caches[t].fast[len - 1] != [] && Granted(t) !in s.d
    ensures var p := s.caches[t].fast[len - 1][0];
      && Ready(s, t) && Free(t, p) in s.d && s.d[Free(t, p)] == Span(p, p + len)
      && var s' := PopFast(s, t, len).(d := Give(s.d, Free(t, p), Live(p)));
      && Sound(s') && Ready(s', t) && Gains(s.d, s'.d, t, p, len) && Free(t, p) !in s'.d
  {
    SoundBut(s, t);
    var p := s.caches[t].fast[len - 1][0];
    assert Free(t, p) in s.d && Proper(s.d, |s.caches|, Free(t, p));
    var s' := PopFast(s, t, len).(d := Give(s.d, Free(t, p), Live(p)));
    NoLive(s, t, Free(t, p));
    SoundParts(s, t);
    GiveFacts(s.d, t, |s.caches|, Free(t, p), Live(p));
    hide InvBut, AllProper, Listed, Tiles;
    GiveTiles(s.d, s.n, Free(t, p), Live(p));
    PopFastListed(s.d, s'.d, t, s.cfg.fmax, s.caches[t], len);
    Rebuild(s, s', t);
  }

  /** A changed count does not matter. */
  lemma CountsKeep(s: State, s': State, t: Tid)
    requires Sound(s) && t < |s.caches| == |s'.caches| && s'.d == s.d && s'.n == s.n && s'.cfg == s.cfg
    requires forall u :: 0 <= u < |s.caches| ==>
      s'.caches[u].fast == s.caches[u].fast && s'.caches[u].huge == s.caches[u].huge
    requires forall u :: 0 <= u < |s.caches| ==>
      s'.caches[u].hotPos == s.caches[u].hotPos && s'.caches[u].hotEnd == s.caches[u].hotEnd
    ensures Sound(s')
  {
    hide Listed, Tiles, AllProper;
    forall u | 0 <= u < |s.caches| ensures Listed(s'.d, u, s.cfg.fmax, s'.caches[u]) && HotAt(s'.d, u, s'.caches[u]) {
      assert HotAt(s.d, u, s.caches[u]);
      ListedSame(s.d, u, s.cfg.fmax, s.caches[u], s'.caches[u]);
    }
  }

  lemma CutFacts(d: Division, t: Tid, threads: nat, o: Owner, mid: nat, o': Owner)
    requires o in d && o' !in d && AllProper(d, threads) && Concerns(o, t) && Concerns(o', t)
    requires d[o].lo < mid < d[o].hi && Proper(d[o' := Span(mid, d[o].hi)], threads, o')
    ensures var d' := Cut(d, o, mid, o');
      && AllProper(d', threads) && OnlyFor(d, d', t) && o in d' && d'[o] == Span(d[o].lo, mid)
      && o' in d' && d'[o'] == Span(mid, d[o].hi)
      && (forall p :: p != o && p != o' ==> (p in d' <==> p in d) && (p in d ==> d'[p] == d[p]))
  {
    var d' := Cut(d, o, mid, o');
    assert Proper(d, threads, o);
    forall p | p in d' ensures Proper(d', threads, p) {
      if p != o && p != o' { assert Proper(d, threads, p); }
    }
  }

  lemma CutLowFacts(d: Division, t: Tid, threads: nat, o: Owner, mid: nat, p: nat)
    requires o in d && Live(p) !in d && AllProper(d, threads) && (o == Hot(t) || o == Granted(t)) && p == d[o].lo
    requires d[o].lo < mid <= d[o].hi && (o == Granted(t) ==> mid < d[o].hi)
    ensures var d' := CutLow(d, o, mid, Live(p));
      && AllProper(d', threads) && OnlyFor(d, d', t) && o in d' && d'[o] == Span(mid, d[o].hi)
      && Live(p) in d' && d'[Live(p)] == Span(p, mid)
      && (forall q :: q != o && q != Live(p) ==> (q in d' <==> q in d) && (q in d ==> d'[q] == d[q]))
  {
    var d' := CutLow(d, o, mid, Live(p));
    assert Proper(d, threads, o);
    forall q | q in d' ensures Proper(d', threads, q) {
      if q != o && q != Live(p) { assert Proper(d, threads, q); }
    }
  }

  /** The upper part of a live block put on a list of thread t. */
  lemma SplitKeeps(s: State, t: Tid, p: nat, len: nat)
    requires Sound(s) && t < |s.caches| && Live(p) in s.d && p + len < s.d[Live(p)].hi && 0 < len
    requires |s.caches[t].fast| == s.cfg.fmax
    ensures var rest := s.d[Live(p)].hi - p - len; var d' := Cut(s.d, Live(p), p + len, Free(t, p + len));
      && rest > 0 && Free(t, p + len) !in s.d
      && Sound(Put(s.(d := d'), t, Pushed(s.caches[t], s.cfg.fmax, p + len, rest))) && OnlyFor(s.d, d', t)
      && Live(p) in d' && d'[Live(p)] == Span(p, p + len)
      && (forall o :: o != Live(p) && o != Free(t, p + len) ==>
        (o in d' <==> o in s.d) && (o in s.d ==> d'[o] == s.d[o]))
  {
    hide InvBut, Sound, Listed, Tiles, Proper, AllProper, Cut, OnlyFor;
    SoundBut(s, t);
    SoundParts(s, t);
    SplitFresh(s, t, p, len);
    var q, rest := p + len, s.d[Live(p)].hi - p - len;
    var d' := Cut(s.d, Live(p), q, Free(t, q));
    CutFacts(s.d, t, |s.caches|, Live(p), q, Free(t, q));
    CutTiles(s.d, s.n, Live(p), q, Free(t, q));
    PushListed(s.d, d', t, s.cfg.fmax, s.caches[t], q, rest);
    var s' := Put(s.(d := d'), t, Pushed(s.caches[t], s.cfg.fmax, q, rest));
    assert HotAt(d', t, s'.caches[t]);
    Rebuild(s, s', t);
  }

  lemma SplitFresh(s: State, t: Tid, p: nat, len: nat)
    requires Sound(s) && t < |s.caches| && Live(p) in s.d && p + len < s.d[Live(p)].hi && 0 < len
    ensures s.d[Live(p)].lo == p && Free(t, p + len) !in s.d
    ensures Proper(s.d[Free(t, p + len) := Span(p + len, s.d[Live(p)].hi)], |s.caches|, Free(t, p + len))
  {
    assert Proper(s.d, |s.caches|, Live(p));
    if Free(t, p + len) in s.d {
      assert Proper(s.d, |s.caches|, Free(t, p + len));
      StartsDiffer(s.d, s.n, Live(p), Free(t, p + len));
    }
  }

  lemma BumpKeeps(s: State, t: Tid, req: nat)
    requires Sound(s) && t < |s.caches| && 0 < req && Ready(s, t) && Bump(s, t, req).Took? && Granted(t) !in s.d
    ensures var s' := Bump(s, t, req).s; Sound(s') && Gains(s.d, s'.d, t, Bump(s, t, req).pos, req)
  {
    hide InvBut, Sound, Listed, Tiles, Proper, AllProper, CutLow, OnlyFor;
    SoundBut(s, t);
    SoundParts(s, t);
    var s', p := Bump(s, t, req).s, s.caches[t].hotPos;
    NoLive(s, t, Hot(t));
    CutLowFacts(s.d, t, |s.caches|, Hot(t), p + req, p);
    CutLowTiles(s.d, s.n, Hot(t), p + req, Live(p));
    assert SameFree(s.d, s'.d, t, -1);
    ListedFrame(s.d, s'.d, t, s.cfg.fmax, s.caches[t]);
    ListedSame(s'.d, t, s.cfg.fmax, s.caches[t], s'.caches[t]);
    Rebuild(s, s', t);
  }

  lemma PopHugeKeeps(s: State, t: Tid)
    requires Sound(s) && t < |s.caches| && Ready(s, t) && s.caches[t].huge != [] && Granted(t) !in s.d
    ensures var b := s.caches[t].huge[0];
      && Free(t, b.pos) in s.d && b.len > s.cfg.fmax
      && var s' := PopHuge(s, t);
      && Sound(s') && Ready(s', t) && Named(s', t) && s'.d == Give(s.d, Free(t, b.pos), Granted(t))
      && Granted(t) in s'.d && s'.d[Granted(t)] == Span(b.pos, b.pos + b.len) && Live(b.pos) !in s.d &&
        Moves(s.d, s'.d, t, b.pos)
  {
    SoundBut(s, t);
    SoundParts(s, t);
    var b := s.caches[t].huge[0];
    assert b in s.caches[t].huge && Proper(s.d, |s.caches|, Free(t, b.pos));
    var s' := PopHuge(s, t);
    NoLive(s, t, Free(t, b.pos));
    GiveFacts(s.d, t, |s.caches|, Free(t, b.pos), Granted(t));
    hide InvBut, Listed, Tiles, Proper, AllProper;
    GiveTiles(s.d, s.n, Free(t, b.pos), Granted(t));
    PopHugeListed(s.d, s'.d, t, s.cfg.fmax, s.caches[t]);
    Rebuild(s, s', t);
    SoundBut(s', t);
  }

  lemma CutGranted(s: State, t: Tid, req: nat)
    requires InvBut(s, t) && t < |s.caches| && Granted(t) in s.d && 0 < req < Len(s.d[Granted(t)])
    requires Live(s.d[Granted(t)].lo) !in s.d
    ensures var p := s.d[Granted(t)].lo; var s' := s.(d := CutLow(s.d, Granted(t), p + req, Live(p)));
      && InvBut(s', t) && Moves(s.d, s'.d, t, p) && Live(p) in s'.d && s'.d[Live(p)] == Span(p, p + req)
      && Granted(t) in s'.d && s'.d[Granted(t)] == Span(p + req, s.d[Granted(t)].hi)
      && (Hot(t) in s'.d <==> Hot(t) in s.d) && (Sound(s) ==> Sound(s'))
  {
    hide InvBut, Sound, Listed, Tiles, Proper, AllProper, CutLow, OnlyFor;
    SoundParts(s, t);
    var p := s.d[Granted(t)].lo;
    var s' := s.(d := CutLow(s.d, Granted(t), p + req, Live(p)));
    CutLowFacts(s.d, t, |s.caches|, Granted(t), p + req, p);
    CutLowTiles(s.d, s.n, Granted(t), p + req, Live(p));
    assert SameFree(s.d, s'.d, t, -1);
    ListedFrame(s.d, s'.d, t, s.cfg.fmax, s.caches[t]);
    if Sound(s) { SoundBut(s, t); }
    Rebuild(s, s', t);
  }

  lemma UncountKeeps(s: State, t: Tid, len: nat)
    requires t < |s.caches|
    ensures var s' := UncountHuge(s, t, len);
      && s'.d == s.d && s'.n == s.n && s'.cfg == s.cfg && s'.grants == s.grants && |s'.caches| == |s.caches|
      && (Sound(s) ==> Sound(s')) && (Ready(s, t) ==> Ready(s', t))
  {
    if Sound(s) {
      hide Sound;
      CountsKeep(s, UncountHuge(s, t, len), t);
    }
  }

  /** A huge block becomes the hot area, its front a live block. */
  lemma HugeHotKeeps(s: State, t: Tid, req: nat)
    requires Sound(s) && t < |s.caches| && Ready(s, t) && Named(s, t) && Granted(t) !in s.d
    requires s.caches[t].huge != [] && 0 < req <= s.cfg.fmax
    ensures var b := s.caches[t].huge[0];
      && Ready(PopHuge(s, t), t)
      && var s1 := Retire(PopHuge(s, t), t);
      && Granted(t) in s1.d && Granted(t) in CutLow(s1.d, Granted(t), b.pos + req, Live(b.pos)) &&
        |s1.caches| == |s.caches|
      && var s2 := MakeHot(s1.(d := CutLow(s1.d, Granted(t), b.pos + req, Live(b.pos))), t, Granted(t));
      && |s2.caches| == |s.caches|
      && var s' := UncountHuge(s2, t, b.len);
      && Sound(s') && Gains(s.d, s'.d, t, b.pos, req) && s'.n == s.n && s'.grants == s.grants && s'.cfg == s.cfg
  {
    hide Sound, InvBut, OnlyFor, Named, Moves, Retire, CutLow, UncountHuge;
    var b := s.caches[t].huge[0];
    PopHugeKeeps(s, t);
    var s0 := PopHuge(s, t);
    SoundBut(s0, t);
    RetireKeeps(s0, t);
    var s1 := Retire(s0, t);
    HugeHotMoves(s0, s1, t, b.pos);
    CutGranted(s1, t, req);
    var s2 := s1.(d := CutLow(s1.d, Granted(t), b.pos + req, Live(b.pos)));
    MakeHotKeeps(s2, t, Granted(t));
    var s3 := MakeHot(s2, t, Granted(t));
    HotMoves(s2.d, s3.d, t, b.pos);
    UncountKeeps(s3, t, b.len);
    MovesTransitive(s.d, s0.d, s1.d, t, b.pos);
    MovesTransitive(s.d, s1.d, s2.d, t, b.pos);
    MovesTransitive(s.d, s2.d, s3.d, t, b.pos);
  }

  lemma HugeHotMoves(s: State, s': State, t: Tid, p: nat)
    requires OnlyFor(s.d, s'.d, t) && Live(p) !in s.d
    requires forall o :: o != Hot(t) && o in s.d ==> o in s'.d && s'.d[o] == s.d[o]
    requires forall o :: o in s'.d && !o.Free? ==> o in s.d
    ensures Moves(s.d, s'.d, t, p) && Live(p) !in s'.d
  {
  }

  lemma HotMoves(d: Division, d': Division, t: Tid, p: nat)
    requires Granted(t) in d && d' == Give(d, Granted(t), Hot(t))
    ensures Moves(d, d', t, p)
    ensures Granted(t) !in d' && (Live(p) in d ==> Live(p) in d' && d'[Live(p)] == d[Live(p)])
  {
  }

  /** A long request served from the first huge block; the rest is freed. */
  lemma HugeLargeKeeps(s: State, t: Tid, req: nat)
    requires Sound(s) && t < |s.caches| && Ready(s, t) && Named(s, t) && Granted(t) !in s.d
    requires s.cfg.fmax < req && s.caches[t].huge != [] && s.caches[t].huge[0].len >= req
    ensures var r, b := TakeLarge(s, t, req), s.caches[t].huge[0];
      && r.Took? && r.pos == b.pos && Sound(r.s) && Gains(s.d, r.s.d, t, b.pos, req)
      && r.s.n == s.n && r.s.grants == s.grants && r.s.cfg == s.cfg && |r.s.caches| == |s.caches|
  {
    hide Sound, InvBut, OnlyFor, Moves, Retire, CutLow, UncountHuge, Sfree;
    var b := s.caches[t].huge[0];
    PopHugeKeeps(s, t);
    var s0 := PopHuge(s, t);
    UncountKeeps(s0, t, b.len);
    var s1 := UncountHuge(s0, t, b.len);
    SoundBut(s1, t);
    if b.len > req {
      StillNoLive(s.d, s0.d, t, b.pos);
      CutGranted(s1, t, req);
      var s2 := s1.(d := CutLow(s1.d, Granted(t), b.pos + req, Live(b.pos)));
      SfreeKeeps(s2, t, Granted(t));
      SfreeMoves(s2, t, b.pos);
      var s3 := Sfree(s2, t, Granted(t));
      MovesTransitive(s.d, s1.d, s2.d, t, b.pos);
      MovesTransitive(s.d, s2.d, s3.d, t, b.pos);
    } else {
      GrantedLives(s1, t, b.pos);
      MovesTransitive(s.d, s1.d, Give(s1.d, Granted(t), Live(b.pos)), t, b.pos);
    }
  }

  lemma StillNoLive(d: Division, d': Division, t: Tid, p: nat)
    requires Live(p) !in d && (exists o :: o in d && !o.Live? && d' == Give(d, o, Granted(t)))
    ensures Live(p) !in d'
  {
  }

  lemma SfreeMoves(s: State, t: Tid, p: nat)
    requires Sound(s) && Ready(s, t) && Granted(t) in s.d && s.d[Granted(t)].lo < s.d[Granted(t)].hi
    ensures var s' := Sfree(s, t, Granted(t)); Moves(s.d, s'.d, t, p) && s'.grants == s.grants
    ensures Live(p) in s.d ==>
      Live(p) in Sfree(s, t, Granted(t)).d && Sfree(s, t, Granted(t)).d[Live(p)] == s.d[Live(p)]
  {
    SfreeKeeps(s, t, Granted(t));
    hide Sound, OnlyFor;
  }

  lemma GrantedLives(s: State, t: Tid, p: nat)
    requires Sound(s) && t < |s.caches| && Granted(t) in s.d && s.d[Granted(t)].lo == p && Live(p) !in s.d
    ensures var d' := Give(s.d, Granted(t), Live(p));
      && Sound(s.(d := d')) && Moves(s.d, d', t, p) && Granted(t) !in d' && Live(p) in d' &&
        d'[Live(p)] == s.d[Granted(t)]
  {
    SoundBut(s, t);
    SoundParts(s, t);
    var s' := s.(d := Give(s.d, Granted(t), Live(p)));
    assert Proper(s.d, |s.caches|, Granted(t));
    GiveFacts(s.d, t, |s.caches|, Granted(t), Live(p));
    hide Sound, InvBut, Listed, Tiles, AllProper, Proper;
    GiveTiles(s.d, s.n, Granted(t), Live(p));
    ListedFrame(s.d, s'.d, t, s.cfg.fmax, s.caches[t]);
    Rebuild(s, s', t);
  }

  /** A block of twice the length: its first half for the caller, the second half on the empty
      list. */
  lemma HalfKeeps(s: State, t: Tid, req: nat)
    requires Sound(s) && t < |s.caches| && Ready(s, t) && Named(s, t) && Granted(t) !in s.d
    requires 0 < req && 2 * req <= s.cfg.fmax && s.caches[t].fast[req - 1] == [] && s.caches[t].fast[2 * req - 1] != []
    ensures var r, p := TakeSmall(s, t, req), s.caches[t].fast[2 * req - 1][0];
      && r.Took? && r.pos == p && Sound(r.s) && Gains(s.d, r.s.d, t, p, req)
      && r.s.n == s.n && r.s.grants == s.grants && r.s.cfg == s.cfg && |r.s.caches| == |s.caches|
  {
    hide Sound, InvBut, OnlyFor, Moves, Cut, ReduceFrag;
    var p := s.caches[t].fast[2 * req - 1][0];
    PopKeeps(s, t, 2 * req);
    var s1 := PopFast(s, t, 2 * req).(d := Give(s.d, Free(t, p), Live(p)));
    SplitKeeps(s1, t, p, req);
    var d2 := Cut(s1.d, Live(p), p + req, Free(t, p + req));
    var s2 := Put(s1.(d := d2), t, Pushed(s1.caches[t], s.cfg.fmax, p + req, req));
    SplitMoves(s1.d, d2, t, p, req);
    MovesTransitive(s.d, s1.d, d2, t, p);
    assert s1.caches[t].fast[req - 1] == [];
    assert [p + req] + s1.caches[t].fast[req - 1] == [p + req];
    FragKeeps(s2, t, req);
    CountsKeep(s2, ReduceFrag(s2, t, req), t);
  }

  lemma SplitMoves(d: Division, d': Division, t: Tid, p: nat, len: nat)
    requires OnlyFor(d, d', t) && Live(p) in d && Granted(t) !in d
    requires forall o :: o != Live(p) && o != Free(t, p + len) ==> (o in d' <==> o in d) && (o in d ==> d'[o] == d[o])
    ensures Moves(d, d', t, p) && Granted(t) !in d'
  {
  }

  ghost predicate Served(s: State, t: Tid, req: nat, r: Take) {
    r.Took? ==>
      && Sound(r.s) && Gains(s.d, r.s.d, t, r.pos, req)
      && r.s.n == s.n && r.s.grants == s.grants && r.s.cfg == s.cfg && |r.s.caches| == |s.caches|
  }

  lemma PopServed(s: State, t: Tid, req: nat)
    requires Sound(s) && t < |s.caches| && Ready(s, t) && Named(s, t) && Granted(t) !in s.d
    requires 0 < req <= s.cfg.fmax && s.caches[t].fast[req - 1] != []
    ensures Served(s, t, req, TakeSmall(s, t, req))
  {
    hide Sound, InvBut, OnlyFor, Moves, ReduceFrag, Give, Gains;
    PopKeeps(s, t, req);
    var p := s.caches[t].fast[req - 1][0];
    var s1 := PopFast(s, t, req).(d := Give(s.d, Free(t, p), Live(p)));
    FragKeeps(s1, t, req);
    CountsKeep(s1, ReduceFrag(s1, t, req), t);
  }

  lemma BumpServed(s: State, t: Tid, req: nat)
    requires Sound(s) && t < |s.caches| && Ready(s, t) && Granted(t) !in s.d && 0 < req
    ensures Served(s, t, req, Bump(s, t, req))
  {
    hide Sound, Gains;
    if Bump(s, t, req).Took? { BumpKeeps(s, t, req); }
  }

  lemma HugeServed(s: State, t: Tid, req: nat)
    requires Sound(s) && t < |s.caches| && Ready(s, t) && Named(s, t) && Granted(t) !in s.d
    requires 0 < req <= s.cfg.fmax && s.caches[t].fast[req - 1] == []
    requires !(2 * req <= s.cfg.fmax && s.caches[t].fast[2 * req - 1] != []) && !Bump(s, t, req).Took?
    ensures Served(s, t, req, TakeSmall(s, t, req))
  {
    hide Sound, Gains, Named, Bump, Ready;
    if s.caches[t].huge != [] && s.caches[t].huge[0].len >= req { HugeHotKeeps(s, t, req); }
  }

  lemma SmallServed(s: State, t: Tid, req: nat)
    requires Sound(s) && t < |s.caches| && Ready(s, t) && Named(s, t) && Granted(t) !in s.d && 0 < req <= s.cfg.fmax
    ensures Served(s, t, req, TakeSmall(s, t, req))
  {
    hide Sound, Gains, Named, Bump, ReduceFrag, UncountHuge, Give, Cut;
    if s.caches[t].fast[req - 1] != [] {
      PopServed(s, t, req);
    } else if 2 * req <= s.cfg.fmax && s.caches[t].fast[2 * req - 1] != [] {
      HalfKeeps(s, t, req);
    } else if Bump(s, t, req).Took? {
      BumpServed(s, t, req);
    } else {
      HugeServed(s, t, req);
    }
  }

  /** A local allocation, whatever serves it, hands out a block of the requested length that was
      nobody's, and keeps the invariant. */
  lemma TakeKeeps(s: State, t: Tid, req: nat)
    requires Sound(s) && t < |s.caches| && 0 < req && Granted(t) !in s.d
    ensures Ready(s, t) && Named(s, t) && Served(s, t, req, TakeLocal(s, t, req))
  {
    SoundBut(s, t);
    hide Sound, InvBut, Gains, Named, Bump, TakeSmall, Sfree, UncountHuge, Give;
    if req <= s.cfg.fmax {
      SmallServed(s, t, req);
    } else if s.caches[t].huge != [] && s.caches[t].huge[0].len >= req {
      HugeLargeKeeps(s, t, req);
    } else {
      BumpServed(s, t, req);
    }
  }

  // ------------------------------------------------------------------ the counts

  ghost function FastSum(fast: seq<seq<nat>>): nat {
    if fast == [] then 0 else FastSum(fast[..|fast| - 1]) + |fast| * |fast[|fast| - 1]|
  }

  ghost function HugeSum(huge: seq<Block>): nat {
    if huge == [] then 0 else huge[0].len + HugeSum(huge[1..])
  }

  lemma Distribute(a: nat, x: nat, y: nat)
    ensures a * x == a * y + a * (x - y)
  {
    assert x == y + (x - y);
  }

  lemma {:induction false} FastSumAt(fast: seq<seq<nat>>, i: nat, l: seq<nat>)
    requires i < |fast|
    ensures FastSum(fast[i := l]) == FastSum(fast) + (i + 1) * (|l| - |fast[i]|)
  {
    var n := |fast| - 1;
    if i == n {
      assert fast[i := l][..n] == fast[..n];
      Distribute(i + 1, |l|, |fast[i]|);
    } else {
      FastSumAt(fast[..n], i, l);
      assert fast[i := l][..n] == fast[..n][i := l];
    }
  }

  /** What the counts of a cache are ahead of its lists by. */
  ghost function Owe(c: Cache): int {
    c.frag - FastSum(c.fast) - HugeSum(c.huge)
  }

  ghost function OweHuge(c: Cache): int {
    c.hugeSum - HugeSum(c.huge)
  }

  /** Thread t's counts moved by the given amounts against its lists; what the pool lacks of it has
      not changed. */
  ghost predicate Accounts(s: State, s': State, t: Tid, owe: int, oweHuge: int) {
    && t < |s.caches| == |s'.caches|
    && (forall u :: 0 <= u < |s.caches| && u != t ==> s'.caches[u] == s.caches[u])
    && Owe(s'.caches[t]) == Owe(s.caches[t]) + owe
    && OweHuge(s'.caches[t]) == OweHuge(s.caches[t]) + oweHuge
    && s'.pool + s'.caches[t].inc - s'.caches[t].frag == s.pool + s.caches[t].inc - s.caches[t].frag
  }

  lemma AccountsAdd(s: State, s1: State, s2: State, t: Tid, a: int, b: int, x: int, y: int)
    requires Accounts(s, s1, t, a, b) && Accounts(s1, s2, t, x, y)
    ensures Accounts(s, s2, t, a + x, b + y)
  {
    hide Owe, OweHuge;
  }

  lemma FragAccounts(s: State, t: Tid, x: nat)
    requires t < |s.caches|
    ensures Accounts(s, ReduceFrag(s, t, x), t, 0 - x, 0) && Accounts(s, AddFrag(s, t, x), t, x, 0)
  {
    hide FastSum, HugeSum;
  }

  lemma DivisionAccounts(s: State, t: Tid, d: Division)
    requires t < |s.caches|
    ensures Accounts(s, s.(d := d), t, 0, 0)
  {
  }

  lemma {:induction false} PushAccounts(s: State, t: Tid, pos: nat, len: nat)
    requires t < |s.caches| && |s.caches[t].fast| == s.cfg.fmax && 0 < len
    ensures Accounts(s, Put(s, t, Pushed(s.caches[t], s.cfg.fmax, pos, len)), t, 0 - len,
                     if len <= s.cfg.fmax then 0 else 0 - len)
  {
    var c := s.caches[t];
    if len <= s.cfg.fmax {
      FastSumAt(c.fast, len - 1, [pos] + c.fast[len - 1]);
    } else {
      assert ([Block(pos, len)] + c.huge)[1..] == c.huge;
      assert HugeSum([Block(pos, len)] + c.huge) == len + HugeSum(c.huge);
    }
    hide FastSum, HugeSum;
  }

  lemma {:induction false} SfreeAccounts(s: State, t: Tid, o: Owner)
    requires Ready(s, t) && o in s.d && s.d[o].lo < s.d[o].hi
    ensures Accounts(s, Sfree(s, t, o), t, 0, 0)
  {
    var c, pos, len := s.caches[t], s.d[o].lo, s.d[o].hi - s.d[o].lo;
    if s.d[o].hi != c.hotPos {
      hide Owe, OweHuge;
      PushAccounts(s, t, pos, len);
      var s1 := Put(s, t, Pushed(c, s.cfg.fmax, pos, len));
      var s2 := Put(s.(d := Give(s.d, o, Free(t, pos))), t,
        if len <= s.cfg.fmax then Pushed(c, s.cfg.fmax, pos, len)
        else Pushed(c, s.cfg.fmax, pos, len).(hugeSum := c.hugeSum + len));
      assert Accounts(s1, s2, t, 0, if len <= s.cfg.fmax then 0 else len) by { CountHuge(s1, s2, t); }
      AccountsAdd(s, s1, s2, t, 0 - len, if len <= s.cfg.fmax then 0 else 0 - len,
                  0, if len <= s.cfg.fmax then 0 else len);
      FragAccounts(s2, t, len);
      AccountsAdd(s, s2, AddFrag(s2, t, len), t, 0 - len, 0, len, 0);
    }
  }

  lemma CountHuge(s: State, s': State, t: Tid)
    requires t < |s.caches| == |s'.caches| && s'.pool == s.pool
    requires forall u :: 0 <= u < |s.caches| && u != t ==> s'.caches[u] == s.caches[u]
    requires s'.caches[t] == s.caches[t].(hugeSum := s'.caches[t].hugeSum)
    ensures Accounts(s, s', t, 0, s'.caches[t].hugeSum - s.caches[t].hugeSum)
  {
  }

  lemma {:induction false} PopFastAccounts(s: State, t: Tid, len: nat)
    requires Ready(s, t) && 0 < len <= s.cfg.fmax && s.caches[t].fast[len - 1] != []
    ensures Accounts(s, PopFast(s, t, len), t, len, 0)
  {
    var l := s.caches[t].fast[len - 1];
    FastSumAt(s.caches[t].fast, len - 1, l[1..]);
    hide FastSum, HugeSum;
    assert |l[1..]| - |l| == -1;
  }

  lemma PopHugeAccounts(s: State, t: Tid)
    requires Ready(s, t) && s.caches[t].huge != [] && Free(t, s.caches[t].huge[0].pos) in s.d
    ensures Accounts(s, PopHuge(s, t), t, s.caches[t].huge[0].len, s.caches[t].huge[0].len)
  {
  }

  lemma UncountAccounts(s: State, t: Tid, len: nat)
    requires t < |s.caches|
    ensures Accounts(s, UncountHuge(s, t, len), t, 0 - len, 0 - len)
  {
    hide Owe, OweHuge, ReduceFrag;
    var s1 := Put(s, t, s.caches[t].(hugeSum := s.caches[t].hugeSum - len));
    assert Accounts(s, s1, t, 0, 0 - len) by { CountHuge(s, s1, t); }
    FragAccounts(s1, t, len);
    AccountsAdd(s, s1, ReduceFrag(s1, t, len), t, 0, 0 - len, 0 - len, 0);
  }

  /** Moving the ends of the hot area does not count. */
  lemma HotAccounts(s: State, s': State, t: Tid)
    requires t < |s.caches| == |s'.caches| && s'.pool == s.pool
    requires forall u :: 0 <= u < |s.caches| && u != t ==> s'.caches[u] == s.caches[u]
    requires s'.caches[t] == s.caches[t].(hotPos := s'.caches[t].hotPos, hotEnd := s'.caches[t].hotEnd)
    ensures Accounts(s, s', t, 0, 0)
  {
  }

  lemma RetireAccounts(s: State, t: Tid)
    requires Ready(s, t)
    ensures Accounts(s, Retire(s, t), t, 0, 0)
  {
    if s.caches[t].hotPos < s.caches[t].hotEnd {
      SfreeAccounts(s, t, Hot(t));
    } else {
      DivisionAccounts(s, t, s.d - {Hot(t)});
    }
    hide Accounts;
  }

  lemma SmallAccounts(s: State, t: Tid, req: nat)
    requires Ready(s, t) && Named(s, t) && 0 < req <= s.cfg.fmax && TakeSmall(s, t, req).Took?
    ensures Accounts(s, TakeSmall(s, t, req).s, t, 0, 0)
  {
    hide Accounts, TakeSmall;
    if s.caches[t].fast[req - 1] != [] {
      PopAccounts(s, t, req);
    } else if 2 * req <= s.cfg.fmax && s.caches[t].fast[2 * req - 1] != [] {
      HalfAccounts(s, t, req);
    } else {
      OtherAccounts(s, t, req);
    }
  }

  lemma OtherAccounts(s: State, t: Tid, req: nat)
    requires Ready(s, t) && Named(s, t) && 0 < req <= s.cfg.fmax && TakeSmall(s, t, req).Took?
    requires s.caches[t].fast[req - 1] == [] && !(2 * req <= s.cfg.fmax && s.caches[t].fast[2 * req - 1] != [])
    ensures Accounts(s, TakeSmall(s, t, req).s, t, 0, 0)
  {
    hide Accounts, Owe, OweHuge, UncountHuge;
    if Bump(s, t, req).Took? {
      HotAccounts(s, Bump(s, t, req).s, t);
    } else {
      HugeHotAccounts(s, t, req);
    }
  }

  lemma PopAccounts(s: State, t: Tid, req: nat)
    requires Ready(s, t) && Named(s, t) && 0 < req <= s.cfg.fmax && s.caches[t].fast[req - 1] != []
    ensures Accounts(s, TakeSmall(s, t, req).s, t, 0, 0)
  {
    hide Owe, OweHuge, ReduceFrag, Give;
    var p := s.caches[t].fast[req - 1][0];
    PopFastAccounts(s, t, req);
    var s1 := PopFast(s, t, req).(d := Give(s.d, Free(t, p), Live(p)));
    FragAccounts(s1, t, req);
  }

  lemma HalfAccounts(s: State, t: Tid, req: nat)
    requires Ready(s, t) && Named(s, t) && 0 < req && 2 * req <= s.cfg.fmax
    requires s.caches[t].fast[req - 1] == [] && s.caches[t].fast[2 * req - 1] != []
    ensures Accounts(s, TakeSmall(s, t, req).s, t, 0, 0)
  {
    hide Owe, OweHuge, ReduceFrag;
    var p := s.caches[t].fast[2 * req - 1][0];
    var s1 := PopFast(s, t, 2 * req);
    PopFastAccounts(s, t, 2 * req);
    assert s1.caches[t].fast[req - 1] == [] && [p + req] + s1.caches[t].fast[req - 1] == [p + req];
    PushAccounts(s1, t, p + req, req);
    var s2 := Put(s1.(d := Cut(Give(s.d, Free(t, p), Live(p)), Live(p), p + req, Free(t, p + req))), t,
                  Pushed(s1.caches[t], s.cfg.fmax, p + req, req));
    hide Owe, OweHuge, ReduceFrag, Give, Cut;
    FragAccounts(s2, t, req);
  }

  lemma HugeHotAccounts(s: State, t: Tid, req: nat)
    requires Ready(s, t) && Named(s, t) && 0 < req <= s.cfg.fmax && s.caches[t].huge != []
    requires Ready(PopHuge(s, t), t)
    requires var s1 := Retire(PopHuge(s, t), t);
      && Granted(t) in s1.d && t < |s1.caches|
      && Granted(t) in CutLow(s1.d, Granted(t), s.caches[t].huge[0].pos + req, Live(s.caches[t].huge[0].pos))
    ensures var b := s.caches[t].huge[0];
      var s1 := Retire(PopHuge(s, t), t);
      var s2 := MakeHot(s1.(d := CutLow(s1.d, Granted(t), b.pos + req, Live(b.pos))), t, Granted(t));
      t < |s2.caches| && Accounts(s, UncountHuge(s2, t, b.len), t, 0, 0)
  {
    hide Owe, OweHuge, ReduceFrag, Give, CutLow, Sfree, UncountHuge, Retire;
    var b := s.caches[t].huge[0];
    PopHugeAccounts(s, t);
    var s0 := PopHuge(s, t);
    RetireAccounts(s0, t);
    var s1 := Retire(s0, t);
    var s2 := MakeHot(s1.(d := CutLow(s1.d, Granted(t), b.pos + req, Live(b.pos))), t, Granted(t));
    HotAccounts(s1, s2, t);
    UncountAccounts(s2, t, b.len);
  }

  lemma LargeAccounts(s: State, t: Tid, req: nat)
    requires Ready(s, t) && Named(s, t) && s.cfg.fmax < req && TakeLarge(s, t, req).Took?
    ensures Accounts(s, TakeLarge(s, t, req).s, t, 0, 0)
  {
    hide Owe, OweHuge, ReduceFrag, CutLow, Sfree, UncountHuge;
    if s.caches[t].huge != [] && s.caches[t].huge[0].len >= req {
      var b := s.caches[t].huge[0];
      PopHugeAccounts(s, t);
      UncountAccounts(PopHuge(s, t), t, b.len);
      var s1 := UncountHuge(PopHuge(s, t), t, b.len);
      UncountKeeps(PopHuge(s, t), t, b.len);
      if b.len > req {
        var s2 := s1.(d := CutLow(s1.d, Granted(t), b.pos + req, Live(b.pos)));
        DivisionAccounts(s1, t, s2.d);
        assert Ready(s2, t) && Granted(t) in s2.d && s2.d[Granted(t)].lo < s2.d[Granted(t)].hi by {
          CutLowSpans(s1.d, t, b.pos + req, b.pos);
        }
        SfreeAccounts(s2, t, Granted(t));
      } else {
        DivisionAccounts(s1, t, Give(s1.d, Granted(t), Live(b.pos)));
      }
    } else {
      HotAccounts(s, Bump(s, t, req).s, t);
    }
  }

  lemma CutLowSpans(d: Division, t: Tid, mid: nat, p: nat)
    requires Granted(t) in d
    ensures var d' := CutLow(d, Granted(t), mid, Live(p));
      Granted(t) in d' && d'[Granted(t)] == Span(mid, d[Granted(t)].hi)
    ensures var d' := CutLow(d, Granted(t), mid, Live(p));
      forall u :: Hot(u) in d ==> Hot(u) in d' && d'[Hot(u)] == d[Hot(u)]
  {
  }

  lemma TakeAccounts(s: State, t: Tid, req: nat)
    requires Ready(s, t) && Named(s, t) && 0 < req && TakeLocal(s, t, req).Took?
    ensures Accounts(s, TakeLocal(s, t, req).s, t, 0, 0)
  {
    hide Accounts, TakeSmall, TakeLarge;
    if req <= s.cfg.fmax { SmallAccounts(s, t, req); } else { LargeAccounts(s, t, req); }
  }

  /** A free touches no other live block. */
  lemma SfreeLives(s: State, t: Tid, o: Owner)
    requires Ready(s, t) && o in s.d && s.d[o].lo < s.d[o].hi && o != Hot(t)
    ensures var d' := Sfree(s, t, o).d;
      && (forall q {:trigger Live(q)} :: Live(q) != o ==>
            (Live(q) in d' <==> Live(q) in s.d) && (Live(q) in s.d ==> d'[Live(q)] == s.d[Live(q)]))
      && (o.Live? ==> o !in d')
    ensures Sfree(s, t, o).grants == s.grants
  {
  }
}
