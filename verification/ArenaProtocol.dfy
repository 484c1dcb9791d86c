/** ThreadCacheMemPool with any number of threads (src/terark/mempool_thread_cache.cpp).  A thread
    works on its own cache without synchronization; the one shared step is the advance of the high
    water mark by compare-and-exchange, and the pool's count takes atomic additions.  Any thread may
    free any live block. */
module ArenaProtocol {

  import opened Arena

  datatype Event =
    | Join                                 // a thread gets its cache
    | Alloc(t: Tid, req: nat)              // served from the cache
    | Advance(t: Tid, req: nat)            // not served: the mark moves
    | Finish(t: Tid)                       // what was taken becomes the hot area and serves it
    | Release(t: Tid, pos: nat)            // sfree
    | Resize(t: Tid, pos: nat, len: nat)   // alloc3 of the block below the hot area
    | Shrink(t: Tid, pos: nat, len: nat)   // alloc3 to less
    | Flush(t: Tid)                        // sync_frag_size, clean_for_reuse

  function AlignUp(x: nat, a: nat): nat
    requires a > 0
  {
    (x + a - 1) / a * a
  }

  /** How far `chunk_alloc` advances the mark: up to a chunk border, or to the end of the arena when
      that still covers the request. */
  function ChunkLen(cfg: Config, n: nat, req: nat): (len: int)
    requires cfg.chunk > 0
    ensures n + req <= cfg.cap ==> req <= len <= cfg.cap - n
  {
    AlignedUp(req, cfg.chunk);
    var whole := AlignUp(req, cfg.chunk);
    var off := (cfg.skew + n) % cfg.chunk;
    var len := if off != 0 then whole + cfg.chunk - off else whole;
    if n + len > cfg.cap then cfg.cap - n else len
  }

  lemma AlignedUp(x: nat, a: nat)
    requires a > 0
    ensures AlignUp(x, a) >= x
  {
    assert x + a - 1 == (x + a - 1) / a * a + (x + a - 1) % a;
  }

  /** `b` is the least multiple of `c` that is at least `x`. */
  ghost predicate LeastAbove(b: nat, x: nat, c: nat)
    requires c > 0
  {
    b % c == 0 && x <= b < x + c
  }

  /** An advance that does not reach the end of the arena ends at a chunk border: at the request in
      whole chunks behind the first border that is not below the mark. */
  lemma ChunkBorder(cfg: Config, n: nat, req: nat) returns (border: nat, whole: nat)
    requires cfg.chunk > 0 && n + req <= cfg.cap
    ensures LeastAbove(border, cfg.skew + n, cfg.chunk) && LeastAbove(whole, req, cfg.chunk)
    ensures var end := border + whole - cfg.skew; n + ChunkLen(cfg, n, req) == if end > cfg.cap then cfg.cap else end
    ensures (border + whole) % cfg.chunk == 0
  {
    var x := cfg.skew + n;
    whole := AlignUp(req, cfg.chunk);
    AlignsUp(req, cfg.chunk);
    border := NextBorder(cfg.skew + n, cfg.chunk);
    SumMultiple(border, whole, cfg.chunk);
    hide AlignUp, LeastAbove;
  }

  lemma NextBorder(x: nat, c: nat) returns (border: nat)
    requires c > 0
    ensures LeastAbove(border, x, c) && border == if x % c == 0 then x else x + c - x % c
  {
    border := if x % c == 0 then x else x + (c - x % c);
    Remainder(x, c);
    if x % c != 0 { Multiple(border, c, x / c + 1); }
  }

  lemma Remainder(x: nat, c: nat)
    requires c > 0
    ensures x == x / c * c + x % c && (x / c + 1) * c == x / c * c + c && 0 <= x % c < c
  {
  }

  lemma SumMultiple(a: nat, b: nat, c: nat)
    requires c > 0 && a % c == 0 && b % c == 0
    ensures (a + b) % c == 0
  {
    Remainder(a, c);
    Remainder(b, c);
    var p, q := a / c, b / c;
    assert a + b == (p + q) * c;
    Multiple(a + b, c, p + q);
  }

  lemma AlignsUp(x: nat, a: nat)
    requires a > 0
    ensures LeastAbove(AlignUp(x, a), x, a)
  {
    var q := (x + a - 1) / a;
    AlignedUp(x, a);
    assert x + a - 1 == q * a + (x + a - 1) % a;
    Multiple(q * a, a, q);
  }

  lemma Multiple(x: nat, c: nat, k: nat)
    requires c > 0 && x == k * c
    ensures x % c == 0
  {
    var q, r := x / c, x % c;
    assert x == c * q + r;
    if r > 0 {
      if k <= q { MultipleLess(k, q, c); } else { MultipleLess(q + 1, k, c); }
    }
  }

  lemma MultipleLess(a: nat, b: nat, c: nat)
    requires a <= b
    ensures a * c <= b * c
  {
  }

  /** `set_hot_area` with what was granted. */
  ghost function SetHotArea(s: State, t: Tid): State
    requires Ready(s, t) && Granted(t) in s.d
  {
    if s.caches[t].hotEnd == s.d[Granted(t)].lo then
      Put(s.(d := Absorb(s.d, Hot(t), Granted(t))), t, s.caches[t].(hotEnd := s.d[Granted(t)].hi))
    else
      MakeHot(Retire(s, t), t, Granted(t))
  }

  ghost predicate Working(s: State, t: Tid) {
    t < |s.caches| && Ready(s, t) && Named(s, t)
  }

  ghost predicate Enabled(s: State, e: Event) {
    match e
    case Join => true
    case Alloc(t, req) => Working(s, t) && t !in s.grants && req > 0 && TakeLocal(s, t, req).Took?
    case Advance(t, req) =>
      Working(s, t) && t !in s.grants && req > 0 && TakeLocal(s, t, req).NoRoom?
      && s.cfg.chunk > 0 && s.n + req <= s.cfg.cap
    case Finish(t) => Working(s, t) && t in s.grants && Granted(t) in s.d
    case Release(t, pos) => Working(s, t) && t !in s.grants && Live(pos) in s.d && s.d[Live(pos)].lo < s.d[Live(pos)].hi
    case Resize(t, pos, len) =>
      Working(s, t) && t !in s.grants && Live(pos) in s.d && s.d[Live(pos)].hi == s.caches[t].hotPos
      && 0 < len && pos + len <= s.caches[t].hotEnd
    case Shrink(t, pos, len) =>
      Working(s, t) && t !in s.grants && Live(pos) in s.d && 0 < len && pos + len < s.d[Live(pos)].hi
      && s.d[Live(pos)].hi != s.caches[t].hotPos
    case Flush(t) => t < |s.caches|
  }

  ghost function NewCache(cfg: Config): Cache {
    Cache(0, 0, seq(cfg.fmax, _ => []), [], 0, 0, 0)
  }

  /** The border between a live block and the hot area above it moved. */
  ghost function Moved(d: Division, pos: nat, t: Tid, mid: nat): Division
    requires Live(pos) in d && Hot(t) in d
  {
    d[Live(pos) := Span(d[Live(pos)].lo, mid)][Hot(t) := Span(mid, d[Hot(t)].hi)]
  }

  /** What serves a request once the hot area has been set. */
  ghost function ServeNow(s: State, t: Tid, req: nat): Take {
    if Working(s, t) && 0 < req then TakeLocal(s, t, req) else NoRoom
  }

  ghost function Next(s: State, e: Event): State
    requires Enabled(s, e)
  {
    match e
    case Join => s.(d := s.d[Hot(|s.caches|) := Span(0, 0)], caches := s.caches + [NewCache(s.cfg)])
    case Alloc(t, req) => TakeLocal(s, t, req).s
    case Advance(t, req) =>
      s.(d := s.d[Granted(t) := Span(s.n, s.n + ChunkLen(s.cfg, s.n, req))], n := s.n + ChunkLen(s.cfg, s.n, req),
         grants := s.grants[t := req])
    case Finish(t) =>
      var s1 := SetHotArea(s.(grants := s.grants - {t}), t);
      var r := ServeNow(s1, t, s.grants[t]);
      if r.Took? then r.s else s1
    case Release(t, pos) => Sfree(s, t, Live(pos))
    case Resize(t, pos, len) =>
      Put(s.(d := Moved(s.d, pos, t, pos + len)), t, s.caches[t].(hotPos := pos + len))
    case Shrink(t, pos, len) =>
      Sfree(s.(d := Cut(s.d, Live(pos), pos + len, Granted(t))), t, Granted(t))
    case Flush(t) => Put(s.(pool := s.pool + s.caches[t].inc), t, s.caches[t].(inc := 0))
  }

  ghost predicate Runs(s: State, es: seq<Event>)
    decreases |es|
  {
    es == [] || (Enabled(s, es[0]) && Runs(Next(s, es[0]), es[1..]))
  }

  ghost function After(s: State, es: seq<Event>): State
    requires Runs(s, es)
    decreases |es|
  {
    if es == [] then s else After(Next(s, es[0]), es[1..])
  }

  ghost function Init(cfg: Config): State {
    State(cfg, 0, map[], [], 0, map[])
  }

  // ------------------------------------------------------------------ the invariant

  ghost predicate Grants(s: State) {
    && (forall t {:trigger t in s.grants} {:trigger Granted(t)} :: t in s.grants <==> Granted(t) in s.d)
    && (forall t :: t in s.grants ==> Granted(t) in s.d && 0 < s.grants[t] <= Len(s.d[Granted(t)]))
  }

  /** What the pool's count still lacks, over all threads. */
  ghost function Pending(caches: seq<Cache>): int {
    if caches == [] then 0 else Pending(caches[..|caches| - 1]) + caches[|caches| - 1].frag - caches[|caches| - 1].inc
  }

  /** Every cache counts its lists exactly, and the pool's count is the sum of what the caches have
      reported. */
  ghost predicate Books(s: State) {
    && (forall u :: 0 <= u < |s.caches| ==> Owe(s.caches[u]) == 0 && OweHuge(s.caches[u]) == 0)
    && s.pool == Pending(s.caches)
  }

  ghost predicate Inv(s: State) {
    Sound(s) && Grants(s) && Books(s)
  }

  lemma {:induction false} PendingAt(caches: seq<Cache>, t: nat, c: Cache)
    requires t < |caches|
    ensures Pending(caches[t := c]) == Pending(caches) + (c.frag - c.inc) - (caches[t].frag - caches[t].inc)
  {
    var n := |caches| - 1;
    if t == n {
      assert caches[t := c][..n] == caches[..n];
    } else {
      PendingAt(caches[..n], t, c);
      assert caches[t := c][..n] == caches[..n][t := c];
    }
  }

  lemma BooksKept(s: State, s': State, t: Tid)
    requires Books(s) && Accounts(s, s', t, 0, 0)
    ensures Books(s')
  {
    hide Owe, OweHuge;
    assert s'.caches == s.caches[t := s'.caches[t]];
    PendingAt(s.caches, t, s'.caches[t]);
  }

  lemma GrantsKept(s: State, s': State, t: Tid)
    requires Grants(s) && OnlyFor(s.d, s'.d, t) && s'.grants == s.grants && t !in s.grants && Granted(t) !in s'.d
    ensures Grants(s')
  {
    forall u: nat ensures u in s'.grants <==> Granted(u) in s'.d
      ensures u in s'.grants ==> Granted(u) in s'.d && 0 < s'.grants[u] <= Len(s'.d[Granted(u)])
    {
      assert u in s.grants <==> Granted(u) in s.d;
      if u != t { assert !Concerns(Granted(u), t); }
    }
  }

  /** The block an event of thread t hands out, of the requested length. */
  lemma AllocKept(s: State, e: Event)
    requires Inv(s) && Enabled(s, e) && e.Alloc?
    ensures Inv(Next(s, e)) && Gains(s.d, Next(s, e).d, e.t, TakeLocal(s, e.t, e.req).pos, e.req)
  {
    assert Granted(e.t) !in s.d by { assert e.t in s.grants <==> Granted(e.t) in s.d; }
    hide Sound, Grants, Books, TakeLocal, Gains, Accounts, Named, Ready;
    TakeKeeps(s, e.t, e.req);
    TakeAccounts(s, e.t, e.req);
    BooksKept(s, Next(s, e), e.t);
    assert OnlyFor(s.d, Next(s, e).d, e.t) && Granted(e.t) !in Next(s, e).d by {
      GainsParts(s.d, Next(s, e).d, e.t, TakeLocal(s, e.t, e.req).pos, e.req);
    }
    GrantsKept(s, Next(s, e), e.t);
  }

  lemma GainsParts(d: Division, d': Division, t: Tid, p: nat, len: nat)
    requires Gains(d, d', t, p, len)
    ensures OnlyFor(d, d', t) && Granted(t) !in d'
  {
  }

  lemma ReleaseKept(s: State, e: Event)
    requires Inv(s) && Enabled(s, e) && e.Release?
    ensures Inv(Next(s, e)) && Live(e.pos) !in Next(s, e).d
  {
    var s' := Next(s, e);
    assert Granted(e.t) !in s.d by { assert e.t in s.grants <==> Granted(e.t) in s.d; }
    SfreeKeeps(s, e.t, Live(e.pos));
    SfreeAccounts(s, e.t, Live(e.pos));
    SfreeForms(s, e.t, Live(e.pos));
    hide Sound, Grants, Books, Sfree, Accounts;
    BooksKept(s, s', e.t);
    GrantsKept(s, s', e.t);
  }

  lemma SfreeForms(s: State, t: Tid, o: Owner)
    requires Ready(s, t) && o in s.d && s.d[o].lo < s.d[o].hi
    ensures Sfree(s, t, o).grants == s.grants
    ensures forall u :: Granted(u) in Sfree(s, t, o).d ==> Granted(u) in s.d
  {
  }

  lemma AdvanceKept(s: State, e: Event)
    requires Inv(s) && Enabled(s, e) && e.Advance?
    ensures Inv(Next(s, e))
  {
    AdvanceSound(s, e);
    AdvanceGrants(s, e);
    hide Sound, Grants, Owe, OweHuge, Enabled;
  }

  lemma NoGrant(s: State, t: Tid)
    requires Grants(s) && t !in s.grants
    ensures Granted(t) !in s.d
  {
    assert t in s.grants <==> Granted(t) in s.d;
  }

  lemma GrowFacts(d: Division, t: Tid, threads: nat, s: Span)
    requires AllProper(d, threads) && t < threads && s.lo < s.hi && Granted(t) !in d
    ensures AllProper(d[Granted(t) := s], threads) && OnlyFor(d, d[Granted(t) := s], t) &&
      SameFree(d, d[Granted(t) := s], t, -1)
  {
    var d' := d[Granted(t) := s];
    forall o | o in d' ensures Proper(d', threads, o) {
      if o != Granted(t) { assert Proper(d, threads, o); }
    }
  }

  lemma AdvanceSound(s: State, e: Event)
    requires Sound(s) && Grants(s) && Enabled(s, e) && e.Advance?
    ensures Sound(Next(s, e))
  {
    hide InvBut, Sound, Listed, Tiles, Proper, AllProper, OnlyFor, TakeLocal, Grants, SameFree, Named;
    var s', len := Next(s, e), ChunkLen(s.cfg, s.n, e.req);
    NoGrant(s, e.t);
    SoundBut(s, e.t);
    SoundParts(s, e.t);
    GrowTiles(s.d, s.n, len, Granted(e.t));
    GrowFacts(s.d, e.t, |s.caches|, Span(s.n, s.n + len));
    ListedFrame(s.d, s'.d, e.t, s.cfg.fmax, s.caches[e.t]);
    Rebuild(s, s', e.t);
  }

  lemma AdvanceGrants(s: State, e: Event)
    requires Grants(s) && Enabled(s, e) && e.Advance?
    ensures Grants(Next(s, e))
  {
    hide TakeLocal, Named;
    var s' := Next(s, e);
    forall u: nat ensures u in s'.grants <==> Granted(u) in s'.d
      ensures u in s'.grants ==> Granted(u) in s'.d && 0 < s'.grants[u] <= Len(s'.d[Granted(u)])
    {
      assert u in s.grants <==> Granted(u) in s.d;
    }
  }

  lemma JoinKept(s: State)
    requires Inv(s)
    ensures Inv(Next(s, Join))
  {
    JoinSound(s);
    JoinGrants(s);
    JoinBooks(s);
    hide Sound, Grants, Books, Next;
  }

  lemma JoinBooks(s: State)
    requires Books(s)
    ensures Books(Next(s, Join))
  {
    var s', t := Next(s, Join), |s.caches|;
    assert s'.caches[..t] == s.caches;
    ZeroSum(NewCache(s.cfg).fast);
    assert Owe(NewCache(s.cfg)) == 0 && OweHuge(NewCache(s.cfg)) == 0;
    hide Owe, OweHuge, NewCache;
    assert NewCache(s.cfg).frag == 0 == NewCache(s.cfg).inc by { NewCounts(s.cfg); }
  }

  lemma NewCounts(cfg: Config)
    ensures NewCache(cfg).frag == 0 == NewCache(cfg).inc
  {
  }

  lemma {:induction false} ZeroSum(fast: seq<seq<nat>>)
    requires forall i :: 0 <= i < |fast| ==> fast[i] == []
    ensures FastSum(fast) == 0
  {
    if fast != [] { ZeroSum(fast[..|fast| - 1]); }
  }

  lemma JoinGrants(s: State)
    requires Grants(s)
    ensures Grants(Next(s, Join))
  {
    forall u: nat ensures u in s.grants <==> Granted(u) in Next(s, Join).d {
      assert u in s.grants <==> Granted(u) in s.d;
    }
  }

  lemma JoinSound(s: State)
    requires Sound(s)
    ensures Sound(Next(s, Join))
  {
    var s', t := Next(s, Join), |s.caches|;
    SoundParts(s, t);
    assert forall o :: o in s.d ==> Proper(s.d, t, o);
    assert Hot(t) !in s.d && forall p :: Free(t, p) !in s.d;
    AddTiles(s.d, s.n, Hot(t));
    forall o | o in s'.d ensures Proper(s'.d, t + 1, o) {
      if o != Hot(t) { assert Proper(s.d, t, o); }
    }
    forall u | 0 <= u <= t ensures Listed(s'.d, u, s.cfg.fmax, s'.caches[u]) && HotAt(s'.d, u, s'.caches[u]) {
      if u < t {
        assert Listed(s.d, u, s.cfg.fmax, s.caches[u]) && HotAt(s.d, u, s.caches[u]) && SameFree(s.d, s'.d, u, -1);
        ListedFrame(s.d, s'.d, u, s.cfg.fmax, s.caches[u]);
      }
    }
    hide Tiles, Listed, HotAt, Proper;
  }

  /** An owner of nothing appears. */
  lemma AddTiles(d: Division, n: nat, o: Owner)
    requires Tiles(d, n) && o !in d
    ensures Tiles(d[o := Span(0, 0)], n)
  {
    var tag :| |tag| == n && OwnersFit(d, tag);
    var d' := d[o := Span(0, 0)];
    forall p, u | p in d' && 0 <= u < |tag| && Within(d'[p], u) ensures tag[u] == p {
      assert p != o ==> Within(d[p], u);
    }
    forall u | 0 <= u < |tag| ensures tag[u] in d' && Within(d'[tag[u]], u) {
      assert Within(d[tag[u]], u);
    }
    assert OwnersFit(d', tag);
  }

  lemma FlushKept(s: State, e: Event)
    requires Inv(s) && Enabled(s, e) && e.Flush?
    ensures Inv(Next(s, e))
  {
    var s' := Next(s, e);
    CountsKeep(s, s', e.t);
    hide Sound, Owe, OweHuge;
    assert Accounts(s, s', e.t, 0, 0) by { FlushAccounts(s, e.t); }
    BooksKept(s, s', e.t);
  }

  lemma FlushAccounts(s: State, t: Tid)
    requires t < |s.caches|
    ensures Accounts(s, Put(s.(pool := s.pool + s.caches[t].inc), t, s.caches[t].(inc := 0)), t, 0, 0)
  {
  }

  lemma ResizeKept(s: State, e: Event)
    requires Inv(s) && Enabled(s, e) && e.Resize?
    ensures Inv(Next(s, e)) && Next(s, e).d[Live(e.pos)] == Span(e.pos, e.pos + e.len)
  {
    hide InvBut, Sound, Listed, Tiles, Proper, AllProper, OnlyFor, Books, Grants, SameFree, Named;
    var s', t := Next(s, e), e.t;
    SoundBut(s, t);
    SoundParts(s, t);
    MovedFacts(s.d, s.n, e.pos, t, e.pos + e.len, |s.caches|);
    ListedFrame(s.d, s'.d, t, s.cfg.fmax, s.caches[t]);
    ListedSame(s'.d, t, s.cfg.fmax, s.caches[t], s'.caches[t]);
    Rebuild(s, s', t);
    HotAccounts(s, s', t);
    BooksKept(s, s', t);
    MovedGrants(s, e);
  }

  lemma MovedFacts(d: Division, n: nat, pos: nat, t: Tid, mid: nat, threads: nat)
    requires Tiles(d, n) && AllProper(d, threads) && Live(pos) in d && Hot(t) in d
    requires d[Live(pos)].hi == d[Hot(t)].lo && pos < mid <= d[Hot(t)].hi
    ensures var d' := Moved(d, pos, t, mid);
      && Tiles(d', n) && AllProper(d', threads) && OnlyFor(d, d', t) && SameFree(d, d', t, -1)
      && d'[Live(pos)] == Span(pos, mid) && d'[Hot(t)] == Span(mid, d[Hot(t)].hi)
  {
    var d' := Moved(d, pos, t, mid);
    assert Proper(d, threads, Live(pos)) && Proper(d, threads, Hot(t));
    MovedTiles(d, n, pos, t, mid);
    forall o | o in d' ensures Proper(d', threads, o) {
      if o != Live(pos) && o != Hot(t) { assert Proper(d, threads, o); }
    }
  }

  lemma MovedGrants(s: State, e: Event)
    requires Grants(s) && Enabled(s, e) && e.Resize?
    ensures Grants(Next(s, e))
  {
    forall u: nat ensures u in s.grants <==> Granted(u) in Next(s, e).d {
      assert u in s.grants <==> Granted(u) in s.d;
    }
  }

  lemma MovedTiles(d: Division, n: nat, pos: nat, t: Tid, mid: nat)
    requires Tiles(d, n) && Live(pos) in d && Hot(t) in d
    requires d[Live(pos)].hi == d[Hot(t)].lo && d[Live(pos)].lo <= mid <= d[Hot(t)].hi
    ensures Tiles(Moved(d, pos, t, mid), n)
  {
    var tag :| |tag| == n && OwnersFit(d, tag);
    var both := Span(d[Live(pos)].lo, d[Hot(t)].hi);
    var d' := Moved(d, pos, t, mid);
    var tag' := Painted(Painted(tag, Span(both.lo, mid), Live(pos)), Span(mid, both.hi), Hot(t));
    forall u | 0 <= u < n && Within(both, u) ensures tag[u] == Live(pos) || tag[u] == Hot(t) {
      assert Within(d[Live(pos)], u) || Within(d[Hot(t)], u);
    }
    forall p, u | p in d' && 0 <= u < |tag'| && Within(d'[p], u) ensures tag'[u] == p {
      if p != Live(pos) && p != Hot(t) { assert Within(d[p], u); assert tag[u] == p; }
    }
    forall u | 0 <= u < |tag'| ensures tag'[u] in d' && Within(d'[tag'[u]], u) {
      assert Within(d[tag[u]], u);
    }
    assert OwnersFit(d', tag');
  }

  lemma ShrinkKept(s: State, e: Event)
    requires Inv(s) && Enabled(s, e) && e.Shrink?
    ensures Inv(Next(s, e)) && Live(e.pos) in Next(s, e).d && Next(s, e).d[Live(e.pos)] == Span(e.pos, e.pos + e.len)
  {
    hide InvBut, Sound, Listed, Tiles, AllProper, Grants, Books, Sfree, Accounts, OnlyFor, Cut, Named, Moves;
    var t := e.t;
    var s1 := s.(d := Cut(s.d, Live(e.pos), e.pos + e.len, Granted(t)));
    NoGrant(s, t);
    CutOff(s, t, e.pos, e.len);
    SfreeKeeps(s1, t, Granted(t));
    var s2 := Sfree(s1, t, Granted(t));
    DivisionAccounts(s, t, s1.d);
    SfreeAccounts(s1, t, Granted(t));
    AccountsAdd(s, s1, s2, t, 0, 0, 0, 0);
    SfreeForms(s1, t, Granted(t));
    SfreeMoves(s1, t, e.pos);
    BooksKept(s, s2, t);
    OnlyTwice(s.d, s1.d, s2.d, t);
    GrantsKept(s, s2, t);
  }

  lemma OnlyTwice(d: Division, d1: Division, d2: Division, t: Tid)
    requires OnlyFor(d, d1, t) && OnlyFor(d1, d2, t)
    ensures OnlyFor(d, d2, t)
  {
    forall o | !Concerns(o, t) ensures (o in d2 <==> o in d) && (o in d ==> d2[o] == d[o]) {
      assert o in d1 <==> o in d;
    }
  }

  lemma CutOff(s: State, t: Tid, pos: nat, len: nat)
    requires Sound(s) && t < |s.caches| && Live(pos) in s.d && Granted(t) !in s.d
    requires 0 < len && pos + len < s.d[Live(pos)].hi
    ensures var s' := s.(d := Cut(s.d, Live(pos), pos + len, Granted(t)));
      && Sound(s') && OnlyFor(s.d, s'.d, t) && Ready(s', t)
      && Live(pos) in s'.d && s'.d[Live(pos)] == Span(pos, pos + len)
      && Granted(t) in s'.d && s'.d[Granted(t)] == Span(pos + len, s.d[Live(pos)].hi)
  {
    hide InvBut, Sound, Listed, Tiles, AllProper, Proper, Cut, OnlyFor, SameFree, Named;
    SoundBut(s, t);
    SoundParts(s, t);
    LiveStart(s, t, pos, len);
    var s' := s.(d := Cut(s.d, Live(pos), pos + len, Granted(t)));
    CutFacts(s.d, t, |s.caches|, Live(pos), pos + len, Granted(t));
    CutTiles(s.d, s.n, Live(pos), pos + len, Granted(t));
    assert SameFree(s.d, s'.d, t, -1) by { SameFreeBut(s.d, s'.d, t, Live(pos), Granted(t)); }
    ListedFrame(s.d, s'.d, t, s.cfg.fmax, s.caches[t]);
    Rebuild(s, s', t);
  }

  lemma SameFreeBut(d: Division, d': Division, t: Tid, o: Owner, o': Owner)
    requires forall p :: p != o && p != o' ==> (p in d' <==> p in d) && (p in d ==> d'[p] == d[p])
    requires !o.Free? && !o'.Free?
    ensures SameFree(d, d', t, -1)
  {
  }

  lemma LiveStart(s: State, t: Tid, pos: nat, len: nat)
    requires Sound(s) && t < |s.caches| && Live(pos) in s.d && pos + len < s.d[Live(pos)].hi
    ensures s.d[Live(pos)].lo == pos
    ensures Proper(s.d[Granted(t) := Span(pos + len, s.d[Live(pos)].hi)], |s.caches|, Granted(t))
  {
    assert Proper(s.d, |s.caches|, Live(pos));
  }

  /** What was granted becomes, or extends, the hot area. */
  lemma SetHotAreaKeeps(s: State, t: Tid)
    requires Sound(s) && Ready(s, t) && Granted(t) in s.d
    ensures var s' := SetHotArea(s, t);
      && Sound(s') && Accounts(s, s', t, 0, 0) && OnlyFor(s.d, s'.d, t) && Granted(t) !in s'.d
      && s'.cfg == s.cfg && s'.n == s.n && s'.grants == s.grants && |s'.caches| == |s.caches|
      && s'.caches[t].hotEnd - s'.caches[t].hotPos >= Len(s.d[Granted(t)])
      && (forall q {:trigger Live(q)} ::
          (Live(q) in s'.d <==> Live(q) in s.d) && (Live(q) in s.d ==> s'.d[Live(q)] == s.d[Live(q)]))
  {
    if s.caches[t].hotEnd == s.d[Granted(t)].lo {
      HotExtends(s, t);
    } else {
      HotReplaced(s, t);
    }
  }

  lemma HotExtends(s: State, t: Tid)
    requires Sound(s) && Ready(s, t) && Granted(t) in s.d && s.caches[t].hotEnd == s.d[Granted(t)].lo
    ensures var s' := SetHotArea(s, t);
      && Sound(s') && Accounts(s, s', t, 0, 0) && OnlyFor(s.d, s'.d, t) && Granted(t) !in s'.d
      && s'.caches[t].hotEnd - s'.caches[t].hotPos >= Len(s.d[Granted(t)])
      && (forall q {:trigger Live(q)} ::
          (Live(q) in s'.d <==> Live(q) in s.d) && (Live(q) in s.d ==> s'.d[Live(q)] == s.d[Live(q)]))
  {
    hide InvBut, Sound, Listed, Tiles, Proper, AllProper, OnlyFor, SameFree, Named;
    var s' := SetHotArea(s, t);
    SoundBut(s, t);
    SoundParts(s, t);
    SpanBounds(s.d, s.n, Granted(t));
    AbsorbFacts(s.d, t, |s.caches|, Granted(t));
    AbsorbTiles(s.d, s.n, Hot(t), Granted(t));
    SameFreeBut(s.d, s'.d, t, Granted(t), Hot(t));
    ListedFrame(s.d, s'.d, t, s.cfg.fmax, s.caches[t]);
    ListedSame(s'.d, t, s.cfg.fmax, s.caches[t], s'.caches[t]);
    Rebuild(s, s', t);
    HotAccounts(s, s', t);
  }

  lemma HotReplaced(s: State, t: Tid)
    requires Sound(s) && Ready(s, t) && Granted(t) in s.d && s.caches[t].hotEnd != s.d[Granted(t)].lo
    ensures var s' := SetHotArea(s, t);
      && Sound(s') && Accounts(s, s', t, 0, 0) && OnlyFor(s.d, s'.d, t) && Granted(t) !in s'.d
      && s'.cfg == s.cfg && s'.n == s.n && s'.grants == s.grants && |s'.caches| == |s.caches|
      && s'.caches[t].hotEnd - s'.caches[t].hotPos >= Len(s.d[Granted(t)])
      && (forall q {:trigger Live(q)} ::
          (Live(q) in s'.d <==> Live(q) in s.d) && (Live(q) in s.d ==> s'.d[Live(q)] == s.d[Live(q)]))
  {
    hide InvBut, Sound, OnlyFor, Named, Retire, Accounts;
    SoundBut(s, t);
    RetireKeeps(s, t);
    RetireAccounts(s, t);
    var s1 := Retire(s, t);
    MakeHotKeeps(s1, t, Granted(t));
    var s' := MakeHot(s1, t, Granted(t));
    HotAccounts(s1, s', t);
    AccountsAdd(s, s1, s', t, 0, 0, 0, 0);
    MadeHot(s1.d, s'.d, t);
    OnlyTwice(s.d, s1.d, s'.d, t);
  }

  lemma MadeHot(d: Division, d': Division, t: Tid)
    requires Granted(t) in d && d' == Give(d, Granted(t), Hot(t))
    ensures OnlyFor(d, d', t) && Granted(t) !in d'
    ensures forall q {:trigger Live(q)} ::
        (Live(q) in d' <==> Live(q) in d) && (Live(q) in d ==> d'[Live(q)] == d[Live(q)])
  {
  }

  /** With a hot area that covers the request, something serves it. */
  lemma HotServes(s: State, t: Tid, req: nat)
    requires Ready(s, t) && Named(s, t) && 0 < req <= s.caches[t].hotEnd - s.caches[t].hotPos
    ensures TakeLocal(s, t, req).Took?
  {
    hide Sfree, Give, Cut, CutLow, Retire, UncountHuge, ReduceFrag;
  }

  /** A thread whose advance succeeded gets its block. */
  lemma FinishKept(s: State, e: Event)
    requires Inv(s) && Enabled(s, e) && e.Finish?
    ensures Inv(Next(s, e))
    ensures var r := ServeNow(SetHotArea(s.(grants := s.grants - {e.t}), e.t), e.t, s.grants[e.t]);
      && r.Took? && Next(s, e) == r.s && Live(r.pos) !in s.d && Live(r.pos) in r.s.d
      && r.s.d[Live(r.pos)] == Span(r.pos, r.pos + s.grants[e.t])
  {
    hide Sound, InvBut, Books, OnlyFor, TakeLocal, SetHotArea, Accounts, Moves;
    var t, req := e.t, s.grants[e.t];
    var s0 := s.(grants := s.grants - {t});
    assert Sound(s0) by { Ungranted(s, t); }
    SetHotAreaKeeps(s0, t);
    var s1 := SetHotArea(s0, t);
    SoundBut(s1, t);
    HotServes(s1, t, req);
    TakeKeeps(s1, t, req);
    TakeAccounts(s1, t, req);
    var s2 := TakeLocal(s1, t, req).s;
    AccountsAdd(s0, s1, s2, t, 0, 0, 0, 0);
    assert Books(s0) by { Ungranted(s, t); }
    BooksKept(s0, s2, t);
    GainsParts(s1.d, s2.d, t, TakeLocal(s1, t, req).pos, req);
    OnlyTwice(s.d, s1.d, s2.d, t);
    FinishGrants(s, s2, t);
  }

  lemma Ungranted(s: State, t: Tid)
    ensures Sound(s) ==> Sound(s.(grants := s.grants - {t}))
    ensures Books(s) ==> Books(s.(grants := s.grants - {t}))
  {
  }

  lemma FinishGrants(s: State, s': State, t: Tid)
    requires Grants(s) && OnlyFor(s.d, s'.d, t) && s'.grants == s.grants - {t} && Granted(t) !in s'.d
    ensures Grants(s')
  {
    forall u: nat ensures u in s'.grants <==> Granted(u) in s'.d
      ensures u in s'.grants ==> Granted(u) in s'.d && 0 < s'.grants[u] <= Len(s'.d[Granted(u)])
    {
      assert u in s.grants <==> Granted(u) in s.d;
      if u != t { assert !Concerns(Granted(u), t); }
    }
  }

  /** The invariant is kept by every event of any thread. */
  lemma InvKept(s: State, e: Event)
    requires Inv(s) && Enabled(s, e)
    ensures Inv(Next(s, e))
  {
    hide Inv, Next, Enabled;
    match e {
      case Join => JoinKept(s);
      case Alloc(_, _) => AllocKept(s, e);
      case Advance(_, _) => AdvanceKept(s, e);
      case Finish(_) => FinishKept(s, e);
      case Release(_, _) => ReleaseKept(s, e);
      case Resize(_, _, _) => ResizeKept(s, e);
      case Shrink(_, _, _) => ShrinkKept(s, e);
      case Flush(_) => FlushKept(s, e);
    }
  }

  lemma {:induction false} InvRuns(s: State, es: seq<Event>)
    requires Inv(s) && Runs(s, es)
    ensures Inv(After(s, es))
    decreases |es|
  {
    hide Inv, Next, Enabled;
    if es != [] {
      InvKept(s, es[0]);
      InvRuns(Next(s, es[0]), es[1..]);
    }
  }

  /** In every state that any interleaving of any number of threads can reach, each unit below the
      mark belongs to exactly one of: a live block, a block on one list of one thread, a hot area, or
      what a thread has just taken; and the lists name exactly the free blocks, each once. */
  lemma Reachable(cfg: Config, es: seq<Event>, u: nat)
    requires Runs(Init(cfg), es)
    ensures var s := After(Init(cfg), es);
      && (u < s.n ==> exists o :: o in s.d && Within(s.d[o], u))
      && (forall o, o' :: o in s.d && o' in s.d && Within(s.d[o], u) && Within(s.d[o'], u) ==> o == o' && u < s.n)
      && (forall t :: 0 <= t < |s.caches| ==>
            Listed(s.d, t, s.cfg.fmax, s.caches[t]) && HotAt(s.d, t, s.caches[t])
            && s.caches[t].frag == FastSum(s.caches[t].fast) + HugeSum(s.caches[t].huge)
            && s.caches[t].hugeSum == HugeSum(s.caches[t].huge))
      && s.pool == Pending(s.caches) && s.n <= s.cfg.cap
  {
    InitInv(cfg);
    InvRuns(Init(cfg), es);
    var s := After(Init(cfg), es);
    assert Inv(s);
    hide After, Runs, Listed, Tiles, Grants, Enabled, Next, AllProper;
    SoundParts(s, |s.caches|);
    Partition(s.d, s.n, u);
    forall t | 0 <= t < |s.caches| ensures Owe(s.caches[t]) == 0 && OweHuge(s.caches[t]) == 0 {}
  }

  lemma InitInv(cfg: Config)
    ensures Inv(Init(cfg))
  {
    var tag: seq<Owner> := [];
    assert OwnersFit(map[], tag);
  }

  /** Two live blocks never share a unit, whichever threads allocated and freed what. */
  lemma LiveDisjoint(cfg: Config, es: seq<Event>, p: nat, q: nat)
    requires Runs(Init(cfg), es)
    ensures var d := After(Init(cfg), es).d;
      Live(p) in d && Live(q) in d && p != q ==>
        d[Live(p)].lo == p < d[Live(p)].hi && (d[Live(p)].hi <= q || d[Live(q)].hi <= p)
  {
    InitInv(cfg);
    InvRuns(Init(cfg), es);
    var s := After(Init(cfg), es);
    hide After, Runs;
    if Live(p) in s.d && Live(q) in s.d && p != q {
      assert Proper(s.d, |s.caches|, Live(p)) && Proper(s.d, |s.caches|, Live(q));
      StartsDiffer(s.d, s.n, Live(p), Live(q));
    }
  }

  /** The block an event is about, when it is about one that is live. */
  ghost predicate About(e: Event, p: nat) {
    match e
    case Release(_, pos) => pos == p
    case Resize(_, pos, _) => pos == p
    case Shrink(_, pos, _) => pos == p
    case _ => false
  }

  /** A live block keeps its place and length whatever any thread does, until it is itself freed or
      resized. */
  lemma LiveStays(s: State, e: Event, p: nat)
    requires Inv(s) && Enabled(s, e) && Live(p) in s.d && !About(e, p)
    ensures Live(p) in Next(s, e).d && Next(s, e).d[Live(p)] == s.d[Live(p)]
  {
    hide Inv, TakeLocal, Sfree, SetHotArea, Sound;
    match e {
      case Alloc(t, req) => AllocKept(s, e); GainStays(s.d, Next(s, e).d, t, TakeLocal(s, t, req).pos, req, p);
      case Finish(t) => FinishStays(s, e, p);
      case Release(t, pos) => SfreeStays(s, t, Live(pos), p);
      case Shrink(t, pos, len) => SfreeStays(s.(d := Cut(s.d, Live(pos), pos + len, Granted(t))), t, Granted(t), p);
      case _ =>
    }
  }

  lemma GainStays(d: Division, d': Division, t: Tid, q: nat, len: nat, p: nat)
    requires Gains(d, d', t, q, len) && Live(p) in d
    ensures Live(p) in d' && d'[Live(p)] == d[Live(p)]
  {
  }

  lemma SfreeStays(s: State, t: Tid, o: Owner, p: nat)
    requires Ready(s, t) && o in s.d && s.d[o].lo < s.d[o].hi && o != Live(p) && Live(p) in s.d
    ensures Live(p) in Sfree(s, t, o).d && Sfree(s, t, o).d[Live(p)] == s.d[Live(p)]
  {
  }

  lemma FinishStays(s: State, e: Event, p: nat)
    requires Inv(s) && Enabled(s, e) && e.Finish? && Live(p) in s.d
    ensures Live(p) in Next(s, e).d && Next(s, e).d[Live(p)] == s.d[Live(p)]
  {
    hide Sound, InvBut, Books, OnlyFor, TakeLocal, SetHotArea, Accounts, Gains;
    var t, req := e.t, s.grants[e.t];
    var s0 := s.(grants := s.grants - {t});
    assert Sound(s0) by { Ungranted(s, t); }
    SetHotAreaKeeps(s0, t);
    var s1 := SetHotArea(s0, t);
    FinishKept(s, e);
    TakeKeeps(s1, t, req);
    GainStays(s1.d, TakeLocal(s1, t, req).s.d, t, TakeLocal(s1, t, req).pos, req, p);
  }

  lemma {:induction false} LiveStaysRuns(s: State, es: seq<Event>, p: nat)
    requires Inv(s) && Runs(s, es) && Live(p) in s.d && forall e :: e in es ==> !About(e, p)
    ensures Live(p) in After(s, es).d && After(s, es).d[Live(p)] == s.d[Live(p)]
    decreases |es|
  {
    hide Inv, Next, Enabled;
    if es != [] {
      assert es[0] in es && forall e :: e in es[1..] ==> e in es;
      InvKept(s, es[0]);
      LiveStays(s, es[0], p);
      LiveStaysRuns(Next(s, es[0]), es[1..], p);
    }
  }

  ghost predicate By(e: Event, t: Tid) {
    !e.Join? && e.t == t
  }

  /** What a thread has taken from the arena stays its own while the others go on. */
  lemma GrantStep(s: State, e: Event, t: Tid)
    requires Inv(s) && Enabled(s, e) && t in s.grants && t < |s.caches| && !By(e, t)
    ensures t in Next(s, e).grants && Next(s, e).grants[t] == s.grants[t] && t < |Next(s, e).caches|
  {
    hide Inv, TakeLocal, Sfree, SetHotArea, Sound;
    match e {
      case Alloc(u, req) => AllocGrants(s, u, req);
      case Finish(u) => FinishGains(s, u); FinishOthers(s, u);
      case Release(u, pos) => SfreeForms(s, u, Live(pos)); SfreeCaches(s, u, Live(pos));
      case Shrink(u, pos, len) =>
        var s1 := s.(d := Cut(s.d, Live(pos), pos + len, Granted(u)));
        SfreeForms(s1, u, Granted(u));
        SfreeCaches(s1, u, Granted(u));
      case _ =>
    }
  }

  lemma SfreeCaches(s: State, t: Tid, o: Owner)
    requires Ready(s, t) && o in s.d && s.d[o].lo < s.d[o].hi
    ensures |Sfree(s, t, o).caches| == |s.caches|
  {
  }

  lemma AllocGrants(s: State, t: Tid, req: nat)
    requires Inv(s) && Enabled(s, Alloc(t, req))
    ensures Next(s, Alloc(t, req)).grants == s.grants && |Next(s, Alloc(t, req)).caches| == |s.caches|
  {
    hide TakeLocal, InvBut, Gains, Accounts;
    TakeKeeps(s, t, req);
  }

  lemma FinishOthers(s: State, t: Tid)
    requires Inv(s) && Enabled(s, Finish(t))
    ensures Next(s, Finish(t)).grants == s.grants - {t}
  {
    hide Sound, InvBut, Books, OnlyFor, TakeLocal, SetHotArea, Accounts;
    FinishKept(s, Finish(t));
    var s0 := s.(grants := s.grants - {t});
    assert Sound(s0) by { Ungranted(s, t); }
    SetHotAreaKeeps(s0, t);
    TakeKeeps(SetHotArea(s0, t), t, s.grants[t]);
  }

  lemma {:induction false} GrantStays(s: State, es: seq<Event>, t: Tid)
    requires Inv(s) && Runs(s, es) && t in s.grants && t < |s.caches| && forall e :: e in es ==> !By(e, t)
    ensures Inv(After(s, es)) && t in After(s, es).grants && After(s, es).grants[t] == s.grants[t] &&
      t < |After(s, es).caches|
    decreases |es|
  {
    hide Inv, Next, Enabled;
    if es != [] {
      assert es[0] in es && forall e :: e in es[1..] ==> e in es;
      InvKept(s, es[0]);
      GrantStep(s, es[0], t);
      GrantStays(Next(s, es[0]), es[1..], t);
    }
  }

  /** An event hands out a block that was not live, of the requested length. */
  ghost predicate HandsOut(s: State, e: Event, p: nat, req: nat)
    requires Enabled(s, e)
  {
    Live(p) !in s.d && Live(p) in Next(s, e).d && Next(s, e).d[Live(p)] == Span(p, p + req)
  }

  /** A thread that has advanced the mark is served, whatever the other threads do before it goes on. */
  lemma AdvanceServes(s: State, t: Tid, req: nat, es: seq<Event>)
    requires Inv(s) && t < |s.caches| && Enabled(s, Advance(t, req))
    requires Runs(Next(s, Advance(t, req)), es) && forall e :: e in es ==> !By(e, t)
    ensures var s1 := After(Next(s, Advance(t, req)), es);
      Enabled(s1, Finish(t)) && s1.grants[t] == req && exists p :: HandsOut(s1, Finish(t), p, req)
  {
    var e := Advance(t, req);
    InvKept(s, e);
    AdvanceForm(s, e);
    var s0 := Next(s, e);
    GrantStays(s0, es, t);
    var s1 := After(s0, es);
    FinishEnabled(s1, t);
    hide Inv, Runs, After, Enabled, Next, TakeLocal, SetHotArea;
    FinishKept(s1, Finish(t));
    var r := ServeNow(SetHotArea(s1.(grants := s1.grants - {t}), t), t, s1.grants[t]);
    assert HandsOut(s1, Finish(t), r.pos, req);
  }

  lemma FinishEnabled(s: State, t: Tid)
    requires Inv(s) && t in s.grants && t < |s.caches|
    ensures Enabled(s, Finish(t))
  {
    SoundBut(s, t);
    hide InvBut, Sound;
    Granting(s, t);
  }

  /** An allocation fails only if the arena cannot cover the request: a thread that is not in the
      middle of one is served from its cache, or else, when the request fits below the end of the
      arena, it advances the mark and is served after any interleaving with the other threads. */
  lemma AllocFails(s: State, t: Tid, req: nat, es: seq<Event>)
    requires Inv(s) && t < |s.caches| && t !in s.grants && 0 < req && s.cfg.chunk > 0 && s.n + req <= s.cfg.cap
    ensures if TakeLocal(s, t, req).Took? then
        Enabled(s, Alloc(t, req)) && exists p :: HandsOut(s, Alloc(t, req), p, req)
      else
        && Enabled(s, Advance(t, req))
        && (Runs(Next(s, Advance(t, req)), es) && (forall e :: e in es ==> !By(e, t)) ==>
              var s1 := After(Next(s, Advance(t, req)), es);
              Enabled(s1, Finish(t)) && exists p :: HandsOut(s1, Finish(t), p, req))
  {
    SoundBut(s, t);
    hide TakeLocal, InvBut, Sound;
    if TakeLocal(s, t, req).Took? {
      AllocHands(s, t, req);
    } else if Runs(Next(s, Advance(t, req)), es) && forall e :: e in es ==> !By(e, t) {
      AdvanceServes(s, t, req, es);
    }
  }

  lemma AllocHands(s: State, t: Tid, req: nat)
    requires Inv(s) && Enabled(s, Alloc(t, req))
    ensures exists p :: HandsOut(s, Alloc(t, req), p, req)
  {
    hide Inv, TakeLocal;
    AllocKept(s, Alloc(t, req));
    assert HandsOut(s, Alloc(t, req), TakeLocal(s, t, req).pos, req);
  }

  lemma Granting(s: State, t: Tid)
    requires Grants(s) && t in s.grants
    ensures Granted(t) in s.d && 0 < s.grants[t] <= Len(s.d[Granted(t)])
  {
  }

  lemma AdvanceForm(s: State, e: Event)
    requires Enabled(s, e) && e.Advance?
    ensures var s', len := Next(s, e), ChunkLen(s.cfg, s.n, e.req);
      && s'.n == s.n + len && s'.cfg == s.cfg && s'.pool == s.pool && s'.caches == s.caches
      && Granted(e.t) in s'.d && s'.d[Granted(e.t)] == Span(s.n, s.n + len) && s'.grants == s.grants[e.t := e.req]
  {
  }

  lemma InvBound(s: State, t: Tid)
    requires Inv(s)
    ensures s.n <= s.cfg.cap && Tiles(s.d, s.n)
    ensures t < |s.caches| ==>
      Ready(s, t) && Named(s, t) && Sound(s) && InvBut(s, t) && (t !in s.grants ==> Granted(t) !in s.d)
  {
    if t < |s.caches| {
      SoundBut(s, t);
      if t !in s.grants { NoGrant(s, t); }
    }
  }

  lemma LiveSpan(s: State, p: nat)
    requires Inv(s) && Live(p) in s.d
    ensures s.d[Live(p)].lo == p < s.d[Live(p)].hi <= s.n
  {
    assert Proper(s.d, |s.caches|, Live(p));
    SpanBounds(s.d, s.n, Live(p));
  }

  lemma FinishGains(s: State, t: Tid)
    requires Inv(s) && Enabled(s, Finish(t))
    ensures var r := ServeNow(SetHotArea(s.(grants := s.grants - {t}), t), t, s.grants[t]);
      var s' := Next(s, Finish(t));
      && r.Took? && s' == r.s
      && (forall p {:trigger Live(p)} :: p != r.pos ==>
            (Live(p) in s'.d <==> Live(p) in s.d) && (Live(p) in s.d ==> s'.d[Live(p)] == s.d[Live(p)]))
      && Live(r.pos) !in s.d && Live(r.pos) in s'.d
      && t !in s'.grants && |s'.caches| == |s.caches|
  {
    hide Sound, InvBut, Books, OnlyFor, TakeLocal, SetHotArea, Accounts;
    FinishKept(s, Finish(t));
    var s0 := s.(grants := s.grants - {t});
    assert Sound(s0) by { Ungranted(s, t); }
    SetHotAreaKeeps(s0, t);
    TakeKeeps(SetHotArea(s0, t), t, s.grants[t]);
  }
}
