/** Where the caches of ThreadCacheMemPool (src/terark/mempool_thread_cache.cpp) put what is freed, and
    what they serve a request from, in terms of the hot area and the lists alone. */
module ArenaLaws {

  import opened Arena
  import ArenaProtocol

  /** The other threads keep their caches. */
  ghost predicate OnlyCache(s: State, s': State, t: Tid) {
    && t < |s.caches| == |s'.caches|
    && forall u :: 0 <= u < |s.caches| && u != t ==> s'.caches[u] == s.caches[u]
  }

  /** The block is at the head of the list for its length, and all else is as it was. */
  ghost predicate AtHead(c: Cache, c': Cache, fmax: nat, pos: nat, len: nat) {
    && 0 < len && |c.fast| == fmax && c'.hotPos == c.hotPos && c'.hotEnd == c.hotEnd
    && if len <= fmax then
         c'.fast == c.fast[len - 1 := [pos] + c.fast[len - 1]] && c'.huge == c.huge && c'.hugeSum == c.hugeSum
       else
         c'.fast == c.fast && c'.huge == [Block(pos, len)] + c.huge && c'.hugeSum == c.hugeSum + len
  }

  /** The count of free units has changed by `x`; a thread that is too far ahead of the pool or behind
      it reports. */
  ghost predicate Counted(s: State, s': State, t: Tid, x: int) {
    && t < |s.caches| == |s'.caches|
    && var c, c' := s.caches[t], s'.caches[t];
       var inc := c.inc + x;
       var far := if x >= 0 then inc > s.cfg.flush else inc + s.cfg.flush < 0;
       && c'.frag == c.frag + x
       && c'.inc == (if far then 0 else inc)
       && s'.pool == s.pool + (if far then inc else 0)
  }

  /** What freeing a span does: one that ends where the hot area begins joins it, and no list or count
      changes; any other becomes the first block of the list for its length. */
  ghost predicate Freed(s: State, s': State, t: Tid, pos: nat, len: nat) {
    && OnlyCache(s, s', t) && Hot(t) in s.d && Hot(t) in s'.d
    && var c, c' := s.caches[t], s'.caches[t];
       if pos + len == c.hotPos then
         && c' == c.(hotPos := pos) && s'.d[Hot(t)] == Span(pos, s.d[Hot(t)].hi) && s'.pool == s.pool
         && (Free(t, pos) in s'.d ==> Free(t, pos) in s.d)
       else
         && AtHead(c, c', s.cfg.fmax, pos, len) && s'.d[Hot(t)] == s.d[Hot(t)]
         && Free(t, pos) in s'.d && s'.d[Free(t, pos)] == Span(pos, pos + len)
         && Counted(s, s', t, len)
  }

  lemma SfreeFrees(s: State, t: Tid, o: Owner)
    requires Ready(s, t) && o in s.d && s.d[o].lo < s.d[o].hi && o != Hot(t)
    ensures Freed(s, Sfree(s, t, o), t, s.d[o].lo, Len(s.d[o]))
  {
  }

  // ------------------------------------------------------------------ what serves a request

  datatype Source =
    | Exact    // the list for the length
    | Half     // the list for twice the length
    | HotArea
    | HugeList // its first block
    | Nowhere

  /** Where the thread finds room.  A request that has a list asks for huge blocks last. */
  ghost function SourceOf(c: Cache, fmax: nat, req: nat): Source
    requires |c.fast| == fmax && 0 < req
  {
    var hot := req <= c.hotEnd - c.hotPos;
    var long := c.huge != [] && req <= c.huge[0].len;
    if req <= fmax && c.fast[req - 1] != [] then Exact
    else if 2 * req <= fmax && c.fast[2 * req - 1] != [] then Half
    else if hot && (req <= fmax || !long) then HotArea
    else if long then HugeList
    else Nowhere
  }

  /** The block it gets there. */
  ghost function PlaceOf(c: Cache, fmax: nat, req: nat): nat
    requires |c.fast| == fmax && 0 < req && SourceOf(c, fmax, req) != Nowhere
  {
    match SourceOf(c, fmax, req)
    case Exact => c.fast[req - 1][0]
    case Half => c.fast[2 * req - 1][0]
    case HotArea => c.hotPos
    case HugeList => c.huge[0].pos
  }

  /** What a served request does to the cache: the block comes off its list, and of a longer one the
      end stays with the thread. */
  ghost predicate Served(s: State, s': State, t: Tid, req: nat, pos: nat) {
    && OnlyCache(s, s', t) && |s.caches[t].fast| == s.cfg.fmax && 0 < req
    && var c, c' := s.caches[t], s'.caches[t];
       match SourceOf(c, s.cfg.fmax, req)
       case Exact =>
         && pos == PlaceOf(c, s.cfg.fmax, req) && Counted(s, s', t, 0 - req)
         && c' == c.(fast := c.fast[req - 1 := c.fast[req - 1][1..]], frag := c'.frag, inc := c'.inc)
       case Half =>
         && pos == PlaceOf(c, s.cfg.fmax, req) && Counted(s, s', t, 0 - req)
         && c' == c.(fast := c.fast[2 * req - 1 := c.fast[2 * req - 1][1..]][req - 1 := [pos + req]],
                     frag := c'.frag, inc := c'.inc)
       case HotArea =>
         pos == PlaceOf(c, s.cfg.fmax, req) && s'.pool == s.pool && c' == c.(hotPos := pos + req)
       case HugeList =>
         pos == PlaceOf(c, s.cfg.fmax, req) && FromHuge(c, c', s.cfg.fmax, req)
       case Nowhere =>
         false
  }

  /** The rest of a huge block is the new hot area, and the old one goes to a list, when the request is
      short; else the rest is freed. */
  ghost predicate FromHuge(c: Cache, c': Cache, fmax: nat, req: nat)
    requires c.huge != []
  {
    var b := c.huge[0];
    var c1 := c.(huge := c.huge[1..]);
    if req <= fmax then
      && c'.hotPos == b.pos + req && c'.hotEnd == b.pos + b.len
      && if c.hotPos < c.hotEnd then
           ListsAtHead(c1, c', fmax, c.hotPos, c.hotEnd - c.hotPos)
         else
           c'.fast == c1.fast && c'.huge == c1.huge
    else if b.len == req then
      c'.fast == c1.fast && c'.huge == c1.huge && c'.hotPos == c.hotPos && c'.hotEnd == c.hotEnd
    else if b.pos + b.len == c.hotPos then
      c'.fast == c1.fast && c'.huge == c1.huge && c'.hotPos == b.pos + req && c'.hotEnd == c.hotEnd
    else
      && ListsAtHead(c1, c', fmax, b.pos + req, b.len - req)
      && c'.hotPos == c.hotPos && c'.hotEnd == c.hotEnd
  }

  ghost predicate ListsAtHead(c: Cache, c': Cache, fmax: nat, pos: nat, len: int) {
    && 0 < len && |c.fast| == fmax
    && if len <= fmax then
         c'.fast == c.fast[len - 1 := [pos] + c.fast[len - 1]] && c'.huge == c.huge
       else
         c'.fast == c.fast && c'.huge == [Block(pos, len)] + c.huge
  }

  lemma TakeServes(s: State, t: Tid, req: nat)
    requires Ready(s, t) && Named(s, t) && 0 < req && Granted(t) !in s.d
    ensures TakeLocal(s, t, req).NoRoom? <==> SourceOf(s.caches[t], s.cfg.fmax, req) == Nowhere
    ensures var r := TakeLocal(s, t, req); r.Took? ==> Served(s, r.s, t, req, r.pos)
  {
    if req <= s.cfg.fmax { SmallServes(s, t, req); } else { LargeServes(s, t, req); }
  }

  lemma SmallServes(s: State, t: Tid, req: nat)
    requires Ready(s, t) && Named(s, t) && 0 < req <= s.cfg.fmax && Granted(t) !in s.d
    ensures TakeSmall(s, t, req).NoRoom? <==> SourceOf(s.caches[t], s.cfg.fmax, req) == Nowhere
    ensures var r := TakeSmall(s, t, req); r.Took? ==> Served(s, r.s, t, req, r.pos)
  {
    var c := s.caches[t];
    match SourceOf(c, s.cfg.fmax, req) {
      case Exact => ExactServes(s, t, req);
      case Half => HalfServes(s, t, req);
      case HotArea =>
      case HugeList => HugeHotServes(s, t, req);
      case Nowhere =>
    }
  }

  lemma ExactServes(s: State, t: Tid, req: nat)
    requires Ready(s, t) && Named(s, t) && 0 < req <= s.cfg.fmax
    requires SourceOf(s.caches[t], s.cfg.fmax, req) == Exact
    ensures var r := TakeSmall(s, t, req); r.Took? && Served(s, r.s, t, req, r.pos)
  {
    hide Named;
  }

  lemma HalfServes(s: State, t: Tid, req: nat)
    requires Ready(s, t) && Named(s, t) && 0 < req <= s.cfg.fmax
    requires SourceOf(s.caches[t], s.cfg.fmax, req) == Half
    ensures var r := TakeSmall(s, t, req); r.Took? && Served(s, r.s, t, req, r.pos)
  {
    hide Named;
  }

  /** The old hot area is retired. */
  lemma RetireHead(s: State, t: Tid)
    requires Ready(s, t)
    ensures var s' := Retire(s, t); var c, c' := s.caches[t], s'.caches[t];
      && OnlyCache(s, s', t) && s'.cfg == s.cfg
      && (Granted(t) in s.d ==> Granted(t) in s'.d && s'.d[Granted(t)] == s.d[Granted(t)])
      && if c.hotPos < c.hotEnd then AtHead(c, c', s.cfg.fmax, c.hotPos, c.hotEnd - c.hotPos) else c' == c
  {
  }

  /** The state once the old hot area is retired, and what becomes of it. */
  lemma HugeHotForm(s: State, t: Tid, req: nat) returns (s0: State, s1: State)
    requires Ready(s, t) && Named(s, t) && 0 < req <= s.cfg.fmax && Granted(t) !in s.d
    requires SourceOf(s.caches[t], s.cfg.fmax, req) == HugeList
    ensures OnlyCache(s, s0, t) && s0.caches[t] == s.caches[t].(huge := s.caches[t].huge[1..]) && s0.cfg == s.cfg
    ensures Ready(s0, t) && s1 == Retire(s0, t) && |s1.caches| == |s.caches|
    ensures var b, r := s.caches[t].huge[0], TakeSmall(s, t, req);
      && r.Took? && r.pos == b.pos && OnlyCache(s1, r.s, t)
      && r.s.caches[t].fast == s1.caches[t].fast && r.s.caches[t].huge == s1.caches[t].huge
      && r.s.caches[t].hotPos == b.pos + req && r.s.caches[t].hotEnd == b.pos + b.len
  {
    var b := s.caches[t].huge[0];
    assert b in s.caches[t].huge;
    s0 := PopHuge(s, t);
    RetireHead(s0, t);
    hide Named, Retire;
    s1 := Retire(s0, t);
  }

  lemma HugeHotServes(s: State, t: Tid, req: nat)
    requires Ready(s, t) && Named(s, t) && 0 < req <= s.cfg.fmax && Granted(t) !in s.d
    requires SourceOf(s.caches[t], s.cfg.fmax, req) == HugeList
    ensures var r := TakeSmall(s, t, req); r.Took? && Served(s, r.s, t, req, r.pos)
  {
    hide Named, TakeSmall, Retire;
    var s0, s1 := HugeHotForm(s, t, req);
    RetireHead(s0, t);
  }

  lemma LargeServes(s: State, t: Tid, req: nat)
    requires Ready(s, t) && Named(s, t) && s.cfg.fmax < req && Granted(t) !in s.d
    ensures TakeLarge(s, t, req).NoRoom? <==> SourceOf(s.caches[t], s.cfg.fmax, req) == Nowhere
    ensures var r := TakeLarge(s, t, req); r.Took? ==> Served(s, r.s, t, req, r.pos)
  {
    if SourceOf(s.caches[t], s.cfg.fmax, req) == HugeList { HugeLargeServes(s, t, req); }
    hide UncountHuge, PopHuge, Sfree, Named;
  }

  /** A huge block taken off its list and out of the counts. */
  lemma Uncounted(s: State, t: Tid, req: nat)
    requires Ready(s, t) && Named(s, t) && Granted(t) !in s.d && s.caches[t].huge != []
    ensures var b := s.caches[t].huge[0];
      && Free(t, b.pos) in s.d
      && var s1 := UncountHuge(PopHuge(s, t), t, b.len);
         && OnlyCache(s, s1, t) && s1.cfg == s.cfg && Ready(s1, t)
         && Granted(t) in s1.d && s1.d[Granted(t)] == Span(b.pos, b.pos + b.len)
         && s1.caches[t].fast == s.caches[t].fast && s1.caches[t].huge == s.caches[t].huge[1..]
         && s1.caches[t].hotPos == s.caches[t].hotPos && s1.caches[t].hotEnd == s.caches[t].hotEnd
  {
    assert s.caches[t].huge[0] in s.caches[t].huge;
    hide Named;
  }

  /** The caches while the block is off its list: only that has changed. */
  ghost predicate Unlisted(s: State, s1: State, t: Tid) {
    && OnlyCache(s, s1, t) && s1.cfg == s.cfg && s.caches[t].huge != []
    && var c, c1 := s.caches[t], s1.caches[t];
       c1.fast == c.fast && c1.huge == c.huge[1..] && c1.hotPos == c.hotPos && c1.hotEnd == c.hotEnd
  }

  /** The rest of the block is freed. */
  lemma RestFreed(s: State, s1: State, s': State, t: Tid, req: nat)
    requires Unlisted(s, s1, t) && s.cfg.fmax < req < s.caches[t].huge[0].len
    requires var b := s.caches[t].huge[0]; Freed(s1, s', t, b.pos + req, b.len - req)
    ensures OnlyCache(s, s', t) && FromHuge(s.caches[t], s'.caches[t], s.cfg.fmax, req)
  {
  }

  /** The state once the front of the block has been handed out; what is left is held as Granted. */
  lemma LargeForm(s: State, t: Tid, req: nat) returns (s1: State)
    requires Ready(s, t) && Named(s, t) && s.cfg.fmax < req && Granted(t) !in s.d
    requires SourceOf(s.caches[t], s.cfg.fmax, req) == HugeList
    ensures Unlisted(s, s1, t)
    ensures var b := s.caches[t].huge[0];
      if b.len > req then
        && Ready(s1, t) && Granted(t) in s1.d && s1.d[Granted(t)] == Span(b.pos + req, b.pos + b.len)
        && TakeLarge(s, t, req) == Took(b.pos, Sfree(s1, t, Granted(t)))
      else
        b.len == req && TakeLarge(s, t, req) == Took(b.pos, s1)
  {
    Uncounted(s, t, req);
    var b := s.caches[t].huge[0];
    s1 := UncountHuge(PopHuge(s, t), t, b.len);
    assert Unlisted(s, s1, t);
    hide Named, UncountHuge, PopHuge, Sfree;
    s1 := s1.(d := if b.len > req then CutLow(s1.d, Granted(t), b.pos + req, Live(b.pos))
                   else Give(s1.d, Granted(t), Live(b.pos)));
  }

  lemma HugeLargeServes(s: State, t: Tid, req: nat)
    requires Ready(s, t) && Named(s, t) && s.cfg.fmax < req && Granted(t) !in s.d
    requires SourceOf(s.caches[t], s.cfg.fmax, req) == HugeList
    ensures var r := TakeLarge(s, t, req); r.Took? && Served(s, r.s, t, req, r.pos)
  {
    hide Named, TakeLarge, Sfree, Freed, FromHuge;
    var s1 := LargeForm(s, t, req);
    var b := s.caches[t].huge[0];
    if b.len > req {
      SfreeFrees(s1, t, Granted(t));
      RestFreed(s, s1, Sfree(s1, t, Granted(t)), t, req);
    } else {
      WholeTaken(s, s1, t, req);
    }
  }

  lemma WholeTaken(s: State, s1: State, t: Tid, req: nat)
    requires Unlisted(s, s1, t) && s.cfg.fmax < req == s.caches[t].huge[0].len
    ensures OnlyCache(s, s1, t) && FromHuge(s.caches[t], s1.caches[t], s.cfg.fmax, req)
  {
  }

  /** In terms of the blocks of the thread: a request is served without an advance if and only if the
      hot area covers it, or a free block has its length or twice that and a list, or the first block
      of the huge list covers it. */
  lemma ServedIff(s: State, t: Tid, req: nat)
    requires ArenaProtocol.Inv(s) && t < |s.caches| && t !in s.grants && 0 < req
    ensures Ready(s, t) && Named(s, t)
    ensures var c, fmax := s.caches[t], s.cfg.fmax;
      TakeLocal(s, t, req).Took? <==>
        || req <= c.hotEnd - c.hotPos
        || (req <= fmax && HasFree(s.d, t, req))
        || (2 * req <= fmax && HasFree(s.d, t, 2 * req))
        || (c.huge != [] && req <= c.huge[0].len)
  {
    ArenaProtocol.InvBound(s, t);
    var c := s.caches[t];
    if req <= s.cfg.fmax { ListHas(s, t, req); }
    if 2 * req <= s.cfg.fmax { ListHas(s, t, 2 * req); }
    hide ArenaProtocol.Inv, Sound, InvBut, HasFree, TakeLocal, Served;
    TakeServes(s, t, req);
  }

  ghost predicate HasFree(d: Division, t: Tid, len: nat) {
    exists p :: Free(t, p) in d && Len(d[Free(t, p)]) == len
  }

  lemma ListHas(s: State, t: Tid, len: nat)
    requires Sound(s) && t < |s.caches| && 0 < len <= s.cfg.fmax && |s.caches[t].fast| == s.cfg.fmax
    ensures s.caches[t].fast[len - 1] != [] <==> HasFree(s.d, t, len)
  {
    assert Listed(s.d, t, s.cfg.fmax, s.caches[t]);
    var l := s.caches[t].fast[len - 1];
    if l != [] {
      assert l[0] in l;
      assert Free(t, l[0]) in s.d && Len(s.d[Free(t, l[0])]) == len;
    }
    if HasFree(s.d, t, len) {
      var p :| Free(t, p) in s.d && Len(s.d[Free(t, p)]) == len;
      assert p in l;
    }
  }

  /** A span that joined the hot area serves with it: no request up to the joined length advances. */
  lemma JoinedServes(s: State, s': State, t: Tid, pos: nat, len: nat, req: nat)
    requires Freed(s, s', t, pos, len) && pos + len == s.caches[t].hotPos
    requires ArenaProtocol.Inv(s') && t !in s'.grants && 0 < req <= s.caches[t].hotEnd - pos
    ensures ArenaProtocol.Enabled(s', ArenaProtocol.Alloc(t, req))
    ensures !ArenaProtocol.Enabled(s', ArenaProtocol.Advance(t, req))
  {
    hide ArenaProtocol.Inv, TakeLocal;
    ServedIff(s', t, req);
  }

  /** What is cut off a live block is freed; it never ends at the hot area. */
  lemma ShrinkFrees(s: State, t: Tid, pos: nat, len: nat)
    requires ArenaProtocol.Inv(s) && ArenaProtocol.Enabled(s, ArenaProtocol.Shrink(t, pos, len))
    ensures var hi := s.d[Live(pos)].hi;
      Freed(s, ArenaProtocol.Next(s, ArenaProtocol.Shrink(t, pos, len)), t, pos + len, hi - (pos + len))
  {
    hide ArenaProtocol.Inv, ArenaProtocol.Enabled, ArenaProtocol.Next, Sfree, Freed;
    var s1 := ShrinkForm(s, t, pos, len);
    SfreeFrees(s1, t, Granted(t));
    FreedCut(s, s1, ArenaProtocol.Next(s, ArenaProtocol.Shrink(t, pos, len)), t, pos + len,
             s.d[Live(pos)].hi - (pos + len));
  }

  lemma ShrinkForm(s: State, t: Tid, pos: nat, len: nat) returns (s1: State)
    requires ArenaProtocol.Inv(s) && ArenaProtocol.Enabled(s, ArenaProtocol.Shrink(t, pos, len))
    ensures t < |s.caches| && Live(pos) in s.d && pos + len < s.d[Live(pos)].hi != s.caches[t].hotPos
    ensures s1 == s.(d := s1.d) && Ready(s1, t)
    ensures Granted(t) in s1.d && s1.d[Granted(t)] == Span(pos + len, s.d[Live(pos)].hi)
    ensures Hot(t) in s.d && Hot(t) in s1.d && s1.d[Hot(t)] == s.d[Hot(t)]
    ensures ArenaProtocol.Next(s, ArenaProtocol.Shrink(t, pos, len)) == Sfree(s1, t, Granted(t))
  {
    hide ArenaProtocol.Inv, Sfree, Named;
    s1 := s.(d := Cut(s.d, Live(pos), pos + len, Granted(t)));
  }

  lemma FreedCut(s: State, s1: State, s': State, t: Tid, pos: nat, len: nat)
    requires Freed(s1, s', t, pos, len) && s1 == s.(d := s1.d) && t < |s.caches| && pos + len != s.caches[t].hotPos
    requires Hot(t) in s.d && Hot(t) in s1.d && s1.d[Hot(t)] == s.d[Hot(t)]
    ensures Freed(s, s', t, pos, len)
  {
  }

  /** A block moved to a longer one: where the request was served, and the old block freed then. */
  ghost predicate MovedBlock(s: State, s': State, t: Tid, pos: nat, oldlen: nat, newlen: nat, r: nat) {
    t < |s.caches| && |s.caches[t].fast| == s.cfg.fmax && 0 < newlen &&
    exists s1 ::
      && Freed(s1, s', t, pos, oldlen)
      && (SourceOf(s.caches[t], s.cfg.fmax, newlen) != Nowhere ==> Served(s, s1, t, newlen, r))
  }

  /** What `alloc3` does: the block at the border of the hot area moves the border if that area is long
      enough; another one is cut, stays, or moves, and only a move can fail. */
  ghost predicate Reallocated(s: State, s': State, t: Tid, pos: nat, oldlen: nat, newlen: nat, r: int) {
    && t < |s.caches| && |s.caches[t].fast| == s.cfg.fmax && 0 < newlen
    && var c := s.caches[t];
       if pos + oldlen == c.hotPos && pos + newlen <= c.hotEnd then
         r == pos && s' == s.(d := s'.d, caches := s.caches[t := c.(hotPos := pos + newlen)])
       else if newlen < oldlen then
         r == pos && Freed(s, s', t, pos + newlen, oldlen - newlen)
       else if newlen == oldlen then
         r == pos && s' == s
       else
         && (r == -1 <==> SourceOf(c, s.cfg.fmax, newlen) == Nowhere && s.n + newlen > s.cfg.cap)
         && (r != -1 ==> r >= 0 && r != pos && MovedBlock(s, s', t, pos, oldlen, newlen, r))
  }

  lemma InPlace(s: State, t: Tid, pos: nat, oldlen: nat, newlen: nat)
    requires ArenaProtocol.Enabled(s, ArenaProtocol.Resize(t, pos, newlen))
    requires s.d[Live(pos)] == Span(pos, pos + oldlen)
    ensures Reallocated(s, ArenaProtocol.Next(s, ArenaProtocol.Resize(t, pos, newlen)), t, pos, oldlen, newlen, pos)
  {
  }

  lemma CutShorter(s: State, s': State, t: Tid, pos: nat, oldlen: nat, newlen: nat)
    requires t < |s.caches| && |s.caches[t].fast| == s.cfg.fmax && 0 < newlen < oldlen
    requires !(pos + oldlen == s.caches[t].hotPos && pos + newlen <= s.caches[t].hotEnd)
    requires Freed(s, s', t, pos + newlen, oldlen - newlen)
    ensures Reallocated(s, s', t, pos, oldlen, newlen, pos)
  {
  }

  lemma SameLength(s: State, t: Tid, pos: nat, len: nat)
    requires t < |s.caches| && |s.caches[t].fast| == s.cfg.fmax && 0 < len
    requires !(pos + len == s.caches[t].hotPos && pos + len <= s.caches[t].hotEnd)
    ensures Reallocated(s, s, t, pos, len, len, pos)
  {
  }

  lemma MovedLonger(s: State, s': State, t: Tid, pos: nat, oldlen: nat, newlen: nat, r: int)
    requires t < |s.caches| && |s.caches[t].fast| == s.cfg.fmax && oldlen < newlen
    requires !(pos + oldlen == s.caches[t].hotPos && pos + newlen <= s.caches[t].hotEnd)
    requires r == -1 <==> SourceOf(s.caches[t], s.cfg.fmax, newlen) == Nowhere && s.n + newlen > s.cfg.cap
    requires r != -1 ==> r >= 0 && r != pos && MovedBlock(s, s', t, pos, oldlen, newlen, r)
    ensures Reallocated(s, s', t, pos, oldlen, newlen, r)
  {
  }

  // ------------------------------------------------------------------ a new hot area

  /** The area extends the hot area that it follows, or replaces it; what was left then goes to a list. */
  ghost predicate HotSet(s: State, s': State, t: Tid, start: nat, end: nat) {
    && OnlyCache(s, s', t) && s'.cfg == s.cfg
    && var c, c' := s.caches[t], s'.caches[t];
       if c.hotEnd == start then
         c' == c.(hotEnd := end) && s'.pool == s.pool
       else
         && c'.hotPos == start && c'.hotEnd == end
         && if c.hotPos < c.hotEnd then
              && ListsAtHead(c, c', s.cfg.fmax, c.hotPos, c.hotEnd - c.hotPos)
              && Counted(s, s', t, c.hotEnd - c.hotPos)
            else
              c' == c.(hotPos := start, hotEnd := end) && s'.pool == s.pool
  }

  lemma SetsHot(s: State, t: Tid)
    requires Ready(s, t) && Granted(t) in s.d
    ensures HotSet(s, ArenaProtocol.SetHotArea(s, t), t, s.d[Granted(t)].lo, s.d[Granted(t)].hi)
  {
  }

  /** When nothing but the new area covers the request, its front, or what it extends, is handed out. */
  ghost predicate ServedByNew(s: State, s': State, t: Tid, start: nat, end: nat, req: nat, pos: nat) {
    t < |s.caches| == |s'.caches| && |s.caches[t].fast| == s.cfg.fmax && 0 < req &&
    (SourceOf(s.caches[t], s.cfg.fmax, req) == Nowhere ==>
      && pos == (if s.caches[t].hotEnd == start then s.caches[t].hotPos else start)
      && s'.caches[t].hotPos == pos + req && s'.caches[t].hotEnd == end)
  }

  lemma FinishServes(s: State, t: Tid)
    requires ArenaProtocol.Inv(s) && ArenaProtocol.Enabled(s, ArenaProtocol.Finish(t))
    ensures var s1 := ArenaProtocol.SetHotArea(s.(grants := s.grants - {t}), t);
      var r := ArenaProtocol.ServeNow(s1, t, s.grants[t]);
      r.Took? && ServedByNew(s, r.s, t, s.d[Granted(t)].lo, s.d[Granted(t)].hi, s.grants[t], r.pos)
  {
    ArenaProtocol.Granting(s, t);
    ArenaProtocol.FinishGains(s, t);
    var req, start, end := s.grants[t], s.d[Granted(t)].lo, s.d[Granted(t)].hi;
    var s0 := s.(grants := s.grants - {t});
    SetsHot(s0, t);
    ArenaProtocol.Ungranted(s, t);
    ArenaProtocol.SetHotAreaKeeps(s0, t);
    var s1 := ArenaProtocol.SetHotArea(s0, t);
    hide ArenaProtocol.Inv, ArenaProtocol.SetHotArea, TakeLocal, Sound, Served, OnlyFor, Accounts, HotSet, SourceOf;
    TakeServes(s1, t, req);
    if SourceOf(s.caches[t], s.cfg.fmax, req) == Nowhere {
      HotSetServes(s0, s1, t, start, end, req);
      HotServed(s1, TakeLocal(s1, t, req).s, t, req, TakeLocal(s1, t, req).pos);
      HotSetEnds(s0, s1, t, start, end);
    }
  }

  lemma HotSetEnds(s: State, s': State, t: Tid, start: nat, end: nat)
    requires HotSet(s, s', t, start, end)
    ensures s'.caches[t].hotPos == (if s.caches[t].hotEnd == start then s.caches[t].hotPos else start)
    ensures s'.caches[t].hotEnd == end
  {
  }

  lemma HotServed(s: State, s': State, t: Tid, req: nat, pos: nat)
    requires Served(s, s', t, req, pos) && SourceOf(s.caches[t], s.cfg.fmax, req) == HotArea
    ensures pos == s.caches[t].hotPos
    ensures s'.caches[t].hotPos == pos + req && s'.caches[t].hotEnd == s.caches[t].hotEnd
  {
  }

  /** It depends on the cache alone. */
  lemma NewSame(s: State, s0: State, s': State, t: Tid, start: nat, end: nat, req: nat, pos: nat)
    requires ServedByNew(s0, s', t, start, end, req, pos) && s.caches == s0.caches && s.cfg == s0.cfg
    ensures ServedByNew(s, s', t, start, end, req, pos)
  {
  }

  lemma HotSetServes(s: State, s': State, t: Tid, start: nat, end: nat, req: nat)
    requires HotSet(s, s', t, start, end) && |s.caches[t].fast| == |s'.caches[t].fast| == s.cfg.fmax
    requires s.caches[t].hotPos <= s.caches[t].hotEnd && 0 < req <= end - start
    requires SourceOf(s.caches[t], s.cfg.fmax, req) == Nowhere
    ensures SourceOf(s'.caches[t], s.cfg.fmax, req) == HotArea
  {
  }
}
