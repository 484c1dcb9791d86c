/** ThreadCacheMemPool as it is stored: the lists of a thread cache are heads, and the links are
    words in the freed blocks themselves.  One word is AlignSize bytes.  Each method follows one
    function of Arena on the abstract lists. */
module ThreadCache {

  import opened Arena
  import opened LinkedLists
  import ArenaProtocol
  import ArenaLaws

  /** The fields of one TCMemPoolOneThread. */
  datatype Fields = Fields(hotPos: nat, hotEnd: nat, heads: seq<nat>, hugeHead: nat, frag: int, inc: int, hugeSum: int)

  ghost function FollowHuge(l: seq<Block>, i: nat): nat {
    if i < |l| then l[i].pos else TAIL
  }

  /** The same for huge blocks, whose first word is the length and whose second is the link. */
  ghost predicate HugeChain(l: seq<Block>, head: nat, m: seq<nat>) {
    && head == FollowHuge(l, 0)
    && (forall i {:trigger l[i]} :: 0 <= i < |l| ==>
          l[i].pos + 1 < |m| && m[l[i].pos] == l[i].len && m[l[i].pos + 1] == FollowHuge(l, i + 1))
  }

  ghost predicate Stored(c: Cache, k: Fields, m: seq<nat>) {
    && k.hotPos == c.hotPos && k.hotEnd == c.hotEnd && k.frag == c.frag && k.inc == c.inc && k.hugeSum == c.hugeSum
    && Chains(c.fast, k.heads, m)
    && HugeChain(c.huge, k.hugeHead, m)
  }

  ghost predicate AllStored(cs: seq<Cache>, ks: seq<Fields>, m: seq<nat>) {
    |ks| == |cs| && forall t :: 0 <= t < |cs| ==> Stored(cs[t], ks[t], m)
  }

  ghost predicate SameIn(s: Span, m: seq<nat>, m': seq<nat>) {
    forall w :: s.lo <= w < s.hi && w < |m| && w < |m'| ==> m'[w] == m[w]
  }

  /** Nothing outside the span has been written. */
  ghost predicate OnlyIn(s: Span, m: seq<nat>, m': seq<nat>) {
    |m'| == |m| && forall w :: 0 <= w < |m| && !(s.lo <= w < s.hi) ==> m'[w] == m[w]
  }

  /** The lists of a thread survive every write that stays off its free blocks. */
  lemma StoredFrame(d: Division, t: Tid, fmax: nat, c: Cache, k: Fields, m: seq<nat>, m': seq<nat>)
    requires Listed(d, t, fmax, c) && Stored(c, k, m) && |m'| == |m| && fmax > 0
    requires forall p :: Free(t, p) in d ==> d[Free(t, p)].lo == p && SameIn(d[Free(t, p)], m, m')
    ensures Stored(c, k, m')
  {
    forall i | 0 <= i < |c.fast| ensures FastChain(c.fast[i], k.heads[i], m') {
      forall j | 0 <= j < |c.fast[i]| && c.fast[i][j] < |m| ensures m'[c.fast[i][j]] == m[c.fast[i][j]] {
        var p := c.fast[i][j];
        assert p in c.fast[i];
        assert Free(t, p) in d && Len(d[Free(t, p)]) == i + 1;
      }
      FastFrame(c.fast[i], k.heads[i], m, m');
    }
    forall i | 0 <= i < |c.huge|
      ensures c.huge[i].pos + 1 < |m| && m'[c.huge[i].pos] == c.huge[i].len &&
        m'[c.huge[i].pos + 1] == FollowHuge(c.huge, i + 1)
    {
      assert c.huge[i] in c.huge;
      assert Free(t, c.huge[i].pos) in d;
    }
  }

  /** Writes within the span of an owner that is not a listed block keep all lists. */
  lemma WriteFrame(s: State, o: Owner, ks: seq<Fields>, m: seq<nat>, m': seq<nat>)
    requires InvBut(s, |s.caches|) || (exists t :: InvBut(s, t))
    requires AllStored(s.caches, ks, m) && s.cfg.fmax > 0 && |m| >= s.n
    requires o in s.d && !o.Free? && OnlyIn(s.d[o], m, m')
    ensures AllStored(s.caches, ks, m')
  {
    var t :| InvBut(s, t);
    forall u | 0 <= u < |s.caches| ensures Stored(s.caches[u], ks[u], m') {
      forall p | Free(u, p) in s.d ensures s.d[Free(u, p)].lo == p && SameIn(s.d[Free(u, p)], m, m') {
        assert Proper(s.d, |s.caches|, Free(u, p));
        forall w | s.d[Free(u, p)].lo <= w < s.d[Free(u, p)].hi && w < |m| ensures m'[w] == m[w] {
          Partition(s.d, s.n, w);
          assert Within(s.d[Free(u, p)], w);
        }
      }
      StoredFrame(s.d, u, s.cfg.fmax, s.caches[u], ks[u], m, m');
    }
  }

  lemma SetStored(cs: seq<Cache>, ks: seq<Fields>, m: seq<nat>, t: Tid, c: Cache, k: Fields)
    requires AllStored(cs, ks, m) && t < |cs| && Stored(c, k, m)
    ensures AllStored(cs[t := c], ks[t := k], m)
  {
  }

  lemma HugeCons(l: seq<Block>, head: nat, m: seq<nat>, pos: nat, len: nat)
    requires HugeChain(l, head, m) && pos + 1 < |m| && m[pos] == len && m[pos + 1] == head
    ensures HugeChain([Block(pos, len)] + l, pos, m)
  {
    var l' := [Block(pos, len)] + l;
    forall i | 0 <= i < |l'|
      ensures l'[i].pos + 1 < |m| && m[l'[i].pos] == l'[i].len && m[l'[i].pos + 1] == FollowHuge(l', i + 1)
    {
      if i > 0 { assert l'[i] == l[i - 1]; }
    }
  }

  lemma HugeTail(l: seq<Block>, head: nat, m: seq<nat>)
    requires HugeChain(l, head, m) && l != []
    ensures head == l[0].pos && head + 1 < |m| && m[head] == l[0].len && HugeChain(l[1..], m[head + 1], m)
  {
    forall i | 0 <= i < |l[1..]|
      ensures l[1..][i].pos + 1 < |m| && m[l[1..][i].pos] == l[1..][i].len &&
        m[l[1..][i].pos + 1] == FollowHuge(l[1..], i + 1)
    {
      assert l[1..][i] == l[i + 1];
    }
  }

  /** The fields of a thread once a block has been put on its list. */
  ghost function PushedFields(k: Fields, fmax: nat, pos: nat, len: nat): Fields
    requires |k.heads| == fmax && 0 < len
  {
    if len <= fmax then k.(heads := k.heads[len - 1 := pos]) else k.(hugeHead := pos)
  }

  /** The memory then: the links and, for a huge block, the length, written into the block. */
  ghost function PushedMem(k: Fields, fmax: nat, m: seq<nat>, pos: nat, len: nat): seq<nat>
    requires |k.heads| == fmax && 0 < len && pos + len <= |m| && fmax > 0
  {
    if len <= fmax then m[pos := k.heads[len - 1]] else m[pos := len][pos + 1 := k.hugeHead]
  }

  lemma PushStored(c: Cache, k: Fields, fmax: nat, m: seq<nat>, pos: nat, len: nat)
    requires |c.fast| == fmax > 0 && 0 < len && pos + len <= |m| && |k.heads| == fmax
    requires Stored(c, k, PushedMem(k, fmax, m, pos, len))
    ensures Stored(Pushed(c, fmax, pos, len), PushedFields(k, fmax, pos, len), PushedMem(k, fmax, m, pos, len))
  {
    var m' := PushedMem(k, fmax, m, pos, len);
    if len <= fmax {
      FastCons(c.fast[len - 1], k.heads[len - 1], m', pos);
    } else {
      HugeCons(c.huge, k.hugeHead, m', pos, len);
    }
    hide FastChain, HugeChain;
  }

  /** What happens next: an operation of the pool, or a caller's write into its block. */
  datatype Action = Op(e: ArenaProtocol.Event) | Store(pos: nat, i: nat, v: nat)

  /** What an action leaves of the state and of the memory. */
  ghost predicate Step(s: State, m: seq<nat>, a: Action, s': State, m': seq<nat>) {
    match a
    case Op(e) => ArenaProtocol.Enabled(s, e) && s' == ArenaProtocol.Next(s, e) && Spares(s.d, e, m, m')
    case Store(pos, i, v) =>
      Live(pos) in s.d && pos + i < s.d[Live(pos)].hi && pos + i < |m| && s' == s && m' == m[pos + i := v]
  }

  /** No operation writes to a live block, but for what it frees of one. */
  ghost predicate Spares(d: Division, e: ArenaProtocol.Event, m: seq<nat>, m': seq<nat>) {
    match e
    case Release(_, pos) => Others(d, Live(pos), m, m')
    case Shrink(_, pos, len) => Others(d, Live(pos), m, m') && (pos + len <= |m| ==> Kept(m, m', pos, pos, len))
    case _ => LiveSame(d, m, m')
  }

  lemma StillStep(s: State, e: ArenaProtocol.Event, m: seq<nat>)
    requires ArenaProtocol.Enabled(s, e) && !e.Release? && !e.Shrink?
    ensures Step(s, m, Op(e), ArenaProtocol.Next(s, e), m)
  {
    hide ArenaProtocol.Enabled, ArenaProtocol.Next;
    NoWrite(s.d, m);
  }

  lemma ShrinkStep(s: State, t: Tid, pos: nat, oldlen: nat, newlen: nat, m: seq<nat>, m': seq<nat>)
    requires ArenaProtocol.Inv(s) && ArenaProtocol.Enabled(s, ArenaProtocol.Shrink(t, pos, newlen))
    requires s.d[Live(pos)] == Span(pos, pos + oldlen) && pos + oldlen <= |m|
    requires OnlyIn(Span(pos + newlen, pos + oldlen), m, m')
    ensures Step(s, m, Op(ArenaProtocol.Shrink(t, pos, newlen)),
      ArenaProtocol.Next(s, ArenaProtocol.Shrink(t, pos, newlen)), m')
  {
    hide ArenaProtocol.Inv, ArenaProtocol.Next, Others, Kept, OnlyIn;
    ShrinkReplaced(s, t, pos, oldlen, newlen, m, m');
  }

  class Pool {
    const cfg: Config
    const mem: array<nat>
    var n: nat
    var fragmentSize: int
    var caches: seq<Fields>

    ghost var st: State

    ghost predicate Mirrors()
      reads this, mem
    {
      && st.cfg == cfg && mem.Length == cfg.cap < TAIL && cfg.fmax >= 9 && cfg.chunk > 0
      && n == st.n && fragmentSize == st.pool
      && AllStored(st.caches, caches, mem[..])
    }

    ghost predicate Valid()
      reads this, mem
    {
      ArenaProtocol.Inv(st) && Mirrors()
    }

    constructor (cfg: Config)
      requires 9 <= cfg.fmax && 0 < cfg.chunk && cfg.cap < TAIL
      ensures Valid() && st == ArenaProtocol.Init(cfg) && fresh(mem)
    {
      ArenaProtocol.InitInv(cfg);
      this.cfg := cfg;
      mem := new nat[cfg.cap];
      n, fragmentSize, caches := 0, 0, [];
      st := ArenaProtocol.Init(cfg);
    }

    /** A thread gets its cache. */
    method Join() returns (t: Tid)
      requires Valid()
      modifies this`caches, this`st
      ensures Valid() && t == |old(st).caches| && Step(old(st), mem[..], Op(ArenaProtocol.Join), st, mem[..])
    {
      hide ArenaProtocol.Inv, FastChain, Step;
      StillStep(st, ArenaProtocol.Join, mem[..]);
      ArenaProtocol.InvKept(st, ArenaProtocol.Join);
      t := |caches|;
      ghost var c := ArenaProtocol.NewCache(cfg);
      var k := Fields(0, 0, seq(cfg.fmax, _ => TAIL), TAIL, 0, 0, 0);
      assert Stored(c, k, mem[..]) by { EmptyStored(cfg, k, mem[..]); }
      caches := caches + [k];
      st := ArenaProtocol.Next(st, ArenaProtocol.Join);
    }

    /** `clean_for_reuse`, and `sync_frag_size` for one thread. */
    method Flush(t: Tid)
      requires ArenaProtocol.Enabled(st, ArenaProtocol.Flush(t)) && Valid()
      modifies this`caches, this`fragmentSize, this`st
      ensures Valid() && Step(old(st), mem[..], Op(ArenaProtocol.Flush(t)), st, mem[..])
      ensures t < |old(caches)| && fragmentSize == old(fragmentSize) + old(caches)[t].inc
      ensures caches == old(caches)[t := old(caches)[t].(inc := 0)]
    {
      hide ArenaProtocol.Inv, Chains, HugeChain, Step;
      StillStep(st, ArenaProtocol.Flush(t), mem[..]);
      ArenaProtocol.InvKept(st, ArenaProtocol.Flush(t));
      fragmentSize := fragmentSize + caches[t].inc;
      caches := caches[t := caches[t].(inc := 0)];
      st := ArenaProtocol.Next(st, ArenaProtocol.Flush(t));
    }

    /** `reduce_frag_size`: the thread reports to the pool when it is far behind. */
    method ReduceFrag(t: Tid, x: nat)
      requires Mirrors() && t < |st.caches|
      modifies this`caches, this`fragmentSize, this`st
      ensures Mirrors() && st == Arena.ReduceFrag(old(st), t, x)
    {
      hide FastChain, HugeChain, Chains;
      var k := caches[t].(frag := caches[t].frag - x, inc := caches[t].inc - x);
      if k.inc + cfg.flush < 0 {
        fragmentSize := fragmentSize + k.inc;
        k := k.(inc := 0);
      }
      caches := caches[t := k];
      st := Arena.ReduceFrag(st, t, x);
    }

    method AddFrag(t: Tid, x: nat)
      requires Mirrors() && t < |st.caches|
      modifies this`caches, this`fragmentSize, this`st
      ensures Mirrors() && st == Arena.AddFrag(old(st), t, x)
    {
      hide FastChain, HugeChain, Chains;
      var k := caches[t].(frag := caches[t].frag + x, inc := caches[t].inc + x);
      if k.inc > cfg.flush {
        fragmentSize := fragmentSize + k.inc;
        k := k.(inc := 0);
      }
      caches := caches[t := k];
      st := Arena.AddFrag(st, t, x);
    }

    /** Puts a block on the list for its length; the counts of the thread follow later. */
    method Push(t: Tid, pos: nat, len: nat, ghost o: Owner)
      requires Mirrors() && InvBut(st, t) && Ready(st, t)
      requires o in st.d && st.d[o] == Span(pos, pos + len) && 0 < len && (o.Live? || o == Granted(t) || o == Hot(t))
      modifies this`caches, this`st, mem
      ensures Mirrors() && OnlyIn(Span(pos, pos + len), old(mem[..]), mem[..])
      ensures st == Put(old(st).(d := Give(old(st).d, o, Free(t, pos))), t,
        Pushed(old(st).caches[t], cfg.fmax, pos, len))
    {
      hide Stored, InvBut, OnlyIn, AllStored, Pushed, Give;
      PushAll(st, t, o, caches, mem[..]);
      var k := caches[t];
      if len <= cfg.fmax {
        mem[pos] := k.heads[len - 1];
        caches := caches[t := k.(heads := k.heads[len - 1 := pos])];
      } else {
        mem[pos], mem[pos + 1] := len, k.hugeHead;
        caches := caches[t := k.(hugeHead := pos)];
      }
      assert mem[..] == PushedMem(k, cfg.fmax, old(mem[..]), pos, len);
      st := Put(st.(d := Give(st.d, o, Free(t, pos))), t, Pushed(st.caches[t], cfg.fmax, pos, len));
    }

    /** Frees a span: it joins the hot area when it ends where that begins, else it goes to a list. */
    method Sfree(t: Tid, pos: nat, len: nat, ghost o: Owner)
      requires Mirrors() && InvBut(st, t) && Ready(st, t)
      requires o in st.d && st.d[o] == Span(pos, pos + len) && 0 < len && (o.Live? || o == Granted(t) || o == Hot(t))
      modifies this`caches, this`fragmentSize, this`st, mem
      ensures Mirrors() && OnlyIn(Span(pos, pos + len), old(mem[..]), mem[..])
      ensures st == Arena.Sfree(old(st), t, o)
    {
      hide InvBut, OnlyIn, Give, Absorb, Chains, HugeChain;
      ghost var s0 := st;
      assert Stored(st.caches[t], caches[t], mem[..]);
      if pos + len == caches[t].hotPos {
        NothingIn(Span(pos, pos + len), mem[..]);
        caches := caches[t := caches[t].(hotPos := pos)];
        st := Put(st.(d := Absorb(st.d, Hot(t), o)), t, st.caches[t].(hotPos := pos));
      } else {
        Push(t, pos, len, o);
        if len > cfg.fmax { CountHuge(t, len); }
        AddFrag(t, len);
      }
    }

    method CountHuge(t: Tid, len: int)
      requires Mirrors() && t < |st.caches|
      modifies this`caches, this`st
      ensures Mirrors() && st == Put(old(st), t, old(st).caches[t].(hugeSum := old(st).caches[t].hugeSum + len))
    {
      hide Chains, HugeChain;
      caches := caches[t := caches[t].(hugeSum := caches[t].hugeSum + len)];
      st := Put(st, t, st.caches[t].(hugeSum := st.caches[t].hugeSum + len));
    }

    method UncountHuge(t: Tid, len: nat)
      requires Mirrors() && t < |st.caches|
      modifies this`caches, this`fragmentSize, this`st
      ensures Mirrors() && st == Arena.UncountHuge(old(st), t, len)
    {
      hide AllStored;
      CountHuge(t, 0 - len);
      ReduceFrag(t, len);
    }

    /** What is left of the hot area goes to a list. */
    method Retire(t: Tid)
      requires Mirrors() && InvBut(st, t) && Ready(st, t)
      modifies this`caches, this`fragmentSize, this`st, mem
      ensures Mirrors() && st == Arena.Retire(old(st), t)
      ensures OnlyIn(old(st).d[Hot(t)], old(mem[..]), mem[..])
    {
      hide InvBut, OnlyIn, AllStored, Arena.Sfree;
      Scalars(t);
      var k := caches[t];
      if k.hotPos < k.hotEnd {
        Sfree(t, k.hotPos, k.hotEnd - k.hotPos, Hot(t));
      } else {
        NothingIn(st.d[Hot(t)], mem[..]);
        st := st.(d := st.d - {Hot(t)});
      }
    }

    lemma Scalars(t: Tid)
      requires Mirrors() && t < |st.caches|
      ensures t < |caches| && caches[t].hotPos == st.caches[t].hotPos && caches[t].hotEnd == st.caches[t].hotEnd
      ensures |caches[t].heads| == |st.caches[t].fast|
      ensures forall i :: 0 <= i < |caches[t].heads| ==> (caches[t].heads[i] == TAIL <==> st.caches[t].fast[i] == [])
      ensures st.caches[t].huge == [] ==> caches[t].hugeHead == TAIL
      ensures st.caches[t].huge != [] ==>
        var b := st.caches[t].huge[0]; caches[t].hugeHead == b.pos && b.pos + 1 < mem.Length && mem[b.pos] == b.len
    {
      assert Stored(st.caches[t], caches[t], mem[..]);
      var k, c := caches[t], st.caches[t];
      forall i | 0 <= i < |k.heads| ensures k.heads[i] == TAIL <==> c.fast[i] == [] {
        assert FastChain(c.fast[i], k.heads[i], mem[..]);
        if c.fast[i] != [] { FastTail(c.fast[i], k.heads[i], mem[..]); }
      }
      if c.huge != [] { HugeTail(c.huge, k.hugeHead, mem[..]); }
    }

    /** Takes the first block off a fast list. */
    method PopFast(t: Tid, len: nat) returns (pos: nat)
      requires Mirrors() && Ready(st, t) && 0 < len <= cfg.fmax && st.caches[t].fast[len - 1] != []
      modifies this`caches, this`st
      ensures Mirrors() && pos == old(st).caches[t].fast[len - 1][0] && st == Arena.PopFast(old(st), t, len)
    {
      hide FastChain, HugeChain;
      assert Stored(st.caches[t], caches[t], mem[..]);
      var k := caches[t];
      FastTail(st.caches[t].fast[len - 1], k.heads[len - 1], mem[..]);
      pos := k.heads[len - 1];
      caches := caches[t := k.(heads := k.heads[len - 1 := mem[pos]])];
      st := Arena.PopFast(st, t, len);
    }

    method PopHuge(t: Tid) returns (pos: nat, len: nat)
      requires Mirrors() && Ready(st, t) && Named(st, t) && st.caches[t].huge != []
      modifies this`caches, this`st
      ensures Mirrors() && Block(pos, len) == old(st).caches[t].huge[0] && st == Arena.PopHuge(old(st), t)
    {
      hide FastChain, HugeChain;
      assert Stored(st.caches[t], caches[t], mem[..]);
      var k := caches[t];
      HugeTail(st.caches[t].huge, k.hugeHead, mem[..]);
      pos := k.hugeHead;
      len := mem[pos];
      caches := caches[t := k.(hugeHead := mem[pos + 1])];
      st := Arena.PopHuge(st, t);
    }

    /** Takes the front of the hot area; -1 when it is too short. */
    method Bump(t: Tid, req: nat) returns (pos: int)
      requires Mirrors() && Ready(st, t)
      modifies this`caches, this`st
      ensures Mirrors()
      ensures pos == -1 ==> Arena.Bump(old(st), t, req).NoRoom? && st == old(st)
      ensures pos != -1 ==> pos >= 0 && Arena.Bump(old(st), t, req) == Took(pos, st)
    {
      hide Chains, HugeChain;
      assert Stored(st.caches[t], caches[t], mem[..]);
      var k := caches[t];
      if k.hotPos + req <= k.hotEnd {
        pos := k.hotPos;
        caches := caches[t := k.(hotPos := k.hotPos + req)];
        st := Arena.Bump(st, t, req).s;
      } else {
        pos := -1;
      }
    }

    /** Splits a block of twice the length: the second half becomes the only one on the list of its
        length. */
    method TakeHalf(t: Tid, req: nat) returns (pos: nat)
      requires Mirrors() && Sound(st) && Ready(st, t) && Named(st, t) && Granted(t) !in st.d && 0 < req
      requires 2 * req <= cfg.fmax && st.caches[t].fast[req - 1] == [] && st.caches[t].fast[2 * req - 1] != []
      modifies this`caches, this`fragmentSize, this`st, mem
      ensures Mirrors() && Arena.TakeSmall(old(st), t, req) == Took(pos, st)
      ensures LiveSame(old(st).d, old(mem[..]), mem[..])
    {
      hide Sound, Give, Cut, Moves, HugeChain, FastChain, Arena.ReduceFrag, OnlyIn, SameIn, LiveSame;
      PopKeeps(st, t, 2 * req);
      ghost var s0 := st;
      ghost var s1 := Arena.PopFast(st, t,
        2 * req).(d := Give(st.d, Free(t, st.caches[t].fast[2 * req - 1][0]), Live(st.caches[t].fast[2 * req - 1][0])));
      pos := PopFast(t, 2 * req);
      HalfAll(s0, s1, t, req, caches, mem[..]);
      mem[pos + req] := TAIL;
      assert mem[..] == old(mem[..])[pos + req := TAIL];
      caches := caches[t := caches[t].(heads := caches[t].heads[req - 1 := pos + req])];
      st := Put(st.(d := Cut(s1.d, Live(pos), pos + req, Free(t, pos + req))), t,
                st.caches[t].(fast := st.caches[t].fast[req - 1 := [pos + req]]));
      ReduceFrag(t, req);
    }

    /** A huge block becomes the hot area, its front is handed out. */
    method TakeHugeHot(t: Tid, req: nat) returns (pos: nat)
      requires Mirrors() && Sound(st) && Ready(st, t) && Named(st, t) && Granted(t) !in st.d && 0 < req <= cfg.fmax
      requires st.caches[t].fast[req - 1] == [] && !(2 * req <= cfg.fmax && st.caches[t].fast[2 * req - 1] != [])
      requires Arena.Bump(st, t, req).NoRoom? && st.caches[t].huge != [] && st.caches[t].huge[0].len >= req
      modifies this`caches, this`fragmentSize, this`st, mem
      ensures Mirrors() && Arena.TakeSmall(old(st), t, req) == Took(pos, st)
      ensures LiveSame(old(st).d, old(mem[..]), mem[..])
    {
      hide Sound, InvBut, Give, CutLow, Moves, AllStored, Arena.ReduceFrag, OnlyIn, LiveSame, Arena.Sfree, Arena.Retire,
        Arena.UncountHuge, Named, OnlyFor;
      HugeHotKeeps(st, t, req);
      PopHugeKeeps(st, t);
      ghost var s0 := st;
      var len;
      pos, len := PopHuge(t);
      SoundBut(st, t);
      SoundBut(s0, t);
      SoundParts(s0, t);
      RetireKeeps(st, t);
      Retire(t);
      WriteLive(s0, Hot(t), old(mem[..]), mem[..]);
      MakeHotAt(t, pos, req, len);
      UncountHuge(t, len);
    }

    method MakeHotAt(t: Tid, pos: nat, req: nat, len: nat)
      requires Mirrors() && t < |st.caches| && Granted(t) in st.d && st.d[Granted(t)] == Span(pos, pos + len)
      requires Granted(t) in CutLow(st.d, Granted(t), pos + req, Live(pos))
      modifies this`caches, this`st
      ensures Mirrors()
      ensures st == MakeHot(old(st).(d := CutLow(old(st).d, Granted(t), pos + req, Live(pos))), t, Granted(t))
    {
      hide Chains, HugeChain;
      st := MakeHot(st.(d := CutLow(st.d, Granted(t), pos + req, Live(pos))), t, Granted(t));
      caches := caches[t := caches[t].(hotPos := pos + req, hotEnd := pos + len)];
    }

    method TakeSmall(t: Tid, req: nat) returns (pos: int)
      requires Mirrors() && Sound(st) && Ready(st, t) && Named(st, t) && Granted(t) !in st.d && 0 < req <= cfg.fmax
      modifies this`caches, this`fragmentSize, this`st, mem
      ensures Mirrors() && LiveSame(old(st).d, old(mem[..]), mem[..])
      ensures pos == -1 ==> Arena.TakeSmall(old(st), t, req) == NoRoom && st == old(st)
      ensures pos != -1 ==> pos >= 0 && Arena.TakeSmall(old(st), t, req) == Took(pos, st)
    {
      hide Sound, AllStored, LiveSame, Give, Arena.ReduceFrag;
      Scalars(t);
      NoWrite(st.d, mem[..]);
      var k := caches[t];
      if k.heads[req - 1] != TAIL {
        pos := PopFast(t, req);
        st := st.(d := Give(st.d, Free(t, pos), Live(pos)));
        ReduceFrag(t, req);
      } else if 2 * req <= cfg.fmax && k.heads[2 * req - 1] != TAIL {
        pos := TakeHalf(t, req);
      } else {
        pos := Bump(t, req);
        if pos == -1 && k.hugeHead != TAIL && mem[k.hugeHead] >= req {
          pos := TakeHugeHot(t, req);
        }
      }
    }

    method TakeLarge(t: Tid, req: nat) returns (pos: int)
      requires Mirrors() && Sound(st) && Ready(st, t) && Named(st, t) && Granted(t) !in st.d && cfg.fmax < req
      modifies this`caches, this`fragmentSize, this`st, mem
      ensures Mirrors() && LiveSame(old(st).d, old(mem[..]), mem[..])
      ensures pos == -1 ==> Arena.TakeLarge(old(st), t, req) == NoRoom && st == old(st)
      ensures pos != -1 ==> pos >= 0 && Arena.TakeLarge(old(st), t, req) == Took(pos, st)
    {
      hide Sound, AllStored, LiveSame, Arena.UncountHuge, Arena.Sfree, Named;
      Scalars(t);
      NoWrite(st.d, mem[..]);
      if caches[t].hugeHead != TAIL && mem[caches[t].hugeHead] >= req {
        pos := TakeHugeLarge(t, req);
      } else {
        pos := Bump(t, req);
      }
    }

    /** The first huge block is long enough: what it has too much is freed. */
    method TakeHugeLarge(t: Tid, req: nat) returns (pos: nat)
      requires Mirrors() && Sound(st) && Ready(st, t) && Named(st, t) && Granted(t) !in st.d && cfg.fmax < req
      requires st.caches[t].huge != [] && st.caches[t].huge[0].len >= req
      modifies this`caches, this`fragmentSize, this`st, mem
      ensures Mirrors() && LiveSame(old(st).d, old(mem[..]), mem[..])
      ensures Arena.TakeLarge(old(st), t, req) == Took(pos, st)
    {
      hide Sound, InvBut, Give, CutLow, Moves, AllStored, Arena.UncountHuge, OnlyIn, LiveSame, Arena.Sfree, OnlyFor,
        Named;
      ghost var s0 := st;
      SoundBut(s0, t);
      SoundParts(s0, t);
      NoWrite(st.d, mem[..]);
      PopHugeKeeps(st, t);
      var len;
      pos, len := PopHuge(t);
      UncountKeeps(st, t, len);
      UncountHuge(t, len);
      if len > req {
        StillNoLive(s0.d, st.d, t, pos);
        SoundBut(st, t);
        CutGranted(st, t, req);
        st := st.(d := CutLow(st.d, Granted(t), pos + req, Live(pos)));
        ghost var s2 := st;
        SoundBut(s2, t);
        Sfree(t, pos + req, len - req, Granted(t));
        RestWrites(s0, t, pos, req, len, old(mem[..]), mem[..]);
      } else {
        st := st.(d := Give(st.d, Granted(t), Live(pos)));
      }
    }

    method AllocLocal(t: Tid, req: nat) returns (pos: int)
      requires Mirrors() && Sound(st) && Ready(st, t) && Named(st, t) && Granted(t) !in st.d && 0 < req
      modifies this`caches, this`fragmentSize, this`st, mem
      ensures Mirrors() && LiveSame(old(st).d, old(mem[..]), mem[..])
      ensures pos == -1 ==> TakeLocal(old(st), t, req) == NoRoom && st == old(st)
      ensures pos != -1 ==> pos >= 0 && TakeLocal(old(st), t, req) == Took(pos, st)
    {
      hide Sound, AllStored, LiveSame, Arena.TakeSmall, Arena.TakeLarge, Named;
      if req <= cfg.fmax { pos := TakeSmall(t, req); } else { pos := TakeLarge(t, req); }
    }

    method SetHotArea(t: Tid, pos: nat, len: nat)
      requires Mirrors() && Sound(st) && Ready(st, t) && Granted(t) in st.d && st.d[Granted(t)] == Span(pos, pos + len)
      modifies this`caches, this`fragmentSize, this`st, mem
      ensures Mirrors() && LiveSame(old(st).d, old(mem[..]), mem[..])
      ensures st == ArenaProtocol.SetHotArea(old(st), t)
    {
      hide Sound, InvBut, Arena.Retire, Absorb, Give, LiveSame, OnlyIn, Chains, HugeChain, Named;
      ghost var s0 := st;
      SoundBut(st, t);
      SoundParts(st, t);
      Scalars(t);
      NoWrite(st.d, mem[..]);
      if caches[t].hotEnd == pos {
        caches := caches[t := caches[t].(hotEnd := pos + len)];
        st := ArenaProtocol.SetHotArea(st, t);
      } else {
        RetireKeeps(st, t);
        Retire(t);
        WriteLive(s0, Hot(t), old(mem[..]), mem[..]);
        caches := caches[t := caches[t].(hotPos := pos, hotEnd := pos + len)];
        st := MakeHot(st, t, Granted(t));
      }
    }

    // ---------------------------------------------------------------- what callers use

    /** One round of the loop in `chunk_alloc`: `oldn` is the mark as the thread read it, perhaps
        before other threads moved it, and the exchange may fail without reason. */
    method TryAdvance(t: Tid, req: nat, oldn: nat, spurious: bool) returns (r: Advance, len: nat)
      requires Valid() && t < |st.caches| && t !in st.grants && 0 < req && oldn <= n
      requires ArenaProtocol.Working(st, t) && TakeLocal(st, t, req).NoRoom?
      modifies this`n, this`st
      ensures Valid() && LiveSame(old(st).d, mem[..], mem[..])
      ensures r == Advanced ==> Step(old(st), mem[..], Op(ArenaProtocol.Advance(t, req)), st, mem[..])
      ensures r == Advanced ==> Granted(t) in st.d && st.d[Granted(t)] == Span(oldn, oldn + len)
      ensures r == Advanced ==> t in st.grants && st.grants[t] == req && |st.caches| == old(|st.caches|)
      ensures r == Advanced ==> len == ArenaProtocol.ChunkLen(cfg, oldn, req) && n == oldn + len
      ensures st.caches == old(st).caches && st.cfg == cfg
      ensures r != Advanced ==> st == old(st) && n == old(n)
      ensures r == Full <==> oldn + req > cfg.cap
      ensures r == Retry <==> oldn + req <= cfg.cap && (spurious || oldn != old(n))
    {
      hide ArenaProtocol.Inv, AllStored, TakeLocal, LiveSame, ArenaProtocol.ChunkLen, ArenaProtocol.Next, Named;
      NoWrite(st.d, mem[..]);
      ArenaProtocol.InvBound(st, t);
      var fits;
      fits, len := AdvanceBy(oldn, req);
      if !fits { return Full, 0; }
      if n == oldn && !spurious {
        ghost var e := ArenaProtocol.Advance(t, req);
        ArenaProtocol.InvKept(st, e);
        ArenaProtocol.AdvanceForm(st, e);
        st := ArenaProtocol.Next(st, e);
        n := oldn + len;
        r := Advanced;
      } else {
        r := Retry;
      }
    }

    method AdvanceBy(oldn: nat, req: nat) returns (fits: bool, len: nat)
      requires cfg.chunk > 0 && oldn <= cfg.cap
      ensures fits <==> oldn + req <= cfg.cap
      ensures fits ==> len == ArenaProtocol.ChunkLen(cfg, oldn, req)
    {
      ArenaProtocol.AlignedUp(req, cfg.chunk);
      hide ArenaProtocol.AlignUp;
      len := ArenaProtocol.AlignUp(req, cfg.chunk);
      var off := (cfg.skew + oldn) % cfg.chunk;
      if off != 0 { len := len + (cfg.chunk - off); }
      fits := true;
      if oldn + len > cfg.cap {
        if oldn + req > cfg.cap { return false, 0; }
        len := cfg.cap - oldn;
      }
    }

    /** After the mark has moved: the new area serves the request. */
    method FinishAdvance(t: Tid, req: nat, start: nat, len: nat) returns (pos: nat)
      requires Valid() && t < |st.caches| && t in st.grants && st.grants[t] == req
      requires Granted(t) in st.d && st.d[Granted(t)] == Span(start, start + len)
      modifies this`caches, this`fragmentSize, this`st, mem
      ensures Valid() && Step(old(st), old(mem[..]), Op(ArenaProtocol.Finish(t)), st, mem[..])
      ensures Live(pos) !in old(st).d && Live(pos) in st.d && st.d[Live(pos)] == Span(pos, pos + req)
      ensures ArenaLaws.ServedByNew(old(st), st, t, start, start + len, req, pos)
      ensures LiveSame(old(st).d, old(mem[..]), mem[..])
    {
      hide ArenaLaws.ServedByNew, ArenaLaws.HotSet, AllStored, TakeLocal, LiveSame, ArenaProtocol.SetHotArea, Sound,
        ArenaProtocol.Books, Named;
      FinishLaw(t);
      ghost var s0, e, m0 := st, ArenaProtocol.Finish(t), mem[..];
      SoundBut(st, t);
      ArenaProtocol.Granting(st, t);
      ArenaProtocol.InvKept(st, e);
      ArenaProtocol.FinishKept(st, e);
      ArenaProtocol.Ungranted(st, t);
      st := st.(grants := st.grants - {t});
      ArenaProtocol.SetHotAreaKeeps(st, t);
      SetHotArea(t, start, len);
      SoundBut(st, t);
      ghost var s1, m1 := st, mem[..];
      ArenaProtocol.HotServes(st, t, req);
      var p := AllocLocal(t, req);
      pos := p;
      LiveSameTwice(s0.d, s1.d, m0, m1, mem[..]);
    }

    lemma FinishLaw(t: Tid)
      requires ArenaProtocol.Inv(st) && t < |st.caches| && t in st.grants
      ensures ArenaProtocol.Enabled(st, ArenaProtocol.Finish(t))
      ensures var s1 := ArenaProtocol.SetHotArea(st.(grants := st.grants - {t}), t);
        var r := ArenaProtocol.ServeNow(s1, t, st.grants[t]);
        && r.Took?
        && ArenaLaws.ServedByNew(st, r.s, t, st.d[Granted(t)].lo, st.d[Granted(t)].hi, st.grants[t], r.pos)
    {
      ArenaProtocol.FinishEnabled(st, t);
      hide ArenaLaws.ServedByNew, ArenaProtocol.SetHotArea, ArenaProtocol.ServeNow, ArenaProtocol.Inv;
      ArenaLaws.FinishServes(st, t);
    }

    /** The thread's own `alloc`; -1 when its lists and its hot area cannot serve the request. */
    method AllocFast(t: Tid, req: nat) returns (pos: int)
      requires Valid() && t < |st.caches| && t !in st.grants && 0 < req
      modifies this`caches, this`fragmentSize, this`st, mem
      ensures Valid() && LiveSame(old(st).d, old(mem[..]), mem[..])
      ensures pos == -1 ==> TakeLocal(old(st), t, req).NoRoom? && st == old(st)
      ensures pos != -1 ==> Step(old(st), old(mem[..]), Op(ArenaProtocol.Alloc(t, req)), st, mem[..])
      ensures pos != -1 ==> pos >= 0 && Gained(old(st).d, st.d, pos, req) && st.grants == old(st).grants
      ensures |old(st).caches[t].fast| == cfg.fmax
      ensures pos == -1 <==> ArenaLaws.SourceOf(old(st).caches[t], cfg.fmax, req) == ArenaLaws.Nowhere
      ensures pos != -1 ==> ArenaLaws.Served(old(st), st, t, req, pos)
      ensures |st.caches| == old(|st.caches|)
    {
      hide ArenaProtocol.Inv, AllStored, TakeLocal, LiveSame, Named, Gained, ArenaLaws.Served, ArenaLaws.SourceOf;
      ArenaProtocol.InvBound(st, t);
      ArenaLaws.TakeServes(st, t, req);
      ghost var s0 := st;
      pos := AllocLocal(t, req);
      if pos != -1 { LocalGains(s0, t, req); }
    }

    /** `alloc` when no other thread interferes; -1 only if the arena cannot cover the request. */
    method Alloc(t: Tid, req: nat) returns (pos: int)
      requires Valid() && t < |st.caches| && t !in st.grants && 0 < req
      modifies this, mem
      ensures Valid() && t !in st.grants && |st.caches| == old(|st.caches|)
      ensures LiveSame(old(st).d, old(mem[..]), mem[..])
      ensures pos == -1 ==> st == old(st)
      ensures |old(st).caches[t].fast| == cfg.fmax
      ensures var nowhere := ArenaLaws.SourceOf(old(st).caches[t], cfg.fmax, req) == ArenaLaws.Nowhere;
        && (pos == -1 <==> nowhere && old(n) + req > cfg.cap)
        && (!nowhere ==> pos >= 0 && n == old(n) && ArenaLaws.Served(old(st), st, t, req, pos))
        && (pos != -1 && nowhere ==>
             && pos >= 0 && n == old(n) + ArenaProtocol.ChunkLen(cfg, old(n), req)
             && ArenaLaws.ServedByNew(old(st), st, t, old(n), n, req, pos))
      ensures pos != -1 ==> pos >= 0 && Gained(old(st).d, st.d, pos, req)
    {
      hide ArenaProtocol.Inv, AllStored, TakeLocal, LiveSame, ArenaProtocol.Next, Named, Gained;
      hide ArenaLaws.SourceOf, ArenaLaws.Served, ArenaLaws.ServedByNew, ArenaProtocol.ChunkLen;
      ArenaProtocol.InvBound(st, t);
      ghost var s0, m0 := st, mem[..];
      pos := AllocFast(t, req);
      if pos == -1 {
        var oldn := n;
        var r, len := TryAdvance(t, req, oldn, false);
        if r == Full { return -1; }
        ghost var s1, m1 := st, mem[..];
        pos := FinishAdvance(t, req, oldn, len);
        ArenaLaws.NewSame(s0, s1, st, t, oldn, oldn + len, req, pos);
        AdvanceGains(s0, s1, t, req, pos);
        LiveSameTwice(s0.d, s1.d, m0, m1, mem[..]);
      }
    }

    /** `sfree` of a live block by any thread. */
    method Release(t: Tid, pos: nat, len: nat)
      requires Valid() && t < |st.caches| && t !in st.grants && Live(pos) in st.d &&
        st.d[Live(pos)] == Span(pos, pos + len)
      modifies this, mem
      ensures Valid() && Step(old(st), old(mem[..]), Op(ArenaProtocol.Release(t, pos)), st, mem[..])
      ensures OnlyIn(Span(pos, pos + len), old(mem[..]), mem[..])
      ensures ArenaLaws.Freed(old(st), st, t, pos, len)
    {
      hide ArenaProtocol.Inv, AllStored, OnlyIn, Others, Arena.Sfree, Named, InvBut, ArenaLaws.Freed;
      ghost var s0, m0 := st, mem[..];
      ArenaProtocol.InvBound(st, t);
      ArenaProtocol.LiveSpan(st, pos);
      ArenaLaws.SfreeFrees(st, t, Live(pos));
      ArenaProtocol.InvKept(st, ArenaProtocol.Release(t, pos));
      Sfree(t, pos, len, Live(pos));
      WriteOthers(s0, Live(pos), m0, mem[..]);
    }

    /** A caller writes into its block; no list is disturbed. */
    method Write(pos: nat, i: nat, v: nat)
      requires Valid() && Live(pos) in st.d && pos + i < st.d[Live(pos)].hi
      modifies mem
      ensures Valid() && Step(st, old(mem[..]), Store(pos, i, v), st, mem[..])
    {
      hide ArenaProtocol.Inv, AllStored;
      ArenaProtocol.LiveSpan(st, pos);
      ArenaProtocol.InvBound(st, |st.caches|);
      WriteBlock(st, pos, caches, mem[..], pos + i, v);
      mem[pos + i] := v;
      assert mem[..] == old(mem[..])[pos + i := v];
    }

    /** `memcpy` from one live block to the front of another. */
    method Copy(dst: nat, src: nat, len: nat)
      requires Valid() && Live(src) in st.d && Live(dst) in st.d && src != dst && 0 < len
      requires src + len <= st.d[Live(src)].hi && dst + len <= st.d[Live(dst)].hi
      modifies mem
      ensures Valid() && OnlyIn(Span(dst, dst + len), old(mem[..]), mem[..])
      ensures src + len <= mem.Length && dst + len <= mem.Length
      ensures Kept(old(mem[..]), mem[..], src, dst, len)
    {
      hide ArenaProtocol.Inv, AllStored;
      ArenaProtocol.LiveSpan(st, src);
      ArenaProtocol.LiveSpan(st, dst);
      ArenaProtocol.InvBound(st, |st.caches|);
      StartsDiffer(st.d, st.n, Live(src), Live(dst));
      for i := 0 to len
        invariant Valid() && OnlyIn(Span(dst, dst + i), old(mem[..]), mem[..])
        invariant Kept(old(mem[..]), mem[..], src, dst, i)
      {
        WriteBlock(st, dst, caches, mem[..], dst + i, mem[src + i]);
        ghost var m := mem[..];
        mem[dst + i] := mem[src + i];
        assert mem[..] == m[dst + i := m[src + i]];
      }
    }

    /** The border to the hot area moves. */
    method Resize(t: Tid, pos: nat, len: nat)
      requires Valid() && t < |st.caches| && ArenaProtocol.Enabled(st, ArenaProtocol.Resize(t, pos, len))
      modifies this`caches, this`st
      ensures Valid() && Step(old(st), mem[..], Op(ArenaProtocol.Resize(t, pos, len)), st, mem[..])
      ensures t < |old(caches)| && caches == old(caches)[t := old(caches)[t].(hotPos := pos + len)]
    {
      hide ArenaProtocol.Inv, Named, Chains, HugeChain, Step;
      StillStep(st, ArenaProtocol.Resize(t, pos, len), mem[..]);
      ArenaProtocol.InvKept(st, ArenaProtocol.Resize(t, pos, len));
      caches := caches[t := caches[t].(hotPos := pos + len)];
      st := ArenaProtocol.Next(st, ArenaProtocol.Resize(t, pos, len));
    }

    /** The end of the block is freed. */
    method GiveBack(t: Tid, pos: nat, oldlen: nat, newlen: nat)
      requires Valid() && t < |st.caches| && ArenaProtocol.Enabled(st, ArenaProtocol.Shrink(t, pos, newlen))
      requires st.d[Live(pos)] == Span(pos, pos + oldlen)
      modifies this, mem
      ensures Valid() && Step(old(st), old(mem[..]), Op(ArenaProtocol.Shrink(t, pos, newlen)), st, mem[..])
      ensures OnlyIn(Span(pos + newlen, pos + oldlen), old(mem[..]), mem[..])
      ensures newlen < oldlen && ArenaLaws.Freed(old(st), st, t, pos + newlen, oldlen - newlen)
    {
      hide ArenaProtocol.Inv, Named, AllStored, OnlyIn, Cut, Arena.Sfree, InvBut, Sound, Step, ArenaLaws.Freed;
      ArenaLaws.ShrinkFrees(st, t, pos, newlen);
      ghost var s0, m0 := st, mem[..];
      ArenaProtocol.InvBound(st, t);
      ArenaProtocol.LiveSpan(st, pos);
      ArenaProtocol.InvKept(st, ArenaProtocol.Shrink(t, pos, newlen));
      ArenaProtocol.CutOff(st, t, pos, newlen);
      st := st.(d := Cut(st.d, Live(pos), pos + newlen, Granted(t)));
      SoundBut(st, t);
      Sfree(t, pos + newlen, oldlen - newlen, Granted(t));
      ShrinkStep(s0, t, pos, oldlen, newlen, m0, mem[..]);
    }

    /** A new block, the copy, and the old block freed. */
    method MoveBlock(t: Tid, pos: nat, oldlen: nat, newlen: nat) returns (r: int)
      requires Valid() && t < |st.caches| && t !in st.grants && 0 < oldlen < newlen
      requires Live(pos) in st.d && st.d[Live(pos)] == Span(pos, pos + oldlen)
      modifies this, mem
      ensures Valid() && t !in st.grants
      ensures r == -1 ==> st == old(st)
      ensures |old(st).caches[t].fast| == cfg.fmax
      ensures r == -1 <==>
        ArenaLaws.SourceOf(old(st).caches[t], cfg.fmax, newlen) == ArenaLaws.Nowhere &&
        old(st).n + newlen > old(st).cfg.cap
      ensures r != -1 ==> r >= 0 && Replaced(old(st).d, st.d, pos, r, newlen)
      ensures r != -1 ==> r != pos && ArenaLaws.MovedBlock(old(st), st, t, pos, oldlen, newlen, r)
      ensures Others(old(st).d, Live(pos), old(mem[..]), mem[..])
      ensures r != -1 ==> Kept(old(mem[..]), mem[..], pos, r, oldlen)
    {
      hide ArenaLaws.SourceOf, ArenaLaws.Served, ArenaLaws.Freed, ArenaLaws.ServedByNew, ArenaProtocol.ChunkLen;
      hide ArenaProtocol.Inv, AllStored, Gained, LiveSame, OnlyIn, Others, Kept, Replaced, ArenaProtocol.Next,
        Arena.Sfree;
      ghost var s0, m0 := st, mem[..];
      r := Alloc(t, newlen);
      ghost var s1, m1 := st, mem[..];
      if r == -1 {
        OthersOf(s0.d, Live(pos), m0, m1);
        return -1;
      }
      MoveFacts(s0, s1, pos, oldlen, r, newlen);
      Copy(r, pos, oldlen);
      ghost var m2 := mem[..];
      Release(t, pos, oldlen);
      MoveKept(s0, s1, pos, oldlen, r, newlen, m0, m1, m2, mem[..]);
      MoveReplaced(s0, s1, st, t, pos, r, newlen);
    }

    /** `alloc3`: the block grows or shrinks in place next to the hot area, gives its end back, or
        moves; what was in it up to the shorter length is kept.  -1 only if the arena cannot cover
        the new length, and then nothing has changed. */
    method Alloc3(t: Tid, pos: nat, oldlen: nat, newlen: nat) returns (r: int)
      requires Valid() && t < |st.caches| && t !in st.grants && 0 < newlen
      requires Live(pos) in st.d && st.d[Live(pos)] == Span(pos, pos + oldlen)
      modifies this, mem
      ensures Valid() && t !in st.grants
      ensures r == -1 ==> st == old(st)
      ensures ArenaLaws.Reallocated(old(st), st, t, pos, oldlen, newlen, r)
      ensures r != -1 ==> r >= 0 && Replaced(old(st).d, st.d, pos, r, newlen)
      ensures Others(old(st).d, Live(pos), old(mem[..]), mem[..])
      ensures r != -1 ==> Kept(old(mem[..]), mem[..], pos, r, if oldlen < newlen then oldlen else newlen)
    {
      ArenaProtocol.LiveSpan(st, pos);
      ArenaProtocol.InvBound(st, t);
      hide ArenaProtocol.Inv, AllStored, Named, InvBut, Sound, Others, Kept, Replaced, OnlyIn, ArenaProtocol.Next;
      hide ArenaLaws.Reallocated;
      Scalars(t);
      ghost var s0, m0 := st, mem[..];
      StillSame(s0.d, pos, m0, newlen);
      if pos + oldlen == caches[t].hotPos && pos + newlen <= caches[t].hotEnd {
        Resize(t, pos, newlen);
        ResizeReplaced(s0, t, pos, newlen);
        ArenaLaws.InPlace(s0, t, pos, oldlen, newlen);
        r := pos;
      } else if newlen < oldlen {
        GiveBack(t, pos, oldlen, newlen);
        ShrinkReplaced(s0, t, pos, oldlen, newlen, m0, mem[..]);
        ArenaLaws.CutShorter(s0, st, t, pos, oldlen, newlen);
        r := pos;
      } else if newlen == oldlen {
        ArenaLaws.SameLength(s0, t, pos, newlen);
        r := pos;
      } else {
        r := MoveBlock(t, pos, oldlen, newlen);
        ArenaLaws.MovedLonger(s0, st, t, pos, oldlen, newlen, r);
      }
    }
  }

  /** The block at `pos` has become one at `r`; no other live block has changed. */
  ghost predicate Replaced(d: Division, d': Division, pos: nat, r: nat, len: nat) {
    && Live(r) in d' && d'[Live(r)] == Span(r, r + len)
    && (forall p {:trigger Live(p)} :: p != r ==>
          (Live(p) in d' <==> Live(p) in d && p != pos) && (Live(p) in d' ==> d'[Live(p)] == d[Live(p)]))
  }

  /** No live block but one has been written to. */
  ghost predicate Others(d: Division, o: Owner, m: seq<nat>, m': seq<nat>) {
    |m'| == |m| && forall p {:trigger Live(p)} :: Live(p) in d && Live(p) != o ==> SameIn(d[Live(p)], m, m')
  }

  /** The first words of a block are found at its new place. */
  ghost predicate Kept(m: seq<nat>, m': seq<nat>, pos: nat, r: nat, len: nat) {
    pos + len <= |m| && r + len <= |m'| && forall w :: r <= w < r + len ==> m'[w] == m[w - r + pos]
  }

  lemma OthersOf(d: Division, o: Owner, m: seq<nat>, m': seq<nat>)
    requires LiveSame(d, m, m')
    ensures Others(d, o, m, m')
  {
  }

  lemma WriteOthers(s: State, o: Owner, m: seq<nat>, m': seq<nat>)
    requires Tiles(s.d, s.n) && o in s.d && OnlyIn(s.d[o], m, m')
    ensures Others(s.d, o, m, m')
  {
    forall p | Live(p) in s.d && Live(p) != o ensures SameIn(s.d[Live(p)], m, m') {
      forall w | s.d[Live(p)].lo <= w < s.d[Live(p)].hi && w < |m| ensures m'[w] == m[w] {
        Partition(s.d, s.n, w);
        assert Within(s.d[Live(p)], w);
      }
    }
  }

  lemma MoveFacts(s0: State, s1: State, pos: nat, oldlen: nat, r: nat, newlen: nat)
    requires Gained(s0.d, s1.d, r, newlen) && Live(pos) in s0.d && s0.d[Live(pos)] == Span(pos, pos + oldlen)
    ensures r != pos && Live(pos) in s1.d && s1.d[Live(pos)] == Span(pos, pos + oldlen)
    ensures Live(r) in s1.d && s1.d[Live(r)] == Span(r, r + newlen)
  {
  }

  lemma MoveKept(s0: State, s1: State, pos: nat, oldlen: nat, r: nat, newlen: nat,
                 m0: seq<nat>, m1: seq<nat>, m2: seq<nat>, m3: seq<nat>)
    requires ArenaProtocol.Inv(s1) && Gained(s0.d, s1.d, r, newlen) && 0 < oldlen < newlen
    requires Live(pos) in s0.d && s0.d[Live(pos)] == Span(pos, pos + oldlen)
    requires LiveSame(s0.d, m0, m1) && pos + oldlen <= |m1| && r + oldlen <= |m1|
    requires OnlyIn(Span(r, r + oldlen), m1, m2) && Kept(m1, m2, pos, r, oldlen)
    requires OnlyIn(Span(pos, pos + oldlen), m2, m3)
    ensures Others(s0.d, Live(pos), m0, m3) && Kept(m0, m3, pos, r, oldlen)
  {
    MoveFacts(s0, s1, pos, oldlen, r, newlen);
    ArenaProtocol.InvBound(s1, |s1.caches|);
    hide ArenaProtocol.Inv, Others, Kept, LiveSame, Gained;
    StartsDiffer(s1.d, s1.n, Live(pos), Live(r));
    assert OnlyIn(s1.d[Live(r)], m1, m2);
    WriteOthers(s1, Live(r), m1, m2);
    WriteOthers(s1, Live(pos), m2, m3);
    OthersTwice(s0.d, s1.d, pos, r, newlen, m0, m1, m2, m3);
    KeptTwice(pos, r, oldlen, s0.d, m0, m1, m2, m3);
  }

  lemma OthersTwice(d: Division, d1: Division, pos: nat, r: nat, len: nat, m0: seq<nat>, m1: seq<nat>, m2: seq<nat>,
                    m3: seq<nat>)
    requires LiveSame(d, m0, m1) && Gained(d, d1, r, len) && Others(d1, Live(r), m1, m2) &&
      Others(d1, Live(pos), m2, m3)
    ensures Others(d, Live(pos), m0, m3)
  {
    forall p | Live(p) in d && Live(p) != Live(pos) ensures SameIn(d[Live(p)], m0, m3) {
      assert SameIn(d[Live(p)], m0, m1) && SameIn(d1[Live(p)], m1, m2) && SameIn(d1[Live(p)], m2, m3);
    }
  }

  lemma KeptTwice(pos: nat, r: nat, len: nat, d: Division, m0: seq<nat>, m1: seq<nat>, m2: seq<nat>, m3: seq<nat>)
    requires LiveSame(d, m0, m1) && Live(pos) in d && d[Live(pos)] == Span(pos, pos + len)
    requires Kept(m1, m2, pos, r, len) && OnlyIn(Span(pos, pos + len), m2, m3) && (r + len <= pos || pos + len <= r)
    ensures Kept(m0, m3, pos, r, len)
  {
    assert SameIn(d[Live(pos)], m0, m1);
    forall w | r <= w < r + len ensures m3[w] == m0[w - r + pos] {
      assert m2[w] == m1[w - r + pos];
    }
  }

  lemma MoveReplaced(s0: State, s1: State, s2: State, t: Tid, pos: nat, r: nat, newlen: nat)
    requires ArenaProtocol.Inv(s1) && Gained(s0.d, s1.d, r, newlen) && Live(pos) in s0.d
    requires ArenaProtocol.Enabled(s1, ArenaProtocol.Release(t, pos)) &&
      s2 == ArenaProtocol.Next(s1, ArenaProtocol.Release(t, pos))
    ensures Replaced(s0.d, s2.d, pos, r, newlen) && s2.grants == s1.grants
  {
    hide ArenaProtocol.Inv, Named, Arena.Sfree;
    SfreeLives(s1, t, Live(pos));
  }

  lemma StillSame(d: Division, pos: nat, m: seq<nat>, len: nat)
    requires Live(pos) in d
    ensures Others(d, Live(pos), m, m)
    ensures pos + len <= |m| ==> Kept(m, m, pos, pos, len)
    ensures d[Live(pos)] == Span(pos, pos + len) ==> Replaced(d, d, pos, pos, len)
  {
  }

  lemma ResizeReplaced(s: State, t: Tid, pos: nat, len: nat)
    requires ArenaProtocol.Inv(s) && ArenaProtocol.Enabled(s, ArenaProtocol.Resize(t, pos, len))
    ensures var s' := ArenaProtocol.Next(s, ArenaProtocol.Resize(t, pos, len));
      Replaced(s.d, s'.d, pos, pos, len) && s'.grants == s.grants
  {
    ArenaProtocol.LiveSpan(s, pos);
    hide ArenaProtocol.Inv, Named;
  }

  lemma ShrinkStays(s: State, t: Tid, pos: nat, len: nat)
    requires ArenaProtocol.Inv(s) && ArenaProtocol.Enabled(s, ArenaProtocol.Shrink(t, pos, len))
    ensures var s' := ArenaProtocol.Next(s, ArenaProtocol.Shrink(t, pos, len));
      Replaced(s.d, s'.d, pos, pos, len) && s'.grants == s.grants
  {
    hide ArenaProtocol.Inv, Named, Arena.Sfree, Cut, Sound, InvBut, OnlyFor;
    ArenaProtocol.InvBound(s, t);
    ArenaProtocol.CutOff(s, t, pos, len);
    ArenaProtocol.ShrinkKept(s, ArenaProtocol.Shrink(t, pos, len));
    CutLives(s.d, t, pos, len);
    SfreeLives(s.(d := Cut(s.d, Live(pos), pos + len, Granted(t))), t, Granted(t));
  }

  lemma CutLives(d: Division, t: Tid, pos: nat, len: nat)
    requires Live(pos) in d
    ensures var d' := Cut(d, Live(pos), pos + len, Granted(t));
      forall q {:trigger Live(q)} :: q != pos ==>
        (Live(q) in d' <==> Live(q) in d) && (Live(q) in d ==> d'[Live(q)] == d[Live(q)])
  {
  }

  lemma ShrinkReplaced(s: State, t: Tid, pos: nat, oldlen: nat, newlen: nat, m: seq<nat>, m': seq<nat>)
    requires ArenaProtocol.Inv(s) && ArenaProtocol.Enabled(s, ArenaProtocol.Shrink(t, pos, newlen))
    requires s.d[Live(pos)] == Span(pos, pos + oldlen) && pos + oldlen <= |m|
    requires OnlyIn(Span(pos + newlen, pos + oldlen), m, m')
    ensures var s' := ArenaProtocol.Next(s, ArenaProtocol.Shrink(t, pos, newlen));
      Replaced(s.d, s'.d, pos, pos, newlen) && s'.grants == s.grants
    ensures Others(s.d, Live(pos), m, m') && Kept(m, m', pos, pos, newlen)
  {
    ArenaProtocol.InvBound(s, t);
    assert OnlyIn(s.d[Live(pos)], m, m');
    WriteOthers(s, Live(pos), m, m');
    ShrinkStays(s, t, pos, newlen);
    hide ArenaProtocol.Inv, Named, ArenaProtocol.Next, ArenaProtocol.Enabled, Others, OnlyIn;
  }

  lemma WriteBlock(s: State, pos: nat, ks: seq<Fields>, m: seq<nat>, w: nat, v: nat)
    requires ArenaProtocol.Inv(s) && AllStored(s.caches, ks, m) && |m| >= s.n && s.cfg.fmax > 0
    requires Live(pos) in s.d && pos <= w < s.d[Live(pos)].hi
    ensures w < |m| && AllStored(s.caches, ks, m[w := v])
  {
    ArenaProtocol.LiveSpan(s, pos);
    hide AllStored;
    WriteFrame(s, Live(pos), ks, m, m[w := v]);
  }

  /** A new live block, and no other change to live blocks. */
  ghost predicate Gained(d: Division, d': Division, pos: nat, len: nat) {
    && Live(pos) !in d && Live(pos) in d' && d'[Live(pos)] == Span(pos, pos + len)
    && (forall p {:trigger Live(p)} :: p != pos ==>
          (Live(p) in d' <==> Live(p) in d) && (Live(p) in d ==> d'[Live(p)] == d[Live(p)]))
  }

  lemma LocalGains(s: State, t: Tid, req: nat)
    requires ArenaProtocol.Inv(s) && t < |s.caches| && t !in s.grants && 0 < req && Ready(s, t) && Named(s, t)
    requires TakeLocal(s, t, req).Took?
    ensures Gained(s.d, TakeLocal(s, t, req).s.d, TakeLocal(s, t, req).pos, req)
    ensures var s' := TakeLocal(s, t, req).s;
      ArenaProtocol.Inv(s') && s'.grants == s.grants && |s'.caches| == |s.caches|
  {
    ArenaProtocol.AllocKept(s, ArenaProtocol.Alloc(t, req));
    ArenaProtocol.NoGrant(s, t);
    TakeKeeps(s, t, req);
    hide ArenaProtocol.Inv, TakeLocal, Sound, OnlyFor;
  }

  lemma AdvanceGains(s: State, s1: State, t: Tid, req: nat, pos: nat)
    requires ArenaProtocol.Inv(s) && ArenaProtocol.Enabled(s, ArenaProtocol.Advance(t, req))
    requires s1 == ArenaProtocol.Next(s, ArenaProtocol.Advance(t, req))
    requires ArenaProtocol.Inv(s1) && ArenaProtocol.Enabled(s1, ArenaProtocol.Finish(t))
    requires var s2 := ArenaProtocol.Next(s1, ArenaProtocol.Finish(t));
      Live(pos) !in s1.d && Live(pos) in s2.d && s2.d[Live(pos)] == Span(pos, pos + req)
    ensures var s2 := ArenaProtocol.Next(s1, ArenaProtocol.Finish(t));
      Gained(s.d, s2.d, pos, req) && t !in s2.grants && |s2.caches| == |s.caches|
    ensures forall p {:trigger Live(p)} :: Live(p) in s.d ==> Live(p) in s1.d && s1.d[Live(p)] == s.d[Live(p)]
  {
    hide TakeLocal, Named, ArenaProtocol.SetHotArea, ArenaProtocol.ChunkLen;
    ArenaProtocol.FinishGains(s1, t);
  }

  datatype Advance = Advanced | Retry | Full

  lemma LiveSameTwice(d: Division, d1: Division, m: seq<nat>, m1: seq<nat>, m2: seq<nat>)
    requires LiveSame(d, m, m1) && LiveSame(d1, m1, m2)
    requires forall q {:trigger Live(q)} :: Live(q) in d ==> Live(q) in d1 && d1[Live(q)] == d[Live(q)]
    ensures LiveSame(d, m, m2)
  {
    forall p | Live(p) in d ensures SameIn(d[Live(p)], m, m2) {
      forall w | d[Live(p)].lo <= w < d[Live(p)].hi && w < |m| ensures m2[w] == m[w] {
        assert SameIn(d[Live(p)], m, m1) && SameIn(d1[Live(p)], m1, m2);
      }
    }
  }

  /** The freed rest of a huge block is off all live blocks. */
  lemma RestWrites(s: State, t: Tid, pos: nat, req: nat, len: nat, m: seq<nat>, m': seq<nat>)
    requires Tiles(s.d, s.n) && Free(t, pos) in s.d && s.d[Free(t, pos)] == Span(pos, pos + len)
    requires OnlyIn(Span(pos + req, pos + len), m, m')
    ensures LiveSame(s.d, m, m')
  {
    assert OnlyIn(s.d[Free(t, pos)], m, m');
    WriteLive(s, Free(t, pos), m, m');
  }

  lemma NoWrite(d: Division, m: seq<nat>)
    ensures LiveSame(d, m, m)
  {
  }

  /** No live block has been written to. */
  ghost predicate LiveSame(d: Division, m: seq<nat>, m': seq<nat>) {
    |m'| == |m| && forall p {:trigger Live(p)} :: Live(p) in d ==> SameIn(d[Live(p)], m, m')
  }

  lemma WriteLive(s: State, o: Owner, m: seq<nat>, m': seq<nat>)
    requires Tiles(s.d, s.n) && o in s.d && !o.Live? && OnlyIn(s.d[o], m, m')
    ensures LiveSame(s.d, m, m')
  {
    forall p | Live(p) in s.d ensures SameIn(s.d[Live(p)], m, m') {
      forall w | s.d[Live(p)].lo <= w < s.d[Live(p)].hi && w < |m| ensures m'[w] == m[w] {
        Partition(s.d, s.n, w);
        assert Within(s.d[Live(p)], w);
      }
    }
  }

  /** The link of the second half. */
  lemma HalfAll(s: State, s1: State, t: Tid, req: nat, ks: seq<Fields>, m: seq<nat>)
    requires Sound(s) && Ready(s, t) && Sound(s1) && s1.cfg == s.cfg && s1.n == s.n && t < |s1.caches|
    requires AllStored(s1.caches, ks, m) && |m| == s.cfg.cap && s.cfg.fmax >= 9 && 0 < req && 2 * req <= s.cfg.fmax
    requires s.caches[t].fast[2 * req - 1] != [] && |s1.caches[t].fast| == s.cfg.fmax
    requires var p := s.caches[t].fast[2 * req - 1][0];
      && Free(t, p) in s.d && s.d[Free(t, p)] == Span(p, p + 2 * req)
      && Live(p) in s1.d && s1.d[Live(p)] == Span(p, p + 2 * req)
    ensures var q := s.caches[t].fast[2 * req - 1][0] + req;
      && q < |m| && LiveSame(s.d, m, m[q := TAIL]) && t < |ks| && |ks[t].heads| == s.cfg.fmax
      && AllStored(s1.caches[t := s1.caches[t].(fast := s1.caches[t].fast[req - 1 := [q]])],
                   ks[t := ks[t].(heads := ks[t].heads[req - 1 := q])], m[q := TAIL])
  {
    hide Named, Listed;
    var p := s.caches[t].fast[2 * req - 1][0];
    var q := p + req;
    SoundParts(s, |s.caches|);
    SoundParts(s1, |s1.caches|);
    SpanBounds(s.d, s.n, Free(t, p));
    var m' := m[q := TAIL];
    assert OnlyIn(s.d[Free(t, p)], m, m');
    WriteLive(s, Free(t, p), m, m');
    WriteFrame(s1, Live(p), ks, m, m');
    StoredAt(s1.caches, ks, m', t);
    var c, k := s1.caches[t].(fast := s1.caches[t].fast[req - 1 := [q]]), ks[t].(heads := ks[t].heads[req - 1 := q]);
    assert Stored(c, k, m');
    hide Sound, InvBut, Stored, AllStored, LiveSame, OnlyIn;
    SetStored(s1.caches, ks, m', t, c, k);
  }

  lemma NothingIn(s: Span, m: seq<nat>)
    ensures OnlyIn(s, m, m)
  {
  }

  lemma PushAll(s: State, t: Tid, o: Owner, ks: seq<Fields>, m: seq<nat>)
    requires InvBut(s, t) && Ready(s, t) && AllStored(s.caches, ks, m) && |m| == s.cfg.cap && s.cfg.fmax >= 9
    requires o in s.d && s.d[o].lo < s.d[o].hi && (o.Live? || o == Granted(t) || o == Hot(t))
    ensures t < |ks| && |ks[t].heads| == s.cfg.fmax && s.d[o].hi <= |m|
    ensures var pos, len := s.d[o].lo, s.d[o].hi - s.d[o].lo;
      var m' := PushedMem(ks[t], s.cfg.fmax, m, pos, len);
      && OnlyIn(s.d[o], m, m')
      && AllStored(s.caches[t := Pushed(s.caches[t], s.cfg.fmax, pos, len)],
        ks[t := PushedFields(ks[t], s.cfg.fmax, pos, len)], m')
  {
    hide InvBut, AllStored, OnlyIn, PushedMem, Pushed, PushedFields, Stored, Tiles, AllProper, Listed;
    SoundParts(s, t);
    SpanBounds(s.d, s.n, o);
    StoredAt(s.caches, ks, m, t);
    StoredHeads(s.caches[t], ks[t], m);
    var pos, len := s.d[o].lo, s.d[o].hi - s.d[o].lo;
    var m' := PushedMem(ks[t], s.cfg.fmax, m, pos, len);
    PushedOnlyIn(ks[t], s.cfg.fmax, m, pos, len);
    WriteFrame(s, o, ks, m, m');
    StoredAt(s.caches, ks, m', t);
    PushStored(s.caches[t], ks[t], s.cfg.fmax, m, pos, len);
    SetStored(s.caches, ks, m', t, Pushed(s.caches[t], s.cfg.fmax, pos, len),
      PushedFields(ks[t], s.cfg.fmax, pos, len));
  }

  lemma StoredHeads(c: Cache, k: Fields, m: seq<nat>)
    requires Stored(c, k, m)
    ensures |k.heads| == |c.fast|
  {
  }

  lemma PushedOnlyIn(k: Fields, fmax: nat, m: seq<nat>, pos: nat, len: nat)
    requires |k.heads| == fmax && 0 < len && pos + len <= |m| && fmax > 0
    ensures OnlyIn(Span(pos, pos + len), m, PushedMem(k, fmax, m, pos, len))
  {
  }

  lemma EmptyStored(cfg: Config, k: Fields, m: seq<nat>)
    requires k == Fields(0, 0, seq(cfg.fmax, _ => TAIL), TAIL, 0, 0, 0)
    ensures Stored(ArenaProtocol.NewCache(cfg), k, m)
  {
  }

  lemma StoredAt(cs: seq<Cache>, ks: seq<Fields>, m: seq<nat>, t: Tid)
    requires AllStored(cs, ks, m) && t < |cs|
    ensures t < |ks| && Stored(cs[t], ks[t], m)
  {
  }
}