/** Whole runs of ThreadCacheMemPool with its memory: operations of any threads, and writes of callers
    into their blocks, in any order.  Each turn is what one method of the pool promises. */
module PoolRuns {

  import opened Arena
  import opened ThreadCache
  import ArenaProtocol

  /** An action, and the state and memory after it. */
  datatype Turn = Turn(a: Action, s: State, m: seq<nat>)

  ghost predicate Goes(s: State, m: seq<nat>, ts: seq<Turn>)
    decreases |ts|
  {
    ts == [] || (Step(s, m, ts[0].a, ts[0].s, ts[0].m) && Goes(ts[0].s, ts[0].m, ts[1..]))
  }

  ghost function Last(s: State, ts: seq<Turn>): State {
    if ts == [] then s else ts[|ts| - 1].s
  }

  ghost function LastMem(m: seq<nat>, ts: seq<Turn>): seq<nat> {
    if ts == [] then m else ts[|ts| - 1].m
  }

  /** The action frees the block at p, gives it another length or writes into it. */
  ghost predicate Touches(a: Action, p: nat) {
    match a
    case Op(e) => ArenaProtocol.About(e, p)
    case Store(pos, _, _) => pos == p
  }

  lemma StepKeeps(s: State, m: seq<nat>, a: Action, s': State, m': seq<nat>, p: nat)
    requires ArenaProtocol.Inv(s) && Step(s, m, a, s', m') && Live(p) in s.d && !Touches(a, p)
    ensures ArenaProtocol.Inv(s') && Live(p) in s'.d && s'.d[Live(p)] == s.d[Live(p)]
    ensures |m'| == |m| && SameIn(s.d[Live(p)], m, m')
  {
    hide ArenaProtocol.Next, ArenaProtocol.Enabled;
    match a {
      case Op(e) =>
        hide ArenaProtocol.Inv;
        ArenaProtocol.InvKept(s, e);
        ArenaProtocol.LiveStays(s, e, p);
        hide SameIn;
      case Store(pos, i, v) =>
        ArenaProtocol.LiveSpan(s, p);
        ArenaProtocol.LiveSpan(s, pos);
        hide Sound;
        StoreElsewhere(s, p, pos, pos + i);
    }
  }

  lemma StoreElsewhere(s: State, p: nat, q: nat, w: nat)
    requires ArenaProtocol.Inv(s) && Live(p) in s.d && Live(q) in s.d && p != q && Within(s.d[Live(q)], w)
    ensures !Within(s.d[Live(p)], w)
  {
    Partition(s.d, s.n, w);
  }

  /** The words of a live block outlast whatever all threads do, until someone frees or resizes the
      block, or its owner writes into it. */
  lemma {:induction false} WordsStay(s: State, m: seq<nat>, ts: seq<Turn>, p: nat)
    requires ArenaProtocol.Inv(s) && Goes(s, m, ts) && Live(p) in s.d
    requires forall turn :: turn in ts ==> !Touches(turn.a, p)
    ensures ArenaProtocol.Inv(Last(s, ts)) && Live(p) in Last(s, ts).d && Last(s, ts).d[Live(p)] == s.d[Live(p)]
    ensures |LastMem(m, ts)| == |m| && SameIn(s.d[Live(p)], m, LastMem(m, ts))
    decreases |ts|
  {
    hide ArenaProtocol.Inv, Step, Touches, SameIn;
    if ts == [] {
      SameSelf(s.d[Live(p)], m);
    } else {
      var turn, rest := ts[0], ts[1..];
      assert turn in ts && forall u :: u in rest ==> u in ts;
      LastRest(s, m, ts);
      hide Last, LastMem;
      StepKeeps(s, m, turn.a, turn.s, turn.m, p);
      WordsStay(turn.s, turn.m, rest, p);
      SameTwice(s.d[Live(p)], m, turn.m, LastMem(turn.m, rest));
    }
  }

  lemma LastRest(s: State, m: seq<nat>, ts: seq<Turn>)
    requires ts != []
    ensures Last(s, ts) == Last(ts[0].s, ts[1..]) && LastMem(m, ts) == LastMem(ts[0].m, ts[1..])
  {
  }

  lemma SameSelf(span: Span, m: seq<nat>)
    ensures SameIn(span, m, m)
  {
  }

  lemma SameTwice(span: Span, m: seq<nat>, m1: seq<nat>, m2: seq<nat>)
    requires |m| == |m1| == |m2| && SameIn(span, m, m1) && SameIn(span, m1, m2)
    ensures SameIn(span, m, m2)
  {
  }

  /** The turns of a thread that copies the first `len` words of the block at `pos` to the one at `r`,
      from word i on, each read when it is written, amid turns of others that touch neither block. */
  ghost predicate Copying(m: seq<nat>, cs: seq<Turn>, pos: nat, r: nat, i: nat, len: nat)
    decreases |cs|
  {
    if cs == [] then i == len
    else if i < len && pos + i < |m| && cs[0].a == Store(r, i, m[pos + i]) then
      Copying(cs[0].m, cs[1..], pos, r, i + 1, len)
    else
      !Touches(cs[0].a, pos) && !Touches(cs[0].a, r) && Copying(cs[0].m, cs[1..], pos, r, i, len)
  }

  /** Both blocks are there, and long enough for the copy. */
  ghost predicate Holds(s: State, m: seq<nat>, pos: nat, r: nat, len: nat) {
    && ArenaProtocol.Inv(s) && pos != r && Live(pos) in s.d && Live(r) in s.d
    && s.d[Live(pos)].lo == pos && s.d[Live(r)].lo == r
    && pos + len <= s.d[Live(pos)].hi && r + len <= s.d[Live(r)].hi
    && pos + len <= |m| && r + len <= |m|
  }

  /** Word w of the copy once the words from i on have been copied. */
  ghost function Copied(m: seq<nat>, pos: nat, r: nat, i: nat, w: nat): nat
    requires pos + w < |m| && r + w < |m|
  {
    if w < i then m[r + w] else m[pos + w]
  }

  /** The copy holds the old words, whatever the others do between its words. */
  lemma {:induction false} CopyAmidOthers(s: State, m: seq<nat>, cs: seq<Turn>, pos: nat, r: nat, i: nat, len: nat)
    requires Holds(s, m, pos, r, len) && Goes(s, m, cs) && Copying(m, cs, pos, r, i, len) && i <= len
    ensures Holds(Last(s, cs), LastMem(m, cs), pos, r, len) && |LastMem(m, cs)| == |m|
    ensures Last(s, cs).d[Live(pos)] == s.d[Live(pos)] && Last(s, cs).d[Live(r)] == s.d[Live(r)]
    ensures forall w :: 0 <= w < len ==> LastMem(m, cs)[r + w] == Copied(m, pos, r, i, w)
    decreases |cs|
  {
    if cs != [] {
      var turn, rest := cs[0], cs[1..];
      var i1 := if i < len && turn.a == Store(r, i, m[pos + i]) then i + 1 else i;
      CopyStep(s, m, turn, pos, r, i, len);
      LastRest(s, m, cs);
      hide Holds, Step, Touches, Last, LastMem;
      CopyAmidOthers(turn.s, turn.m, rest, pos, r, i1, len);
      assert forall w :: 0 <= w < len ==> Copied(turn.m, pos, r, i1, w) == Copied(m, pos, r, i, w);
    }
  }

  lemma CopyStep(s: State, m: seq<nat>, turn: Turn, pos: nat, r: nat, i: nat, len: nat)
    requires Holds(s, m, pos, r, len) && Step(s, m, turn.a, turn.s, turn.m) && i <= len
    requires (i < len && turn.a == Store(r, i, m[pos + i])) || (!Touches(turn.a, pos) && !Touches(turn.a, r))
    ensures Holds(turn.s, turn.m, pos, r, len) && |turn.m| == |m|
    ensures turn.s.d[Live(pos)] == s.d[Live(pos)] && turn.s.d[Live(r)] == s.d[Live(r)]
    ensures var i1 := if i < len && turn.a == Store(r, i, m[pos + i]) then i + 1 else i;
      forall w :: 0 <= w < len ==> Copied(turn.m, pos, r, i1, w) == Copied(m, pos, r, i, w)
  {
    hide ArenaProtocol.Inv;
    StepKeeps(s, m, turn.a, turn.s, turn.m, pos);
    if i < len && turn.a == Store(r, i, m[pos + i]) {
      hide SameIn;
    } else {
      StepKeeps(s, m, turn.a, turn.s, turn.m, r);
      hide Step, Touches;
    }
  }

  /** `alloc3` that moves a block, among any actions of other threads: while the new block is being
      allocated and between the words of the copy the old block keeps its words, and from then on the
      new block has them, also when the old one has been freed. */
  lemma MoveAmidOthers(s: State, m: seq<nat>, ts: seq<Turn>, cs: seq<Turn>, us: seq<Turn>, pos: nat, oldlen: nat,
                       r: nat)
    requires ArenaProtocol.Inv(s) && Live(pos) in s.d && s.d[Live(pos)] == Span(pos, pos + oldlen) &&
      pos + oldlen <= |m|
    requires Goes(s, m, ts) && forall turn :: turn in ts ==> !Touches(turn.a, pos)
    requires var s1 := Last(s, ts); r != pos && Live(r) in s1.d && r + oldlen <= s1.d[Live(r)].hi <= |m|
    requires Goes(Last(s, ts), LastMem(m, ts), cs) && Copying(LastMem(m, ts), cs, pos, r, 0, oldlen)
    requires Goes(Last(Last(s, ts), cs), LastMem(LastMem(m, ts), cs), us)
    requires forall turn :: turn in us ==> !Touches(turn.a, r)
    ensures var s3 := Last(Last(Last(s, ts), cs), us);
      && ArenaProtocol.Inv(s3) && Live(r) in s3.d && s3.d[Live(r)] == Last(s, ts).d[Live(r)]
      && Kept(m, LastMem(LastMem(LastMem(m, ts), cs), us), pos, r, oldlen)
  {
    hide ArenaProtocol.Inv, Goes, Copying, Last, LastMem, Touches;
    WordsStay(s, m, ts, pos);
    var s1, m1 := Last(s, ts), LastMem(m, ts);
    ArenaProtocol.LiveSpan(s1, r);
    CopyAmidOthers(s1, m1, cs, pos, r, 0, oldlen);
    var s2, m2 := Last(s1, cs), LastMem(m1, cs);
    WordsStay(s2, m2, us, r);
    forall w | r <= w < r + oldlen ensures LastMem(m2, us)[w] == m[w - r + pos] {
      assert m2[r + (w - r)] == Copied(m1, pos, r, 0, w - r);
    }
  }
}
