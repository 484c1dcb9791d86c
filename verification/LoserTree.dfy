/** LoserTree (src/terark/set_op.hpp) for any number of ways, the merge on top of it
    (multi_way_basic.hpp) and the set algebra (multi_way_algo_loser_tree.hpp).  Keys are integers;
    every way is sorted and followed by the sentinel `max`, which is larger than all data. */
module LoserTree {

  import opened Words

  ghost predicate Sorted(s: seq<int>) {
    forall i, j :: 0 <= i < j < |s| ==> s[i] <= s[j]
  }

  /** Tree position `q` is `p` or below it; the children of `p` are 2p and 2p + 1. */
  ghost predicate Under(q: nat, p: nat): (under: bool)
    ensures under ==> p <= q
  {
    q == p || (p < q && Under(q / 2, p))
  }

  lemma {:induction false} UnderRoot(q: nat)
    requires q >= 1
    ensures Under(q, 1)
  {
    if q > 1 { UnderRoot(q / 2); }
  }

  lemma {:induction false} UnderChild(q: nat, p: nat)
    requires Under(q, p) && q != p && 1 <= p
    ensures Under(q, 2 * p) || Under(q, 2 * p + 1)
  {
    if q / 2 != p { UnderChild(q / 2, p); }
  }

  lemma {:induction false} UnderParent(q: nat, p: nat)
    requires Under(q, p) && p >= 2
    ensures Under(q, p / 2)
  {
    if q != p { UnderParent(q / 2, p); }
  }

  /** The subtrees of the two children of a node have nothing in common. */
  lemma {:induction false} UnderOne(q: nat, p: nat)
    requires 1 <= p
    ensures !(Under(q, 2 * p) && Under(q, 2 * p + 1))
  {
    if q > 2 * p + 1 { UnderOne(q / 2, p); }
  }

  /** Two nodes above the same position are one above the other. */
  lemma {:induction false} UnderChain(q: nat, a: nat, b: nat)
    requires Under(q, a) && Under(q, b) && a < b
    ensures a <= b / 2
  {
    if q != b { UnderChain(q / 2, a, b); }
  }

  /** The comparison of the ways x and y by their current keys; with stability, equal keys other
      than the sentinel go by way number. */
  predicate Beats(x: nat, y: nat, kx: int, ky: int, max: int, stable: bool) {
    if kx < ky then true
    else if ky < kx || !stable || kx >= max then false
    else x < y
  }

  /** Not being beaten is transitive. */
  lemma BeatsOrder(x: nat, y: nat, z: nat, kx: int, ky: int, kz: int, max: int, stable: bool)
    requires !Beats(y, x, ky, kx, max, stable) && !Beats(z, y, kz, ky, max, stable)
    requires kx <= max && ky <= max && kz <= max
    ensures !Beats(z, x, kz, kx, max, stable)
  {
  }

  function KeyAt(ways: seq<seq<int>>, pos: seq<nat>, max: int, w: nat): int
    requires w < |ways| == |pos|
  {
    if pos[w] < |ways[w]| then ways[w][pos[w]] else max
  }

  ghost function KeysOf(ways: seq<seq<int>>, pos: seq<nat>, max: int): (ks: seq<int>)
    requires |pos| == |ways|
    ensures |ks| == |ways| && forall w :: 0 <= w < |ways| ==> ks[w] == KeyAt(ways, pos, max, w)
  {
    seq(|ways|, w requires 0 <= w < |ways| => KeyAt(ways, pos, max, w))
  }

  /** One element of the data: its key, its way, and its place there. */
  datatype Item = Item(key: int, way: nat, idx: nat)

  /** The order in which elements come out: by key, equal keys of one way in their order, and with
      stability equal keys of different ways in the order of the ways. */
  ghost predicate InOrder(a: Item, b: Item, stable: bool) {
    && a.key <= b.key
    && (a.way == b.way ==> a.idx < b.idx)
    && (stable && a.key == b.key ==> a.way <= b.way)
  }

  ghost predicate Ordered(out: seq<Item>, stable: bool) {
    forall i, j :: 0 <= i < j < |out| ==> InOrder(out[i], out[j], stable)
  }

  /** Exactly the elements from `from` up to `to`. */
  ghost predicate Emitted(out: seq<Item>, ways: seq<seq<int>>, from: seq<nat>, to: seq<nat>)
    requires |from| == |to| == |ways|
  {
    forall e :: e in out <==>
      e.way < |ways| && from[e.way] <= e.idx < to[e.way] && e.idx < |ways[e.way]| && e.key == ways[e.way][e.idx]
  }

  /** What has come out precedes all that is left. */
  ghost predicate Leads(out: seq<Item>, keys: seq<int>, max: int, stable: bool) {
    forall e, w :: e in out && 0 <= w < |keys| ==> e.key <= keys[w] && (stable && e.key == keys[w] < max ==> e.way <= w)
  }

  lemma NoneEmitted(ways: seq<seq<int>>, pos: seq<nat>, max: int, stable: bool)
    requires |pos| == |ways|
    ensures Emitted([], ways, pos, pos) && Ordered([], stable) && Leads([], KeysOf(ways, pos, max), max, stable)
  {
  }

  lemma Emit(out: seq<Item>, ways: seq<seq<int>>, from: seq<nat>, pos: seq<nat>, h: nat, max: int, stable: bool)
    requires |from| == |pos| == |ways| && h < |ways| && from[h] <= pos[h] < |ways[h]| && ways[h][pos[h]] < max
    requires Sorted(ways[h]) && Emitted(out, ways, from, pos) && Ordered(out, stable)
    requires Leads(out, KeysOf(ways, pos, max), max, stable)
    requires forall w :: 0 <= w < |ways| ==> KeyAt(ways, pos, max, h) <= KeyAt(ways, pos, max, w)
    requires forall w :: 0 <= w < |ways| && stable && KeyAt(ways, pos, max, w) == KeyAt(ways, pos, max, h) < max ==>
      h <= w
    ensures var out', pos' := out + [Item(ways[h][pos[h]], h, pos[h])], pos[h := pos[h] + 1];
      && Emitted(out', ways, from, pos') && Ordered(out', stable) && Leads(out', KeysOf(ways, pos', max), max, stable)
  {
    var e := Item(ways[h][pos[h]], h, pos[h]);
    var out', pos' := out + [e], pos[h := pos[h] + 1];
    assert KeysOf(ways, pos, max)[h] == e.key;
    forall i | 0 <= i < |out| ensures InOrder(out[i], e, stable) {
      assert out[i] in out;
    }
    forall a, w | a in out' && 0 <= w < |ways|
      ensures a.key <= KeysOf(ways, pos', max)[w]
      ensures stable && a.key == KeysOf(ways, pos', max)[w] < max ==> a.way <= w
    {
      assert KeysOf(ways, pos, max)[w] <= KeysOf(ways, pos', max)[w];
      if a != e { assert a in out; }
    }
    assert forall a :: a in out' <==> a in out || a == e;
  }

  class LoserTree {
    const ways: seq<seq<int>>
    const max: int
    const stable: bool
    var pos: seq<nat>
    var tree: seq<nat>
    var head: nat

    ghost var win: seq<nat>

    /** What a caller gives: at least one way, each sorted, all data below the sentinel. */
    ghost predicate Input() {
      && |ways| > 0
      && (forall w :: 0 <= w < |ways| ==> Sorted(ways[w]))
      && (forall w, i :: 0 <= w < |ways| && 0 <= i < |ways[w]| ==> ways[w][i] < max)
    }

    ghost predicate Positions()
      reads this`pos
    {
      |pos| == |ways| && forall w :: 0 <= w < |ways| ==> pos[w] <= |ways[w]|
    }

    /** The current key of a way; past its data that is the sentinel. */
    function Key(w: nat): (k: int)
      requires Input() && Positions() && w < |ways|
      reads this`pos
      ensures k <= max
    {
      KeyAt(ways, pos, max, w)
    }

    predicate Comp(x: nat, y: nat)
      requires Input() && Positions() && x < |ways| && y < |ways|
      reads this`pos
    {
      Beats(x, y, Key(x), Key(y), max, stable)
    }

    ghost predicate Shape()
      reads this`tree, this`win
    {
      |tree| == |ways| && ShapeOf(|ways|, win)
    }

    /** At node p the winner and the loser are the winners of the two subtrees. */
    ghost predicate Played(p: nat)
      requires Shape() && 1 <= p < |ways|
      reads this`tree, this`win
    {
      PlayedBy(win, tree, p)
    }

    ghost function Keys(): seq<int>
      requires Input() && Positions()
      reads this`pos
    {
      KeysOf(ways, pos, max)
    }

    ghost predicate Match(p: nat)
      requires Input() && Positions() && Shape() && 1 <= p < |ways|
      reads this`tree, this`win, this`pos
    {
      MatchAt(|ways|, Keys(), max, stable, tree, win, p)
    }

    ghost predicate Valid()
      reads this
    {
      && Input() && Positions() && Shape()
      && (forall p :: 1 <= p < |ways| ==> Match(p))
      && head == win[1]
    }

    predicate Empty()
      requires Input() && Positions() && head < |ways|
      reads this`pos, this`head
    {
      Key(head) >= max
    }

    constructor (ways: seq<seq<int>>, max: int, stable: bool)
      ensures this.ways == ways && this.max == max && this.stable == stable
      ensures pos == seq(|ways|, _ => 0)
    {
      this.ways, this.max, this.stable := ways, max, stable;
      pos := seq(|ways|, _ => 0);
    }

    /** No way beats the winner of a subtree it belongs to. */
    lemma {:induction false} SubtreeWinner(p: nat, w: nat)
      requires Valid() && 1 <= p < 2 * |ways| && w < |ways| && Under(|ways| + w, p)
      ensures !Comp(w, win[p])
      decreases 2 * |ways| - p
    {
      if p < |ways| {
        assert Match(p);
        UnderChild(|ways| + w, p);
        var c := if Under(|ways| + w, 2 * p) then 2 * p else 2 * p + 1;
        SubtreeWinner(c, w);
        if win[c] != win[p] {
          assert tree[p] == win[c];
          BeatsOrder(win[p], win[c], w, Key(win[p]), Key(win[c]), Key(w), max, stable);
        }
      }
    }

    /** The head is the overall winner. */
    lemma Winner(w: nat)
      requires Valid() && w < |ways|
      ensures head < |ways| && !Comp(w, head)
      ensures Key(head) <= Key(w)
      ensures stable && Key(w) == Key(head) < max ==> head <= w
    {
      UnderRoot(|ways| + w);
      SubtreeWinner(1, w);
    }

    /** A way that won at the root won at every node above it. */
    lemma {:induction false} TopPath(q: nat, top: nat)
      requires Shape() && top < |ways| && win[1] == top
      requires forall p :: 1 <= p < |ways| ==> Played(p)
      requires 1 <= q < 2 * |ways| && Under(|ways| + top, q)
      ensures win[q] == top
    {
      if q > 1 {
        UnderParent(|ways| + top, q);
        TopPath(q / 2, top);
        UnderOne(|ways| + top, q / 2);
        assert Played(q / 2);
      }
    }

    /** One match on the way up: the loser stays, the winner goes on. */
    method Rematch(parent: nat, s0: nat, ghost win0: seq<nat>, ghost top: nat, ghost c: nat) returns (s: nat)
      requires Input() && Positions() && |tree| == |ways| && 0 < parent == c / 2 && c < |win| && win[c] == s0 < |ways|
      requires Climb(|ways|, Keys(), max, stable, tree, win, win0, top, c)
      modifies this`tree, this`win
      ensures |tree| == |ways| && parent < |win| && win[parent] == s < |ways|
      ensures Climb(|ways|, Keys(), max, stable, tree, win, win0, top, parent)
    {
      hide Climb;
      ClimbStep(|ways|, Keys(), max, stable, tree, win, win0, top, c);
      SelfUpdate(tree, parent);
      s := s0;
      if Comp(tree[parent], s) {
        s, tree := tree[parent], tree[parent := s];
      }
      win := win[parent := s];
    }

    /** Replays the matches from a changed way up to the root (`ajust`). */
    method Ajust(top: nat)
      requires Input() && Positions() && Shape() && top < |ways| && win[1] == top
      requires forall p :: 1 <= p < |ways| ==> Played(p)
      requires forall p :: 1 <= p < |ways| && !Under(|ways| + top, p) ==> Match(p)
      modifies this`tree, this`head, this`win
      ensures Valid()
    {
      ShapeLeaf(|ways|, win, top);
      forall q | 1 <= q < 2 * |ways| && Under(|ways| + top, q) ensures win[q] == top { TopPath(q, top); }
      forall p | 1 <= p < |ways|
        ensures PlayedBy(win, tree, p) { assert Played(p); }
        forall p | 1 <= p < |ways| && !Under(|ways| + top, p) ensures MatchAt(|ways|, Keys(), max, stable, tree, win, p)
      {
        assert Match(p);
      }
      ClimbStart(|ways|, Keys(), max, stable, tree, win, top);
      hide ShapeOf, Climb, PlayedBy, MatchAt;
      var s := top;
      var parent := (s + |ways|) / 2;
      ghost var c, win0 := s + |ways|, win;
      while parent > 0
        invariant 1 <= c && parent == c / 2
        invariant Climb(|ways|, Keys(), max, stable, tree, win, win0, top, c)
        invariant |tree| == |ways| && c < |win| && win[c] == s < |ways|
      {
        s := Rematch(parent, s, win0, top, c);
        c := parent;
        parent := parent / 2;
      }
      ClimbEnd(|ways|, Keys(), max, stable, tree, win, win0, top);
      head := s;
    }

    /** Moves the head on by one; the sentinel is never passed. */
    method Increment()
      requires Valid() && !Empty()
      modifies this`pos, this`tree, this`head, this`win
      ensures Valid() && |pos| == |old(pos)|
      ensures old(head) < |old(pos)| && pos == old(pos)[old(head) := old(pos)[old(head)] + 1]
    {
      var top := head;
      ShapeAt(|ways|, win, 1);
      ghost var keys0 := Keys();
      forall p | 1 <= p < |ways| ensures MatchAt(|ways|, keys0, max, stable, tree, win, p) { assert Match(p); }
      hide ShapeOf, PlayedBy, Beats;
      pos := pos[top := pos[top] + 1];
      forall p | 1 <= p < |ways| ensures Played(p) {
        assert MatchAt(|ways|, keys0, max, stable, tree, win, p);
      }
      forall p | 1 <= p < |ways| && !Under(|ways| + top, p) ensures Match(p) {
        KeyFrame(|ways|, keys0, Keys(), max, stable, tree, win, p, top);
      }
      Ajust(top);
    }

    /** The winner and the loser of one match. */
    method GetLoserWinner(left: nat, right: nat) returns (loser: nat, winner: nat)
      requires Input() && Positions() && left < |ways| && right < |ways|
      ensures (loser == left && winner == right) || (loser == right && winner == left)
      ensures !Comp(loser, winner)
    {
      if Comp(left, right) { loser, winner := right, left; } else { loser, winner := left, right; }
    }

    /** Plays the match at node j between the winners of its two subtrees. */
    method PlayNode(j: nat, left: nat, right: nat, winner: seq<nat>) returns (winner': seq<nat>)
      requires Input() && Positions() && 1 <= j < |ways| == |winner|
      requires PlayedDown(|ways|, Keys(), max, stable, tree, win, j)
      requires {left, right} == {win[2 * j], win[2 * j + 1]} && left < |ways| && right < |ways| && left != right
      requires forall p :: j < p < |ways| ==> winner[p] == win[p]
      modifies this`tree, this`win
      ensures PlayedDown(|ways|, Keys(), max, stable, tree, win, j - 1)
      ensures |winner'| == |ways| && forall p :: j <= p < |ways| ==> winner'[p] == win[p]
      ensures winner'[0] == winner[0]
    {
      hide MatchAt, PlayedBy;
      var l, w := GetLoserWinner(left, right);
      assert l in {win[2 * j], win[2 * j + 1]} && w in {win[2 * j], win[2 * j + 1]};
      DownStep(|ways|, Keys(), max, stable, tree, win, j, l, w);
      tree, winner', win := tree[j := l], winner[j := w], win[j := w];
    }

    /** The nodes above two ways. */
    method PlayOuter() returns (winner: seq<nat>)
      requires Input() && Positions() && |ways| > 1
      modifies this`tree, this`win
      ensures PlayedDown(|ways|, Keys(), max, stable, tree, win, |ways| / 2)
      ensures |winner| == |ways| && (forall p :: |ways| / 2 < p < |ways| ==> winner[p] == win[p]) && winner[0] == 0
    {
      hide MatchAt;
      var len := |ways|;
      tree := seq(len, _ => 0);
      win := seq(2 * len, q => if q < len then 0 else q - len);
      winner := seq(len, _ => 0);
      var i := len - 1;
      while i > len / 2
        invariant len / 2 <= i < len
        invariant PlayedDown(len, Keys(), max, stable, tree, win, i)
        invariant |winner| == len && (forall p :: i < p < len ==> winner[p] == win[p]) && winner[0] == 0
      {
        winner := PlayNode(i, 2 * i - len, 2 * i - len + 1, winner);
        i := i - 1;
      }
    }

    ghost predicate RoundDown(winner: seq<nat>, i: nat)
      requires Input() && Positions()
      reads this`pos, this`tree, this`win
    {
      && PlayedDown(|ways|, Keys(), max, stable, tree, win, Before(i))
      && |winner| == |ways| && |win| == 2 * |ways| && winner[0] < |ways|
      && (forall p :: 1 <= p < |ways| && i <= p ==> winner[p] == win[p])
    }

    /** The node j, or, for j = 0, what is no node of the tree and is not used. */
    method PlayInner(j: nat, winner: seq<nat>) returns (winner': seq<nat>)
      requires Input() && Positions() && |ways| > 1 && 2 * j + 1 < |ways| && RoundDown(winner, j + 1)
      modifies this`tree, this`win
      ensures RoundDown(winner', j)
    {
      hide MatchAt;
      DownBounds(|ways|, Keys(), max, stable, tree, win, j);
      if j > 0 {
        winner' := PlayNode(j, winner[2 * j], winner[2 * j + 1], winner);
      } else {
        var l, w := GetLoserWinner(winner[0], winner[1]);
        DownZero(|ways|, Keys(), max, stable, tree, win, l);
        tree, winner' := tree[0 := l], winner[0 := w];
      }
    }

    /** Plays the first round bottom up: the nodes above two ways, the node in between when their
        number is odd, and the nodes above other nodes. */
    method Start()
      requires Input() && Positions()
      modifies this`tree, this`head, this`win
      ensures Valid()
    {
      hide MatchAt, PlayedDown, LoserTree.RoundDown, LoserTree.Match;
      var len := |ways|;
      if len == 1 {
        tree, win, head := [0], [0, 0], 0;
        return;
      }
      var minInnerToEx := len / 2;
      var winner: seq<nat> := PlayOuter();
      DownBounds(len, Keys(), max, stable, tree, win, minInnerToEx);
      var left, right := 0, 1;
      if len % 2 == 1 { left, right := winner[len - 1], 0; }
      winner := PlayNode(minInnerToEx, left, right, winner);
      RoundBegin(winner, minInnerToEx);
      var i := minInnerToEx;
      while i > 0
        invariant 0 <= i <= minInnerToEx && RoundDown(winner, i)
      {
        var j := i;
        while j > i / 2
          invariant i / 2 <= j <= i && RoundDown(winner, j)
        {
          j := j - 1;
          winner := PlayInner(j, winner);
        }
        i := i / 2;
      }
      RoundOver(winner);
      head := winner[1];
    }

    /** What the loops over the tree use of its validity. */
    lemma HeadFacts()
      requires Valid()
      ensures Input() && Positions() && head < |ways| && Sorted(ways[head])
      ensures forall w :: 0 <= w < |ways| ==> KeyAt(ways, pos, max, head) <= KeyAt(ways, pos, max, w)
      ensures stable ==>
        forall w :: 0 <= w < |ways| && KeyAt(ways, pos, max, w) == KeyAt(ways, pos, max, head) < max ==> head <= w
      ensures if Key(head) < max then pos[head] < |ways[head]| && Key(head) == ways[head][pos[head]]
              else forall w :: 0 <= w < |ways| ==> pos[w] == |ways[w]|
    {
      Winner(0);
      forall w | 0 <= w < |ways|
        ensures KeyAt(ways, pos, max, head) <= KeyAt(ways, pos, max, w)
        ensures stable && KeyAt(ways, pos, max, w) == KeyAt(ways, pos, max, head) < max ==> head <= w
      {
        Winner(w);
      }
      forall w | 0 <= w < |ways| && Key(head) >= max ensures pos[w] == |ways[w]| {
        assert KeyAt(ways, pos, max, w) >= max;
        assert forall i :: 0 <= i < |ways[w]| ==> ways[w][i] < max;
      }
    }

    /** The full drain of the tree (`merge`): every element that was left comes out exactly once,
        in order. */
    method Merge() returns (out: seq<Item>)
      requires Valid()
      modifies this`pos, this`tree, this`head, this`win
      ensures Valid() && forall w :: 0 <= w < |ways| ==> pos[w] == |ways[w]|
      ensures Emitted(out, ways, old(pos), pos) && Ordered(out, stable)
    {
      hide LoserTree.Valid, LoserTree.Input, Emitted, Ordered, Leads;
      out := [];
      ghost var from := pos;
      HeadFacts();
      NoneEmitted(ways, pos, max, stable);
      while !Empty()
        invariant Valid() && Input() && Positions() && head < |ways| && |from| == |ways|
        invariant forall w :: 0 <= w < |ways| ==> from[w] <= pos[w]
        invariant Emitted(out, ways, from, pos) && Ordered(out, stable) &&
          Leads(out, KeysOf(ways, pos, max), max, stable)
        decreases Left(ways, pos)
      {
        HeadFacts();
        Emit(out, ways, from, pos, head, max, stable);
        LeftLess(ways, pos, head);
        LeftNat(ways, pos);
        out := out + [Item(ways[head][pos[head]], head, pos[head])];
        Increment();
        HeadFacts();
      }
      HeadFacts();
    }

    /** The inner loop of the set operations: passes all elements equal to the current key, counts
        them, and notes the ways they come from. */
    method Pass() returns (n: nat, word: Word, ghost mask: set<nat>)
      requires Valid() && !Empty() && AllBelow(ways, pos, Key(head))
      modifies this`pos, this`tree, this`head, this`win
      ensures Valid() && Input() && Positions() && head < |ways|
      ensures old(Key(head)) < Key(head) && AllBelow(ways, pos, Key(head))
      ensures n == Total(ways, old(Key(head))) && mask == set w | 0 <= w < |ways| && old(Key(head)) in ways[w]
      ensures Marks(word, mask)
      ensures PassedKeys(ways, old(pos), pos, old(Key(head)), max)
      ensures Left(ways, pos) < Left(ways, old(pos))
    {
      hide LoserTree.Valid, LoserTree.Input, Passing, AllBelow, Marks;
      HeadFacts();
      var x := Key(head);
      ghost var from := pos;
      n, word, mask := 0, Zeros(32), {};
      NoMarks();
      PassStart(ways, pos, x, max);
      var more := true;
      while more
        invariant Valid() && Input() && Positions() && head < |ways| && |from| == |ways|
        invariant Passing(ways, from, pos, x, max, n, mask) && x <= Key(head) && Marks(word, mask)
        invariant more ==> Key(head) == x
        invariant !more ==> x < Key(head)
        invariant Left(ways, pos) <= Left(ways, from) && (n > 0 ==> Left(ways, pos) < Left(ways, from)) &&
          (!more ==> n > 0)
        decreases more, Left(ways, pos)
      {
        HeadFacts();
        PassStep(ways, from, pos, x, max, n, mask, head);
        LeftLess(ways, pos, head);
        LeftNat(ways, pos);
        MarkWay(word, mask, head);
        word, mask := Or(word, Shl(One(32), head)), mask + {head};
        Increment();
        n := n + 1;
        HeadFacts();
        PassNext(ways, from, pos, x, max, n, mask, head);
        more := !(x < Key(head));
      }
      HeadFacts();
      PassEnd(ways, from, pos, x, max, n, mask, head);
    }

    lemma Fresh()
      requires Valid() && pos == seq(|ways|, _ => 0)
      ensures head < |ways| && AllBelow(ways, pos, Key(head)) && forall k :: InAny(ways, k) ==> Key(head) <= k < max
    {
      HeadFacts();
      forall k | InAny(ways, k) ensures Key(head) <= k < max {
        var w :| 0 <= w < |ways| && k in ways[w];
        var i :| 0 <= i < |ways[w]| && ways[w][i] == k;
        assert KeyAt(ways, pos, max, head) <= KeyAt(ways, pos, max, w);
      }
    }

    /** One round of the set operations, with what it says about keys. */
    method Round() returns (x: int, n: nat, word: Word)
      requires Valid() && !Empty() && AllBelow(ways, pos, Key(head))
      modifies this`pos, this`tree, this`head, this`win
      ensures Valid() && head < |ways| && AllBelow(ways, pos, Key(head))
      ensures x == old(Key(head)) < Key(head) && InAny(ways, x)
      ensures n == Total(ways, x) && (|ways| <= 32 ==> (word == Shr(Ones(32), 32 - |ways|) <==> InAll(ways, x)))
      ensures forall k :: InAny(ways, k) && k < Key(head) ==> k <= x
      ensures Left(ways, pos) < Left(ways, old(pos)) && Left(ways, old(pos)) >= 0
    {
      hide LoserTree.Valid, Passing, AllBelow, PassedKeys, Marks;
      HeadFacts();
      LeftNat(ways, pos);
      x := Key(head);
      assert x in ways[head];
      ghost var from := pos;
      ghost var mask;
      n, word, mask := Pass();
      HeadFacts();
      RoundKeys(ways, from, pos, x, max, head);
      AllWays(ways, x, word, mask);
    }

    /** `union_set`: the distinct keys of all ways, in order. */
    method UnionSet() returns (out: seq<int>)
      requires Valid() && pos == seq(|ways|, _ => 0)
      modifies this`pos, this`tree, this`head, this`win
      ensures Increasing(out) && forall k :: k in out <==> InAny(ways, k)
    {
      hide LoserTree.Valid, LoserTree.Input, InAny, InAll, AllBelow;
      Fresh();
      HeadFacts();
      out := [];
      while !Empty()
        invariant Valid() && Input() && Positions() && head < |ways| && AllBelow(ways, pos, Key(head)) &&
          Increasing(out)
        invariant forall k :: k in out <==> InAny(ways, k) && k < Key(head)
        invariant forall k :: InAny(ways, k) ==> k < max
        decreases Left(ways, pos)
      {
        var x, _, _ := Round();
        HeadFacts();
        Append(out, x);
        out := out + [x];
      }
    }

    /** `key_to_equal_count`: every distinct key with the number of its occurrences. */
    method KeyToEqualCount() returns (out: seq<(int, nat)>)
      requires Valid() && pos == seq(|ways|, _ => 0)
      modifies this`pos, this`tree, this`head, this`win
      ensures Increasing(Firsts(out)) && forall k :: k in Firsts(out) <==> InAny(ways, k)
      ensures forall i :: 0 <= i < |out| ==> out[i].1 == Total(ways, out[i].0)
    {
      hide LoserTree.Valid, LoserTree.Input, InAny, InAll, AllBelow;
      Fresh();
      HeadFacts();
      out := [];
      while !Empty()
        invariant Valid() && Input() && Positions() && head < |ways| && AllBelow(ways, pos, Key(head)) &&
          Increasing(Firsts(out))
        invariant forall k :: k in Firsts(out) <==> InAny(ways, k) && k < Key(head)
        invariant forall k :: InAny(ways, k) ==> k < max
        invariant forall i :: 0 <= i < |out| ==> out[i].1 == Total(ways, out[i].0)
        decreases Left(ways, pos)
      {
        var x, n, _ := Round();
        HeadFacts();
        Append(Firsts(out), x);
        assert Firsts(out + [(x, n)]) == Firsts(out) + [x];
        out := out + [(x, n)];
      }
    }

    /** `intersection_32`: the keys that every way has, duplicates or not.  One bit per way notes
        where a key was seen. */
    method Intersection32() returns (out: seq<int>)
      requires Valid() && pos == seq(|ways|, _ => 0) && |ways| <= 32
      modifies this`pos, this`tree, this`head, this`win
      ensures Increasing(out) && forall k :: k in out <==> InAll(ways, k)
    {
      hide LoserTree.Valid, LoserTree.Input, InAny, InAll, AllBelow;
      Fresh();
      HeadFacts();
      InAllAny(ways);
      var mask := Shr(Ones(32), 32 - |ways|);
      out := [];
      while !Empty()
        invariant Valid() && Input() && Positions() && head < |ways| && AllBelow(ways, pos, Key(head)) &&
          Increasing(out)
        invariant forall k :: k in out <==> InAll(ways, k) && k < Key(head)
        invariant forall k :: InAny(ways, k) ==> k < max
        invariant forall k :: InAll(ways, k) ==> InAny(ways, k)
        decreases Left(ways, pos)
      {
        var x, _, word := Round();
        HeadFacts();
        if mask == word {
          Append(out, x);
          out := out + [x];
        }
      }
    }

    /** `intersection_n`: the keys that occur as often as there are ways. */
    method IntersectionN() returns (out: seq<int>)
      requires Valid() && pos == seq(|ways|, _ => 0)
      modifies this`pos, this`tree, this`head, this`win
      ensures Increasing(out) && forall k :: k in out <==> InAny(ways, k) && Total(ways, k) == |ways|
    {
      hide LoserTree.Valid, LoserTree.Input, InAny, InAll, AllBelow;
      Fresh();
      HeadFacts();
      out := [];
      while !Empty()
        invariant Valid() && Input() && Positions() && head < |ways| && AllBelow(ways, pos, Key(head)) &&
          Increasing(out)
        invariant forall k :: k in out <==> InAny(ways, k) && Total(ways, k) == |ways| && k < Key(head)
        invariant forall k :: InAny(ways, k) ==> k < max
        decreases Left(ways, pos)
      {
        var x, n, _ := Round();
        HeadFacts();
        if n == |ways| {
          Append(out, x);
          out := out + [x];
        }
      }
    }

    lemma RoundBegin(winner: seq<nat>, i: nat)
      requires Input() && Positions() && 1 <= i < |ways| == |winner|
      requires PlayedDown(|ways|, Keys(), max, stable, tree, win, i - 1)
      requires (forall p :: i <= p < |ways| ==> winner[p] == win[p]) && winner[0] < |ways|
      ensures RoundDown(winner, i)
    {
    }

    lemma RoundOver(winner: seq<nat>)
      requires Input() && Positions() && |ways| > 1 && RoundDown(winner, 0)
      ensures |winner| == |ways| && Shape() && winner[1] == win[1] && forall p :: 1 <= p < |ways| ==> Match(p)
    {
      DownEnd(|ways|, Keys(), max, stable, tree, win);
    }
  }

  ghost predicate InAny(ways: seq<seq<int>>, k: int) {
    exists w :: 0 <= w < |ways| && k in ways[w]
  }

  ghost predicate InAll(ways: seq<seq<int>>, k: int) {
    forall w :: 0 <= w < |ways| ==> k in ways[w]
  }

  ghost predicate Increasing(s: seq<int>) {
    forall i, j :: 0 <= i < j < |s| ==> s[i] < s[j]
  }

  function Firsts(s: seq<(int, nat)>): seq<int> {
    seq(|s|, i requires 0 <= i < |s| => s[i].0)
  }

  lemma Append(s: seq<int>, x: int)
    requires Increasing(s) && forall k :: k in s ==> k < x
    ensures Increasing(s + [x]) && forall k :: k in s + [x] <==> k in s || k == x
  {
    assert forall i :: 0 <= i < |s| ==> s[i] in s;
  }

  lemma InAllAny(ways: seq<seq<int>>)
    requires |ways| > 0
    ensures forall k :: InAll(ways, k) ==> InAny(ways, k)
  {
    forall k | InAll(ways, k) ensures InAny(ways, k) { assert k in ways[0]; }
  }

  /** Bit w of the word says whether w is in the set. */
  ghost predicate Marks(word: Word, mask: set<nat>) {
    |word| == 32 && forall w :: 0 <= w < 32 ==> (word[w] <==> w in mask)
  }

  lemma NoMarks()
    ensures Marks(Zeros(32), {})
  {
  }

  lemma MarkWay(word: Word, mask: set<nat>, w: nat)
    requires Marks(word, mask)
    ensures |word| == 32 && Marks(Or(word, Shl(One(32), w)), mask + {w})
  {
  }

  lemma AllWays(ways: seq<seq<int>>, x: int, word: Word, mask: set<nat>)
    requires mask == (set w | 0 <= w < |ways| && x in ways[w]) && Marks(word, mask)
    ensures |ways| <= 32 ==> (word == Shr(Ones(32), 32 - |ways|) <==> InAll(ways, x))
  {
    if |ways| <= 32 {
      var full := Shr(Ones(32), 32 - |ways|);
      if InAll(ways, x) {
        assert forall w :: 0 <= w < 32 ==> word[w] == full[w];
      } else {
        var w :| 0 <= w < |ways| && x !in ways[w];
        assert full[w] && !word[w];
      }
    }
  }

  lemma BelowKey(ways: seq<seq<int>>, pos: seq<nat>, max: int, w: nat, i: nat)
    requires w < |ways| == |pos| && pos[w] <= |ways[w]| && Sorted(ways[w]) && i < |ways[w]|
    ensures ways[w][i] < KeyAt(ways, pos, max, w) ==> i < pos[w]
  {
    if pos[w] <= i { assert ways[w][pos[w]] <= ways[w][i]; }
  }

  lemma RoundKeys(ways: seq<seq<int>>, from: seq<nat>, pos: seq<nat>, x: int, max: int, h: nat)
    requires PassedKeys(ways, from, pos, x, max) && AllBelow(ways, from, x) && h < |ways| == |pos|
    requires forall w :: 0 <= w < |ways| ==> pos[w] <= |ways[w]| && Sorted(ways[w])
    requires forall w :: 0 <= w < |ways| ==> KeyAt(ways, pos, max, h) <= KeyAt(ways, pos, max, w)
    ensures forall k :: InAny(ways, k) && k < KeyAt(ways, pos, max, h) ==> k <= x
  {
    forall k | InAny(ways, k) && k < KeyAt(ways, pos, max, h) ensures k <= x {
      var w :| 0 <= w < |ways| && k in ways[w];
      var i :| 0 <= i < |ways[w]| && ways[w][i] == k;
      assert KeyAt(ways, pos, max, h) <= KeyAt(ways, pos, max, w);
      BelowKey(ways, pos, max, w, i);
    }
  }

  /** When no way repeats a key, a key occurs as often as there are ways exactly when all have it. */
  lemma {:induction false} TotalAll(ways: seq<seq<int>>, k: int)
    requires forall w :: 0 <= w < |ways| ==> Increasing(ways[w])
    ensures Total(ways, k) <= |ways| && (Total(ways, k) == |ways| <==> InAll(ways, k))
  {
    if ways != [] {
      var n := |ways| - 1;
      TotalAll(ways[..n], k);
      OnceAtMost(ways[n], k);
      assert InAll(ways, k) <==> InAll(ways[..n], k) && k in ways[n] by {
        forall w | InAll(ways, k) && 0 <= w < n ensures k in ways[..n][w] { assert k in ways[w]; }
        forall w | InAll(ways[..n], k) && 0 <= w < n ensures k in ways[w] { assert k in ways[..n][w]; }
      }
    }
  }

  lemma {:induction false} OnceAtMost(s: seq<int>, k: int)
    requires Increasing(s)
    ensures multiset(s)[k] == if k in s then 1 else 0
  {
    if s != [] {
      var n := |s| - 1;
      assert s == s[..n] + [s[n]];
      OnceAtMost(s[..n], k);
    }
  }

  /** Everything passed is below x. */
  ghost predicate AllBelow(ways: seq<seq<int>>, pos: seq<nat>, x: int)
    requires |pos| == |ways|
  {
    forall w, i :: 0 <= w < |ways| && 0 <= i < pos[w] && i < |ways[w]| ==> ways[w][i] < x
  }

  /** How often x occurs in all ways together. */
  ghost function Total(ways: seq<seq<int>>, x: int): nat {
    if ways == [] then 0 else Total(ways[..|ways| - 1], x) + multiset(ways[|ways| - 1])[x]
  }

  ghost function Span(from: seq<nat>, to: seq<nat>): int
    requires |from| == |to|
  {
    if from == [] then 0 else Span(from[..|from| - 1], to[..|to| - 1]) + to[|to| - 1] - from[|from| - 1]
  }

  /** From `from` to `pos` there are only x; `n` of them, from the ways in `mask`. */
  ghost predicate Passing(ways: seq<seq<int>>, from: seq<nat>, pos: seq<nat>, x: int, max: int, n: nat,
                          mask: set<nat>) {
    && |from| == |pos| == |ways| && x < max
    && (forall w :: 0 <= w < |ways| ==> from[w] <= pos[w] <= |ways[w]| && Sorted(ways[w]))
    && AllBelow(ways, from, x)
    && (forall w, i :: 0 <= w < |ways| && from[w] <= i < pos[w] ==> ways[w][i] == x)
    && (forall w :: 0 <= w < |ways| ==> x <= KeyAt(ways, pos, max, w))
    && n == Span(from, pos)
    && (forall w :: w in mask <==> 0 <= w < |ways| && from[w] < pos[w])
  }

  /** The keys between two states are those equal to x. */
  ghost predicate PassedKeys(ways: seq<seq<int>>, from: seq<nat>, to: seq<nat>, x: int, max: int) {
    && |from| == |to| == |ways|
    && (forall w, i :: 0 <= w < |ways| && 0 <= i < |ways[w]| ==> (ways[w][i] == x <==> from[w] <= i < to[w]))
  }

  lemma {:induction false} SpanSame(from: seq<nat>)
    ensures Span(from, from) == 0
  {
    if from != [] { SpanSame(from[..|from| - 1]); }
  }

  lemma {:induction false} SpanStep(from: seq<nat>, to: seq<nat>, h: nat)
    requires |from| == |to| && h < |to|
    ensures Span(from, to[h := to[h] + 1]) == Span(from, to) + 1
  {
    var n := |to| - 1;
    var to' := to[h := to[h] + 1];
    if h < n {
      SpanStep(from[..n], to[..n], h);
      assert to'[..n] == to[..n][h := to[h] + 1];
    } else {
      assert to'[..n] == to[..n];
    }
  }

  lemma PassStart(ways: seq<seq<int>>, pos: seq<nat>, x: int, max: int)
    requires |pos| == |ways| && x < max && AllBelow(ways, pos, x)
    requires forall w :: 0 <= w < |ways| ==> pos[w] <= |ways[w]| && Sorted(ways[w])
    requires forall w :: 0 <= w < |ways| ==> x <= KeyAt(ways, pos, max, w)
    ensures Passing(ways, pos, pos, x, max, 0, {})
  {
    SpanSame(pos);
  }

  lemma PassStep(ways: seq<seq<int>>, from: seq<nat>, pos: seq<nat>, x: int, max: int, n: nat, mask: set<nat>, h: nat)
    requires Passing(ways, from, pos, x, max, n, mask) && h < |ways| && KeyAt(ways, pos, max, h) == x
    ensures pos[h] < |ways[h]|
    ensures Passing(ways, from, pos[h := pos[h] + 1], x, max, n + 1, mask + {h})
  {
    SpanStep(from, pos, h);
    var pos' := pos[h := pos[h] + 1];
    forall w | 0 <= w < |ways| ensures x <= KeyAt(ways, pos', max, w) {
      assert x <= KeyAt(ways, pos, max, w);
    }
    forall w, i | 0 <= w < |ways| && from[w] <= i < pos'[w] ensures ways[w][i] == x {
      assert i < pos[w] || (w == h && i == pos[h]);
    }
  }

  lemma PassNext(ways: seq<seq<int>>, from: seq<nat>, pos: seq<nat>, x: int, max: int, n: nat, mask: set<nat>, h: nat)
    requires Passing(ways, from, pos, x, max, n, mask) && h < |ways|
    ensures x <= KeyAt(ways, pos, max, h)
  {
  }

  lemma PassEnd(ways: seq<seq<int>>, from: seq<nat>, pos: seq<nat>, x: int, max: int, n: nat, mask: set<nat>, h: nat)
    requires Passing(ways, from, pos, x, max, n, mask) && h < |ways| && x < KeyAt(ways, pos, max, h)
    requires forall w :: 0 <= w < |ways| ==> KeyAt(ways, pos, max, h) <= KeyAt(ways, pos, max, w)
    ensures PassedKeys(ways, from, pos, x, max) && AllBelow(ways, pos, KeyAt(ways, pos, max, h))
    ensures n == Total(ways, x) && mask == set w | 0 <= w < |ways| && x in ways[w]
  {
    forall w, i | 0 <= w < |ways| && 0 <= i < |ways[w]| ensures ways[w][i] == x <==> from[w] <= i < pos[w] {
      assert x < KeyAt(ways, pos, max, w);
      if i >= pos[w] { assert ways[w][pos[w]] <= ways[w][i]; }
    }
    forall w | 0 <= w < |ways| ensures x in ways[w] <==> from[w] < pos[w] {
      if from[w] < pos[w] { assert ways[w][from[w]] == x; }
    }
    TotalSpan(ways, from, pos, x);
  }

  lemma {:induction false} TotalSpan(ways: seq<seq<int>>, from: seq<nat>, to: seq<nat>, x: int)
    requires |from| == |to| == |ways| && forall w :: 0 <= w < |ways| ==> from[w] <= to[w] <= |ways[w]|
    requires forall w, i :: 0 <= w < |ways| && 0 <= i < |ways[w]| ==> (ways[w][i] == x <==> from[w] <= i < to[w])
    ensures Span(from, to) == Total(ways, x)
  {
    if ways != [] {
      var n := |ways| - 1;
      TotalSpan(ways[..n], from[..n], to[..n], x);
      CountSpan(ways[n], from[n], to[n], x);
    }
  }

  lemma {:induction false} CountSpan(s: seq<int>, lo: nat, hi: nat, x: int)
    requires lo <= hi <= |s| && forall i :: 0 <= i < |s| ==> (s[i] == x <==> lo <= i < hi)
    ensures multiset(s)[x] == hi - lo
  {
    if s != [] {
      var n := |s| - 1;
      assert s == s[..n] + [s[n]];
      CountSpan(s[..n], if lo < n then lo else n, if hi < n then hi else n, x);
    }
  }

  /** How much data is left. */
  ghost function Left(ways: seq<seq<int>>, pos: seq<nat>): int
    requires |pos| == |ways|
  {
    if ways == [] then 0 else Left(ways[..|ways| - 1], pos[..|ways| - 1]) + |ways[|ways| - 1]| - pos[|ways| - 1]
  }

  lemma {:induction false} LeftLess(ways: seq<seq<int>>, pos: seq<nat>, h: nat)
    requires |pos| == |ways| && h < |ways|
    ensures Left(ways, pos[h := pos[h] + 1]) == Left(ways, pos) - 1
  {
    var n := |ways| - 1;
    var pos' := pos[h := pos[h] + 1];
    if h < n {
      LeftLess(ways[..n], pos[..n], h);
      assert pos'[..n] == pos[..n][h := pos[h] + 1];
    } else {
      assert pos'[..n] == pos[..n];
    }
  }

  lemma {:induction false} LeftNat(ways: seq<seq<int>>, pos: seq<nat>)
    requires |pos| == |ways| && forall w :: 0 <= w < |ways| ==> pos[w] <= |ways[w]|
    ensures Left(ways, pos) >= 0
  {
    if ways != [] { LeftNat(ways[..|ways| - 1], pos[..|ways| - 1]); }
  }

  function Before(i: nat): nat {
    if i == 0 then 0 else i - 1
  }

  lemma KeyFrame(n: nat, keys: seq<int>, keys': seq<int>, max: int, stable: bool, tree: seq<nat>, win: seq<nat>,
                 p: nat, top: nat)
    requires |keys| == n == |tree| == |keys'| && ShapeOf(n, win) && 1 <= p < n && top < n
    requires MatchAt(n, keys, max, stable, tree, win, p) && !Under(n + top, p)
    requires forall w :: 0 <= w < n && w != top ==> keys'[w] == keys[w]
    ensures MatchAt(n, keys', max, stable, tree, win, p)
  {
    UnderParent(n + win[2 * p], 2 * p);
    UnderParent(n + win[2 * p + 1], 2 * p + 1);
  }

  /** All matches at nodes after `i` have been played. */
  ghost predicate PlayedDown(n: nat, keys: seq<int>, max: int, stable: bool, tree: seq<nat>, win: seq<nat>, i: nat) {
    && |keys| == n == |tree| && |win| == 2 * n
    && (forall q :: n <= q < 2 * n ==> win[q] == q - n)
    && (forall q :: i < q < 2 * n ==> win[q] < n && Under(n + win[q], q))
    && (forall p :: i < p < n ==> MatchAt(n, keys, max, stable, tree, win, p))
  }

  lemma DownStep(n: nat, keys: seq<int>, max: int, stable: bool, tree: seq<nat>, win: seq<nat>, i: nat, l: nat, w: nat)
    requires PlayedDown(n, keys, max, stable, tree, win, i) && 1 <= i < n
    requires (l == win[2 * i] && w == win[2 * i + 1]) || (w == win[2 * i] && l == win[2 * i + 1])
    requires l < n && w < n && !Beats(l, w, keys[l], keys[w], max, stable)
    ensures PlayedDown(n, keys, max, stable, tree[i := l], win[i := w], i - 1)
  {
    UnderParent(n + w, if w == win[2 * i] then 2 * i else 2 * i + 1);
    MatchDown(n, keys, max, stable, tree, win, i, l, w);
    hide MatchAt, Beats;
    var tree', win' := tree[i := l], win[i := w];
    forall p | i - 1 < p < n ensures MatchAt(n, keys, max, stable, tree', win', p) {
      if p != i { MatchFrame(n, keys, max, stable, tree, win, p, i, l, w); }
    }
  }

  lemma MatchDown(n: nat, keys: seq<int>, max: int, stable: bool, tree: seq<nat>, win: seq<nat>, i: nat, l: nat, w: nat)
    requires |keys| == n == |tree| && |win| == 2 * n && 1 <= i < n
    requires (l == win[2 * i] && w == win[2 * i + 1]) || (w == win[2 * i] && l == win[2 * i + 1])
    requires l < n && w < n && !Beats(l, w, keys[l], keys[w], max, stable)
    ensures MatchAt(n, keys, max, stable, tree[i := l], win[i := w], i)
  {
  }

  lemma DownBounds(n: nat, keys: seq<int>, max: int, stable: bool, tree: seq<nat>, win: seq<nat>, j: nat)
    requires PlayedDown(n, keys, max, stable, tree, win, j)
    ensures |win| == 2 * n && |tree| == n
    ensures j >= 1 && 2 * j + 1 < 2 * n ==> win[2 * j] < n && win[2 * j + 1] < n && win[2 * j] != win[2 * j + 1]
    ensures forall q :: n <= q < 2 * n ==> win[q] == q - n
    ensures j == 0 && n > 1 ==> win[1] < n
  {
    if j >= 1 && 2 * j + 1 < 2 * n { UnderOne(n + win[2 * j], j); }
  }

  lemma DownZero(n: nat, keys: seq<int>, max: int, stable: bool, tree: seq<nat>, win: seq<nat>, l: nat)
    requires PlayedDown(n, keys, max, stable, tree, win, 0) && n > 0
    ensures PlayedDown(n, keys, max, stable, tree[0 := l], win, 0)
  {
    var tree' := tree[0 := l];
    forall p | 0 < p < n ensures MatchAt(n, keys, max, stable, tree', win, p) {
      assert MatchAt(n, keys, max, stable, tree, win, p);
    }
  }

  lemma DownEnd(n: nat, keys: seq<int>, max: int, stable: bool, tree: seq<nat>, win: seq<nat>)
    requires PlayedDown(n, keys, max, stable, tree, win, 0)
    ensures ShapeOf(n, win) && forall p :: 1 <= p < n ==> MatchAt(n, keys, max, stable, tree, win, p)
  {
    hide MatchAt;
  }

  /** At node p the winner and the loser are the winners of the two subtrees, and the loser does not
      beat the winner. */
  ghost predicate MatchAt(n: nat, keys: seq<int>, max: int, stable: bool, tree: seq<nat>, win: seq<nat>, p: nat)
    requires |keys| == n == |tree| && |win| == 2 * n && 1 <= p < n
  {
    && PlayedBy(win, tree, p)
    && tree[p] < n && win[p] < n && !Beats(tree[p], win[p], keys[tree[p]], keys[win[p]], max, stable)
  }

  /** On the way up: all matches are right but those above position c, which still show the old
      winner `top`. */
  ghost predicate Climb(n: nat, keys: seq<int>, max: int, stable: bool, tree: seq<nat>, win: seq<nat>, win0: seq<nat>,
                        top: nat, c: nat) {
    && ShapeOf(n, win) && ShapeOf(n, win0) && |tree| == n == |keys| && top < n
    && 1 <= c < 2 * n && Under(n + top, c)
    && (forall q :: 1 <= q < 2 * n && Under(n + top, q) ==> win0[q] == top)
    && (forall p :: 1 <= p < n && !(Under(n + top, p) && p < c) ==> MatchAt(n, keys, max, stable, tree, win, p))
    && (forall p :: 1 <= p < n && Under(n + top, p) && p < c ==> PlayedBy(win0, tree, p))
    && (forall q :: 1 <= q < 2 * n && !(Under(n + top, q) && c <= q) ==> win[q] == win0[q])
  }

  lemma ClimbStart(n: nat, keys: seq<int>, max: int, stable: bool, tree: seq<nat>, win: seq<nat>, top: nat)
    requires ShapeOf(n, win) && |tree| == n == |keys| && top < n
    requires forall q :: 1 <= q < 2 * n && Under(n + top, q) ==> win[q] == top
    requires forall p :: 1 <= p < n && !Under(n + top, p) ==> MatchAt(n, keys, max, stable, tree, win, p)
    requires forall p :: 1 <= p < n ==> PlayedBy(win, tree, p)
    ensures Climb(n, keys, max, stable, tree, win, win, top, n + top) && win[n + top] == top
  {
    hide MatchAt, PlayedBy;
  }

  lemma ClimbStep(n: nat, keys: seq<int>, max: int, stable: bool, tree: seq<nat>, win: seq<nat>, win0: seq<nat>,
                  top: nat, c: nat)
    requires Climb(n, keys, max, stable, tree, win, win0, top, c) && 2 <= c
    ensures c / 2 < |tree| == |keys| && c < |win| && c / 2 < |win| && tree[c / 2] < n && win[c] < n
    ensures var p := c / 2;
      var up := Beats(tree[p], win[c], keys[tree[p]], keys[win[c]], max, stable);
      var w, l := if up then tree[p] else win[c], if up then win[c] else tree[p];
      Climb(n, keys, max, stable, tree[p := l], win[p := w], win0, top, p)
  {
    hide ShapeOf, Beats, PlayedBy, MatchAt;
    var p := c / 2;
    ClimbMatch(n, keys, max, stable, tree, win, win0, top, c);
    if p > 1 { UnderParent(n + top, p); }
    var up := Beats(tree[p], win[c], keys[tree[p]], keys[win[c]], max, stable);
    var w, l := if up then tree[p] else win[c], if up then win[c] else tree[p];
    var tree', win' := tree[p := l], win[p := w];
    forall o | 1 <= o < n && !(Under(n + top, o) && o < p) ensures MatchAt(n, keys, max, stable, tree', win', o) {
      if o != p {
        if Under(n + top, o) && o < c { UnderChain(n + top, o, c); }
        MatchFrame(n, keys, max, stable, tree, win, o, p, l, w);
      }
    }
    forall o | 1 <= o < n && Under(n + top, o) && o < p ensures PlayedBy(win0, tree', o) {
      PlayedFrame(n, tree, win0, o, p, l);
    }
  }

  /** The match at the node above c. */
  lemma ClimbMatch(n: nat, keys: seq<int>, max: int, stable: bool, tree: seq<nat>, win: seq<nat>, win0: seq<nat>,
                   top: nat, c: nat)
    requires Climb(n, keys, max, stable, tree, win, win0, top, c) && 2 <= c
    ensures c / 2 < |tree| == n == |keys| && |win| == 2 * n == |win0| && tree[c / 2] < n && win[c] < n &&
      Under(n + top, c / 2)
    ensures var p := c / 2;
      var up := Beats(tree[p], win[c], keys[tree[p]], keys[win[c]], max, stable);
      var w, l := if up then tree[p] else win[c], if up then win[c] else tree[p];
      MatchAt(n, keys, max, stable, tree[p := l], win[p := w], p) && ShapeOf(n, win[p := w])
  {
    hide MatchAt;
    var p := c / 2;
    UnderParent(n + top, c);
    var sib := Rival(n, tree, win0, top, c);
    assert win[sib] == win0[sib];
    ShapeAt(n, win, sib);
    ShapeAt(n, win, c);
    var up := Beats(tree[p], win[c], keys[tree[p]], keys[win[c]], max, stable);
    var w, l := if up then tree[p] else win[c], if up then win[c] else tree[p];
    hide ShapeOf, Under, Climb;
    ShapeSet(n, win, p, w, if up then sib else c);
    MatchMade(n, keys, max, stable, tree, win, c, sib);
  }

  lemma MatchMade(n: nat, keys: seq<int>, max: int, stable: bool, tree: seq<nat>, win: seq<nat>, c: nat, sib: nat)
    requires |keys| == n == |tree| && |win| == 2 * n && 2 <= c < 2 * n && 2 <= sib < 2 * n && sib / 2 == c / 2 &&
      sib != c
    requires win[c] < n && win[sib] < n && tree[c / 2] == win[sib]
    ensures var p := c / 2;
      var up := Beats(tree[p], win[c], keys[tree[p]], keys[win[c]], max, stable);
      var w, l := if up then tree[p] else win[c], if up then win[c] else tree[p];
      MatchAt(n, keys, max, stable, tree[p := l], win[p := w], p)
  {
  }

  lemma MatchFrame(n: nat, keys: seq<int>, max: int, stable: bool, tree: seq<nat>, win: seq<nat>, o: nat, p: nat,
                   l: nat, w: nat)
    requires |keys| == n == |tree| && |win| == 2 * n && 1 <= o < n && 1 <= p < n && o != p && o != p / 2
    requires MatchAt(n, keys, max, stable, tree, win, o)
    ensures MatchAt(n, keys, max, stable, tree[p := l], win[p := w], o)
  {
  }

  lemma PlayedFrame(n: nat, tree: seq<nat>, win: seq<nat>, o: nat, p: nat, l: nat)
    requires |tree| == n && |win| == 2 * n && 1 <= o < n && 1 <= p < n && o != p && PlayedBy(win, tree, o)
    ensures PlayedBy(win, tree[p := l], o)
  {
  }

  lemma SelfUpdate(tree: seq<nat>, p: nat)
    requires p < |tree|
    ensures tree[p := tree[p]] == tree
  {
  }

  lemma ClimbEnd(n: nat, keys: seq<int>, max: int, stable: bool, tree: seq<nat>, win: seq<nat>, win0: seq<nat>,
                 top: nat)
    requires Climb(n, keys, max, stable, tree, win, win0, top, 1)
    ensures ShapeOf(n, win) && |tree| == n && forall p :: 1 <= p < n ==> MatchAt(n, keys, max, stable, tree, win, p)
  {
    hide MatchAt, PlayedBy, ShapeOf;
  }

  /** Merging whole ways: a sorted permutation of all data, and with stability equal keys in the
      order of the ways. */
  method MergeAll(ways: seq<seq<int>>, max: int, stable: bool) returns (out: seq<Item>)
    requires |ways| > 0 && forall w :: 0 <= w < |ways| ==> Sorted(ways[w])
    requires forall w, i :: 0 <= w < |ways| && 0 <= i < |ways[w]| ==> ways[w][i] < max
    ensures Ordered(out, stable)
    ensures forall e :: e in out <==> e.way < |ways| && e.idx < |ways[e.way]| && e.key == ways[e.way][e.idx]
  {
    var tree := new LoserTree(ways, max, stable);
    tree.Start();
    hide LoserTree.Valid, Ordered;
    out := tree.Merge();
  }

  /** The winner of every subtree is one of its ways. */
  ghost predicate ShapeOf(n: nat, win: seq<nat>) {
    && |win| == 2 * n
    && (forall q :: n <= q < 2 * n ==> win[q] == q - n)
    && (forall p :: 1 <= p < 2 * n ==> win[p] < n && Under(n + win[p], p))
  }

  lemma ShapeAt(n: nat, win: seq<nat>, p: nat)
    requires ShapeOf(n, win) && 1 <= p < 2 * n
    ensures |win| == 2 * n && win[p] < n && Under(n + win[p], p)
  {
  }

  lemma ShapeLeaf(n: nat, win: seq<nat>, w: nat)
    requires ShapeOf(n, win) && w < n
    ensures |win| == 2 * n && win[n + w] == w
  {
  }

  lemma ShapeSet(n: nat, win: seq<nat>, p: nat, w: nat, c: nat)
    requires ShapeOf(n, win) && 1 <= p < n && (c == 2 * p || c == 2 * p + 1) && win[c] == w
    ensures ShapeOf(n, win[p := w])
  {
    UnderParent(n + w, c);
  }

  /** The way at a node above the old winner is the winner of the other subtree. */
  lemma Rival(n: nat, tree: seq<nat>, win: seq<nat>, top: nat, c: nat) returns (sib: nat)
    requires ShapeOf(n, win) && |tree| == n && top < n && 2 <= c < 2 * n && Under(n + top, c)
    requires win[c] == top && PlayedBy(win, tree, c / 2)
    requires forall q :: 1 <= q < 2 * n && Under(n + top, q) ==> win[q] == top
    ensures 2 <= sib < 2 * n && sib / 2 == c / 2 && sib != c && !Under(n + top, sib)
    ensures tree[c / 2] == win[sib]
  {
    var p := c / 2;
    UnderParent(n + top, c);
    UnderOne(n + top, p);
    sib := if c == 2 * p then 2 * p + 1 else 2 * p;
    if win[sib] == top { assert Under(n + win[sib], sib); }
  }

  ghost predicate PlayedBy(win: seq<nat>, tree: seq<nat>, p: nat)
    requires 2 * p + 1 < |win| && p < |tree|
  {
    || (win[p] == win[2 * p] && tree[p] == win[2 * p + 1])
    || (win[p] == win[2 * p + 1] && tree[p] == win[2 * p])
  }
}
