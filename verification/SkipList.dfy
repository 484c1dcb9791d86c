/** The skip list of huge free blocks in MemPool_LockNone (src/terark/mempool_lock_none.hpp): eight
    levels of links, the links of a block stored in the block itself.  The blocks are in order of
    length; block i is on the levels below ht[i], so each level is part of the level below it. */
module SkipList {

  import opened Arena
  import opened LinkedLists
  import opened ThreadCache

  const LEVELS: nat := 8

  // the words of a block that hold its length and its links
  const RECORD: nat := 9

  type Levels = seq<nat>

  /** The first block from i on that is on level k. */
  ghost function NextAt(ht: Levels, i: nat, k: nat): (j: nat)
    requires i <= |ht|
    ensures i <= j <= |ht| && (j < |ht| ==> ht[j] > k)
    ensures forall x :: i <= x < j ==> ht[x] <= k
    decreases |ht| - i
  {
    if i == |ht| || ht[i] > k then i else NextAt(ht, i + 1, k)
  }

  /** The last block before b that is on level k; -1 is the list head. */
  ghost function PrevAt(ht: Levels, b: nat, k: nat): (j: int)
    requires b <= |ht|
    ensures -1 <= j < b && (j >= 0 ==> ht[j] > k)
    ensures forall x :: j < x < b ==> ht[x] <= k
  {
    if b == 0 then -1 else if ht[b - 1] > k then b - 1 else PrevAt(ht, b - 1, k)
  }

  /** The head or a block. */
  datatype Node = Head | At(pos: nat)

  ghost function NodeAt(huge: seq<Block>, i: int): Node
    requires -1 <= i < |huge|
  {
    if i < 0 then Head else At(huge[i].pos)
  }

  predicate Has(head: seq<nat>, m: seq<nat>, x: Node, k: nat) {
    k < |head| && (x.At? ==> x.pos + 1 + k < |m|)
  }

  /** The link of a node on level k. */
  function Link(head: seq<nat>, m: seq<nat>, x: Node, k: nat): nat
    requires Has(head, m, x, k)
  {
    if x.Head? then head[k] else m[x.pos + 1 + k]
  }

  ghost predicate OnLevel(ht: Levels, i: int, k: nat) {
    -1 <= i < |ht| && (i >= 0 ==> ht[i] > k)
  }

  /** Every node of the level leads to the next one. */
  ghost predicate LevelOk(huge: seq<Block>, ht: Levels, head: seq<nat>, m: seq<nat>, k: nat)
    requires |ht| == |huge|
  {
    forall i {:trigger NodeAt(huge, i)} :: OnLevel(ht, i, k) ==>
      Has(head, m, NodeAt(huge, i), k)
      && Link(head, m, NodeAt(huge, i), k) == FollowHuge(huge, NextAt(ht, i + 1, k))
  }

  /** The records of the blocks are apart. */
  ghost predicate Apart(huge: seq<Block>) {
    forall i, j :: 0 <= i < j < |huge| ==> huge[i].pos + RECORD <= huge[j].pos || huge[j].pos + RECORD <= huge[i].pos
  }

  ghost predicate Ordered(huge: seq<Block>) {
    forall i, j :: 0 <= i <= j < |huge| ==> huge[i].len <= huge[j].len
  }

  ghost predicate Records(huge: seq<Block>, m: seq<nat>) {
    forall i {:trigger huge[i]} :: 0 <= i < |huge| ==>
      huge[i].pos + RECORD <= |m| && huge[i].pos < TAIL && m[huge[i].pos] == huge[i].len
  }

  /** No block is higher than the list, and no top level is empty. */
  ghost predicate Heights(ht: Levels, height: nat) {
    && height <= LEVELS
    && (forall i :: 0 <= i < |ht| ==> 1 <= ht[i] <= height)
    && (height > 0 ==> exists i :: 0 <= i < |ht| && ht[i] == height)
  }

  ghost predicate Linked(huge: seq<Block>, ht: Levels, head: seq<nat>, height: nat, m: seq<nat>) {
    && |ht| == |huge| && |head| == LEVELS
    && Ordered(huge) && Records(huge, m)
    && Heights(ht, height)
    && (forall k: nat :: k < LEVELS ==> LevelOk(huge, ht, head, m, k))
  }

  /** How many blocks are too short. */
  ghost function Below(huge: seq<Block>, len: nat): (b: nat)
    ensures b <= |huge|
    ensures forall i :: 0 <= i < b ==> huge[i].len < len
    ensures b < |huge| ==> huge[b].len >= len
  {
    if huge == [] || huge[0].len >= len then 0 else 1 + Below(huge[1..], len)
  }

  lemma AfterBelow(huge: seq<Block>, len: nat, i: nat)
    requires Ordered(huge) && i < |huge|
    ensures huge[i].len < len <==> i < Below(huge, len)
  {
  }

  // ------------------------------------------------------------------ insertion

  ghost function Inserted(huge: seq<Block>, b: nat, x: Block): (r: seq<Block>)
    requires b <= |huge|
    ensures |r| == |huge| + 1
    ensures forall i :: 0 <= i < |r| ==> r[i] == if i < b then huge[i] else if i == b then x else huge[i - 1]
  {
    huge[..b] + [x] + huge[b..]
  }

  ghost function InsertedHt(ht: Levels, b: nat, h: nat): (r: Levels)
    requires b <= |ht|
    ensures |r| == |ht| + 1
    ensures forall i :: 0 <= i < |r| ==> r[i] == if i < b then ht[i] else if i == b then h else ht[i - 1]
  {
    ht[..b] + [h] + ht[b..]
  }

  /** Where the next block of the level is after an insertion. */
  lemma {:induction false} NextInserted(ht: Levels, b: nat, h: nat, i: nat, k: nat)
    requires b <= |ht| && i <= |ht| + 1
    ensures var ht' := InsertedHt(ht, b, h);
      NextAt(ht', i, k) ==
        if i > b then NextAt(ht, i - 1, k) + 1
        else if NextAt(ht, i, k) < b then NextAt(ht, i, k)
        else if h > k then b else NextAt(ht, b, k) + 1
    decreases |ht| + 1 - i
  {
    var ht' := InsertedHt(ht, b, h);
    if i < |ht'| {
      assert ht'[i] == if i < b then ht[i] else if i == b then h else ht[i - 1];
      NextInserted(ht, b, h, i + 1, k);
    }
  }

  /** Before b, only the last block of the level leads past b. */
  lemma {:induction false} PrevNext(ht: Levels, b: nat, i: int, k: nat)
    requires b <= |ht| && -1 <= i < b && OnLevel(ht, i, k)
    ensures i == PrevAt(ht, b, k) ==> NextAt(ht, i + 1, k) == NextAt(ht, b, k)
    ensures i != PrevAt(ht, b, k) ==> NextAt(ht, i + 1, k) <= PrevAt(ht, b, k)
  {
    var p := PrevAt(ht, b, k);
    if i == p { NextSkips(ht, i + 1, b, k); }
  }

  lemma {:induction false} NextSkips(ht: Levels, i: nat, b: nat, k: nat)
    requires i <= b <= |ht| && forall x :: i <= x < b ==> ht[x] <= k
    ensures NextAt(ht, i, k) == NextAt(ht, b, k)
    decreases b - i
  {
    if i < b { NextSkips(ht, i + 1, b, k); }
  }

  ghost function HeadWith(head: seq<nat>, x: Node, k: nat, v: nat): (r: seq<nat>)
    requires k < |head|
    ensures |r| == |head|
  {
    if x.Head? then head[k := v] else head
  }

  ghost function MemWith(m: seq<nat>, x: Node, k: nat, v: nat): (r: seq<nat>)
    requires x.At? ==> x.pos + 1 + k < |m|
    ensures |r| == |m|
  {
    if x.Head? then m else m[x.pos + 1 + k := v]
  }

  ghost predicate Distinct(x: Node, y: Node) {
    x.At? && y.At? ==> x.pos + RECORD <= y.pos || y.pos + RECORD <= x.pos
  }

  /** A written link reads back; the links of other nodes, and of other levels, stay. */
  lemma LinkWith(head: seq<nat>, m: seq<nat>, x: Node, k: nat, v: nat, y: Node, k': nat)
    requires Has(head, m, x, k) && Has(head, m, y, k') && k < LEVELS && k' < LEVELS
    requires x != y ==> Distinct(x, y)
    ensures Has(HeadWith(head, x, k, v), MemWith(m, x, k, v), y, k')
    ensures Link(HeadWith(head, x, k, v), MemWith(m, x, k, v), y, k') ==
      if x == y && k == k' then v else Link(head, m, y, k')
  {
  }

  lemma NodesDistinct(huge: seq<Block>, i: int, j: int)
    requires Apart(huge) && -1 <= i < |huge| && -1 <= j < |huge| && i != j
    ensures NodeAt(huge, i) != NodeAt(huge, j) && Distinct(NodeAt(huge, i), NodeAt(huge, j))
  {
    if 0 <= i < j { assert huge[i].pos + RECORD <= huge[j].pos || huge[j].pos + RECORD <= huge[i].pos; }
    if 0 <= j < i { assert huge[j].pos + RECORD <= huge[i].pos || huge[i].pos + RECORD <= huge[j].pos; }
  }

  /** The two writes that put a block on a level: its link, then the link of the node before it. */
  ghost function InsertHead(huge: seq<Block>, ht: Levels, b: nat, x: Block, head: seq<nat>, k: nat): (r: seq<nat>)
    requires |ht| == |huge| && b <= |huge| && k < |head|
    ensures |r| == |head|
  {
    HeadWith(head, NodeAt(huge, PrevAt(ht, b, k)), k, x.pos)
  }

  ghost function InsertMem(huge: seq<Block>, ht: Levels, b: nat, x: Block, head: seq<nat>, m: seq<nat>,
                           k: nat): (r: seq<nat>)
    requires |ht| == |huge| && b <= |huge| && k < |head| && x.pos + 1 + k < |m|
    requires Has(head, m, NodeAt(huge, PrevAt(ht, b, k)), k)
    ensures |r| == |m|
  {
    var prev := NodeAt(huge, PrevAt(ht, b, k));
    MemWith(MemWith(m, At(x.pos), k, Link(head, m, prev, k)), prev, k, x.pos)
  }

  ghost predicate Room(huge: seq<Block>, m: seq<nat>) {
    forall i {:trigger huge[i]} :: 0 <= i < |huge| ==> huge[i].pos + RECORD <= |m|
  }

  lemma InsertedNode(huge: seq<Block>, b: nat, x: Block, i: int)
    requires b <= |huge| && -1 <= i <= |huge|
    ensures NodeAt(Inserted(huge, b, x), i) == if i < b then NodeAt(huge, i) else if i == b then At(x.pos)
      else NodeAt(huge, i - 1)
  {
  }

  lemma NodeHas(huge: seq<Block>, head: seq<nat>, m: seq<nat>, i: int, k: nat)
    requires Room(huge, m) && -1 <= i < |huge| && k < |head| == LEVELS
    ensures Has(head, m, NodeAt(huge, i), k)
  {
  }

  /** The links after the two writes. */
  lemma InsertLinks(huge: seq<Block>, ht: Levels, b: nat, x: Block, head: seq<nat>, m: seq<nat>, k: nat, i: int,
                    k': nat)
    requires |ht| == |huge| && b <= |huge| && k < LEVELS == |head| && k' < LEVELS
    requires Apart(Inserted(huge, b, x)) && Room(Inserted(huge, b, x), m) && -1 <= i <= |huge|
    requires x.pos + RECORD <= |m|
    ensures var huge' := Inserted(huge, b, x); var p := PrevAt(ht, b, k);
      && Has(head, m, NodeAt(huge', p), k) && Has(head, m, NodeAt(huge, p), k) && Has(head, m, NodeAt(huge', i), k')
      && Has(InsertHead(huge, ht, b, x, head, k), InsertMem(huge, ht, b, x, head, m, k), NodeAt(huge', i), k')
      && Link(InsertHead(huge, ht, b, x, head, k), InsertMem(huge, ht, b, x, head, m, k), NodeAt(huge', i), k') ==
           if k' != k then Link(head, m, NodeAt(huge', i), k')
           else if i == p then x.pos
           else if i == b then Link(head, m, NodeAt(huge', p), k)
           else Link(head, m, NodeAt(huge', i), k')
  {
    var huge', p := Inserted(huge, b, x), PrevAt(ht, b, k);
    hide Room, Apart, Has, Link, PrevAt, NodeAt, HeadWith, MemWith, Distinct;
    InsertedNode(huge, b, x, p);
    InsertedNode(huge, b, x, b);
    NodeHas(huge', head, m, p, k);
    NodeHas(huge', head, m, b, k);
    NodeHas(huge', head, m, i, k');
    if i != b { NodesDistinct(huge', b, i); }
    if i != p { NodesDistinct(huge', p, i); }
    NodesDistinct(huge', p, b);
    var prev, it := NodeAt(huge', p), NodeAt(huge', i);
    var v := Link(head, m, prev, k);
    assert HeadWith(head, At(x.pos), k, v) == head by { AtHead(head, x.pos, k, v); }
    var m1 := MemWith(m, At(x.pos), k, v);
    LinkWith(head, m, At(x.pos), k, v, it, k');
    LinkWith(head, m, At(x.pos), k, v, prev, k);
    LinkWith(head, m1, prev, k, x.pos, it, k');
  }

  lemma AtHead(head: seq<nat>, pos: nat, k: nat, v: nat)
    requires k < |head|
    ensures HeadWith(head, At(pos), k, v) == head
  {
  }

  ghost predicate Leads(huge: seq<Block>, ht: Levels, head: seq<nat>, m: seq<nat>, i: int, k: nat)
    requires |ht| == |huge| && -1 <= i < |huge|
  {
    Has(head, m, NodeAt(huge, i), k) && Link(head, m, NodeAt(huge, i), k) == FollowHuge(huge, NextAt(ht, i + 1, k))
  }

  lemma LeadsAt(huge: seq<Block>, ht: Levels, head: seq<nat>, m: seq<nat>, i: int, k: nat)
    requires |ht| == |huge| && LevelOk(huge, ht, head, m, k) && OnLevel(ht, i, k)
    ensures Leads(huge, ht, head, m, i, k)
  {
    var x := NodeAt(huge, i);
  }

  lemma LeadsAll(huge: seq<Block>, ht: Levels, head: seq<nat>, m: seq<nat>, k: nat)
    requires |ht| == |huge| && forall i :: OnLevel(ht, i, k) ==> Leads(huge, ht, head, m, i, k)
    ensures LevelOk(huge, ht, head, m, k)
  {
    forall i | OnLevel(ht, i, k)
      ensures Has(head, m, NodeAt(huge, i), k) &&
        Link(head, m, NodeAt(huge, i), k) == FollowHuge(huge, NextAt(ht, i + 1, k))
    {
      assert Leads(huge, ht, head, m, i, k);
    }
  }

  lemma FollowInserted(huge: seq<Block>, b: nat, x: Block, j: nat)
    requires b <= |huge| && j <= |huge|
    ensures j < b ==> FollowHuge(Inserted(huge, b, x), j) == FollowHuge(huge, j)
    ensures FollowHuge(Inserted(huge, b, x), b) == x.pos
    ensures j >= b ==> FollowHuge(Inserted(huge, b, x), j + 1) == FollowHuge(huge, j)
  {
  }

  /** The node whose link the node i of the new list takes over. */
  ghost function Was(ht: Levels, b: nat, i: int, k: nat): int
    requires b <= |ht|
  {
    if i < b then i else if i == b then PrevAt(ht, b, k) else i - 1
  }

  lemma WasOnLevel(ht: Levels, b: nat, h: nat, i: int, k: nat)
    requires b <= |ht| && OnLevel(InsertedHt(ht, b, h), i, k)
    ensures OnLevel(ht, Was(ht, b, i, k), k)
  {
    if i > b { assert InsertedHt(ht, b, h)[i] == ht[i - 1]; }
    if 0 <= i < b { assert InsertedHt(ht, b, h)[i] == ht[i]; }
  }

  lemma {:induction false} NextCases(ht: Levels, b: nat, h: nat, i: int, k: nat)
    requires b <= |ht| && OnLevel(InsertedHt(ht, b, h), i, k) && OnLevel(ht, Was(ht, b, i, k), k)
    ensures var j, j' := NextAt(ht, Was(ht, b, i, k) + 1, k), NextAt(InsertedHt(ht, b, h), i + 1, k);
      if h > k && i == PrevAt(ht, b, k) then j' == b else (j < b && j' == j) || (j >= b && j' == j + 1)
  {
    assert i == b ==> h > k;
    var p := PrevAt(ht, b, k);
    if i < b { NextBefore(ht, b, h, i, k); }
    hide NextAt, PrevAt, InsertedHt;
    if i >= b { NextInserted(ht, b, h, i + 1, k); }
    if i == b { PrevNext(ht, b, p, k); }
  }

  lemma {:induction false} NextBefore(ht: Levels, b: nat, h: nat, i: int, k: nat)
    requires i < b <= |ht| && OnLevel(ht, i, k)
    ensures var j, j' := NextAt(ht, i + 1, k), NextAt(InsertedHt(ht, b, h), i + 1, k);
      if h > k && i == PrevAt(ht, b, k) then j' == b else (j < b && j' == j) || (j >= b && j' == j + 1)
  {
    hide NextAt, PrevAt, InsertedHt;
    NextInserted(ht, b, h, i + 1, k);
    PrevNext(ht, b, i, k);
  }

  lemma {:induction false} FollowNext(huge: seq<Block>, ht: Levels, b: nat, x: Block, h: nat, i: int, k: nat)
    requires |ht| == |huge| && b <= |ht| && OnLevel(InsertedHt(ht, b, h), i, k)
    ensures OnLevel(ht, Was(ht, b, i, k), k)
    ensures FollowHuge(Inserted(huge, b, x), NextAt(InsertedHt(ht, b, h), i + 1, k)) ==
      if h > k && i == PrevAt(ht, b, k) then x.pos else FollowHuge(huge, NextAt(ht, Was(ht, b, i, k) + 1, k))
  {
    hide NextAt, PrevAt, Inserted, InsertedHt, FollowHuge, Was;
    WasOnLevel(ht, b, h, i, k);
    NextCases(ht, b, h, i, k);
    FollowInserted(huge, b, x, NextAt(ht, Was(ht, b, i, k) + 1, k));
  }

  lemma InsertLeads(huge: seq<Block>, ht: Levels, b: nat, x: Block, h: nat, head: seq<nat>, m: seq<nat>, k: nat, i: int)
    requires |ht| == |huge| && b <= |huge| && k < LEVELS == |head| && k < h
    requires Apart(Inserted(huge, b, x)) && Room(Inserted(huge, b, x), m) && x.pos + RECORD <= |m|
    requires LevelOk(huge, ht, head, m, k) && OnLevel(InsertedHt(ht, b, h), i, k)
    requires Has(head, m, NodeAt(huge, PrevAt(ht, b, k)), k)
    ensures Leads(Inserted(huge, b, x), InsertedHt(ht, b, h), InsertHead(huge, ht, b, x, head, k),
      InsertMem(huge, ht, b, x, head, m, k), i, k)
  {
    hide LevelOk, Room, Apart, Has, Link, NodeAt, InsertHead, InsertMem, FollowHuge, PrevAt, NextAt, Inserted,
      InsertedHt;
    FollowNext(huge, ht, b, x, h, i, k);
    LeadsAt(huge, ht, head, m, Was(ht, b, i, k), k);
    InsertLinks(huge, ht, b, x, head, m, k, i, k);
    InsertedNode(huge, b, x, i);
    InsertedNode(huge, b, x, PrevAt(ht, b, k));
  }

  lemma PrevHas(huge: seq<Block>, ht: Levels, b: nat, head: seq<nat>, m: seq<nat>, k: nat)
    requires |ht| == |huge| && b <= |huge| && LevelOk(huge, ht, head, m, k)
    ensures Has(head, m, NodeAt(huge, PrevAt(ht, b, k)), k)
  {
    var p := PrevAt(ht, b, k);
    assert OnLevel(ht, p, k);
  }

  /** The level that gets the new block. */
  lemma InsertLevel(huge: seq<Block>, ht: Levels, b: nat, x: Block, h: nat, head: seq<nat>, m: seq<nat>, k: nat)
    requires |ht| == |huge| && b <= |huge| && k < LEVELS == |head| && k < h
    requires Apart(Inserted(huge, b, x)) && Room(Inserted(huge, b, x), m) && x.pos + RECORD <= |m|
    requires LevelOk(huge, ht, head, m, k)
    ensures Has(head, m, NodeAt(huge, PrevAt(ht, b, k)), k)
    ensures LevelOk(Inserted(huge, b, x), InsertedHt(ht, b, h), InsertHead(huge, ht, b, x, head, k),
      InsertMem(huge, ht, b, x, head, m, k), k)
  {
    PrevHas(huge, ht, b, head, m, k);
    hide LevelOk, Room, Apart, Has, Link, InsertHead, InsertMem, Leads, NodeAt, NextAt;
    forall i | OnLevel(InsertedHt(ht, b, h), i, k)
      ensures Leads(Inserted(huge, b, x), InsertedHt(ht, b, h), InsertHead(huge, ht, b, x, head, k),
        InsertMem(huge, ht, b, x, head, m, k), i, k)
    {
      InsertLeads(huge, ht, b, x, h, head, m, k, i);
    }
    LeadsAll(Inserted(huge, b, x), InsertedHt(ht, b, h), InsertHead(huge, ht, b, x, head, k),
      InsertMem(huge, ht, b, x, head, m, k), k);
  }

  /** A level that the new block is too low for stays as it was. */
  lemma InsertAbove(huge: seq<Block>, ht: Levels, b: nat, x: Block, h: nat, head: seq<nat>, m: seq<nat>, k: nat)
    requires |ht| == |huge| && b <= |huge| && h <= k && LevelOk(huge, ht, head, m, k)
    ensures LevelOk(Inserted(huge, b, x), InsertedHt(ht, b, h), head, m, k)
  {
    hide LevelOk, Has, Link, NodeAt, FollowHuge;
    var huge', ht' := Inserted(huge, b, x), InsertedHt(ht, b, h);
    forall i | OnLevel(ht', i, k) ensures Leads(huge', ht', head, m, i, k) {
      AboveLeads(huge, ht, b, x, h, head, m, k, i);
    }
    LeadsAll(huge', ht', head, m, k);
  }

  lemma {:induction false} AboveLeads(huge: seq<Block>, ht: Levels, b: nat, x: Block, h: nat, head: seq<nat>,
                                      m: seq<nat>, k: nat, i: int)
    requires |ht| == |huge| && b <= |huge| && h <= k && LevelOk(huge, ht, head, m, k)
    requires OnLevel(InsertedHt(ht, b, h), i, k)
    ensures Leads(Inserted(huge, b, x), InsertedHt(ht, b, h), head, m, i, k)
  {
    hide LevelOk, Has, Link, NodeAt, FollowHuge, NextAt, PrevAt;
    FollowNext(huge, ht, b, x, h, i, k);
    LeadsAt(huge, ht, head, m, Was(ht, b, i, k), k);
    InsertedNode(huge, b, x, i);
    assert i >= 0 ==> i != b || h > k;
  }

  /** The writes for one level do not concern another. */
  lemma InsertFrame(huge: seq<Block>, ht: Levels, huge1: seq<Block>, ht1: Levels, b: nat, x: Block, head: seq<nat>,
                    m: seq<nat>, k: nat, k': nat)
    requires |ht| == |huge| && b <= |huge| && k < LEVELS == |head| && k' < LEVELS && k != k'
    requires Apart(Inserted(huge, b, x)) && Room(Inserted(huge, b, x), m) && x.pos + RECORD <= |m|
    requires huge1 == huge || huge1 == Inserted(huge, b, x)
    requires |ht1| == |huge1| && LevelOk(huge1, ht1, head, m, k') && Has(head, m, NodeAt(huge, PrevAt(ht, b, k)), k)
    ensures LevelOk(huge1, ht1, InsertHead(huge, ht, b, x, head, k), InsertMem(huge, ht, b, x, head, m, k), k')
  {
    hide LevelOk, Room, Apart, Has, Link, NodeAt, InsertHead, InsertMem, FollowHuge, PrevAt, NextAt;
    var head', m' := InsertHead(huge, ht, b, x, head, k), InsertMem(huge, ht, b, x, head, m, k);
    forall i | OnLevel(ht1, i, k') ensures Leads(huge1, ht1, head', m', i, k') {
      LeadsAt(huge1, ht1, head, m, i, k');
      var i' := if huge1 == huge && |huge1| != |huge| + 1 && i >= b then i + 1 else i;
      InsertedNode(huge, b, x, i');
      InsertLinks(huge, ht, b, x, head, m, k, i', k');
    }
    LeadsAll(huge1, ht1, head', m', k');
  }

  // ------------------------------------------------------------------ removal

  lemma {:induction false} PrevInserted(ht: Levels, b: nat, h: nat, c: nat, k: nat)
    requires c <= b <= |ht|
    ensures PrevAt(InsertedHt(ht, b, h), c, k) == PrevAt(ht, c, k)
  {
    if c > 0 {
      assert InsertedHt(ht, b, h)[c - 1] == ht[c - 1];
      PrevInserted(ht, b, h, c - 1, k);
    }
  }

  lemma PrevOnLevel(ht: Levels, b: nat, k: nat)
    requires b <= |ht|
    ensures OnLevel(ht, PrevAt(ht, b, k), k)
  {
  }

  /** What the links of a level say about the list without block b: the node before it leads to it
      if and only if it is on the level, and then it leads to where that node has to lead. */
  lemma {:induction false} RemoveLeads(huge: seq<Block>, ht: Levels, b: nat, x: Block, h: nat, head: seq<nat>,
                                       m: seq<nat>, k: nat, i: int)
    requires |ht| == |huge| && b <= |huge| && i != b && OnLevel(InsertedHt(ht, b, h), i, k)
    requires LevelOk(Inserted(huge, b, x), InsertedHt(ht, b, h), head, m, k)
    ensures var huge', p := Inserted(huge, b, x), PrevAt(ht, b, k);
      && OnLevel(ht, Was(ht, b, i, k), k) && Has(head, m, NodeAt(huge', i), k)
      && Link(head, m, NodeAt(huge', i), k) ==
           if h > k && i == p then x.pos else FollowHuge(huge, NextAt(ht, Was(ht, b, i, k) + 1, k))
  {
    hide LevelOk, Has, Link, NodeAt, FollowHuge, NextAt, PrevAt, Inserted, InsertedHt, Was;
    FollowNext(huge, ht, b, x, h, i, k);
    LeadsAt(Inserted(huge, b, x), InsertedHt(ht, b, h), head, m, i, k);
  }

  lemma WasNew(ht: Levels, b: nat, h: nat, k: nat)
    requires b <= |ht| && h > k
    ensures Was(ht, b, b, k) == PrevAt(ht, b, k) != b && OnLevel(InsertedHt(ht, b, h), b, k)
  {
  }

  lemma {:induction false} RemoveLink(huge: seq<Block>, ht: Levels, b: nat, x: Block, h: nat, head: seq<nat>,
                                      m: seq<nat>, k: nat)
    requires |ht| == |huge| && b <= |huge| && h > k
    requires LevelOk(Inserted(huge, b, x), InsertedHt(ht, b, h), head, m, k)
    ensures Has(head, m, At(x.pos), k) &&
      Link(head, m, At(x.pos), k) == FollowHuge(huge, NextAt(ht, PrevAt(ht, b, k) + 1, k))
  {
    WasNew(ht, b, h, k);
    hide OnLevel, LevelOk, Has, Link, NodeAt, FollowHuge, NextAt, PrevAt, Inserted, InsertedHt, Was;
    FollowNext(huge, ht, b, x, h, b, k);
    LeadsAt(Inserted(huge, b, x), InsertedHt(ht, b, h), head, m, b, k);
    InsertedNode(huge, b, x, b);
  }

  /** The test by which `alloc` finds the levels of the block it removes. */
  lemma {:induction false} PointsIff(huge: seq<Block>, ht: Levels, b: nat, x: Block, h: nat, head: seq<nat>,
                                     m: seq<nat>, k: nat)
    requires |ht| == |huge| && b <= |huge|
    requires Apart(Inserted(huge, b, x)) && x.pos < TAIL
    requires LevelOk(Inserted(huge, b, x), InsertedHt(ht, b, h), head, m, k)
    ensures var prev := NodeAt(Inserted(huge, b, x), PrevAt(ht, b, k));
      Has(head, m, prev, k) && (Link(head, m, prev, k) == x.pos <==> h > k)
  {
    var p := PrevAt(ht, b, k);
    PrevInserted(ht, b, h, b, k);
    PrevOnLevel(InsertedHt(ht, b, h), b, k);
    RemoveLeads(huge, ht, b, x, h, head, m, k, p);
    var j := NextAt(ht, Was(ht, b, p, k) + 1, k);
    if j < |huge| {
      var j' := if j < b then j else j + 1;
      assert Inserted(huge, b, x)[j'] == huge[j] && Inserted(huge, b, x)[b] == x;
      NodesDistinct(Inserted(huge, b, x), j', b);
    }
  }

  ghost predicate Unlinks(huge: seq<Block>, ht: Levels, b: nat, x: Block, h: nat, head: seq<nat>, m: seq<nat>,
                          head': seq<nat>, m': seq<nat>, k: nat)
    requires |ht| == |huge| && b <= |huge| && k < |head|
  {
    var prev := NodeAt(Inserted(huge, b, x), PrevAt(ht, b, k));
    && Has(head, m, prev, k)
    && (if h > k then
          Has(head, m, At(x.pos), k) && head' == HeadWith(head, prev, k, Link(head, m, At(x.pos), k))
          && m' == MemWith(m, prev, k, Link(head, m, At(x.pos), k))
        else
          head' == head && m' == m)
  }

  lemma UnlinkLinks(huge: seq<Block>, ht: Levels, b: nat, x: Block, h: nat, head: seq<nat>, m: seq<nat>,
                    head': seq<nat>, m': seq<nat>, k: nat, i: int, k': nat)
    requires |ht| == |huge| && b <= |huge| && k < LEVELS == |head| && k' < LEVELS
    requires Apart(Inserted(huge, b, x)) && -1 <= i <= |huge|
    requires Unlinks(huge, ht, b, x, h, head, m, head', m', k)
    requires Has(head, m, NodeAt(Inserted(huge, b, x), i), k')
    ensures var it := NodeAt(Inserted(huge, b, x), i);
      && Has(head', m', it, k')
      && Link(head', m', it, k') ==
           if h > k && k' == k && i == PrevAt(ht, b, k) then Link(head, m, At(x.pos), k) else Link(head, m, it, k')
  {
    hide Has, Link, NodeAt, HeadWith, MemWith, PrevAt, Apart, Distinct;
    var p := PrevAt(ht, b, k);
    var it, prev := NodeAt(Inserted(huge, b, x), i), NodeAt(Inserted(huge, b, x), p);
    if i != p { NodesDistinct(Inserted(huge, b, x), i, p); }
    if h > k { LinkWith(head, m, prev, k, Link(head, m, At(x.pos), k), it, k'); }
  }

  lemma RemoveLevel(huge: seq<Block>, ht: Levels, b: nat, x: Block, h: nat, head: seq<nat>, m: seq<nat>,
                    head': seq<nat>, m': seq<nat>, k: nat)
    requires |ht| == |huge| && b <= |huge| && k < LEVELS == |head|
    requires Apart(Inserted(huge, b, x))
    requires LevelOk(Inserted(huge, b, x), InsertedHt(ht, b, h), head, m, k)
    requires Unlinks(huge, ht, b, x, h, head, m, head', m', k)
    ensures LevelOk(huge, ht, head', m', k)
  {
    hide LevelOk, Has, Link, NodeAt, FollowHuge, NextAt, PrevAt, Apart, Unlinks;
    forall i | OnLevel(ht, i, k) ensures Leads(huge, ht, head', m', i, k) {
      var i' := if i < b then i else i + 1;
      assert OnLevel(InsertedHt(ht, b, h), i', k);
      RemoveLeads(huge, ht, b, x, h, head, m, k, i');
      UnlinkLinks(huge, ht, b, x, h, head, m, head', m', k, i', k);
      InsertedNode(huge, b, x, i');
      if h > k { RemoveLink(huge, ht, b, x, h, head, m, k); }
    }
    LeadsAll(huge, ht, head', m', k);
  }

  /** The write for one level does not concern another. */
  lemma UnlinkFrame(huge: seq<Block>, ht: Levels, b: nat, x: Block, h: nat, head: seq<nat>, m: seq<nat>,
                    head': seq<nat>, m': seq<nat>, k: nat,
                    huge1: seq<Block>, ht1: Levels, k': nat)
    requires |ht| == |huge| && b <= |huge| && k < LEVELS == |head| && k' < LEVELS && k' != k
    requires Apart(Inserted(huge, b, x)) && Unlinks(huge, ht, b, x, h, head, m, head', m', k)
    requires huge1 == huge || huge1 == Inserted(huge, b, x)
    requires |ht1| == |huge1| && LevelOk(huge1, ht1, head, m, k')
    ensures LevelOk(huge1, ht1, head', m', k')
  {
    hide LevelOk, Has, Link, NodeAt, FollowHuge, NextAt, PrevAt, Apart, Unlinks;
    forall i | OnLevel(ht1, i, k') ensures Leads(huge1, ht1, head', m', i, k') {
      LeadsAt(huge1, ht1, head, m, i, k');
      var i' := if huge1 == huge && i >= b then i + 1 else i;
      InsertedNode(huge, b, x, i');
      UnlinkLinks(huge, ht, b, x, h, head, m, head', m', k, i', k');
    }
    LeadsAll(huge1, ht1, head', m', k');
  }

  // ------------------------------------------------------------------ the search

  lemma LinkedLevel(huge: seq<Block>, ht: Levels, head: seq<nat>, height: nat, m: seq<nat>, k: nat)
    requires Linked(huge, ht, head, height, m) && k < LEVELS
    ensures LevelOk(huge, ht, head, m, k)
  {
  }

  lemma PrevUnique(ht: Levels, b: nat, k: nat, i: int)
    requires b <= |ht| && -1 <= i < b && OnLevel(ht, i, k) && forall x :: i < x < b ==> ht[x] <= k
    ensures PrevAt(ht, b, k) == i
  {
  }

  /** What a search at node i of level k sees. */
  lemma {:induction false} SearchStep(huge: seq<Block>, ht: Levels, head: seq<nat>, height: nat, m: seq<nat>, len: nat,
                                      i: int, k: nat)
    requires Linked(huge, ht, head, height, m) && k < height && OnLevel(ht, i, k) && i < Below(huge, len)
    ensures var x, j, b := NodeAt(huge, i), NextAt(ht, i + 1, k), Below(huge, len);
      && Has(head, m, x, k)
      && (Link(head, m, x, k) != TAIL ==>
            && j < |huge| && Link(head, m, x, k) == huge[j].pos < |m| && m[huge[j].pos] == huge[j].len
            && (huge[j].len < len ==> j < b && OnLevel(ht, j, k)))
      && (Link(head, m, x, k) == TAIL ==> j == |huge|)
      && ((Link(head, m, x, k) == TAIL || huge[j].len >= len) ==> PrevAt(ht, b, k) == i && j >= b)
  {
    var b, j := Below(huge, len), NextAt(ht, i + 1, k);
    LinkedLevel(huge, ht, head, height, m, k);
    LeadsAt(huge, ht, head, m, i, k);
    hide LevelOk, NextAt, PrevAt;
    assert j < |huge| ==> huge[j].pos < TAIL;
    if j < |huge| { AfterBelow(huge, len, j); }
    if j >= b { PrevUnique(ht, b, k, i); }
  }

  lemma BottomNext(ht: Levels, b: nat)
    requires b <= |ht| && forall i :: 0 <= i < |ht| ==> ht[i] >= 1
    ensures PrevAt(ht, b, 0) == b - 1 && NextAt(ht, b, 0) == b
  {
  }

  // ------------------------------------------------------------------ all levels

  /** The word is in no record. */
  ghost predicate Off(huge: seq<Block>, w: int) {
    forall i {:trigger huge[i]} :: 0 <= i < |huge| ==> !(huge[i].pos <= w < huge[i].pos + RECORD)
  }

  /** Only links have been written. */
  ghost predicate LinkWrites(huge: seq<Block>, m: seq<nat>, m': seq<nat>) {
    && |m'| == |m|
    && (forall w :: 0 <= w < |m| && Off(huge, w) ==> m'[w] == m[w])
    && (forall i {:trigger huge[i]} :: 0 <= i < |huge| && huge[i].pos < |m| ==> m'[huge[i].pos] == m[huge[i].pos])
  }

  lemma LinkWrite(huge: seq<Block>, m: seq<nat>, i: nat, k: nat, v: nat)
    requires Apart(huge) && i < |huge| && huge[i].pos + RECORD <= |m| && k < LEVELS
    ensures LinkWrites(huge, m, MemWith(m, At(huge[i].pos), k, v))
  {
    var w := huge[i].pos + 1 + k;
    assert !Off(huge, w);
    forall j | 0 <= j < |huge| && huge[j].pos < |m| ensures huge[j].pos != w {
      if j < i { assert huge[j].pos + RECORD <= huge[i].pos || huge[i].pos + RECORD <= huge[j].pos; }
      if i < j { assert huge[i].pos + RECORD <= huge[j].pos || huge[j].pos + RECORD <= huge[i].pos; }
    }
  }

  lemma NodeWrite(huge: seq<Block>, m: seq<nat>, i: int, k: nat, v: nat)
    requires Apart(huge) && -1 <= i < |huge| && Room(huge, m) && k < LEVELS
    ensures LinkWrites(huge, m, MemWith(m, NodeAt(huge, i), k, v))
  {
    if i >= 0 { LinkWrite(huge, m, i, k, v); }
  }

  lemma InsertWrites(huge: seq<Block>, ht: Levels, b: nat, x: Block, head: seq<nat>, m: seq<nat>, k: nat)
    requires |ht| == |huge| && b <= |huge| && k < LEVELS == |head|
    requires Apart(Inserted(huge, b, x)) && Room(Inserted(huge, b, x), m) && x.pos + RECORD <= |m|
    requires Has(head, m, NodeAt(huge, PrevAt(ht, b, k)), k)
    ensures LinkWrites(Inserted(huge, b, x), m, InsertMem(huge, ht, b, x, head, m, k))
  {
    hide Apart, Room, Has, Link, PrevAt, NodeAt, LinkWrites, MemWith, Off;
    var p := PrevAt(ht, b, k);
    InsertedNode(huge, b, x, b);
    InsertedNode(huge, b, x, p);
    var prev := NodeAt(huge, p);
    var m1 := MemWith(m, At(x.pos), k, Link(head, m, prev, k));
    NodeWrite(Inserted(huge, b, x), m, b, k, Link(head, m, prev, k));
    assert Room(Inserted(huge, b, x), m1) by { RoomSame(Inserted(huge, b, x), m, m1); }
    NodeWrite(Inserted(huge, b, x), m1, p, k, x.pos);
    WritesTransitive(Inserted(huge, b, x), m, m1, InsertMem(huge, ht, b, x, head, m, k));
  }

  lemma RoomSame(huge: seq<Block>, m: seq<nat>, m': seq<nat>)
    requires Room(huge, m) && |m'| == |m|
    ensures Room(huge, m')
  {
  }

  lemma WritesTransitive(huge: seq<Block>, m: seq<nat>, m1: seq<nat>, m2: seq<nat>)
    requires LinkWrites(huge, m, m1) && LinkWrites(huge, m1, m2)
    ensures LinkWrites(huge, m, m2)
  {
  }

  /** The levels from j on have the block, as far up as it reaches; those below j do not. */
  ghost predicate OnFrom(huge: seq<Block>, ht: Levels, b: nat, x: Block, h: nat, head: seq<nat>, m: seq<nat>, j: nat)
    requires |ht| == |huge| && b <= |huge|
  {
    forall k: nat {:trigger LevelOk(huge, ht, head, m, k)}
                  {:trigger LevelOk(Inserted(huge, b, x), InsertedHt(ht, b, h), head, m, k)} :: k < LEVELS ==>
      if k < j then LevelOk(huge, ht, head, m, k) else LevelOk(Inserted(huge, b, x), InsertedHt(ht, b, h), head, m, k)
  }

  lemma InsertStart(huge: seq<Block>, ht: Levels, b: nat, x: Block, h: nat, head: seq<nat>, height: nat, m: seq<nat>)
    requires Linked(huge, ht, head, height, m) && b <= |huge|
    ensures OnFrom(huge, ht, b, x, h, head, m, h)
  {
    hide LevelOk;
    forall k: nat | k < LEVELS
      ensures if k < h then LevelOk(huge, ht, head, m, k)
        else LevelOk(Inserted(huge, b, x), InsertedHt(ht, b, h), head, m, k)
    {
      if k >= h { InsertAbove(huge, ht, b, x, h, head, m, k); }
    }
  }

  lemma InsertStep(huge: seq<Block>, ht: Levels, b: nat, x: Block, h: nat, head: seq<nat>, m: seq<nat>, k: nat)
    requires |ht| == |huge| && b <= |huge| && k < h <= LEVELS == |head|
    requires Apart(Inserted(huge, b, x)) && Room(Inserted(huge, b, x), m) && x.pos + RECORD <= |m|
    requires OnFrom(huge, ht, b, x, h, head, m, k + 1)
    ensures Has(head, m, NodeAt(huge, PrevAt(ht, b, k)), k)
    ensures OnFrom(huge, ht, b, x, h, InsertHead(huge, ht, b, x, head, k), InsertMem(huge, ht, b, x, head, m, k), k)
  {
    hide LevelOk, Apart, Room, Has, InsertHead, InsertMem, NodeAt, PrevAt;
    assert LevelOk(huge, ht, head, m, k);
    InsertLevel(huge, ht, b, x, h, head, m, k);
    var head', m' := InsertHead(huge, ht, b, x, head, k), InsertMem(huge, ht, b, x, head, m, k);
    forall l: nat | l < LEVELS
      ensures if l < k then LevelOk(huge, ht, head', m', l)
        else LevelOk(Inserted(huge, b, x), InsertedHt(ht, b, h), head', m', l)
    {
      if l < k {
        assert LevelOk(huge, ht, head, m, l);
        InsertFrame(huge, ht, huge, ht, b, x, head, m, k, l);
      } else if l > k {
        assert LevelOk(Inserted(huge, b, x), InsertedHt(ht, b, h), head, m, l);
        InsertFrame(huge, ht, Inserted(huge, b, x), InsertedHt(ht, b, h), b, x, head, m, k, l);
      }
    }
  }

  /** A word that is no link of the list. */
  lemma LengthFrame(huge: seq<Block>, ht: Levels, head: seq<nat>, m: seq<nat>, k: nat, b: nat, v: nat)
    requires |ht| == |huge| && LevelOk(huge, ht, head, m, k) && Apart(huge) && b < |huge| && huge[b].pos < |m| &&
      k < LEVELS
    ensures LevelOk(huge, ht, head, m[huge[b].pos := v], k)
  {
    hide FollowHuge, NextAt;
    forall i | OnLevel(ht, i, k) ensures Leads(huge, ht, head, m[huge[b].pos := v], i, k) {
      LeadsAt(huge, ht, head, m, i, k);
      if i >= 0 && i != b { NodesDistinct(huge, i, b); }
    }
    LeadsAll(huge, ht, head, m[huge[b].pos := v], k);
  }

  ghost predicate Fresh(huge: seq<Block>, b: nat, x: Block, m: seq<nat>) {
    && b == Below(huge, x.len)
    && Apart(Inserted(huge, b, x)) && x.pos + RECORD <= |m| && x.pos < TAIL
  }

  lemma HeightsInserted(ht: Levels, height: nat, b: nat, k: nat)
    requires Heights(ht, height) && b <= |ht| && k <= height && k < LEVELS
    ensures Heights(InsertedHt(ht, b, k + 1), if k == height then height + 1 else height)
  {
    var ht' := InsertedHt(ht, b, k + 1);
    if k == height {
      assert ht'[b] == height + 1;
    } else {
      var i :| 0 <= i < |ht| && ht[i] == height;
      assert ht'[if i < b then i else i + 1] == height;
    }
  }

  lemma OrderedInserted(huge: seq<Block>, x: Block)
    requires Ordered(huge)
    ensures Ordered(Inserted(huge, Below(huge, x.len), x))
  {
    var b := Below(huge, x.len);
    forall i: nat | i < |huge| ensures huge[i].len < x.len <==> i < b { AfterBelow(huge, x.len, i); }
  }

  lemma InsertEnd(huge: seq<Block>, ht: Levels, head0: seq<nat>, height: nat, m0: seq<nat>, b: nat, x: Block, k: nat,
                  head: seq<nat>, m: seq<nat>)
    requires Linked(huge, ht, head0, height, m0) && Fresh(huge, b, x, m0) && k <= height && k < LEVELS &&
      |head| == LEVELS
    requires OnFrom(huge, ht, b, x, k + 1, head, m, 0) && LinkWrites(Inserted(huge, b, x), m0, m)
    ensures Linked(Inserted(huge, b, x), InsertedHt(ht, b, k + 1), head,
                   if k == height then height + 1 else height, m[x.pos := x.len])
  {
    hide LevelOk, Heights, Ordered, Below, Off;
    var huge', ht' := Inserted(huge, b, x), InsertedHt(ht, b, k + 1);
    HeightsInserted(ht, height, b, k);
    OrderedInserted(huge, x);
    assert huge'[b] == x;
    var m' := m[x.pos := x.len];
    forall l: nat | l < LEVELS ensures LevelOk(huge', ht', head, m', l) {
      assert LevelOk(huge', ht', head, m, l);
      LengthFrame(huge', ht', head, m, l, b, x.len);
    }
    RecordsInserted(huge, m0, m, b, x);
  }

  lemma RecordsInserted(huge: seq<Block>, m0: seq<nat>, m: seq<nat>, b: nat, x: Block)
    requires Records(huge, m0) && Fresh(huge, b, x, m0) && LinkWrites(Inserted(huge, b, x), m0, m)
    ensures Records(Inserted(huge, b, x), m[x.pos := x.len])
  {
    var huge', m' := Inserted(huge, b, x), m[x.pos := x.len];
    forall i | 0 <= i < |huge'|
      ensures huge'[i].pos + RECORD <= |m'| && huge'[i].pos < TAIL && m'[huge'[i].pos] == huge'[i].len
    {
      if i != b {
        NodesDistinct(huge', i, b);
        assert huge'[i] == huge[if i < b then i else i - 1];
      }
    }
  }

  // ------------------------------------------------------------------ and removal from all levels

  lemma RemoveStep(huge: seq<Block>, ht: Levels, b: nat, x: Block, h: nat, head: seq<nat>, m: seq<nat>,
                   head': seq<nat>, m': seq<nat>, k: nat)
    requires |ht| == |huge| && b <= |huge| && k < LEVELS == |head|
    requires Apart(Inserted(huge, b, x))
    requires OnFrom(huge, ht, b, x, h, head, m, k)
    requires Unlinks(huge, ht, b, x, h, head, m, head', m', k)
    ensures OnFrom(huge, ht, b, x, h, head', m', k + 1)
  {
    hide LevelOk, Apart, Unlinks;
    assert LevelOk(Inserted(huge, b, x), InsertedHt(ht, b, h), head, m, k);
    RemoveLevel(huge, ht, b, x, h, head, m, head', m', k);
    forall l: nat | l < LEVELS
      ensures if l < k + 1 then LevelOk(huge, ht, head', m', l)
        else LevelOk(Inserted(huge, b, x), InsertedHt(ht, b, h), head', m', l)
    {
      if l < k {
        assert LevelOk(huge, ht, head, m, l);
        UnlinkFrame(huge, ht, b, x, h, head, m, head', m', k, huge, ht, l);
      } else if l > k {
        assert LevelOk(Inserted(huge, b, x), InsertedHt(ht, b, h), head, m, l);
        UnlinkFrame(huge, ht, b, x, h, head, m, head', m', k, Inserted(huge, b, x), InsertedHt(ht, b, h), l);
      }
    }
  }

  lemma UnlinkWrites(huge: seq<Block>, ht: Levels, b: nat, x: Block, h: nat, head: seq<nat>, m: seq<nat>,
                     head': seq<nat>, m': seq<nat>, k: nat)
    requires |ht| == |huge| && b <= |huge| && k < LEVELS == |head|
    requires Apart(Inserted(huge, b, x)) && Room(Inserted(huge, b, x), m)
    requires Unlinks(huge, ht, b, x, h, head, m, head', m', k)
    ensures LinkWrites(Inserted(huge, b, x), m, m') && |head'| == |head|
  {
    hide Apart, Room, LinkWrites, PrevAt, Has, Link;
    if h > k {
      NodeWrite(Inserted(huge, b, x), m, PrevAt(ht, b, k), k, Link(head, m, At(x.pos), k));
    } else {
      NothingWritten(Inserted(huge, b, x), m);
    }
  }

  lemma NothingWritten(huge: seq<Block>, m: seq<nat>)
    ensures LinkWrites(huge, m, m)
  {
  }

  /** A top level without blocks. */
  lemma TopEmpty(huge: seq<Block>, ht: Levels, head: seq<nat>, m: seq<nat>, height: nat)
    requires |ht| == |huge| && 0 < height <= LEVELS && LevelOk(huge, ht, head, m, height - 1)
    requires forall i :: 0 <= i < |ht| ==> 1 <= ht[i] <= height
    requires forall i :: 0 <= i < |huge| ==> huge[i].pos < TAIL
    ensures height - 1 < |head|
    ensures head[height - 1] == TAIL ==> forall i :: 0 <= i < |ht| ==> ht[i] <= height - 1
    ensures head[height - 1] != TAIL ==> exists i :: 0 <= i < |ht| && ht[i] == height
  {
    LeadsAt(huge, ht, head, m, -1, height - 1);
    var j := NextAt(ht, 0, height - 1);
    if j < |ht| { assert ht[j] == height; }
  }

  lemma RecordsRemoved(huge: seq<Block>, b: nat, x: Block, m0: seq<nat>, m: seq<nat>)
    requires b <= |huge| && Records(Inserted(huge, b, x), m0) && LinkWrites(Inserted(huge, b, x), m0, m)
    ensures Records(huge, m)
  {
    var huge' := Inserted(huge, b, x);
    forall i | 0 <= i < |huge|
      ensures huge[i].pos + RECORD <= |m| && huge[i].pos < TAIL &&
        m[huge[i].pos] == huge[i].len
    {
      var i' := if i < b then i else i + 1;
      assert huge'[i'] == huge[i];
    }
  }

  lemma OrderedRemoved(huge: seq<Block>, b: nat, x: Block)
    requires b <= |huge| && Ordered(Inserted(huge, b, x))
    ensures Ordered(huge)
  {
    var huge' := Inserted(huge, b, x);
    forall i, j | 0 <= i <= j < |huge| ensures huge[i].len <= huge[j].len {
      assert huge'[if i < b then i else i + 1].len <= huge'[if j < b then j else j + 1].len;
    }
  }

  lemma RoomInserted(huge: seq<Block>, b: nat, x: Block, m: seq<nat>)
    requires Records(huge, m) && b <= |huge| && x.pos + RECORD <= |m|
    ensures Room(Inserted(huge, b, x), m)
  {
  }

  lemma WithoutInserted(huge: seq<Block>, ht: Levels, b: nat)
    requires |ht| == |huge| && b < |huge|
    ensures Inserted(huge[..b] + huge[b + 1..], b, huge[b]) == huge
    ensures InsertedHt(ht[..b] + ht[b + 1..], b, ht[b]) == ht
  {
    var huge0, ht0 := huge[..b] + huge[b + 1..], ht[..b] + ht[b + 1..];
    forall i | 0 <= i < |huge|
      ensures Inserted(huge0, b, huge[b])[i] == huge[i] &&
        InsertedHt(ht0, b, ht[b])[i] == ht[i]
    {
    }
  }

  /** Linked, but for empty top levels. */
  ghost predicate Loose(huge: seq<Block>, ht: Levels, head: seq<nat>, height: nat, m: seq<nat>) {
    && |ht| == |huge| && |head| == LEVELS && height <= LEVELS
    && Ordered(huge) && Records(huge, m)
    && (forall i :: 0 <= i < |ht| ==> 1 <= ht[i] <= height)
    && (forall k: nat :: k < LEVELS ==> LevelOk(huge, ht, head, m, k))
  }

  lemma RemoveStart(huge: seq<Block>, ht: Levels, b: nat, x: Block, h: nat, head: seq<nat>, height: nat, m: seq<nat>)
    requires |ht| == |huge| && b <= |huge| && Linked(Inserted(huge, b, x), InsertedHt(ht, b, h), head, height, m)
    ensures OnFrom(huge, ht, b, x, h, head, m, 0)
    ensures x.pos < TAIL && h <= height
  {
    hide LevelOk;
    assert Inserted(huge, b, x)[b] == x && InsertedHt(ht, b, h)[b] == h;
  }

  /** The test for level k, and what the node before the block is. */
  lemma RemoveTest(huge: seq<Block>, ht: Levels, b: nat, x: Block, h: nat, head: seq<nat>, m: seq<nat>, k: nat)
    requires |ht| == |huge| && b <= |huge| && k < LEVELS
    requires OnFrom(huge, ht, b, x, h, head, m, k) && Apart(Inserted(huge, b, x)) && x.pos < TAIL
    ensures PrevAt(InsertedHt(ht, b, h), b, k) == PrevAt(ht, b, k)
    ensures var prev := NodeAt(Inserted(huge, b, x), PrevAt(ht, b, k));
      Has(head, m, prev, k) && (Link(head, m, prev, k) == x.pos <==> h > k)
    ensures h > k ==> Has(head, m, At(x.pos), k)
  {
    hide LevelOk, Apart, Has, Link;
    assert LevelOk(Inserted(huge, b, x), InsertedHt(ht, b, h), head, m, k);
    PrevInserted(ht, b, h, b, k);
    PointsIff(huge, ht, b, x, h, head, m, k);
    if h > k { RemoveLink(huge, ht, b, x, h, head, m, k); }
  }

  lemma RemoveHigh(huge: seq<Block>, ht: Levels, b: nat, x: Block, h: nat, head: seq<nat>, m: seq<nat>, j: nat)
    requires |ht| == |huge| && b <= |huge| && |head| == LEVELS
    requires OnFrom(huge, ht, b, x, h, head, m, j) && Apart(Inserted(huge, b, x)) && x.pos < TAIL && h <= j
    ensures forall k: nat :: k < LEVELS ==> LevelOk(huge, ht, head, m, k)
  {
    hide LevelOk, Apart;
    forall k: nat | k < LEVELS ensures LevelOk(huge, ht, head, m, k) {
      if k >= j {
        assert LevelOk(Inserted(huge, b, x), InsertedHt(ht, b, h), head, m, k);
        PointsIff(huge, ht, b, x, h, head, m, k);
        RemoveLevel(huge, ht, b, x, h, head, m, head, m, k);
      } else {
        assert k < j;
      }
    }
  }

  lemma RemoveEnd(huge: seq<Block>, ht: Levels, b: nat, x: Block, h: nat, head0: seq<nat>, height: nat, m0: seq<nat>,
                  head: seq<nat>, m: seq<nat>)
    requires |ht| == |huge| && b <= |huge| && Linked(Inserted(huge, b, x), InsertedHt(ht, b, h), head0, height, m0)
    requires |head| == LEVELS && OnFrom(huge, ht, b, x, h, head, m, height) && Apart(Inserted(huge, b, x)) &&
      x.pos < TAIL && h <= height
    requires LinkWrites(Inserted(huge, b, x), m0, m)
    ensures Loose(huge, ht, head, height, m)
  {
    hide LevelOk, Apart, OnFrom, LinkWrites, Ordered, Records;
    RemoveHigh(huge, ht, b, x, h, head, m, height);
    RecordsRemoved(huge, b, x, m0, m);
    OrderedRemoved(huge, b, x);
    forall i | 0 <= i < |ht| ensures 1 <= ht[i] <= height {
      assert InsertedHt(ht, b, h)[if i < b then i else i + 1] == ht[i];
    }
  }

  lemma LooseTop(huge: seq<Block>, ht: Levels, head: seq<nat>, height: nat, m: seq<nat>)
    requires Loose(huge, ht, head, height, m)
    ensures |head| == LEVELS && height <= LEVELS
    ensures height > 0 && head[height - 1] == TAIL ==> Loose(huge, ht, head, height - 1, m)
    ensures height > 0 && head[height - 1] != TAIL ==> Linked(huge, ht, head, height, m)
    ensures height == 0 ==> Linked(huge, ht, head, height, m)
  {
    hide LevelOk;
    if height > 0 {
      assert LevelOk(huge, ht, head, m, height - 1);
      TopEmpty(huge, ht, head, m, height);
    }
  }

  // ------------------------------------------------------------------ what a level is

  /** The blocks of a level, from block i on. */
  ghost function OnLevels(huge: seq<Block>, ht: Levels, i: nat, k: nat): (r: seq<Block>)
    requires |ht| == |huge| && i <= |huge|
    decreases |huge| - i
  {
    if i == |huge| then [] else (if ht[i] > k then [huge[i]] else []) + OnLevels(huge, ht, i + 1, k)
  }

  /** The links of a level lead from a node through exactly these blocks. */
  ghost predicate Path(head: seq<nat>, m: seq<nat>, x: Node, k: nat, l: seq<Block>)
    decreases |l|
  {
    Has(head, m, x, k) && if l == [] then Link(head, m, x, k) == TAIL
    else Link(head, m, x, k) == l[0].pos && Path(head, m, At(l[0].pos), k, l[1..])
  }

  lemma Unfolded(huge: seq<Block>, ht: Levels, i: nat, k: nat)
    requires |ht| == |huge| && i < |huge|
    ensures OnLevels(huge, ht, i, k) == if ht[i] > k then [huge[i]] + OnLevels(huge, ht, i + 1, k)
      else OnLevels(huge, ht, i + 1, k)
  {
    assert [] + OnLevels(huge, ht, i + 1, k) == OnLevels(huge, ht, i + 1, k);
  }

  lemma {:induction false} SkipTo(huge: seq<Block>, ht: Levels, i: nat, k: nat)
    requires |ht| == |huge| && i <= |huge|
    ensures var j := NextAt(ht, i, k);
      OnLevels(huge, ht, i, k) == if j == |huge| then [] else [huge[j]] + OnLevels(huge, ht, j + 1, k)
    decreases |huge| - i
  {
    if i < |huge| {
      Unfolded(huge, ht, i, k);
      hide OnLevels;
      if ht[i] <= k { SkipTo(huge, ht, i + 1, k); }
    }
  }

  /** Following the links of level k finds the blocks of level k, all of them, in order. */
  lemma {:induction false} LevelPath(huge: seq<Block>, ht: Levels, head: seq<nat>, height: nat, m: seq<nat>, i: int,
                                     k: nat)
    requires Linked(huge, ht, head, height, m) && k < LEVELS && OnLevel(ht, i, k)
    ensures Path(head, m, NodeAt(huge, i), k, OnLevels(huge, ht, i + 1, k))
    decreases |huge| - i
  {
    LinkedLevel(huge, ht, head, height, m, k);
    hide Linked, LevelOk, Has, Link, NextAt, OnLevels;
    var j, l := NextAt(ht, i + 1, k), OnLevels(huge, ht, i + 1, k);
    LeadsAt(huge, ht, head, m, i, k);
    SkipTo(huge, ht, i + 1, k);
    if j < |huge| {
      LevelPath(huge, ht, head, height, m, j, k);
      assert l[1..] == OnLevels(huge, ht, j + 1, k);
    }
  }

  ghost predicate Sublist(a: seq<Block>, b: seq<Block>)
    decreases |b|
  {
    a == [] || (b != [] && ((a[0] == b[0] && Sublist(a[1..], b[1..])) || Sublist(a, b[1..])))
  }

  lemma {:induction false} SublistCons(a: seq<Block>, b: seq<Block>, x: Block)
    requires Sublist(a, b)
    ensures Sublist(a, [x] + b) && Sublist([x] + a, [x] + b)
  {
    assert ([x] + b)[1..] == b && ([x] + a)[1..] == a;
  }

  /** Each level is part of the level below it. */
  lemma {:induction false} LevelThins(huge: seq<Block>, ht: Levels, i: nat, k: nat)
    requires |ht| == |huge| && i <= |huge|
    ensures Sublist(OnLevels(huge, ht, i, k + 1), OnLevels(huge, ht, i, k))
    decreases |huge| - i
  {
    if i < |huge| {
      LevelThins(huge, ht, i + 1, k);
      SublistCons(OnLevels(huge, ht, i + 1, k + 1), OnLevels(huge, ht, i + 1, k), huge[i]);
      Unfolded(huge, ht, i, k);
      Unfolded(huge, ht, i, k + 1);
      hide OnLevels, Sublist;
    }
  }

  /** Each level is in order of length. */
  lemma {:induction false} LevelOrdered(huge: seq<Block>, ht: Levels, i: nat, k: nat)
    requires |ht| == |huge| && i <= |huge| && Ordered(huge)
    ensures Ordered(OnLevels(huge, ht, i, k))
    ensures forall y :: y in OnLevels(huge, ht, i, k) ==> i < |huge| && huge[i].len <= y.len
    decreases |huge| - i
  {
    if i < |huge| {
      LevelOrdered(huge, ht, i + 1, k);
      Unfolded(huge, ht, i, k);
    }
  }

  /** Level 0 is the whole list. */
  lemma {:induction false} LevelZero(huge: seq<Block>, ht: Levels, i: nat)
    requires |ht| == |huge| && i <= |huge| && forall x :: 0 <= x < |ht| ==> ht[x] >= 1
    ensures OnLevels(huge, ht, i, 0) == huge[i..]
    decreases |huge| - i
  {
    if i < |huge| { LevelZero(huge, ht, i + 1); }
  }
}
