/** Lists whose links are entries of a table: `m[x]` is what follows x. */
module LinkedLists {

  // marks the end of a list; larger than any index
  const TAIL: nat := 0xFFFF_FFFF

  ghost function Follow(l: seq<nat>, i: nat): nat {
    if i < |l| then l[i] else TAIL
  }

  /** From `head`, the links lead through the list. */
  ghost predicate FastChain(l: seq<nat>, head: nat, m: seq<nat>) {
    && head == Follow(l, 0)
    && (forall i :: 0 <= i < |l| ==> l[i] < |m|)
    && (forall i {:trigger m[l[i]]} :: 0 <= i < |l| ==> m[l[i]] == Follow(l, i + 1))
  }

  ghost predicate Chains(fast: seq<seq<nat>>, heads: seq<nat>, m: seq<nat>) {
    |heads| == |fast| && forall i :: 0 <= i < |fast| ==> FastChain(fast[i], heads[i], m)
  }

  lemma FastFrame(l: seq<nat>, head: nat, m: seq<nat>, m': seq<nat>)
    requires FastChain(l, head, m) && |m'| == |m| && forall i :: 0 <= i < |l| && l[i] < |m| ==> m'[l[i]] == m[l[i]]
    ensures FastChain(l, head, m')
  {
  }

  lemma FastCons(l: seq<nat>, head: nat, m: seq<nat>, pos: nat)
    requires FastChain(l, head, m) && pos < |m| && m[pos] == head
    ensures FastChain([pos] + l, pos, m)
  {
    forall i | 0 <= i < |[pos] + l| ensures ([pos] + l)[i] < |m| && m[([pos] + l)[i]] == Follow([pos] + l, i + 1) {
      if i > 0 { assert m[l[i - 1]] == Follow(l, i); }
    }
  }

  lemma FastTail(l: seq<nat>, head: nat, m: seq<nat>)
    requires FastChain(l, head, m) && l != []
    ensures head == l[0] < |m| && FastChain(l[1..], m[head], m)
  {
    assert m[l[0]] == Follow(l, 1);
    forall i | 0 <= i < |l[1..]| ensures l[1..][i] < |m| && m[l[1..][i]] == Follow(l[1..], i + 1) {
      assert m[l[i + 1]] == Follow(l, i + 2);
    }
  }
}
