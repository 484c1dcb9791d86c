/** The four node layouts of the adaptive radix tree (3rdparty/libart/art.c) and the
    edits that add, find and remove one child.  A node's physical arrays are tied to one
    ghost map, `kids`, from the next key byte to the child below it; every layout edit is
    specified by what it does to `kids`, so the tree above never looks at a layout. */
module ArtNodes {

  type Byte = b: int | 0 <= b < 256
  type Key = seq<Byte>
  // The opaque word (void*) a caller stores under a key.
  type Value = int

  const MAX_PREFIX_LEN: nat := 10

  datatype Option<+T> = None | Some(value: T)
  datatype Kind = Leaf | Node4 | Node16 | Node48 | Node256

  function Min(a: int, b: int): int { if a < b then a else b }

  /** `memmove(s+idx+1, s+idx, n-idx); s[idx] = x` on a buffer with `n` live entries. */
  function InsertAt<T>(s: seq<T>, idx: nat, n: nat, x: T): (r: seq<T>)
    requires idx <= n < |s|
    ensures |r| == |s| && r[idx] == x
    ensures forall j :: 0 <= j < idx ==> r[j] == s[j]
    ensures forall j :: idx < j <= n ==> r[j] == s[j - 1]
    ensures forall j :: n < j < |s| ==> r[j] == s[j]
  {
    seq(|s|, j requires 0 <= j < |s| =>
      if j < idx || n < j then s[j] else if j == idx then x else s[j - 1])
  }

  /** `memmove(s+pos, s+pos+1, n-1-pos)`: the entry at `n-1` stays behind as a stale copy. */
  function RemoveAt<T>(s: seq<T>, pos: nat, n: nat): (r: seq<T>)
    requires pos < n <= |s|
    ensures |r| == |s|
    ensures forall j :: 0 <= j < pos ==> r[j] == s[j]
    ensures forall j :: pos <= j < n - 1 ==> r[j] == s[j + 1]
    ensures forall j :: n - 1 <= j < |s| ==> r[j] == s[j]
  {
    seq(|s|, j requires 0 <= j < |s| => if pos <= j < n - 1 then s[j + 1] else s[j])
  }

  /** The index of the lowest set bit (`__builtin_ctz`), or the width when none is set. */
  method CountTrailingZeros(bits: seq<bool>) returns (i: nat)
    ensures i <= |bits|
    ensures i < |bits| ==> bits[i]
    ensures forall j :: 0 <= j < i ==> !bits[j]
  {
    i := 0;
    while i < |bits| && !bits[i]
      invariant i <= |bits| && forall j :: 0 <= j < i ==> !bits[j]
    {
      i := i + 1;
    }
  }

  /** node4 and node16: the first `num` entries are sorted by key byte and paired. */
  ghost predicate Packed(cap: nat, num: Byte, keys: seq<Byte>, children: seq<Node?>, kids: map<Byte, Node>)
  {
    && |keys| == |children| == cap
    && num as int == |kids| <= cap
    && (forall i, j :: 0 <= i < j < num ==> keys[i] < keys[j])
    && (forall i :: 0 <= i < num ==> keys[i] in kids && children[i] == kids[keys[i]])
  }

  /** The occupied slots of a children array. */
  ghost function Used(children: seq<Node?>): set<nat> {
    set j: nat | j < |children| && children[j] != null
  }

  ghost predicate Slotted(keys: seq<Byte>, children: seq<Node?>, kids: map<Byte, Node>)
    requires |keys| == 256 && |children| == 48
  {
    && (forall b: Byte :: b in kids <==> keys[b] != 0)
    && (forall b: Byte :: b in kids ==> keys[b] <= 48 && children[keys[b] - 1] == kids[b])
    && (forall b: Byte, c: Byte :: b in kids && c in kids && keys[b] == keys[c] ==> b == c)
  }

  /** node48: `keys[b]` is one more than the slot of the child for byte `b`, 0 for none;
      slots and bytes in use are in bijection. */
  ghost predicate Indexed(num: Byte, keys: seq<Byte>, children: seq<Node?>, kids: map<Byte, Node>)
  {
    && |keys| == 256 && |children| == 48
    && num as int == |kids| <= 48
    && Slotted(keys, children, kids)
    && |Used(children)| == |kids|
  }

  /** node256: one slot for each byte; the 8-bit count wraps to 0 when all are in use. */
  ghost predicate Direct(num: Byte, children: seq<Node?>, kids: map<Byte, Node>)
  {
    && |children| == 256
    && num as int == |kids| % 256
    && (forall b: Byte :: b in kids <==> children[b] != null)
    && (forall b: Byte :: b in kids ==> children[b] == kids[b])
  }

  lemma PackedSet(cap: nat, num: Byte, keys: seq<Byte>, children: seq<Node?>, kids: map<Byte, Node>, slot: nat, x: Node)
    requires Packed(cap, num, keys, children, kids) && slot < num
    ensures Packed(cap, num, keys, children[slot := x], kids[keys[slot] := x])
  {
  }

  lemma IndexedSet(num: Byte, keys: seq<Byte>, children: seq<Node?>, kids: map<Byte, Node>, c: Byte, x: Node)
    requires Indexed(num, keys, children, kids) && c in kids
    ensures Indexed(num, keys, children[keys[c] - 1 := x], kids[c := x])
  {
    var children', kids' := children[keys[c] - 1 := x], kids[c := x];
    assert forall b: Byte :: b in kids' <==> b in kids;
    assert Used(children') == Used(children);
  }

  lemma DirectSet(num: Byte, children: seq<Node?>, kids: map<Byte, Node>, c: Byte, x: Node)
    requires Direct(num, children, kids) && c in kids
    ensures Direct(num, children[c := x], kids[c := x])
  {
    assert |kids[c := x]| == |kids|;
  }

  lemma PackedSingle(keys: seq<Byte>, children: seq<Node?>, kids: map<Byte, Node>)
    requires Packed(4, 1, keys, children, kids)
    ensures children[0] != null && kids == map[keys[0] := children[0]]
  {
    forall b | b in kids ensures b == keys[0] { PackedFind(4, 1, keys, children, kids, b); }
  }

  lemma PackedInsert(cap: nat, num: Byte, keys: seq<Byte>, children: seq<Node?>, kids: map<Byte, Node>,
                     idx: nat, c: Byte, x: Node)
    requires Packed(cap, num, keys, children, kids) && num as int < cap < 256
    requires c !in kids && idx <= num
    requires forall j :: 0 <= j < idx ==> !(c < keys[j])
    requires idx < num ==> c < keys[idx]
    ensures Packed(cap, num + 1, InsertAt(keys, idx, num, c), InsertAt(children, idx, num, x), kids[c := x])
  {
    var keys' := InsertAt(keys, idx, num, c);
    forall i, j | 0 <= i < j < num + 1 ensures keys'[i] < keys'[j] {
      var i', j' := if i < idx then i else i - 1, if j < idx then j else j - 1;
      if i == idx {
        assert idx <= j' && keys[idx] <= keys[j'];
      } else if j == idx {
        assert keys[i'] in kids;
      } else {
        assert keys[i'] < keys[j'];
      }
    }
  }

  lemma PackedAppend(cap: nat, num: Byte, keys: seq<Byte>, children: seq<Node?>, kids: map<Byte, Node>, c: Byte,
                     x: Node)
    requires Packed(cap, num, keys, children, kids) && num as int < cap < 256
    requires forall b :: b in kids ==> b < c
    ensures Packed(cap, num + 1, keys[num := c], children[num := x], kids[c := x])
  {
  }

  /** The children for bytes below `n`. */
  ghost function Below(kids: map<Byte, Node>, n: nat): map<Byte, Node> {
    map b | b in kids && b < n :: kids[b]
  }

  lemma BelowStep(kids: map<Byte, Node>, i: Byte)
    ensures i in kids ==> Below(kids, i + 1) == Below(kids, i)[i := kids[i]] && |Below(kids, i)| < |kids|
    ensures i !in kids ==> Below(kids, i + 1) == Below(kids, i)
  {
    if i in kids {
      CardLe(Below(kids, i).Keys + {i}, kids.Keys);
    }
  }

  /** Sorted, in `kids` and as many: the live entries are all of `kids`. */
  lemma PackedFind(cap: nat, num: Byte, keys: seq<Byte>, children: seq<Node?>, kids: map<Byte, Node>, b: Byte)
    requires Packed(cap, num, keys, children, kids) && b in kids
    ensures exists i :: 0 <= i < num && keys[i] == b
  {
    var s := KeySet(keys, num);
    if b !in s {
      CardLe(s + {b}, kids.Keys);
    }
  }

  lemma FirstPacked(cap: nat, num: Byte, keys: seq<Byte>, children: seq<Node?>, kids: map<Byte, Node>)
    requires Packed(cap, num, keys, children, kids) && num > 0
    ensures forall b :: b in kids ==> keys[0] <= b
  {
    forall b | b in kids ensures keys[0] <= b {
      PackedFind(cap, num, keys, children, kids, b);
    }
  }

  ghost function KeySet(keys: seq<Byte>, num: nat): (s: set<Byte>)
    requires num <= |keys|
    requires forall i, j :: 0 <= i < j < num ==> keys[i] < keys[j]
    ensures |s| == num
    ensures forall b :: b in s ==> exists i :: 0 <= i < num && keys[i] == b
  {
    if num == 0 then {} else KeySet(keys, num - 1) + {keys[num - 1]}
  }

  lemma PackedCopy(cap: nat, cap': nat, num: Byte, keys: seq<Byte>, children: seq<Node?>, kids: map<Byte, Node>,
                   keys': seq<Byte>, children': seq<Node?>)
    requires Packed(cap, num, keys, children, kids)
    requires num as int <= cap' == |keys'| == |children'|
    requires forall i :: 0 <= i < num ==> keys'[i] == keys[i] && children'[i] == children[i]
    ensures Packed(cap', num, keys', children', kids)
  {
  }

  lemma Without(kids: map<Byte, Node>, c: Byte)
    requires c in kids
    ensures |kids - {c}| == |kids| - 1
  {
    assert (kids - {c}).Keys == kids.Keys - {c};
  }

  lemma PackedRemove(cap: nat, num: Byte, keys: seq<Byte>, children: seq<Node?>, kids: map<Byte, Node>, pos: nat)
    requires Packed(cap, num, keys, children, kids) && pos < num
    ensures Packed(cap, num - 1, RemoveAt(keys, pos, num), RemoveAt(children, pos, num), kids - {keys[pos]})
  {
    Without(kids, keys[pos]);
    var keys' := RemoveAt(keys, pos, num);
    forall i, j | 0 <= i < j < num - 1 ensures keys'[i] < keys'[j] {
      var i', j' := if i < pos then i else i + 1, if j < pos then j else j + 1;
      assert keys[i'] < keys[j'];
    }
    forall i | 0 <= i < num - 1 ensures keys'[i] != keys[pos] {
      var i' := if i < pos then i else i + 1;
      assert if i' < pos then keys[i'] < keys[pos] else keys[pos] < keys[i'];
    }
  }

  lemma IndexedRemove(num: Byte, keys: seq<Byte>, children: seq<Node?>, kids: map<Byte, Node>, c: Byte)
    requires Indexed(num, keys, children, kids) && c in kids
    ensures num > 0
    ensures Indexed(num - 1, keys[c := 0], children[keys[c] - 1 := null], kids - {c})
  {
    Without(kids, c);
    assert Used(children[keys[c] - 1 := null]) == Used(children) - {keys[c] - 1};
  }

  lemma DirectRemove(num: Byte, children: seq<Node?>, kids: map<Byte, Node>, c: Byte)
    requires Direct(num, children, kids) && c in kids
    ensures Direct((num + 255) % 256, children[c := null], kids - {c})
  {
    Without(kids, c);
  }

  lemma SlottedInsert(keys: seq<Byte>, children: seq<Node?>, kids: map<Byte, Node>, pos: nat, c: Byte, x: Node)
    requires |keys| == 256 && |children| == 48 && Slotted(keys, children, kids)
    requires c !in kids && pos < 48 && children[pos] == null
    ensures Slotted(keys[c := pos + 1], children[pos := x], kids[c := x])
  {
    var keys', children', kids' := keys[c := pos + 1], children[pos := x], kids[c := x];
    forall b: Byte | b in kids' ensures 0 < keys'[b] <= 48 && children'[keys'[b] - 1] == kids'[b] {
      assert b == c || children[keys[b] - 1] != null;
    }
  }

  lemma IndexedInsert(num: Byte, keys: seq<Byte>, children: seq<Node?>, kids: map<Byte, Node>,
                      pos: nat, c: Byte, x: Node)
    requires Indexed(num, keys, children, kids) && num < 48
    requires c !in kids && pos < 48 && children[pos] == null
    ensures Indexed(num + 1, keys[c := pos + 1], children[pos := x], kids[c := x])
  {
    SlottedInsert(keys, children, kids, pos, c, x);
    assert |kids[c := x]| == |kids| + 1;
    assert Used(children[pos := x]) == Used(children) + {pos};
  }

  /** The layout of a node that had `n` children before one more was added. */
  function KindMore(k: Kind, n: nat): Kind {
    if k == Node4 && n >= 4 then Node16
    else if k == Node16 && n >= 16 then Node48
    else if k == Node48 && n >= 48 then Node256
    else k
  }

  /** The layout of a node that is left with `n` children. */
  function KindLess(k: Kind, n: nat): Kind {
    if k == Node256 && n == 37 then Node48
    else if k == Node48 && n == 12 then Node16
    else if k == Node16 && n == 3 then Node4
    else k
  }

  class Node {
    var kind: Kind
    // a leaf carries the whole key
    var key: Key
    var value: Value
    // an inner node's header
    var num: Byte
    var partialLen: nat
    var partial: seq<Byte>
    // an inner node's arrays; Node256 has no keys
    var keys: seq<Byte>
    var children: seq<Node?>

    ghost var kids: map<Byte, Node>
    // Maintained by the tree: the objects, the common prefix and the keys below this node.
    ghost var repr: set<Node>
    ghost var path: Key
    ghost var contents: map<Key, Value>

    constructor AllocLeaf(key: Key, value: Value)
      ensures kind == Leaf && this.key == key && this.value == value && kids == map[]
      ensures repr == {this} && contents == map[key := value]
    {
      kind, this.key, this.value := Leaf, key, value;
      num, partialLen, partial, keys, children := 0, 0, seq(MAX_PREFIX_LEN, _ => 0), [], [];
      kids, repr, path, contents := map[], {this}, [], map[key := value];
    }

    constructor AllocNode(kind: Kind)
      requires kind != Leaf
      ensures this.kind == kind && kids == map[] && partialLen == 0
      ensures forall b :: 0 <= b < |keys| ==> keys[b] == 0
      ensures forall j :: 0 <= j < |children| ==> children[j] == null
      ensures Layout()
    {
      this.kind := kind;
      key, value := [], 0;
      num, partialLen, partial := 0, 0, seq(MAX_PREFIX_LEN, _ => 0);
      keys := match kind
        case Node4 => seq(4, _ => 0)
        case Node16 => seq(16, _ => 0)
        case Node48 => seq(256, _ => 0)
        case Node256 => [];
      children := match kind
        case Node4 => seq(4, _ => null)
        case Node16 => seq(16, _ => null)
        case Node48 => seq(48, _ => null)
        case Node256 => seq(256, _ => null);
      kids, repr, path, contents := map[], {this}, [], map[];
    }

    /** The arrays of this node hold exactly the map `kids`. */
    ghost predicate Layout()
      reads this`kind, this`num, this`partial, this`keys, this`children, this`kids
    {
      && |partial| == MAX_PREFIX_LEN
      && match kind
         case Leaf => kids == map[]
         case Node4 => Packed(4, num, keys, children, kids)
         case Node16 => Packed(16, num, keys, children, kids)
         case Node48 => Indexed(num, keys, children, kids)
         case Node256 => Direct(num, children, kids)
    }

    /** The child counts each layout is used for. */
    ghost predicate InRange()
      reads this`kind, this`kids
    {
      match kind
      case Leaf => true
      case Node4 => 2 <= |kids| <= 4
      case Node16 => 4 <= |kids| <= 16
      case Node48 => 13 <= |kids| <= 48
      case Node256 => 38 <= |kids| <= 256
    }

    /** `slot` is where the child for byte `c` is stored. */
    ghost predicate IsSlot(c: Byte, slot: nat)
      reads this
    {
      && slot < |children| && c in kids && children[slot] == kids[c]
      && match kind
         case Leaf => false
         case Node4 => slot < num && slot < |keys| && keys[slot] == c
         case Node16 => slot < num && slot < |keys| && keys[slot] == c
         case Node48 => c < |keys| && keys[c] == slot + 1
         case Node256 => slot == c
    }

    method FindChild(c: Byte) returns (slot: Option<nat>)
      requires kind != Leaf && Layout()
      ensures slot.None? <==> c !in kids
      ensures slot.Some? ==> IsSlot(c, slot.value)
    {
      match kind {
        case Node4 =>
          for i := 0 to num
            invariant forall j :: 0 <= j < i ==> keys[j] != c
          {
            if keys[i] == c { return Some(i); }
          }
          if c in kids { PackedFind(4, num, keys, children, kids, c); }
        case Node16 =>
          var bitfield: seq<bool> := [];
          for i := 0 to 16
            invariant |bitfield| == i
            invariant forall j :: 0 <= j < i ==> bitfield[j] == (keys[j] == c && j < num)
          {
            bitfield := bitfield + [keys[i] == c && i < num];
          }
          var i := CountTrailingZeros(bitfield);
          if i < 16 { return Some(i); }
          if c in kids { PackedFind(16, num, keys, children, kids, c); }
        case Node48 =>
          if keys[c] != 0 { return Some(keys[c] - 1); }
        case Node256 =>
          if children[c] != null { return Some(c); }
      }
      return None;
    }

    /** The child for the smallest byte. */
    method FirstChild() returns (slot: nat, ghost c: Byte)
      requires kind != Leaf && Layout() && InRange()
      ensures IsSlot(c, slot)
      ensures forall b :: b in kids ==> c <= b
    {
      match kind {
        case Node4 =>
          FirstPacked(4, num, keys, children, kids);
          return 0, keys[0];
        case Node16 =>
          FirstPacked(16, num, keys, children, kids);
          return 0, keys[0];
        case Node48 =>
          ghost var some :| some in kids;
          var idx := 0;
          while keys[idx] == 0
            invariant idx <= some && forall b :: 0 <= b < idx ==> b !in kids
            decreases 256 - idx
          {
            idx := idx + 1;
          }
          return keys[idx] - 1, idx;
        case Node256 =>
          ghost var some :| some in kids;
          var idx := 0;
          while children[idx] == null
            invariant idx <= some && forall b :: 0 <= b < idx ==> b !in kids
            decreases 256 - idx
          {
            idx := idx + 1;
          }
          return idx, idx;
      }
    }

    /** Overwrites the child pointer in its slot (the `*ref = ...` of a deeper call). */
    method SetSlot(c: Byte, slot: nat, child: Node)
      requires kind != Leaf && Layout() && IsSlot(c, slot)
      modifies this`children, this`kids
      ensures Layout() && kids == old(kids)[c := child]
      ensures |kids| == old(|kids|)
    {
      match kind {
        case Node4 => PackedSet(4, num, keys, children, kids, slot, child);
        case Node16 => PackedSet(16, num, keys, children, kids, slot, child);
        case Node48 => IndexedSet(num, keys, children, kids, c, child);
        case Node256 => DirectSet(num, children, kids, c, child);
      }
      children, kids := children[slot := child], kids[c := child];
    }

    method Grow48() returns (newNode: Node)
      requires kind == Node48 && Layout()
      ensures fresh(newNode) && newNode.kind == Node256 && newNode.Layout() && newNode.kids == kids
      ensures SameHeader(newNode, partialLen, partial)
    {
      newNode := new Node.AllocNode(Node256);
      for i := 0 to 256
        invariant fresh(newNode) && newNode.kind == Node256 && unchanged(this)
        invariant |newNode.children| == 256 && |newNode.partial| == MAX_PREFIX_LEN
        invariant forall b: Byte :: newNode.children[b] == if b < i && b in kids then kids[b] else null
      {
        if keys[i] != 0 {
          newNode.children := newNode.children[i := children[keys[i] - 1]];
        }
      }
      newNode.kids := kids;
      CopyHeader(newNode, this);
    }

    /** Copies 16 packed children into a zeroed node48 and indexes them by key byte. */
    method FillIndexed(sorted: seq<Byte>, from: seq<Node?>, ghost all: map<Byte, Node>)
      requires Packed(16, 16, sorted, from, all)
      requires Indexed(0, keys, children, map[])
      requires forall j :: 0 <= j < 48 ==> children[j] == null
      modifies this`keys, this`children
      ensures Indexed(16, keys, children, all)
    {
      ghost var done: map<Byte, Node> := map[];
      for i := 0 to 16
        invariant Indexed(i, keys, children, done)
        invariant forall j :: i <= j < 48 ==> children[j] == null
        invariant forall b :: b in done ==> b in all && done[b] == all[b]
        invariant forall j :: i <= j < 16 ==> sorted[j] !in done
      {
        IndexedInsert(i, keys, children, done, i, sorted[i], from[i]);
        done := done[sorted[i] := from[i]];
        children := children[i := from[i]];
        keys := keys[sorted[i] := i + 1];
      }
      SameCard(done.Keys, all.Keys);
      assert done == all;
    }

    method Grow16() returns (newNode: Node)
      requires kind == Node16 && Layout() && num == 16
      ensures fresh(newNode) && newNode.kind == Node48 && newNode.Layout() && newNode.kids == kids
      ensures SameHeader(newNode, partialLen, partial)
    {
      newNode := new Node.AllocNode(Node48);
      EmptyIndexed(newNode.keys, newNode.children);
      newNode.FillIndexed(keys, children, kids);
      newNode.kids := kids;
      CopyHeader(newNode, this);
    }

    method Grow4() returns (newNode: Node)
      requires kind == Node4 && Layout() && num == 4
      ensures fresh(newNode) && newNode.kind == Node16 && newNode.Layout() && newNode.kids == kids
      ensures SameHeader(newNode, partialLen, partial)
    {
      newNode := new Node.AllocNode(Node16);
      newNode.children := children[..num] + newNode.children[num..];
      newNode.keys := keys[..num] + newNode.keys[num..];
      newNode.kids := kids;
      CopyHeader(newNode, this);
      PackedCopy(4, 16, num, keys, children, kids, newNode.keys, newNode.children);
    }

    method AddChild256(c: Byte, child: Node) returns (r: Node)
      requires kind == Node256 && Layout() && c !in kids
      modifies this
      ensures r == this && Layout() && kind == Node256
      ensures kids == old(kids)[c := child]
      ensures unchanged(this`partialLen, this`partial, this`path)
    {
      num := (num + 1) % 256;
      children := children[c := child];
      kids := kids[c := child];
      r := this;
    }

    /** A node48 with fewer than 48 children has an empty slot. */
    method FreeSlot48() returns (pos: nat)
      requires kind == Node48 && Layout() && num < 48
      ensures pos < 48 && children[pos] == null
    {
      pos := 0;
      while pos < 48 && children[pos] != null
        invariant pos <= 48
        invariant forall j :: 0 <= j < pos ==> children[j] != null
      {
        pos := pos + 1;
      }
      if pos == 48 {
        UsedPrefix(children, 48);
      }
    }

    method AddChild48(c: Byte, child: Node) returns (r: Node)
      requires kind == Node48 && Layout() && c !in kids
      modifies this
      ensures r == this || fresh(r)
      ensures r.Layout() && r.kind == (if |old(kids)| < 48 then Node48 else Node256)
      ensures r == this <==> |old(kids)| < 48
      ensures r.kids == old(kids)[c := child]
      ensures SameHeader(r, old(partialLen), old(partial))
    {
      if num < 48 {
        var pos := FreeSlot48();
        IndexedInsert(num, keys, children, kids, pos, c, child);
        children := children[pos := child];
        keys := keys[c := pos + 1];
        num := num + 1;
        kids := kids[c := child];
        return this;
      }
      var newNode := Grow48();
      r := newNode.AddChild256(c, child);
    }

    method AddChild16(c: Byte, child: Node) returns (r: Node)
      requires kind == Node16 && Layout() && c !in kids
      modifies this
      ensures r == this || fresh(r)
      ensures r.Layout() && r.kind == (if |old(kids)| < 16 then Node16 else Node48)
      ensures r == this <==> |old(kids)| < 16
      ensures r.kids == old(kids)[c := child]
      ensures SameHeader(r, old(partialLen), old(partial))
    {
      if num < 16 {
        var bitfield: seq<bool> := [];
        for i := 0 to 16
          invariant |bitfield| == i
          invariant forall j :: 0 <= j < i ==> bitfield[j] == (c < keys[j] && j < num)
        {
          bitfield := bitfield + [c < keys[i] && i < num];
        }
        var idx: nat := CountTrailingZeros(bitfield);
        if idx == 16 { idx := num; }
        Insert(idx, c, child);
        return this;
      }
      var newNode := Grow16();
      r := newNode.AddChild48(c, child);
    }

    method AddChild4(c: Byte, child: Node) returns (r: Node)
      requires kind == Node4 && Layout() && c !in kids
      modifies this
      ensures r == this || fresh(r)
      ensures r.Layout() && r.kind == (if |old(kids)| < 4 then Node4 else Node16)
      ensures r == this <==> |old(kids)| < 4
      ensures r.kids == old(kids)[c := child]
      ensures SameHeader(r, old(partialLen), old(partial))
    {
      if num < 4 {
        var idx: nat := 0;
        while idx < num && !(c < keys[idx])
          invariant idx <= num && forall j :: 0 <= j < idx ==> !(c < keys[j])
        {
          idx := idx + 1;
        }
        Insert(idx, c, child);
        return this;
      }
      var newNode := Grow4();
      r := newNode.AddChild16(c, child);
    }

    /** The shift-and-store shared by node4 and node16. */
    method Insert(idx: nat, c: Byte, child: Node)
      requires kind == Node4 || kind == Node16
      requires Layout() && num as int < |keys| && c !in kids
      requires idx <= num
      requires forall j :: 0 <= j < idx ==> !(c < keys[j])
      requires idx < num ==> c < keys[idx]
      modifies this`keys, this`children, this`num, this`kids
      ensures Layout() && kids == old(kids)[c := child]
    {
      PackedInsert(|keys|, num, keys, children, kids, idx, c, child);
      keys := InsertAt(keys, idx, num, c);
      children := InsertAt(children, idx, num, child);
      num := num + 1;
      kids := kids[c := child];
    }

    /** Packs the children of a node256 into this zeroed node48 (`children[pos]`, `keys[i] = pos + 1`). */
    method FillFromDirect(n: Byte, from: seq<Node?>, ghost all: map<Byte, Node>)
      requires Direct(n, from, all) && |all| == n <= 48
      requires Indexed(0, keys, children, map[])
      requires forall j :: 0 <= j < 48 ==> children[j] == null
      modifies this`keys, this`children
      ensures Indexed(n, keys, children, all)
    {
      var pos := 0;
      for i := 0 to 256
        invariant pos <= 48 && Indexed(pos, keys, children, Below(all, i))
        invariant forall j :: pos <= j < 48 ==> children[j] == null
      {
        BelowStep(all, i);
        if from[i] != null {
          IndexedInsert(pos, keys, children, Below(all, i), pos, i, from[i]);
          children, keys := children[pos := from[i]], keys[i := pos + 1];
          pos := pos + 1;
        }
        assert Indexed(pos, keys, children, Below(all, i + 1));
      }
      assert Below(all, 256) == all;
    }

    method Shrink256() returns (newNode: Node)
      requires kind == Node256 && Layout() && |kids| == num == 37
      ensures fresh(newNode) && newNode.kind == Node48 && newNode.Layout() && newNode.kids == kids
      ensures SameHeader(newNode, partialLen, partial)
    {
      newNode := new Node.AllocNode(Node48);
      CopyHeader(newNode, this);
      EmptyIndexed(newNode.keys, newNode.children);
      newNode.FillFromDirect(num, children, kids);
      newNode.kids := kids;
    }

    method RemoveChild256(c: Byte) returns (r: Node)
      requires kind == Node256 && Layout() && c in kids && InRange()
      modifies this
      ensures r == this || fresh(r)
      ensures r.Layout() && r.kind != Leaf && r.kids == old(kids) - {c}
      ensures r.InRange() && |r.kids| == old(|kids|) - 1
      ensures r.kind == KindLess(old(kind), |r.kids|) && (r == this <==> r.kind == old(kind))
      ensures SameHeader(r, old(partialLen), old(partial))
    {
      Without(kids, c);
      DirectRemove(num, children, kids, c);
      CardBytes(kids.Keys);
      children := children[c := null];
      num := (num + 255) % 256;
      kids := kids - {c};
      r := this;
      if num == 37 { r := Shrink256(); }
    }

    method Append(child: Byte, c: Byte, x: Node, ghost before: map<Byte, Node>)
      requires Packed(16, child, keys, children, before) && child < 16
      requires forall b :: b in before ==> b < c
      modifies this`keys, this`children
      ensures Packed(16, child + 1, keys, children, before[c := x])
    {
      PackedAppend(16, child, keys, children, before, c, x);
      keys, children := keys[child := c], children[child := x];
    }

    /** Packs the children of a node48 in byte order into this zeroed node16. */
    method FillFromIndexed(n: Byte, index: seq<Byte>, slots: seq<Node?>, ghost all: map<Byte, Node>)
      requires Indexed(n, index, slots, all) && n < 16
      requires |keys| == |children| == 16
      modifies this`keys, this`children
      ensures Packed(16, n, keys, children, all)
    {
      var child := 0;
      for i := 0 to 256
        invariant child <= n && Packed(16, child, keys, children, Below(all, i))
      {
        BelowStep(all, i);
        if index[i] != 0 {
          Append(child, i, slots[index[i] - 1], Below(all, i));
          child := child + 1;
        }
      }
      assert Below(all, 256) == all;
    }

    method Shrink48() returns (newNode: Node)
      requires kind == Node48 && Layout() && num == 12
      ensures fresh(newNode) && newNode.kind == Node16 && newNode.Layout() && newNode.kids == kids
      ensures SameHeader(newNode, partialLen, partial)
    {
      newNode := new Node.AllocNode(Node16);
      CopyHeader(newNode, this);
      newNode.FillFromIndexed(num, keys, children, kids);
      newNode.kids := kids;
    }

    method RemoveChild48(c: Byte) returns (r: Node)
      requires kind == Node48 && Layout() && c in kids && InRange()
      modifies this
      ensures r == this || fresh(r)
      ensures r.Layout() && r.kind != Leaf && r.kids == old(kids) - {c}
      ensures r.InRange() && |r.kids| == old(|kids|) - 1
      ensures r.kind == KindLess(old(kind), |r.kids|) && (r == this <==> r.kind == old(kind))
      ensures SameHeader(r, old(partialLen), old(partial))
    {
      Without(kids, c);
      IndexedRemove(num, keys, children, kids, c);
      var pos := keys[c];
      keys := keys[c := 0];
      children := children[pos - 1 := null];
      num := num - 1;
      kids := kids - {c};
      r := this;
      if num == 12 { r := Shrink48(); }
    }

    /** The shift-down shared by node4 and node16. */
    method Erase(slot: nat)
      requires kind == Node4 || kind == Node16
      requires Layout() && slot < num
      modifies this`keys, this`children, this`num, this`kids
      ensures Layout() && kids == old(kids - {keys[slot]}) && |kids| == old(|kids|) - 1
    {
      Without(kids, keys[slot]);
      PackedRemove(|keys|, num, keys, children, kids, slot);
      kids := kids - {keys[slot]};
      keys := RemoveAt(keys, slot, num);
      children := RemoveAt(children, slot, num);
      num := num - 1;
    }

    method RemoveChild16(c: Byte, slot: nat) returns (r: Node)
      requires kind == Node16 && Layout() && IsSlot(c, slot) && InRange()
      modifies this
      ensures r == this || fresh(r)
      ensures r.Layout() && r.kind != Leaf && r.kids == old(kids) - {c}
      ensures r.InRange() && |r.kids| == old(|kids|) - 1
      ensures r.kind == KindLess(old(kind), |r.kids|) && (r == this <==> r.kind == old(kind))
      ensures SameHeader(r, old(partialLen), old(partial))
    {
      Erase(slot);
      r := this;
      if num == 3 {
        r := new Node.AllocNode(Node4);
        CopyHeader(r, this);
        r.keys := keys[..4];
        r.children := children[..4];
        r.kids := kids;
      }
    }

    /** `remove_child` for a node that keeps at least two children. */
    method RemoveChild(c: Byte, slot: nat) returns (r: Node)
      requires Layout() && IsSlot(c, slot) && InRange()
      requires kind == Node4 ==> |kids| > 2
      modifies this
      ensures r == this || fresh(r)
      ensures r.kind != Leaf && r.Layout() && r.InRange() && r.kids == old(kids) - {c}
      ensures r.kind == KindLess(old(kind), |r.kids|) && (r == this <==> r.kind == old(kind))
      ensures SameHeader(r, old(partialLen), old(partial))
    {
      match kind {
        case Node4 =>
          Erase(slot);
          r := this;
        case Node16 => r := RemoveChild16(c, slot);
        case Node48 => r := RemoveChild48(c);
        case Node256 => r := RemoveChild256(c);
      }
    }

    /** A node4 with one inner child left: the child's compressed prefix now starts where this
        node's did, at `from`; it covers this node's prefix, the byte that led to the child
        and the child's own prefix.  Only MAX_PREFIX_LEN bytes of each are stored. */
    method CollapseInto(child: Node, ghost path: Key, ghost childPath: Key, ghost from: nat)
      requires kind == Node4 && Layout() && num == 1 && child == children[0]
      requires child != this && child.kind != Leaf
      requires Header(this, path, from) && path + [keys[0]] <= childPath
      requires Header(child, childPath, |path| + 1)
      modifies this`partial, child`partial, child`partialLen
      ensures Header(child, childPath, from)
    {
      var prefix := partialLen;
      if prefix < MAX_PREFIX_LEN {
        partial := partial[prefix := keys[0]];
        prefix := prefix + 1;
      }
      if prefix < MAX_PREFIX_LEN {
        var subPrefix := Min(child.partialLen, MAX_PREFIX_LEN - prefix);
        partial := partial[..prefix] + child.partial[..subPrefix] + partial[prefix + subPrefix..];
        prefix := prefix + subPrefix;
      }
      var n := Min(prefix, MAX_PREFIX_LEN);
      child.partial := partial[..n] + child.partial[n..];
      child.partialLen := child.partialLen + partialLen + 1;
    }

    method AddChild(c: Byte, child: Node) returns (r: Node)
      requires kind != Leaf && Layout() && c !in kids
      modifies this
      ensures r == this || fresh(r)
      ensures r.kind != Leaf && r.Layout()
      ensures r.kind == KindMore(old(kind), |old(kids)|) && (r == this <==> r.kind == old(kind))
      ensures r.kids == old(kids)[c := child]
      ensures old(InRange()) ==> r.InRange()
      ensures SameHeader(r, old(partialLen), old(partial))
    {
      match kind {
        case Node4 => r := AddChild4(c, child);
        case Node16 => r := AddChild16(c, child);
        case Node48 => r := AddChild48(c, child);
        case Node256 =>
          r := AddChild256(c, child);
          CardBytes(kids.Keys);
      }
    }
  }

  /** The node's header stores the compressed prefix `path[from..]`: its length, and as many
      of its first bytes as fit. */
  ghost predicate Header(n: Node, path: Key, from: nat)
    reads n`partialLen, n`partial
  {
    && from <= |path|
    && n.partialLen == |path| - from
    && |n.partial| == MAX_PREFIX_LEN
    && forall j :: 0 <= j < MAX_PREFIX_LEN && j < n.partialLen ==> n.partial[j] == path[from + j]
  }

  /** `r` carries the compressed prefix of a node whose header was `len`, `bytes`. */
  ghost predicate SameHeader(r: Node, len: nat, bytes: seq<Byte>)
    reads r`partialLen, r`partial
  {
    && r.partialLen == len
    && |r.partial| == MAX_PREFIX_LEN == |bytes|
    && forall j :: 0 <= j < MAX_PREFIX_LEN && j < len ==> r.partial[j] == bytes[j]
  }

  ghost predicate Stores(len: nat, bytes: seq<Byte>, path: Key, from: nat) {
    && from <= |path| && len == |path| - from && |bytes| == MAX_PREFIX_LEN
    && forall j :: 0 <= j < MAX_PREFIX_LEN && j < len ==> bytes[j] == path[from + j]
  }

  lemma HeaderStores(n: Node, path: Key, from: nat)
    requires Header(n, path, from)
    ensures Stores(n.partialLen, n.partial, path, from)
  {
  }

  lemma HeaderKept(r: Node, len: nat, bytes: seq<Byte>, path: Key, from: nat)
    requires SameHeader(r, len, bytes) && Stores(len, bytes, path, from)
    ensures Header(r, path, from)
  {
  }

  method CopyHeader(dest: Node, src: Node)
    requires |dest.partial| == |src.partial| == MAX_PREFIX_LEN
    requires dest != src
    modifies dest`num, dest`partialLen, dest`partial
    ensures dest.num == src.num
    ensures SameHeader(dest, src.partialLen, src.partial)
  {
    dest.num := src.num;
    dest.partialLen := src.partialLen;
    var n := Min(MAX_PREFIX_LEN, src.partialLen);
    dest.partial := src.partial[..n] + dest.partial[n..];
  }

  lemma {:induction false} CardLe<T>(a: set<T>, b: set<T>)
    requires a <= b
    ensures |a| <= |b|
  {
    if a != {} {
      var x :| x in a;
      CardLe(a - {x}, b - {x});
    }
  }

  lemma {:induction false} CardBelow(s: set<Byte>, n: nat)
    requires forall b :: b in s ==> b < n
    ensures |s| <= n
  {
    if n == 0 {
      assert s == {};
    } else {
      if n <= 256 {
        CardBelow(s - {n - 1}, n - 1);
      } else {
        CardBelow(s, n - 1);
      }
    }
  }

  ghost function FirstNats(n: nat): (s: set<nat>)
    ensures |s| == n && forall j: nat :: j in s <==> j < n
  {
    if n == 0 then {} else FirstNats(n - 1) + {n - 1}
  }

  lemma SameCard<T>(a: set<T>, b: set<T>)
    requires a <= b && |a| == |b|
    ensures a == b
  {
    if x :| x in b && x !in a {
      CardLe(a + {x}, b);
    }
  }

  lemma UsedPrefix(children: seq<Node?>, n: nat)
    requires n <= |children|
    requires forall j :: 0 <= j < n ==> children[j] != null
    requires forall j :: n <= j < |children| ==> children[j] == null
    ensures |Used(children)| == n
  {
    assert Used(children) == FirstNats(n);
  }

  lemma EmptyIndexed(keys: seq<Byte>, children: seq<Node?>)
    requires |keys| == 256 && |children| == 48
    requires forall b: Byte :: keys[b] == 0
    requires forall j :: 0 <= j < 48 ==> children[j] == null
    ensures Indexed(0, keys, children, map[])
  {
    UsedPrefix(children, 0);
  }

  lemma CardBytes(s: set<Byte>)
    ensures |s| <= 256
  {
    CardBelow(s, 256);
  }
}
