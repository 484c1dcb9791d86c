/** The adaptive radix tree over the node layouts of ArtNodes: path-compressed search,
    insert and delete (3rdparty/libart/art.c), specified by the finite map of keys to values
    that the nodes below a pointer hold. */
module ArtTree {
  import opened ArtNodes

  /** The tree below `n`, entered with the key bytes `p` already matched.  `n.path` is the whole
      common prefix of the keys below; the node stores the part after `p`, cut to
      MAX_PREFIX_LEN bytes.  Subtrees own disjoint objects. */
  ghost predicate TreeAt(n: Node, p: Key)
    reads n, n.repr
    decreases n.repr, 0
  {
    && n in n.repr
    && if n.kind == Leaf then
         p <= n.key && n.repr == {n} && n.contents == map[n.key := n.value]
       else
         && n.Layout() && n.InRange()
         && p <= n.path && Header(n, n.path, |p|)
         && Forest(n.path, n.kids, n.repr - {n})
         && IsUnion(n.contents, n.path, n.kids)
  }

  /** Disjoint subtrees made of `objects`, the one for byte `b` entered with `path + [b]`. */
  ghost predicate Forest(path: Key, kids: map<Byte, Node>, objects: set<Node>)
    reads objects
    decreases objects, 1
  {
    && (forall b :: b in kids ==> kids[b] in objects && kids[b].repr <= objects)
    && (forall b :: b in kids ==> TreeAt(kids[b], path + [b]))
    && (forall b, d :: b in kids && d in kids && b != d ==> kids[b].repr !! kids[d].repr)
  }

  /** `m` holds exactly the entries of the kids; byte |path| of a key says which kid. */
  ghost predicate IsUnion(m: map<Key, Value>, path: Key, kids: map<Byte, Node>)
    reads kids.Values
  {
    && (forall k :: k in m <==> Routes(k, path, kids))
    && (forall k :: k in m ==> m[k] == kids[k[|path|]].contents[k])
  }

  ghost predicate Routes(k: Key, path: Key, kids: map<Byte, Node>)
    reads kids.Values
  {
    |path| < |k| && path <= k && k[|path|] in kids && k in kids[k[|path|]].contents
  }

  ghost predicate PrefixFree(keys: set<Key>, key: Key) {
    forall k :: k in keys && k != key ==> !(k <= key) && !(key <= k)
  }

  ghost function Lookup(m: map<Key, Value>, key: Key): Option<Value> {
    if key in m then Some(m[key]) else None
  }

  lemma PathPrefix(n: Node, p: Key, k: Key)
    requires TreeAt(n, p) && k in n.contents
    ensures p <= k
  {
    if n.kind != Leaf { assert Routes(k, n.path, n.kids); }
  }

  /** The number of stored prefix bytes that match the key from `depth` on. */
  method CheckPrefix(n: Node, key: Key, depth: nat, ghost path: Key) returns (idx: nat)
    requires Header(n, path, depth)
    ensures idx <= Min(MAX_PREFIX_LEN, n.partialLen)
    ensures forall j :: depth <= j < depth + idx ==> j < |key| && path[j] == key[j]
    ensures idx < Min(MAX_PREFIX_LEN, n.partialLen) ==> depth + idx >= |key| || path[depth + idx] != key[depth + idx]
  {
    var maxCmp := Min(Min(n.partialLen, MAX_PREFIX_LEN), |key| - depth);
    idx := 0;
    while idx < maxCmp && n.partial[idx] == key[depth + idx]
      invariant idx == 0 || idx <= maxCmp
      invariant forall j :: depth <= j < depth + idx ==> path[j] == key[j]
    {
      idx := idx + 1;
    }
  }

  /** `key[depth]`, or any byte at all when that reads past the key. */
  method ByteAt(key: Key, depth: nat) returns (c: Byte)
    ensures depth < |key| ==> c == key[depth]
  {
    if depth < |key| { c := key[depth]; } else { c :| true; }
  }

  /** No key below a null pointer. */
  ghost function Entries(n: Node?): map<Key, Value>
    reads n
  {
    if n == null then map[] else n.contents
  }

  ghost function Objects(n: Node?): set<Node>
    reads n
  {
    if n == null then {} else n.repr
  }

  /** `key`'s entry in `m` is its entry below `kid`, and nothing else is below `kid`. */
  ghost predicate Narrows(m: map<Key, Value>, kid: map<Key, Value>, key: Key) {
    && Lookup(m, key) == Lookup(kid, key)
    && kid.Keys <= m.Keys
  }

  lemma StepDown(n: Node, p: Key, key: Key, c: Byte)
    requires TreeAt(n, p) && n.kind != Leaf
    requires |n.path| < |key| ==> c == key[|n.path|]
    ensures c !in n.kids ==> key !in n.contents
    ensures c in n.kids ==> Narrows(n.contents, n.kids[c].contents, key)
  {
    if key in n.contents {
      assert Routes(key, n.path, n.kids);
    }
    if c in n.kids {
      forall k | k in n.kids[c].contents ensures k in n.contents {
        PathPrefix(n.kids[c], n.path + [c], k);
        assert Routes(k, n.path, n.kids);
      }
    }
  }

  /** A mismatch among the stored prefix bytes means a missing key. */
  lemma Mismatch(n: Node, p: Key, key: Key, i: nat)
    requires TreeAt(n, p) && n.kind != Leaf
    requires |p| <= i < |n.path| && (i >= |key| || n.path[i] != key[i])
    ensures key !in n.contents
  {
    assert key in n.contents ==> Routes(key, n.path, n.kids);
  }

  /** Compares the stored prefix bytes, then skips the whole prefix. */
  method SkipPrefix(n: Node, key: Key, depth: nat, ghost p: Key) returns (ok: bool, depth': nat)
    requires TreeAt(n, p) && n.kind != Leaf && |p| == depth
    ensures !ok ==> key !in n.contents
    ensures ok ==> depth' == |n.path|
  {
    hide TreeAt, IsUnion, Forest, Node.Layout, Node.InRange;
    TreeParts(n, p);
    if n.partialLen != 0 {
      var idx := CheckPrefix(n, key, depth, n.path);
      if idx != Min(MAX_PREFIX_LEN, n.partialLen) {
        Mismatch(n, p, key, depth + idx);
        return false, depth;
      }
    }
    return true, depth + n.partialLen;
  }

  /** The part of a descent that search and delete share: get past the compressed prefix and
      find the child for the next byte of the key. */
  method NextChild(n: Node, key: Key, depth: nat, ghost p: Key)
    returns (slot: Option<nat>, c: Byte, depth': nat)
    requires TreeAt(n, p) && n.kind != Leaf && |p| == depth
    ensures slot.None? ==> key !in n.contents
    ensures slot.Some? ==> depth' == |n.path| && n.IsSlot(c, slot.value)
    ensures slot.Some? ==> (depth' < |key| ==> c == key[depth'])
    ensures slot.Some? ==> Narrows(n.contents, n.kids[c].contents, key)
  {
    var ok;
    ok, depth' := SkipPrefix(n, key, depth, p);
    if !ok { return None, 0, depth'; }
    c := ByteAt(key, depth');
    StepDown(n, p, key, c);
    slot := n.FindChild(c);
  }

  method SearchFrom(root: Node?, key: Key) returns (r: Option<Value>)
    requires root != null ==> TreeAt(root, [])
    ensures r == Lookup(Entries(root), key)
  {
    var n := root;
    var depth := 0;
    ghost var p: Key := [];
    while n != null
      invariant n != null ==> TreeAt(n, p) && |p| == depth
      invariant Narrows(Entries(root), Entries(n), key)
      decreases Objects(n)
    {
      if n.kind == Leaf {
        return if n.key == key then Some(n.value) else None;
      }
      var slot, c, depth' := NextChild(n, key, depth, p);
      if slot.None? { return None; }
      p := n.path + [c];
      n := n.children[slot.value];
      depth := depth' + 1;
    }
    return None;
  }

  lemma TreeIntro(n: Node, p: Key)
    requires n in n.repr && n.kind != Leaf && n.Layout() && n.InRange()
    requires p <= n.path && Header(n, n.path, |p|)
    requires Forest(n.path, n.kids, n.repr - {n})
    requires IsUnion(n.contents, n.path, n.kids)
    ensures TreeAt(n, p)
  {
    hide Forest, IsUnion;
  }

  // ----- taking one child out of a node and putting one back

  /** `k` continues with byte `c` after `path`. */
  ghost predicate Via(k: Key, path: Key, c: Byte) {
    |path| < |k| && path <= k && k[|path|] == c
  }

  ghost function Rest(m: map<Key, Value>, path: Key, c: Byte): map<Key, Value> {
    map k | k in m && !Via(k, path, c) :: m[k]
  }

  /** The keys of `m` that go on with byte `c` have the entries of `below`. */
  ghost predicate Agrees(m: map<Key, Value>, path: Key, c: Byte, below: map<Key, Value>) {
    forall k :: Via(k, path, c) ==> Lookup(m, k) == Lookup(below, k)
  }

  /** Everything TreeAt says of `n` except what is below byte `c`; `rest` are the objects below
      the other bytes. */
  ghost predicate TreeBut(n: Node, p: Key, c: Byte, rest: set<Node>)
    reads n, rest
  {
    && n !in rest && n.kind != Leaf
    && n.Layout() && n.InRange()
    && p <= n.path && Header(n, n.path, |p|)
    && (n.kids - {c}).Values <= rest && Forest(n.path, n.kids - {c}, rest)
    && IsUnion(Rest(n.contents, n.path, c), n.path, n.kids - {c})
  }

  lemma TreeButIntro(n: Node, p: Key, c: Byte, rest: set<Node>)
    requires n !in rest && n.kind != Leaf && n.Layout() && n.InRange()
    requires p <= n.path && Header(n, n.path, |p|)
    requires (n.kids - {c}).Values <= rest && Forest(n.path, n.kids - {c}, rest)
    requires IsUnion(Rest(n.contents, n.path, c), n.path, n.kids - {c})
    ensures TreeBut(n, p, c, rest)
  {
    hide Forest, IsUnion;
  }

  lemma ForestWithout(path: Key, kids: map<Byte, Node>, objects: set<Node>, c: Byte)
    requires Forest(path, kids, objects) && c in kids
    ensures Forest(path, kids - {c}, objects - kids[c].repr)
  {
    forall b | b in kids - {c}
      ensures kids[b] in objects - kids[c].repr && kids[b].repr <= objects - kids[c].repr
    {
      assert kids[b] in kids[b].repr && kids[b].repr !! kids[c].repr;
    }
  }

  lemma ForestWith(path: Key, kids: map<Byte, Node>, objects: set<Node>, c: Byte)
    requires c in kids && Forest(path, kids - {c}, objects)
    requires TreeAt(kids[c], path + [c]) && kids[c].repr !! objects
    ensures Forest(path, kids, objects + kids[c].repr)
  {
    var others := kids - {c};
    assert forall b :: b in kids ==> b == c || (b in others && others[b] == kids[b]);
  }

  lemma UnionWithout(m: map<Key, Value>, path: Key, kids: map<Byte, Node>, c: Byte)
    requires IsUnion(m, path, kids)
    ensures IsUnion(Rest(m, path, c), path, kids - {c})
  {
    forall k ensures k in Rest(m, path, c) <==> Routes(k, path, kids - {c}) {
      assert k in m <==> Routes(k, path, kids);
    }
  }

  lemma UnionWith(m: map<Key, Value>, path: Key, kids: map<Byte, Node>, c: Byte)
    requires c in kids && IsUnion(Rest(m, path, c), path, kids - {c})
    requires Agrees(m, path, c, kids[c].contents)
    ensures IsUnion(m, path, kids)
  {
    forall k ensures k in m <==> Routes(k, path, kids)
             ensures k in m ==> m[k] == kids[k[|path|]].contents[k]
    {
      if Via(k, path, c) {
        assert Lookup(m, k) == Lookup(kids[c].contents, k);
      } else {
        assert k in Rest(m, path, c) <==> Routes(k, path, kids - {c});
      }
    }
  }

  lemma OnlyVia(n: Node, p: Key, c: Byte)
    requires TreeAt(n, p) && n.kind != Leaf
    ensures Agrees(n.contents, n.path, c, if c in n.kids then n.kids[c].contents else map[])
  {
    forall k | Via(k, n.path, c)
      ensures Lookup(n.contents, k) == Lookup(if c in n.kids then n.kids[c].contents else map[], k)
    {
      assert k in n.contents <==> Routes(k, n.path, n.kids);
    }
  }

  lemma Detach(n: Node, p: Key, c: Byte) returns (rest: set<Node>)
    requires TreeAt(n, p) && n.kind != Leaf
    ensures TreeBut(n, p, c, rest)
    ensures c in n.kids ==> n.kids[c].repr !! rest && n !in n.kids[c].repr && TreeAt(n.kids[c], n.path + [c])
    ensures n.repr == {n} + rest + (if c in n.kids then n.kids[c].repr else {})
    ensures Agrees(n.contents, n.path, c, if c in n.kids then n.kids[c].contents else map[])
  {
    hide Agrees, IsUnion, Rest, Node.Layout, Node.InRange;
    OnlyVia(n, p, c);
    UnionWithout(n.contents, n.path, n.kids, c);
    rest := n.repr - {n};
    if c in n.kids {
      ForestWithout(n.path, n.kids, rest, c);
      rest := rest - n.kids[c].repr;
    } else {
      assert n.kids - {c} == n.kids;
    }
  }

  lemma Attach(n: Node, p: Key, c: Byte, rest: set<Node>)
    requires TreeBut(n, p, c, rest) && c in n.kids
    requires TreeAt(n.kids[c], n.path + [c])
    requires n.kids[c].repr !! rest && n !in n.kids[c].repr
    requires n.repr == {n} + rest + n.kids[c].repr
    requires Agrees(n.contents, n.path, c, n.kids[c].contents)
    ensures TreeAt(n, p)
  {
    ForestWith(n.path, n.kids, rest, c);
    UnionWith(n.contents, n.path, n.kids, c);
    assert n.repr - {n} == rest + n.kids[c].repr;
  }

  // ----- byte order

  /** Unsigned byte order of keys, a proper prefix first. */
  ghost predicate Less(a: Key, b: Key) {
    exists i: nat :: LessAt(a, b, i)
  }

  ghost predicate LessAt(a: Key, b: Key, i: nat) {
    && i <= |a| && i < |b| && a[..i] == b[..i]
    && (i == |a| || a[i] < b[i])
  }

  lemma KidOrder(n: Node, p: Key, b: Byte, d: Byte, k: Key, l: Key)
    requires TreeAt(n, p) && n.kind != Leaf && b in n.kids && d in n.kids && b < d
    requires k in n.kids[b].contents && l in n.kids[d].contents
    ensures Less(k, l)
  {
    PathPrefix(n.kids[b], n.path + [b], k);
    PathPrefix(n.kids[d], n.path + [d], l);
    assert k[..|n.path|] == n.path == l[..|n.path|];
    assert LessAt(k, l, |n.path|);
  }

  /** The leaf with the smallest key below `n`. */
  method Minimum(n: Node, ghost p: Key) returns (l: Node)
    requires TreeAt(n, p)
    ensures l in n.repr && l.kind == Leaf && l.key in n.contents
    ensures forall k :: k in n.contents ==> k == l.key || Less(l.key, k)
    decreases n.repr
  {
    if n.kind == Leaf { return n; }
    var slot, c := n.FirstChild();
    l := Minimum(n.children[slot], n.path + [c]);
    StepDown(n, p, n.path + [c], c);
    forall k | k in n.contents ensures k == l.key || Less(l.key, k) {
      assert Routes(k, n.path, n.kids);
      var b := k[|n.path|];
      if b != c { KidOrder(n, p, c, b, l.key, k); }
    }
  }

  // ----- insert

  /** The common prefix length of two keys from `depth` on. */
  method LongestCommonPrefix(a: Key, b: Key, depth: nat) returns (idx: nat)
    requires depth <= |a| && depth <= |b|
    ensures depth + idx <= |a| && depth + idx <= |b|
    ensures forall j :: depth <= j < depth + idx ==> a[j] == b[j]
    ensures depth + idx == |a| || depth + idx == |b| || a[depth + idx] != b[depth + idx]
  {
    var maxCmp := Min(|a|, |b|) - depth;
    idx := 0;
    while idx < maxCmp && a[depth + idx] == b[depth + idx]
      invariant idx <= maxCmp
      invariant forall j :: depth <= j < depth + idx ==> a[j] == b[j]
    {
      idx := idx + 1;
    }
  }

  /** The first index, from `depth` on, at which the node's whole compressed prefix and the key
      differ.  Prefix bytes that are not stored are read from a leaf below. */
  method PrefixMismatch(n: Node, key: Key, depth: nat, ghost p: Key) returns (idx: nat)
    requires TreeAt(n, p) && n.kind != Leaf && |p| == depth <= |key|
    ensures depth + idx <= |key|
    ensures forall j :: depth <= j < depth + idx && j < |n.path| ==> n.path[j] == key[j]
    ensures idx < n.partialLen ==> depth + idx == |key| || n.path[depth + idx] != key[depth + idx]
  {
    hide TreeAt, IsUnion, Forest, Node.Layout, Node.InRange;
    TreeParts(n, p);
    var maxCmp := Min(Min(MAX_PREFIX_LEN, n.partialLen), |key| - depth);
    idx := 0;
    while idx < maxCmp && n.partial[idx] == key[depth + idx]
      invariant idx <= maxCmp
      invariant forall j :: depth <= j < depth + idx ==> n.path[j] == key[j]
    {
      idx := idx + 1;
    }
    if idx < maxCmp { return; }
    if n.partialLen > MAX_PREFIX_LEN {
      var l := Minimum(n, p);
      UnderPath(n, p, l.key);
      maxCmp := Min(|l.key|, |key|) - depth;
      while idx < maxCmp && l.key[idx + depth] == key[depth + idx]
        invariant idx <= |key| - depth
        invariant idx <= maxCmp
        invariant forall j :: depth <= j < depth + idx ==> l.key[j] == key[j]
      {
        idx := idx + 1;
      }
    }
  }

  /** A new node4 over two subtrees whose entry prefixes split after `path`.  Its stored prefix
      is the given `bytes`. */
  method Fork(ghost path: Key, ghost from: nat, len: nat, bytes: seq<Byte>, a: Node, ca: Byte, b: Node, cb: Byte)
    returns (r: Node)
    requires ca != cb && TreeAt(a, path + [ca]) && TreeAt(b, path + [cb]) && a.repr !! b.repr
    requires from <= |path| && len == |path| - from && |bytes| == Min(MAX_PREFIX_LEN, len)
    requires forall j :: 0 <= j < |bytes| ==> bytes[j] == path[from + j]
    ensures fresh(r) && TreeAt(r, path[..from])
    ensures r.repr == {r} + (a.repr + b.repr)
    ensures r.contents == a.contents + b.contents
  {
    hide TreeAt, Forest, IsUnion, Node.Layout, Node.InRange;
    r := NewNode4(len, bytes, a, ca, b, cb);
    NewHeader(r, path, from, bytes);
    hide Header;
    r.path := path;
    r.repr := {r} + (a.repr + b.repr);
    r.contents := a.contents + b.contents;
    assert Forest(path, r.kids, r.repr - {r}) by {
      ForestOfTwo(path, a, ca, b, cb);
      RemoveOne(r, a.repr + b.repr);
    }
    ForkUnion(path, a, ca, b, cb);
    TreeIntro(r, path[..from]);
  }

  lemma NewHeader(r: Node, path: Key, from: nat, bytes: seq<Byte>)
    requires from <= |path| && r.partialLen == |path| - from && |bytes| == Min(MAX_PREFIX_LEN, r.partialLen)
    requires |r.partial| == MAX_PREFIX_LEN && bytes <= r.partial
    requires forall j :: 0 <= j < |bytes| ==> bytes[j] == path[from + j]
    ensures Header(r, path, from)
  {
  }

  /** The physical node4: stored prefix set, then the two children added. */
  method NewNode4(len: nat, bytes: seq<Byte>, a: Node, ca: Byte, b: Node, cb: Byte) returns (r: Node)
    requires ca != cb && |bytes| == Min(MAX_PREFIX_LEN, len)
    ensures fresh(r) && r.kind == Node4 && r.Layout() && r.InRange() && r.kids == map[ca := a, cb := b]
    ensures r.partialLen == len && |r.partial| == MAX_PREFIX_LEN && bytes <= r.partial
  {
    r := new Node.AllocNode(Node4);
    r.partialLen := len;
    r.partial := bytes + r.partial[|bytes|..];
    var _ := r.AddChild4(ca, a);
    assert bytes == r.partial[..|bytes|];
    var _ := r.AddChild4(cb, b);
    assert bytes == r.partial[..|bytes|];
  }

  lemma RemoveOne(x: Node, s: set<Node>)
    requires x !in s
    ensures {x} + s - {x} == s
  {
  }

  lemma ForestOfTwo(path: Key, a: Node, ca: Byte, b: Node, cb: Byte)
    requires ca != cb && TreeAt(a, path + [ca]) && TreeAt(b, path + [cb]) && a.repr !! b.repr
    ensures Forest(path, map[ca := a, cb := b], a.repr + b.repr)
  {
    var kids := map[ca := a, cb := b];
    assert forall d :: d in kids <==> d == ca || d == cb;
    assert kids[ca] == a && kids[cb] == b;
  }

  lemma ForkUnion(path: Key, a: Node, ca: Byte, b: Node, cb: Byte)
    requires ca != cb && TreeAt(a, path + [ca]) && TreeAt(b, path + [cb])
    ensures IsUnion(a.contents + b.contents, path, map[ca := a, cb := b])
  {
    forall k | k in a.contents ensures Via(k, path, ca) { PathPrefix(a, path + [ca], k); }
    forall k | k in b.contents ensures Via(k, path, cb) { PathPrefix(b, path + [cb], k); }
  }

  /** A leaf becomes a node4 over itself and the new leaf. */
  method SplitLeaf(n: Node, key: Key, value: Value, depth: nat, ghost p: Key) returns (r: Node)
    requires TreeAt(n, p) && n.kind == Leaf && n.key != key
    requires |p| == depth && p <= key && PrefixFree(n.contents.Keys, key)
    ensures TreeAt(r, p) && r in r.repr && fresh(r.repr - n.repr)
    ensures r.contents == n.contents[key := value]
  {
    hide TreeAt, IsUnion, Forest;
    LeafAt(n, p);
    assert n.key in n.contents.Keys;
    var leaf := new Node.AllocLeaf(key, value);
    var longest := LongestCommonPrefix(n.key, leaf.key, depth);
    var d := depth + longest;
    Diverge(n.key, key, d);
    LeafEnters(n, key[..d] + [n.key[d]]);
    LeafEnters(leaf, key[..d] + [key[d]]);
    var bytes := key[depth..depth + Min(MAX_PREFIX_LEN, longest)];
    r := Fork(key[..d], depth, longest, bytes, n, n.key[d], leaf, key[d]);
    assert p == key[..d][..depth];
  }

  lemma LeafAt(n: Node, p: Key)
    requires TreeAt(n, p) && n.kind == Leaf
    ensures p <= n.key && n.repr == {n} && n.contents == map[n.key := n.value]
  {
  }

  lemma LeafEnters(n: Node, p: Key)
    requires n.kind == Leaf && n.repr == {n} && n.contents == map[n.key := n.value] && p <= n.key
    ensures TreeAt(n, p)
  {
  }

  /** Two keys, neither a prefix of the other, differ at the end of their common part. */
  lemma Diverge(a: Key, b: Key, d: nat)
    requires d <= |a| && d <= |b| && !(a <= b) && !(b <= a)
    requires forall j :: 0 <= j < d ==> a[j] == b[j]
    requires d == |a| || d == |b| || a[d] != b[d]
    ensures d < |a| && d < |b| && a[d] != b[d]
    ensures b[..d] + [a[d]] <= a && b[..d] + [b[d]] <= b
  {
    assert a[..d] == b[..d];
    assert d == |a| ==> a <= b;
    assert d == |b| ==> b <= a;
  }

  /** The key leaves the node's compressed prefix after `diff` bytes: a node4 takes over the
      common part, and the old node keeps the bytes after the one they differ in. */
  method SplitPrefix(n: Node, key: Key, value: Value, depth: nat, diff: nat, ghost p: Key) returns (r: Node)
    requires TreeAt(n, p) && n.kind != Leaf && |p| == depth && p <= key
    requires diff < n.partialLen && depth + diff < |key|
    requires forall j :: depth <= j < depth + diff ==> n.path[j] == key[j]
    requires n.path[depth + diff] != key[depth + diff]
    modifies n`partialLen, n`partial
    ensures TreeAt(r, p) && r in r.repr && fresh(r.repr - n.repr)
    ensures r.contents == n.contents[key := value]
  {
    hide TreeAt, IsUnion, Forest, Node.Layout, Node.InRange;
    var d := depth + diff;
    TreeParts(n, p);
    var bytes := n.partial[..Min(MAX_PREFIX_LEN, diff)];
    var c := ShortenPrefix(n, depth, diff, p);
    var leaf := new Node.AllocLeaf(key, value);
    LeafEnters(leaf, key[..d] + [key[d]]);
    assert n.path[..d + 1] == key[..d] + [c];
    r := Fork(key[..d], depth, diff, bytes, n, c, leaf, key[d]);
    assert key[..d][..depth] == p;
  }

  lemma TreeParts(n: Node, p: Key)
    requires TreeAt(n, p) && n.kind != Leaf
    ensures n in n.repr && n.Layout() && n.InRange() && p <= n.path && Header(n, n.path, |p|)
    ensures Forest(n.path, n.kids, n.repr - {n})
    ensures IsUnion(n.contents, n.path, n.kids)
    ensures n.kids.Values <= n.repr - {n}
  {
    hide IsUnion;
  }

  /** Drops the first `diff + 1` bytes of the compressed prefix and returns the last of them. */
  method ShortenPrefix(n: Node, depth: nat, diff: nat, ghost p: Key) returns (c: Byte)
    requires TreeAt(n, p) && n.kind != Leaf && |p| == depth && diff < n.partialLen
    modifies n`partialLen, n`partial
    ensures c == n.path[depth + diff]
    ensures TreeAt(n, n.path[..depth + diff + 1])
  {
    hide TreeAt, IsUnion, Forest;
    TreeParts(n, p);
    var newLen: nat := n.partialLen - (diff + 1);
    var m := Min(MAX_PREFIX_LEN, newLen);
    if n.partialLen <= MAX_PREFIX_LEN {
      c := n.partial[diff];
      n.partialLen := newLen;
      n.partial := n.partial[diff + 1..diff + 1 + m] + n.partial[m..];
    } else {
      var l := Minimum(n, p);
      UnderPath(n, p, l.key);
      c := l.key[depth + diff];
      n.partialLen := newLen;
      n.partial := l.key[depth + diff + 1..depth + diff + 1 + m] + n.partial[m..];
    }
    TreeIntro(n, n.path[..depth + diff + 1]);
  }

  lemma UnderPath(n: Node, p: Key, k: Key)
    requires TreeAt(n, p) && n.kind != Leaf && k in n.contents
    ensures n.path <= k
  {
    assert Routes(k, n.path, n.kids);
  }

  /** A change to one key that goes on with byte `c` is a change below `c` only. */
  lemma UpdateVia(m: map<Key, Value>, path: Key, c: Byte, below: map<Key, Value>, key: Key, value: Value)
    requires Via(key, path, c) && Agrees(m, path, c, below)
    ensures Rest(m[key := value], path, c) == Rest(m, path, c) == Rest(m - {key}, path, c)
    ensures Agrees(m[key := value], path, c, below[key := value])
    ensures Agrees(m - {key}, path, c, below - {key})
  {
  }

  lemma PrefixFreeBelow(keys: set<Key>, all: set<Key>, key: Key)
    requires PrefixFree(all, key) && keys <= all
    ensures PrefixFree(keys, key)
  {
  }

  /** Some key lies below every node. */
  lemma Inhabited(n: Node, p: Key) returns (k: Key)
    requires TreeAt(n, p)
    ensures k in n.contents
    decreases n.repr
  {
    if n.kind == Leaf {
      k := n.key;
    } else {
      var c :| c in n.kids;
      k := Inhabited(n.kids[c], n.path + [c]);
      StepDown(n, p, k, c) by { PathPrefix(n.kids[c], n.path + [c], k); }
    }
  }

  /** A key that no key below extends, and that matches the prefix so far, goes on. */
  lemma LongEnough(n: Node, p: Key, key: Key, d: nat)
    requires TreeAt(n, p) && n.kind != Leaf && PrefixFree(n.contents.Keys, key)
    requires d <= |key| && d <= |n.path|
    requires forall j :: 0 <= j < d ==> n.path[j] == key[j]
    ensures d < |key|
  {
    var k := Inhabited(n, p);
    UnderPath(n, p, k);
    assert Routes(k, n.path, n.kids);
    assert d == |key| ==> key <= k;
  }

  /** Puts the subtree `r` back under byte `c` after the call below it. */
  method ReplaceChild(n: Node, c: Byte, slot: nat, r: Node, ghost p: Key, ghost rest: set<Node>,
                      ghost m: map<Key, Value>)
    requires TreeBut(n, p, c, rest) && n.IsSlot(c, slot)
    requires TreeAt(r, n.path + [c]) && r in r.repr && r.repr !! rest && n !in r.repr
    requires Rest(m, n.path, c) == Rest(n.contents, n.path, c)
    requires Agrees(m, n.path, c, r.contents)
    modifies n`children, n`kids, n`repr, n`contents
    ensures TreeAt(n, p) && n.contents == m && n.repr == {n} + rest + r.repr
  {
    hide TreeAt, IsUnion, Forest, Rest, Agrees, Node.Layout;
    ghost var others := n.kids - {c};
    n.SetSlot(c, slot, r);
    assert n.kids - {c} == others;
    n.repr := {n} + rest + r.repr;
    n.contents := m;
    Attach(n, p, c, rest);
  }

  /** Hangs a new leaf under a byte that has no child; the node may be replaced by a larger one. */
  method AddLeaf(n: Node, key: Key, value: Value, depth: nat, ghost p: Key) returns (r: Node)
    requires TreeAt(n, p) && n.kind != Leaf
    requires n.path <= key && |n.path| == depth < |key| && key[depth] !in n.kids
    modifies n
    ensures TreeAt(r, p) && r in r.repr && fresh(r.repr - old(n.repr))
    ensures r.contents == old(n.contents)[key := value]
  {
    hide TreeAt, TreeBut, IsUnion, Forest, Rest, Agrees, Node.Layout, Node.InRange;
    TreeParts(n, p);
    var c := key[depth];
    ghost var rest := Detach(n, p, c);
    var leaf := new Node.AllocLeaf(key, value);
    ghost var path, m := n.path, n.contents;
    assert path == key[..depth] && Via(key, path, c);
    LeafEnters(leaf, path + [c]);
    UpdateVia(m, path, c, map[], key, value);
    assert map[][key := value] == leaf.contents;
    r := Grown(n, c, leaf, p, rest, m[key := value]);
    Attach(r, p, c, rest);
  }

  /** Adds a child under an unused byte; the result stands where `n` stood. */
  method Grown(n: Node, c: Byte, child: Node, ghost p: Key, ghost rest: set<Node>, ghost m: map<Key, Value>)
    returns (r: Node)
    requires TreeBut(n, p, c, rest) && c !in n.kids
    requires Rest(m, n.path, c) == Rest(n.contents, n.path, c)
    modifies n
    ensures r == n || fresh(r)
    ensures TreeBut(r, p, c, rest) && r.kids == old(n.kids)[c := child]
    ensures r.path == old(n.path) && r.contents == m && r.repr == {r} + rest + old(child.repr)
  {
    hide TreeAt, IsUnion, Forest, Rest, Node.Layout, Node.InRange;
    ghost var path, kids, childRepr := n.path, n.kids, child.repr;
    ghost var len, bytes := n.partialLen, n.partial;
    HeaderStores(n, path, |p|);
    assert (kids - {c}).Values <= rest && Forest(path, kids - {c}, rest) && IsUnion(Rest(m, path, c), path, kids - {c});
    hide Header, SameHeader, Stores, TreeBut;
    r := n.AddChild(c, child);
    HeaderKept(r, len, bytes, path, |p|);
    assert r !in rest;
    assert r.kids - {c} == kids - {c};
    r.path, r.contents, r.repr := path, m, {r} + rest + childRepr;
    TreeButIntro(r, p, c, rest);
  }

  method RecursiveInsert(n: Node?, key: Key, value: Value, depth: nat, ghost p: Key)
    returns (r: Node, old_: Option<Value>)
    requires n != null ==> TreeAt(n, p) && PrefixFree(n.contents.Keys, key)
    requires |p| == depth && p <= key
    modifies Objects(n)
    ensures TreeAt(r, p) && r in r.repr && fresh(r.repr - old(Objects(n)))
    ensures r.contents == old(Entries(n))[key := value]
    ensures old_ == Lookup(old(Entries(n)), key)
    decreases Objects(n), 1
  {
    hide TreeAt, IsUnion, Forest;
    if n == null {
      r := new Node.AllocLeaf(key, value);
      LeafEnters(r, p);
      return r, None;
    }
    if n.kind == Leaf {
      LeafAt(n, p);
      if n.key == key {
        old_ := Some(n.value);
        n.value := value;
        n.contents := map[key := value];
        LeafEnters(n, p);
        return n, old_;
      }
      r := SplitLeaf(n, key, value, depth, p);
      return r, None;
    }
    r, old_ := InsertInner(n, key, value, depth, p);
  }

  method InsertInner(n: Node, key: Key, value: Value, depth: nat, ghost p: Key)
    returns (r: Node, old_: Option<Value>)
    requires TreeAt(n, p) && n.kind != Leaf && PrefixFree(n.contents.Keys, key)
    requires |p| == depth && p <= key
    modifies n.repr
    ensures TreeAt(r, p) && r in r.repr && fresh(r.repr - old(n.repr))
    ensures r.contents == old(n.contents)[key := value]
    ensures old_ == Lookup(old(n.contents), key)
    decreases n.repr, 0
  {
    hide TreeAt, TreeBut, IsUnion, Forest, Rest, Agrees, PrefixFree, Node.Layout;
    TreeParts(n, p);
    var depth' := depth;
    if n.partialLen != 0 {
      var diff := PrefixMismatch(n, key, depth, p);
      if diff < n.partialLen {
        LongEnough(n, p, key, depth + diff);
        Mismatch(n, p, key, depth + diff);
        r := SplitPrefix(n, key, value, depth, diff, p);
        return r, None;
      }
      depth' := depth + n.partialLen;
    }
    LongEnough(n, p, key, depth');
    StepDown(n, p, key, key[depth']);
    var c := key[depth'];
    var slot := n.FindChild(c);
    if slot.None? {
      r := AddLeaf(n, key, value, depth', p);
      return r, None;
    }
    ghost var rest := Detach(n, p, c);
    var child := n.children[slot.value];
    ghost var m, below := n.contents, child.contents;
    PrefixFreeBelow(below.Keys, m.Keys, key);
    var r', old' := RecursiveInsert(child, key, value, depth' + 1, n.path + [c]);
    UpdateVia(m, n.path, c, below, key, value);
    ReplaceChild(n, c, slot.value, r', p, rest, m[key := value]);
    return n, old';
  }

  // ----- delete

  /** The node without its child under `c`, for a node that stays an inner node. */
  method Shrunk(n: Node, c: Byte, slot: nat, ghost p: Key, ghost rest: set<Node>) returns (r: Node)
    requires TreeBut(n, p, c, rest) && n.IsSlot(c, slot)
    requires n.kind == Node4 ==> |n.kids| > 2
    modifies n
    ensures r == n || fresh(r)
    ensures TreeAt(r, p) && r.repr == {r} + rest
    ensures r.contents == old(Rest(n.contents, n.path, c))
  {
    hide TreeAt, IsUnion, Forest, Rest, Node.Layout, Node.InRange;
    ghost var path, kids, m := n.path, n.kids, Rest(n.contents, n.path, c);
    ghost var len, bytes := n.partialLen, n.partial;
    HeaderStores(n, path, |p|);
    hide Header, SameHeader, Stores;
    r := n.RemoveChild(c, slot);
    HeaderKept(r, len, bytes, path, |p|);
    r.path, r.contents, r.repr := path, m, {r} + rest;
    RemoveOne(r, rest);
    TreeIntro(r, p);
  }

  lemma SingleUnion(m: map<Key, Value>, path: Key, kids: map<Byte, Node>, b: Byte, kid: Node)
    requires IsUnion(m, path, kids) && kids == map[b := kid] && TreeAt(kid, path + [b])
    ensures m == kid.contents
  {
    forall k ensures k in m <==> k in kid.contents {
      if k in kid.contents {
        PathPrefix(kid, path + [b], k);
        assert Routes(k, path, kids);
      }
      if k in m { assert Routes(k, path, kids); }
    }
  }

  /** A node4 left with one child gives way to that child. */
  method Collapsed(n: Node, c: Byte, slot: nat, depth: nat, ghost p: Key, ghost rest: set<Node>) returns (r: Node)
    requires TreeBut(n, p, c, rest) && n.IsSlot(c, slot) && |p| == depth
    requires n.kind == Node4 && |n.kids| == 2
    modifies n, rest
    ensures TreeAt(r, p) && r in r.repr && r.repr <= rest
    ensures r.contents == old(Rest(n.contents, n.path, c))
  {
    hide TreeAt, IsUnion, Forest, Rest;
    ghost var path, kids, m := n.path, n.kids - {c}, Rest(n.contents, n.path, c);
    n.Erase(slot);
    PackedSingle(n.keys, n.children, n.kids);
    var child := n.children[0];
    ghost var b := n.keys[0];
    ForestAt(path, kids, rest, b);
    SingleUnion(m, path, kids, b, child);
    if child.kind == Leaf {
      LeafAt(child, path + [b]);
      LeafEnters(child, p);
    } else {
      TreeParts(child, path + [b]);
      n.CollapseInto(child, path, child.path, depth);
      TreeIntro(child, p);
    }
    return child;
  }

  lemma ForestAt(path: Key, kids: map<Byte, Node>, objects: set<Node>, b: Byte)
    requires Forest(path, kids, objects) && b in kids
    ensures TreeAt(kids[b], path + [b])
    ensures kids[b] in kids[b].repr && kids[b].repr <= objects
  {
  }

  /** `remove_child` on the slot of a matched leaf. */
  method RemoveLeaf(n: Node, c: Byte, slot: nat, depth: nat, ghost p: Key, ghost rest: set<Node>) returns (r: Node)
    requires TreeBut(n, p, c, rest) && n.IsSlot(c, slot) && |p| == depth
    modifies n, rest
    ensures TreeAt(r, p) && r in r.repr && fresh(r.repr - {n} - rest)
    ensures r.contents == old(Rest(n.contents, n.path, c))
  {
    hide TreeAt, IsUnion, Forest, Rest;
    if n.kind == Node4 && n.num == 2 {
      r := Collapsed(n, c, slot, depth, p, rest);
    } else {
      r := Shrunk(n, c, slot, p, rest);
    }
  }

  lemma RestOfLeaf(m: map<Key, Value>, path: Key, c: Byte, key: Key, value: Value)
    requires Agrees(m, path, c, map[key := value]) && Via(key, path, c)
    ensures Rest(m, path, c) == m - {key}
  {
    forall k | k in m && Via(k, path, c) ensures k == key {
      assert Lookup(m, k) == Lookup(map[key := value], k);
    }
  }

  /** Removing an absent key changes nothing. */
  lemma AbsentVia(m: map<Key, Value>, path: Key, c: Byte, below: map<Key, Value>, key: Key)
    requires key !in m && key !in below
    ensures m - {key} == m && below - {key} == below
  {
  }

  method RecursiveDelete(n: Node?, key: Key, depth: nat, ghost p: Key) returns (r: Node?, removed: Option<Value>)
    requires n != null ==> TreeAt(n, p) && |p| == depth
    modifies Objects(n)
    ensures r != null ==> TreeAt(r, p) && r in r.repr && fresh(r.repr - old(Objects(n)))
    ensures Entries(r) == old(Entries(n)) - {key}
    ensures removed == Lookup(old(Entries(n)), key)
    ensures old(n != null && n.kind != Leaf) ==> r != null
    decreases Objects(n)
  {
    hide TreeAt, TreeBut, IsUnion, Forest, Rest, Agrees, Node.Layout, Node.InRange;
    if n == null { return null, None; }
    if n.kind == Leaf {
      LeafAt(n, p);
      if n.key == key { return null, Some(n.value); }
      return n, None;
    }
    TreeParts(n, p);
    var slot, c, depth' := NextChild(n, key, depth, p);
    if slot.None? { return n, None; }
    ghost var rest := Detach(n, p, c);
    var child := n.children[slot.value];
    ghost var path, m, below := n.path, n.contents, child.contents;
    if child.kind == Leaf {
      LeafAt(child, path + [c]);
      if child.key != key { return n, None; }
      removed := Some(child.value);
      assert Via(key, path, c);
      RestOfLeaf(m, path, c, key, child.value);
      r := RemoveLeaf(n, c, slot.value, depth, p, rest);
      return;
    }
    if key in below { PathPrefix(child, path + [c], key); }
    var r', removed' := RecursiveDelete(child, key, depth' + 1, path + [c]);
    if key in below {
      UpdateVia(m, path, c, below, key, 0);
    } else {
      AbsentVia(m, path, c, below, key);
    }
    ReplaceChild(n, c, slot.value, r', p, rest, m - {key});
    return n, removed';
  }

  // ----- iteration

  ghost predicate Sorted(s: seq<Key>) {
    forall i, j :: 0 <= i < j < |s| ==> Less(s[i], s[j])
  }

  /** `s` lists, in byte order, the smallest |s| keys of `keys`. */
  ghost predicate IsFirst(s: seq<Key>, keys: set<Key>) {
    && Sorted(s)
    && (forall k :: k in s ==> k in keys)
    && (forall k, l :: k in s && l in keys && l !in s ==> Less(k, l))
  }

  /** What a callback run over `keys` has seen: the smallest keys in order, stopping at the first
      one on which the callback returned nonzero. */
  ghost predicate Visited(s: seq<Key>, res: int, m: map<Key, Value>, cb: (Key, Value) -> int) {
    && IsFirst(s, m.Keys)
    && (res == 0 ==> forall k :: k in m ==> k in s)
    && (res == 0 ==> forall k :: k in s ==> cb(k, m[k]) == 0)
    && (res != 0 ==> |s| > 0 && cb(s[|s| - 1], m[s[|s| - 1]]) == res)
    && (res != 0 ==> forall i :: 0 <= i < |s| - 1 ==> cb(s[i], m[s[i]]) == 0)
  }

  /** `s` lists, in order, the keys below the children for bytes less than `b`, and the callback
      returned 0 on each. */
  ghost predicate DoneBelow(s: seq<Key>, n: Node, b: nat, cb: (Key, Value) -> int)
    reads n
  {
    && Sorted(s)
    && (forall k :: k in s <==> k in n.contents && |n.path| < |k| && k[|n.path|] < b)
    && (forall k :: k in s ==> cb(k, n.contents[k]) == 0)
  }

  lemma SortedJoin(s: seq<Key>, t: seq<Key>)
    requires Sorted(s) && Sorted(t)
    requires forall k, l :: k in s && l in t ==> Less(k, l)
    ensures Sorted(s + t)
  {
    var u := s + t;
    forall i, j | 0 <= i < j < |u| ensures Less(u[i], u[j]) {
      if i < |s| && |s| <= j {
        assert u[i] in s && u[j] in t;
      }
    }
  }

  /** Below byte `b` are the keys that go on with `b`, and smaller bytes mean smaller keys. */
  lemma KidKeys(n: Node, p: Key, b: Byte)
    requires TreeAt(n, p) && n.kind != Leaf && b in n.kids
    ensures forall k :: k in n.contents ==> |n.path| < |k|
    ensures forall k :: k in n.kids[b].contents <==> k in n.contents && k[|n.path|] == b
    ensures forall k :: k in n.kids[b].contents ==> n.kids[b].contents[k] == n.contents[k]
    ensures forall k, l :: k in n.contents && l in n.contents && k[|n.path|] < l[|n.path|] ==> Less(k, l)
  {
    forall k ensures k in n.kids[b].contents ==> Via(k, n.path, b) && Routes(k, n.path, n.kids) {
      if k in n.kids[b].contents { PathPrefix(n.kids[b], n.path + [b], k); }
    }
    assert forall k :: k in n.contents <==> Routes(k, n.path, n.kids);
    forall k, l | k in n.contents && l in n.contents && k[|n.path|] < l[|n.path|]
      ensures Less(k, l)
    {
      assert Routes(k, n.path, n.kids) && Routes(l, n.path, n.kids);
      KidOrder(n, p, k[|n.path|], l[|n.path|], k, l);
    }
  }

  /** After the callback ran over the child for byte `b`. */
  lemma JoinKid(n: Node, p: Key, s: seq<Key>, t: seq<Key>, res: int, b: Byte, cb: (Key, Value) -> int)
    requires TreeAt(n, p) && n.kind != Leaf && b in n.kids
    requires DoneBelow(s, n, b, cb) && Visited(t, res, n.kids[b].contents, cb)
    ensures res == 0 ==> DoneBelow(s + t, n, b + 1, cb)
    ensures res != 0 ==> Visited(s + t, res, n.contents, cb)
  {
    hide TreeAt, Less;
    KidKeys(n, p, b);
    SortedJoin(s, t);
    var u, d := s + t, |n.path|;
    if res != 0 {
      forall k, l | k in u && l in n.contents && l !in u ensures Less(k, l) {
        if k in t && l[d] == b {
          assert l in n.kids[b].contents;
        }
      }
    }
  }

  /** Bytes without a child hold no keys. */
  lemma SkipGap(n: Node, p: Key, s: seq<Key>, b: nat, b': nat, cb: (Key, Value) -> int)
    requires TreeAt(n, p) && n.kind != Leaf && DoneBelow(s, n, b, cb) && b <= b'
    requires forall d: Byte :: b <= d < b' ==> d !in n.kids
    ensures DoneBelow(s, n, b', cb)
  {
    forall k | k in n.contents ensures k[|n.path|] in n.kids {
      assert Routes(k, n.path, n.kids);
    }
  }

  /** Runs the callback over the packed children (node4, node16) in array order. */
  method IterPacked(n: Node, cb: (Key, Value) -> int, ghost p: Key) returns (res: int, s: seq<Key>)
    requires TreeAt(n, p) && (n.kind == Node4 || n.kind == Node16)
    ensures Visited(s, res, n.contents, cb)
    decreases n.repr, 0
  {
    hide TreeAt, Forest, IsUnion, DoneBelow, Visited, Node.InRange;
    TreeParts(n, p);
    s := [];
    ghost var b: nat := 0;
    NothingBelow(n, cb);
    for i := 0 to n.num
      invariant DoneBelow(s, n, b, cb)
      invariant b == if i == 0 then 0 else n.keys[i - 1] as int + 1
    {
      ghost var c := n.keys[i];
      PackedGap(n, i, b);
      SkipGap(n, p, s, b, c, cb);
      ForestAt(n.path, n.kids, n.repr - {n}, c);
      var t;
      res, t := RecursiveIter(n.children[i], cb, n.path + [c]);
      JoinKid(n, p, s, t, res, c, cb);
      s := s + t;
      if res != 0 { return; }
      b := c as int + 1;
    }
    PackedGap(n, n.num, b);
    SkipGap(n, p, s, b, 256, cb);
    AllDone(n, p, s, cb);
    res := 0;
  }

  /** Runs the callback over the children of a node48 or node256, byte by byte. */
  method IterBytes(n: Node, cb: (Key, Value) -> int, ghost p: Key) returns (res: int, s: seq<Key>)
    requires TreeAt(n, p) && (n.kind == Node48 || n.kind == Node256)
    ensures Visited(s, res, n.contents, cb)
    decreases n.repr, 0
  {
    hide TreeAt, Forest, IsUnion, DoneBelow, Visited, Node.InRange;
    TreeParts(n, p);
    s := [];
    NothingBelow(n, cb);
    for i := 0 to 256
      invariant DoneBelow(s, n, i, cb)
    {
      var child := if n.kind == Node256 then n.children[i]
        else if n.keys[i] != 0 then n.children[n.keys[i] - 1] else null;
      if child == null {
        SkipGap(n, p, s, i, i + 1, cb);
        continue;
      }
      ForestAt(n.path, n.kids, n.repr - {n}, i);
      var t;
      res, t := RecursiveIter(child, cb, n.path + [i]);
      JoinKid(n, p, s, t, res, i, cb);
      s := s + t;
      if res != 0 { return; }
    }
    AllDone(n, p, s, cb);
    res := 0;
  }

  lemma NothingBelow(n: Node, cb: (Key, Value) -> int)
    ensures DoneBelow([], n, 0, cb)
  {
  }

  lemma AllDone(n: Node, p: Key, s: seq<Key>, cb: (Key, Value) -> int)
    requires TreeAt(n, p) && n.kind != Leaf && DoneBelow(s, n, 256, cb)
    ensures Visited(s, 0, n.contents, cb)
  {
    forall k | k in n.contents ensures k in s {
      assert Routes(k, n.path, n.kids);
    }
  }

  /** Between two neighbouring keys of a packed node there are no children. */
  lemma PackedGap(n: Node, i: nat, b: nat)
    requires (n.kind == Node4 || n.kind == Node16) && n.Layout() && i <= n.num
    requires b == if i == 0 then 0 else n.keys[i - 1] as int + 1
    ensures i < n.num ==> b <= n.keys[i]
    ensures forall d: Byte :: b <= d && (i < n.num ==> d < n.keys[i]) ==> d !in n.kids
  {
    forall d: Byte | b <= d && (i < n.num ==> d < n.keys[i]) ensures d !in n.kids {
      if d in n.kids {
        PackedFind(|n.keys|, n.num, n.keys, n.children, n.kids, d);
      }
    }
  }

  method RecursiveIter(n: Node?, cb: (Key, Value) -> int, ghost p: Key) returns (res: int, s: seq<Key>)
    requires n != null ==> TreeAt(n, p)
    ensures Visited(s, res, Entries(n), cb)
    decreases Objects(n), 1
  {
    if n == null { return 0, []; }
    match n.kind {
      case Leaf =>
        res, s := cb(n.key, n.value), [n.key];
      case Node4 => res, s := IterPacked(n, cb, p);
      case Node16 => res, s := IterPacked(n, cb, p);
      case Node48 => res, s := IterBytes(n, cb, p);
      case Node256 => res, s := IterBytes(n, cb, p);
    }
  }

  lemma LookupSome(m: map<Key, Value>, key: Key)
    ensures Lookup(m, key).Some? <==> key in m
  {
  }

  lemma RemovedSize(m: map<Key, Value>, key: Key)
    ensures |m - {key}| == |m| - (if key in m then 1 else 0)
  {
    assert (m - {key}).Keys == m.Keys - {key};
  }

  class Tree {
    var root: Node?
    var size: nat

    ghost function Contents(): map<Key, Value>
      reads this, root
    {
      Entries(root)
    }

    ghost function Repr(): set<Node>
      reads this, root
    {
      Objects(root)
    }

    ghost predicate Valid()
      reads this, root, Repr()
    {
      && (root != null ==> root in root.repr && TreeAt(root, []))
      && size == |Contents()|
    }

    constructor ()
      ensures Valid() && Contents() == map[] && fresh(Repr())
    {
      root, size := null, 0;
    }

    method Search(key: Key) returns (r: Option<Value>)
      requires Valid()
      ensures r == Lookup(Contents(), key)
    {
      r := SearchFrom(root, key);
    }

    /** Calls `cb` on the entries in byte order until it returns nonzero. */
    method Iter(cb: (Key, Value) -> int) returns (res: int, visited: seq<Key>)
      requires Valid()
      ensures Visited(visited, res, Contents(), cb)
    {
      res, visited := RecursiveIter(root, cb, []);
    }

    /** Keys in play must be prefix-free: no key is a proper prefix of another. */
    method Insert(key: Key, value: Value) returns (old_: Option<Value>)
      requires Valid() && PrefixFree(Contents().Keys, key)
      modifies this, Repr()
      ensures Valid() && fresh(Repr() - old(Repr()))
      ensures Contents() == old(Contents())[key := value]
      ensures old_ == Lookup(old(Contents()), key)
      ensures size == old(size) + (if old_.None? then 1 else 0)
    {
      hide TreeAt, Forest, IsUnion, Node.Layout, Node.InRange;
      var r;
      r, old_ := RecursiveInsert(root, key, value, 0, []);
      root := r;
      if old_.None? { size := size + 1; }
    }

    method Delete(key: Key) returns (old_: Option<Value>)
      requires Valid()
      modifies this, Repr()
      ensures Valid() && fresh(Repr() - old(Repr()))
      ensures Contents() == old(Contents()) - {key}
      ensures old_ == Lookup(old(Contents()), key)
      ensures size == old(size) - (if old_.Some? then 1 else 0)
    {
      hide TreeAt, Forest, IsUnion, Node.Layout, Node.InRange, Entries, Lookup;
      ghost var m, objects := Contents(), Repr();
      LookupSome(m, key);
      RemovedSize(m, key);
      var r;
      r, old_ := RecursiveDelete(root, key, 0, []);
      assert r == null || (r in r.repr && TreeAt(r, []) && fresh(r.repr - objects));
      root := r;
      if old_.Some? { size := size - 1; }
      assert Contents() == m - {key};
    }
  }
}
