/** The order by which hash_strmap sorts its keys (src/terark/hash_strmap.hpp, fstring.hpp): the first
    bytes of each key as one byte-swapped number, then the lengths, then the remaining bytes by
    aligned words.  It is the lexicographic order of unsigned bytes. */
module StrOrder {

  import RadixSort

  type Byte = b: nat | b < 256

  type Key = seq<Byte>

  function Pow256(n: nat): (r: nat)
    ensures r > 0
  {
    if n == 0 then 1 else 256 * Pow256(n - 1)
  }

  // ------------------------------------------------------------------ the prefix

  /** What a little-endian machine reads from these bytes. */
  function LoadLittle(s: seq<Byte>): (v: nat) {
    if s == [] then 0 else s[0] + 256 * LoadLittle(s[1..])
  }

  /** The number with its n bytes in the opposite order. */
  function ByteSwap(v: nat, n: nat): (r: nat) {
    if n == 0 then 0 else v % 256 * Pow256(n - 1) + ByteSwap(v / 256, n - 1)
  }

  function Zeros(n: nat): (r: seq<Byte>)
    ensures |r| == n && forall i :: 0 <= i < n ==> r[i] == 0
  {
    seq(n, _ => 0)
  }

  /** The first n bytes of a key, followed by zeros when it is shorter. */
  function Padded(k: Key, n: nat): (r: seq<Byte>)
    ensures |r| == n && forall i :: 0 <= i < n ==> r[i] == if i < |k| then k[i] else 0
  {
    if |k| >= n then k[..n] else k + Zeros(n - |k|)
  }

  /** The prefix of a sort index entry. */
  function PrefixOf(k: Key, n: nat): nat {
    ByteSwap(LoadLittle(Padded(k, n)), n)
  }

  lemma {:induction false} SwapStep(s: seq<Byte>)
    requires s != []
    ensures ByteSwap(LoadLittle(s), |s|) == s[0] * Pow256(|s| - 1) + ByteSwap(LoadLittle(s[1..]), |s| - 1)
  {
    var v, rest := LoadLittle(s), LoadLittle(s[1..]);
    assert v == s[0] + 256 * rest;
    DigitOf(s[0], rest);
  }

  lemma DigitOf(b: Byte, rest: nat)
    ensures (b + 256 * rest) % 256 == b && (b + 256 * rest) / 256 == rest
  {
  }

  lemma {:induction false} SwapBound(s: seq<Byte>)
    ensures ByteSwap(LoadLittle(s), |s|) < Pow256(|s|)
  {
    if s != [] {
      SwapStep(s);
      SwapBound(s[1..]);
      hide ByteSwap, LoadLittle;
      AtMost(s[0], Pow256(|s| - 1));
    }
  }

  lemma AtMost(b: Byte, p: nat)
    ensures b * p + p <= 256 * p
  {
    Times(b + 1, 256, p);
  }

  lemma Times(a: nat, b: nat, p: nat)
    requires a <= b
    ensures a * p <= b * p
  {
  }

  /** Numbers of swapped bytes compare as the bytes do. */
  lemma {:induction false} SwapOrder(a: seq<Byte>, b: seq<Byte>)
    requires |a| == |b|
    ensures ByteSwap(LoadLittle(a), |a|) < ByteSwap(LoadLittle(b), |b|) <==> RadixSort.Less(a, b)
    ensures ByteSwap(LoadLittle(a), |a|) == ByteSwap(LoadLittle(b), |b|) <==> a == b
  {
    if a != [] {
      var n, x, y := |a| - 1, ByteSwap(LoadLittle(a[1..]), |a| - 1), ByteSwap(LoadLittle(b[1..]), |b| - 1);
      SwapStep(a);
      SwapStep(b);
      SwapBound(a[1..]);
      SwapBound(b[1..]);
      SwapOrder(a[1..], b[1..]);
      TwoDigits(a[0], x, b[0], y, Pow256(n));
      TwoDigits(b[0], y, a[0], x, Pow256(n));
      hide ByteSwap, LoadLittle, Pow256;
      assert a == [a[0]] + a[1..] && b == [b[0]] + b[1..];
    }
  }

  lemma TwoDigits(a: Byte, x: nat, b: Byte, y: nat, p: nat)
    requires x < p && y < p
    ensures a < b ==> a * p + x < b * p + y
    ensures a == b ==> (a * p + x < b * p + y <==> x < y)
  {
    if a < b { Times(a + 1, b, p); }
  }

  // ------------------------------------------------------------------ lexicographic order

  /** The order is decided at the first difference. */
  lemma {:induction false} LessAt(a: Key, b: Key, i: nat)
    requires i <= |a| && i <= |b| && a[..i] == b[..i]
    ensures RadixSort.Less(a, b) <==> RadixSort.Less(a[i..], b[i..])
  {
    if i > 0 {
      assert a[0] == a[..i][0] == b[..i][0] == b[0];
      assert a[1..][..i - 1] == a[..i][1..] == b[..i][1..] == b[1..][..i - 1];
      LessAt(a[1..], b[1..], i - 1);
      assert a[1..][i - 1..] == a[i..] && b[1..][i - 1..] == b[i..];
    } else {
      assert a[0..] == a && b[0..] == b;
    }
  }

  /** `less_align`: words of `align` bytes as long as they are equal and whole, then bytes. */
  method LessAlign(x: Key, y: Key, align: nat) returns (less: bool)
    requires align > 0
    ensures less <==> RadixSort.Less(x, y)
  {
    var n := if |x| < |y| then |x| else |y|;
    var c: int := n - (align - 1);
    var i := 0;
    while i < c && x[i..i + align] == y[i..i + align]
      invariant i <= n && x[..i] == y[..i]
      decreases n - i
    {
      Longer(x, y, i, align);
      i := i + align;
    }
    while i < n
      invariant i <= n && x[..i] == y[..i]
    {
      if x[i] != y[i] {
        LessAt(x, y, i);
        return x[i] < y[i];
      }
      Longer(x, y, i, 1);
      i := i + 1;
    }
    LessAt(x, y, n);
    return |x| < |y|;
  }

  lemma Longer(x: Key, y: Key, i: nat, k: nat)
    requires i + k <= |x| && i + k <= |y| && x[..i] == y[..i] && x[i..i + k] == y[i..i + k]
    ensures x[..i + k] == y[..i + k]
  {
    assert x[..i + k] == x[..i] + x[i..i + k] && y[..i + k] == y[..i] + y[i..i + k];
  }

  /** An entry of the sort index: where the key is, its length and its prefix. */
  datatype Entry = Entry(prefix: nat, key: Key)

  ghost predicate Indexed(x: Entry, prefixLen: nat) {
    x.prefix == PrefixOf(x.key, prefixLen)
  }

  /** `ByteWiseKeyCompare` */
  method KeyLess(x: Entry, y: Entry, prefixLen: nat, align: nat) returns (less: bool)
    requires Indexed(x, prefixLen) && Indexed(y, prefixLen) && align > 0
    ensures less <==> RadixSort.Less(x.key, y.key)
  {
    var a, b := x.key, y.key;
    PrefixDecides(a, b, prefixLen);
    if x.prefix < y.prefix { return true; }
    if y.prefix < x.prefix { return false; }
    if |a| <= prefixLen || |b| <= prefixLen { return |a| < |b|; }
    less := LessAlign(a[prefixLen..], b[prefixLen..], align);
  }

  /** A smaller padded prefix is a smaller key; with equal ones a key that ends within them is a prefix
      of the other up to zeros, and otherwise the rest decides. */
  lemma PrefixDecides(a: Key, b: Key, n: nat)
    ensures PrefixOf(a, n) < PrefixOf(b, n) ==> RadixSort.Less(a, b)
    ensures PrefixOf(b, n) < PrefixOf(a, n) ==> !RadixSort.Less(a, b)
    ensures PrefixOf(a, n) == PrefixOf(b, n) && (|a| <= n || |b| <= n) ==> (RadixSort.Less(a, b) <==> |a| < |b|)
    ensures PrefixOf(a, n) == PrefixOf(b, n) && |a| > n && |b| > n ==>
      (RadixSort.Less(a, b) <==> RadixSort.Less(a[n..], b[n..]))
  {
    var p, q := Padded(a, n), Padded(b, n);
    SwapOrder(p, q);
    SwapOrder(q, p);
    hide ByteSwap, LoadLittle;
    if p == q {
      if |a| > n && |b| > n { LessAt(a, b, n); } else { ZerosDecide(a, b, n); }
    } else {
      FirstDifference(a, b, n);
    }
  }

  lemma ZerosDecide(a: Key, b: Key, n: nat)
    requires Padded(a, n) == Padded(b, n) && (|a| <= n || |b| <= n)
    ensures RadixSort.Less(a, b) <==> |a| < |b|
  {
    var m := if |a| < |b| then |a| else |b|;
    forall i | 0 <= i < m ensures a[i] == b[i] { assert Padded(a, n)[i] == Padded(b, n)[i]; }
    assert a[..m] == b[..m];
    LessAt(a, b, m);
  }

  lemma FirstDifference(a: Key, b: Key, n: nat)
    requires Padded(a, n) != Padded(b, n)
    ensures RadixSort.Less(Padded(a, n), Padded(b, n)) ==> RadixSort.Less(a, b)
    ensures RadixSort.Less(Padded(b, n), Padded(a, n)) ==> !RadixSort.Less(a, b)
  {
    var p, q := Padded(a, n), Padded(b, n);
    var i := Differ(p, q);
    LessAt(p, q, i);
    LessAt(q, p, i);
    // a key that has ended before i is a prefix of the other, whose byte there is not zero
    var m := if |a| < |b| then |a| else |b|;
    var j := if i < m then i else m;
    forall l | 0 <= l < j ensures a[l] == b[l] { assert p[..i][l] == q[..i][l]; }
    assert a[..j] == b[..j];
    LessAt(a, b, j);
  }

  lemma {:induction false} Differ(p: seq<Byte>, q: seq<Byte>) returns (i: nat)
    requires |p| == |q| && p != q
    ensures i < |p| && p[i] != q[i] && p[..i] == q[..i]
  {
    if p[0] != q[0] {
      i := 0;
    } else {
      assert p == [p[0]] + p[1..] && q == [q[0]] + q[1..];
      var k := Differ(p[1..], q[1..]);
      i := k + 1;
      assert p[..i] == [p[0]] + p[1..][..k] && q[..i] == [q[0]] + q[1..][..k];
    }
  }
}
