/** Machine words as their bits, the least significant first, with the shifts and masks of C. */
module Words {

  type Word = seq<bool>

  function Shr(w: Word, s: nat): (r: Word)
    ensures |r| == |w| && forall k :: 0 <= k < |w| ==> r[k] == (k + s < |w| && w[k + s])
  {
    seq(|w|, k requires 0 <= k < |w| => k + s < |w| && w[k + s])
  }

  function Shl(w: Word, s: nat): (r: Word)
    ensures |r| == |w| && forall k :: 0 <= k < |w| ==> r[k] == (k >= s && w[k - s])
  {
    seq(|w|, k requires 0 <= k < |w| => k >= s && w[k - s])
  }

  function And(a: Word, b: Word): (r: Word)
    requires |a| == |b|
    ensures |r| == |a| && forall k :: 0 <= k < |a| ==> r[k] == (a[k] && b[k])
  {
    seq(|a|, k requires 0 <= k < |a| => a[k] && b[k])
  }

  function Or(a: Word, b: Word): (r: Word)
    requires |a| == |b|
    ensures |r| == |a| && forall k :: 0 <= k < |a| ==> r[k] == (a[k] || b[k])
  {
    seq(|a|, k requires 0 <= k < |a| => a[k] || b[k])
  }

  function Not(a: Word): (r: Word)
    ensures |r| == |a| && forall k :: 0 <= k < |a| ==> r[k] == !a[k]
  {
    seq(|a|, k requires 0 <= k < |a| => !a[k])
  }

  function Ones(n: nat): (r: Word)
    ensures |r| == n && forall k :: 0 <= k < n ==> r[k]
  {
    seq(n, _ => true)
  }

  function Zeros(n: nat): (r: Word)
    ensures |r| == n && forall k :: 0 <= k < n ==> !r[k]
  {
    seq(n, _ => false)
  }

  /** The number 1. */
  function One(n: nat): (r: Word)
    requires n > 0
    ensures |r| == n && forall k :: 0 <= k < n ==> (r[k] <==> k == 0)
  {
    [true] + Zeros(n - 1)
  }
}
