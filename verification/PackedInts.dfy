/** UintVecMin0 (src/terark/int_vector.hpp, int_vector.cpp) on febitvec's two-word access
    (bitmap.hpp, bitmap.cpp), with 64-bit words in little-endian order.  The memory is
    its bits. */
module PackedInts {

  import opened Words

  /** The aligned word j of the memory. */
  function WordAt(mem: seq<bool>, j: nat): (r: Word)
    requires 64 * (j + 1) <= |mem|
    ensures |r| == 64 && forall k :: 0 <= k < 64 ==> r[k] == mem[64 * j + k]
  {
    seq(64, k requires 0 <= k < 64 => mem[64 * j + k])
  }

  /** The unaligned load of a word at a byte address. */
  function LoadAt(mem: seq<bool>, byte: nat): (r: Word)
    requires 8 * byte + 64 <= |mem|
    ensures |r| == 64 && forall k :: 0 <= k < 64 ==> r[k] == mem[8 * byte + k]
  {
    seq(64, k requires 0 <= k < 64 => mem[8 * byte + k])
  }

  /** The memory with a word stored. */
  function Stored(mem: seq<bool>, j: nat, w: Word): (mem': seq<bool>)
    requires 64 * (j + 1) <= |mem| && |w| == 64
    ensures |mem'| == |mem|
    ensures forall q :: 0 <= q < |mem| ==> mem'[q] == if 64 * j <= q < 64 * (j + 1) then w[q - 64 * j] else mem[q]
  {
    seq(|mem|, q requires 0 <= q < |mem| => if 64 * j <= q < 64 * (j + 1) then w[q - 64 * j] else mem[q])
  }

  /** What a field of the memory holds. */
  ghost function Field(mem: seq<bool>, pos: nat, width: nat): (r: Word)
    requires width <= 64 && pos + width <= |mem|
    ensures |r| == 64 && forall k :: 0 <= k < 64 ==> r[k] == (k < width && mem[pos + k])
  {
    seq(64, k requires 0 <= k < 64 => k < width && mem[pos + k])
  }

  /** The words that a field touches are in the memory. */
  ghost predicate Reaches(mem: seq<bool>, pos: nat, width: nat) {
    && width <= 64 && pos + width <= |mem|
    && 64 * (pos / 64 + 1) <= |mem|
    && (pos % 64 + width > 64 ==> 64 * (pos / 64 + 2) <= |mem|)
  }

  /** `s_get_uint`: from one word, or from two. */
  function GetUint(mem: seq<bool>, pos: nat, width: nat): (r: Word)
    requires Reaches(mem, pos, width)
    ensures |r| == 64
  {
    var j, offset := pos / 64, pos % 64;
    var mask := if width < 64 then Not(Shl(Ones(64), width)) else Ones(64);
    var low := Shr(WordAt(mem, j), offset);
    if offset + width <= 64 then And(mask, low) else And(mask, Or(low, Shl(WordAt(mem, j + 1), 64 - offset)))
  }

  lemma GetsBit(mem: seq<bool>, pos: nat, width: nat, k: nat)
    requires Reaches(mem, pos, width) && k < 64
    ensures GetUint(mem, pos, width)[k] == (k < width && mem[pos + k])
  {
    hide WordAt;
    var j, offset := pos / 64, pos % 64;
    assert pos == 64 * j + offset;
    var w0 := WordAt(mem, j);
    if k < width && offset + k < 64 { assert w0[offset + k] == mem[pos + k]; }
    if k < width && offset + k >= 64 {
      var w1 := WordAt(mem, j + 1);
      assert w1[offset + k - 64] == mem[pos + k];
    }
  }

  /** The two-word read is the field. */
  lemma GetsField(mem: seq<bool>, pos: nat, width: nat)
    requires Reaches(mem, pos, width)
    ensures GetUint(mem, pos, width) == Field(mem, pos, width)
  {
    hide GetUint;
    var r, f := GetUint(mem, pos, width), Field(mem, pos, width);
    forall k | 0 <= k < 64 ensures r[k] == f[k] { GetsBit(mem, pos, width, k); }
  }

  /** `fast_get`: one unaligned load. */
  function FastGet(mem: seq<bool>, bits: nat, mask: Word, idx: nat): (r: Word)
    requires 8 * (bits * idx / 8) + 64 <= |mem| && |mask| == 64
    ensures |r| == 64
  {
    var bitIdx := bits * idx;
    And(Shr(LoadAt(mem, bitIdx / 8), bitIdx % 8), mask)
  }

  ghost predicate IsMask(mask: Word, bits: nat) {
    |mask| == 64 && forall k :: 0 <= k < 64 ==> (mask[k] <==> k < bits)
  }

  /** The load at the byte where the field begins holds the whole field. */
  ghost predicate OneLoad(bits: nat, idx: nat) {
    bits * idx % 8 + bits <= 64
  }

  lemma ModEight(pos: nat)
    ensures pos % 8 <= 7 && 8 * pos % 8 == 0
  {
  }

  lemma EvenMod(half: nat)
    ensures 2 * half % 8 <= 6 && 4 * half % 8 <= 4
  {
    var two, four := 2 * half, 4 * half;
    assert two % 8 == two - 8 * (two / 8);
    assert four % 8 == four - 8 * (four / 8);
  }

  lemma EvenStart(bits: nat, idx: nat)
    requires bits == 58 || bits == 60
    ensures OneLoad(bits, idx)
  {
    if bits == 58 {
      EvenMod(29 * idx);
      assert 58 * idx == 2 * (29 * idx);
    } else {
      EvenMod(15 * idx);
      assert 60 * idx == 4 * (15 * idx);
    }
  }

  /** The widths for which one load holds every field: those that `fast_get` demands, and 60 and 64. */
  lemma OneLoadWidths(bits: nat)
    requires bits <= 64
    ensures (forall idx: nat :: OneLoad(bits, idx)) <==> bits <= 58 || bits == 60 || bits == 64
  {
    if bits <= 57 {
      forall idx: nat ensures OneLoad(bits, idx) { ModEight(bits * idx); }
    } else if bits == 58 || bits == 60 {
      forall idx: nat ensures OneLoad(bits, idx) { EvenStart(bits, idx); }
    } else if bits == 64 {
      forall idx: nat ensures OneLoad(bits, idx) { assert 64 * idx == 8 * (8 * idx); ModEight(8 * idx); }
    } else if bits == 59 {
      assert !OneLoad(59, 2);
    } else {
      assert !OneLoad(bits, 1);
    }
  }

  /** Where one load holds the field, `fast_get` reads the field. */
  lemma FastGetsField(mem: seq<bool>, bits: nat, mask: Word, idx: nat)
    requires bits <= 64 && OneLoad(bits, idx) && IsMask(mask, bits)
    requires 8 * (bits * idx / 8) + 64 <= |mem|
    ensures bits * idx + bits <= |mem|
    ensures FastGet(mem, bits, mask, idx) == Field(mem, bits * idx, bits)
  {
    var pos := bits * idx;
    var byte, offset := pos / 8, pos % 8;
    assert pos == 8 * byte + offset;
    var w := LoadAt(mem, byte);
    var r, f := FastGet(mem, bits, mask, idx), Field(mem, pos, bits);
    forall k | 0 <= k < 64 ensures r[k] == f[k] {
      if k < bits { assert w[offset + k] == mem[pos + k]; }
    }
  }

  /** Where it does not, the top bit of the field is lost. */
  lemma FastGetMisses(mem: seq<bool>, bits: nat, mask: Word, idx: nat)
    requires bits <= 64 && !OneLoad(bits, idx) && IsMask(mask, bits)
    requires bits * idx + bits <= |mem| && mem[bits * idx + bits - 1]
    ensures FastGet(mem, bits, mask, idx) != Field(mem, bits * idx, bits)
  {
    var pos := bits * idx;
    var r, f := FastGet(mem, bits, mask, idx), Field(mem, pos, bits);
    assert pos == 8 * (pos / 8) + pos % 8;
    assert f[bits - 1] && !r[bits - 1];
  }

  ghost predicate Fits(val: Word, width: nat) {
    |val| == 64 && forall k :: width <= k < 64 ==> !val[k]
  }

  /** What `s_set_uint_tpl` writes to the word where the field begins. */
  function FirstWord(old0: Word, offset: nat, width: nat, val: Word): (r: Word)
    requires |old0| == 64 && offset < 64 && Fits(val, width)
    ensures |r| == 64
    ensures forall k :: 0 <= k < 64 ==> r[k] == if offset <= k < offset + width then val[k - offset] else old0[k]
  {
    if offset + width < 64 then
      Or(And(old0, Or(Not(Shl(Ones(64), offset)), Shl(Ones(64), offset + width))), Shl(val, offset))
    else
      Or(And(old0, Not(Shl(Ones(64), offset))), Shl(val, offset))
  }

  /** What it writes to the next word, when the field goes on there. */
  function SecondWord(old1: Word, offset: nat, width: nat, val: Word): (r: Word)
    requires |old1| == 64 && offset < 64 && width <= 64 && offset + width > 64 && Fits(val, width)
    ensures |r| == 64
    ensures forall k :: 0 <= k < 64 ==> r[k] == if k < offset + width - 64 then val[k + 64 - offset] else old1[k]
  {
    var off2 := (offset + width) % 64;
    Or(And(old1, Shl(Ones(64), off2)), Shr(val, 64 - offset))
  }

  function SetUint(mem: seq<bool>, pos: nat, width: nat, val: Word): (r: seq<bool>)
    requires Reaches(mem, pos, width) && Fits(val, width)
    ensures |r| == |mem|
  {
    var j, offset := pos / 64, pos % 64;
    var mem1 := Stored(mem, j, FirstWord(WordAt(mem, j), offset, width, val));
    if offset + width > 64 then
      Stored(mem1, j + 1, SecondWord(WordAt(mem1, j + 1), offset, width, val))
    else
      mem1
  }

  lemma SetsBit(mem: seq<bool>, pos: nat, width: nat, val: Word, q: nat)
    requires Reaches(mem, pos, width) && Fits(val, width) && q < |mem|
    ensures SetUint(mem, pos, width, val)[q] == if pos <= q < pos + width then val[q - pos] else mem[q]
  {
    hide FirstWord, SecondWord, WordAt, Stored;
    var j, offset := pos / 64, pos % 64;
    assert pos == 64 * j + offset;
    var mem1 := Stored(mem, j, FirstWord(WordAt(mem, j), offset, width, val));
    if 64 * j <= q < 64 * (j + 1) {
      assert WordAt(mem, j)[q - 64 * j] == mem[q];
    } else if offset + width > 64 && 64 * (j + 1) <= q < 64 * (j + 2) {
      assert WordAt(mem1, j + 1)[q - 64 * (j + 1)] == mem[q];
    }
  }

  /** A value that fits in the field is what its bits become, and no other bit changes. */
  lemma SetsField(mem: seq<bool>, pos: nat, width: nat, val: Word)
    requires Reaches(mem, pos, width) && Fits(val, width)
    ensures Field(SetUint(mem, pos, width, val), pos, width) == val
    ensures forall q :: 0 <= q < |mem| && !(pos <= q < pos + width) ==> SetUint(mem, pos, width, val)[q] == mem[q]
  {
    var r := SetUint(mem, pos, width, val);
    hide SetUint;
    forall q | 0 <= q < |mem| ensures r[q] == if pos <= q < pos + width then val[q - pos] else mem[q] {
      SetsBit(mem, pos, width, val, q);
    }
  }

  // Values

  function Pow2(n: nat): (r: nat)
    ensures r > 0
  {
    if n == 0 then 1 else 2 * Pow2(n - 1)
  }

  /** The number that bits stand for, the least significant first. */
  function Val(w: seq<bool>): (v: nat) {
    if w == [] then 0 else (if w[0] then 1 else 0) + 2 * Val(w[1..])
  }

  function Bits(v: nat, n: nat): (w: seq<bool>)
    ensures |w| == n
  {
    if n == 0 then [] else [v % 2 == 1] + Bits(v / 2, n - 1)
  }

  lemma {:induction false} ValOfBits(v: nat, n: nat)
    requires v < Pow2(n)
    ensures Val(Bits(v, n)) == v
  {
    if n > 0 {
      ValOfBits(v / 2, n - 1);
      assert Bits(v, n)[1..] == Bits(v / 2, n - 1);
    }
  }

  lemma {:induction false} HighClear(v: nat, n: nat, b: nat)
    requires b <= n && v < Pow2(b)
    ensures forall k :: b <= k < n ==> !Bits(v, n)[k]
  {
    if n > 0 {
      var rest := Bits(v / 2, n - 1);
      HighClear(v / 2, n - 1, if b == 0 then 0 else b - 1);
      forall k | b <= k < n ensures !Bits(v, n)[k] { if k > 0 { assert Bits(v, n)[k] == rest[k - 1]; } }
    }
  }

  /** `compute_uintbits`: the position of the highest bit set, counted from one; 0 for 0. */
  function ComputeUintbits(value: nat): (bits: nat)
    ensures value < Pow2(bits)
    ensures bits > 0 ==> Pow2(bits - 1) <= value
    decreases value
  {
    if value == 0 then 0 else ComputeUintbits(value / 2) + 1
  }

  lemma {:induction false} Pow2Monotone(a: nat, b: nat)
    requires a <= b
    ensures Pow2(a) <= Pow2(b)
  {
    if a < b { Pow2Monotone(a, b - 1); }
  }

  /** It is the least width that holds the value. */
  lemma UintbitsLeast(value: nat, width: nat)
    ensures ComputeUintbits(value) <= width <==> value < Pow2(width)
  {
    var bits := ComputeUintbits(value);
    if bits <= width { Pow2Monotone(bits, width); } else { Pow2Monotone(width, bits - 1); }
  }

  // Storage

  /** `compute_mem_size`, in bytes: the fields, the seven bytes that the last load touches beyond
      them, and the rounding to 16. */
  function ComputeMemSize(bits: nat, num: nat): (bytes: nat)
  {
    var touch := (bits * num + 7) / 8 + 7;
    (touch + 15) / 16 * 16
  }

  lemma Distribute(a: nat, b: nat, c: nat)
    ensures a * (b + c) == a * b + a * c
  {
  }

  lemma Product(a: nat, b: nat)
    ensures a * b >= 0
  {
  }

  lemma FieldInside(bits: nat, num: nat, idx: nat)
    requires idx < num
    ensures bits * idx + bits <= bits * num
  {
    var rest := num - idx - 1;
    calc {
      bits * num;
    ==
      bits * (idx + (1 + rest));
    ==  { Distribute(bits, idx, 1 + rest); Distribute(bits, 1, rest); }
      bits * idx + bits + bits * rest;
    }
    Product(bits, rest);
  }

  lemma Rounded(all: nat)
    ensures (((all + 7) / 8 + 7) + 15) / 16 * 16 >= (all + 7) / 8 + 7
    ensures all <= 8 * ((all + 7) / 8)
  {
    var touch := (all + 7) / 8 + 7;
    assert touch + 15 < 16 * ((touch + 15) / 16) + 16;
  }

  /** With `used` bytes of fields and seven more; the field begins in this byte of this word. */
  lemma LoadsInside(pos: nat, width: nat, all: nat, used: nat, words: nat, byte: nat, word: nat)
    requires pos + width <= all && (width == 0 ==> pos == 0)
    requires all <= 8 * used && used + 7 <= 8 * words
    requires 8 * byte <= pos && 64 * word <= pos
    ensures 8 * byte + 64 <= 64 * words
    ensures word < words
    ensures pos - 64 * word + width > 64 ==> word + 1 < words
  {
    if width > 0 {
      assert byte < used;
    } else {
      assert byte == 0 && word == 0;
    }
  }

  lemma PosInside(mem: seq<bool>, pos: nat, width: nat, all: nat)
    requires width <= 64 && pos + width <= all && (width == 0 ==> pos == 0)
    requires |mem| % 128 == 0 && |mem| >= 8 * ((((all + 7) / 8 + 7) + 15) / 16 * 16)
    ensures 8 * (pos / 8) + 64 <= |mem|
    ensures Reaches(mem, pos, width)
  {
    var words := |mem| / 64;
    assert |mem| == 64 * words;
    Rounded(all);
    LoadsInside(pos, width, all, (all + 7) / 8, words, pos / 8, pos / 64);
  }

  /** Every word that a read or a write of an element touches is in the memory. */
  lemma TouchesInside(mem: seq<bool>, bits: nat, num: nat, idx: nat)
    requires bits <= 64 && idx < num
    requires |mem| % 128 == 0 && |mem| >= 8 * ComputeMemSize(bits, num)
    ensures 8 * (bits * idx / 8) + 64 <= |mem|
    ensures Reaches(mem, bits * idx, bits)
  {
    hide Reaches;
    FieldInside(bits, num, idx);
    PosInside(mem, bits * idx, bits, bits * num);
  }

  function MaskOf(bits: nat): (mask: Word)
    requires bits <= 64
    ensures IsMask(mask, bits)
  {
    if bits == 64 then Ones(64) else Not(Shl(Ones(64), bits))
  }

  /** The elements that the memory stands for. */
  ghost function Elements(mem: seq<bool>, bits: nat, size: nat): (r: seq<nat>)
    requires bits <= 64 && bits * size <= |mem|
    ensures |r| == size
  {
    seq(size, i requires 0 <= i < size => FieldInside(bits, size, i); Val(Field(mem, bits * i, bits)))
  }

  lemma ElementAt(mem: seq<bool>, bits: nat, size: nat, i: nat)
    requires bits <= 64 && bits * size <= |mem| && i < size
    ensures bits * i + bits <= |mem|
    ensures Elements(mem, bits, size)[i] == Val(Field(mem, bits * i, bits))
  {
    FieldInside(bits, size, i);
  }

  lemma AllInside(mem: seq<bool>, bits: nat, size: nat)
    requires 8 * ComputeMemSize(bits, size) <= |mem|
    ensures bits * size <= |mem|
  {
  }

  /** An element is where it was, whatever the number of elements. */
  lemma SameElement(mem: seq<bool>, mem': seq<bool>, bits: nat, size: nat, size': nat, i: nat)
    requires bits <= 64 && i < size && i < size'
    requires bits * size <= |mem| && bits * size' <= |mem'|
    requires forall q :: 0 <= q < |mem| && q < |mem'| ==> mem'[q] == mem[q]
    ensures Elements(mem, bits, size)[i] == Elements(mem', bits, size')[i]
  {
    hide Val, Elements;
    ElementAt(mem, bits, size, i);
    ElementAt(mem', bits, size', i);
    assert Field(mem, bits * i, bits) == Field(mem', bits * i, bits);
  }

  lemma {:induction false} ValZero(w: seq<bool>)
    requires forall k :: 0 <= k < |w| ==> !w[k]
    ensures Val(w) == 0
  {
    if w != [] { ValZero(w[1..]); }
  }

  /** No bit is set in the part of the field that lies in the memory. */
  ghost predicate ClearField(mem: seq<bool>, pos: nat, width: nat) {
    forall q :: pos <= q < pos + width && q < |mem| ==> !mem[q]
  }

  lemma {:induction false} ValPositive(w: seq<bool>, k: nat)
    requires k < |w| && w[k]
    ensures Val(w) > 0
  {
    if k > 0 { ValPositive(w[1..], k - 1); }
  }

  lemma NewElement(mem: seq<bool>, mem': seq<bool>, bits: nat, size: nat, i: nat)
    requires bits <= 64 && bits * size <= |mem'| && i < size
    requires forall q :: 0 <= q < |mem'| ==> mem'[q] == (q < |mem| && mem[q])
    ensures Elements(mem', bits, size)[i] == 0 <==> ClearField(mem, bits * i, bits)
  {
    ElementAt(mem', bits, size, i);
    var w := Field(mem', bits * i, bits);
    hide Val, Elements;
    if ClearField(mem, bits * i, bits) {
      ValZero(w);
    } else {
      var q :| bits * i <= q < bits * i + bits && q < |mem| && mem[q];
      ValPositive(w, q - bits * i);
    }
  }

  lemma ResizedElements(mem: seq<bool>, mem': seq<bool>, bits: nat, size: nat, size': nat)
    requires bits <= 64 && bits * size <= |mem| && bits * size' <= |mem'|
    requires forall q :: 0 <= q < |mem'| ==> mem'[q] == (q < |mem| && mem[q])
    ensures forall i :: 0 <= i < size && i < size' ==> Elements(mem', bits, size')[i] == Elements(mem, bits, size)[i]
    ensures forall i :: size <= i < size' ==>
      (Elements(mem', bits, size')[i] == 0 <==> ClearField(mem, bits * i, bits))
  {
    hide Elements, ClearField;
    forall i | 0 <= i < size && i < size' ensures Elements(mem', bits, size')[i] == Elements(mem, bits, size)[i] {
      SameElement(mem, mem', bits, size, size', i);
    }
    forall i | size <= i < size' ensures Elements(mem', bits, size')[i] == 0 <==> ClearField(mem, bits * i, bits) {
      NewElement(mem, mem', bits, size', i);
    }
  }

  lemma ZeroField(mem: seq<bool>, bits: nat, size: nat, i: nat)
    requires bits <= 64 && bits * size <= |mem| && i < size
    requires forall k :: 0 <= k < |mem| ==> !mem[k]
    ensures Elements(mem, bits, size)[i] == 0
  {
    ElementAt(mem, bits, size, i);
    ValZero(Field(mem, bits * i, bits));
  }

  /** The fields of two elements do not meet. */
  lemma FieldsApart(bits: nat, i: nat, idx: nat)
    requires i != idx
    ensures bits * i + bits <= bits * idx || bits * idx + bits <= bits * i
  {
    if i < idx { FieldInside(bits, idx, i); } else { FieldInside(bits, i, idx); }
  }

  lemma OtherField(mem: seq<bool>, mem': seq<bool>, bits: nat, pos: nat, at: nat)
    requires bits <= 64 && |mem'| == |mem|
    requires at + bits <= |mem| && (at + bits <= pos || pos + bits <= at)
    requires forall q :: 0 <= q < |mem| && !(pos <= q < pos + bits) ==> mem'[q] == mem[q]
    ensures Field(mem', at, bits) == Field(mem, at, bits)
  {
  }

  /** What setting does to the memory, element by element. */
  lemma ChangesElement(mem: seq<bool>, mem': seq<bool>, bits: nat, size: nat, idx: nat, val: nat)
    requires bits <= 64 && bits * size <= |mem| == |mem'| && idx < size
    requires bits * idx + bits <= |mem| && Val(Field(mem', bits * idx, bits)) == val
    requires forall q :: 0 <= q < |mem| && !(bits * idx <= q < bits * idx + bits) ==> mem'[q] == mem[q]
    ensures Elements(mem', bits, size) == Elements(mem, bits, size)[idx := val]
  {
    hide Val, Elements, Field;
    var was, now := Elements(mem, bits, size), Elements(mem', bits, size);
    forall i | 0 <= i < size ensures now[i] == was[idx := val][i] {
      ElementAt(mem, bits, size, i);
      ElementAt(mem', bits, size, i);
      if i != idx {
        FieldsApart(bits, i, idx);
        OtherField(mem, mem', bits, bits * idx, bits * i);
      }
    }
  }

  lemma FitsWidth(val: nat, bits: nat)
    requires bits <= 64 && val < Pow2(bits)
    ensures val < Pow2(64) && Fits(Bits(val, 64), bits) && Val(Bits(val, 64)) == val
  {
    Pow2Monotone(bits, 64);
    HighClear(val, 64, bits);
    ValOfBits(val, 64);
    hide Pow2, Bits, Val;
  }

  /** Setting the field of one element changes that element and no other. */
  lemma SetsElement(mem: seq<bool>, bits: nat, size: nat, idx: nat, val: nat)
    requires bits <= 64 && bits * size <= |mem| && idx < size
    requires Reaches(mem, bits * idx, bits) && val < Pow2(bits)
    ensures Fits(Bits(val, 64), bits)
    ensures Elements(SetUint(mem, bits * idx, bits, Bits(val, 64)), bits, size) == Elements(mem, bits, size)[idx := val]
  {
    hide Pow2, Bits, Val, SetUint, Elements, Field, Fits;
    FitsWidth(val, bits);
    SetsField(mem, bits * idx, bits, Bits(val, 64));
    ChangesElement(mem, SetUint(mem, bits * idx, bits, Bits(val, 64)), bits, size, idx, val);
  }

  lemma StorageSets(mem: seq<bool>, bits: nat, size: nat, idx: nat, val: nat)
    requires bits <= 64 && idx < size && val < Pow2(bits)
    requires |mem| % 128 == 0 && |mem| >= 8 * ComputeMemSize(bits, size)
    ensures Reaches(mem, bits * idx, bits) && Fits(Bits(val, 64), bits) && bits * size <= |mem|
    ensures Elements(SetUint(mem, bits * idx, bits, Bits(val, 64)), bits, size) == Elements(mem, bits, size)[idx := val]
  {
    TouchesInside(mem, bits, size, idx);
    AllInside(mem, bits, size);
    hide Pow2, Bits, Val, SetUint, Elements, Fits, ComputeMemSize, Reaches;
    SetsElement(mem, bits, size, idx, val);
  }

  ghost predicate Sorted(s: seq<nat>, lo: nat, hi: nat)
    requires lo <= hi <= |s|
  {
    forall i, j :: lo <= i <= j < hi ==> s[i] <= s[j]
  }

  /** r is where the elements of the range stop being less than the key. */
  ghost predicate DividesLess(s: seq<nat>, lo: nat, hi: nat, r: nat, key: nat)
    requires lo <= hi <= |s|
  {
    && lo <= r <= hi
    && (forall i :: lo <= i < r ==> s[i] < key)
    && (forall i :: r <= i < hi ==> s[i] >= key)
  }

  ghost predicate DividesLessEqual(s: seq<nat>, lo: nat, hi: nat, r: nat, key: nat)
    requires lo <= hi <= |s|
  {
    && lo <= r <= hi
    && (forall i :: lo <= i < r ==> s[i] <= key)
    && (forall i :: r <= i < hi ==> s[i] > key)
  }

  /** UintVecMin0Base with the reads of UintVecMin0 and BigUintVecMin0. */
  class UintVec {
    var mem: seq<bool>
    var bits: nat
    var mask: Word
    var size: nat

    ghost predicate Valid() reads this {
      && bits <= 64 && IsMask(mask, bits)
      && |mem| % 128 == 0
      && (size > 0 ==> |mem| >= 8 * ComputeMemSize(bits, size))
    }

    ghost function Contents(): (r: seq<nat>)
      requires Valid()
      reads this
      ensures |r| == size
    {
      if size == 0 then [] else Elements(mem, bits, size)
    }

    constructor ()
      ensures Valid() && size == 0
    {
      mem, bits, mask, size := [], 0, MaskOf(0), 0;
    }

    /** `fast_get` on the vector. */
    method Get(idx: nat) returns (val: nat)
      requires Valid() && idx < size && bits <= 58
      ensures val == Contents()[idx]
    {
      TouchesInside(mem, bits, size, idx);
      OneLoadWidths(bits);
      FastGetsField(mem, bits, mask, idx);
      val := Val(FastGet(mem, bits, mask, idx));
    }

    /** The two-word read, for any width. */
    method GetBig(idx: nat) returns (val: nat)
      requires Valid() && idx < size
      ensures val == Contents()[idx]
    {
      TouchesInside(mem, bits, size, idx);
      GetsField(mem, bits * idx, bits);
      val := Val(GetUint(mem, bits * idx, bits));
    }

    method SetWire(idx: nat, val: nat)
      requires Valid() && idx < size && val < Pow2(bits)
      modifies this`mem
      ensures Valid() && Contents() == old(Contents())[idx := val]
    {
      hide Pow2, Bits, Val, SetUint, Elements, Fits, ComputeMemSize, Reaches, IsMask;
      StorageSets(mem, bits, size, idx, val);
      mem := SetUint(mem, bits * idx, bits, Bits(val, 64));
    }

    method ResizeWithUintbits(num: nat, width: nat)
      requires width <= 64
      modifies this
      ensures Valid() && size == num && bits == width
      ensures forall i :: 0 <= i < num ==> Contents()[i] == 0
    {
      bits, mask, size := width, MaskOf(width), num;
      mem := if num == 0 then [] else Zeros(8 * ComputeMemSize(width, num));
      forall i | 0 <= i < num ensures Contents()[i] == 0 {
        ZeroField(mem, bits, num, i);
      }
    }

    /** The elements that remain keep their values.  A new element has the bits that memory held there
        before, which need not be 0 once the vector has been longer, and 0 where there was none. */
    method Resize(newSize: nat)
      requires Valid()
      modifies this`mem, this`size
      ensures Valid() && size == newSize
      ensures forall i :: 0 <= i < old(size) && i < newSize ==> Contents()[i] == old(Contents())[i]
      ensures forall i :: old(size) <= i < newSize ==>
        (Contents()[i] == 0 <==> ClearField(old(mem), bits * i, bits))
    {
      var bytes := if newSize == 0 then 0 else ((bits * newSize + 7) / 8 + 7 + 15) / 16 * 16;
      hide Val, Elements, Field, Pow2, ClearField;
      ghost var was := mem;
      mem := if 8 * bytes <= |mem| then mem[..8 * bytes] else mem + Zeros(8 * bytes - |mem|);
      size := newSize;
      assert Valid();
      ResizedElements(was, mem, bits, old(size), newSize);
    }

    /** The first element is the least one; the vector holds the distances to it, in the narrowest
        fields that hold them all. */
    method BuildFrom(src: seq<int>) returns (minVal: int)
      requires forall i, j :: 0 <= i < |src| && 0 <= j < |src| ==> src[i] - src[j] < Pow2(64)
      modifies this
      ensures Valid() && size == |src|
      ensures forall i :: 0 <= i < |src| ==> src[i] == minVal + Contents()[i]
      ensures src == [] ==> minVal == 0
      ensures src != [] ==> minVal in src
      ensures forall width: nat :: width < bits ==> exists i :: 0 <= i < |src| && src[i] - minVal >= Pow2(width)
    {
      hide Pow2, Elements, ComputeMemSize, ComputeUintbits, IsMask;
      if src == [] {
        mem, bits, mask, size := [], 0, MaskOf(0), 0;
        return 0;
      }
      minVal := src[0];
      var maxVal := src[0];
      for i := 1 to |src|
        invariant minVal in src && maxVal in src
        invariant forall j :: 0 <= j < i ==> minVal <= src[j] <= maxVal
      {
        if maxVal < src[i] { maxVal := src[i]; }
        if minVal > src[i] { minVal := src[i]; }
      }
      var width := ComputeUintbits(maxVal - minVal);
      UintbitsLeast(maxVal - minVal, 64);
      ResizeWithUintbits(|src|, width);
      for i := 0 to |src|
        invariant Valid() && size == |src| && bits == width
        invariant forall j :: 0 <= j < i ==> src[j] == minVal + Contents()[j]
      {
        SetWire(i, src[i] - minVal);
      }
      forall w: nat | w < bits ensures exists i :: 0 <= i < |src| && src[i] - minVal >= Pow2(w) {
        UintbitsLeast(maxVal - minVal, w);
      }
    }

    /** `lower_bound`: for any contents the result is a boundary; in a sorted range it is the first
        position whose element is not less than the key. */
    method LowerBound(lo0: nat, hi0: nat, key: nat) returns (r: nat)
      requires Valid() && lo0 <= hi0 <= size && bits <= 58
      ensures lo0 <= r <= hi0
      ensures r > lo0 ==> Contents()[r - 1] < key
      ensures r < hi0 ==> Contents()[r] >= key
      ensures Sorted(Contents(), lo0, hi0) ==> DividesLess(Contents(), lo0, hi0, r, key)
    {
      var lo, hi := lo0, hi0;
      while lo < hi
        invariant lo0 <= lo <= hi <= hi0
        invariant lo > lo0 ==> Contents()[lo - 1] < key
        invariant hi < hi0 ==> Contents()[hi] >= key
      {
        var mid := (lo + hi) / 2;
        var val := Get(mid);
        if val < key { lo := mid + 1; } else { hi := mid; }
      }
      r := lo;
    }

    method UpperBound(lo0: nat, hi0: nat, key: nat) returns (r: nat)
      requires Valid() && lo0 <= hi0 <= size && bits <= 58
      ensures lo0 <= r <= hi0
      ensures r > lo0 ==> Contents()[r - 1] <= key
      ensures r < hi0 ==> Contents()[r] > key
      ensures Sorted(Contents(), lo0, hi0) ==> DividesLessEqual(Contents(), lo0, hi0, r, key)
    {
      var lo, hi := lo0, hi0;
      while lo < hi
        invariant lo0 <= lo <= hi <= hi0
        invariant lo > lo0 ==> Contents()[lo - 1] <= key
        invariant hi < hi0 ==> Contents()[hi] > key
      {
        var mid := (lo + hi) / 2;
        var val := Get(mid);
        if val <= key { lo := mid + 1; } else { hi := mid; }
      }
      r := lo;
    }

    /** `equal_range`: the bounds of the key; it narrows the range until it meets the key. */
    method EqualRange(lo0: nat, hi0: nat, key: nat) returns (first: nat, last: nat)
      requires Valid() && lo0 <= hi0 <= size && bits <= 58
      requires Sorted(Contents(), lo0, hi0)
      ensures first <= last
      ensures DividesLess(Contents(), lo0, hi0, first, key)
      ensures DividesLessEqual(Contents(), lo0, hi0, last, key)
    {
      var lo, hi := lo0, hi0;
      while lo < hi
        invariant lo0 <= lo <= hi <= hi0
        invariant lo > lo0 ==> Contents()[lo - 1] < key
        invariant hi < hi0 ==> Contents()[hi] > key
      {
        var mid := (lo + hi) / 2;
        var val := Get(mid);
        if val < key {
          lo := mid + 1;
        } else if key < val {
          hi := mid;
        } else {
          first := LowerBound(lo, mid, key);
          last := UpperBound(mid + 1, hi, key);
          return;
        }
      }
      first, last := lo, lo;
    }
  }
}
