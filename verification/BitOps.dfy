/** The bit-reversal and leading-zero loops of CMSIS, on 32-bit words. */
module BitOps {
  import opened Bytes

  const TWO32: nat := 0x1_0000_0000

  function BitOf(v: nat, k: nat): nat
  {
    if k == 0 then v % 2 else BitOf(v / 2, k - 1)
  }

  /** v shifted right by m. */
  function ShiftRight(v: nat, m: nat): nat
  {
    if m == 0 then v else ShiftRight(v / 2, m - 1)
  }

  /** v shifted left by m, nothing dropped yet. */
  function ShiftLeft(v: nat, m: nat): nat
  {
    if m == 0 then v else 2 * ShiftLeft(v, m - 1)
  }

  /** The lowest bit of v put at position n. */
  function LowAt(v: nat, n: nat): nat
  {
    if v % 2 == 1 then Pow2(n) else 0
  }

  /** The n low bits of v in reverse order. */
  function Reverse(n: nat, v: nat): (r: nat)
    ensures r < Pow2(n)
  {
    if n == 0 then 0 else LowAt(v, n - 1) + Reverse(n - 1, v / 2)
  }

  // ------------------------------------------------------------ about bits

  lemma {:induction false} ShiftOnce(v: nat, m: nat)
    ensures ShiftRight(v, m + 1) == ShiftRight(v, m) / 2
    ensures BitOf(v, m) == ShiftRight(v, m) % 2
  {
    if m > 0 {
      ShiftOnce(v / 2, m - 1);
    }
  }

  lemma {:induction false} ShiftedOut(v: nat, m: nat)
    ensures ShiftRight(v, m) == 0 <==> v < Pow2(m)
  {
    if m > 0 {
      ShiftedOut(v / 2, m - 1);
    }
  }

  lemma {:induction false} BitAbove(v: nat, k: nat)
    ensures v < Pow2(k) ==> BitOf(v, k) == 0
    ensures Pow2(k) <= v < Pow2(k + 1) ==> BitOf(v, k) == 1
  {
    if k > 0 {
      BitAbove(v / 2, k - 1);
    }
  }

  /** The reversal takes its lowest bit from the top. */
  lemma {:induction false} ReverseHigh(n: nat, v: nat)
    ensures Reverse(n + 1, v) == 2 * Reverse(n, v) + BitOf(v, n)
  {
    if n > 0 {
      ReverseHigh(n - 1, v / 2);
    }
  }

  /** Bit k of the reversal is bit n - 1 - k. */
  lemma {:induction false} ReverseAt(n: nat, v: nat, k: nat)
    requires k < n
    ensures BitOf(Reverse(n, v), k) == BitOf(v, n - 1 - k)
  {
    ReverseHigh(n - 1, v);
    ShiftOnce(v, n - 1);
    Halves(BitOf(v, n - 1), Reverse(n - 1, v));
    if k > 0 {
      ReverseAt(n - 1, v, k - 1);
    }
  }

  /** Reversing twice gives back every n-bit number. */
  lemma {:induction false} ReverseTwice(n: nat, v: nat)
    requires v < Pow2(n)
    ensures Reverse(n, Reverse(n, v)) == v
  {
    if n > 0 {
      ReverseTwice(n - 1, v / 2);
      ReverseOfTopped(n - 1, v, Reverse(n - 1, v / 2));
    }
  }

  /** Reversing a number of n bits with a bit put on top puts that bit at the bottom. */
  lemma {:induction false} ReverseOfTopped(n: nat, v: nat, rest: nat)
    requires rest < Pow2(n)
    ensures Reverse(n + 1, LowAt(v, n) + rest) == 2 * Reverse(n, rest) + v % 2
  {
    if n > 0 {
      ReverseOfTopped(n - 1, v, rest / 2);
      assert LowAt(v, n) == 2 * LowAt(v, n - 1);
      assert (LowAt(v, n) + rest) / 2 == LowAt(v, n - 1) + rest / 2;
    }
  }

  /** Reversing more bits than v has shifts the reversal up. */
  lemma {:induction false} ReverseLonger(m: nat, n: nat, v: nat)
    requires v < Pow2(m)
    ensures Reverse(m + n, v) == ShiftLeft(Reverse(m, v), n)
  {
    if n > 0 {
      ReverseLonger(m, n - 1, v);
      ReverseHigh(m + n - 1, v);
      Pow2Rises(m, m + n - 1);
      BitAbove(v, m + n - 1);
    }
  }

  lemma Pow2Of32()
    ensures Pow2(32) == TWO32 && Pow2(31) == 0x8000_0000
  {
    Pow2Of8();
    assert Pow2(16) == 0x1_0000;
    assert Pow2(24) == 0x100_0000;
  }

  lemma {:induction false} ShiftSum(a: nat, b: nat, k: nat)
    ensures ShiftLeft(a + b, k) == ShiftLeft(a, k) + ShiftLeft(b, k)
  {
    if k > 0 {
      ShiftSum(a, b, k - 1);
    }
  }

  lemma {:induction false} ShiftTwice(v: nat, m: nat, n: nat)
    ensures ShiftLeft(ShiftLeft(v, m), n) == ShiftLeft(v, m + n)
    decreases n
  {
    if n > 0 {
      ShiftTwice(v, m, n - 1);
    }
  }

  lemma {:induction false} ShiftOfOne(m: nat)
    ensures ShiftLeft(1, m) == Pow2(m) && ShiftLeft(0, m) == 0
  {
    if m > 0 {
      ShiftOfOne(m - 1);
    }
  }

  /** Dropping what overflows before a shift does not change what is left after it. */
  lemma {:induction false} ShiftWraps(a: nat, k: nat)
    ensures ShiftLeft(a % TWO32, k) % TWO32 == ShiftLeft(a, k) % TWO32
  {
    if k > 0 {
      ShiftWraps(a, k - 1);
      DoubleWraps(ShiftLeft(a % TWO32, k - 1), ShiftLeft(a, k - 1));
    }
  }

  lemma WholeWords(q: nat, r: nat)
    ensures (TWO32 * q + r) % TWO32 == r % TWO32
  {
  }

  lemma DoubleOfRest(a: nat)
    ensures 2 * a % TWO32 == 2 * (a % TWO32) % TWO32
  {
    var q, r := a / TWO32, a % TWO32;
    assert 2 * a == TWO32 * (2 * q) + 2 * r;
    WholeWords(2 * q, 2 * r);
  }

  lemma DoubleWraps(a: nat, b: nat)
    requires a % TWO32 == b % TWO32
    ensures 2 * a % TWO32 == 2 * b % TWO32
  {
    DoubleOfRest(a);
    DoubleOfRest(b);
  }

  /** Of a word shifted by one less than its width only the lowest bit is left. */
  lemma {:induction false} OneBitLeft(v: nat, k: nat)
    requires Pow2(k + 1) == TWO32
    ensures ShiftLeft(v, k) % TWO32 == LowAt(v, k)
  {
    ShiftOfOne(k);
    if v >= 2 {
      OneBitLeft(v - 2, k);
      ShiftSum(v - 2, 2, k);
      ShiftSum(1, 1, k);
      assert ShiftLeft(v, k) == ShiftLeft(v - 2, k) + TWO32;
    }
  }

  lemma {:induction false} Pow2Rises(m: nat, n: nat)
    requires m <= n
    ensures Pow2(m) <= Pow2(n)
  {
    if m < n {
      Pow2Rises(m, n - 1);
    }
  }

  // ----------------------------------------------------------------- __RBIT

  /** A 32-bit word shifted left by one with a bit put in. */
  lemma ShiftIn(a: nat, b: nat)
    requires b < 2
    ensures 2 * (a % TWO32) % TWO32 + b == (2 * a + b) % TWO32
  {
  }

  /** What r has gathered after m rounds: the word itself, with the m bits above its lowest reversed behind it. */
  function Gathered(value: uint32, m: nat): nat
  {
    ShiftLeft(value, m) + Reverse(m, value / 2)
  }

  lemma RoomLeft(value: uint32, m: nat)
    requires m <= 31 && ShiftRight(value / 2, m) != 0
    ensures m < 31
  {
    ShiftedOut(value / 2, m);
    Pow2Of32();
  }

  lemma Round(value: uint32, m: nat)
    requires m <= 31 && ShiftRight(value / 2, m) != 0
    ensures m < 31 && ShiftRight(value / 2, m) / 2 == ShiftRight(value / 2, m + 1)
    ensures 2 * (Gathered(value, m) % TWO32) % TWO32 + ShiftRight(value / 2, m) % 2 == Gathered(value, m + 1) % TWO32
  {
    RoomLeft(value, m);
    ReverseHigh(m, value / 2);
    ShiftOnce(value / 2, m);
    ShiftIn(Gathered(value, m), ShiftRight(value / 2, m) % 2);
  }

  /** `__RBIT` */
  method Rbit(value: uint32) returns (r: uint32)
    ensures r == Reverse(32, value)
    ensures forall k :: 0 <= k < 32 ==> BitOf(r, k) == BitOf(value, 31 - k)
  {
    hide Reverse;
    var v: nat, sc: byte := value / 2, 31;
    ghost var m: nat := 0;
    r := value;
    while v != 0
      invariant sc == 31 - m && v == ShiftRight(value / 2, m) && r == Gathered(value, m) % TWO32
    {
      Round(value, m);
      r := 2 * r % TWO32 + v % 2;
      v, sc, m := v / 2, sc - 1, m + 1;
    }
    Pow2Of32();
    LastShift(value, m, sc, r);
    r := ShiftLeft(r, sc) % TWO32;
    ReversedBits(value);
  }

  lemma ReversedBits(v: nat)
    ensures forall k :: 0 <= k < 32 ==> BitOf(Reverse(32, v), k) == BitOf(v, 31 - k)
  {
    forall k | 0 <= k < 32 ensures BitOf(Reverse(32, v), k) == BitOf(v, 31 - k) {
      ReverseAt(32, v, k);
    }
  }

  /** The last shift drops all of the word but its lowest bit, and brings every other bit to its place. */
  lemma LastShift(value: uint32, m: nat, n: nat, r: nat)
    requires Pow2(m + n + 1) == TWO32 && ShiftRight(value / 2, m) == 0 && r == Gathered(value, m) % TWO32
    ensures ShiftLeft(r, n) % TWO32 == Reverse(m + n + 1, value)
  {
    var rest := Reverse(m + n, value / 2);
    ShiftedOut(value / 2, m);
    ReverseLonger(m, n, value / 2);
    ShiftWraps(Gathered(value, m), n);
    ShiftSum(ShiftLeft(value, m), Reverse(m, value / 2), n);
    ShiftTwice(value, m, n);
    OneBitLeft(value, m + n);
    AddBelow(ShiftLeft(value, m + n), LowAt(value, m + n), rest);
  }

  lemma AddBelow(a: nat, top: nat, rest: nat)
    requires a % TWO32 == top && (top == 0 || top == 0x8000_0000) && rest < 0x8000_0000
    ensures (a + rest) % TWO32 == top + rest
  {
  }

  // ------------------------------------------------------------------ __CLZ

  /** The range that a number of leading zeros stands for. */
  predicate LeadingZeros(data: uint32, n: nat)
  {
    n < 32 && Pow2(31 - n) <= data < Pow2(32 - n)
  }

  /** `__CLZ`; the mask has a single bit, so masking selects that bit. */
  method Clz(data: uint32) returns (count: byte)
    ensures data == 0 ==> count == 32
    ensures data != 0 ==> LeadingZeros(data, count)
  {
    if data == 0 {
      return 32;
    }
    count := 0;
    var mask: uint32 := 0x8000_0000;
    Pow2Of32();
    BelowMask(data, mask);
    while data / mask % 2 == 0
      invariant count < 32 && mask == Pow2(31 - count) && data < 2 * mask && (data / mask % 2 == 0 <==> data < mask)
      decreases mask
    {
      NextMask(data, count);
      count, mask := count + 1, mask / 2;
    }
  }

  lemma BelowMask(data: nat, mask: nat)
    requires 0 < mask && data < 2 * mask
    ensures data / mask % 2 == 0 <==> data < mask
  {
  }

  lemma NextMask(data: nat, count: nat)
    requires count < 32 && 0 < data < Pow2(31 - count)
    ensures count < 31
    ensures var mask := Pow2(31 - count) / 2;
      mask == Pow2(30 - count) && data < 2 * mask && (data / mask % 2 == 0 <==> data < mask)
  {
    if count < 31 {
      BelowMask(data, Pow2(30 - count));
    }
  }

  /** No other count fits. */
  lemma LeadingZerosUnique(data: uint32, m: nat, n: nat)
    requires LeadingZeros(data, m) && LeadingZeros(data, n)
    ensures m == n
  {
    if m < n {
      Pow2Rises(32 - n, 31 - m);
    } else if n < m {
      Pow2Rises(32 - m, 31 - n);
    }
  }

  /** The leading zeros of the reversed word are the trailing zeros of the word: n is its lowest set bit. */
  lemma LeadingOfReversed(v: nat, n: nat)
    requires n < 32 && Pow2(31 - n) <= Reverse(32, v) < Pow2(32 - n)
    ensures BitOf(v, n) == 1 && forall k :: 0 <= k < n ==> BitOf(v, k) == 0
  {
    var r := Reverse(32, v);
    ReversedBits(v);
    BitAbove(r, 31 - n);
    assert BitOf(r, 31 - n) == BitOf(v, n);
    forall k | 0 <= k < n ensures BitOf(v, k) == 0 {
      NoBitAbove(r, 32 - n, 31 - k);
      assert BitOf(r, 31 - k) == BitOf(v, k);
    }
  }

  lemma NoBitAbove(r: nat, m: nat, k: nat)
    requires r < Pow2(m) && m <= k
    ensures BitOf(r, k) == 0
  {
    Pow2Rises(m, k);
    BitAbove(r, k);
  }
}
