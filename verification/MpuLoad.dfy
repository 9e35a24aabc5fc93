/** Loading memory-protection regions through the alias registers of the ARMv8-M MPU. */
module MpuLoad {
  import opened Bytes
  import opened BitOps
  import opened Division

  datatype Region = Region(rbar: uint32, rlar: uint32)

  /** A table as the words that lie behind its first entry. */
  function Words(table: seq<Region>): (w: seq<uint32>)
    ensures |w| == 2 * |table|
  {
    seq(2 * |table|, i requires 0 <= i < 2 * |table| => if i % 2 == 0 then table[i / 2].rbar else table[i / 2].rlar)
  }

  /** Setting region rnr + i to table[i], one at a time. */
  function SetEach(regions: seq<Region>, rnr: nat, table: seq<Region>): (r: seq<Region>)
    requires rnr + |table| <= |regions|
    ensures |r| == |regions|
    decreases |table|
  {
    if table == [] then regions else SetEach(regions[rnr := table[0]], rnr + 1, table[1..])
  }

  /** Region by region: the table where it goes, and every other region as it was. */
  lemma {:induction false} SetEachAt(regions: seq<Region>, rnr: nat, table: seq<Region>)
    requires rnr + |table| <= |regions|
    ensures SetEach(regions, rnr, table) == regions[..rnr] + table + regions[rnr + |table|..]
    decreases |table|
  {
    if table != [] {
      var next := regions[rnr := table[0]];
      SetEachAt(next, rnr + 1, table[1..]);
      assert next[..rnr + 1] == regions[..rnr] + [table[0]];
      assert table == [table[0]] + table[1..];
      assert next[rnr + |table|..] == regions[rnr + |table|..];
    }
  }

  lemma {:induction false} SetEachInParts(regions: seq<Region>, rnr: nat, a: seq<Region>, b: seq<Region>)
    requires rnr + |a| + |b| <= |regions|
    ensures SetEach(SetEach(regions, rnr, a), rnr + |a|, b) == SetEach(regions, rnr, a + b)
    decreases |a|
  {
    if a == [] {
      assert a + b == b;
    } else {
      SetEachInParts(regions[rnr := a[0]], rnr + 1, a[1..], b);
      assert (a + b)[1..] == a[1..] + b;
    }
  }

  function PutWord(r: Region, w: nat, value: uint32): Region
  {
    if w % 2 == 0 then r.(rbar := value) else r.(rlar := value)
  }

  /** The first i words of a table written one by one into the regions from first on. */
  function WordByWord(regions: seq<Region>, first: nat, words: seq<uint32>, i: nat): (r: seq<Region>)
    requires i <= |words| && first + (i + 1) / 2 <= |regions|
    ensures |r| == |regions|
  {
    if i == 0 then regions
    else
      var r, at := WordByWord(regions, first, words, i - 1), first + (i - 1) / 2;
      r[at := PutWord(r[at], i - 1, words[i - 1])]
  }

  lemma WordByWordNone(regions: seq<Region>, first: nat, words: seq<uint32>)
    requires first <= |regions|
    ensures WordByWord(regions, first, words, 0) == regions
  {
  }

  lemma WordByWordNext(regions: seq<Region>, first: nat, words: seq<uint32>, i: nat)
    requires i < |words| && first + i / 2 < |regions|
    ensures var r, at := WordByWord(regions, first, words, i), first + i / 2;
      WordByWord(regions, first, words, i + 1) == r[at := PutWord(r[at], i, words[i])]
  {
  }

  /** Both words of entry n. */
  lemma WordPair(table: seq<Region>, n: nat, r: Region)
    requires n < |table|
    ensures PutWord(PutWord(r, 2 * n, Words(table)[2 * n]), 2 * n + 1, Words(table)[2 * n + 1]) == table[n]
    ensures 2 * n / 2 == (2 * n + 1) / 2 == n
  {
  }

  lemma SetOne(regions: seq<Region>, rnr: nat, r: Region)
    requires rnr < |regions|
    ensures SetEach(regions, rnr, [r]) == regions[rnr := r]
  {
  }

  lemma {:induction false} WordsAreRegions(regions: seq<Region>, first: nat, table: seq<Region>, n: nat)
    requires n <= |table| && first + n <= |regions|
    ensures WordByWord(regions, first, Words(table), 2 * n) == SetEach(regions, first, table[..n])
  {
    hide WordByWord;
    hide SetEach;
    hide Words;
    hide PutWord;
    var words := Words(table);
    if n == 0 {
      WordByWordNone(regions, first, words);
      assert SetEach(regions, first, []) == regions by { SetNone(regions, first); }
    } else {
      var m, at := n - 1, first + n - 1;
      var r := WordByWord(regions, first, words, 2 * m);
      WordsAreRegions(regions, first, table, m);
      WordPair(table, m, r[at]);
      WordByWordNext(regions, first, words, 2 * m);
      WordByWordNext(regions, first, words, 2 * m + 1);
      SetEachInParts(regions, first, table[..m], [table[m]]);
      SetOne(r, at, table[m]);
      assert table[..m] + [table[m]] == table[..n];
    }
  }

  lemma SetNone(regions: seq<Region>, rnr: nat)
    requires rnr <= |regions|
    ensures SetEach(regions, rnr, []) == regions
  {
  }

  // ---------------------------------------------------------- window base

  /** v with its k low bits masked off. */
  function Base(v: nat, k: nat): nat
  {
    ShiftLeft(ShiftRight(v, k), k)
  }

  lemma {:induction false} ShiftLeftTimes(v: nat, k: nat)
    ensures ShiftLeft(v, k) == Pow2(k) * v
  {
    if k > 0 {
      ShiftLeftTimes(v, k - 1);
    }
  }

  lemma {:induction false} LowBitsOff(v: nat, k: nat) returns (low: nat)
    ensures low < Pow2(k) && v == ShiftLeft(ShiftRight(v, k), k) + low
  {
    low := 0;
    if k > 0 {
      var rest := LowBitsOff(v / 2, k - 1);
      low := 2 * rest + v % 2;
    }
  }

  /** What masking drops is the remainder. */
  lemma WindowBase(v: nat, k: nat)
    ensures v == Base(v, k) + v % Pow2(k)
  {
    var low := LowBitsOff(v, k);
    var q := ShiftRight(v, k);
    ShiftLeftTimes(q, k);
    assert v == Pow2(k) * q + low;
    Remainder(Pow2(k), q, low);
  }

  lemma {:induction false} ShiftBack(v: nat, k: nat)
    ensures ShiftRight(ShiftLeft(v, k), k) == v
  {
    if k > 0 {
      ShiftBack(v, k - 1);
    }
  }

  lemma BaseOfBase(v: nat, k: nat)
    ensures Base(Base(v, k), k) == Base(v, k)
  {
    ShiftBack(ShiftRight(v, k), k);
  }

  lemma NextWindow(base: nat, k: nat)
    requires Base(base, k) == base
    ensures Base(base + Pow2(k), k) == base + Pow2(k)
  {
    var q := ShiftRight(base, k);
    ShiftOfOne(k);
    ShiftSum(q, 1, k);
    ShiftBack(q + 1, k);
  }

  /** The region that the word at distance w behind RBAR belongs to, with 2^k alias pairs. */
  function Shown(rnr: nat, k: nat, w: nat): nat
  {
    if w < 2 then rnr else Base(rnr, k) + w / 2
  }

  /** Where word i behind alias pair number offset goes: with RNR on the base of a group, or to the first pair. */
  lemma WordGoes(rnr: nat, k: nat, offset: nat, i: nat, r: Region, value: uint32)
    requires Base(rnr, k) == rnr || (offset == 0 && i < 2)
    ensures Shown(rnr, k, offset * 2 + i) == rnr + offset + i / 2
    ensures PutWord(r, offset * 2 + i, value) == PutWord(r, i, value)
  {
  }

  // ------------------------------------------------------------- the device

  /** The registers of an MPU with 2^k alias windows: RNR selects what RBAR and RLAR show, and the further alias
      pairs show the other regions of the aligned group that RNR points into. */
  class Mpu {
    const k: nat
    var rnr: nat
    var regions: seq<Region>

    constructor (k: nat, regions: seq<Region>)
      ensures this.k == k && this.regions == regions && rnr == 0
    {
      this.k, this.regions, this.rnr := k, regions, 0;
    }

    function Aliases(): nat
    {
      Pow2(k)
    }

    /** A write to the register at distance w behind RBAR. */
    method WriteWord(w: nat, value: uint32)
      requires w < 2 * Aliases() && Shown(rnr, k, w) < |regions|
      modifies this
      ensures rnr == old(rnr)
      ensures var i := Shown(rnr, k, w);
        regions == old(regions)[i := PutWord(old(regions)[i], w, value)]
    {
      var i := Shown(rnr, k, w);
      regions := regions[i := PutWord(regions[i], w, value)];
    }

    /** `ARM_MPU_SetRegionEx` */
    method SetRegion(rnr: nat, rbar: uint32, rlar: uint32)
      requires rnr < |regions|
      modifies this
      ensures regions == SetEach(old(regions), rnr, [Region(rbar, rlar)]) && this.rnr == rnr
    {
      this.rnr := rnr;
      WriteWord(0, rbar);
      WriteWord(1, rlar);
      assert regions == old(regions)[rnr := Region(rbar, rlar)];
    }

    /** `orderedCpy` of the words of n table entries to the alias pairs from number offset on. */
    method OrderedCopy(offset: nat, table: seq<Region>, n: nat)
      requires n <= |table| && offset + n <= Aliases() && rnr + offset + n <= |regions|
      requires Base(rnr, k) == rnr || (offset == 0 && n <= 1)
      modifies this
      ensures rnr == old(rnr) && regions == SetEach(old(regions), rnr + offset, table[..n])
    {
      hide PutWord;
      hide Shown;
      hide Base;
      hide Words;
      hide WordByWord;
      hide Pow2;
      var src := Words(table);
      ghost var was, first := regions, rnr + offset;
      WordByWordNone(was, first, src);
      WordsAreRegions(was, first, table, n);
      for i := 0 to 2 * n
        invariant rnr == old(rnr) && regions == WordByWord(was, first, src, i)
      {
        ghost var r := regions;
        WordGoes(rnr, k, offset, i, r[first + i / 2], src[i]);
        WriteWord(offset * 2 + i, src[i]);
        assert regions == WordByWord(was, first, src, i + 1) by {
          WordByWordNext(was, first, src, i);
        }
      }
    }

    /** `ARM_MPU_LoadEx`: through the alias windows, it leaves what setting the regions one at a time leaves. */
    method Load(rnr: nat, table: seq<Region>, cnt: nat)
      requires cnt <= |table| && rnr + cnt <= |regions|
      modifies this
      ensures regions == SetEach(old(regions), rnr, table[..cnt])
    {
      hide SetEach;
      hide Base;
      hide Pow2;
      if cnt == 1 {
        this.rnr := rnr;
        OrderedCopy(0, table, 1);
      } else {
        WindowBase(rnr, k);
        BaseOfBase(rnr, k);
        var rnrBase, rnrOffset := Base(rnr, k), rnr % Aliases();
        var rest, left := table, cnt;
        ghost var done: nat := 0;
        SetNone(regions, rnr);
        this.rnr := rnrBase;
        while rnrOffset + left > Aliases()
          invariant done <= cnt && left == cnt - done && rest == table[done..] && rnrBase + rnrOffset == rnr + done
          invariant 0 <= rnrOffset < Aliases() && this.rnr == rnrBase && Base(rnrBase, k) == rnrBase
          invariant regions == SetEach(old(regions), rnr, table[..done])
          decreases left
        {
          var c := Aliases() - rnrOffset;
          OrderedCopy(rnrOffset, rest, c);
          SetEachInParts(old(regions), rnr, table[..done], rest[..c]);
          assert table[..done] + rest[..c] == table[..done + c];
          NextWindow(rnrBase, k);
          rest, left, done := rest[c..], left - c, done + c;
          rnrOffset := 0;
          rnrBase := rnrBase + Aliases();
          this.rnr := rnrBase;
        }
        OrderedCopy(rnrOffset, rest, left);
        SetEachInParts(old(regions), rnr, table[..done], rest[..left]);
        assert table[..done] + rest[..left] == table[..cnt];
      }
    }
  }
}
