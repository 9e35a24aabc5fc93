/** The circular write and read kernels of CMSIS; the float, q15 and q7 versions are one piece of code. */
module RingBuffer {
  import opened Division

  /** How the kernels move an offset: only the upper end is checked. */
  function Next(offset: int, inc: int, L: int): int
  {
    if offset + inc >= L then offset + inc - L else offset + inc
  }

  /** The kernels stay inside a buffer of L samples exactly for increments from 0 to L: a negative one, which the
      source's comment warns of, leaves it at offset 0. */
  lemma StaysInsideIff(inc: int, L: int)
    requires L > 0
    ensures (forall offset :: 0 <= offset < L ==> 0 <= Next(offset, inc, L) < L) <==> 0 <= inc <= L
  {
    if inc < 0 {
      assert Next(0, inc, L) < 0;
    } else if inc > L {
      assert Next(L - 1, inc, L) >= L;
    }
  }

  /** The offset as the write kernel leaves it behind, in a `uint16_t`. */
  function Kept(offset: int): int
  {
    offset % 0x1_0000
  }

  /** It keeps every offset of a ring exactly for rings of at most 2^16 samples. */
  lemma KeptIff(L: nat)
    ensures (forall offset :: 0 <= offset < L ==> Kept(offset) == offset) <==> L <= 0x1_0000
  {
    if L > 0x1_0000 {
      assert Kept(0x1_0000) == 0;
    }
  }

  predicate Inside(offset: int, inc: int, L: int)
  {
    0 <= offset < L && 0 <= inc <= L
  }

  /** The offset after n samples. */
  function After(offset: int, inc: int, L: int, n: nat): (r: int)
    requires Inside(offset, inc, L)
    ensures 0 <= r < L
    decreases n
  {
    if n == 0 then offset else After(Next(offset, inc, L), inc, L, n - 1)
  }

  /** The buffer after the samples of s. */
  function Write<T>(b: seq<T>, offset: int, inc: int, L: int, s: seq<T>): (r: seq<T>)
    requires Inside(offset, inc, L) && L <= |b|
    ensures |r| == |b|
    decreases |s|
  {
    if s == [] then b else Write(b[offset := s[0]], Next(offset, inc, L), inc, L, s[1..])
  }

  /** The n samples from offset on. */
  function Read<T>(b: seq<T>, offset: int, inc: int, L: int, n: nat): (s: seq<T>)
    requires Inside(offset, inc, L) && L <= |b|
    ensures |s| == n
    decreases n
  {
    if n == 0 then [] else [b[offset]] + Read(b, Next(offset, inc, L), inc, L, n - 1)
  }

  /** Whether n samples at distance inc, from position p on, lie in a source of the given length. */
  predicate Strided(length: nat, p: int, inc: int, n: nat)
    decreases n
  {
    n > 0 ==> 0 <= p < length && Strided(length, p + inc, inc, n - 1)
  }

  function Pick<T>(src: seq<T>, p: int, inc: int, n: nat): (s: seq<T>)
    requires Strided(|src|, p, inc, n)
    ensures |s| == n
    decreases n
  {
    if n == 0 then [] else [src[p]] + Pick(src, p + inc, inc, n - 1)
  }

  /** `arm_circularWrite_q15`, and its float and q7 twins; the offset is kept in 16 bits. */
  method CircularWrite<T>(buffer: array<T>, L: int, offset: nat, bufferInc: int, src: seq<T>, srcInc: int,
                          blockSize: nat)
    returns (writeOffset: nat)
    requires Inside(offset, bufferInc, L) && L <= buffer.Length && Strided(|src|, 0, srcInc, blockSize)
    modifies buffer
    ensures buffer[..] == Write(old(buffer[..]), offset, bufferInc, L, Pick(src, 0, srcInc, blockSize))
    ensures writeOffset == Kept(After(offset, bufferInc, L, blockSize))
  {
    var wOffset: int, p, i := offset, 0, blockSize;
    while i > 0
      invariant Inside(wOffset, bufferInc, L) && i >= 0 && Strided(|src|, p, srcInc, i)
      invariant Write(buffer[..], wOffset, bufferInc, L, Pick(src, p, srcInc, i))
        == Write(old(buffer[..]), offset, bufferInc, L, Pick(src, 0, srcInc, blockSize))
      invariant After(wOffset, bufferInc, L, i) == After(offset, bufferInc, L, blockSize)
    {
      ghost var was := buffer[..];
      buffer[wOffset] := src[p];
      assert buffer[..] == was[wOffset := src[p]];
      p := p + srcInc;
      wOffset := wOffset + bufferInc;
      if wOffset >= L {
        wOffset := wOffset - L;
      }
      i := i - 1;
    }
    writeOffset := Kept(wOffset);
  }

  /** The destination after the samples of s, from position p on, wrapping when it hits the end exactly. */
  function Spread<T>(d: seq<T>, p: int, inc: int, end: int, s: seq<T>): (r: seq<T>)
    requires Fits(|d|, p, inc, end, |s|)
    ensures |r| == |d|
    decreases |s|
  {
    if s == [] then d else Spread(d[p := s[0]], if p + inc == end then 0 else p + inc, inc, end, s[1..])
  }

  predicate Fits(length: nat, p: int, inc: int, end: int, n: nat)
    decreases n
  {
    n > 0 ==> 0 <= p < length && Fits(length, if p + inc == end then 0 else p + inc, inc, end, n - 1)
  }

  /** `arm_circularRead_q15`, and its float and q7 twins; p is where dst stands behind dst_base. */
  method CircularRead<T>(buffer: array<T>, L: int, offset: int, bufferInc: int, dst: array<T>, p: int, dstLength: int,
                         dstInc: int, blockSize: nat)
    returns (readOffset: int)
    requires Inside(offset, bufferInc, L) && L <= buffer.Length && buffer != dst
    requires Fits(dst.Length, p, dstInc, dstLength, blockSize)
    modifies dst
    ensures dst[..] == Spread(old(dst[..]), p, dstInc, dstLength, Read(buffer[..], offset, bufferInc, L, blockSize))
    ensures readOffset == After(offset, bufferInc, L, blockSize)
  {
    var rOffset, d, i := offset, p, blockSize;
    while i > 0
      invariant Inside(rOffset, bufferInc, L) && i >= 0 && Fits(dst.Length, d, dstInc, dstLength, i)
      invariant buffer[..] == old(buffer[..])
      invariant Spread(dst[..], d, dstInc, dstLength, Read(buffer[..], rOffset, bufferInc, L, i))
        == Spread(old(dst[..]), p, dstInc, dstLength, Read(buffer[..], offset, bufferInc, L, blockSize))
      invariant After(rOffset, bufferInc, L, i) == After(offset, bufferInc, L, blockSize)
    {
      ghost var was := dst[..];
      dst[d] := buffer[rOffset];
      assert dst[..] == was[d := buffer[rOffset]];
      d := d + dstInc;
      if d == dstLength {
        d := 0;
      }
      rOffset := rOffset + bufferInc;
      if rOffset >= L {
        rOffset := rOffset - L;
      }
      i := i - 1;
    }
    readOffset := rOffset;
  }

  // -------------------------------------------------------- any increment

  /** Where sample k from offset on lies. */
  function Place(offset: int, inc: int, L: int, k: nat): (i: int)
    requires Inside(offset, inc, L)
    ensures 0 <= i < L
  {
    TimesRises(0, k, inc);
    (offset + inc * k) % L
  }

  lemma LessOneRound(x: nat, L: nat)
    requires L > 0
    ensures (x + L) % L == x % L
  {
    assert x + L == L * (x / L + 1) + x % L;
    Remainder(L, x / L + 1, x % L);
  }

  lemma PlaceNext(offset: int, inc: int, L: int, k: nat)
    requires Inside(offset, inc, L)
    ensures Inside(Next(offset, inc, L), inc, L)
    ensures Place(Next(offset, inc, L), inc, L, k) == Place(offset, inc, L, k + 1)
    ensures Place(offset, inc, L, 0) == offset
  {
    TimesRises(0, k, inc);
    assert inc * (k + 1) == inc * k + inc;
    Remainder(L, 0, offset);
    if offset + inc >= L {
      LessOneRound(offset + inc - L + inc * k, L);
    }
  }

  /** For every increment that stays inside: n samples on, the offset is n increments further, modulo the length. */
  lemma {:induction false} AfterIs(offset: int, inc: int, L: int, n: nat)
    requires Inside(offset, inc, L)
    ensures After(offset, inc, L, n) == Place(offset, inc, L, n)
    decreases n
  {
    PlaceNext(offset, inc, L, if n > 0 then n - 1 else 0);
    if n > 0 {
      AfterIs(Next(offset, inc, L), inc, L, n - 1);
    }
  }

  /** Sample k is read k increments further. */
  lemma {:induction false} ReadPlaces<T>(b: seq<T>, offset: int, inc: int, L: int, n: nat, k: nat)
    requires Inside(offset, inc, L) && L <= |b| && k < n
    ensures Read(b, offset, inc, L, n)[k] == b[Place(offset, inc, L, k)]
    decreases n
  {
    PlaceNext(offset, inc, L, if k > 0 then k - 1 else 0);
    if k > 0 {
      ReadPlaces(b, Next(offset, inc, L), inc, L, n - 1, k - 1);
    }
  }

  /** And taken from the source at its own stride. */
  lemma {:induction false} PickPlaces<T>(src: seq<T>, p: int, inc: int, n: nat, k: nat)
    requires Strided(|src|, p, inc, n) && k < n
    ensures 0 <= p + inc * k < |src| && Pick(src, p, inc, n)[k] == src[p + inc * k]
    decreases n
  {
    if k > 0 {
      PickPlaces(src, p + inc, inc, n - 1, k - 1);
      assert inc * k == inc * (k - 1) + inc;
    }
  }

  /** No sample of s from number k on is written at i. */
  ghost predicate Missed(offset: int, inc: int, L: int, k: nat, n: nat, i: int)
    requires Inside(offset, inc, L)
  {
    forall j :: k <= j < n ==> Place(offset, inc, L, j) != i
  }

  lemma MissedNext(offset: int, inc: int, L: int, k: nat, n: nat, i: int)
    requires Inside(offset, inc, L) && n > 0 && Missed(offset, inc, L, k + 1, n, i)
    ensures Inside(Next(offset, inc, L), inc, L) && Missed(Next(offset, inc, L), inc, L, k, n - 1, i)
  {
    PlaceNext(offset, inc, L, 0);
    forall j | k <= j < n - 1 ensures Place(Next(offset, inc, L), inc, L, j) != i {
      PlaceNext(offset, inc, L, j);
    }
  }

  /** A slot keeps what it held if no sample is written there. */
  lemma {:induction false} WriteMisses<T>(b: seq<T>, offset: int, inc: int, L: int, s: seq<T>, i: nat)
    requires Inside(offset, inc, L) && L <= |b| && i < |b| && Missed(offset, inc, L, 0, |s|, i)
    ensures Write(b, offset, inc, L, s)[i] == b[i]
    decreases |s|
  {
    if s != [] {
      PlaceNext(offset, inc, L, 0);
      assert Place(offset, inc, L, 0) != i;
      assert Missed(offset, inc, L, 1, |s|, i);
      MissedNext(offset, inc, L, 0, |s|, i);
      WriteMisses(b[offset := s[0]], Next(offset, inc, L), inc, L, s[1..], i);
    }
  }

  /** And otherwise holds the last one written there. */
  lemma {:induction false} WritePlaces<T>(b: seq<T>, offset: int, inc: int, L: int, s: seq<T>, k: nat)
    requires Inside(offset, inc, L) && L <= |b| && k < |s|
    requires Missed(offset, inc, L, k + 1, |s|, Place(offset, inc, L, k))
    ensures Write(b, offset, inc, L, s)[Place(offset, inc, L, k)] == s[k]
    decreases |s|
  {
    var i := Place(offset, inc, L, k);
    MissedNext(offset, inc, L, k, |s|, i);
    PlaceNext(offset, inc, L, if k > 0 then k - 1 else 0);
    if k > 0 {
      WritePlaces(b[offset := s[0]], Next(offset, inc, L), inc, L, s[1..], k - 1);
    } else {
      WriteMisses(b[offset := s[0]], Next(offset, inc, L), inc, L, s[1..], i);
    }
  }

  // ------------------------------------------------------- unit increments

  /** Where sample k from offset on lies, k at most L. */
  function Slot(offset: int, k: nat, L: int): int
  {
    if offset + k < L then offset + k else offset + k - L
  }

  lemma {:induction false} ReadAt<T>(b: seq<T>, offset: int, L: int, n: nat, k: nat)
    requires Inside(offset, 1, L) && L <= |b| && k < n <= L
    ensures Read(b, offset, 1, L, n)[k] == b[Slot(offset, k, L)]
    decreases n
  {
    if k > 0 {
      ReadAt(b, Next(offset, 1, L), L, n - 1, k - 1);
    }
  }

  /** At most L samples land each in its own slot, and nothing else changes. */
  lemma {:induction false} WriteAt<T>(b: seq<T>, offset: int, L: int, s: seq<T>)
    requires Inside(offset, 1, L) && L <= |b| && |s| <= L
    ensures var r := Write(b, offset, 1, L, s);
      && (forall k :: 0 <= k < |s| ==> r[Slot(offset, k, L)] == s[k])
      && forall i :: 0 <= i < |b| && (forall k :: 0 <= k < |s| ==> i != Slot(offset, k, L)) ==> r[i] == b[i]
    decreases |s|
  {
    if s != [] {
      var next := Next(offset, 1, L);
      WriteAt(b[offset := s[0]], next, L, s[1..]);
      assert forall k :: 0 < k < |s| ==> Slot(offset, k, L) == Slot(next, k - 1, L);
      assert Slot(offset, 0, L) == offset;
      assert forall k :: 0 <= k < |s| - 1 ==> Slot(next, k, L) == Slot(offset, k + 1, L);
    }
  }

  /** Reading n samples, n at most L, from where a write started returns what that write stored. */
  lemma ReadBack<T>(b: seq<T>, offset: int, L: int, s: seq<T>)
    requires Inside(offset, 1, L) && L <= |b| && |s| <= L
    ensures Read(Write(b, offset, 1, L, s), offset, 1, L, |s|) == s
  {
    WriteAt(b, offset, L, s);
    forall k | 0 <= k < |s| ensures Read(Write(b, offset, 1, L, s), offset, 1, L, |s|)[k] == s[k] {
      ReadAt(Write(b, offset, 1, L, s), offset, L, |s|, k);
    }
  }

  /** And it arrives at the front of a destination that has room for it. */
  lemma {:induction false} SpreadInOrder<T>(d: seq<T>, p: nat, end: int, s: seq<T>)
    requires p + |s| <= end <= |d|
    ensures Fits(|d|, p, 1, end, |s|) && Spread(d, p, 1, end, s) == d[..p] + s + d[p + |s|..]
    decreases |s|
  {
    if |s| > 1 {
      SpreadInOrder(d[p := s[0]], p + 1, end, s[1..]);
      assert d[p := s[0]][..p + 1] == d[..p] + [s[0]];
      assert s == [s[0]] + s[1..];
    }
  }

  /** A destination that the end cuts off is a ring for the samples read into it. */
  lemma {:induction false} SpreadIsWrite<T>(d: seq<T>, p: int, end: int, s: seq<T>)
    requires 0 <= p < end <= |d|
    ensures Fits(|d|, p, 1, end, |s|) && Spread(d, p, 1, end, s) == Write(d, p, 1, end, s)
    decreases |s|
  {
    if s != [] {
      SpreadIsWrite(d[p := s[0]], Next(p, 1, end), end, s[1..]);
    }
  }

  // ------------------------------------------------------------- the stream

  /** The slot of the sample written k samples before the last. */
  function Back(offset: int, k: nat, L: int): int
  {
    if k < offset then offset - 1 - k else offset - 1 - k + L
  }

  /** The ring holds the last L samples of the stream, and its offset is the stream's length mod L. */
  ghost predicate Holds<T>(b: seq<T>, offset: int, L: int, stream: seq<T>)
  {
    && 0 < L <= |b| && offset == |stream| % L
    && forall k :: 0 <= k < L && k < |stream| ==> b[Back(offset, k, L)] == stream[|stream| - 1 - k]
  }

  lemma NextOfLength(n: nat, L: nat)
    requires L > 0
    ensures Next(n % L, 1, L) == (n + 1) % L
  {
    var q, r := n / L, n % L;
    assert n + 1 == L * q + (r + 1);
    if r + 1 == L {
      assert n + 1 == L * (q + 1) + 0;
      Remainder(L, q + 1, 0);
    } else {
      Remainder(L, q, r + 1);
    }
  }

  lemma PutHolds<T>(b: seq<T>, offset: int, L: int, stream: seq<T>, x: T)
    requires Holds(b, offset, L, stream)
    ensures Holds(b[offset := x], Next(offset, 1, L), L, stream + [x])
  {
    NextOfLength(|stream|, L);
    var b', offset', stream' := b[offset := x], Next(offset, 1, L), stream + [x];
    forall k | 0 <= k < L && k < |stream'| ensures b'[Back(offset', k, L)] == stream'[|stream'| - 1 - k] {
      if k > 0 {
        assert Back(offset', k, L) == Back(offset, k - 1, L);
      }
    }
  }

  lemma {:induction false} WriteHolds<T>(b: seq<T>, offset: int, L: int, stream: seq<T>, s: seq<T>)
    requires Holds(b, offset, L, stream)
    ensures Holds(Write(b, offset, 1, L, s), After(offset, 1, L, |s|), L, stream + s)
    decreases |s|
  {
    if s == [] {
      assert stream + s == stream;
    } else {
      PutHolds(b, offset, L, stream, s[0]);
      WriteHolds(b[offset := s[0]], Next(offset, 1, L), L, stream + [s[0]], s[1..]);
      assert stream + [s[0]] + s[1..] == stream + s;
    }
  }

  function Concat<T>(blocks: seq<seq<T>>): seq<T>
  {
    if blocks == [] then [] else blocks[0] + Concat(blocks[1..])
  }

  /** A sequence of writes, each taking up the 16-bit offset that the one before it left. */
  function WriteBlocks<T>(b: seq<T>, offset: int, L: int, blocks: seq<seq<T>>): (seq<T>, int)
    requires Inside(offset, 1, L) && L <= |b|
    decreases |blocks|
  {
    if blocks == [] then (b, offset)
    else
      var n := |blocks[0]|;
      WriteBlocks(Write(b, offset, 1, L, blocks[0]), Kept(After(offset, 1, L, n)), L, blocks[1..])
  }

  lemma {:induction false} BlocksHold<T>(b: seq<T>, offset: int, L: int, stream: seq<T>, blocks: seq<seq<T>>)
    requires Holds(b, offset, L, stream) && L <= 0x1_0000
    ensures var (r, end) := WriteBlocks(b, offset, L, blocks); Holds(r, end, L, stream + Concat(blocks))
    decreases |blocks|
  {
    if blocks == [] {
      assert stream + Concat(blocks) == stream;
    } else {
      var s := blocks[0];
      var b', end := Write(b, offset, 1, L, s), After(offset, 1, L, |s|);
      WriteHolds(b, offset, L, stream, s);
      assert Kept(end) == end;
      BlocksHold(b', end, L, stream + s, blocks[1..]);
      assert WriteBlocks(b, offset, L, blocks) == WriteBlocks(b', end, L, blocks[1..]);
      assert stream + s + Concat(blocks[1..]) == stream + Concat(blocks);
    }
  }

  /** Reading L samples from where the writes ended returns the last L samples of the stream, in order. */
  lemma ReadHeld<T>(b: seq<T>, offset: int, L: int, stream: seq<T>)
    requires Holds(b, offset, L, stream) && |stream| >= L
    ensures Read(b, offset, 1, L, L) == stream[|stream| - L..]
  {
    var r, last := Read(b, offset, 1, L, L), stream[|stream| - L..];
    forall k | 0 <= k < L ensures r[k] == last[k] {
      ReadAt(b, offset, L, L, k);
      assert Slot(offset, k, L) == Back(offset, L - 1 - k, L);
    }
  }

  /** After any sequence of writes from offset 0, in blocks of any sizes, into a ring of at most 2^16 samples:
      the offset is the total mod L, and a full ring reads back the last L samples of the whole stream. */
  lemma RingHoldsStream<T>(b: seq<T>, L: int, blocks: seq<seq<T>>)
    requires 0 < L <= |b| && L <= 0x1_0000
    ensures var (r, end), stream := WriteBlocks(b, 0, L, blocks), Concat(blocks);
      && Holds(r, end, L, stream) && end == |stream| % L
      && (|stream| >= L ==> Read(r, end, 1, L, L) == stream[|stream| - L..])
  {
    var (r, end) := WriteBlocks(b, 0, L, blocks);
    BlocksHold(b, 0, L, [], blocks);
    assert [] + Concat(blocks) == Concat(blocks);
    if |Concat(blocks)| >= L {
      ReadHeld(r, end, L, Concat(blocks));
    }
  }
}
