/** Green Power data frames on the wire: what is built, what is accepted, and how the two fit together. */
module Frames {
  import opened Bytes
  import opened Ccm

  const DATA: byte := 0
  const MAINTENANCE: byte := 1

  const CMD_TOGGLE: byte := 0x22
  const CMD_COMMISSIONING: byte := 0xE0
  const CMD_DECOMMISSIONING: byte := 0xE1
  const CMD_SUCCESS: byte := 0xE2
  const CMD_CHANNEL_REQUEST: byte := 0xE3
  const CMD_COMMISSIONING_REPLY: byte := 0xF0
  const CMD_CHANNEL_CONFIG: byte := 0xF3

  const MAX_PAYLOAD := 59
  const AUTH_START := 8
  const AUTH_LENGTH := 10
  const TAG_SIZE := 4

  /** The two-bit security level: none, reserved, authenticated, authenticated and encrypted. */
  type Level = x: int | 0 <= x < 4

  predicate Secured(level: Level)
  {
    level >= 2
  }

  function TagSize(level: Level): nat
  {
    if Secured(level) then TAG_SIZE else 0
  }

  // ---------------------------------------------------------------- building

  /** The part of the device record that a frame is built from. */
  datatype TxFields = TxFields(
    srcId: uint32, autoCommissioning: bool, rxAfterTx: bool, level: Level, keyType: byte, counter: uint32)

  predicate Extended(t: TxFields)
  {
    t.level > 0 || t.rxAfterTx
  }

  function NwkFc(frameType: byte, autoCommissioning: bool, extended: bool): byte
    requires frameType < 4
  {
    frameType + 3 * 4 + (if autoCommissioning then 0x40 else 0) + (if extended then 0x80 else 0)
  }

  function ExtNwkFc(t: TxFields): byte
  {
    8 * t.level + (if t.level > 0 && Bit(t.keyType, 2) then 0x20 else 0) + (if t.rxAfterTx then 0x40 else 0)
  }

  /** MAC frame control, sequence number, broadcast PAN and destination. */
  function MacHeader(counter: uint32): (h: seq<byte>)
    ensures |h| == 7
  {
    [0x01, 0x08, counter % 0x100, 0xFF, 0xFF, 0xFF, 0xFF]
  }

  /** Everything in front of the payload, the length byte included. */
  function Header(nwkFc: byte, ext: seq<byte>, srcId: uint32, level: Level, counter: uint32, n: nat): (h: seq<byte>)
    requires |ext| <= 1 && n <= MAX_PAYLOAD
    ensures |h| == 13 + |ext| + TagSize(level)
  {
    [14 + |ext| + 2 * TagSize(level) + n] + MacHeader(counter) + [nwkFc] + ext + Le4(srcId)
    + if Secured(level) then Le4(counter) else []
  }

  /** A data frame before it is secured. */
  function Mpdu(nwkFc: byte, ext: seq<byte>, srcId: uint32, level: Level, counter: uint32, payload: seq<byte>)
    : (m: seq<byte>)
    requires |ext| <= 1 && |payload| <= MAX_PAYLOAD
    ensures |m| == 13 + |ext| + TagSize(level) + |payload|
    ensures m[0] == |m| + 1 + TagSize(level)
  {
    Header(nwkFc, ext, srcId, level, counter, |payload|) + payload
  }

  /** The header of the device's own data frame, asking for a receive window or not. */
  function DataHeader(t: TxFields, rxAfterTx: bool, n: nat): seq<byte>
    requires n <= MAX_PAYLOAD
  {
    Header(NwkFc(DATA, t.autoCommissioning, Extended(t)),
           if Extended(t) then [ExtNwkFc(t.(rxAfterTx := rxAfterTx))] else [], t.srcId, t.level, t.counter, n)
  }

  /** The device's own data frame; a Success command never asks for a receive window. */
  function DataMpdu(t: TxFields, payload: seq<byte>): seq<byte>
    requires 1 <= |payload| <= MAX_PAYLOAD
  {
    DataHeader(t, t.rxAfterTx && payload[0] != CMD_SUCCESS, |payload|) + payload
  }

  function MaintMpdu(t: TxFields, payload: seq<byte>): (m: seq<byte>)
    requires |payload| <= MAX_PAYLOAD
    ensures |m| == 9 + |payload| && m[0] == |m| + 1
  {
    [10 + |payload|] + MacHeader(t.counter) + [NwkFc(MAINTENANCE, t.autoCommissioning, false)] + payload
  }

  /** A frame of the given level secured in place: authenticated from start on, encrypted from head on. */
  function SecureFrom(E: Cipher, key: Block, nonce: Nonce, mpdu: seq<byte>, start: nat, head: nat, level: Level)
    : (f: seq<byte>)
    requires Secured(level) ==> start < head <= |mpdu| <= 124
    ensures |f| == |mpdu| + TagSize(level)
    ensures |mpdu| > 0 ==> f[0] == mpdu[0]
  {
    if level == 2 then
      mpdu + Seal(E, key, nonce, mpdu[start..], []).tag
    else if level == 3 then
      var s := Seal(E, key, nonce, mpdu[start..head], mpdu[head..]);
      mpdu[..head] + s.cipher + s.tag
    else
      mpdu
  }

  /** The device's frame secured over its authenticated header and payload of n bytes. */
  function Secure(E: Cipher, key: Block, nonce: Nonce, mpdu: seq<byte>, n: nat, level: Level): (f: seq<byte>)
    requires Secured(level) ==> |mpdu| == AUTH_START + AUTH_LENGTH + n && n <= MAX_PAYLOAD
    ensures |f| == |mpdu| + TagSize(level)
    ensures |mpdu| > 0 ==> f[0] == mpdu[0]
  {
    SecureFrom(E, key, nonce, mpdu, AUTH_START, AUTH_START + AUTH_LENGTH, level)
  }

  /** The bytes handed to the radio. */
  function Frame(E: Cipher, key: Block, nonce: Nonce, t: TxFields, frameType: byte, payload: seq<byte>): (f: seq<byte>)
    requires 1 <= |payload| <= MAX_PAYLOAD
    ensures frameType <= MAINTENANCE ==> 10 <= |f| <= 81 && f[0] == |f| - 1 + 2
  {
    if frameType == DATA then Secure(E, key, nonce, DataMpdu(t, payload), |payload|, t.level)
    else if frameType == MAINTENANCE then MaintMpdu(t, payload)
    else []
  }

  // --------------------------------------------------------------- receiving

  /** The static receive buffer: the delivered bytes, then whatever earlier frames left behind. */
  type Buffer = s: seq<byte> | |s| == 128 witness seq(128, _ => 0)

  /** The index of the last byte before the frame check sequence. */
  function NwkEnd(b: Buffer): int
  {
    var total: int := b[0];
    total - 2
  }

  /** Where the network frame control is, or 0 for an unknown MAC frame control. */
  function NwkOffset(b: Buffer): nat
  {
    var low: int, high: int := b[1], b[2];
    var fc := 0x100 * high + low;
    if fc == 0x0C01 then 14 else if fc == 0x0801 then 8 else 0
  }

  function NwkFcOf(b: Buffer): byte
  {
    b[NwkOffset(b)]
  }

  function FrameType(b: Buffer): byte
  {
    NwkFcOf(b) % 4
  }

  predicate HasExt(b: Buffer)
  {
    Bit(NwkFcOf(b), 7)
  }

  function Ext(b: Buffer): byte
  {
    if HasExt(b) then b[NwkOffset(b) + 1] else 0
  }

  function LevelOf(b: Buffer): Level
  {
    Ext(b) / 8 % 4
  }

  function AppId(b: Buffer): byte
  {
    Ext(b) % 8
  }

  function AfterFc(b: Buffer): nat
  {
    NwkOffset(b) + if HasExt(b) then 2 else 1
  }

  predicate HasSource(b: Buffer)
  {
    HasExt(b) && AppId(b) == 0 && FrameType(b) == DATA
  }

  /** The source id the frame carries; 0 stands for none. */
  function Source(b: Buffer): uint32
  {
    if HasSource(b) then Word(b[AfterFc(b)..AfterFc(b) + 4]) else 0
  }

  function HeaderEnd(b: Buffer): nat
  {
    AfterFc(b) + (if HasSource(b) then 4 else 0) + TagSize(LevelOf(b))
  }

  function AppPayloadSize(b: Buffer): nat
  {
    var end := HeaderEnd(b) + TagSize(LevelOf(b)) - 1;
    if NwkEnd(b) > end then NwkEnd(b) - end else 0
  }

  /** The checks on the two control fields: version, type, direction, and not both of auto-commissioning and
      receive-after-transmit. */
  predicate ControlPasses(b: Buffer)
  {
    && NwkFcOf(b) / 4 % 8 == 3
    && FrameType(b) <= MAINTENANCE
    && (HasExt(b) ==> Bit(Ext(b), 7))
    && !(Bit(Ext(b), 6) && Bit(NwkFcOf(b), 6))
  }

  /** Exactly the frames that are not dropped. */
  predicate Accepts(b: Buffer, srcId: uint32)
  {
    && NwkEnd(b) >= 8
    && NwkOffset(b) != 0
    && ControlPasses(b)
    && (FrameType(b) == DATA ==> Source(b) == srcId)
  }

  /** A level-3 data frame, which is decrypted in place. */
  predicate Decrypts(b: Buffer)
  {
    LevelOf(b) == 3 && HasSource(b)
  }

  /** The frame's own length byte keeps every access inside the frame and the 80-byte scratch: the control fields of
      a frame that gets so far, and all of its header and tag if those pass. */
  predicate InBounds(b: Buffer)
  {
    && 2 <= b[0] <= 127
    && (NwkEnd(b) >= 8 && NwkOffset(b) != 0 ==>
          && NwkOffset(b) + 1 <= b[0]
          && (ControlPasses(b) ==>
                && HeaderEnd(b) + TagSize(LevelOf(b)) <= NwkEnd(b) + 1
                && (Decrypts(b) ==> NwkEnd(b) - 21 <= 80)))
  }

  /** A frame as the radio delivers it: its length byte counts the rest of it, check sequence included. */
  predicate WellFormed(p: seq<byte>)
  {
    1 <= |p| <= 128 && p[0] == |p| - 1 && InBounds(p + Zeros(128 - |p|))
  }

  type Packet = p: seq<byte> | WellFormed(p) witness [2, 0, 0]

  /** The receive buffer once p has been read into it. */
  function Received(b: Buffer, p: Packet): (r: Buffer)
  {
    p + b[|p|..]
  }

  /** Stale bytes behind a delivered frame change nothing in how its header is read. */
  lemma StaleBytesIrrelevant(b: Buffer, p: Packet)
    ensures InBounds(Received(b, p))
    ensures var r, z := Received(b, p), p + Zeros(128 - |p|);
            NwkEnd(z) >= 8 && NwkOffset(z) != 0 ==>
            && NwkEnd(r) == NwkEnd(z) && NwkOffset(r) == NwkOffset(z) && NwkFcOf(r) == NwkFcOf(z)
            && Ext(r) == Ext(z) && HeaderEnd(r) == HeaderEnd(z) && (ControlPasses(z) ==> Source(r) == Source(z))
  {
    var r, z := Received(b, p), p + Zeros(128 - |p|);
    if NwkEnd(z) >= 8 && NwkOffset(z) != 0 && ControlPasses(z) {
      assert HeaderEnd(z) <= |p| - 2;
      if HasSource(z) {
        assert r[AfterFc(z)..AfterFc(z) + 4] == p[AfterFc(z)..AfterFc(z) + 4] == z[AfterFc(z)..AfterFc(z) + 4];
      }
    }
  }

  /** Header, payload, tag and check sequence tile the 1 + b[0] bytes of an accepted frame. */
  lemma Partition(b: Buffer, srcId: uint32)
    requires InBounds(b) && Accepts(b, srcId)
    ensures HeaderEnd(b) + AppPayloadSize(b) + TagSize(LevelOf(b)) + 2 == 1 + b[0]
    ensures var h, n, t := HeaderEnd(b), AppPayloadSize(b), TagSize(LevelOf(b));
            b[..1 + b[0]] == b[..h] + b[h..h + n] + b[h + n..h + n + t] + b[h + n + t..1 + b[0]]
  {
    var h, n, t, size := HeaderEnd(b), AppPayloadSize(b), TagSize(LevelOf(b)), 1 + b[0];
    FourParts(b[..size], h, h + n, h + n + t);
    SubSlice(b, 0, size, 0, h);
    SubSlice(b, 0, size, h, h + n);
    SubSlice(b, 0, size, h + n, h + n + t);
    SubSlice(b, 0, size, h + n + t, size);
  }
}
