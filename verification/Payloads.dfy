/** When a delivered command depends on the delivered payload alone.  The handler takes no notice of the payload's
    length, so a command shorter than what it reads goes on into the tag, the check sequence and stale bytes. */
module Payloads {
  import opened Bytes
  import opened Ccm
  import opened Frames
  import opened FrameProperties
  import opened Gpd
  import opened Delivery

  /** How much of a reply the handler reads, the command included: the options, and with a key the PAN id in front of
      it, if there is one, and the key itself, or the wrapped key with its tag and counter. */
  function ReplyReads(options: byte): nat
  {
    2 + if Bit(options, 1) then (if Bit(options, 0) then 2 else 0) + (if Bit(options, 2) then 24 else 16) else 0
  }

  /** The payload covers what its command reads. */
  predicate Covered(payload: seq<byte>)
    requires |payload| >= 1
  {
    && (payload[0] == CMD_CHANNEL_CONFIG ==> |payload| >= 2)
    && (payload[0] == CMD_COMMISSIONING_REPLY ==> |payload| >= 2 && |payload| >= ReplyReads(payload[1]))
  }

  lemma Within(b: Buffer, i: nat, b': Buffer, j: nat, n: nat, lo: nat, hi: nat)
    requires i + n <= 128 && j + n <= 128 && b[i..i + n] == b'[j..j + n] && lo <= hi <= n
    ensures b[i + lo..i + hi] == b'[j + lo..j + hi]
  {
    SubSlice(b, i, n, lo, hi);
    SubSlice(b', j, n, lo, hi);
  }

  lemma At(b: Buffer, i: nat, b': Buffer, j: nat, n: nat, k: nat)
    requires i + n <= 128 && j + n <= 128 && b[i..i + n] == b'[j..j + n] && k < n
    ensures b[i + k] == b'[j + k] == b[i..i + n][k]
  {
  }

  lemma ReplyLocal(c: Setup, s: Device, b: Buffer, i: nat, b': Buffer, j: nat, n: nat)
    requires i < 99 && j < 99 && 2 <= n && i + n <= 128 && j + n <= 128 && b[i..i + n] == b'[j..j + n]
    requires n >= ReplyReads(b[i + 1])
    ensures SameButRx(Reply(c, s.(rx := b), i + 1), Reply(c, s.(rx := b'), j + 1))
  {
    At(b, i, b', j, n, 1);
    var k := if Bit(b[i + 1], 0) then 4 else 2;
    if Bit(b[i + 1], 1) {
      Within(b, i, b', j, n, k, k + 16);
      if Bit(b[i + 1], 2) {
        Within(b, i, b', j, n, k + 16, k + 20);
        Within(b, i, b', j, n, k + 20, k + 24);
      }
    }
  }

  /** A covered command has the same effect wherever it stands and whatever stands around it. */
  lemma CommandLocal(c: Setup, s: Device, b: Buffer, i: nat, b': Buffer, j: nat, n: nat)
    requires i < 99 && j < 99 && 1 <= n && i + n <= 128 && j + n <= 128 && b[i..i + n] == b'[j..j + n]
    requires Covered(b[i..i + n])
    ensures SameButRx(Command(c, s.(rx := b), i), Command(c, s.(rx := b'), j))
  {
    hide Reply;
    At(b, i, b', j, n, 0);
    if b[i] == CMD_CHANNEL_CONFIG {
      At(b, i, b', j, n, 1);
    } else if b[i] == CMD_COMMISSIONING_REPLY {
      At(b, i, b', j, n, 1);
      ReplyLocal(c, s, b, i, b', j, n);
    }
  }

  /** The payload at i alone decides what happens. */
  ghost predicate PayloadDecides(c: Setup, s: Device, i: nat, payload: seq<byte>)
    requires 1 <= |payload| && i < 99 && i + |payload| <= 128
  {
    forall b: Buffer, b': Buffer :: b[i..i + |payload|] == payload && b'[i..i + |payload|] == payload ==>
      SameButRx(Command(c, s.(rx := b), i), Command(c, s.(rx := b'), i))
  }

  function Around(i: nat, payload: seq<byte>): (b: Buffer)
    requires i + |payload| <= 128
    ensures b[i..i + |payload|] == payload
    ensures forall k :: 0 <= k < 128 && !(i <= k < i + |payload|) ==> b[k] == 0
  {
    Zeros(i) + payload + Zeros(128 - i - |payload|)
  }

  /** Two buffers with the same payload whose commands come to different things. */
  ghost predicate Differ(c: Setup, s: Device, i: nat, b: Buffer, b': Buffer)
    requires i < 99
  {
    !SameButRx(Command(c, s.(rx := b), i), Command(c, s.(rx := b'), i))
  }

  lemma ShortConfigDiffers(c: Setup, s: Device, i: nat, b: Buffer)
    requires i < 99 && b[i] == CMD_CHANNEL_CONFIG && b[i + 1] == 0
    ensures Differ(c, s, i, b, b[i + 1 := 1])
  {
  }

  lemma KeylessReply(c: Setup, s: Device, i: nat)
    requires i < 100 && !Bit(s.rx[i], 1)
    ensures Reply(c, s, i).gpd.level == s.rx[i] / 8 % 4
  {
  }

  lemma ShortReplyDiffers(c: Setup, s: Device, i: nat, b: Buffer)
    requires i < 99 && b[i] == CMD_COMMISSIONING_REPLY && b[i + 1] == 0
    ensures Differ(c, s, i, b, b[i + 1 := 8])
  {
    hide Reply;
    KeylessReply(c, s.(rx := b), i + 1);
    KeylessReply(c, s.(rx := b[i + 1 := 8]), i + 1);
  }

  lemma KeyReply(c: Setup, s: Device, i: nat)
    requires i < 100 && Bit(s.rx[i], 1)
    ensures var k, r := KeyPosition(s, i), Reply(c, s, i);
      if Bit(s.rx[i], 2) then r.nonceRx == s.nonceRx[..8] + s.rx[k + 20..k + 24] + s.nonceRx[12..]
      else r.gpd.key == s.rx[k..k + 16]
  {
  }

  lemma ShortKeyDiffers(c: Setup, s: Device, i: nat, b: Buffer)
    requires i < 99 && b[i] == CMD_COMMISSIONING_REPLY && Bit(b[i + 1], 1)
    requires b[i + ReplyReads(b[i + 1]) - 1] == 0
    ensures Differ(c, s, i, b, b[i + ReplyReads(b[i + 1]) - 1 := 1])
  {
    hide Reply;
    var last := i + ReplyReads(b[i + 1]) - 1;
    var b' := b[last := 1];
    KeyReply(c, s.(rx := b), i + 1);
    KeyReply(c, s.(rx := b'), i + 1);
    var r, r', k := Reply(c, s.(rx := b), i + 1), Reply(c, s.(rx := b'), i + 1), KeyPosition(s.(rx := b), i + 1);
    if Bit(b[i + 1], 2) {
      assert last == k + 23 && r.nonceRx[11] == 0 && r'.nonceRx[11] == 1;
    } else {
      assert last == k + 15 && r.gpd.key[15] == 0 && r'.gpd.key[15] == 1;
    }
  }

  /** What happens is decided by the payload alone exactly if the payload covers what its command reads. */
  lemma PayloadDecidesIff(c: Setup, s: Device, i: nat, payload: seq<byte>)
    requires 1 <= |payload| && i < 99 && i + |payload| <= 128
    ensures PayloadDecides(c, s, i, payload) <==> Covered(payload)
  {
    hide Command;
    var n, b := |payload|, Around(i, payload);
    if Covered(payload) {
      forall b: Buffer, b': Buffer | b[i..i + n] == payload && b'[i..i + n] == payload
        ensures SameButRx(Command(c, s.(rx := b), i), Command(c, s.(rx := b'), i))
      {
        CommandLocal(c, s, b, i, b', i, n);
      }
    } else {
      assert b[i] == b[i..i + n][0] == payload[0];
      var k, v := Missing(c, s, i, payload);
      var b' := b[k := v];
      assert b'[i..i + n] == b[i..i + n];
      assert Differ(c, s, i, b, b');
    }
  }

  /** The byte behind an uncovered payload on which the outcome depends. */
  lemma Missing(c: Setup, s: Device, i: nat, payload: seq<byte>) returns (k: nat, v: byte)
    requires 1 <= |payload| && i < 99 && i + |payload| <= 128 && !Covered(payload)
    ensures i + |payload| <= k < 128 && Differ(c, s, i, Around(i, payload), Around(i, payload)[k := v])
  {
    hide Command;
    var n, b := |payload|, Around(i, payload);
    assert b[i] == b[i..i + n][0] == payload[0];
    if payload[0] == CMD_CHANNEL_CONFIG {
      ShortConfigDiffers(c, s, i, b);
      return i + 1, 1;
    }
    if n == 1 {
      ShortReplyDiffers(c, s, i, b);
      return i + 1, 8;
    }
    assert b[i + 1] == b[i..i + n][1] == payload[1];
    ShortKeyDiffers(c, s, i, b);
    return i + ReplyReads(payload[1]) - 1, 1;
  }

  // ---------------------------------------------------------------- frames

  /** A payload's command on its own, with nothing behind it. */
  function Obey(c: Setup, s: Device, payload: seq<byte>): Device
    requires |payload| <= 128
  {
    if payload == [] then s else Command(c, s.(rx := Around(0, payload)), 0)
  }

  /** Whatever the frame, and whatever was received before: if the payload it hands over is covered, that payload
      alone decides what the device becomes, but for the receive buffer. */
  lemma DeliveredByPayload(c: Setup, s: Device, p: Packet)
    requires var payload := DeliveredPayload(c, s, p); payload != [] ==> Covered(payload)
    ensures var payload := DeliveredPayload(c, s, p);
      |payload| <= 128 && SameButRx(Obey(c, s, payload), Deliver(c, s, p))
  {
    hide Command;
    StaleBytesIrrelevant(s.rx, p);
    var r := Received(s.rx, p);
    if Accepts(r, s.gpd.srcId) && AppPayloadSize(r) > 0 {
      var i, n, payload, b := HeaderEnd(r), AppPayloadSize(r), DeliveredPayload(c, s, p), Opened(c, s, p);
      assert Deliver(c, s, p) == Command(c, s.(rx := b), i);
      assert Around(0, payload)[0..n] == payload;
      CommandLocal(c, s, Around(0, payload), 0, b, i, n);
    }
  }

  // -------------------------------------------------------------- level two

  /** A network frame control pair for a level-2 data frame to a source-id device. */
  predicate LevelTwoControl(nwkFc: byte, ext: byte)
  {
    && nwkFc % 4 == DATA && nwkFc / 4 % 8 == 3 && Bit(nwkFc, 7)
    && ext % 8 == 0 && ext / 8 % 4 == 2 && Bit(ext, 7)
    && !(Bit(nwkFc, 6) && Bit(ext, 6))
  }

  /** What comes in front of the check sequence of such a frame: any controls, counter, payload and tag. */
  datatype LevelTwoFields = LevelTwoFields(nwkFc: byte, ext: byte, counter: uint32, payload: seq<byte>, tag: Tag)

  function LevelTwo(srcId: uint32, f: LevelTwoFields, fcs: seq<byte>): (p: seq<byte>)
    requires |fcs| == 2 && |f.payload| <= MAX_PAYLOAD
    ensures |p| == 24 + |f.payload|
  {
    [23 + |f.payload|] + MacHeader(f.counter) + [f.nwkFc, f.ext] + Le4(srcId) + Le4(f.counter) + f.payload + f.tag + fcs
  }

  lemma LevelTwoHeader(p: seq<byte>, n: nat, srcId: uint32, b: Buffer)
    requires 1 <= n <= MAX_PAYLOAD && |p| == 24 + n && p[0] == 23 + n && p[1] == 1 && p[2] == 8
    requires LevelTwoControl(p[8], p[9]) && p[10..14] == Le4(srcId)
    ensures WellFormed(p)
    ensures var r := Received(b, p); Accepts(r, srcId) && !Decrypts(r) && HeaderEnd(r) == 18 && AppPayloadSize(r) == n
  {
    var z := p + Zeros(128 - |p|);
    assert z[10..14] == p[10..14];
    WordOfLe4(srcId);
    StaleBytesIrrelevant(b, p);
  }

  lemma LevelTwoLayout(c: Setup, s: Device, f: LevelTwoFields, fcs: seq<byte>)
    requires |fcs| == 2 && 1 <= |f.payload| <= MAX_PAYLOAD && LevelTwoControl(f.nwkFc, f.ext)
    ensures var p, n := LevelTwo(s.gpd.srcId, f, fcs), |f.payload|;
      && WellFormed(p) && DeliveredPayload(c, s, p) == f.payload
      && p[18..18 + n] == f.payload && p[18 + n..22 + n] == f.tag
      && Deliver(c, s, p) == Command(c, s.(rx := Received(s.rx, p)), 18)
  {
    hide Command;
    var p, n := LevelTwo(s.gpd.srcId, f, fcs), |f.payload|;
    assert p[10..14] == Le4(s.gpd.srcId) && p[18..18 + n] == f.payload && p[18 + n..22 + n] == f.tag;
    LevelTwoHeader(p, n, s.gpd.srcId, s.rx);
    StaleBytesIrrelevant(s.rx, p);
    assert Received(s.rx, p)[18..18 + n] == p[18..18 + n];
  }

  /** At level 2 the tag is not checked: a covered payload is obeyed whatever the tag. */
  lemma LevelTwoTagIgnored(c: Setup, s: Device, f: LevelTwoFields, fcs: seq<byte>)
    requires |fcs| == 2 && 1 <= |f.payload| <= MAX_PAYLOAD && LevelTwoControl(f.nwkFc, f.ext) && Covered(f.payload)
    ensures var p := LevelTwo(s.gpd.srcId, f, fcs);
      WellFormed(p) && SameButRx(Obey(c, s, f.payload), Deliver(c, s, p))
  {
    hide Command;
    LevelTwoLayout(c, s, f, fcs);
    DeliveredByPayload(c, s, LevelTwo(s.gpd.srcId, f, fcs));
  }

  /** A Channel Configuration without its channel takes it from the tag. */
  lemma ShortConfigReadsTag(c: Setup, s: Device, f: LevelTwoFields, fcs: seq<byte>)
    requires |fcs| == 2 && f.payload == [CMD_CHANNEL_CONFIG] && LevelTwoControl(f.nwkFc, f.ext)
    ensures var p := LevelTwo(s.gpd.srcId, f, fcs);
      WellFormed(p) && Deliver(c, s, p) == Configure(s.(rx := Received(s.rx, p)), f.tag[0] % 16 + 11)
  {
    hide Reply;
    hide LevelTwo;
    var p := LevelTwo(s.gpd.srcId, f, fcs);
    LevelTwoLayout(c, s, f, fcs);
    assert p[18] == p[18..19][0] == CMD_CHANNEL_CONFIG;
    assert p[19] == p[19..23][0] == f.tag[0];
  }

  lemma StaleTail(m: seq<byte>, fcs: seq<byte>, b: Buffer)
    requires |m| == 11 && |fcs| == 2
    ensures (m + fcs + b[13..])[11..27] == fcs + b[13..27]
  {
  }

  /** A reply that announces a key and ends there takes the key from its own check sequence and from what earlier
      frames left in the receive buffer, loads it, and counts as received. */
  lemma ShortReplyReadsStaleBytes(c: Setup, s: Device, t: TxFields, fcs: seq<byte>)
    requires |fcs| == 2
    ensures var p := MaintMpdu(t, [CMD_COMMISSIONING_REPLY, 0x7A]) + fcs;
      WellFormed(p) &&
      var r := Deliver(c, s, p);
      r.gpd.key == r.ccmKey == fcs + s.rx[13..27] && r.gpd.state == REPLY_RECEIVED
  {
    var payload := [CMD_COMMISSIONING_REPLY, 0x7A];
    var p := MaintMpdu(t, payload) + fcs;
    OwnMaintenanceFrameAccepted(t, payload, fcs, s.rx, s.gpd.srcId);
    StaleBytesIrrelevant(s.rx, p);
    var r := Received(s.rx, p);
    assert r[9] == r[9..11][0] && r[10] == r[9..11][1] == 0x7A;
    assert Bit(0x7A, 1) && !Bit(0x7A, 0) && !Bit(0x7A, 2);
    assert Deliver(c, s, p) == Reply(c, s.(rx := r), 10);
    StaleTail(MaintMpdu(t, payload), fcs, s.rx);
  }
}
