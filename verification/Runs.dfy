/** Runs of the device: commands, passes of its task, sends, restarts, and power lost between any two effects. */
module Runs {
  import opened Bytes
  import opened Ccm
  import opened Gpd

  type Payload = s: seq<byte> | 1 <= |s| < 0x100 witness [0]

  datatype Op =
    | Restart
    | CommandCommission
    | CommandSend
    | Pass
    | AppSend(frameType: byte, payload: Payload, repeats: byte)
    | AppDecommission

  function Apply(c: Setup, s: Device, op: Op): Device
  {
    match op
    case Restart => Boot(c, s.flash, s.air, s.log)
    case CommandCommission => SetState(s, CHANNEL_REQUEST)
    case CommandSend => SetState(s, COMMAND_REQUEST)
    case Pass => Tick(c, s)
    case AppSend(frameType, payload, repeats) => Send(c, s, frameType, payload, repeats)
    case AppDecommission => Decommission(c, s)
  }

  /** What flash holds after a history: the last image saved. */
  function FlashOf(log: seq<Event>): Option<Image>
  {
    if log == [] then None
    else
      var e := log[|log| - 1];
      if e.Saved? then Some(e.image) else FlashOf(log[..|log| - 1])
  }

  /** The key an event leaves loaded in CCM: power-up or a reply loads one, a wrap and a failed unwrap leave the
      link key behind. */
  function LoadedBy(before: Block, e: Event): Block
  {
    match e
    case Booted(key) => key
    case Wrapped(_, _) => LINK_KEY
    case Replied(ok, _, key) => if ok then key else LINK_KEY
    case _ => before
  }

  function LoadedKey(log: seq<Event>): Block
  {
    if log == [] then Zeros(16) else LoadedBy(LoadedKey(log[..|log| - 1]), log[|log| - 1])
  }

  /** The key it leaves in the device record: a failed unwrap leaves zeros, a decommissioning the default. */
  function RecordedBy(before: Block, e: Event): Block
  {
    match e
    case Booted(key) => key
    case Replied(ok, _, key) => if ok then key else Zeros(16)
    case Defaulted(key) => key
    case _ => before
  }

  function RecordKey(log: seq<Event>): Block
  {
    if log == [] then Zeros(16) else RecordedBy(RecordKey(log[..|log| - 1]), log[|log| - 1])
  }

  /** The last reply since the history was n events long. */
  function LastReply(log: seq<Event>, n: nat): (r: Option<Event>)
    ensures r.Some? ==> r.value.Replied? && r.value in log
  {
    if |log| <= n then None
    else
      var e := log[|log| - 1];
      if e.Replied? then Some(e) else LastReply(log[..|log| - 1], n)
  }

  /** A completed operation, or one that the power fails in after `cut` of its effects; the air is then anyone's. */
  datatype Step = Do(op: Op) | PowerLoss(op: Op, cut: nat, air: seq<Window>)

  /** The part of a history that survives: all of the first n events, and up to cut more. */
  function Survives(log: seq<Event>, n: nat, cut: nat): (kept: seq<Event>)
  {
    if n + cut <= |log| then log[..n + cut] else log
  }

  /** Power-up on what flash held when the power went. */
  function Recover(c: Setup, kept: seq<Event>, air: seq<Window>): Device
  {
    Boot(c, FlashOf(kept), air, kept)
  }

  function Exec(c: Setup, s: Device, step: Step): Device
  {
    match step
    case Do(op) => Apply(c, s, op)
    case PowerLoss(op, cut, air) => Recover(c, Survives(Apply(c, s, op).log, |s.log|, cut), air)
  }

  function Run(c: Setup, s: Device, steps: seq<Step>): Device
    decreases |steps|
  {
    if steps == [] then s else Run(c, Exec(c, s, steps[0]), steps[1..])
  }

  /** The device as it first leaves power-up on an empty chip. */
  function Factory(c: Setup, air: seq<Window>): Device
  {
    Boot(c, None, air, [])
  }
}
