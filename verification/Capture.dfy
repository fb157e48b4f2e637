/** The capture side of the driver: the ring with its status words, what the DMA interrupt and the reader do to them,
    and the runs in which they interleave. */
module Capture {
  import opened Words
  import opened SingleBuffer

  const RING_SAMPLES := 0x20_0000   // CDDI_BUFFER_SIZE
  const BLOCK_SAMPLES := 2048       // half of the DMA buffer, 8192 bytes, in samples

  type Block = s: seq<u16> | |s| == 2 * BLOCK_SAMPLES witness seq(2 * BLOCK_SAMPLES, _ => 0)

  datatype ErrorStatus = NoProblem | BufFull | MissSubq | Shock

  /** Where the reader is between two streams: giving up a full ring it cannot use, or waiting for the deck's answer
      with the ring emptied and capture not yet switched on for the new stream. */
  datatype Phase = Streaming | Leaving | Seeking

  /** forced is the force-stop flag, dataCd the mode in which a full ring stops the capture. */
  datatype State = State(ring: Ring, enabled: bool, dataCd: bool, forced: bool, error: ErrorStatus, phase: Phase)

  /** On the grid: every block has its own slot, so a block copy never crosses the end of the memory. */
  ghost predicate Placed(s: State)
  {
    Sound(s.ring) && s.ring.length == RING_SAMPLES && s.ring.writePtr % BLOCK_SAMPLES == 0
  }

  // ----- steps

  datatype Event =
    | Interrupt(block: Block)
    | Consume(samples: nat)
    | Overtake(samples: nat)
    | Leave
    | Reset(address: u32)
    | Drop
    | Enable
    | Disable
    | ForceStop(on: bool)
    | Report(error: ErrorStatus)

  /** The memory with one block copied to the write pointer, and the pointer moved on, back to 0 at the very end. */
  function Stored(b: Ring, block: Block): (b': Ring)
    requires 0 <= b.writePtr && 2 * b.writePtr + |block| <= |b.mem|
  {
    var at := 2 * b.writePtr;
    var mem := b.mem[..at] + block + b.mem[at + |block|..];
    var next := b.writePtr + BLOCK_SAMPLES;
    b.(mem := mem, writePtr := if next == b.length then 0 else next)
  }

  function AfterInterrupt(s: State, block: Block): State
    requires 0 <= s.ring.writePtr && 2 * s.ring.writePtr + |block| <= |s.ring.mem|
  {
    var s' := s.(ring := Stored(s.ring, block));
    if Space(s'.ring) <= BLOCK_SAMPLES && s.dataCd then s'.(enabled := false, error := BufFull) else s'
  }

  /** What can happen in a state. Interrupts come only while capture is on; the reader consumes what is there, or its
      pointer overtakes the writer's; it empties the ring for a seek with capture off, unless it has just left a ring
      reported full, and switches capture on only at the end of a seek; when a wait times out it drops what is
      buffered; only the interrupt reports a full ring. A disc is unmounted and mounted (CD_SetDevForceStop) at any
      time. */
  predicate Allowed(s: State, e: Event)
  {
    match e
    case Interrupt(_) => s.enabled
    case Consume(n) => n <= Available(s.ring)
    case Overtake(n) => Available(s.ring) < n <= RING_SAMPLES
    case Leave => s.error == BufFull
    case Reset(_) => s.enabled ==> s.phase == Leaving
    case Enable => s.phase == Seeking
    case Report(error) => error != BufFull
    case _ => true
  }

  function Emptied(s: State): State { s.(ring := s.ring.(readPtr := 0, writePtr := 0)) }

  function Step(s: State, e: Event): State
    requires Placed(s) && Allowed(s, e)
  {
    match e
    case Interrupt(block) => AfterInterrupt(s, block)
    case Consume(n) => s.(ring := AfterRead(s.ring, n))
    case Overtake(n) => s.(ring := AfterRead(s.ring, n))
    case Leave => s.(error := NoProblem, phase := Leaving)
    case Reset(_) => Emptied(s).(phase := Seeking)
    case Drop => Emptied(s)
    case Enable => s.(enabled := true, phase := Streaming)
    case Disable => s.(enabled := false)
    case ForceStop(on) => s.(forced := on, dataCd := !on)
    case Report(error) => s.(error := error)
  }

  lemma StepKeepsPlaced(s: State, e: Event)
    requires Placed(s) && Allowed(s, e)
    ensures Placed(Step(s, e))
  {
  }

  /** The driver as cd_drv_initialize leaves it: an empty ring, capture off. */
  ghost predicate Initial(s: State)
  {
    && Placed(s) && s.ring.readPtr == 0 && s.ring.writePtr == 0
    && !s.enabled && !s.dataCd && !s.forced && s.error == NoProblem && s.phase == Streaming
  }

  /** states[0], events[0], states[1], ... is a stretch of a run. */
  ghost predicate Steps(states: seq<State>, events: seq<Event>)
  {
    && |states| == |events| + 1
    && Placed(states[0])
    && forall i {:trigger events[i]} :: 0 <= i < |events| ==>
         Placed(states[i]) && Allowed(states[i], events[i]) && states[i + 1] == Step(states[i], events[i])
  }

  lemma StepAt(states: seq<State>, events: seq<Event>, i: nat)
    requires Steps(states, events) && i < |events|
    ensures Placed(states[i]) && Allowed(states[i], events[i]) && states[i + 1] == Step(states[i], events[i])
  {
    var _ := events[i];
  }

  lemma StaysPlaced(states: seq<State>, events: seq<Event>, i: nat)
    requires Steps(states, events) && i < |states|
    ensures Placed(states[i])
  {
    if i > 0 {
      StepAt(states, events, i - 1);
      StepKeepsPlaced(states[i - 1], events[i - 1]);
    }
  }

  lemma StepsAppend(states: seq<State>, events: seq<Event>, e: Event)
    requires Steps(states, events) && Allowed(states[|events|], e) && Placed(states[|events|])
    ensures Steps(states + [Step(states[|events|], e)], events + [e])
  {
    var n := |events|;
    var states', events' := states + [Step(states[n], e)], events + [e];
    forall i | 0 <= i < n + 1
      ensures Placed(states'[i]) && Allowed(states'[i], events'[i]) && states'[i + 1] == Step(states'[i], events'[i])
    {
      if i < n {
        StepAt(states, events, i);
      }
    }
  }

  /** A stretch of a stretch of a run. */
  lemma StepsWithin(states: seq<State>, events: seq<Event>, lo: nat, hi: nat)
    requires Steps(states, events) && lo <= hi <= |events|
    ensures Steps(states[lo..hi + 1], events[lo..hi])
  {
    hide Step, Allowed, Placed;
    StaysPlaced(states, events, lo);
    var ss, es := states[lo..hi + 1], events[lo..hi];
    assert ss[0] == states[lo];
    forall i | 0 <= i < |es|
      ensures Placed(ss[i]) && Allowed(ss[i], es[i]) && ss[i + 1] == Step(ss[i], es[i])
    {
      StepAt(states, events, lo + i);
      assert es[i] == events[lo + i];
    }
  }

  lemma Extend(states: seq<State>, events: seq<Event>, e: Event) returns (states': seq<State>, events': seq<Event>)
    requires Steps(states, events) && Allowed(states[|events|], e) && Placed(states[|events|])
    ensures Steps(states', events') && states'[0] == states[0] && events' == events + [e]
    ensures states <= states'
    ensures states'[|events'|] == Step(states[|events|], e) && Placed(states'[|events'|])
  {
    StepsAppend(states, events, e);
    StepKeepsPlaced(states[|events|], e);
    states', events' := states + [Step(states[|events|], e)], events + [e];
  }

  // ----- peeking

  datatype Peek = Copied(words: seq<u16>) | BeyondMemory

  /** The words CD_CopyReadData stores, layout by layout; it may be asked for more than is buffered. */
  function Peeked(b: Ring, copySize: nat): Peek
    requires Sound(b)
  {
    var from := 2 * b.readPtr;
    var remain := 2 * (b.length - b.readPtr);
    if b.writePtr > b.readPtr then
      if copySize <= remain then Copied(b.mem[from..from + copySize]) else BeyondMemory
    else if b.writePtr < b.readPtr then
      if copySize <= remain then Copied(b.mem[from..from + copySize])
      else if copySize - remain <= |b.mem| then Copied(b.mem[from..] + b.mem[..copySize - remain])
      else BeyondMemory
    else Copied([])
  }

  /** Asked for no more than is buffered, it delivers the front of the queue, wrapped or not. */
  lemma PeekIsExact(b: Ring, copySize: nat)
    requires Sound(b) && copySize <= 2 * Available(b)
    ensures Peeked(b, copySize) == Copied(Queue(b)[..copySize])
  {
    var from := 2 * b.readPtr;
    if b.writePtr >= b.readPtr {
      assert Queue(b)[..copySize] == b.mem[from..from + copySize];
    } else if from + copySize <= |b.mem| {
      assert Queue(b)[..copySize] == b.mem[from..from + copySize];
    } else {
      assert Queue(b)[..copySize] == b.mem[from..] + b.mem[..copySize - (|b.mem| - from)];
    }
  }
}
