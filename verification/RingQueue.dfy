/** The ring is a first-in first-out queue, over every interleaving of the interrupt and the reader. */
module RingQueue {
  import opened Words
  import opened SingleBuffer
  import opened Capture
  import opened FlowControl

  /** Everything captured since the last reset, and how many samples of it have been read. */
  datatype Fifo = Fifo(stream: seq<u16>, read: nat)

  function FifoStep(q: Fifo, e: Event): Fifo
  {
    match e
    case Interrupt(block) => q.(stream := q.stream + block)
    case Consume(n) => q.(read := q.read + n)
    case Overtake(n) => q.(read := q.read + n)
    case Reset(_) => Fifo([], 0)
    case Drop => Fifo([], 0)
    case _ => q
  }

  function FifoAfter(q: Fifo, events: seq<Event>): Fifo
  {
    if events == [] then q else FifoStep(FifoAfter(q, events[..|events| - 1]), events[|events| - 1])
  }

  ghost predicate Refines(s: State, q: Fifo)
  {
    && Placed(s)
    && |q.stream| == 2 * (q.read + Available(s.ring))
    && Queue(s.ring) == q.stream[2 * q.read..]
    && s.ring.readPtr == q.read % RING_SAMPLES
    && s.ring.writePtr == |q.stream| / 2 % RING_SAMPLES
  }

  /** A block stored with room to spare is appended to the queue. */
  lemma StoredAppends(b: Ring, block: Block)
    requires Sound(b) && b.length == RING_SAMPLES && b.writePtr % BLOCK_SAMPLES == 0 && Space(b) > BLOCK_SAMPLES
    ensures Sound(Stored(b, block)) && Available(Stored(b, block)) == Available(b) + BLOCK_SAMPLES
    ensures Queue(Stored(b, block)) == Queue(b) + block
  {
    var b', at := Stored(b, block), 2 * b.writePtr;
    if b.writePtr < b.readPtr {
      assert b'.mem[..at + |block|] == b.mem[..at] + block;
      assert b'.mem[2 * b.readPtr..] == b.mem[2 * b.readPtr..];
    } else {
      assert b.writePtr + BLOCK_SAMPLES == RING_SAMPLES ==> b.readPtr > 0;
      assert b'.mem[2 * b.readPtr..at + |block|] == b.mem[2 * b.readPtr..at] + block;
    }
  }

  /** An interrupt that finds room for its block, a reader that does not overtake the writer. */
  predicate InBounds(s: State, e: Event)
  {
    (e.Interrupt? ==> Space(s.ring) > BLOCK_SAMPLES) && !e.Overtake?
  }

  lemma StepRefines(s: State, q: Fifo, e: Event)
    requires Refines(s, q) && Allowed(s, e) && InBounds(s, e)
    ensures Refines(Step(s, e), FifoStep(q, e))
  {
    match e
    case Interrupt(block) =>
      BlockRefines(s, q, block);
    case Consume(n) =>
      ReadRefines(s, q, n);
    case _ =>
  }

  lemma BlockRefines(s: State, q: Fifo, block: Block)
    requires Refines(s, q) && Space(s.ring) > BLOCK_SAMPLES
    ensures Refines(AfterInterrupt(s, block), FifoStep(q, Interrupt(block)))
  {
    hide Queue, Available, Space, Stored, Sound;
    StoredAppends(s.ring, block);
    StoredFields(s.ring, block);
    Laps(|q.stream| / 2, BLOCK_SAMPLES);
    assert (q.stream + block)[2 * q.read..] == q.stream[2 * q.read..] + block;
    assert |q.stream + block| / 2 == |q.stream| / 2 + BLOCK_SAMPLES;
  }

  lemma StoredFields(b: Ring, block: Block)
    requires Sound(b) && b.length == RING_SAMPLES && b.writePtr % BLOCK_SAMPLES == 0
    ensures Stored(b, block) == Stored(b, block).(readPtr := b.readPtr, length := RING_SAMPLES)
    ensures Stored(b, block).writePtr == (b.writePtr + BLOCK_SAMPLES) % RING_SAMPLES
    ensures Stored(b, block).writePtr % BLOCK_SAMPLES == 0
  {
  }

  lemma Laps(k: nat, n: nat)
    ensures (k % RING_SAMPLES + n) % RING_SAMPLES == (k + n) % RING_SAMPLES
  {
  }

  lemma ReadRefines(s: State, q: Fifo, n: nat)
    requires Refines(s, q) && n <= Available(s.ring)
    ensures Refines(s.(ring := AfterRead(s.ring, n)), FifoStep(q, Consume(n)))
  {
    ReadDropsFront(s.ring, n);
    ReadPointerIsModular(RING_SAMPLES, s.ring.readPtr, n);
    Laps(q.read, n);
    assert q.stream[2 * q.read..][2 * n..] == q.stream[2 * (q.read + n)..];
  }

  lemma EmptyQueue(s: State)
    requires Placed(s) && s.ring.readPtr == 0 == s.ring.writePtr && !s.enabled && s.phase == Streaming
    ensures Refines(s, Fifo([], 0)) && Calm(s)
  {
  }

  /** Over every interleaving in which interrupts find room for their block and the reader takes only what is there, the
      ring is the unbounded queue. */
  lemma {:induction false} RingIsFifo(states: seq<State>, events: seq<Event>, q: Fifo, i: nat)
    requires Steps(states, events) && Refines(states[0], q) && i < |states|
    requires forall j {:trigger events[j]} :: 0 <= j < |events| ==> InBounds(states[j], events[j])
    ensures Refines(states[i], FifoAfter(q, events[..i]))
  {
    hide Refines;
    if i > 0 {
      RingIsFifo(states, events, q, i - 1);
      StepAt(states, events, i - 1);
      assert events[..i][..i - 1] == events[..i - 1];
      var _ := events[i - 1];
      StepRefines(states[i - 1], FifoAfter(q, events[..i - 1]), events[i - 1]);
    }
  }

  /** In data mode with quiet seeks that is every run. */
  lemma DataCdRingIsFifo(states: seq<State>, events: seq<Event>, q: Fifo, i: nat)
    requires Steps(states, events) && QuietSeeks(states, events) && Calm(states[0]) && states[0].dataCd
    requires Refines(states[0], q) && i < |states|
    ensures Refines(states[i], FifoAfter(q, events[..i]))
  {
    hide Refines, FifoAfter, Calm;
    forall j | 0 <= j < |events|
      ensures InBounds(states[j], events[j])
    {
      QuietStepInBounds(states, events, j);
    }
    RingIsFifo(states, events, q, i);
  }

  lemma QuietStepInBounds(states: seq<State>, events: seq<Event>, j: nat)
    requires Steps(states, events) && QuietSeeks(states, events) && Calm(states[0]) && states[0].dataCd && j < |events|
    ensures InBounds(states[j], events[j]) && Placed(states[j])
  {
    QuietSeeksAreGuarded(states, events);
    SeeksStayEmpty(states, events, j);
    StepAt(states, events, j);
    assert states[j] in states;
  }

  /** So it is from the driver's initialisation and the mounting of a disc on. */
  lemma MountedRingIsFifo(states: seq<State>, events: seq<Event>, i: nat)
    requires Steps(states, events) && Initial(states[0]) && events != [] && events[0] == ForceStop(false)
    requires QuietSeeks(states[1..], events[1..]) && 1 <= i < |states|
    ensures Refines(states[i], FifoAfter(Fifo([], 0), events[..i]))
  {
    hide Refines, FifoAfter;
    var ss, es := states[1..], events[1..];
    StepAt(states, events, 0);
    StepsWithin(states, events, 1, |events|);
    assert states[1..|events| + 1] == ss && events[1..|events|] == es && events[0] !in es[..0];
    EmptyQueue(ss[0]);
    DataCdRingIsFifo(ss, es, Fifo([], 0), i - 1);
    assert events[..i] == [events[0]] + es[..i - 1];
    FifoAfterFirst(Fifo([], 0), events[0], es[..i - 1]);
  }

  lemma {:induction false} FifoAfterFirst(q: Fifo, e: Event, es: seq<Event>)
    ensures FifoAfter(q, [e] + es) == FifoAfter(FifoStep(q, e), es)
    decreases |es|
  {
    var n := |es|;
    if n == 0 {
      assert [e] + es == [e] && [e][..0] == [];
    } else {
      assert ([e] + es)[..n] == [e] + es[..n - 1];
      FifoAfterFirst(q, e, es[..n - 1]);
    }
  }

  // ----- copying while blocks come in

  /** The word of the memory that the copy loops of CD_CopyReadData store k-th. */
  function WordAt(b: Ring, k: nat): int
  {
    if 2 * b.readPtr + k < 2 * b.length then 2 * b.readPtr + k else 2 * b.readPtr + k - 2 * b.length
  }

  /** What can happen while the reader copies. */
  predicate Elsewhere(e: Event)
  {
    e.Interrupt? || e.Report?
  }

  /** Word by word, with interrupts between any two of them, a copy of no more than is buffered stores the front of the
      queue as it was when the copy began: word k may be fetched in any state from then on. */
  lemma CopyIsUndisturbed(states: seq<State>, events: seq<Event>, copySize: nat, when: seq<nat>)
    requires Steps(states, events) && Calm(states[0]) && states[0].dataCd && forall e | e in events :: Elsewhere(e)
    requires copySize == |when| <= 2 * Available(states[0].ring) && forall k | 0 <= k < copySize :: when[k] < |states|
    ensures forall k | 0 <= k < copySize ::
              && Placed(states[when[k]]) && 0 <= WordAt(states[0].ring, k) < |states[when[k]].ring.mem|
              && Peeked(states[0].ring, copySize).Copied? && |Peeked(states[0].ring, copySize).words| == copySize
              && states[when[k]].ring.mem[WordAt(states[0].ring, k)] == Peeked(states[0].ring, copySize).words[k]
  {
    hide Sound, Available, Peeked, Queue, Calm;
    PeekIsExact(states[0].ring, copySize);
    forall k | 0 <= k < copySize
      ensures Placed(states[when[k]]) && 0 <= WordAt(states[0].ring, k) < |states[when[k]].ring.mem|
      ensures states[when[k]].ring.mem[WordAt(states[0].ring, k)] == Queue(states[0].ring)[k]
    {
      QueueGrows(states, events, when[k]);
      WordOfQueue(states[when[k]].ring, k);
    }
  }

  lemma {:induction false} QueueGrows(states: seq<State>, events: seq<Event>, j: nat)
    requires Steps(states, events) && Calm(states[0]) && states[0].dataCd && forall e | e in events :: Elsewhere(e)
    requires j < |states|
    ensures Placed(states[0]) && Placed(states[j]) && states[j].ring.readPtr == states[0].ring.readPtr
    ensures Queue(states[0].ring) <= Queue(states[j].ring)
  {
    hide Calm, Queue, Stored, Sound, QuietSeeks;
    StaysPlaced(states, events, 0);
    if j > 0 {
      QueueGrows(states, events, j - 1);
      assert Elsewhere(events[j - 1]);
      ElsewhereIsQuiet(states, events);
      QuietStepInBounds(states, events, j - 1);
      StepAt(states, events, j - 1);
      if events[j - 1].Interrupt? { StoredAppends(states[j - 1].ring, events[j - 1].block); }
      StoredStays(states[j - 1], events[j - 1]);
    }
  }

  lemma ElsewhereIsQuiet(states: seq<State>, events: seq<Event>)
    requires |states| == |events| + 1 && forall e | e in events :: Elsewhere(e)
    ensures QuietSeeks(states, events)
  {
    forall i | 0 <= i < |events|
      ensures QuietStep(states[i], events[i])
    {
      assert Elsewhere(events[i]);
    }
  }

  lemma StoredStays(s: State, e: Event)
    requires Placed(s) && Allowed(s, e) && Elsewhere(e)
    ensures Placed(Step(s, e)) && Step(s, e).ring.readPtr == s.ring.readPtr
    ensures Step(s, e).ring == if e.Interrupt? then Stored(s.ring, e.block) else s.ring
  {
    StepKeepsPlaced(s, e);
  }

  lemma WordOfQueue(b: Ring, k: nat)
    requires Sound(b) && k < 2 * Available(b)
    ensures 0 <= WordAt(b, k) < |b.mem| && b.mem[WordAt(b, k)] == Queue(b)[k]
  {
  }

  /** The same, sample by sample: unread sample k of the stream lies at index k modulo the length. */
  lemma UnreadSampleInPlace(s: State, q: Fifo, k: nat)
    requires Refines(s, q) && q.read <= k && 2 * k < |q.stream|
    ensures s.ring.mem[2 * (k % RING_SAMPLES)] == q.stream[2 * k]
    ensures s.ring.mem[2 * (k % RING_SAMPLES) + 1] == q.stream[2 * k + 1]
  {
    hide Queue, Available;
    var b, d := s.ring, k - q.read;
    SampleAt(b, q.read, d);
    WordOfQueue(b, 2 * d);
    WordOfQueue(b, 2 * d + 1);
    var unread := q.stream[2 * q.read..];
    assert q.stream[2 * k] == unread[2 * d] && q.stream[2 * k + 1] == unread[2 * d + 1];
  }

  lemma SampleAt(b: Ring, read: nat, d: nat)
    requires Sound(b) && b.length == RING_SAMPLES && b.readPtr == read % RING_SAMPLES && d < Available(b)
    ensures 2 * ((read + d) % RING_SAMPLES) == WordAt(b, 2 * d) && WordAt(b, 2 * d + 1) == WordAt(b, 2 * d) + 1
  {
  }
}
