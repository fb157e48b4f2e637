/** Runs in which flow control fails. */
module Overruns {
  import opened Words
  import opened SingleBuffer
  import opened Capture
  import opened FlowControl
  import opened RingQueue

  /** Block after block into an emptied ring: after n of them the write pointer stands at n blocks, and in data mode the
      last one that fits switches the capture off. */
  lemma {:induction false} Filling(states: seq<State>, events: seq<Event>, block: Block, n: nat)
    returns (states': seq<State>, events': seq<Event>)
    requires Steps(states, events) && n <= 1023
    requires var s := states[|events|];
             Placed(s) && s.enabled && s.ring.readPtr == 0 == s.ring.writePtr
    ensures Steps(states', events') && states'[0] == states[0] && states <= states'
    ensures events' == events + seq(n, _ => Interrupt(block))
    ensures var t := states'[|events'|];
            && Placed(t) && t.dataCd == states[|events|].dataCd && t.phase == states[|events|].phase
            && t.ring.readPtr == 0 && t.ring.writePtr == n * BLOCK_SAMPLES
            && t.enabled == (n < 1023 || !t.dataCd) && (n == 1023 && t.dataCd ==> t.error == BufFull)
  {
    if n == 0 {
      states', events' := states, events;
    } else {
      states', events' := Filling(states, events, block, n - 1);
      var t := states'[|events'|];
      StepKeepsPlaced(t, Interrupt(block));
      StepsAppend(states', events', Interrupt(block));
      assert events + seq(n - 1, _ => Interrupt(block)) + [Interrupt(block)] == events + seq(n, _ => Interrupt(block));
      states', events' := states' + [Step(t, Interrupt(block))], events' + [Interrupt(block)];
    }
  }

  /** It can fail with the disc in all along. The ring fills once (CD_BUF_FULL); a seek empties it and leaves the
      stale status behind; the reader takes it for a full ring and leaves, so that the next seek empties the ring with
      capture still on; the deck fills it again before the seek is answered; switching capture on then lets one block
      run over: a ring of 2097152 unread samples looks empty. */
  lemma StaleFullLosesTheRing(s: State, block: Block, address: u32) returns (states: seq<State>, events: seq<Event>)
    requires Initial(s)
    ensures Steps(states, events) && states[0] == s
    ensures exists t :: t in states && !Guarded(t)
    ensures var q := FifoAfter(Fifo([], 0), events); |q.stream| == 2 * RING_SAMPLES && q.read == 0
    ensures Available(states[|events|].ring) == 0
  {
    hide FifoAfter;
    states, events := FillAndGiveUp(s, block, address);
    ghost var emptied := events;
    states, events := Filling(states, events, block, 1023);
    FifoOfBlocks(emptied, 1023, block);
    states, events := Extend(states, events, Enable);
    FifoAfterLast(events);
    assert !Guarded(states[|events|]) && states[|events|] in states;
    states, events := Extend(states, events, Interrupt(block));
    FifoAfterLast(events);
  }

  /** And it fails when a disc is unmounted and mounted again while it plays: the unmounting (CD_SetDevForceStop, line
      786) ends data mode but not the capture, so the ring fills unchecked; the mounting puts data mode back over a
      full ring, and one block later 2097152 unread samples look like none. */
  lemma EjectLosesTheRing(s: State, block: Block, address: u32) returns (states: seq<State>, events: seq<Event>)
    requires Initial(s)
    ensures Steps(states, events) && states[0] == s
    ensures forall i | 0 <= i < |events| && events[i].Reset? :: !states[i].enabled
    ensures exists t :: t in states && !Guarded(t)
    ensures var q := FifoAfter(Fifo([], 0), events); |q.stream| == 2 * RING_SAMPLES && q.read == 0
    ensures Available(states[|events|].ring) == 0
  {
    hide FifoAfter;
    states, events := PlayAndUnmount(s, address);
    ghost var unmounted := events;
    states, events := Filling(states, events, block, 1023);
    FifoOfBlocks(unmounted, 1023, block);
    states, events := Extend(states, events, ForceStop(false));
    FifoAfterLast(events);
    assert !Guarded(states[|events|]) && states[|events|] in states;
    states, events := Extend(states, events, Interrupt(block));
    FifoAfterLast(events);
  }

  lemma FillAndGiveUp(s: State, block: Block, address: u32) returns (states: seq<State>, events: seq<Event>)
    requires Initial(s)
    ensures Steps(states, events) && states[0] == s && FifoAfter(Fifo([], 0), events) == Fifo([], 0)
    ensures var t := states[|events|];
            Placed(t) && t.enabled && t.dataCd && t.phase == Seeking && t.ring.readPtr == 0 == t.ring.writePtr
  {
    hide FifoAfter;
    states, events := [s], [];
    states, events := Extend(states, events, ForceStop(false));
    states, events := Extend(states, events, Reset(address));
    states, events := Extend(states, events, Enable);
    states, events := Filling(states, events, block, 1023);
    states, events := Extend(states, events, Reset(address));
    states, events := Extend(states, events, Enable);
    states, events := Extend(states, events, Leave);
    states, events := Extend(states, events, Reset(address));
    FifoAfterLast(events);
  }

  lemma PlayAndUnmount(s: State, address: u32) returns (states: seq<State>, events: seq<Event>)
    requires Initial(s)
    ensures Steps(states, events) && states[0] == s && FifoAfter(Fifo([], 0), events) == Fifo([], 0)
    ensures forall i | 0 <= i < |events| && events[i].Reset? :: !states[i].enabled
    ensures var t := states[|events|];
            Placed(t) && t.enabled && !t.dataCd && t.phase == Streaming && t.ring.readPtr == 0 == t.ring.writePtr
  {
    hide FifoAfter;
    states, events := [s], [];
    states, events := Extend(states, events, ForceStop(false));
    states, events := Extend(states, events, Reset(address));
    FifoAfterLast(events);
    states, events := Extend(states, events, Enable);
    FifoAfterLast(events);
    states, events := Extend(states, events, ForceStop(true));
    FifoAfterLast(events);
  }

  lemma FifoAfterLast(events: seq<Event>)
    requires |events| > 0
    ensures var q, n := Fifo([], 0), |events| - 1;
            FifoAfter(q, events) == FifoStep(FifoAfter(q, events[..n]), events[n])
  {
  }

  lemma {:induction false} FifoOfBlocks(before: seq<Event>, n: nat, block: Block)
    requires FifoAfter(Fifo([], 0), before) == Fifo([], 0)
    ensures var q := FifoAfter(Fifo([], 0), before + seq(n, _ => Interrupt(block)));
            q.read == 0 && |q.stream| == 2 * BLOCK_SAMPLES * n
  {
    var events := before + seq(n, _ => Interrupt(block));
    if n == 0 {
      assert events == before;
    } else {
      FifoOfBlocks(before, n - 1, block);
      assert events[..|events| - 1] == before + seq(n - 1, _ => Interrupt(block));
      FifoAfterLast(events);
    }
  }
}
