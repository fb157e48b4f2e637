/** The outside world: what it does by the time the driver next looks, how the driver's record of a run keeps to it, and
    when it sends enough for a wait to end. */
module Worlds {
  import opened Words
  import opened Layout
  import opened SingleBuffer
  import opened Capture
  import opened Trails
  import RingQueue

  const WAIT_COUNT := 500
  const DECK_ERROR := -1

  datatype Happening = Captured(block: Block) | ShockReported | Unmounted | Mounted

  /** The decoder's verdict on a sector and what it leaves of it. */
  datatype Verdict = Verdict(c3: int, sector: Sector)

  /** What happened since the driver last looked, in order; the deck's answer to a seek; whether memory can be had;
      how the decoder would judge any sector. */
  datatype Moment = Moment(happenings: seq<Happening>, seekResult: int, granted: bool, decoder: Sector -> Verdict)

  type World = nat -> Moment

  // ----- the record and the world

  /** What the driver does itself; everything else in a record is the world's doing. */
  predicate Own(e: Event)
  {
    !e.Interrupt? && !e.ForceStop? && e != Report(Shock)
  }

  /** The record after a happening: a block is lost while capture is off. */
  ghost function AfterHappening(t: Trail, h: Happening): Trail
  {
    if |t.states| != |t.events| + 1 || !Placed(t.states[|t.events|]) then t
    else
      var s := t.states[|t.events|];
      match h
      case Captured(block) => if s.enabled then Extended(t, s, Interrupt(block)) else t
      case ShockReported => Extended(t, s, Report(Shock))
      case Unmounted => Extended(t, s, ForceStop(true))
      case Mounted => Extended(t, s, ForceStop(false))
  }

  ghost function Witnessed(t: Trail, hs: seq<Happening>): Trail
  {
    if hs == [] then t else AfterHappening(Witnessed(t, hs[..|hs| - 1]), hs[|hs| - 1])
  }

  /** The driver as it is before anything has happened, the memory of its ring all zeros. */
  ghost predicate Blank(s: State)
  {
    Initial(s) && forall j :: 0 <= j < |s.ring.mem| ==> s.ring.mem[j] == 0
  }

  /** After so many looks the record is what the world has done in them, moment after moment, nothing left out and
      nothing made up, with the driver's own steps in between. */
  ghost predicate Faithful(world: World, clock: nat, t: Trail)
    decreases clock, |t.events|
  {
    || (clock == 0 && t.events == [] && |t.states| == 1 && Blank(t.states[0]))
    || (OwnLast(t) && Faithful(world, clock, Front(t)))
    || (clock > 0 && exists t': Trail :: LastMoment(world, clock, t', t) && Faithful(world, clock - 1, t'))
  }

  ghost predicate LastMoment(world: World, clock: nat, t: Trail, t': Trail)
  {
    clock > 0 && |t.events| <= |t'.events| && t' == Witnessed(t, world(clock - 1).happenings)
  }

  ghost predicate OwnLast(t: Trail)
  {
    t.events != [] && |t.states| == |t.events| + 1 && Own(t.events[|t.events| - 1])
  }

  function Front(t: Trail): Trail
    requires t.events != [] && |t.states| == |t.events| + 1
  {
    Trail(t.states[..|t.events|], t.events[..|t.events| - 1])
  }

  lemma OwnStepIsFaithful(world: World, clock: nat, t: Trail, s: State, e: Event)
    requires Faithful(world, clock, t) && EndsAt(t, s) && Allowed(s, e) && Own(e)
    ensures Faithful(world, clock, Extended(t, s, e))
  {
    hide Witnessed;
    var t' := Extended(t, s, e);
    assert t'.states[..|t'.events|] == t.states && t'.events[..|t'.events| - 1] == t.events;
    assert Front(t') == t;
  }

  lemma {:induction false} WitnessedGrows(t: Trail, hs: seq<Happening>)
    ensures t.events <= Witnessed(t, hs).events && t.states <= Witnessed(t, hs).states
    ensures forall i | |t.events| <= i < |Witnessed(t, hs).events| && Witnessed(t, hs).events[i].Interrupt? ::
              Captured(Witnessed(t, hs).events[i].block) in hs
    decreases |hs|
  {
    if hs != [] {
      WitnessedGrows(t, hs[..|hs| - 1]);
    }
  }

  lemma MomentIsFaithful(world: World, clock: nat, t: Trail)
    requires Faithful(world, clock, t)
    ensures Faithful(world, clock + 1, Witnessed(t, world(clock).happenings))
  {
    hide Witnessed;
    WitnessedGrows(t, world(clock).happenings);
    assert LastMoment(world, clock + 1, t, Witnessed(t, world(clock).happenings));
  }

  lemma FrontIs(t: Trail)
    requires OwnLast(t)
    ensures Front(t).events <= t.events && |Front(t).events| == |t.events| - 1 && !t.events[|t.events| - 1].Interrupt?
    ensures Front(t).states <= t.states && |Front(t).states| == |t.events|
  {
  }

  /** A faithful record begins with a blank driver. */
  lemma {:induction false} BeganBlank(world: World, clock: nat, t: Trail)
    requires Faithful(world, clock, t)
    ensures t.states != [] && Blank(t.states[0])
    decreases clock, |t.events|
  {
    hide Witnessed, Own, Front, Blank;
    if OwnLast(t) && Faithful(world, clock, Front(t)) {
      FrontIs(t);
      BeganBlank(world, clock, Front(t));
    } else if clock > 0 && exists t': Trail :: LastMoment(world, clock, t', t) && Faithful(world, clock - 1, t') {
      var t': Trail :| LastMoment(world, clock, t', t) && Faithful(world, clock - 1, t');
      WitnessedGrows(t', world(clock - 1).happenings);
      BeganBlank(world, clock - 1, t');
    }
  }

  /** Every block in a faithful record is one the world has captured. */
  lemma {:induction false} BlocksWereCaptured(world: World, clock: nat, t: Trail, i: nat) returns (time: nat)
    requires Faithful(world, clock, t) && i < |t.events| && t.events[i].Interrupt?
    ensures time < clock && Captured(t.events[i].block) in world(time).happenings
    decreases clock, |t.events|
  {
    hide Witnessed, Own, Front, Blank;
    if OwnLast(t) && Faithful(world, clock, Front(t)) {
      FrontIs(t);
      time := BlocksWereCaptured(world, clock, Front(t), i);
    } else {
      var t': Trail :| LastMoment(world, clock, t', t) && Faithful(world, clock - 1, t');
      WitnessedGrows(t', world(clock - 1).happenings);
      if i < |t'.events| {
        time := BlocksWereCaptured(world, clock - 1, t', i);
      } else {
        time := clock - 1;
      }
    }
  }

  /** A word of a block that the world had captured by then. */
  ghost predicate WasCaptured(world: World, clock: nat, w: u16)
  {
    exists time: nat, block :: time < clock && Captured(block) in world(time).happenings && w in block
  }

  /** So every word of the ring's memory is one of a captured block, or has been 0 all along. */
  lemma MemoryWasCaptured(world: World, clock: nat, t: Trail, s: State, j: nat)
    requires Faithful(world, clock, t) && EndsAt(t, s) && j < |s.ring.mem|
    ensures s.ring.mem[j] == 0 || WasCaptured(world, clock, s.ring.mem[j])
  {
    hide Faithful, Initial;
    BeganBlank(world, clock, t);
    var i := WordOnRecord(t, s, |t.events|, j);
    if i < |t.events| { var time := BlocksWereCaptured(world, clock, t, i); }
  }

  /** Where a word of the memory in some state comes from: an earlier block, or the very beginning. */
  lemma {:induction false} WordOnRecord(t: Trail, s: State, n: nat, j: nat) returns (i: nat)
    requires EndsAt(t, s) && n <= |t.events| && t.states != [] && Blank(t.states[0]) && n < |t.states|
    requires j < |t.states[n].ring.mem|
    ensures i <= |t.events|
    ensures if i < |t.events| then t.events[i].Interrupt? && t.states[n].ring.mem[j] in t.events[i].block
            else t.states[n].ring.mem[j] == 0
  {
    if n == 0 {
      i := |t.events|;
    } else {
      StepAt(t.states, t.events, n - 1);
      MemoryAfter(t.states[n - 1], t.events[n - 1], j);
      if t.events[n - 1].Interrupt? && t.states[n].ring.mem[j] in t.events[n - 1].block {
        i := n - 1;
      } else {
        i := WordOnRecord(t, s, n - 1, j);
      }
    }
  }

  lemma MemoryAfter(s: State, e: Event, j: nat)
    requires Placed(s) && Allowed(s, e) && j < |Step(s, e).ring.mem|
    ensures |Step(s, e).ring.mem| == |s.ring.mem|
    ensures Step(s, e).ring.mem[j] == s.ring.mem[j] || (e.Interrupt? && Step(s, e).ring.mem[j] in e.block)
  {
  }

  // ----- when a wait is answered

  predicate OnlyBlocks(hs: seq<Happening>)
  {
    forall h | h in hs :: h.Captured?
  }

  /** Blocks offered in so many looks. */
  function BlocksIn(world: World, from: nat, looks: nat): nat
  {
    if looks == 0 then 0 else BlocksIn(world, from, looks - 1) + |world(from + looks - 1).happenings|
  }

  /** From a time on, for as long as a wait lasts, nothing but blocks, and enough of them. */
  ghost predicate Supplied(world: World, from: nat, samples: nat)
  {
    && (forall time :: from <= time < from + 2 * WAIT_COUNT ==> OnlyBlocks(world(time).happenings))
    && BLOCK_SAMPLES * BlocksIn(world, from, 2 * WAIT_COUNT) >= samples
  }

  const NEARLY_FULL := RING_SAMPLES - 4 - BLOCK_SAMPLES

  /** The capture runs with room for another block, or the ring is as full as it gets. */
  predicate Flows(s: State)
  {
    && s.dataCd && !s.forced && s.error != Shock
    && if s.enabled then Space(s.ring) > BLOCK_SAMPLES else Available(s.ring) >= NEARLY_FULL
  }

  predicate Reached(s: State, samples: int)
  {
    s.enabled ==> Available(s.ring) >= samples
  }

  lemma BlockFlows(s: State, block: Block, samples: int)
    requires Placed(s) && Flows(s) && Reached(s, samples) && s.enabled
    ensures Flows(AfterInterrupt(s, block)) && Reached(AfterInterrupt(s, block), samples + BLOCK_SAMPLES)
  {
    RingQueue.StoredAppends(s.ring, block);
  }

  /** While nothing but blocks comes the capture flows on. */
  lemma {:induction false} FlowsOn(t: Trail, s: State, hs: seq<Happening>, samples: int) returns (s': State)
    requires EndsAt(t, s) && OnlyBlocks(hs) && Flows(s) && Reached(s, samples)
    ensures EndsAt(Witnessed(t, hs), s') && Flows(s') && Reached(s', samples + BLOCK_SAMPLES * |hs|)
    decreases |hs|
  {
    hide Flows, Reached, Steps, AfterInterrupt;
    if hs == [] {
      s' := s;
    } else {
      var n := |hs| - 1;
      var s1 := FlowsOn(t, s, hs[..n], samples);
      assert hs[n] in hs;
      s' := OneFlows(Witnessed(t, hs[..n]), s1, hs[n].block, samples + BLOCK_SAMPLES * n);
    }
  }

  lemma OneFlows(t: Trail, s: State, block: Block, samples: int) returns (s': State)
    requires EndsAt(t, s) && Flows(s) && Reached(s, samples)
    ensures EndsAt(AfterHappening(t, Captured(block)), s') && Flows(s') && Reached(s', samples + BLOCK_SAMPLES)
  {
    hide Flows, AfterInterrupt, Available;
    if s.enabled {
      ExtendedEnds(t, s, Interrupt(block));
      BlockFlows(s, block, samples);
      s' := AfterInterrupt(s, block);
    } else {
      s' := s;
    }
  }

  /** So many looks into a wait: the capture flows on, and has brought all that was offered. */
  ghost predicate Flowing(world: World, from: nat, looks: nat, s: State)
  {
    Flows(s) && Reached(s, BLOCK_SAMPLES * BlocksIn(world, from, looks))
  }

  /** A wait that began at a time, so many looks into it, and will end with what it waits for. */
  ghost predicate Fed(world: World, from: nat, samples: nat, looks: nat, s: State)
  {
    Supplied(world, from, samples) && samples <= NEARLY_FULL && Flowing(world, from, looks, s)
  }

  lemma LookFeeds(world: World, from: nat, samples: nat, looks: nat, t: Trail, s: State) returns (s': State)
    requires Fed(world, from, samples, looks, s) && looks < 2 * WAIT_COUNT && EndsAt(t, s)
    ensures EndsAt(Witnessed(t, world(from + looks).happenings), s') && Fed(world, from, samples, looks + 1, s')
  {
    hide Flows, Reached, Steps, Witnessed;
    s' := FlowsOn(t, s, world(from + looks).happenings, BLOCK_SAMPLES * BlocksIn(world, from, looks));
  }

  /** No shock, no force stop; and at the end of it enough is there. */
  lemma FedIsClear(world: World, from: nat, samples: nat, looks: nat, s: State)
    requires Fed(world, from, samples, looks, s)
    ensures !s.forced && s.error != Shock
    ensures looks == 2 * WAIT_COUNT ==> Available(s.ring) >= samples
  {
  }

  /** With capture off blocks are lost without a trace. */
  lemma {:induction false} LostWhileOff(t: Trail, s: State, hs: seq<Happening>)
    requires EndsAt(t, s) && OnlyBlocks(hs) && !s.enabled
    ensures Witnessed(t, hs) == t
    decreases |hs|
  {
    hide Steps;
    if hs != [] {
      LostWhileOff(t, s, hs[..|hs| - 1]);
      assert hs[|hs| - 1] in hs;
    }
  }

  /** The deck will answer a seek begun at a time, and nothing but lost blocks comes before it does. */
  ghost predicate SeekTaken(world: World, s: State, time: nat)
  {
    && s.dataCd && !s.forced && s.error != Shock
    && world(time).seekResult != DECK_ERROR && OnlyBlocks(world(time).happenings)
  }

  /** And it will send so much within the wait that follows. */
  ghost predicate SeekAnswered(world: World, s: State, time: nat, samples: nat)
  {
    SeekTaken(world, s, time) && samples <= NEARLY_FULL && Supplied(world, time + 1, samples)
  }

  lemma EmptyFlows(world: World, from: nat, samples: nat, s: State)
    requires Placed(s) && s.enabled && s.dataCd && !s.forced && s.error != Shock
    requires s.ring.readPtr == 0 == s.ring.writePtr
    ensures Supplied(world, from, samples) && samples <= NEARLY_FULL ==> Fed(world, from, samples, 0, s)
  {
    hide Supplied;
  }
}
