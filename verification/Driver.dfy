/** The driver as it runs: one object that owns the chunk buffer, the ring and the status words, with methods that
    change them in place, step by step, against the functions of SectorMachine and Capture. */
module Driver {
  import opened Words
  import opened Layout
  import opened SingleBuffer
  import opened Capture
  import opened FlowControl
  import opened RingQueue
  import opened Trails
  import opened Worlds
  import opened Waits
  import SM = SectorMachine
  import opened KmpSearch
  import MsfTime
  import InOrder
  import Provenance
  import Lockstep
  import RetryBound
  import Completeness
  import opened Evidence
  import DiscCalls
  import SentBytes
  import ManyCalls
  import Outcomes

  datatype BufferStatus = BufStart | BufStop

  /** How CD_ReadData ends: with a result, still waiting for the deck, or off the end of a buffer. */
  datatype ReadEnd = Size(size: int) | Unanswered | OutOfBounds

  class CdDriver {
    const chunk: array<byte>    // CD_ChunkBuf, as bytes
    const memory: array<u16>    // the memory of the ring
    const ring: SingleBufferState
    const descramble: Sector -> Sector
    const world: World
    const patience: nat         // re-seeks on a silent deck before a call is given up as unanswered

    var clock: nat
    var enabled: bool
    var dataCd: bool
    var forced: bool            // CD_DevForceStop
    var error: ErrorStatus
    var bufStatus: BufferStatus
    var lastSector: u32
    var requestSector: u32
    var chOffset: u32
    var pickupSeek: bool
    var researchCnt: nat
    ghost var phase: Phase
    ghost var trail: Trail      // the run so far

    ghost predicate Wired()
      reads ring`pSingleBuf
    {
      ring.pSingleBuf == memory && chunk as object != memory as object && chunk.Length == CHUNK_BYTES
    }

    ghost function View(): State
      reads this`enabled, this`dataCd, this`forced, this`error, this`phase, ring, ring.pSingleBuf
    {
      State(ring.View(), enabled, dataCd, forced, error, phase)
    }

    /** The ring and the status words are where the recorded run has led. */
    ghost predicate OnTrail()
      reads this`enabled, this`dataCd, this`forced, this`error, this`phase, this`trail, ring, ring.pSingleBuf
    {
      Wired() && EndsAt(trail, View())
    }

    /** And the record is the world's doing up to now, and the driver's. */
    ghost predicate Valid()
      reads this`enabled, this`dataCd, this`forced, this`error, this`phase, this`trail, this`clock
      reads ring, ring.pSingleBuf
    {
      OnTrail() && Faithful(world, clock, trail)
    }

    /** cd_drv_initialize. */
    constructor (descramble: Sector -> Sector, world: World, patience: nat)
      ensures Valid() && Blank(View()) && bufStatus == BufStop && trail == Trail([View()], [])
      ensures fresh(chunk) && fresh(memory) && fresh(ring)
    {
      chunk := new byte[CHUNK_BYTES](_ => 0);
      memory := new u16[2 * RING_SAMPLES](_ => 0);
      ring := new SingleBufferState();
      this.descramble, this.world, this.patience := descramble, world, patience;
      clock, lastSector, requestSector, chOffset, researchCnt, pickupSeek := 0, 0, 0, 0, 0, false;
      enabled, dataCd, forced, error, bufStatus, phase := false, false, false, NoProblem, BufStop, Streaming;
      trail := Trail([], []);
      new;
      var _ := ring.Set(memory, RING_SAMPLES);
      trail := Trail([View()], []);
    }

    /** The record of a step. */
    ghost method Note(e: Event)
      requires EndsAt(trail, View()) && Allowed(View(), e)
      modifies this`trail
      ensures trail == Extended(old(trail), View(), e) == With(old(trail), e) && EndsAt(trail, Step(View(), e))
      ensures Grown(old(trail), trail) && |trail.events| == |old(trail.events)| + 1
      ensures forall kind :: IsOf(kind, e) ==> Brings(kind, old(trail), trail)
      ensures (e.Reset? && enabled) || ColdSeeks(trail, |old(trail.events)|, |trail.events|)
      ensures !e.Consume? && !e.Overtake? ==> Taken(trail.events) == Taken(old(trail.events))
      ensures e.Consume? || e.Overtake? ==> Taken(trail.events) == Taken(old(trail.events)) + e.samples
      ensures Own(e) && Faithful(world, clock, old(trail)) ==> Faithful(world, clock, trail)
    {
      hide IsOf, Brings, Taken, Steps, ColdSeeks, Faithful, With, Allowed, Step;
      WithIs(trail, View(), e);
      if Own(e) && Faithful(world, clock, trail) { OwnStepIsFaithful(world, clock, trail, View(), e); }
      ExtendedEnds(trail, View(), e);
      forall kind | IsOf(kind, e)
        ensures Brings(kind, trail, Extended(trail, View(), e))
      {
        BringsOne(kind, trail, View(), e);
      }
      if e.Reset? ==> !enabled { ColdOne(trail, View(), e); }
      trail := Extended(trail, View(), e);
    }

    // ----- the producer

    /** cdif_adma_handler: one block into the ring, and the capture off when another would not fit. Whether the block
        ends inside the memory is handed out; where it would not, as a write pointer drawn back by a shock may have
        it, nothing is copied. */
    method AdmaHandler(block: Block) returns (fits: bool)
      requires Wired() && (ring.lLength != 0 ==> Sound(ring.View()))
      modifies this`enabled, this`error, ring`lWritePtr, memory
      ensures fits <==> ring.lLength == 0 || old(ring.lWritePtr) + BLOCK_SAMPLES <= ring.lLength
      ensures old(ring.lLength) == 0 ==> ring.lWritePtr == 0 && memory[..] == old(memory[..]) && enabled == old(enabled)
      ensures old(ring.lLength) != 0 && fits ==> View() == AfterInterrupt(old(View()), block)
      ensures old(ring.lLength) != 0 && fits ==>
                var full := dataCd && Space(ring.View()) <= 2048;
                enabled == (old(enabled) && !full) && error == if full then BufFull else old(error)
      ensures !fits ==> View() == old(View())
    {
      if ring.lLength == 0 {
        ring.lWritePtr := 0;
        return true;
      }
      var dataSize := ring.lLength - ring.lWritePtr;
      if dataSize < BLOCK_SAMPLES {
        return false;
      }
      StoreBlock(2 * ring.lWritePtr, block);
      dataSize := dataSize - BLOCK_SAMPLES;
      ring.lWritePtr := ring.lWritePtr + BLOCK_SAMPLES;
      if dataSize == 0 {
        ring.lWritePtr := 0;
      }
      assert ring.View() == Stored(old(ring.View()), block);
      AvailableAndSpace(ring.View());
      var space := ring.SpaceAvailable();
      if space <= BLOCK_SAMPLES && dataCd {
        enabled := false;
        error := BufFull;
      }
      fits := true;
    }

    method StoreBlock(at: nat, block: Block)
      requires at + |block| <= memory.Length
      modifies memory
      ensures memory[..] == old(memory[..at]) + block + old(memory[at + |block|..])
    {
      for i := 0 to |block|
        invariant forall k :: 0 <= k < i ==> memory[at + k] == block[k]
        invariant forall k :: 0 <= k < memory.Length && !(at <= k < at + i) ==> memory[k] == old(memory[k])
      {
        memory[at + i] := block[i];
      }
    }

    /** CD_SetDevForceStop: set when the disc is unmounted, cleared when it is mounted, and the mode with it. */
    method SetDevForceStop(setBit: bool)
      requires OnTrail()
      modifies this`forced, this`dataCd, this`trail
      ensures OnTrail() && Passes(old(trail), trail) && trail == Extended(old(trail), old(View()), ForceStop(setBit))
      ensures forced == setBit && dataCd == !setBit
    {
      hide EndsAt, Taken, Faithful;
      Note(ForceStop(setBit));
      forced := setBit;
      if setBit {
        dataCd := false;
      } else {
        dataCd := true;
      }
    }

    /** Time passes until the driver next looks: blocks come in while capture is on, a shock may be reported, the disc
        may be unmounted or mounted; all that, in order, goes on record. */
    method Observe() returns (w: Moment)
      requires Valid()
      modifies this`clock, this`enabled, this`dataCd, this`forced, this`error, this`trail, ring`lWritePtr, memory
      ensures Valid() && Passes(old(trail), trail) && trail == Witnessed(old(trail), w.happenings)
      ensures w == world(old(clock)) && clock == old(clock) + 1
      ensures !old(enabled) ==> !enabled && ring.View() == old(ring.View())
    {
      hide EndsAt, Passes, Faithful, Extended;
      w := world(clock);
      Unmoved(trail, View(), true);
      for i := 0 to |w.happenings|
        invariant OnTrail() && Passes(old(trail), trail) && clock == old(clock)
        invariant trail == Witnessed(old(trail), w.happenings[..i])
        invariant !old(enabled) ==> !enabled && ring.View() == old(ring.View())
      {
        ghost var before, s := trail, View();
        Happens(w.happenings[i]);
        PassesTwice(old(trail), before, trail);
        assert w.happenings[..i + 1][..i] == w.happenings[..i];
      }
      assert w.happenings[..|w.happenings|] == w.happenings;
      MomentIsFaithful(world, clock, old(trail));
      clock := clock + 1;
    }

    /** One thing after another. */
    method Happens(h: Happening)
      requires OnTrail()
      modifies this`enabled, this`dataCd, this`forced, this`error, this`trail, ring`lWritePtr, memory
      ensures OnTrail() && Passes(old(trail), trail) && trail == AfterHappening(old(trail), h)
      ensures !old(enabled) ==> !enabled && ring.View() == old(ring.View())
    {
      hide Passes, Taken, Faithful;
      Unmoved(trail, View(), true);
      match h
      case Captured(block) =>
        if enabled {
          TakeIn(block);
        }
      case ShockReported =>
        SetErrorStatus(Shock);
      case Unmounted =>
        SetDevForceStop(true);
      case Mounted =>
        SetDevForceStop(false);
    }

    /** An interrupt. */
    method TakeIn(block: Block)
      requires OnTrail() && enabled
      modifies this`enabled, this`error, this`trail, ring`lWritePtr, memory
      ensures OnTrail() && Passes(old(trail), trail) && trail == Extended(old(trail), old(View()), Interrupt(block))
    {
      hide Taken, AfterInterrupt, Faithful;
      ghost var s := View();
      Note(Interrupt(block));
      var fits := AdmaHandler(block);
      assert fits;
    }

    // ----- the reader: status words and pointers

    /** set_cdif_enable. */
    method SetCdifEnable(on: bool)
      requires Valid() && (on ==> phase == Seeking)
      modifies this`enabled, this`phase, this`trail
      ensures Valid() && Reads(old(trail), trail, true)
      ensures enabled == on && phase == if on then Streaming else old(phase)
      ensures trail == With(old(trail), if on then Enable else Disable)
    {
      hide EndsAt, Faithful, Brings, Taken, With;
      Note(if on then Enable else Disable);
      enabled := on;
      phase := if on then Streaming else phase;
    }

    /** CD_SetErrorStatus, for any status but CD_BUF_FULL. */
    method SetErrorStatus(status: ErrorStatus)
      requires OnTrail() && status != BufFull
      modifies this`error, this`trail
      ensures OnTrail() && Passes(old(trail), trail) && trail == Extended(old(trail), old(View()), Report(status))
      ensures error == status && trail == With(old(trail), Report(status))
      ensures (status != Shock && Faithful(world, clock, old(trail)) ==> Faithful(world, clock, trail))
    {
      hide EndsAt, Faithful, Taken, With;
      Note(Report(status));
      error := status;
    }

    /** Both pointers back to 0, for a seek to some address or because a wait has timed out. */
    method EmptyRing(ghost e: Event)
      requires Valid() && (e.Reset? || e.Drop?) && (e.Reset? && enabled ==> phase == Leaving)
      modifies ring`lWritePtr, ring`lReadPtr, this`phase, this`trail
      ensures Valid() && Reads(old(trail), trail, e.Drop? || !enabled) && trail == With(old(trail), e)
      ensures ring.lReadPtr == 0 == ring.lWritePtr && phase == if e.Reset? then Seeking else old(phase)
    {
      hide EndsAt, Faithful, Brings, Taken, With;
      Note(e);
      ring.lWritePtr := 0;
      ring.lReadPtr := 0;
      phase := if e.Reset? then Seeking else phase;
    }

    // ----- the reader: waiting for data

    /** Whether CD_Set_StartBuffing gives up the ring: the request lies too far off, or the ring is reported full with
        less in it than is wanted. */
    ghost predicate GivesUp(wantSectorGap: int, requestSampleSize: nat)
      reads this`error, ring, ring.pSingleBuf
    {
      !(0 <= wantSectorGap <= 20) || (error == BufFull && Available(ring.View()) < requestSampleSize)
    }

    /** CD_Set_StartBuffing: whether to go on reading from the ring. */
    method SetStartBuffing(wantSectorGap: int, requestSampleSize: nat)
      requires Valid() && bufStatus == BufStart
      modifies this`enabled, this`error, this`bufStatus, this`phase, this`trail
      ensures Valid() && Reads(old(trail), trail, true)
      ensures bufStatus == BufStop <==> old(GivesUp(wantSectorGap, requestSampleSize))
      ensures bufStatus == BufStop && enabled ==> old(StaleReport(View())) && phase == Leaving
      ensures bufStatus == BufStart ==> View() == old(View()) && trail == old(trail)
      ensures bufStatus == BufStop ==> trail == With(old(trail), if 0 <= wantSectorGap <= 20 then Leave else Disable)
      ensures bufStatus == BufStop && 0 <= wantSectorGap <= 20 ==> error == NoProblem && enabled == old(enabled)
      ensures bufStatus == BufStop && !(0 <= wantSectorGap <= 20) ==> error == old(error) && !enabled
    {
      hide EndsAt, Faithful, Brings, Taken, With;
      Unmoved(trail, View(), true);
      var haveSampleSize := ring.DataAvailable();
      if wantSectorGap > 20 || wantSectorGap < 0 {
        bufStatus := BufStop;
        SetCdifEnable(false);
      } else {
        var lErrStatus := error;
        if lErrStatus == BufFull && haveSampleSize < requestSampleSize {
          bufStatus := BufStop;
          Note(Capture.Event.Leave);
          error := NoProblem;
          phase := Leaving;
        }
      }
    }

    /** The wait loop that both of the following share: until the ring holds enough, a shock is reported or force stop
        is set, and no longer than WAIT_COUNT rounds of two looks each. */
    method Await(requestSampleSize: nat) returns (how: Waited)
      requires Valid()
      modifies this`clock, this`enabled, this`dataCd, this`forced, this`error, this`trail, ring`lWritePtr, memory
      ensures Valid() && Passes(old(trail), trail) && clock >= old(clock)
      ensures how.Enough? ==> requestSampleSize <= Available(ring.View())
      ensures how.Shocked? ==> error == Shock
      ensures how.Forced? ==> forced
      ensures how.Full? || how.TimedOut? ==> clock == old(clock) + 2 * WAIT_COUNT + 1
      ensures how.Full? ==> error == BufFull && 0 <= how.have < requestSampleSize
      ensures how.TimedOut? ==> error != BufFull
      ensures trail == LookedOn(world, old(trail), old(clock), clock - old(clock))
      ensures EndsWait(world, old(trail), old(clock), requestSampleSize, clock - old(clock), how)
    {
      hide EndsAt, Faithful, Passes, Available, LookedOn, StillWaiting, Witnessed, EndsWait;
      ghost var from, was := clock, trail;
      NotYet(world, was, from, requestSampleSize);
      Unmoved(trail, View(), true);
      AvailableHere(trail, View());
      var haveSampleSize := ring.DataAvailable();
      var iWaitTimer := WAIT_COUNT;
      while haveSampleSize < requestSampleSize
        invariant Valid() && Passes(was, trail)
        invariant 0 <= haveSampleSize == Available(ring.View()) && 0 <= iWaitTimer
        invariant clock == from + 2 * (WAIT_COUNT - iWaitTimer)
        invariant trail == LookedOn(world, was, from, clock - from)
        invariant StillWaiting(world, was, from, requestSampleSize, clock - from)
        decreases iWaitTimer
      {
        ghost var before, s := trail, View();
        if error == Shock {
          EndsHere(world, was, from, requestSampleSize, clock - from, trail, s, Shocked);
          return Shocked;
        }
        WaitsOn(world, was, from, requestSampleSize, clock - from, trail, s);
        var _ := Observe();
        PassesTwice(was, before, trail);
        if forced {
          EndsHere(world, was, from, requestSampleSize, clock - from, trail, View(), Forced);
          return Forced;
        }
        iWaitTimer := iWaitTimer - 1;
        if iWaitTimer < 0 {
          assert EndsAt(LookedOn(world, was, from, clock - from - 1), s);
          if error == BufFull {
            EndsHere(world, was, from, requestSampleSize, clock - from, trail, View(), Full(haveSampleSize));
            return Full(haveSampleSize);
          }
          EndsHere(world, was, from, requestSampleSize, clock - from, trail, View(), TimedOut);
          return TimedOut;
        }
        WaitsOn(world, was, from, requestSampleSize, clock - from, trail, View());
        before := trail;
        var _ := Observe();
        PassesTwice(was, before, trail);
        AvailableHere(trail, View());
        haveSampleSize := ring.DataAvailable();
      }
      EndsHere(world, was, from, requestSampleSize, clock - from, trail, View(), Enough);
      return Enough;
    }

    /** CD_Do_StartBuffering: wait for the ring to hold enough. */
    method DoStartBuffering(requestSampleSize: nat, ghost address: u32) returns (lRet: int, ghost a: Attempt)
      requires Valid() && bufStatus == BufStart
      modifies this`clock, this`enabled, this`dataCd, this`forced, this`error, this`bufStatus, this`pickupSeek
      modifies this`phase, this`trail, ring`lWritePtr, ring`lReadPtr, memory
      ensures Valid() && Reads(old(trail), trail, true) && clock >= old(clock)
      ensures !pickupSeek && (lRet >= 0 || lRet == SHOCK_DETECT || lRet == CD_FORCE_STOP || lRet == BUFFERING_TIME_OUT)
      ensures lRet != BUFFERING_TIME_OUT ==> Passes(old(trail), trail)
      ensures lRet >= 0 ==>
                requestSampleSize <= Available(ring.View())
                || (error == BufFull && lRet < requestSampleSize && clock == old(clock) + 2 * WAIT_COUNT + 1)
      ensures requestSampleSize <= old(Available(ring.View())) ==>
                lRet >= 0 && requestSampleSize <= Available(ring.View())
      ensures old(error) == Shock && old(Available(ring.View())) < requestSampleSize ==> lRet == SHOCK_DETECT
      ensures lRet == SHOCK_DETECT ==> error == Shock
      ensures lRet == CD_FORCE_STOP ==> forced
      ensures lRet == BUFFERING_TIME_OUT ==>
                && ring.lReadPtr == 0 == ring.lWritePtr && error == MissSubq && bufStatus == BufStop && !enabled
                && clock == old(clock) + 2 * WAIT_COUNT + 1
      ensures lRet != BUFFERING_TIME_OUT ==> bufStatus == BufStart
      ensures a == Attempt(old(trail), old(clock), false, a.looks, a.how) && Tried(world, a, requestSampleSize, address)
      ensures lRet == AnswerOf(world, a) && trail == TrailAfter(world, a, address) && clock == TimeAfter(world, a)
    {
      hide EndsAt, Faithful, Reads, Passes, Available, Fed, EndsWait, LookedOn, With;
      pickupSeek := false;
      ghost var start := trail;
      ghost var from, s := clock, View();
      var how := Await(requestSampleSize);
      PassesIs(start, trail, true);
      if requestSampleSize <= Available(s.ring) {
        EnoughEndsWait(world, start, s, from, requestSampleSize, clock - from, how);
      } else if s.error == Shock {
        SeenAt(start, s, requestSampleSize);
        ShockEndsWait(world, start, from, requestSampleSize, clock - from, how);
      }
      a := Attempt(start, from, false, clock - from, how);
      match how
      case Enough =>
        lRet := 1;
      case Shocked =>
        lRet := SHOCK_DETECT;
      case Forced =>
        lRet := CD_FORCE_STOP;
      case Full(have) =>
        lRet := have;
      case TimedOut =>
        ghost var before := trail;
        GiveUpWaiting(true);
        ReadsTwice(start, before, trail, true, true);
        lRet := BUFFERING_TIME_OUT;
    }

    /** What both waits do when they have timed out, and the ring is not full. */
    method GiveUpWaiting(drop: bool)
      requires Valid()
      modifies this`enabled, this`error, this`bufStatus, this`phase, this`trail, ring`lWritePtr, ring`lReadPtr
      ensures Valid() && Reads(old(trail), trail, true)
      ensures error == MissSubq && bufStatus == BufStop && !enabled
      ensures drop ==> ring.lReadPtr == 0 == ring.lWritePtr
      ensures trail == With(With(if drop then With(old(trail), Event.Drop) else old(trail), Report(MissSubq)), Disable)
    {
      hide EndsAt, Faithful, Reads, Passes, With;
      Unmoved(trail, View(), true);
      ghost var start := trail;
      if drop {
        EmptyRing(Event.Drop);
      }
      ghost var before := trail;
      SetErrorStatus(MissSubq);
      PassesIs(before, trail, true);
      ReadsTwice(start, before, trail, true, true);
      bufStatus := BufStop;
      before := trail;
      SetCdifEnable(false);
      ReadsTwice(start, before, trail, true, true);
    }

    /** The deck takes its time; with capture off blocks that come in meanwhile are lost. */
    method AwaitAnswer() returns (w: Moment)
      requires Valid()
      modifies this`clock, this`enabled, this`dataCd, this`forced, this`error, this`trail, ring`lWritePtr, memory
      ensures Valid() && Passes(old(trail), trail) && w == world(old(clock)) && clock == old(clock) + 1
      ensures !old(enabled) ==> !enabled && ring.View() == old(ring.View())
      ensures !old(enabled) && OnlyBlocks(w.happenings) ==> View() == old(View())
      ensures trail == Witnessed(old(trail), w.happenings)
    {
      hide EndsAt, Faithful, Passes, Witnessed;
      ghost var before, s := trail, View();
      w := Observe();
      if !s.enabled && OnlyBlocks(w.happenings) {
        LostWhileOff(before, s, w.happenings);
        OneEnd(trail, s, View());
      }
    }

    /** The first part of CD_Do_StopBuffering: empty the ring, send the deck to the address, switch capture on. */
    method Seek(startAddr: u32) returns (ret: int)
      requires Valid() && bufStatus == BufStop && (enabled ==> phase == Leaving)
      modifies this`clock, this`enabled, this`dataCd, this`forced, this`error, this`bufStatus, this`pickupSeek
      modifies this`researchCnt, this`phase, this`trail, ring`lWritePtr, ring`lReadPtr, memory
      ensures Valid() && Reads(old(trail), trail, !old(enabled)) && clock == old(clock) + 1
      ensures pickupSeek && researchCnt == 0
      ensures ret == world(old(clock)).seekResult
      ensures ret == DECK_ERROR && !old(enabled) ==> ring.lReadPtr == 0 == ring.lWritePtr && !enabled
      ensures bufStatus == (if ret == DECK_ERROR then BufStop else BufStart) && (bufStatus == BufStart ==> enabled)
      ensures !old(enabled) && old(SeekTaken(world, View(), clock)) ==>
                && ret != DECK_ERROR && ring.lReadPtr == 0 == ring.lWritePtr && dataCd && !forced && error != Shock
      ensures var asked := SentOff(world, old(trail), old(clock), startAddr);
              trail == if ret == DECK_ERROR then asked else With(asked, Enable)
    {
      hide EndsAt, Faithful, Reads, Passes, With, Witnessed;
      ghost var start, cold := trail, !enabled;
      EmptyRing(Reset(startAddr));

      pickupSeek := true;
      researchCnt := 0;

      ghost var before := trail;
      var answer := AwaitAnswer();
      PassesIs(before, trail, true);
      ReadsTwice(start, before, trail, cold, true);
      if answer.seekResult == DECK_ERROR {
        return DECK_ERROR;
      }

      bufStatus := BufStart;
      before := trail;
      SetCdifEnable(true);
      ReadsTwice(start, before, trail, cold, true);
      return answer.seekResult;
    }

    /** CD_Do_StopBuffering: seek, and wait for the ring to hold enough. */
    method DoStopBuffering(startAddr: u32, requestSampleSize: nat) returns (lRet: int, ghost a: Attempt)
      requires Valid() && bufStatus == BufStop && (enabled ==> phase == Leaving)
      modifies this`clock, this`enabled, this`dataCd, this`forced, this`error, this`bufStatus, this`pickupSeek
      modifies this`researchCnt, this`phase, this`trail, ring`lWritePtr, ring`lReadPtr, memory
      ensures Valid() && Reads(old(trail), trail, !old(enabled)) && clock > old(clock)
      ensures pickupSeek && researchCnt == 0
      ensures lRet == DECK_ERROR <==> world(old(clock)).seekResult == DECK_ERROR
      ensures lRet == DECK_ERROR && !old(enabled) ==> ring.lReadPtr == 0 == ring.lWritePtr && !enabled
      ensures lRet >= 0 || lRet in {DECK_ERROR, SHOCK_DETECT, CD_FORCE_STOP, BUFFERING_TIME_OUT}
      ensures lRet >= 0 ==>
                || (requestSampleSize <= Available(ring.View()) && error == NoProblem)
                || (error == BufFull && lRet < requestSampleSize && clock == old(clock) + 2 * WAIT_COUNT + 2)
      ensures lRet == SHOCK_DETECT ==> error == Shock
      ensures lRet == CD_FORCE_STOP ==> forced
      ensures lRet == BUFFERING_TIME_OUT ==>
                error == MissSubq && bufStatus == BufStop && !enabled && clock == old(clock) + 2 * WAIT_COUNT + 2
      ensures bufStatus == if lRet == DECK_ERROR || lRet == BUFFERING_TIME_OUT then BufStop else BufStart
      ensures !old(enabled) && SeekAnswered(world, old(View()), old(clock), requestSampleSize) ==>
                lRet >= 0 && requestSampleSize <= Available(ring.View()) && error == NoProblem
      ensures a == Attempt(old(trail), old(clock), true, a.looks, a.how)
      ensures Tried(world, a, requestSampleSize, startAddr)
      ensures lRet == AnswerOf(world, a) && trail == TrailAfter(world, a, startAddr) && clock == TimeAfter(world, a)
    {
      hide EndsAt, Faithful, Reads, Passes, Available, Fed, Supplied, SeekTaken, EndsWait, LookedOn, With, SentOff;
      ghost var start, cold, time := trail, !enabled, clock;
      a := Attempt(start, time, true, 0, Enough);
      var ret := Seek(startAddr);
      if ret == DECK_ERROR {
        return DECK_ERROR, a;
      }
      ghost var before := trail;
      if cold && SeekAnswered(world, old(View()), old(clock), requestSampleSize) {
        WellPlaced(trail, View());
        EmptyFlows(world, clock, requestSampleSize, View());
      }
      ghost var how;
      lRet, how := AwaitStream(requestSampleSize);
      a := Attempt(start, time, true, clock - time - 1, how);
      ReadsTwice(start, before, trail, cold, true);
    }

    /** The second part: wait for the ring to hold enough. */
    method AwaitStream(requestSampleSize: nat) returns (lRet: int, ghost how: Waited)
      requires Valid() && bufStatus == BufStart
      modifies this`clock, this`enabled, this`dataCd, this`forced, this`error, this`bufStatus, this`phase
      modifies this`trail, ring`lWritePtr, ring`lReadPtr, memory
      ensures Valid() && Reads(old(trail), trail, true) && clock >= old(clock)
      ensures lRet >= 0 || lRet == SHOCK_DETECT || lRet == CD_FORCE_STOP || lRet == BUFFERING_TIME_OUT
      ensures lRet >= 0 ==>
                || (requestSampleSize <= Available(ring.View()) && error == NoProblem)
                || (error == BufFull && lRet < requestSampleSize && clock == old(clock) + 2 * WAIT_COUNT + 1)
      ensures lRet == SHOCK_DETECT ==> error == Shock
      ensures lRet == CD_FORCE_STOP ==> forced
      ensures lRet == BUFFERING_TIME_OUT ==> error == MissSubq && !enabled && clock == old(clock) + 2 * WAIT_COUNT + 1
      ensures bufStatus == if lRet == BUFFERING_TIME_OUT then BufStop else BufStart
      ensures old(Fed(world, clock, requestSampleSize, 0, View())) ==>
                lRet >= 0 && requestSampleSize <= Available(ring.View()) && error == NoProblem
      ensures EndsWait(world, old(trail), old(clock), requestSampleSize, clock - old(clock), how) && lRet == CodeOf(how)
      ensures var t := LookedOn(world, old(trail), old(clock), clock - old(clock));
              trail == match how
                       case Enough => With(t, Report(NoProblem))
                       case TimedOut => With(With(t, Report(MissSubq)), Disable)
                       case _ => t
    {
      hide EndsAt, Faithful, Reads, Passes, Available, Fed, EndsWait, LookedOn, With;
      ghost var start, from, s := trail, clock, View();
      var ended := Await(requestSampleSize);
      how := ended;
      PassesIs(start, trail, true);
      if Fed(world, from, requestSampleSize, 0, s) {
        FedEndsWait(world, start, s, from, requestSampleSize, clock - from, how);
      }
      ghost var before := trail;
      match ended
      case Enough =>
        SetErrorStatus(NoProblem);
        PassesIs(before, trail, true);
        ReadsTwice(start, before, trail, true, true);
        lRet := 1;
      case Shocked =>
        lRet := SHOCK_DETECT;
      case Forced =>
        lRet := CD_FORCE_STOP;
      case Full(have) =>
        lRet := have;
      case TimedOut =>
        GiveUpWaiting(false);
        ReadsTwice(start, before, trail, true, true);
        lRet := BUFFERING_TIME_OUT;
    }

    // ----- the reader: copying

    /** One of the copy loops of CD_CopyReadData: words of the ring's memory, from a word address on. */
    method CopyWords(from: nat, count: nat, at: nat)
      requires Wired() && from + count <= memory.Length && at + 2 * count <= chunk.Length
      modifies chunk
      ensures chunk[..] == SM.Overlay(old(chunk[..]), at, BytesOf(memory[from..from + count]))
    {
      ghost var words := memory[from..from + count];
      var pSingle := from;
      for i := 0 to count
        invariant pSingle == from + i
        invariant forall k :: at <= k < at + 2 * i ==> chunk[k] == ByteOf(words, k - at)
        invariant forall k :: 0 <= k < chunk.Length && !(at <= k < at + 2 * i) ==> chunk[k] == old(chunk[k])
      {
        assert words[i] == memory[pSingle];
        chunk[at + 2 * i] := memory[pSingle] % 0x100;
        chunk[at + 2 * i + 1] := memory[pSingle] / 0x100;
        pSingle := pSingle + 1;
      }
    }

    /** Whether so many words can be copied without running off the ring's memory. */
    function CopyFits(copySize: nat): bool
      reads ring
    {
      var remain := 2 * (ring.lLength - ring.lReadPtr);
      if ring.lWritePtr > ring.lReadPtr then copySize <= remain
      else ring.lWritePtr < ring.lReadPtr ==> copySize - remain <= 2 * ring.lLength
    }

    /** CD_CopyReadData: the front of the ring into the chunk buffer; the pointers stay. */
    method CopyReadData(at: nat, copySize: u32, requestSampleSize: nat) returns (ghost words: seq<u16>)
      requires Valid() && CopyFits(copySize) && at + 2 * copySize <= chunk.Length
      modifies chunk, this`chOffset
      ensures Peeked(ring.View(), copySize) == Copied(words) && |words| <= copySize
      ensures chunk[..] == SM.Overlay(old(chunk[..]), at, BytesOf(words))
      ensures chOffset == if requestSampleSize == 0 then old(chOffset) else U32(2 * copySize)
    {
      hide BytesOf, SM.Overlay, U32, Faithful, Steps;
      ghost var was, mem := chunk[..], memory[..];
      var from := 2 * ring.lReadPtr;
      if ring.lWritePtr > ring.lReadPtr {
        CopyWords(from, copySize, at);
        assert memory[from..from + copySize] == mem[from..from + copySize];
      } else if ring.lWritePtr < ring.lReadPtr {
        var remainSize := 2 * (ring.lLength - ring.lReadPtr);
        if copySize > remainSize {
          CopyWords(from, remainSize, at);
          CopyWords(0, copySize - remainSize, at + 2 * remainSize);
          assert memory[from..from + remainSize] == mem[from..];
          assert memory[0..0 + (copySize - remainSize)] == mem[..copySize - remainSize];
          OverlayTwice(was, at, mem[from..], mem[..copySize - remainSize]);
        } else {
          CopyWords(from, copySize, at);
          assert memory[from..from + copySize] == mem[from..from + copySize];
        }
      } else {
        OverlayNothing(was, at);
      }
      words := Peeked(ring.View(), copySize).words;
      if requestSampleSize != 0 {
        chOffset := U32(2 * copySize);
      }
    }

    /** Enough is there, and behind a seek no error is left. */
    ghost predicate Sated(wantSampleSize: nat)
      reads this`error, this`pickupSeek, ring, ring.pSingleBuf
    {
      wantSampleSize <= Available(ring.View()) && (pickupSeek ==> error == NoProblem)
    }

    /** How a wait that has begun at a time may end well: with enough, or at its latest and with CD_BUF_FULL reported.
        */
    ghost predicate EndedWait(wantSampleSize: nat, since: nat)
      reads this`error, this`pickupSeek, this`clock, ring, ring.pSingleBuf
    {
      Sated(wantSampleSize) || (error == BufFull && clock > since + 2 * WAIT_COUNT)
    }

    /** The next attempt will have enough. */
    ghost predicate IsBound(wantSampleSize: nat)
      reads this, ring, ring.pSingleBuf
    {
      if bufStatus == BufStop then !enabled && SeekAnswered(world, View(), clock, wantSampleSize)
      else wantSampleSize <= Available(ring.View())
    }

    /** One attempt of CD_ReadData at having enough samples, by the status it finds. */
    method Buffer(startAddr: u32, wantSampleSize: nat) returns (lres: int, ghost a: Attempt)
      requires Valid() && (bufStatus == BufStop && enabled ==> phase == Leaving)
      modifies this`clock, this`enabled, this`dataCd, this`forced, this`error, this`bufStatus, this`pickupSeek
      modifies this`researchCnt, this`phase, this`trail, ring`lWritePtr, ring`lReadPtr, memory
      ensures Valid() && Reads(old(trail), trail, !(old(bufStatus) == BufStop && old(enabled))) && clock >= old(clock)
      ensures pickupSeek == (old(bufStatus) == BufStop) && researchCnt == if pickupSeek then 0 else old(researchCnt)
      ensures !pickupSeek && lres != BUFFERING_TIME_OUT ==> Passes(old(trail), trail)
      ensures lres >= 0 ==> bufStatus == BufStart && EndedWait(wantSampleSize, old(clock))
      ensures lres == BUFFERING_TIME_OUT ==> bufStatus == BufStop && !enabled && clock > old(clock) + 2 * WAIT_COUNT
      ensures old(IsBound(wantSampleSize)) ==> lres >= 0 && Sated(wantSampleSize)
      ensures lres >= 0 || lres in {DECK_ERROR, SHOCK_DETECT, CD_FORCE_STOP, BUFFERING_TIME_OUT}
      ensures bufStatus == if lres == DECK_ERROR || lres == BUFFERING_TIME_OUT then BufStop else BufStart
      ensures a == Attempt(old(trail), old(clock), old(bufStatus) == BufStop, a.looks, a.how)
      ensures Tried(world, a, wantSampleSize, startAddr) && lres == AnswerOf(world, a)
      ensures lres == DECK_ERROR <==> Refused(world, a)
      ensures trail == TrailAfter(world, a, startAddr) && clock == TimeAfter(world, a)
    {
      hide EndsAt, Faithful, Reads, Passes, Available, SeekAnswered, Tried, TrailAfter, TimeAfter, AnswerOf;
      if bufStatus == BufStart {
        lres, a := DoStartBuffering(wantSampleSize, startAddr);
      } else {
        lres, a := DoStopBuffering(startAddr, wantSampleSize);
      }
    }

    /** The first part of CD_ReadData: how many samples to want, the seek tolerance included where it fits. */
    method PlanRead(sectorSize: u32) returns (wantSampleSize: nat)
      ensures wantSampleSize == SECTOR_SAMPLES * PlannedSectors(sectorSize)
    {
      var sectors, marginSector := sectorSize, 0;
      if MAX_SECTORS >= sectors {
        if MAX_SECTORS > sectors + SEEK_TOLERANCE {
          marginSector := SEEK_TOLERANCE;
        } else {
          marginSector := sectors + SEEK_TOLERANCE - MAX_SECTORS;
        }
      } else {
        sectors := MAX_SECTORS - SEEK_TOLERANCE;
      }
      wantSampleSize := (sectors + marginSector) * SECTOR_SAMPLES;
    }

    lemma WhatIsThereFits(samples: nat)
      requires Sound(ring.View()) && samples <= Available(ring.View())
      ensures CopyFits(2 * samples)
    {
    }

    /** What CD_ReadData does with the samples it has waited for. */
    method CopyOut(at: nat, wantSampleSize: nat) returns (end: ReadEnd, ghost words: seq<u16>)
      requires Valid() && at <= chunk.Length && 0 < wantSampleSize <= 0x8000_0000 / 2
      modifies this`chOffset, chunk
      ensures end.OutOfBounds? ==> chunk[..] == old(chunk[..])
      ensures Sated(wantSampleSize) && at + 4 * wantSampleSize <= chunk.Length ==> !end.OutOfBounds?
      ensures !end.OutOfBounds? ==>
                && end == Size(4 * wantSampleSize) && at + end.size <= chunk.Length && |words| <= 2 * wantSampleSize
                && Peeked(ring.View(), 2 * wantSampleSize) == Copied(words) && at + 2 * |words| <= chunk.Length
                && chunk[..] == SM.Overlay(old(chunk[..]), at, BytesOf(words)) && chOffset == U32(4 * wantSampleSize)
    {
      hide Peeked, Available, BytesOf, SM.Overlay, U32;
      var copySize := 2 * wantSampleSize;
      if wantSampleSize <= Available(ring.View()) { WhatIsThereFits(wantSampleSize); }
      if !CopyFits(copySize) || at + 2 * copySize > chunk.Length {
        return OutOfBounds, [];
      }
      words := CopyReadData(at, copySize, wantSampleSize);
      end := Size(4 * wantSampleSize);
    }

    /** What CD_ReadData wants of the ring, and how far the request lies from the last sector delivered. */
    ghost function WantedSamples(sectorSize: u32): nat { SECTOR_SAMPLES * PlannedSectors(sectorSize) }

    ghost function WantedGap(): int
      reads this`requestSector, this`lastSector
    {
      S32(U32(requestSector - lastSector))
    }

    /** It will seek and the deck answer and follow up in time, or the samples are there already and the request lies
        close by. */
    ghost predicate BoundFrom(wantSectorGap: int, wantSampleSize: nat)
      reads this, ring, ring.pSingleBuf
    {
      if bufStatus == BufStop then SeekAnswered(world, View(), clock, wantSampleSize)
      else wantSampleSize <= Available(ring.View()) && 0 <= wantSectorGap <= 20
    }

    /** Where CD_ReadData is going to read from: on from the ring, or from a new place with capture off. */
    method Decide(wantSectorGap: int, wantSampleSize: nat)
      requires Valid()
      modifies this`enabled, this`error, this`bufStatus, this`phase, this`trail
      ensures Valid() && Reads(old(trail), trail, true)
      ensures bufStatus == BufStop <==> old(bufStatus) == BufStop || old(GivesUp(wantSectorGap, wantSampleSize))
      ensures bufStatus == BufStart ==> View() == old(View()) && trail == old(trail)
      ensures bufStatus == BufStop ==>
                var near := old(bufStatus) == BufStart && 0 <= wantSectorGap <= 20;
                trail == With(old(trail), if near then Leave else Disable)
      ensures bufStatus == BufStop && enabled ==>
                phase == Leaving && old(bufStatus) == BufStart && old(StaleReport(View()))
      ensures old(BoundFrom(wantSectorGap, wantSampleSize)) ==> IsBound(wantSampleSize) && bufStatus == old(bufStatus)
      ensures forall a: Attempt :: a.sought == (bufStatus == BufStop) && a.t == trail ==>
                old(SetsOut(bufStatus == BufStop, wantSectorGap, View(), trail, a, wantSampleSize))
    {
      hide EndsAt, Faithful, Reads, Available, SeekAnswered, With;
      if bufStatus == BufStart {
        SetStartBuffing(wantSectorGap, wantSampleSize);
      } else {
        ghost var s := View();
        SetCdifEnable(false);
        SeekStillAnswered(world, s, View(), clock, wantSampleSize);
      }
    }

    /** CD_ReadData is bound to have enough, and room for it. */
    ghost predicate BoundToRead(sectorSize: u32, at: nat)
      reads this, ring, ring.pSingleBuf
    {
      at + 4 * WantedSamples(sectorSize) <= CHUNK_BYTES && BoundFrom(WantedGap(), WantedSamples(sectorSize))
    }

    /** The attempts of CD_ReadData, one after another until one has not timed out, or patience is at an end. */
    method Acquire(startAddr: u32, wantSampleSize: nat) returns (lres: int, ghost tries: seq<Attempt>)
      requires Valid() && (bufStatus == BufStop && enabled ==> phase == Leaving)
      modifies this`clock, this`enabled, this`dataCd, this`forced, this`error, this`bufStatus, this`pickupSeek
      modifies this`researchCnt, this`phase, this`trail, ring`lWritePtr, ring`lReadPtr, memory
      ensures Valid() && clock >= old(clock)
      ensures Reads(old(trail), trail, !(old(bufStatus) == BufStop && old(enabled)))
      ensures old(bufStatus) == BufStop ==> pickupSeek
      ensures old(bufStatus) == BufStart && pickupSeek ==> clock > old(clock) + 2 * WAIT_COUNT
      ensures researchCnt == if pickupSeek then 0 else old(researchCnt)
      ensures !pickupSeek && lres != BUFFERING_TIME_OUT ==> Passes(old(trail), trail)
      ensures bufStatus == if lres == DECK_ERROR || lres == BUFFERING_TIME_OUT then BufStop else BufStart
      ensures lres >= 0 ==> EndedWait(wantSampleSize, old(clock))
      ensures old(IsBound(wantSampleSize)) ==>
                lres >= 0 && Sated(wantSampleSize) && (pickupSeek ==> old(bufStatus) == BufStop)
      ensures Attempts(world, tries, wantSampleSize, startAddr)
      ensures tries[0].t == old(trail) && tries[0].time == old(clock) && tries[0].sought == (old(bufStatus) == BufStop)
      ensures Ended(tries, lres, startAddr) && (lres == BUFFERING_TIME_OUT ==> |tries| == patience + 1)
    {
      hide EndsAt, Faithful, Reads, Passes, Available, Sated, IsBound, Tried, TrailAfter, TimeAfter, AnswerOf, Attempts;
      ghost var start, cold := trail, !(bufStatus == BufStop && enabled);
      ghost var bound := IsBound(wantSampleSize);
      tries := [];
      lres := BUFFERING_TIME_OUT;
      Unmoved(trail, View(), cold);

      var timeouts := 0;
      while timeouts <= patience && lres == BUFFERING_TIME_OUT
        invariant Valid() && Reads(start, trail, cold) && clock >= old(clock)
        invariant tries == [] ==> lres == BUFFERING_TIME_OUT && trail == start && clock == old(clock)
        invariant tries == [] ==> bufStatus == old(bufStatus) && enabled == old(enabled) && phase == old(phase)
        invariant tries == [] ==> researchCnt == old(researchCnt) && (bound ==> IsBound(wantSampleSize))
        invariant |tries| == timeouts <= patience + 1
        invariant tries != [] ==>
                    && Attempts(world, tries, wantSampleSize, startAddr) && Ended(tries, lres, startAddr)
                    && tries[0].t == old(trail) && tries[0].time == old(clock)
                    && tries[0].sought == (old(bufStatus) == BufStop)
        invariant tries != [] && old(bufStatus) == BufStop ==> pickupSeek
        invariant tries != [] && lres == BUFFERING_TIME_OUT ==> !enabled && clock > old(clock) + 2 * WAIT_COUNT
        invariant tries != [] && pickupSeek && old(bufStatus) == BufStart ==> clock > old(clock) + 2 * WAIT_COUNT
        invariant tries != [] ==> researchCnt == if pickupSeek then 0 else old(researchCnt)
        invariant tries != [] && !pickupSeek && lres != BUFFERING_TIME_OUT ==> Passes(start, trail)
        invariant tries != [] ==>
                    bufStatus == if lres == DECK_ERROR || lres == BUFFERING_TIME_OUT then BufStop else BufStart
        invariant lres >= 0 ==> EndedWait(wantSampleSize, old(clock))
        invariant tries != [] && bound ==>
                    lres >= 0 && Sated(wantSampleSize) && (pickupSeek ==> old(bufStatus) == BufStop)
        decreases patience + 1 - timeouts
      {
        ghost var before, off, earlier := trail, !(bufStatus == BufStop && enabled), tries;
        SoFar(tries, lres, wantSampleSize, startAddr);
        ghost var a;
        lres, a := Buffer(startAddr, wantSampleSize);
        ReadsTwice(start, before, trail, cold, off);
        ReadsColder(start, trail, cold && off, cold);
        OneMoreAttempt(world, earlier, wantSampleSize, startAddr, a);
        tries := earlier + [a];
        timeouts := timeouts + 1;
      }
    }

    /** The last attempt has led to how things stand. */
    ghost predicate Ended(tries: seq<Attempt>, lres: int, address: u32)
      reads this`trail, this`clock, this`pickupSeek
    {
      tries != [] &&
      var last := tries[|tries| - 1];
      && lres == AnswerOf(world, last) && trail == TrailAfter(world, last, address) && clock == TimeAfter(world, last)
      && pickupSeek == last.sought && (lres == DECK_ERROR <==> Refused(world, last))
    }

    lemma SoFar(tries: seq<Attempt>, lres: int, want: nat, address: u32)
      requires tries != [] ==> Attempts(world, tries, want, address) && Ended(tries, lres, address)
      requires lres == BUFFERING_TIME_OUT
      ensures AllTimedOut(world, tries, want, address, trail, clock)
    {
      hide Attempts;
    }

    /** CD_ReadData: plan how many sectors to read, decide where from, wait, copy. It seeks when the status is
        CD_BUF_STOP, when CD_Set_StartBuffing gives the ring up, and otherwise only after a wait has timed out. The
        words copied are the front of the ring; less is there than was wanted only behind CD_BUF_FULL and after the
        longest wait. What is answered otherwise is the code of the last attempt, which has not timed out. */
    method ReadData(startAddr: u32, sectorSize: u32, at: nat)
      returns (end: ReadEnd, ghost words: seq<u16>, ghost tries: seq<Attempt>, ghost lres: int)
      requires Valid() && at <= chunk.Length
      modifies this`clock, this`enabled, this`dataCd, this`forced, this`error, this`bufStatus, this`pickupSeek
      modifies this`researchCnt, this`phase, this`trail, this`chOffset, ring`lWritePtr, ring`lReadPtr, memory, chunk
      ensures Valid() && clock >= old(clock)
      ensures Reads(old(trail), trail, !(old(bufStatus) == BufStart && old(StaleReport(View()))))
      ensures old(bufStatus) == BufStop || old(GivesUp(WantedGap(), WantedSamples(sectorSize))) ==> pickupSeek
      ensures old(bufStatus) == BufStart && !old(GivesUp(WantedGap(), WantedSamples(sectorSize))) && pickupSeek ==>
                clock > old(clock) + 2 * WAIT_COUNT
      ensures researchCnt == if pickupSeek then 0 else old(researchCnt)
      ensures end.Size? && !pickupSeek ==> Passes(old(trail), trail)
      ensures end.Size? && end.size > 0 ==>
                && bufStatus == BufStart && end.size == RAW_SIZE * PlannedSectors(sectorSize)
                && Peeked(ring.View(), end.size / 2) == Copied(words) && |words| <= end.size / 2
                && at + 2 * |words| <= chunk.Length
                && chunk[..] == SM.Overlay(old(chunk[..]), at, BytesOf(words))
                && at + end.size <= chunk.Length && EndedWait(WantedSamples(sectorSize), old(clock))
                && chOffset == U32(end.size)
      ensures old(BoundToRead(sectorSize, at)) ==>
                && end.Size? && end.size > 0 && Sated(WantedSamples(sectorSize))
                && (pickupSeek ==> old(bufStatus) == BufStop)
      ensures !(end.Size? && end.size > 0) ==> chunk[..] == old(chunk[..])
      ensures end.Size? && end.size <= 0 ==> words == []
      ensures Attempts(world, tries, WantedSamples(sectorSize), startAddr) && tries[0].time == old(clock)
      ensures old(SetsOut(bufStatus == BufStop, WantedGap(), View(), trail, tries[0], WantedSamples(sectorSize)))
      ensures Ended(tries, lres, startAddr) && Tells(end, lres, |tries|)
      ensures end.Size? ==> (bufStatus == BufStop <==> end.size == DECK_ERROR)
    {
      hide EndsAt, Faithful, Reads, Passes, Peeked, U32, S32, Available, BytesOf, SM.Overlay, SeekAnswered;
      hide GivesUp, Sated, IsBound, BoundFrom, Attempts, TrailAfter, TimeAfter, AnswerOf, EndedWait, With;
      ghost var start, stale := trail, bufStatus == BufStart && StaleReport(View());
      var wantSectorGap := S32(U32(requestSector - lastSector));
      var wantSampleSize := PlanRead(sectorSize);
      Decide(wantSectorGap, wantSampleSize);
      ghost var decided, cold := trail, !(bufStatus == BufStop && enabled);
      var res;
      res, tries := Acquire(startAddr, wantSampleSize);
      lres := res;
      ReadsColder(decided, trail, cold, !stale);
      ReadsBoth(start, decided, trail, !stale);
      end, words := Unanswered, [];
      if res >= 0 {
        end, words := CopyOut(at, wantSampleSize);
      } else if res != BUFFERING_TIME_OUT {
        end := Size(res);
      }
    }

    /** How the end of CD_ReadData follows from the last attempt's answer. */
    predicate Tells(end: ReadEnd, lres: int, tries: nat)
    {
      if lres >= 0 then end.OutOfBounds? || (end.Size? && end.size > 0)
      else if lres == BUFFERING_TIME_OUT then end.Unanswered? && tries == patience + 1
      else end == Size(lres)
    }

    // ----- the recovery loop: one visit to a label

    /** The local variables of CD_DescrambleSector, the cursors as offsets into the chunk buffer. */
    ghost predicate Mirrors(m: SM.Machine, v: Locals)
      reads this`researchCnt, this`pickupSeek, this`lastSector, this`bufStatus, chunk
    {
      && m.buf == chunk[..] && m.src == v.src && m.dst == v.dst && m.used == v.used && m.goMsf == v.goMsf
      && m.kmpCnt == v.kmpCnt && m.kmpRetry == v.kmpRetry && m.c3Retry == v.c3Retry && m.frameRetry == v.frameRetry
      && m.researchCnt == researchCnt && m.pickupSeek == pickupSeek && m.lastSector == lastSector
      && m.stopped == (bufStatus == BufStop)
    }

    ghost function Wanted(startAddr: u32, sectorSize: u32): SM.Request
    {
      SM.Request(startAddr, sectorSize, descramble)
    }

    /** TRY_READ: a fresh pass, read in behind what has been delivered. */
    method TryRead(startAddr: u32, sectorSize: u32, v: Locals, ghost m: SM.Machine)
      returns (pc: SM.Label, v': Locals, ghost r: SM.ReadResult)
      requires Valid() && SM.WellShaped(m) && m.pc.TryRead? && Mirrors(m, v) && v.used <= sectorSize
      requires requestSector == startAddr
      modifies this`clock, this`enabled, this`dataCd, this`forced, this`error, this`bufStatus, this`pickupSeek
      modifies this`researchCnt, this`phase, this`trail, this`chOffset, ring`lWritePtr, ring`lReadPtr, memory, chunk
      ensures Valid() && Grown(old(trail), trail) && clock >= old(clock)
      ensures |trail.states| == |trail.events| + 1
      ensures HonestRead(world, Wanted(startAddr, sectorSize), m, r, trail,
                         Visit(old(clock), clock, |old(trail.events)|, |trail.events|, |trail.events|))
      ensures var m' := SM.ReadStep(Wanted(startAddr, sectorSize), m, r);
              pc == m'.pc && (pc.Lost? || pc.Waiting? || Mirrors(m', v'))
    {
      hide EndsAt, Faithful, Placed, Peeked, BytesOf, PlannedSectors, Reads, Passes, HonestRead, GivesUp, Available;
      hide SeekAnswered, SM.Overlay, Attempts, TrailAfter, TimeAfter, AnswerOf, With, ReadBy, SetsOut, Refused, U32;
      hide S32, StaleReport, Grown;
      var kmpCnt, src := SM.CD_KMP_RETRY_CNT, v.dst;
      var goMsf := U32(startAddr + v.used - SEEK_POSITION);
      var reqSize := sectorSize - v.used;
      v' := v.(kmpCnt := kmpCnt, src := src, goMsf := goMsf);
      ghost var was, time, before := View(), clock, trail;
      ghost var gap := WantedGap();
      ghost var c := Wanted(startAddr, sectorSize);
      var end;
      ghost var words, tries, lres;
      end, words, tries, lres := ReadData(goMsf, reqSize, src);
      match end {
        case Unanswered =>
          pc, r := SM.Waiting, SM.NoAnswer;
        case OutOfBounds =>
          pc, r := SM.Lost, SM.BadCopy;
        case Size(readSize) =>
          pc := if readSize <= 0 then SM.Returned(readSize) else SM.SearchLbn;
          r := SM.Answer(readSize, BytesOf(words), pickupSeek, bufStatus == BufStop);
      }
      ReadIsBy(world, c, m, r, before, was, trail, time, clock, tries, lres);
      ReadIsHonest(world, c, m, r, before, trail, was, View(), time, clock, tries);
    }

    // ----- the recovery loop: inside a visit to SEARCH_LBN

    /** SingleBufferUpdateReadPointer as the loop uses it. */
    method Take(samples: nat)
      requires Valid() && samples <= RING_SAMPLES
      modifies ring`lReadPtr, this`trail
      ensures Valid() && Takes(old(trail), trail, samples)
    {
      hide Taken, Brings, Faithful;
      if samples <= Available(View().ring) {
        Note(Consume(samples));
      } else {
        Note(Overtake(samples));
      }
      var _ := ring.UpdateReadPointer(samples);
    }

    /** A sector rewritten in place, by the descrambler or by the decoder. */
    method Rewrite(at: nat, sector: Sector)
      requires at + RAW_SIZE <= chunk.Length
      modifies chunk
      ensures chunk[..] == SM.Overlay(old(chunk[..]), at, sector)
    {
      for i := 0 to RAW_SIZE
        invariant forall k :: at <= k < at + i ==> chunk[k] == sector[k - at]
        invariant forall k :: 0 <= k < chunk.Length && !(at <= k < at + i) ==> chunk[k] == old(chunk[k])
      {
        chunk[at + i] := sector[i];
      }
    }

    /** The forward byte copy of the user data, source and destination overlapping: what arrives is what was there. */
    method CopyUserData(dst: nat, src: nat, lmode: byte)
      requires dst <= src && src + RAW_SIZE <= chunk.Length
      modifies chunk
      ensures chunk[..] == SM.Overlay(old(chunk[..]), dst, UserData(old(chunk[src..src + RAW_SIZE]), lmode))
      ensures var from := src + if lmode == 1 then 16 else 24; chunk[dst..dst + 2048] == old(chunk[from..from + 2048])
    {
      ghost var was, raw: Sector := chunk[..], chunk[src..src + RAW_SIZE];
      ghost var data, from := UserData(raw, lmode), DataOffset(lmode);
      for copyPointer := 0 to SECTOR_SIZE
        invariant forall k :: dst <= k < dst + copyPointer ==> chunk[k] == data[k - dst]
        invariant forall k :: 0 <= k < chunk.Length && !(dst <= k < dst + copyPointer) ==> chunk[k] == old(chunk[k])
      {
        assert data[copyPointer] == raw[from + copyPointer] == old(chunk[src + (copyPointer + from)]);
        if lmode == 1 {
          chunk[dst + copyPointer] := chunk[src + (copyPointer + 16)];
        } else {
          chunk[dst + copyPointer] := chunk[src + (copyPointer + 24)];
        }
      }
      CopiedFrom(was, dst, src, raw, lmode);
      assert chunk[..] == SM.Overlay(was, dst, data);
    }

    /** The decoded sector goes out and both cursors move on. */
    method Deliver(startAddr: u32, sectorSize: u32, v: Locals, lmode: byte, ghost m: SM.Machine, ghost raw: Sector,
                   ghost x: SM.Look)
      returns (pc: SM.Label, v': Locals)
      requires Valid() && SM.WellShaped(m) && m.pc.SearchLbn? && Mirrors(m, v) && v.src + RAW_SIZE <= chunk.Length
      requires chunk[v.src..v.src + RAW_SIZE] == x.decoded
      modifies this`lastSector, this`trail, ring`lReadPtr, chunk
      ensures Valid()
      ensures var m' := SM.Deliver(Wanted(startAddr, sectorSize), m, raw, lmode, x);
              pc == m'.pc && Mirrors(m', v') && Takes(old(trail), trail, m'.log.consumed - m.log.consumed)
    {
      hide EndsAt, Faithful, Takes, U32, SM.Overlay, UserData;
      CopyUserData(v.dst, v.src, lmode);
      lastSector := U32(startAddr + v.used);
      Take(RAW_SIZE / 4);
      v' := v.(src := v.src + RAW_SIZE, dst := v.dst + SECTOR_SIZE, frameRetry := SM.CD_RETRY_CNT, used := v.used + 1);
      pc := if v'.used < sectorSize then SM.SearchLbn else SM.Returned(SECTOR_SIZE);
    }

    /** C3_decoder: a verdict on the sector at the source cursor, and the sector rewritten in place. */
    method Decode(v: Locals, ghost m: SM.Machine) returns (c3: int, ghost decoded: Sector)
      requires Valid() && Mirrors(m, v) && v.src + RAW_SIZE <= chunk.Length
      modifies this`clock, this`enabled, this`dataCd, this`forced, this`error, this`trail, ring`lWritePtr, memory, chunk
      ensures Valid() && Takes(old(trail), trail, 0) && clock == old(clock) + 1
      ensures Verdict(c3, decoded) == world(old(clock)).decoder(old(chunk[v.src..v.src + RAW_SIZE]))
      ensures Mirrors(m.(buf := SM.Overlay(m.buf, m.src, decoded)), v) && chunk[v.src..v.src + RAW_SIZE] == decoded
    {
      hide EndsAt, Faithful, Passes, Takes, Reads, SM.Overlay;
      var w := Observe();
      PassesIs(old(trail), trail, true);
      var verdict := w.decoder(chunk[v.src..v.src + RAW_SIZE]);
      Rewrite(v.src, verdict.sector);
      RewrittenIs(old(chunk[..]), v.src, verdict.sector);
      c3, decoded := verdict.c3, verdict.sector;
    }

    /** The frame asked for: decode, and deliver unless the decoder fails and may be asked again. */
    method Match(startAddr: u32, sectorSize: u32, v: Locals, lmode: byte, ghost m: SM.Machine, ghost raw: Sector,
                 ghost x: SM.Look)
      returns (pc: SM.Label, v': Locals)
      requires Valid() && SM.WellShaped(m) && m.pc.SearchLbn? && Mirrors(m, v) && v.src + RAW_SIZE <= chunk.Length
      requires Verdict(x.c3, x.decoded) == world(clock).decoder(chunk[v.src..v.src + RAW_SIZE])
      modifies this`clock, this`enabled, this`dataCd, this`forced, this`error, this`bufStatus, this`lastSector
      modifies this`trail, ring`lWritePtr, ring`lReadPtr, memory, chunk
      ensures Valid() && clock == old(clock) + 1
      ensures var m' := SM.Matched(Wanted(startAddr, sectorSize), m, raw, lmode, x);
              pc == m'.pc && Mirrors(m', v') && Takes(old(trail), trail, m'.log.consumed - m.log.consumed)
    {
      hide EndsAt, Faithful, Takes, U32, SM.Deliver, SM.Overlay, UserData;
      MirrorsSize(m, v);
      ghost var was := trail;
      var c3, decoded := Decode(v, m);
      ghost var m', between := m.(buf := SM.Overlay(m.buf, m.src, decoded)), trail;
      v' := v;
      if c3 < SM.CD_TRUE {
        bufStatus := BufStop;
        v' := v'.(c3Retry := v'.c3Retry - 1);
        m' := m'.(stopped := true, c3Retry := m.c3Retry - 1, log := m.log.(failures := m.log.failures + 1));
        if v'.c3Retry > 0 {
          pc := SM.TryRead;
          return;
        }
      }
      pc, v' := Deliver(startAddr, sectorSize, v', lmode, m', raw, x);
      TakesTwice(was, between, trail, 0,
                 SM.Deliver(Wanted(startAddr, sectorSize), m', raw, lmode, x).log.consumed - m.log.consumed);
    }

    /** The source cursor and the ring's read pointer together. */
    method Advance(v: Locals, bytes: nat, ghost m: SM.Machine) returns (v': Locals)
      requires Valid() && Mirrors(m, v) && bytes <= 4 * RING_SAMPLES
      modifies ring`lReadPtr, this`trail
      ensures Valid() && Mirrors(SM.Skip(m, bytes), v') && Takes(old(trail), trail, bytes / 4)
    {
      hide EndsAt, Faithful, Takes;
      v' := v.(src := v.src + bytes);
      Take(bytes / 4);
    }

    /** Give up this pass: the next read seeks. */
    method Again(v: Locals, ghost m: SM.Machine) returns (v': Locals)
      requires Mirrors(m, v)
      modifies this`bufStatus
      ensures Mirrors(SM.Retry(m), v')
    {
      v' := v;
      if pickupSeek {
        v' := v.(frameRetry := v.frameRetry - 1);
      }
      bufStatus := BufStop;
    }

    /** Another frame than the one asked for: move on a little, jump, re-seek or give up. */
    method Mismatch(v: Locals, frame: u32, request: u32, ghost m: SM.Machine, ghost available: SM.Samples)
      returns (pc: SM.Label, v': Locals)
      requires Valid() && m.pc.SearchLbn? && Mirrors(m, v) && frame != request && available == Available(ring.View())
      modifies this`bufStatus, this`trail, ring`lReadPtr
      ensures Valid()
      ensures var m' := SM.Mismatched(m, frame, request, available);
              pc == m'.pc && Mirrors(m', v') && Takes(old(trail), trail, m'.log.consumed - m.log.consumed)
    {
      hide EndsAt, Faithful, Takes, Available;
      Unmoved(trail, View(), true);
      pc, v' := SM.SearchLbn, v;
      if frame > request {
        if v.frameRetry <= 0 {
          return SM.Returned(SM.FRAME_OVER), v;
        }
        if researchCnt > SM.PREVIOUS_DATA_SKIP_COUNT {
          v' := Again(v, m);
          pc := SM.TryRead;
        } else {
          v' := Advance(v, SECTOR_SIZE, m);
        }
      } else {
        if v.frameRetry <= 0 {
          return SM.Returned(SM.FRAME_UNDER), v;
        }
        var secdiff := request - frame;
        var datalength := ring.DataAvailable();
        var realSector := datalength / SECTOR_SAMPLES;
        if frame < v.goMsf {
          v' := Advance(v, SECTOR_SIZE, m);
        } else if realSector >= secdiff {
          v' := Advance(v, secdiff * RAW_SIZE - MOVE_SIZE, m);
        } else if researchCnt > SM.PREVIOUS_DATA_SKIP_COUNT {
          v' := Again(v, m);
          pc := SM.TryRead;
        } else {
          v' := Advance(v, SECTOR_SIZE, m);
        }
      }
    }

    /** Descramble the sector at the source cursor and read its header. */
    method ReadHeader(v: Locals, ghost m: SM.Machine) returns (lmode: byte, frame: u32, ghost plain: Sector)
      requires Mirrors(m, v) && v.src + RAW_SIZE <= chunk.Length
      modifies this`researchCnt, chunk
      ensures plain == descramble(SM.RawAt(m)) && frame == FrameOf(plain) && lmode == ModeOf(plain)
      ensures Mirrors(SM.Descrambled(m, plain), v) && chunk[v.src..v.src + RAW_SIZE] == plain
    {
      hide SM.Overlay;
      var sector := descramble(chunk[v.src..v.src + RAW_SIZE]);
      plain := sector;
      Rewrite(v.src, sector);
      RewrittenIs(old(chunk[..]), v.src, sector);
      assert chunk[v.src..v.src + RAW_SIZE] == plain;
      lmode := chunk[v.src + 15];
      frame := MsfTime.HeaderFrame(chunk[v.src + 12], chunk[v.src + 13], chunk[v.src + 14]);
      researchCnt := researchCnt + 1;
    }

    /** The source cursor at a sync: descramble, read the header, compare. */
    method Inspect(startAddr: u32, sectorSize: u32, v: Locals, ghost m: SM.Machine, ghost x: SM.Look)
      returns (pc: SM.Label, v': Locals)
      requires Valid() && SM.WellShaped(m) && m.pc.SearchLbn? && Mirrors(m, v) && v.src + RAW_SIZE <= chunk.Length
      requires x.available == Available(ring.View())
      requires Verdict(x.c3, x.decoded) == world(clock).decoder(descramble(SM.RawAt(m)))
      modifies this`clock, this`enabled, this`dataCd, this`forced, this`error, this`bufStatus, this`lastSector
      modifies this`researchCnt, this`trail, ring`lWritePtr, ring`lReadPtr, memory, chunk
      ensures Valid()
      ensures clock == old(clock) + if FrameOf(descramble(SM.RawAt(m))) == U32(startAddr + m.used) then 1 else 0
      ensures var m' := SM.Inspect(Wanted(startAddr, sectorSize), m, x);
              pc == m'.pc && Mirrors(m', v') && Takes(old(trail), trail, m'.log.consumed - m.log.consumed)
    {
      hide EndsAt, Faithful, Takes, U32, Mirrors, Available, SM.Matched, SM.Mismatched, SM.Descrambled, FrameOf, ModeOf;
      MirrorsSize(m, v);
      var lmode, frame, plain := ReadHeader(v, m);
      ghost var header := SM.Descrambled(m, plain);
      HeaderFields(m, plain);
      MirrorsUsed(header, v);
      var request := U32(startAddr + v.used);
      if frame == request {
        pc, v' := Match(startAddr, sectorSize, v, lmode, header, SM.RawAt(m), x);
      } else {
        pc, v' := Mismatch(v, frame, request, header, x.available);
      }
    }

    lemma MirrorsUsed(m: SM.Machine, v: Locals)
      requires Mirrors(m, v)
      ensures m.used == v.used && m.stopped == (bufStatus == BufStop)
    {
    }

    lemma MirrorsSize(m: SM.Machine, v: Locals)
      requires Mirrors(m, v)
      ensures m.buf == chunk[..] && m.src == v.src && m.kmpCnt == v.kmpCnt
    {
    }

    lemma MirrorsSame(m: SM.Machine, m': SM.Machine, v: Locals)
      requires Mirrors(m, v) && m' == m.(pc := m'.pc, log := m'.log)
      ensures Mirrors(m', v)
    {
    }

    /** Both cursors move to a sync k bytes on, and time passes. */
    method MoveToSync(v: Locals, k: nat, ghost m: SM.Machine) returns (v': Locals)
      requires Valid() && Mirrors(m, v) && k <= RAW_SIZE
      modifies this`clock, this`enabled, this`dataCd, this`forced, this`error, this`trail
      modifies ring`lWritePtr, ring`lReadPtr, memory
      ensures Valid() && Takes(old(trail), trail, k / 4) && clock == old(clock) + 1
      ensures Mirrors(SM.Found(SM.Scanned(m), k), v')
    {
      hide EndsAt, Faithful, Takes, Passes, Reads, Mirrors, SM.Skip, SM.Scanned, SM.Found;
      ghost var found, was := SM.Found(SM.Scanned(m), k), trail;
      ScannedFields(m);
      FoundFields(SM.Scanned(m), k);
      MirrorsSame(m, SM.Scanned(m), v);
      v' := Advance(v, k, SM.Scanned(m));
      MirrorsSame(SM.Skip(SM.Scanned(m), k), found, v');
      ghost var moved := trail;
      var _ := Observe();
      PassesIs(moved, trail, true);
      TakesTwice(was, moved, trail, k / 4, 0);
    }

    /** SEARCH_LBN with a sync k bytes on: both cursors move there, and the sector is inspected. Where the trail has
        got to when force stop and the fill level are looked at is handed out too. */
    method AtSync(startAddr: u32, sectorSize: u32, v: Locals, k: nat, ghost m: SM.Machine, ghost time: nat)
      returns (pc: SM.Label, v': Locals, ghost x: SM.Look, ghost at: Trail, ghost s: State)
      requires Valid() && SM.WellShaped(m) && m.pc.SearchLbn? && m.src + RAW_SIZE <= |m.buf| && clock == time + 1
      requires k == SM.SyncOffset(m, world(time).granted) && k <= RAW_SIZE && Mirrors(m, v)
      modifies this`clock, this`enabled, this`dataCd, this`forced, this`error, this`bufStatus, this`lastSector
      modifies this`researchCnt, this`trail, ring`lWritePtr, ring`lReadPtr, memory, chunk
      ensures Valid() && Takes(old(trail), at, k / 4) && EndsAt(at, s) && 0 <= Available(s.ring) < RING_SAMPLES
      ensures x == LookNow(world, Wanted(startAddr, sectorSize), m, time, s)
      ensures clock == time + Looks(Wanted(startAddr, sectorSize), m, x) && Brings(Searching, at, trail)
      ensures var m' := SM.SearchStep(Wanted(startAddr, sectorSize), m, x);
              && pc == m'.pc
              && (pc.Lost? || (Mirrors(m', v') && Takes(at, trail, m'.log.consumed - m.log.consumed - k / 4)))
    {
      hide EndsAt, Faithful, Takes, Brings, Mirrors, Available, Looks, Opened, SM.Inspect, SM.SyncOffset, SM.Scanned;
      hide SM.Found;
      hide SM.SearchStep, U32, FrameOf;
      ghost var c, found := Wanted(startAddr, sectorSize), SM.Found(SM.Scanned(m), k);
      FoundShape(m, world(time).granted, k);
      v' := MoveToSync(v, k, m);
      at, s := trail, View();
      AvailableHere(at, s);
      Unmoved(at, s, true);
      TakesBrings(at, at, 0);
      x := LookNow(world, c, m, time, s);
      MirrorsSize(found, v');
      HitLooks(c, m, x, k);
      if forced {
        MirrorsSame(found, SM.SearchStep(c, m, x), v');
        pc := SM.Returned(CD_FORCE_STOP);
      } else if v'.src + RAW_SIZE > chunk.Length {
        pc := SM.Lost;
      } else {
        OpenedAt(c, m, x.granted, k);
        pc, v' := Inspect(startAddr, sectorSize, v', found, x);
        TakesBrings(at, trail, SM.Inspect(c, found, x).log.consumed - found.log.consumed);
      }
    }

    /** SEARCH_LBN without a sync: on to the next stretch, or give up this pass, or the call. */
    method NoSync(v: Locals, ghost m: SM.Machine) returns (pc: SM.Label, v': Locals)
      requires Valid() && m.pc.SearchLbn? && Mirrors(m, v)
      modifies this`bufStatus, this`trail, ring`lReadPtr
      ensures Valid()
      ensures var m' := SM.Missed(m);
              pc == m'.pc && Mirrors(m', v') && Takes(old(trail), trail, m'.log.consumed - m.log.consumed)
    {
      hide EndsAt, Faithful, Takes;
      Unmoved(trail, View(), true);
      if v.kmpCnt > 0 {
        v' := Advance(v, SECTOR_SIZE, m);
        v' := v'.(kmpCnt := v.kmpCnt - 1);
        pc := SM.SearchLbn;
      } else {
        bufStatus := BufStop;
        v' := v.(kmpRetry := v.kmpRetry - 1);
        pc := if v'.kmpRetry > 0 then SM.TryRead else SM.Returned(SM.KMP_ERROR);
      }
    }

    /** The search itself: for the first sync in one sector's length. */
    method Scan(v: Locals, ghost m: SM.Machine) returns (res: int)
      requires Valid() && Mirrors(m, v) && m.src + RAW_SIZE <= |m.buf|
      modifies this`clock, this`enabled, this`dataCd, this`forced, this`error, this`trail, ring`lWritePtr, memory
      ensures Valid() && Takes(old(trail), trail, 0) && clock == old(clock) + 1 && Mirrors(m, v)
      ensures res == SM.SyncOffset(m, world(old(clock)).granted) && -1 <= res <= RAW_SIZE
    {
      hide EndsAt, Faithful, Takes, Passes, Reads, Find, SM.SyncOffset, Witnessed;
      var w := Observe();
      PassesIs(old(trail), trail, true);
      var r, _ := KmpPatternSearch(chunk, v.src, RAW_SIZE, SYNC, w.granted);
      SyncIs(m, w.granted, r, chunk[..]);
      res := r;
    }

    /** SEARCH_LBN: look for a sync in one sector's length. */
    method SearchLbn(startAddr: u32, sectorSize: u32, v: Locals, ghost m: SM.Machine)
      returns (pc: SM.Label, v': Locals, ghost x: SM.Look, ghost vis: Visit)
      requires Valid() && SM.WellShaped(m) && m.pc.SearchLbn? && Mirrors(m, v)
      modifies this`clock, this`enabled, this`dataCd, this`forced, this`error, this`bufStatus, this`lastSector
      modifies this`researchCnt, this`trail, ring`lWritePtr, ring`lReadPtr, memory, chunk
      ensures Valid() && Grown(old(trail), trail) && |trail.states| == |trail.events| + 1
      ensures Spans(vis, old(clock), clock, old(trail), trail)
      ensures HonestLook(world, Wanted(startAddr, sectorSize), m, x, trail, vis)
      ensures var m' := SM.SearchStep(Wanted(startAddr, sectorSize), m, x);
              pc == m'.pc && (pc.Lost? || Mirrors(m', v'))
    {
      hide EndsAt, Faithful, Takes, Grown, Brings, Mirrors, Available, Looks, SyncSamples, HonestLook;
      hide Opened, Spans;
      hide SM.SyncOffset, SM.Missed, SM.SearchStep, SM.Scanned, SM.Found, SM.Skip;
      ghost var c, was, time, at, s := Wanted(startAddr, sectorSize), trail, clock, trail, View();
      AvailableHere(was, s);
      Unmoved(was, s, true);
      MirrorsSize(m, v);
      v', x := v, LookNow(world, c, m, time, s);
      if v.src + RAW_SIZE > chunk.Length {
        SearchOff(c, m, x);
        pc := SM.Lost;
        TakesBrings(was, was, 0);
        vis := LookIsHonest(world, c, m, x, was, s, at, s, trail, View(), time, clock, 0);
        return;
      }
      var res := Scan(v, m);
      at, s := trail, View();
      AvailableHere(at, s);
      if res < 0 {
        x := LookNow(world, c, m, time, s);
        ghost var scanned := SM.Scanned(m);
        ScannedFields(m);
        MirrorsSame(m, scanned, v);
        pc, v' := NoSync(v, scanned);
        SearchMiss(c, m, x, res);
        SyncLooks(c, m, x, res);
        TakesBrings(at, trail, SM.Missed(scanned).log.consumed - m.log.consumed);
        vis := LookIsHonest(world, c, m, x, was, old(View()), at, s, trail, View(), time, clock,
                            SM.Missed(scanned).log.consumed - m.log.consumed);
      } else {
        ghost var between := trail;
        pc, v', x, at, s := AtSync(startAddr, sectorSize, v, res, m, time);
        TakesTwice(was, between, at, 0, res / 4);
        SyncLooks(c, m, x, res);
        vis := LookIsHonest(world, c, m, x, was, old(View()), at, s, trail, View(), time, clock,
                            if pc.Lost? then 0 else SM.SearchStep(c, m, x).log.consumed - m.log.consumed - res / 4);
      }
    }

    // ----- whole calls

    /** A visit to either label. */
    method VisitLabel(startAddr: u32, sectorSize: u32, pc: SM.Label, v: Locals, ghost m: SM.Machine)
      returns (pc': SM.Label, v': Locals, ghost x: SM.Input, ghost vis: Visit)
      requires Valid() && SM.WellShaped(m) && m.pc == pc && SM.Active(m) && Mirrors(m, v)
      requires RetryBound.Thrifty(Wanted(startAddr, sectorSize), m) && requestSector == startAddr
      modifies this`clock, this`enabled, this`dataCd, this`forced, this`error, this`bufStatus, this`pickupSeek
      modifies this`researchCnt, this`phase, this`trail, this`chOffset, this`lastSector
      modifies ring`lWritePtr, ring`lReadPtr, memory, chunk
      ensures Valid() && Grown(old(trail), trail) && |trail.states| == |trail.events| + 1
      ensures Spans(vis, old(clock), clock, old(trail), trail)
      ensures HonestStep(world, Wanted(startAddr, sectorSize), m, x, trail, vis)
      ensures var m' := SM.Step(Wanted(startAddr, sectorSize), m, x);
              pc' == m'.pc && (pc'.Lost? || pc'.Waiting? || Mirrors(m', v'))
    {
      hide EndsAt, Faithful, Mirrors, SM.ReadStep, SM.SearchStep, RetryBound.Thrifty, HonestRead, HonestLook, Placed;
      UsedFits(Wanted(startAddr, sectorSize), m);
      MirrorsUsed(m, v);
      x := SM.Input(SM.NoAnswer, SM.Look(true, false, 1, seq(RAW_SIZE, _ => 0), 0));
      if pc.TryRead? {
        ghost var r;
        pc', v', r := TryRead(startAddr, sectorSize, v, m);
        x := x.(read := r);
        vis := Visit(old(clock), clock, |old(trail.events)|, |trail.events|, |trail.events|);
      } else {
        ghost var y;
        pc', v', y, vis := SearchLbn(startAddr, sectorSize, v, m);
        x := x.(look := y);
      }
    }

    /** CD_Research_Frame: make what is left in the ring begin with the request, if it reaches that far. */
    method ResearchFrame(startAddr: u32)
      requires Valid()
      modifies this`requestSector, this`bufStatus, this`trail, ring`lReadPtr
      ensures Valid() && requestSector == startAddr && Brings(Skipping, old(trail), trail)
      ensures match SM.ResearchFrame(old(bufStatus) == BufStop, startAddr, lastSector, old(Available(ring.View())))
              case Drop(n) =>
                && Allowed(old(View()), Consume(n)) && trail == Extended(old(trail), old(View()), Consume(n))
                && bufStatus == BufStart
              case Reseek => bufStatus == BufStop && trail == old(trail)
              case Leave => bufStatus == old(bufStatus) && trail == old(trail)
    {
      hide Brings, Taken, Faithful;
      requestSector := startAddr;
      BringsNothing(Skipping, trail, View());
      if bufStatus == BufStart {
        var secdiff := S32(U32(startAddr - lastSector - 1));
        if secdiff >= 0 {
          var datalength := ring.DataAvailable();
          var realSector := datalength / SECTOR_SAMPLES;
          if realSector > secdiff {
            Note(Consume(secdiff * RAW_SIZE / 4));
            var _ := ring.UpdateReadPointer(secdiff * RAW_SIZE / 4);
          } else {
            bufStatus := BufStop;
          }
        }
      }
    }

    /** The loop of CD_DescrambleSector, from the first TRY_READ to the return. */
    method Recover(startAddr: u32, sectorSize: u32, ghost m0: SM.Machine)
      returns (res: SM.Label, ghost xs: seq<SM.Input>, ghost vs: seq<Visit>)
      requires Valid() && Provenance.Begins(Wanted(startAddr, sectorSize), m0)
      requires RetryBound.Thrifty(Wanted(startAddr, sectorSize), m0) && requestSector == startAddr
      requires Mirrors(m0, Locals(0, 0, 0, 0, SM.CD_KMP_RETRY_CNT, SM.CD_KMP_RETRY_CNT, SM.CD_C3_CNT, SM.CD_RETRY_CNT))
      modifies this`clock, this`enabled, this`dataCd, this`forced, this`error, this`bufStatus, this`pickupSeek
      modifies this`researchCnt, this`phase, this`trail, this`chOffset, this`lastSector
      modifies ring`lWritePtr, ring`lReadPtr, memory, chunk
      ensures Valid() && Grown(old(trail), trail) && Told(world, Wanted(startAddr, sectorSize), m0, xs, trail, vs)
      ensures |xs| == |vs| && vs != [] && vs[0].begin == |old(trail.events)| && vs[|vs| - 1].end == |trail.events|
      ensures vs[0].time == old(clock) && vs[|vs| - 1].done == clock
      ensures var r := SM.Run(Wanted(startAddr, sectorSize), m0, xs);
              && !SM.Active(r) && r.pc == res
              && r.log.passes <= 3 * RetryBound.Target(Wanted(startAddr, sectorSize)) + 4
              && (res.Returned? ==> LeftAs(r))
    {
      hide EndsAt, Faithful, Mirrors, SM.Step, SM.Run, RetryBound.Thrifty, RetryBound.Rank, HonestStep, Told;
      ghost var c, m := Wanted(startAddr, sectorSize), m0;
      xs, vs := [], [];
      CallBegins(world, c, m0, trail);
      var pc := SM.TryRead;
      var v := Locals(0, 0, 0, 0, SM.CD_KMP_RETRY_CNT, SM.CD_KMP_RETRY_CNT, SM.CD_C3_CNT, SM.CD_RETRY_CNT);
      while pc.TryRead? || pc.SearchLbn?
        invariant Valid() && SM.WellShaped(m0) && SM.WellShaped(m) && m == SM.Run(c, m0, xs) && m.pc == pc
        invariant RetryBound.Thrifty(c, m) && (pc.Lost? || pc.Waiting? || Mirrors(m, v))
        invariant Grown(old(trail), trail) && |vs| == |xs| && Told(world, c, m0, xs, trail, vs)
        invariant vs == [] ==> pc.TryRead? && clock == old(clock) && trail == old(trail)
        invariant vs != [] ==> vs[0].begin == |old(trail.events)| && vs[0].time == old(clock)
        invariant vs != [] ==> vs[|vs| - 1].end == |trail.events| && vs[|vs| - 1].done == clock
        decreases RetryBound.Rank(c, m)
      {
        ghost var before := trail;
        ghost var x, vis;
        pc, v, x, vis := VisitLabel(startAddr, sectorSize, pc, v, m);
        OneStep(c, m0, m, xs, x);
        ToldAppend(world, c, m0, xs, before, vs, x, trail, vis);
        m, xs, vs := SM.Step(c, m, x), xs + [x], vs + [vis];
      }
      res := pc;
      if res.Returned? { MirrorsEnd(m, v); }
      RetryBound.PassesBounded(c, m);
    }

    /** What a call leaves for the next one, whatever has come of it. */
    ghost predicate LeftAs(m: SM.Machine)
      reads this`researchCnt, this`pickupSeek, this`lastSector, this`bufStatus, chunk
    {
      && chunk[..] == m.buf && lastSector == m.lastSector && (bufStatus == BufStop <==> m.stopped)
      && researchCnt == m.researchCnt && pickupSeek == m.pickupSeek
    }

    /** The first part of CD_DescrambleSector: unless force stop is set, make use of what is left in the ring. */
    method Prepare(startAddr: u32) returns (stop: bool)
      requires Valid()
      modifies this`clock, this`enabled, this`dataCd, this`forced, this`error, this`bufStatus, this`requestSector
      modifies this`trail, ring`lWritePtr, ring`lReadPtr, memory
      ensures Valid() && Grown(old(trail), trail) && clock == old(clock) + 1
      ensures stop <==> forced
      ensures stop <==> ForceSeen(Witnessed(old(trail), world(old(clock)).happenings))
      ensures stop ==> trail == Witnessed(old(trail), world(old(clock)).happenings) && Passes(old(trail), trail)
      ensures stop ==> bufStatus == old(bufStatus) && requestSector == old(requestSector)
      ensures !stop ==> Brings(Skipping, old(trail), trail) && requestSector == startAddr
      ensures !stop ==> Researched(startAddr, lastSector, old(bufStatus) == BufStop, bufStatus == BufStop, trail,
                                  |old(trail.events)|, |trail.events|)
    {
      hide EndsAt, Faithful, SM.ResearchFrame, Passes, Brings, Available, Witnessed, ForceSeen;
      ghost var was := trail;
      var _ := Observe();
      PassesGrow(was, trail);
      SeenAt(trail, View(), 0);
      if forced {
        return true;
      }
      ghost var between, s := trail, View();
      AvailableHere(between, s);
      ResearchFrame(startAddr);
      BringsTwice(Skipping, was, between, trail);
      BringsGrow(Skipping, was, trail);
      ItIsResearched(startAddr, lastSector, old(bufStatus) == BufStop, bufStatus == BufStop, was, between, s, trail,
                     View());
      return false;
    }

    /** CD_DescrambleSector. Unless a force stop ends it at once, it runs the recovery loop of SectorMachine to its
        end on what the ring holds and what the world answers, and reads the deck at most 3n + 4 times. Of a
        successful call every slot is accounted for. In calm, with the disc left in place, no read short and the
        cursor inside what was read, the ring goes through a quiet stretch and is calm again, and every sector
        delivered is of the stream captured. When that is a stream of a disc's sectors and the decoder repairs what it
        is given, the call succeeds, with every slot as on the disc. */
    method DescrambleSector(startAddr: u32, sectorSize: u32)
      returns (res: SM.Label, ghost m0: SM.Machine, ghost xs: seq<SM.Input>, ghost vs: seq<Visit>)
      requires Valid()
      modifies this`clock, this`enabled, this`dataCd, this`forced, this`error, this`bufStatus, this`pickupSeek
      modifies this`researchCnt, this`phase, this`trail, this`chOffset, this`lastSector, this`requestSector
      modifies ring`lWritePtr, ring`lReadPtr, memory, chunk
      ensures Valid() && Grown(old(trail), trail) && SM.WellShaped(m0)
      ensures m0 == SM.Start(old(chunk[..]), old(researchCnt), old(pickupSeek), m0.stopped, old(lastSector))
      ensures xs == [] <==> ForceSeen(Witnessed(old(trail), world(old(clock)).happenings))
      ensures xs == [] ==>
                && res == SM.Returned(CD_FORCE_STOP) && forced && chunk[..] == old(chunk[..])
                && trail == Witnessed(old(trail), world(old(clock)).happenings) && Passes(old(trail), trail)
                && bufStatus == old(bufStatus) && lastSector == old(lastSector) && requestSector == old(requestSector)
                && researchCnt == old(researchCnt) && pickupSeek == old(pickupSeek) && chOffset == old(chOffset)
      ensures xs != [] ==>
                var c := Wanted(startAddr, sectorSize);
                && ManyCalls.Follows(world, old(trail), old(lastSector), old(bufStatus) == BufStop, c, m0, xs, trail,
                                     View(), vs)
                && SM.Run(c, m0, xs).pc == res && SM.Run(c, m0, xs).log.passes <= 3 * RetryBound.Target(c) + 4
                && vs != [] && old(clock) < vs[0].time && vs[|vs| - 1].done == clock && requestSector == startAddr
      ensures xs != [] && res.Returned? ==>
                var c := Wanted(startAddr, sectorSize);
                LeftAs(SM.Run(c, m0, xs)) && Outcomes.Explained(world, c, m0, xs, trail, vs, res.code)
      ensures res == SM.Returned(SECTOR_SIZE) ==>
                var c := Wanted(startAddr, sectorSize);
                && SECTOR_SIZE * sectorSize <= chunk.Length
                && forall i | 0 <= i < sectorSize :: Handed(world, c, m0, xs, trail, vs, i, InOrder.Slot(chunk[..], i))
      ensures SentBytes.InCalm(Wanted(startAddr, sectorSize), m0, xs, trail, vs, |old(trail.events)|) ==>
                Quiet(trail, |old(trail.events)|, |trail.events|) && Calm(View())
      ensures forall q, i: nat ::
                var c := Wanted(startAddr, sectorSize);
                SentBytes.InCalm(c, m0, xs, trail, vs, |old(trail.events)|) && res == SM.Returned(SECTOR_SIZE)
                && Refines(old(View()), q) && i < sectorSize ==>
                  SentBytes.Sent(world, c, m0, xs, trail, vs, |old(trail.events)|, q, i)
      ensures forall d, q, lead: nat, es, f0 ::
                var c := Wanted(startAddr, sectorSize);
                DiscCalls.Plays(world, c, d, m0, xs, trail, vs, |old(trail.events)|, q, lead, es, f0) ==>
                  DiscCalls.Fulfilled(c, d, m0, xs, trail, |old(trail.events)|, q, lead + RAW_SIZE * |es|, f0)
    {
      hide EndsAt, Faithful, Mirrors, SM.Run, SM.Start, SM.ResearchFrame, Step, RetryBound.Thrifty, RetryBound.Target;
      hide Passes, Brings, Provenance.Begins, Told, Handed, Quiet, Calm, Available, Researched, Refines;
      hide SentBytes.InCalm, SentBytes.Sent, ManyCalls.Follows, Outcomes.Explained, Witnessed, ForceSeen;
      hide DiscCalls.Plays, DiscCalls.Fulfilled, DiscCalls.IsCall;
      ghost var c, was := Wanted(startAddr, sectorSize), trail;
      var stop := Prepare(startAddr);
      m0, xs, vs := Begun(chunk[..], researchCnt, pickupSeek, bufStatus == BufStop, lastSector, c), [], [];
      if stop {
        NoCall(world, c, m0, trail, |was.events|);
        return SM.Returned(CD_FORCE_STOP), m0, xs, vs;
      }
      MirrorsStart(Locals(0, 0, 0, 0, SM.CD_KMP_RETRY_CNT, SM.CD_KMP_RETRY_CNT, SM.CD_C3_CNT, SM.CD_RETRY_CNT));
      ghost var ready := trail;
      res, xs, vs := Recover(startAddr, sectorSize, m0);
      ItIsACall(world, c, m0, xs, was, ready, trail, View(), vs);
      Since(was, old(View()), trail, View());
      ResearchedKept(startAddr, old(lastSector), old(bufStatus) == BufStop, m0.stopped, |was.events|, ready, trail);
      ItFollows(world, was, old(lastSector), old(bufStatus) == BufStop, c, m0, xs, trail, View(), vs);
      if res.Returned? {
        Outcomes.EveryCodeIsExplained(world, c, m0, xs, trail, View(), vs, |was.events|, res.code);
      }
      if res == SM.Returned(SECTOR_SIZE) { AllHanded(world, c, m0, xs, trail, vs); }
      if SentBytes.InCalm(c, m0, xs, trail, vs, |was.events|) {
        SentBytes.CalmThroughout(world, c, m0, xs, trail, View(), vs, |was.events|);
        if res == SM.Returned(SECTOR_SIZE) { AllSent(world, c, m0, xs, trail, View(), vs, |was.events|); }
      }
      forall d, q, lead: nat, es, f0 | DiscCalls.Plays(world, c, d, m0, xs, trail, vs, |was.events|, q, lead, es, f0)
        ensures DiscCalls.Fulfilled(c, d, m0, xs, trail, |was.events|, q, lead + RAW_SIZE * |es|, f0)
      {
        DiscCalls.CallDelivers(world, c, d, m0, xs, trail, View(), vs, |was.events|, q, lead, es, f0);
      }
    }

    /** CD_ReadSector: of a successful call, however many sectors it was for, the caller receives the first sector
        only. */
    method ReadSector(startAddr: u32, sectorSize: u32, out: array<byte>)
      returns (res: SM.Label, ghost m0: SM.Machine, ghost xs: seq<SM.Input>, ghost vs: seq<Visit>)
      requires Valid() && out != chunk && out as object != memory as object && SECTOR_SIZE <= out.Length
      modifies this`clock, this`enabled, this`dataCd, this`forced, this`error, this`bufStatus, this`pickupSeek
      modifies this`researchCnt, this`phase, this`trail, this`chOffset, this`lastSector, this`requestSector
      modifies ring`lWritePtr, ring`lReadPtr, memory, chunk, out
      ensures Valid() && Grown(old(trail), trail) && out[SECTOR_SIZE..] == old(out[SECTOR_SIZE..])
      ensures m0 == SM.Start(old(chunk[..]), old(researchCnt), old(pickupSeek), m0.stopped, old(lastSector))
      ensures xs == [] <==> ForceSeen(Witnessed(old(trail), world(old(clock)).happenings))
      ensures xs == [] ==> res == SM.Returned(CD_FORCE_STOP) && chunk[..] == old(chunk[..])
      ensures xs != [] ==>
                var c := Wanted(startAddr, sectorSize);
                && ManyCalls.Follows(world, old(trail), old(lastSector), old(bufStatus) == BufStop, c, m0, xs, trail,
                                     View(), vs)
                && SM.Run(c, m0, xs).pc == res
                && (res.Returned? ==> Outcomes.Explained(world, c, m0, xs, trail, vs, res.code))
      ensures res == SM.Returned(SECTOR_SIZE) && sectorSize >= 1 ==>
                Handed(world, Wanted(startAddr, sectorSize), m0, xs, trail, vs, 0, out[..SECTOR_SIZE])
      ensures forall q ::
                var c := Wanted(startAddr, sectorSize);
                SentBytes.InCalm(c, m0, xs, trail, vs, |old(trail.events)|) && res == SM.Returned(SECTOR_SIZE)
                && Refines(old(View()), q) && sectorSize >= 1 ==>
                  SentBytes.Sent(world, c, m0, xs, trail, vs, |old(trail.events)|, q, 0)
      ensures forall d, q, lead: nat, es, f0 ::
                var c := Wanted(startAddr, sectorSize);
                DiscCalls.Plays(world, c, d, m0, xs, trail, vs, |old(trail.events)|, q, lead, es, f0) ==>
                  res == SM.Returned(SECTOR_SIZE)
                  && Extracted(out[..SECTOR_SIZE], Completeness.Plain(c, d, startAddr),
                               d.decode(Completeness.Plain(c, d, startAddr)))
      ensures res != SM.Returned(SECTOR_SIZE) ==> out[..] == old(out[..])
    {
      hide EndsAt, Faithful, SM.Run, Handed, Grown, DiscCalls.Plays, DiscCalls.Fulfilled, ManyCalls.Follows;
      hide SentBytes.InCalm, SentBytes.Sent, Refines, Outcomes.Explained, Witnessed, ForceSeen;
      hide Extracted;
      hide RetryBound.Target, Passes, Quiet, Calm;
      ghost var was := trail;
      res, m0, xs, vs := DescrambleSector(startAddr, sectorSize);
      ghost var c := Wanted(startAddr, sectorSize);
      if res == SM.Returned(SECTOR_SIZE) {
        assert sectorSize >= 1 ==> Handed(world, c, m0, xs, trail, vs, 0, InOrder.Slot(chunk[..], 0));
        for i := 0 to SECTOR_SIZE
          modifies out
          invariant forall k :: 0 <= k < i ==> out[k] == chunk[k]
          invariant forall k :: i <= k < out.Length ==> out[k] == old(out[k])
        {
          out[i] := chunk[i];
        }
        assert out[..SECTOR_SIZE] == chunk[..][SECTOR_SIZE * 0..SECTOR_SIZE * 1];
        assert out[..SECTOR_SIZE] == InOrder.Slot(SM.Run(c, m0, xs).buf, 0);
      }
      Since(was, old(View()), trail, View());
      forall d, q, lead: nat, es, f0 | DiscCalls.Plays(world, c, d, m0, xs, trail, vs, |was.events|, q, lead, es, f0)
        ensures res == SM.Returned(SECTOR_SIZE)
                  && Extracted(out[..SECTOR_SIZE], Completeness.Plain(c, d, startAddr),
                               d.decode(Completeness.Plain(c, d, startAddr)))
      {
        DiscCalls.FirstPayload(world, c, d, m0, xs, trail, vs, |was.events|, q, lead, es, f0);
      }
    }

    lemma MirrorsStart(v: Locals)
      requires chunk.Length == CHUNK_BYTES
      requires v == Locals(0, 0, 0, 0, SM.CD_KMP_RETRY_CNT, SM.CD_KMP_RETRY_CNT, SM.CD_C3_CNT, SM.CD_RETRY_CNT)
      ensures Mirrors(SM.Start(chunk[..], researchCnt, pickupSeek, bufStatus == BufStop, lastSector), v)
    {
    }

    lemma MirrorsEnd(m: SM.Machine, v: Locals)
      requires Mirrors(m, v)
      ensures LeftAs(m)
    {
    }
  }

  lemma AvailableHere(t: Trail, s: State)
    requires EndsAt(t, s)
    ensures 0 <= Available(s.ring) < RING_SAMPLES
  {
  }

  lemma CopiedFrom(buf: seq<byte>, dst: nat, src: nat, raw: Sector, lmode: byte)
    requires dst <= src && src + RAW_SIZE <= |buf| && raw == buf[src..src + RAW_SIZE]
    ensures var from := src + if lmode == 1 then 16 else 24;
            SM.Overlay(buf, dst, UserData(raw, lmode))[dst..dst + 2048] == buf[from..from + 2048]
  {
    var from := if lmode == 1 then 16 else 24;
    InOrder.Within(buf, src, src + RAW_SIZE, from, from + 2048);
    SM.OverlayParts(buf, dst, UserData(raw, lmode), dst, dst + 2048);
  }

  lemma ReadsBoth(a: Trail, b: Trail, c: Trail, cold: bool)
    requires Reads(a, b, true) && Reads(b, c, cold)
    ensures Reads(a, c, cold)
  {
    hide Reads;
    ReadsTwice(a, b, c, true, cold);
  }

  lemma ReadsColder(a: Trail, b: Trail, cold: bool, colder: bool)
    requires Reads(a, b, cold) && (colder ==> cold)
    ensures Reads(a, b, colder)
  {
  }

  lemma ReadIsBy(world: World, c: SM.Request, m: SM.Machine, r: SM.ReadResult, t: Trail, s: State, t': Trail, time: nat,
                 done: nat, tries: seq<Attempt>, lres: int)
    requires EndsAt(t, s) && m.used <= c.count && tries != []
    requires var want, address, last := WordsWanted(c, m) / 2, U32(c.start + m.used - 6), tries[|tries| - 1];
             && Attempts(world, tries, want, address) && tries[0].time == time
             && SetsOut(m.stopped, S32(U32(c.start - m.lastSector)), s, t, tries[0], want)
             && lres == AnswerOf(world, last) && t' == TrailAfter(world, last, address)
             && done == TimeAfter(world, last)
             && match r
                case Answer(size, data, sought, stopped) =>
                  && sought == last.sought && stopped == Refused(world, last)
                  && if size > 0 then lres >= 0 else data == [] && size == lres < 0 && lres != BUFFERING_TIME_OUT
                case NoAnswer => lres == BUFFERING_TIME_OUT
                case BadCopy => lres >= 0
    ensures ReadBy(world, c, m, r, t, t', time, done, tries)
  {
    hide Attempts, TrailAfter, TimeAfter, AnswerOf, With, SetsOut, WordsWanted;
    SeenAt(t, s, 0);
  }

  /** What CD_ReadData promises makes its read honest. */
  lemma ReadIsHonest(world: World, c: SM.Request, m: SM.Machine, r: SM.ReadResult, t: Trail, t': Trail, s: State,
                     s': State, time: nat, done: nat, tries: seq<Attempt>)
    requires ReadBy(world, c, m, r, t, t', time, done, tries)
    requires EndsAt(t, s) && EndsAt(t', s') && Reads(t, t', !(!m.stopped && StaleReport(s)))
    requires r.Answer? && !r.sought ==> Passes(t, t')
    requires r.Answer? && r.size > 0 ==>
               && m.used <= c.count && r.size == RAW_SIZE * PlannedSectors(c.count - m.used)
               && m.dst + r.size <= |m.buf|
               && Peeked(s'.ring, r.size / 2).Copied? && r.data == BytesOf(Peeked(s'.ring, r.size / 2).words)
               && (WaitedEnough(m, r, s') || (s'.error == BufFull && done > time + 2 * WAIT_COUNT))
    requires Answerable(world, c, m, s, time) ==>
               r.Answer? && r.size > 0 && WaitedEnough(m, r, s') && (r.sought ==> m.stopped)
    ensures Grown(t, t') && |t'.states| == |t'.events| + 1
    ensures HonestRead(world, c, m, r, t', Visit(time, done, |t.events|, |t'.events|, |t'.events|))
  {
    hide Peeked, BytesOf, Only, ColdSeeks, PlannedSectors, Answerable, WaitedEnough, ReadBy;
    assert t'.states[|t.events|] == s;
    assert UpTo(t', |t.events|) == t && UpTo(t', |t'.events|) == t';
  }

  lemma SeekStillAnswered(world: World, s: State, s': State, time: nat, samples: nat)
    requires s'.dataCd == s.dataCd && s'.forced == s.forced && s'.error == s.error
    ensures SeekAnswered(world, s, time, samples) ==> SeekAnswered(world, s', time, samples)
  {
  }

  lemma OneEnd(t: Trail, s: State, s': State)
    requires EndsAt(t, s) && EndsAt(t, s')
    ensures s == s'
  {
  }

  lemma WellPlaced(t: Trail, s: State)
    requires EndsAt(t, s)
    ensures Placed(s)
  {
  }

  lemma TakesBrings(a: Trail, b: Trail, took: int)
    requires Takes(a, b, took)
    ensures Brings(Searching, a, b)
  {
  }

  lemma BringsNothing(kind: Kind, t: Trail, s: State)
    requires EndsAt(t, s)
    ensures Brings(kind, t, t)
  {
  }

  lemma OpenedAt(c: SM.Request, m: SM.Machine, granted: bool, k: int)
    requires SM.WellShaped(m) && m.src + RAW_SIZE <= |m.buf| && k == SM.SyncOffset(m, granted) && 0 <= k
    requires m.src + k + RAW_SIZE <= |m.buf|
    ensures Opened(c, m, granted) == c.descramble(SM.RawAt(SM.Found(SM.Scanned(m), k)))
  {
    hide SM.SyncOffset;
  }

  /** What lasts from one time, and one trail, to the next. */
  ghost predicate Spans(v: Visit, time: nat, done: nat, t: Trail, t': Trail)
  {
    && v.time == time <= v.done == done
    && v.begin == |t.events| <= v.look <= v.end == |t'.events|
  }

  /** What the parts of a visit to the search promise makes it honest. */
  lemma LookIsHonest(world: World, c: SM.Request, m: SM.Machine, x: SM.Look, t: Trail, s: State, at: Trail, s': State,
                     t': Trail, s'': State, time: nat, done: nat, more: int)
    returns (v: Visit)
    requires SM.WellShaped(m) && EndsAt(t, s) && EndsAt(at, s') && EndsAt(t', s'')
    requires 0 <= Available(s'.ring) < RING_SAMPLES
    requires Takes(t, at, SyncSamples(m, x.granted)) && Brings(Searching, at, t')
    requires x == LookNow(world, c, m, time, s') && done == time + Looks(c, m, x)
    requires !SM.SearchStep(c, m, x).pc.Lost? ==>
               && Takes(at, t', more)
               && SyncSamples(m, x.granted) + more == SM.SearchStep(c, m, x).log.consumed - m.log.consumed
    ensures Spans(v, time, done, t, t') && Grown(t, t') && |t'.states| == |t'.events| + 1
    ensures HonestLook(world, c, m, x, t', v)
  {
    hide SM.SearchStep, Looks, SyncSamples, Only, TakenBy, Available, Opened, Steps;
    v := Visit(time, done, |t.events|, |at.events|, |t'.events|);
    TakesBrings(t, at, SyncSamples(m, x.granted));
    BringsTwice(Searching, t, at, t');
    TakesBounds(t, at, SyncSamples(m, x.granted));
    GrownKeeps(at, t', |t.events|, |at.events|);
    assert t'.states[|at.events|] == s';
    if !SM.SearchStep(c, m, x).pc.Lost? { TakesBounds(at, t', more); }
  }

  lemma UsedFits(c: SM.Request, m: SM.Machine)
    requires RetryBound.Thrifty(c, m) && SM.Active(m)
    ensures m.used <= c.count
  {
  }

  lemma HeaderFields(m: SM.Machine, plain: Sector)
    requires SM.WellShaped(m) && m.src + RAW_SIZE <= |m.buf|
    ensures var m' := SM.Descrambled(m, plain);
            && SM.WellShaped(m') && m'.pc == m.pc && m'.src == m.src && m'.used == m.used
            && m'.log.consumed == m.log.consumed
  {
    SM.DescrambledKeepsShape(m, plain);
  }

  lemma SearchOff(c: SM.Request, m: SM.Machine, x: SM.Look)
    requires SM.WellShaped(m) && m.src + RAW_SIZE > |m.buf|
    ensures SM.SearchStep(c, m, x).pc == SM.Lost && Looks(c, m, x) == 0 && SyncSamples(m, x.granted) == 0
  {
  }

  lemma ScannedFields(m: SM.Machine)
    ensures SM.Scanned(m) == m.(log := SM.Scanned(m).log) && SM.Scanned(m).log.consumed == m.log.consumed
  {
  }

  lemma FoundFields(m: SM.Machine, k: nat)
    ensures SM.Found(m, k) == SM.Skip(m, k).(log := SM.Found(m, k).log)
    ensures SM.Found(m, k).log.consumed == SM.Skip(m, k).log.consumed == m.log.consumed + k / 4
  {
  }

  lemma SearchMiss(c: SM.Request, m: SM.Machine, x: SM.Look, k: int)
    requires SM.WellShaped(m) && m.src + RAW_SIZE <= |m.buf| && k == SM.SyncOffset(m, x.granted) && k < 0
    ensures SM.SearchStep(c, m, x) == SM.Missed(SM.Scanned(m)) && SM.Scanned(m).log.consumed == m.log.consumed
  {
    hide SM.Inspect, SM.SyncOffset, SM.Missed;
  }

  lemma FoundShape(m: SM.Machine, granted: bool, k: int)
    requires SM.WellShaped(m) && m.src + RAW_SIZE <= |m.buf| && k == SM.SyncOffset(m, granted) && 0 <= k
    ensures var found := SM.Found(SM.Scanned(m), k);
            SM.WellShaped(found) && found.src == m.src + k && found.pc == m.pc
  {
    hide SM.SyncOffset;
  }

  /** A visit with a sync k bytes on: what it comes to, and how many looks it takes. */
  lemma HitLooks(c: SM.Request, m: SM.Machine, x: SM.Look, k: int)
    requires SM.WellShaped(m) && m.pc.SearchLbn? && m.src + RAW_SIZE <= |m.buf| && k == SM.SyncOffset(m, x.granted)
    requires 0 <= k
    ensures var found, m' := SM.Found(SM.Scanned(m), k), SM.SearchStep(c, m, x);
            && SM.WellShaped(found) && found.used == m.used && found.src == m.src + k
            && found.log.consumed == m.log.consumed + k / 4
            && (x.forceStop ==>
                  && m' == found.(pc := SM.Returned(CD_FORCE_STOP), log := m'.log)
                  && m'.log.consumed == found.log.consumed && Looks(c, m, x) == 2)
            && (!x.forceStop && m.src + k + RAW_SIZE > |m.buf| ==> m'.pc.Lost? && Looks(c, m, x) == 2)
            && (!x.forceStop && m.src + k + RAW_SIZE <= |m.buf| ==>
                  && m' == SM.Inspect(c, found, x)
                  && Looks(c, m, x) == if FrameOf(Opened(c, m, x.granted)) == U32(c.start + m.used) then 3 else 2)
  {
    hide SM.Inspect, SM.SyncOffset, Opened, FrameOf, U32;
  }

  lemma SyncLooks(c: SM.Request, m: SM.Machine, x: SM.Look, k: int)
    requires m.src + RAW_SIZE <= |m.buf| && k == SM.SyncOffset(m, x.granted)
    ensures SyncSamples(m, x.granted) == if k >= 0 then k / 4 else 0
    ensures k < 0 ==> Looks(c, m, x) == 1
  {
    hide SM.SyncOffset, Opened, FrameOf, U32;
  }


  lemma SyncIs(m: SM.Machine, granted: bool, res: int, buf: seq<byte>)
    requires m.buf == buf && m.src + RAW_SIZE <= |buf|
    requires res == if granted then Find(buf[m.src..m.src + RAW_SIZE], SYNC) else CD_FALSE
    ensures res == SM.SyncOffset(m, granted) && -1 <= res <= RAW_SIZE
  {
  }

  lemma RewrittenIs(buf: seq<byte>, at: nat, sector: Sector)
    requires at + RAW_SIZE <= |buf|
    ensures SM.Overlay(buf, at, sector)[at..at + RAW_SIZE] == sector
  {
  }

  /** The machine at the start of a call. */
  ghost function Begun(buf: seq<byte>, researchCnt: nat, pickupSeek: bool, stopped: bool, last: u32, c: SM.Request)
    : (m: SM.Machine)
    requires |buf| == CHUNK_BYTES
    ensures m == SM.Start(buf, researchCnt, pickupSeek, stopped, last)
    ensures SM.WellShaped(m) && m.buf == buf && m.lastSector == last && m.stopped == stopped && m.pc.TryRead?
    ensures Provenance.Begins(c, m) && RetryBound.Thrifty(c, m) && Lockstep.InStep(m)
  {
    RetryBound.StartIsThrifty(c, buf, researchCnt, pickupSeek, stopped, last);
    InOrder.StartIsSound(c, buf, researchCnt, pickupSeek, stopped, last);
    SM.Start(buf, researchCnt, pickupSeek, stopped, last)
  }

  lemma NoCall(world: World, c: SM.Request, m: SM.Machine, t: Trail, from: nat)
    requires SM.WellShaped(m)
    ensures forall d, q, lead: nat, es, f0 :: !DiscCalls.Plays(world, c, d, m, [], t, [], from, q, lead, es, f0)
    ensures !SentBytes.InCalm(c, m, [], t, [], from)
  {
  }

  lemma ItFollows(world: World, t0: Trail, last: u32, stopped: bool, c: SM.Request, m: SM.Machine, xs: seq<SM.Input>,
                  t: Trail, s: State, vs: seq<Visit>)
    requires Grown(t0, t) && SM.WellShaped(m) && vs != [] && |xs| == |vs| && m.lastSector == last
    requires DiscCalls.IsCall(world, c, m, xs, t, s, vs, |t0.events|)
    requires Researched(c.start, last, stopped, m.stopped, t, |t0.events|, vs[0].begin)
    ensures ManyCalls.Follows(world, t0, last, stopped, c, m, xs, t, s, vs)
  {
    hide Researched, DiscCalls.IsCall;
  }

  lemma AllSent(world: World, c: SM.Request, m: SM.Machine, xs: seq<SM.Input>, t: Trail, s: State, vs: seq<Visit>,
                from: nat)
    requires DiscCalls.IsCall(world, c, m, xs, t, s, vs, from) && SM.WellShaped(m)
    requires SentBytes.InCalm(c, m, xs, t, vs, from) && SM.Run(c, m, xs).pc == SM.Returned(SECTOR_SIZE)
    ensures from < |t.states|
    ensures forall q, i: nat | Refines(t.states[from], q) && i < c.count ::
              SentBytes.Sent(world, c, m, xs, t, vs, from, q, i)
  {
    hide DiscCalls.IsCall, SM.Run, Calm, Steady, AllFull, Lockstep.StaysInside, SentBytes.Sent, Refines, StaleReport;
    forall q, i: nat | Refines(t.states[from], q) && i < c.count
      ensures SentBytes.Sent(world, c, m, xs, t, vs, from, q, i)
    {
      SentBytes.DeliversWhatWasSent(world, c, m, xs, t, s, vs, from, q, i);
    }
  }

  /** Where an earlier trail ended. */
  lemma Since(t: Trail, s: State, t': Trail, s': State)
    requires EndsAt(t, s) && EndsAt(t', s') && Grown(t, t')
    ensures |t.events| <= |t'.events| && |t'.states| == |t'.events| + 1 && t'.states[|t.events|] == s
  {
  }

  lemma CallBegins(world: World, c: SM.Request, m: SM.Machine, t: Trail)
    requires Provenance.Begins(c, m)
    ensures SM.WellShaped(m) && m.pc.TryRead? && m == SM.Run(c, m, []) && Told(world, c, m, [], t, [])
  {
  }

  lemma PassesGrow(a: Trail, b: Trail)
    requires Passes(a, b)
    ensures Grown(a, b) && Brings(Skipping, a, b)
  {
  }

  lemma OneStep(c: SM.Request, m0: SM.Machine, m: SM.Machine, xs: seq<SM.Input>, x: SM.Input)
    requires SM.WellShaped(m0) && SM.WellShaped(m) && m == SM.Run(c, m0, xs)
    requires RetryBound.Thrifty(c, m) && SM.Active(m)
    ensures SM.WellShaped(SM.Step(c, m, x)) && SM.Step(c, m, x) == SM.Run(c, m0, xs + [x])
    ensures RetryBound.Thrifty(c, SM.Step(c, m, x))
    ensures 0 <= RetryBound.Rank(c, SM.Step(c, m, x)) < RetryBound.Rank(c, m)
  {
    hide SM.Step, RetryBound.Thrifty, RetryBound.Rank;
    SM.StepKeepsShape(c, m, x);
    RetryBound.StepThrifty(c, m, x);
    SM.RunAppend(c, m0, xs, x);
  }

  lemma BringsGrow(kind: Kind, a: Trail, b: Trail)
    requires Brings(kind, a, b)
    ensures Grown(a, b)
  {
  }

  lemma ItIsACall(world: World, c: SM.Request, m: SM.Machine, xs: seq<SM.Input>, t: Trail, t': Trail, t'': Trail,
                  s: State, vs: seq<Visit>)
    requires Provenance.Begins(c, m) && RetryBound.Thrifty(c, m) && Lockstep.InStep(m) && EndsAt(t'', s)
    requires SM.WellShaped(m) && Told(world, c, m, xs, t'', vs) && !SM.Active(SM.Run(c, m, xs))
    requires Brings(Skipping, t, t') && Grown(t', t'')
    requires vs != [] && vs[0].begin == |t'.events| && vs[|vs| - 1].end == |t''.events|
    ensures DiscCalls.IsCall(world, c, m, xs, t'', s, vs, |t.events|) && Grown(t, t'')
  {
    hide Provenance.Begins, RetryBound.Thrifty, Lockstep.InStep, Told, SM.Run, Only;
    GrownKeeps(t', t'', |t.events|, |t'.events|);
  }

  lemma AllHanded(world: World, c: SM.Request, m: SM.Machine, xs: seq<SM.Input>, t: Trail, vs: seq<Visit>)
    requires Provenance.Begins(c, m) && SM.WellShaped(m) && Told(world, c, m, xs, t, vs)
    requires SM.Run(c, m, xs).pc == SM.Returned(SECTOR_SIZE)
    ensures SECTOR_SIZE * c.count <= |SM.Run(c, m, xs).buf|
    ensures forall i | 0 <= i < c.count :: Handed(world, c, m, xs, t, vs, i, InOrder.Slot(SM.Run(c, m, xs).buf, i))
  {
    hide SM.Run, Told, Provenance.Begins, Handed;
    if c.count > 0 { CallHandsOut(world, c, m, xs, t, vs, c.count - 1); }
    forall i | 0 <= i < c.count
      ensures Handed(world, c, m, xs, t, vs, i, InOrder.Slot(SM.Run(c, m, xs).buf, i))
    {
      CallHandsOut(world, c, m, xs, t, vs, i);
    }
  }

  /** psCDBuff, pdCDBuff, usedSectNum, goMSF, kmpcnt, kmp_retry, c3_retry and frame_retry. */
  datatype Locals = Locals(
    src: nat, dst: nat, used: nat, goMsf: u32, kmpCnt: int, kmpRetry: int, c3Retry: int, frameRetry: int)

  lemma OverlayNothing(buf: seq<byte>, at: nat)
    requires at <= |buf|
    ensures SM.Overlay(buf, at, BytesOf([])) == buf
  {
  }

  /** Two copies, one right behind the other, are one. */
  lemma OverlayTwice(buf: seq<byte>, at: nat, a: seq<u16>, b: seq<u16>)
    requires at + 2 * (|a| + |b|) <= |buf|
    ensures SM.Overlay(SM.Overlay(buf, at, BytesOf(a)), at + 2 * |a|, BytesOf(b)) == SM.Overlay(buf, at, BytesOf(a + b))
  {
    assert BytesOf(a + b) == BytesOf(a) + BytesOf(b) by {
      forall k | 0 <= k < 2 * (|a| + |b|)
        ensures BytesOf(a + b)[k] == (BytesOf(a) + BytesOf(b))[k]
      {
        assert (a + b)[k / 2] == if k / 2 < |a| then a[k / 2] else b[(k - 2 * |a|) / 2];
      }
    }
  }
}