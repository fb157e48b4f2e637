/** The retries of one call: how often the deck is read, and that the search ends. */
module RetryBound {
  import opened Words
  import opened Layout
  import opened SectorMachine

  function Target(c: Request): nat { Max(c.count, 1) }

  function Left(retries: int): nat { if retries > 1 then retries - 1 else 0 }

  /** Passes the budgets still allow after the one under way: one each for the search and the decoder, which are never
      renewed; up to three for the current frame and three for each frame to come; and, before the first seek of the
      call, one that no budget counts. */
  function Allowance(c: Request, m: Machine): int
  {
    Left(m.kmpRetry) + Left(m.c3Retry) + m.frameRetry + 3 * (Target(c) - 1 - m.used) + Free(m)
  }

  function Free(m: Machine): nat
  {
    if m.log.passes == 0 || (m.log.passes == 1 && m.pc.SearchLbn? && !m.pickupSeek) then 1 else 0
  }

  ghost predicate Thrifty(c: Request, m: Machine)
  {
    && m.log.passes <= 3 * Target(c) + 4
    && (Active(m) ==> m.used < Target(c) && 0 <= m.frameRetry <= CD_RETRY_CNT)
    && (m.pc.TryRead? ==>
          && m.log.passes + 1 + Allowance(c, m) <= 3 * Target(c) + 4
          && (m.log.passes >= 1 ==> m.stopped))
    && (m.pc.SearchLbn? ==>
          && 1 <= m.log.passes && m.log.passes + Allowance(c, m) <= 3 * Target(c) + 4
          && (m.log.passes >= 2 ==> m.pickupSeek))
  }

  /** Steps still possible: a pass visits SEARCH_LBN at most 460 times, since each visit moves on by 2048 bytes or
      more. */
  function Rank(c: Request, m: Machine): int
  {
    match m.pc
    case TryRead => 461 * (Allowance(c, m) + 1)
    case SearchLbn => 461 * Allowance(c, m) + Visits(m.src)
    case _ => 0
  }

  function Visits(src: nat): (v: nat)
    ensures 1 <= v <= 460
  {
    if src + RAW_SIZE <= CHUNK_BYTES then 1 + (CHUNK_BYTES - src) / SECTOR_SIZE else 1
  }

  lemma VisitsDecrease(src: nat, src': nat)
    requires src + RAW_SIZE <= CHUNK_BYTES && src + SECTOR_SIZE <= src'
    ensures Visits(src') < Visits(src)
  {
  }

  lemma ReadThrifty(c: Request, m: Machine, r: ReadResult)
    requires WellShaped(m) && m.pc.TryRead? && Thrifty(c, m)
    ensures Thrifty(c, ReadStep(c, m, r)) && 0 <= Rank(c, ReadStep(c, m, r)) < Rank(c, m)
  {
    hide Overlay, U32;
  }

  /** What one visit to SEARCH_LBN may do to the budgets and the cursor. */
  ghost predicate Spends(c: Request, m: Machine, m': Machine)
  {
    && m'.log.passes == m.log.passes && m'.log.got == m.log.got
    && (Active(m') ==> m'.used < Target(c) && 0 <= m'.frameRetry <= CD_RETRY_CNT)
    && (m'.pc.SearchLbn? ==>
          m'.pickupSeek == m.pickupSeek && Allowance(c, m') <= Allowance(c, m) && m.src + SECTOR_SIZE <= m'.src)
    && (m'.pc.TryRead? ==> m'.stopped && Allowance(c, m') + 1 <= Allowance(c, m))
  }

  lemma MatchedSpends(c: Request, m: Machine, raw: Sector, mode: byte, x: Look)
    requires Thrifty(c, m) && m.pc.SearchLbn? && m.src + RAW_SIZE <= |m.buf| && m.dst + SECTOR_SIZE <= |m.buf|
    ensures Spends(c, m, Matched(c, m, raw, mode, x))
  {
    hide Overlay, UserData, U32;
  }

  lemma MismatchedSpends(c: Request, m: Machine, frame: u32, request: u32, available: Samples)
    requires Thrifty(c, m) && m.pc.SearchLbn? && frame != request
    ensures Spends(c, m, Mismatched(m, frame, request, available))
  {
    assert request > frame ==> (request - frame) * RAW_SIZE - MOVE_SIZE >= SECTOR_SIZE;
  }

  lemma InspectSpends(c: Request, m: Machine, x: Look)
    requires Thrifty(c, m) && m.pc.SearchLbn? && m.src + RAW_SIZE <= |m.buf| && m.dst <= m.src
    ensures Spends(c, m, Inspect(c, m, x))
  {
    hide Matched, Mismatched, Overlay, FrameOf, U32;
    var plain := c.descramble(RawAt(m));
    var m', request := Descrambled(m, plain), U32(c.start + m.used);
    if FrameOf(plain) == request {
      MatchedSpends(c, m', RawAt(m), ModeOf(plain), x);
    } else {
      MismatchedSpends(c, m', FrameOf(plain), request, x.available);
    }
  }

  lemma SearchSpends(c: Request, m: Machine, x: Look)
    requires WellShaped(m) && Thrifty(c, m) && m.pc.SearchLbn?
    ensures Spends(c, m, SearchStep(c, m, x))
    ensures SearchStep(c, m, x).pc.SearchLbn? ==> m.src + RAW_SIZE <= CHUNK_BYTES
  {
    hide Inspect, SyncOffset, Overlay, U32;
    if m.src + RAW_SIZE <= |m.buf| {
      var k := SyncOffset(m, x.granted);
      if k >= 0 && m.src + k + RAW_SIZE <= |m.buf| && !x.forceStop {
        InspectSpends(c, Found(Scanned(m), k), x);
      }
    }
  }

  lemma StepThrifty(c: Request, m: Machine, x: Input)
    requires WellShaped(m) && Thrifty(c, m) && Active(m)
    ensures Thrifty(c, Step(c, m, x)) && 0 <= Rank(c, Step(c, m, x)) < Rank(c, m)
  {
    hide ReadStep, SearchStep, Visits;
    match m.pc
    case TryRead => ReadThrifty(c, m, x.read);
    case SearchLbn =>
      var m' := SearchStep(c, m, x.look);
      SearchSpends(c, m, x.look);
      if m'.pc.SearchLbn? { VisitsDecrease(m.src, m'.src); }
  }

  lemma StartIsThrifty(c: Request, buf: seq<byte>, researchCnt: nat, pickupSeek: bool, stopped: bool, lastSector: u32)
    requires |buf| == CHUNK_BYTES
    ensures var m := Start(buf, researchCnt, pickupSeek, stopped, lastSector);
            WellShaped(m) && Thrifty(c, m) && Rank(c, m) == 461 * (3 * Target(c) + 4)
  {
  }

  /** Whatever the inputs, a call on n >= 1 sectors reads the deck at most 3n + 4 times; every read after the first
      begins with the status CD_BUF_STOP, and what is searched after it comes from a seek, so that wrong frames are
      charged to the frame budget. */
  lemma {:induction false} FewReads(c: Request, m: Machine, xs: seq<Input>)
    requires WellShaped(m) && Thrifty(c, m)
    ensures var r := Run(c, m, xs);
            && Thrifty(c, r) && r.log.passes <= 3 * Target(c) + 4
            && (r.pc.TryRead? && r.log.passes >= 1 ==> r.stopped)
            && (r.pc.SearchLbn? && r.log.passes >= 2 ==> r.pickupSeek)
    decreases |xs|
  {
    hide Step;
    if xs != [] {
      StepKeepsShape(c, m, xs[0]);
      if Active(m) {
        StepThrifty(c, m, xs[0]);
      } else {
        StaysEnded(c, m, xs[0]);
      }
      FewReads(c, Step(c, m, xs[0]), xs[1..]);
    }
  }

  lemma PassesBounded(c: Request, m: Machine)
    requires Thrifty(c, m)
    ensures m.log.passes <= 3 * Target(c) + 4
  {
  }

  lemma StaysEnded(c: Request, m: Machine, x: Input)
    requires WellShaped(m) && !Active(m)
    ensures Step(c, m, x) == m
  {
  }

  /** Every call comes to an end: so many inputs are more than enough. */
  lemma {:induction false} EveryRunEnds(c: Request, m: Machine, xs: seq<Input>)
    requires WellShaped(m) && Thrifty(c, m) && |xs| >= Rank(c, m)
    ensures !Active(Run(c, m, xs))
    decreases |xs|
  {
    hide Step, Thrifty;
    if xs == [] {
      if Active(m) { RankIsPositive(c, m); }
    } else {
      StepKeepsShape(c, m, xs[0]);
      if Active(m) {
        StepThrifty(c, m, xs[0]);
        EveryRunEnds(c, Step(c, m, xs[0]), xs[1..]);
      } else {
        StaysEnded(c, m, xs[0]);
        EveryRunEnds(c, m, xs[1..]);
      }
    }
  }

  lemma RankIsPositive(c: Request, m: Machine)
    requires Thrifty(c, m) && Active(m)
    ensures Rank(c, m) > 0
  {
    assert Allowance(c, m) >= 0;
  }
}
