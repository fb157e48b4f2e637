/** Every branch of a visit to SEARCH_LBN, in the driver's own numbers: what the visit finds decides where it goes on
    and which of the three retry budgets it is charged to. */
module Branches {
  import opened Words
  import opened Layout
  import opened SectorMachine
  import opened Completeness
  import KmpSearch

  function PlainAt(c: Request, m: Machine, at: nat): Sector
    requires at + RAW_SIZE <= |m.buf|
  {
    c.descramble(m.buf[at..at + RAW_SIZE])
  }

  /** The visit comes to a sync, the first there is. */
  ghost predicate FindsSync(m: Machine, x: Look, at: nat)
  {
    && WellShaped(m) && m.pc.SearchLbn? && x.granted
    && m.src <= at <= m.src + 2340 && m.src + RAW_SIZE <= |m.buf|
    && NoSync(m.buf, m.src, at) && Holds(m.buf, at, SYNC)
  }

  /** And force stop is not set, and the whole of the sector is in the buffer; the header then names this frame. */
  ghost predicate AtHeader(c: Request, m: Machine, x: Look, at: nat, frame: int)
  {
    FindsSync(m, x, at) && !x.forceStop && at + RAW_SIZE <= |m.buf| && Addressed(PlainAt(c, m, at), frame)
  }

  /** One header more inspected, nothing delivered, no retry used up, and that sector descrambled in its place. */
  predicate Passed(c: Request, m: Machine, m': Machine, at: nat)
    requires at + RAW_SIZE <= |m.buf|
  {
    && m'.used == m.used && m'.dst == m.dst && m'.lastSector == m.lastSector && m'.goMsf == m.goMsf
    && m'.kmpCnt == m.kmpCnt && m'.kmpRetry == m.kmpRetry && m'.c3Retry == m.c3Retry
    && m'.researchCnt == m.researchCnt + 1 && m'.pickupSeek == m.pickupSeek
    && m'.buf == Overlay(m.buf, at, PlainAt(c, m, at))
    && m'.log.passes == m.log.passes && m'.log.base == m.log.base && m'.log.got == m.log.got
    && m'.log.failures == m.log.failures && m'.log.deliveries == m.log.deliveries
  }

  /** On by so many bytes from the sync, with no change of status. */
  predicate GoesOn(m: Machine, m': Machine, src: int)
  {
    m'.pc.SearchLbn? && m'.src == src && m'.frameRetry == m.frameRetry && m'.stopped == m.stopped
  }

  /** Back to the deck: the next read seeks, and if this pass was sought for, a retry is used up. */
  predicate Reseeks(m: Machine, m': Machine)
  {
    m'.pc.TryRead? && m'.stopped && m'.frameRetry == m.frameRetry - if m.pickupSeek then 1 else 0
  }

  lemma Finds(m: Machine, x: Look, at: nat)
    requires FindsSync(m, x, at)
    ensures SyncOffset(m, x.granted) == at - m.src
  {
    var window, k := m.buf[m.src..m.src + RAW_SIZE], at - m.src;
    OccursInside(m.buf, m.src, m.src + RAW_SIZE, k);
    forall p | 0 <= p < k
      ensures !KmpSearch.OccursAt(window, SYNC, p)
    {
      OccursInside(m.buf, m.src, m.src + RAW_SIZE, p);
    }
    KmpSearch.FindIsLeast(window, SYNC, k);
  }

  lemma Opening(c: Request, m: Machine, x: Look, at: nat, frame: int)
    requires AtHeader(c, m, x, at, frame)
    ensures var found := Found(Scanned(m), at - m.src);
            && SearchStep(c, m, x) == Inspect(c, found, x) && found.src == at
            && RawAt(found) == m.buf[at..at + RAW_SIZE] && FrameOf(PlainAt(c, m, at)) == frame
  {
    hide SyncOffset, Inspect, FrameOf;
    Finds(m, x, at);
    HeaderIsAddress(PlainAt(c, m, at));
  }

  /** A read that is answered with data begins a pass, at the end of what has been delivered; one that is not ends the
      call with its answer. */
  lemma ReadAnswers(c: Request, m: Machine, r: ReadResult)
    requires WellShaped(m) && m.pc.TryRead? && r.Answer? && (r.size > 0 ==> m.dst + |r.data| <= |m.buf|)
    ensures var m', seek := ReadStep(c, m, r), m.stopped || r.sought;
            && m' == m.(pc := m'.pc, buf := m'.buf, src := m'.src, goMsf := U32(c.start + m.used - 6), kmpCnt := 2,
                        researchCnt := if seek then 0 else m.researchCnt, pickupSeek := seek, stopped := m'.stopped,
                        log := m'.log)
            && m'.log.passes == m.log.passes + 1 && m'.log.failures == m.log.failures
            && m'.log.deliveries == m.log.deliveries
            && if r.size <= 0 then m'.pc == Returned(r.size) && m'.stopped == r.stopped && m'.buf == m.buf
               else m'.pc.SearchLbn? && !m'.stopped && m'.src == m.dst && m'.buf == Overlay(m.buf, m.dst, r.data)
  {
    hide U32, Overlay;
  }

  /** Force stop is looked at behind every sync. */
  lemma ForceStopped(c: Request, m: Machine, x: Look, at: nat)
    requires FindsSync(m, x, at) && x.forceStop
    ensures SearchStep(c, m, x).pc == Returned(-9)
  {
    hide SyncOffset;
    Finds(m, x, at);
  }

  /** A frame beyond the one asked for. */
  lemma FrameBeyond(c: Request, m: Machine, x: Look, at: nat, frame: int)
    requires AtHeader(c, m, x, at, frame) && frame > U32(c.start + m.used)
    ensures var m' := SearchStep(c, m, x);
            && Passed(c, m, m', at)
            && if m.frameRetry <= 0 then m'.pc == Returned(-5)
               else if m.researchCnt >= 5 then Reseeks(m, m')
               else GoesOn(m, m', at + 2048)
  {
    hide SyncOffset, FrameOf, U32, Overlay;
    Opening(c, m, x, at, frame);
  }

  /** A frame before the one asked for: by how far, and how much the ring still holds. */
  lemma FrameBefore(c: Request, m: Machine, x: Look, at: nat, frame: int)
    requires AtHeader(c, m, x, at, frame) && frame < U32(c.start + m.used)
    ensures var m', ahead := SearchStep(c, m, x), U32(c.start + m.used) - frame;
            && Passed(c, m, m', at)
            && if m.frameRetry <= 0 then m'.pc == Returned(-6)
               else if frame < m.goMsf then GoesOn(m, m', at + 2048)
               else if x.available >= 588 * ahead then GoesOn(m, m', at + 2352 * ahead - 16)
               else if m.researchCnt >= 5 then Reseeks(m, m')
               else GoesOn(m, m', at + 2048)
  {
    hide SyncOffset, FrameOf, U32, Overlay;
    Opening(c, m, x, at, frame);
    WholeSectors(x.available, U32(c.start + m.used) - frame);
  }

  lemma WholeSectors(samples: nat, n: nat)
    ensures samples / SECTOR_SAMPLES >= n <==> samples >= 588 * n
  {
  }

  /** What a decode that has failed leaves of the budget for failures. */
  function DecodesLeft(m: Machine, x: Look): int { m.c3Retry - if x.c3 < 1 then 1 else 0 }

  /** The sector in its slot, the cursors behind it, the budget for frames full again; and the next read told to seek if
      the decoder has failed. */
  predicate GoesOut(c: Request, m: Machine, x: Look, m': Machine, at: nat)
    requires at + RAW_SIZE <= |m.buf|
  {
    && m'.used == m.used + 1 && m'.dst == m.dst + 2048 && m'.src == at + 2352 && m'.lastSector == U32(c.start + m.used)
    && m'.frameRetry == 3 && m'.kmpCnt == m.kmpCnt && m'.kmpRetry == m.kmpRetry
    && m'.dst <= |m'.buf| && Extracted(m'.buf[m.dst..m'.dst], PlainAt(c, m, at), x.decoded)
    && m'.stopped == (m.stopped || x.c3 < 1)
    && m'.pc == if m'.used < c.count then SearchLbn else Returned(2048)
  }

  /** The decoder's answer for the frame asked for: unless it has failed for the first time, the sector is delivered. */
  ghost predicate Decided(c: Request, m: Machine, x: Look, m': Machine, at: nat)
    requires at + RAW_SIZE <= |m.buf|
  {
    && m'.c3Retry == DecodesLeft(m, x) && m'.goMsf == m.goMsf && m'.pickupSeek == m.pickupSeek
    && m'.researchCnt == m.researchCnt + 1 && m'.log.passes == m.log.passes
    && m'.log.failures == m.log.failures + (if x.c3 < 1 then 1 else 0)
    && if x.c3 < 1 && DecodesLeft(m, x) > 0 then
         && m'.pc.TryRead? && m'.stopped && m'.used == m.used && m'.dst == m.dst
         && m'.lastSector == m.lastSector && m'.frameRetry == m.frameRetry && m'.kmpRetry == m.kmpRetry
         && m'.buf == Overlay(Overlay(m.buf, at, PlainAt(c, m, at)), at, x.decoded)
       else GoesOut(c, m, x, m', at)
  }

  lemma FrameMatches(c: Request, m: Machine, x: Look, at: nat, frame: int)
    requires AtHeader(c, m, x, at, frame) && frame == U32(c.start + m.used)
    ensures Decided(c, m, x, SearchStep(c, m, x), at)
  {
    hide SyncOffset, FrameOf, U32, Overlay, Matched, Decided, Descrambled, ModeOf;
    Opening(c, m, x, at, frame);
    var raw: Sector := m.buf[at..at + RAW_SIZE];
    var open := Descrambled(Found(Scanned(m), at - m.src), PlainAt(c, m, at));
    Opens(m, at, PlainAt(c, m, at));
    SlotFits(m, at);
    assert SearchStep(c, m, x) == Matched(c, open, raw, ModeOf(PlainAt(c, m, at)), x);
    Decides(c, m, open, raw, x, at);
  }

  lemma SlotFits(m: Machine, at: nat)
    requires WellShaped(m) && m.src <= at && at + RAW_SIZE <= |m.buf|
    ensures m.dst + SECTOR_SIZE <= |m.buf|
  {
  }

  /** The machine with the sector at a sync descrambled. */
  ghost predicate IsOpen(m: Machine, open: Machine, at: nat, plain: Sector)
    requires at + RAW_SIZE <= |m.buf|
  {
    && open == m.(buf := Overlay(m.buf, at, plain), src := at, researchCnt := m.researchCnt + 1, log := open.log)
    && open.log.passes == m.log.passes && open.log.failures == m.log.failures
  }

  lemma Opens(m: Machine, at: nat, plain: Sector)
    requires m.src <= at && at + RAW_SIZE <= |m.buf|
    ensures IsOpen(m, Descrambled(Found(Scanned(m), at - m.src), plain), at, plain)
  {
    hide Overlay;
  }

  lemma Decides(c: Request, m: Machine, open: Machine, raw: Sector, x: Look, at: nat)
    requires at + RAW_SIZE <= |m.buf| && m.dst + SECTOR_SIZE <= |m.buf|
    requires IsOpen(m, open, at, PlainAt(c, m, at))
    ensures Decided(c, m, x, Matched(c, open, raw, ModeOf(PlainAt(c, m, at)), x), at)
  {
    hide U32, Overlay, UserData, ModeOf, Extracted;
    UserDataIsExtracted(PlainAt(c, m, at), x.decoded);
    var data := UserData(x.decoded, ModeOf(PlainAt(c, m, at)));
    var buf := Overlay(Overlay(m.buf, at, PlainAt(c, m, at)), at, x.decoded);
    OverlayParts(buf, m.dst, data, m.dst, m.dst + SECTOR_SIZE);
  }

  /** No sync in reach, or no memory for the search: twice a pass it goes on, and then back to the deck, but only once
      in a call. */
  lemma NothingThere(c: Request, m: Machine, x: Look)
    requires WellShaped(m) && m.pc.SearchLbn? && m.src + RAW_SIZE <= |m.buf|
    requires x.granted ==> NoSync(m.buf, m.src, m.src + 2341)
    ensures var m' := SearchStep(c, m, x);
            && m' == m.(pc := m'.pc, src := m'.src, kmpCnt := m'.kmpCnt, kmpRetry := m'.kmpRetry, stopped := m'.stopped,
                        log := m'.log)
            && m'.log.passes == m.log.passes && m'.log.failures == m.log.failures && m'.log.base == m.log.base
            && m'.log.got == m.log.got && m'.log.deliveries == m.log.deliveries
            && if m.kmpCnt > 0 then
                 m'.pc.SearchLbn? && m'.src == m.src + 2048 && m'.kmpCnt == m.kmpCnt - 1
                 && m'.kmpRetry == m.kmpRetry && m'.stopped == m.stopped
               else
                 m'.kmpRetry == m.kmpRetry - 1 && m'.stopped
                 && m'.pc == if m.kmpRetry > 1 then TryRead else Returned(-4)
  {
    hide SyncOffset;
    if x.granted { NoSyncIsFound(m, m.src + 2341); }
    NoMemory(m, x.granted);
  }

  lemma NoMemory(m: Machine, granted: bool)
    requires m.src + RAW_SIZE <= |m.buf|
    ensures !granted ==> SyncOffset(m, granted) == -1
  {
  }

  /** What CD_Research_Frame does: a later frame is reached by dropping what lies before it, if a sector of it is there;
      otherwise the next read seeks. For the last frame delivered, or an earlier one, nothing is done. */
  lemma ResearchExactly(stopped: bool, start: u32, last: u32, available: Samples)
    ensures var research, ahead := ResearchFrame(stopped, start, last, available), start - last;
            && (stopped ==> research.Leave?)
            && (!stopped && -0x8000_0000 < ahead <= 0 ==> research.Leave?)
            && (!stopped && 0 < ahead <= 0x8000_0000 ==>
                  research == if available >= 588 * ahead then Drop(588 * (ahead - 1)) else Reseek)
  {
    if start > last { WholeSectors(available, start - last); }
    assert start >= last + 1 ==> U32(start - last - 1) == start - last - 1;
  }

  // ----- how a search ends a call

  /** What the search has found is a sync, the first. */
  lemma FoundAt(m: Machine, k: nat)
    requires m.src + RAW_SIZE <= |m.buf| && 0 <= k == SyncOffset(m, true)
    ensures k <= 2340 && NoSync(m.buf, m.src, m.src + k) && Holds(m.buf, m.src + k, SYNC)
  {
    var window := m.buf[m.src..m.src + RAW_SIZE];
    assert KmpSearch.OccursAt(window, SYNC, k);
    OccursInside(m.buf, m.src, m.src + RAW_SIZE, k);
    forall p | m.src <= p < m.src + k
      ensures !KmpSearch.OccursAt(m.buf, SYNC, p)
    {
      OccursInside(m.buf, m.src, m.src + RAW_SIZE, p - m.src);
    }
  }

  ghost predicate Ends(c: Request, m: Machine, x: Look, at: nat, frame: int, code: int)
  {
    var request := U32(c.start + m.used);
    || (code == -9 && x.forceStop && FindsSync(m, x, at))
    || (AtHeader(c, m, x, at, frame)
        && ((code == 2048 && frame == request && m.used + 1 >= c.count && (x.c3 >= 1 || m.c3Retry <= 1))
            || (code == -5 && frame > request && m.frameRetry <= 0)
            || (code == -6 && frame < request && m.frameRetry <= 0)))
  }

  /** The last sector delivered; force stop at a sync; another frame with no try left; or no sync in reach for the last
      time. */
  ghost predicate EndsSearch(c: Request, m: Machine, x: Look, code: int)
  {
    || (exists at: nat, frame :: Ends(c, m, x, at, frame, code))
    || (code == -4 && m.kmpCnt <= 0 && m.kmpRetry <= 1 && (x.granted ==> NoSync(m.buf, m.src, m.src + 2341)))
  }

  /** A visit to the search ends a call with one of five codes, each for its reason alone. */
  lemma SearchEnds(c: Request, m: Machine, x: Look, code: int)
    requires WellShaped(m) && m.pc.SearchLbn? && SearchStep(c, m, x).pc == Returned(code)
    ensures EndsSearch(c, m, x, code)
  {
    hide SearchStep, U32, SyncOffset, FrameOf, AtHeader, Passed, Decided;
    InBuffer(c, m, x);
    var k := SyncOffset(m, x.granted);
    if k < 0 {
      NotFound(m, x);
      NothingThere(c, m, x);
    } else {
      NoMemory(m, x.granted);
      FoundInBuffer(c, m, x, k);
      var at := m.src + k;
      if x.forceStop {
        ForceEnds(c, m, x, at, code);
      } else {
        HeaderEnds(c, m, x, at, code);
      }
    }
  }

  lemma InBuffer(c: Request, m: Machine, x: Look)
    requires WellShaped(m) && m.pc.SearchLbn? && SearchStep(c, m, x).pc.Returned?
    ensures m.src + RAW_SIZE <= |m.buf|
  {
  }

  lemma NotFound(m: Machine, x: Look)
    requires m.src + RAW_SIZE <= |m.buf| && SyncOffset(m, x.granted) < 0
    ensures x.granted ==> NoSync(m.buf, m.src, m.src + 2341)
  {
    if x.granted {
      forall p | m.src <= p < m.src + 2341
        ensures !KmpSearch.OccursAt(m.buf, SYNC, p)
      {
        OccursInside(m.buf, m.src, m.src + RAW_SIZE, p - m.src);
      }
    }
  }

  lemma FoundInBuffer(c: Request, m: Machine, x: Look, k: int)
    requires WellShaped(m) && m.pc.SearchLbn? && SearchStep(c, m, x).pc.Returned? && m.src + RAW_SIZE <= |m.buf|
    requires x.granted && k == SyncOffset(m, true) >= 0
    ensures x.forceStop || m.src + k + RAW_SIZE <= |m.buf|
    ensures k <= 2340 && NoSync(m.buf, m.src, m.src + k) && Holds(m.buf, m.src + k, SYNC)
  {
    FoundAt(m, k);
  }

  lemma ForceEnds(c: Request, m: Machine, x: Look, at: nat, code: int)
    requires FindsSync(m, x, at) && x.forceStop && SearchStep(c, m, x).pc == Returned(code)
    ensures EndsSearch(c, m, x, code)
  {
    hide SearchStep, FindsSync;
    ForceStopped(c, m, x, at);
    assert Ends(c, m, x, at, 0, code);
  }

  lemma HeaderEnds(c: Request, m: Machine, x: Look, at: nat, code: int)
    requires FindsSync(m, x, at) && !x.forceStop && at + RAW_SIZE <= |m.buf| && SearchStep(c, m, x).pc == Returned(code)
    ensures EndsSearch(c, m, x, code)
  {
    hide SearchStep, U32, FrameOf, FindsSync, Passed;
    var frame := FrameOf(PlainAt(c, m, at));
    HeaderIsAddress(PlainAt(c, m, at));
    assert AtHeader(c, m, x, at, frame);
    if frame == U32(c.start + m.used) {
      FrameMatches(c, m, x, at, frame);
    } else if frame > U32(c.start + m.used) {
      FrameBeyond(c, m, x, at, frame);
    } else {
      FrameBefore(c, m, x, at, frame);
    }
    assert Ends(c, m, x, at, frame, code);
  }
}
