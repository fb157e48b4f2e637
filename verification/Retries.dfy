/** Passes that fail and calls that recover: which passes send the machine back to the deck, how many of each kind a
    call survives, and how it ends when there is one too many. */
module Retries {
  import opened Words
  import opened Layout
  import opened SectorMachine
  import opened InOrder
  import opened Completeness
  import opened Lockstep
  import opened OnePass
  import opened Branches

  // ----- passes

  /** The inputs of one pass: a read, and then looks for as long as the machine is searching. */
  ghost predicate IsPass(c: Request, m: Machine, xs: seq<Input>)
    requires WellShaped(m)
  {
    && m.pc.TryRead? && xs != [] && !Run(c, m, xs).pc.SearchLbn?
    && forall i {:trigger xs[..i]} :: 1 <= i < |xs| ==> Run(c, m, xs[..i]).pc.SearchLbn?
  }

  /** The read is answered, and what it stores fits. */
  predicate ReadWell(m: Machine, r: ReadResult)
  {
    r.Answer? && r.size > 0 && m.dst + |r.data| <= |m.buf|
  }

  /** Nothing delivered so far is lost, and this pass counts. */
  predicate Onward(m: Machine, m': Machine)
    requires WellShaped(m) && WellShaped(m')
  {
    && m'.used == m.used && m'.lastSector == m.lastSector && m'.c3Retry == m.c3Retry
    && m'.buf[..m.dst] == m.buf[..m.dst]
    && m'.log.passes == m.log.passes + 1 && m'.log.failures == m.log.failures
  }

  lemma RunNext(c: Request, m: Machine, xs: seq<Input>, i: nat)
    requires WellShaped(m) && i < |xs|
    ensures Run(c, m, xs[..i + 1]) == Step(c, Run(c, m, xs[..i]), xs[i])
  {
    hide Step;
    assert xs[..i + 1] == xs[..i] + [xs[i]];
    RunAppend(c, m, xs[..i], xs[i]);
  }

  /** The machine right after the read of a pass. */
  lemma PassReads(c: Request, m: Machine, xs: seq<Input>) returns (r: Machine)
    requires WellShaped(m) && IsPass(c, m, xs) && ReadWell(m, xs[0].read)
    ensures |xs| >= 2 && r == Run(c, m, xs[..1]) == ReadStep(c, m, xs[0].read) && r.pc.SearchLbn?
    ensures r.src == m.dst == r.dst && r.kmpCnt == 2
    ensures r.buf == Overlay(m.buf, m.dst, xs[0].read.data)
    ensures r.buf[m.dst..m.dst + |xs[0].read.data|] == xs[0].read.data
    ensures r.goMsf == U32(c.start + m.used - 6) && r.pickupSeek == (m.stopped || xs[0].read.sought) && !r.stopped
    ensures r.researchCnt == Inspected(m, xs[0].read) && r.frameRetry == m.frameRetry && r.kmpRetry == m.kmpRetry
    ensures r.used == m.used && r.lastSector == m.lastSector && r.c3Retry == m.c3Retry
    ensures r.buf[..m.dst] == m.buf[..m.dst]
    ensures r.log.passes == m.log.passes + 1 && r.log.failures == m.log.failures
  {
    hide ReadStep, Overlay, U32;
    var data := xs[0].read.data;
    assert xs[..0] == [];
    RunNext(c, m, xs, 0);
    ReadAnswers(c, m, xs[0].read);
    r := Run(c, m, xs[..1]);
    assert r == ReadStep(c, m, xs[0].read);
    assert xs[..|xs|] == xs;
    OverlayParts(m.buf, m.dst, data, m.dst, m.dst + |data|);
    OverlayParts(m.buf, m.dst, data, 0, m.dst);
  }

  /** The next visit of a pass is a look. */
  lemma PassLooks(c: Request, m: Machine, xs: seq<Input>, i: nat)
    requires WellShaped(m) && IsPass(c, m, xs) && 1 <= i < |xs|
    ensures Run(c, m, xs[..i]).pc.SearchLbn?
    ensures Run(c, m, xs[..i + 1]) == SearchStep(c, Run(c, m, xs[..i]), xs[i].look)
    ensures i + 1 == |xs| <==> !Run(c, m, xs[..i + 1]).pc.SearchLbn?
  {
    hide SearchStep, Run;
    RunNext(c, m, xs, i);
    var _ := xs[..i];
    if i + 1 < |xs| { var _ := xs[..i + 1]; } else { assert xs[..i + 1] == xs; }
  }

  // ----- a pass without a sync

  /** Three stretches of a sector's length, each 2048 bytes behind the one before, with no sync in them, or no memory to
      look for one. */
  ghost predicate Silent(c: Request, m: Machine, xs: seq<Input>)
  {
    && |xs| > 0 && ReadWell(m, xs[0].read) && |xs[0].read.data| >= 2 * 2048 + 2352
    && forall i {:trigger xs[i]} :: 1 <= i < |xs| && i <= 3 ==>
         xs[i].look.granted ==> NoSync(xs[0].read.data, 2048 * (i - 1), 2048 * (i - 1) + 2341)
  }

  lemma SilentUpTo(c: Request, m: Machine, xs: seq<Input>, i: nat)
    requires WellShaped(m) && IsPass(c, m, xs) && Silent(c, m, xs) && 1 <= i <= 3
    ensures i < |xs|
    ensures var r, r1 := Run(c, m, xs[..i]), Run(c, m, xs[..1]);
            && r == r1.(src := r.src, kmpCnt := r.kmpCnt, log := r.log)
            && r.src == m.dst + 2048 * (i - 1) && r.kmpCnt == 3 - i
            && r.log.passes == r1.log.passes && r.log.failures == r1.log.failures
  {
    hide Run, SearchStep, Overlay;
    var r1 := PassReads(c, m, xs);
    if i > 1 {
      SilentUpTo(c, m, xs, i - 1);
      SilentLook(c, m, xs, i - 1);
      PassLooks(c, m, xs, i - 1);
    }
  }

  lemma SilentLook(c: Request, m: Machine, xs: seq<Input>, i: nat)
    requires WellShaped(m) && IsPass(c, m, xs) && Silent(c, m, xs) && 1 <= i <= 3 && i < |xs|
    requires var r := Run(c, m, xs[..i]); r.src == m.dst + 2048 * (i - 1) && r.buf == Run(c, m, xs[..1]).buf
    ensures var r := Run(c, m, xs[..i]);
            && r.pc.SearchLbn? && r.src + RAW_SIZE <= |r.buf|
            && (xs[i].look.granted ==> NoSync(r.buf, r.src, r.src + 2341))
            && Run(c, m, xs[..i + 1]) == SearchStep(c, r, xs[i].look)
            && var r' := Run(c, m, xs[..i + 1]);
               && r' == r.(pc := r'.pc, src := r'.src, kmpCnt := r'.kmpCnt, kmpRetry := r'.kmpRetry,
                           stopped := r'.stopped, log := r'.log)
               && r'.log.passes == r.log.passes && r'.log.failures == r.log.failures
               && if r.kmpCnt > 0 then
                    r'.pc.SearchLbn? && r'.src == r.src + 2048 && r'.kmpCnt == r.kmpCnt - 1
                    && r'.kmpRetry == r.kmpRetry && r'.stopped == r.stopped
                  else
                    r'.kmpRetry == r.kmpRetry - 1 && r'.stopped
                    && r'.pc == if r.kmpRetry > 1 then TryRead else Returned(-4)
  {
    hide Run, SearchStep, Overlay;
    var r1 := PassReads(c, m, xs);
    var r, data, lo := Run(c, m, xs[..i]), xs[0].read.data, 2048 * (i - 1);
    PassLooks(c, m, xs, i);
    if xs[i].look.granted {
      forall p | r.src <= p < r.src + 2341
        ensures !KmpSearch.OccursAt(r.buf, SYNC, p)
      {
        OccursBefore(r.buf, m.dst, data, p);
      }
    }
    NothingThere(c, r, xs[i].look);
  }

  /** Then the machine goes back to the deck once, and the second such pass of a call ends it with KMP_ERROR. */
  lemma SilentPass(c: Request, m: Machine, xs: seq<Input>)
    requires WellShaped(m) && IsPass(c, m, xs) && Silent(c, m, xs)
    ensures |xs| == 4
    ensures var r := Run(c, m, xs);
            && r.pc == (if m.kmpRetry > 1 then TryRead else Returned(-4)) && r.kmpRetry == m.kmpRetry - 1 && r.stopped
            && r.frameRetry == m.frameRetry && Onward(m, r)
  {
    hide Run, SearchStep, Overlay;
    var r1 := PassReads(c, m, xs);
    SilentUpTo(c, m, xs, 3);
    SilentLook(c, m, xs, 3);
    PassLooks(c, m, xs, 3);
    assert xs[..4] == xs;
  }

  // ----- a pass in another place

  /** A sector that no look will do: beyond the frame asked for, or before it and the ring holding too little to jump.
      */
  predicate Useless(c: Request, m: Machine, e: Sector, x: Look)
  {
    var frame, request := FrameOf(c.descramble(e)), U32(c.start + m.used);
    && e[..12] == SYNC && frame != request
    && (U32(c.start + m.used - 6) <= frame < request ==> x.available < 588 * (request - frame))
  }

  /** And one that may send the machine back: not before where the deck was sent. */
  predicate Final(c: Request, m: Machine, e: Sector)
  {
    var frame, request := FrameOf(c.descramble(e)), U32(c.start + m.used);
    frame > request || frame >= U32(c.start + m.used - 6)
  }

  ghost predicate AllUseless(c: Request, m: Machine, es: seq<Sector>, x: Look)
  {
    forall e | e in es :: Useless(c, m, e, x)
  }

  /** No sync in the last 304 bytes of a descrambled sector, nor across its end. */
  ghost predicate Separate(c: Request, es: seq<Sector>)
    decreases |es|
  {
    |es| > 1 ==> NoSync(c.descramble(es[0]) + es[1], SECTOR_SIZE, RAW_SIZE) && Separate(c, es[1..])
  }

  /** The read has come in elsewhere: behind a lead without a sync so many sectors that are of no use that with them six
      headers have been inspected since the last seek. */
  ghost predicate Misplaced(c: Request, m: Machine, xs: seq<Input>, lead: nat, es: seq<Sector>)
  {
    && |xs| > 0 && ReadWell(m, xs[0].read)
    && es != [] && Inspected(m, xs[0].read) + |es| == 6
    && NoSync(xs[0].read.data, 0, lead) && lead <= 2340 + 2 * 2048
    && lead + 2352 * |es| <= |xs[0].read.data| && EarlierAt(xs[0].read.data, lead, es)
    && Separate(c, es) && Final(c, m, es[|es| - 1])
    && forall i {:trigger xs[i]} :: 1 <= i < |xs| ==>
         xs[i].look.granted && !xs[i].look.forceStop && AllUseless(c, m, es, xs[i].look)
  }

  /** The machine is searching, with these sectors to come. */
  ghost predicate Straying(c: Request, m: Machine, es: seq<Sector>, next: nat)
  {
    && WellShaped(m) && m.pc.SearchLbn? && 0 <= m.kmpCnt && 0 < m.frameRetry && m.goMsf == U32(c.start + m.used - 6)
    && m.src <= next <= m.src + 2340 + 2048 * m.kmpCnt && NoSync(m.buf, m.src, next)
    && es != [] && m.researchCnt + |es| == 6 && next + 2352 * |es| <= |m.buf|
    && EarlierAt(m.buf, next, es) && Separate(c, es) && Final(c, m, es[|es| - 1])
  }

  /** What a look at a sector of no use leaves alone. */
  predicate Untaken(m: Machine, m': Machine)
    requires WellShaped(m)
  {
    && WellShaped(m') && m'.used == m.used && m'.lastSector == m.lastSector && m'.c3Retry == m.c3Retry
    && m'.kmpRetry == m.kmpRetry && m'.goMsf == m.goMsf && m'.pickupSeek == m.pickupSeek
    && m'.buf[..m.dst] == m.buf[..m.dst]
    && m'.log.passes == m.log.passes && m'.log.failures == m.log.failures
  }

  lemma UselessUsed(c: Request, m: Machine, m': Machine, es: seq<Sector>, x: Look)
    requires m'.used == m.used
    ensures AllUseless(c, m', es, x) <==> AllUseless(c, m, es, x)
    ensures es != [] ==> (Final(c, m', es[|es| - 1]) <==> Final(c, m, es[|es| - 1]))
  {
    hide FrameOf, U32;
    forall e
      ensures Useless(c, m', e, x) <==> Useless(c, m, e, x)
    {
    }
  }

  /** One search window further. */
  lemma StraysOn(c: Request, m: Machine, x: Look, es: seq<Sector>, next: nat)
    requires Straying(c, m, es, next) && x.granted && next > m.src + 2340
    ensures var m' := SearchStep(c, m, x);
            Straying(c, m', es, next) && Untaken(m, m') && m'.frameRetry == m.frameRetry && m'.pc.SearchLbn?
  {
    hide SearchStep, FrameOf, U32, EarlierAt, Separate;
    NothingThere(c, m, x);
    UselessUsed(c, m, SearchStep(c, m, x), es, x);
  }

  lemma HeaderOf(c: Request, m: Machine, x: Look, es: seq<Sector>, next: nat)
    requires Straying(c, m, es, next) && x.granted && !x.forceStop && AllUseless(c, m, es, x) && next <= m.src + 2340
    ensures AtHeader(c, m, x, next, FrameOf(c.descramble(es[0]))) && PlainAt(c, m, next) == c.descramble(es[0])
    ensures FrameOf(c.descramble(es[0])) != U32(c.start + m.used)
  {
    hide FrameOf, U32, Separate, Final;
    var e := es[0];
    assert e in es;
    assert m.buf[next..next + RAW_SIZE] == e;
    assert m.buf[next..next + 12] == e[..12];
    HeaderIsAddress(c.descramble(e));
  }

  /** The header of a sector of no use: passed by, but the sixth since a seek sends the machine back to the deck. */
  lemma HeaderStrays(c: Request, m: Machine, x: Look, es: seq<Sector>, next: nat)
    requires Straying(c, m, es, next) && x.granted && !x.forceStop && AllUseless(c, m, es, x) && next <= m.src + 2340
    ensures var m' := SearchStep(c, m, x);
            && Passed(c, m, m', next)
            && if |es| == 1 then Reseeks(m, m') else GoesOn(m, m', next + 2048)
  {
    hide SearchStep, FrameOf, U32, Separate, Passed, AtHeader;
    HeaderOf(c, m, x, es, next);
    assert es[0] in es;
    var frame, request := FrameOf(c.descramble(es[0])), U32(c.start + m.used);
    if frame > request {
      FrameBeyond(c, m, x, next, frame);
    } else {
      FrameBefore(c, m, x, next, frame);
    }
  }

  lemma PassedKeeps(c: Request, m: Machine, m': Machine, at: nat)
    requires WellShaped(m) && WellShaped(m') && m.src <= at && at + RAW_SIZE <= |m.buf| && Passed(c, m, m', at)
    ensures Untaken(m, m')
  {
    hide Overlay, U32;
    OverlayParts(m.buf, at, PlainAt(c, m, at), 0, m.dst);
  }

  /** The next sector of no use. */
  lemma StraysNext(c: Request, m: Machine, m': Machine, es: seq<Sector>, next: nat)
    requires Straying(c, m, es, next) && |es| > 1 && WellShaped(m') && Passed(c, m, m', next)
    requires GoesOn(m, m', next + 2048)
    ensures Straying(c, m', es[1..], next + RAW_SIZE)
  {
    hide FrameOf, U32, NoSync, Overlay;
    var plain := c.descramble(es[0]);
    assert m.buf[next..next + RAW_SIZE] == es[0];
    OverlayParts(m.buf, next, plain, next, next + RAW_SIZE);
    OverlayBehind(m.buf, next, plain);
    EarlierKept(m.buf, m'.buf, next + RAW_SIZE, next + RAW_SIZE, es[1..]);
    assert Holds(m'.buf, next, plain);
    NoSyncBetween(m'.buf, next, plain, es[1], next + SECTOR_SIZE);
  }

  lemma OverlayBehind(buf: seq<byte>, at: nat, data: seq<byte>)
    requires at + |data| <= |buf|
    ensures forall i :: at + |data| <= i < |buf| ==> Overlay(buf, at, data)[i] == buf[i]
  {
  }

  /** One look of such a pass. */
  lemma StrayLook(c: Request, m: Machine, x: Look, es: seq<Sector>, next: nat) returns (es': seq<Sector>, next': nat)
    requires Straying(c, m, es, next) && x.granted && !x.forceStop && AllUseless(c, m, es, x)
    ensures var m' := SearchStep(c, m, x);
            && Untaken(m, m')
            && if m'.pc.SearchLbn? then
                 && Straying(c, m', es', next') && m'.frameRetry == m.frameRetry
                 && (forall e | e in es' :: e in es)
               else Reseeks(m, m')
  {
    hide SearchStep, Straying, AllUseless, Untaken, Passed;
    es', next' := es, next;
    StraysWhere(c, m, es, next);
    if next > m.src + 2340 {
      StraysOn(c, m, x, es, next);
    } else {
      HeaderStrays(c, m, x, es, next);
      SearchKeepsShape(c, m, x);
      PassedKeeps(c, m, SearchStep(c, m, x), next);
      if |es| > 1 {
        StraysNext(c, m, SearchStep(c, m, x), es, next);
        es', next' := es[1..], next + RAW_SIZE;
      }
    }
  }

  lemma StraysWhere(c: Request, m: Machine, es: seq<Sector>, next: nat)
    requires Straying(c, m, es, next)
    ensures WellShaped(m) && m.src <= next && next + RAW_SIZE <= |m.buf| && es != []
  {
    hide FrameOf, U32;
    assert |es| >= 1;
  }

  /** The bytes stored begin with a lead and with these sectors. */
  lemma StoredAhead(buf: seq<byte>, at: nat, data: seq<byte>, lead: nat, es: seq<Sector>)
    requires at + |data| <= |buf| && buf[at..at + |data|] == data && es != []
    requires NoSync(data, 0, lead) && EarlierAt(data, lead, es) && lead + 2352 * |es| <= |data|
    ensures NoSync(buf, at, at + lead) && EarlierAt(buf, at + lead, es)
  {
    forall p | at <= p < at + lead
      ensures !KmpSearch.OccursAt(buf, SYNC, p)
    {
      OccursBefore(buf, at, data, p);
    }
    EarlierInside(buf, at, at + |data|, lead, es);
  }

  lemma {:induction false} MisplacedUpTo(c: Request, m: Machine, xs: seq<Input>, lead: nat, es: seq<Sector>, i: nat)
    returns (es': seq<Sector>, next: nat)
    requires WellShaped(m) && IsPass(c, m, xs) && Misplaced(c, m, xs, lead, es) && 0 < m.frameRetry && 1 <= i < |xs|
    ensures var r, r1 := Run(c, m, xs[..i]), Run(c, m, xs[..1]);
            && Straying(c, r, es', next) && (forall e | e in es' :: e in es)
            && Untaken(r1, r) && r.frameRetry == r1.frameRetry && r.dst == r1.dst
  {
    hide Run, SearchStep, Overlay, FrameOf, U32, Separate, AllUseless, Straying, NoSync;
    var r1 := PassReads(c, m, xs);
    if i == 1 {
      es', next := es, m.dst + lead;
      MisplacedStarts(c, m, xs, lead, es);
    } else {
      var es1, next1 := MisplacedUpTo(c, m, xs, lead, es, i - 1);
      var r := Run(c, m, xs[..i - 1]);
      MisplacedLook(c, m, xs, lead, es, i - 1, r, es1);
      PassLooks(c, m, xs, i - 1);
      es', next := StrayLook(c, r, xs[i - 1].look, es1, next1);
    }
  }

  lemma MisplacedStarts(c: Request, m: Machine, xs: seq<Input>, lead: nat, es: seq<Sector>)
    requires WellShaped(m) && IsPass(c, m, xs) && Misplaced(c, m, xs, lead, es) && 0 < m.frameRetry
    ensures Straying(c, Run(c, m, xs[..1]), es, m.dst + lead)
  {
    hide Run, Overlay, FrameOf, U32, Separate, NoSync, EarlierAt;
    var r1 := PassReads(c, m, xs);
    StoredAhead(r1.buf, m.dst, xs[0].read.data, lead, es);
    if |xs| > 1 { UselessUsed(c, m, r1, es, xs[1].look); }
  }

  lemma MisplacedLook(c: Request, m: Machine, xs: seq<Input>, lead: nat, es: seq<Sector>, i: nat, r: Machine,
                      es': seq<Sector>)
    requires Misplaced(c, m, xs, lead, es) && 1 <= i < |xs| && r.used == m.used && forall e | e in es' :: e in es
    ensures xs[i].look.granted && !xs[i].look.forceStop && AllUseless(c, r, es', xs[i].look)
  {
    hide FrameOf, U32, Separate, NoSync, EarlierAt;
    UselessUsed(c, m, r, es, xs[i].look);
  }

  /** So such a pass sends the machine back to the deck, and costs one of the tries for the frame if the read had
      sought. */
  lemma MisplacedPass(c: Request, m: Machine, xs: seq<Input>, lead: nat, es: seq<Sector>)
    requires WellShaped(m) && IsPass(c, m, xs) && Misplaced(c, m, xs, lead, es) && 0 < m.frameRetry
    ensures var r := Run(c, m, xs);
            && r.pc.TryRead? && r.stopped && r.kmpRetry == m.kmpRetry && Onward(m, r)
            && r.frameRetry == m.frameRetry - if m.stopped || xs[0].read.sought then 1 else 0
  {
    hide Run, SearchStep, Overlay, FrameOf, U32, Separate, AllUseless, Straying, NoSync, EarlierAt, Misplaced;
    MisplacedReads(c, m, xs, lead, es);
    var r1 := PassReads(c, m, xs);
    var n := |xs| - 1;
    var es1, next1 := MisplacedUpTo(c, m, xs, lead, es, n);
    var r := Run(c, m, xs[..n]);
    MisplacedLook(c, m, xs, lead, es, n, r, es1);
    PassLooks(c, m, xs, n);
    var _, _ := StrayLook(c, r, xs[n].look, es1, next1);
    assert xs[..n + 1] == xs;
  }

  lemma MisplacedReads(c: Request, m: Machine, xs: seq<Input>, lead: nat, es: seq<Sector>)
    requires Misplaced(c, m, xs, lead, es)
    ensures xs != [] && ReadWell(m, xs[0].read)
  {
  }

  // ----- a pass the decoder rejects

  /** The same look but for the decoder's answer. */
  predicate SameLook(x: Look, y: Look)
  {
    y.granted == x.granted && y.forceStop == x.forceStop && y.available == x.available
  }

  /** The decoder is asked only about the frame asked for. */
  ghost predicate Asks(c: Request, m: Machine, x: Look, at: nat)
  {
    AtHeader(c, m, x, at, U32(c.start + m.used))
  }

  lemma UnaskedIsIgnored(c: Request, m: Machine, x: Look, y: Look)
    requires WellShaped(m) && m.pc.SearchLbn? && SameLook(x, y) && x.granted && !x.forceStop
    ensures (exists at: nat :: Asks(c, m, x, at))
            || (SearchStep(c, m, x) == SearchStep(c, m, y) && SearchStep(c, m, x).used == m.used)
  {
    hide Inspect, FrameOf, U32, Asks, SyncOffset;
    if m.src + RAW_SIZE <= |m.buf| {
      var k := SyncOffset(m, true);
      if k >= 0 && m.src + k + RAW_SIZE <= |m.buf| {
        AskedOrNot(c, m, x, y, k);
        FoundAtKeeps(m, k);
      }
    }
  }

  lemma FoundAtKeeps(m: Machine, k: nat)
    requires m.src + k + RAW_SIZE <= |m.buf|
    ensures var found := Found(Scanned(m), k);
            found.used == m.used && found.buf == m.buf && found.src == m.src + k && found.dst == m.dst
  {
  }

  lemma AskedOrNot(c: Request, m: Machine, x: Look, y: Look, k: nat)
    requires WellShaped(m) && m.pc.SearchLbn? && SameLook(x, y) && x.granted && !x.forceStop
    requires m.src + k + RAW_SIZE <= |m.buf| && k == SyncOffset(m, true)
    ensures var found := Found(Scanned(m), k);
            || Asks(c, m, x, m.src + k)
            || (Inspect(c, found, x) == Inspect(c, found, y) && Inspect(c, found, x).used == m.used)
  {
    hide Inspect, FrameOf, U32, SyncOffset;
    FoundAt(m, k);
    FoundAtKeeps(m, k);
    HeaderIsAddress(PlainAt(c, m, m.src + k));
    if FrameOf(PlainAt(c, m, m.src + k)) != U32(c.start + m.used) {
      UninspectedSame(c, Found(Scanned(m), k), x, y);
    }
  }

  lemma UninspectedSame(c: Request, m: Machine, x: Look, y: Look)
    requires m.src + RAW_SIZE <= |m.buf| && m.dst <= m.src && SameLook(x, y)
    requires FrameOf(c.descramble(RawAt(m))) != U32(c.start + m.used)
    ensures Inspect(c, m, x) == Inspect(c, m, y) && Inspect(c, m, x).used == m.used
  {
    hide Mismatched, Overlay, U32, FrameOf;
    var plain := c.descramble(RawAt(m));
    MismatchedUsed(Descrambled(m, plain), FrameOf(plain), U32(c.start + m.used), x.available);
  }

  lemma MismatchedUsed(m: Machine, frame: u32, request: u32, available: Samples)
    requires frame != request
    ensures Mismatched(m, frame, request, available).used == m.used
  {
  }

  /** The read of a pass stores a stream of the disc's sectors, from before the next one asked for on and up to the
      last. */
  ghost predicate Faces(c: Request, d: Disc, m: Machine, xs: seq<Input>, lead: nat, es: seq<Sector>, f: nat)
  {
    && WellShaped(m) && m.pc.TryRead? && |xs| > 0 && ReadWell(m, xs[0].read)
    && Stream(c, d, xs[0].read.data, lead, es, f) && WellHeaded(c, d, f, End(c)) && f <= c.start + m.used < End(c)
    && (es != [] ==> m.used == 0 && Inspected(m, xs[0].read) + |es| <= PREVIOUS_DATA_SKIP_COUNT)
    && lead <= RAW_SIZE - 12 + SECTOR_SIZE * CD_KMP_RETRY_CNT
    && lead + RAW_SIZE * (|es| + End(c) - f) <= |xs[0].read.data|
  }

  ghost predicate NearlyNice(c: Request, d: Disc, m: Machine, x: Look, y: Look)
    requires WellShaped(m)
  {
    SameLook(x, y) && Nice(c, d, m, y)
  }

  ghost predicate NiceBut(c: Request, d: Disc, m: Machine, x: Look)
    requires WellShaped(m)
  {
    exists y :: NearlyNice(c, d, m, x, y)
  }

  /** And all its looks are nice but for the last, of which that is so but for the decoder's answer: it has failed. */
  ghost predicate Rejected(c: Request, d: Disc, m: Machine, xs: seq<Input>, lead: nat, es: seq<Sector>, f: nat)
  {
    && Faces(c, d, m, xs, lead, es, f) && |xs| >= 2
    && (forall i {:trigger xs[..i]} :: 1 <= i < |xs| - 1 ==> Nice(c, d, Run(c, m, xs[..i]), xs[i].look))
    && xs[|xs| - 1].look.c3 < CD_TRUE
    && NiceBut(c, d, Run(c, m, xs[..|xs| - 1]), xs[|xs| - 1].look)
  }

  /** Searching on uses up no retry, and a delivery restores the tries for a frame. */
  predicate Free(m: Machine, m': Machine)
  {
    && m'.kmpRetry == m.kmpRetry && m'.c3Retry == m.c3Retry && m'.used >= m.used
    && (m'.frameRetry == m.frameRetry || m'.frameRetry == CD_RETRY_CNT)
    && m'.log.passes == m.log.passes && m'.log.failures == m.log.failures
  }

  lemma SearchingIsFree(c: Request, m: Machine, x: Look)
    requires WellShaped(m) && m.pc.SearchLbn? && x.c3 >= CD_TRUE && SearchStep(c, m, x).pc.SearchLbn?
    ensures Free(m, SearchStep(c, m, x))
  {
    hide SyncOffset, Inspect;
    if m.src + RAW_SIZE <= |m.buf| {
      var k := SyncOffset(m, x.granted);
      if k >= 0 && !x.forceStop && m.src + k + RAW_SIZE <= |m.buf| {
        InspectIsFree(c, Found(Scanned(m), k), x);
      }
    }
  }

  lemma InspectIsFree(c: Request, m: Machine, x: Look)
    requires m.src + RAW_SIZE <= |m.buf| && m.dst <= m.src && x.c3 >= CD_TRUE && Inspect(c, m, x).pc.SearchLbn?
    ensures Free(m, Inspect(c, m, x))
  {
    hide Overlay, FrameOf, U32, UserData, ModeOf;
  }

  /** How a state of a pass is related to the one its read has left. */
  ghost predicate Along(c: Request, d: Disc, m: Machine, m': Machine)
  {
    WellShaped(m') && InStep(m') && Filled(c, d, m', 0) && Free(m, m')
  }

  lemma {:induction false} RejectedUpTo(c: Request, d: Disc, m: Machine, xs: seq<Input>, lead: nat, es: seq<Sector>,
                                        f: nat, i: nat)
    returns (es': seq<Sector>, f': nat, next: nat)
    requires Rejected(c, d, m, xs, lead, es, f) && IsPass(c, m, xs) && 0 < m.frameRetry && Filled(c, d, m, 0)
    requires 1 <= i < |xs|
    ensures var r, r1 := Run(c, m, xs[..i]), Run(c, m, xs[..1]);
            Facing(c, d, r, es', f', next) && Along(c, d, r1, r)
  {
    hide Run, SearchStep, Stream, Facing, Nice, InStep, Filled, WellHeaded, ReadStep;
    var r1 := PassReads(c, m, xs);
    if i == 1 {
      es', f', next := es, f, m.dst + lead;
      ReadFaces(c, d, m, xs[0].read, lead, es, f);
      ReadFields(c, d, m, xs[0].read);
    } else {
      var es1, f1, next1 := RejectedUpTo(c, d, m, xs, lead, es, f, i - 1);
      var r, x := Run(c, m, xs[..i - 1]), xs[i - 1].look;
      var _ := xs[..i - 1];
      NiceDecodes(c, d, r, x);
      PassLooks(c, m, xs, i - 1);
      es', f', next := FacingProgress(c, d, r, x, es1, f1, next1, 0);
      SearchingIsFree(c, r, x);
      SearchInStep(c, r, x);
      if f' == End(c) { CompleteIsEnded(c, SearchStep(c, r, x), next); }
    }
  }

  lemma NiceDecodes(c: Request, d: Disc, m: Machine, x: Look)
    requires WellShaped(m) && Nice(c, d, m, x)
    ensures x.granted && !x.forceStop && x.c3 >= CD_TRUE
  {
  }

  /** The first failure sends the machine back to the deck, with what has been delivered before it in place. */
  lemma RejectedPass(c: Request, d: Disc, m: Machine, xs: seq<Input>, lead: nat, es: seq<Sector>, f: nat)
    requires Rejected(c, d, m, xs, lead, es, f) && IsPass(c, m, xs) && 0 < m.frameRetry && 1 < m.c3Retry
    requires Filled(c, d, m, 0)
    ensures var r := Run(c, m, xs);
            && r.pc.TryRead? && r.stopped && r.kmpRetry == m.kmpRetry && r.c3Retry == m.c3Retry - 1
            && m.used <= r.used < c.count && Filled(c, d, r, 0)
            && (r.frameRetry == m.frameRetry || r.frameRetry == CD_RETRY_CNT)
            && r.log.passes == m.log.passes + 1 && r.log.failures == m.log.failures + 1
  {
    hide Run, SearchStep, Stream, Facing, Nice, InStep, Filled, WellHeaded, Advance;
    var n := |xs| - 1;
    var r1 := PassReads(c, m, xs);
    var es1, f1, next1 := RejectedUpTo(c, d, m, xs, lead, es, f, n);
    var r, x := Run(c, m, xs[..n]), xs[n].look;
    PassLooks(c, m, xs, n);
    assert xs[..n + 1] == xs;
    RejectedLook(c, d, r, x, es1, f1, next1);
  }

  /** The look that ends such a pass. */
  lemma RejectedLook(c: Request, d: Disc, m: Machine, x: Look, es: seq<Sector>, f: nat, next: nat)
    requires Facing(c, d, m, es, f, next) && WellShaped(m) && InStep(m) && Filled(c, d, m, 0) && 1 < m.c3Retry
    requires NiceBut(c, d, m, x) && x.c3 < CD_TRUE && !SearchStep(c, m, x).pc.SearchLbn?
    ensures var r := SearchStep(c, m, x);
            && r.pc.TryRead? && r.stopped && r.kmpRetry == m.kmpRetry && r.c3Retry == m.c3Retry - 1
            && r.used == m.used < c.count && WellShaped(r) && Filled(c, d, r, 0) && r.frameRetry == m.frameRetry
            && r.log.passes == m.log.passes && r.log.failures == m.log.failures + 1
  {
    hide SearchStep, Facing, Nice, InStep, Filled, Advance, Asks, Decided, FindsSync, U32;
    var y :| NearlyNice(c, d, m, x, y);
    assert NearlyNice(c, d, m, x, y);
    NiceDecodes(c, d, m, y);
    FacingUsed(c, d, m, es, f, next);
    UnaskedIsIgnored(c, m, x, y);
    if at: nat :| Asks(c, m, x, at) {
      Rejection(c, d, m, x, at);
    } else {
      var es2, f2, next2 := FacingProgress(c, d, m, y, es, f, next, 0);
      AdvanceSays(c, d, m, es, f, next, SearchStep(c, m, y), es2, f2, next2);
    }
  }

  lemma Rejection(c: Request, d: Disc, m: Machine, x: Look, at: nat)
    requires Asks(c, m, x, at) && Filled(c, d, m, 0) && x.c3 < CD_TRUE && m.c3Retry > 1
    ensures var r := SearchStep(c, m, x);
            && r.pc.TryRead? && r.stopped && r.kmpRetry == m.kmpRetry && r.c3Retry == m.c3Retry - 1
            && r.used == m.used && WellShaped(r) && Filled(c, d, r, 0) && r.frameRetry == m.frameRetry
            && r.log.passes == m.log.passes && r.log.failures == m.log.failures + 1
  {
    hide SearchStep, Filled, U32, Overlay, GoesOut;
    FrameMatches(c, m, x, at, U32(c.start + m.used));
    RejectionKeeps(c, d, m, x, at);
  }

  lemma FacingUsed(c: Request, d: Disc, m: Machine, es: seq<Sector>, f: nat, next: nat)
    requires Facing(c, d, m, es, f, next)
    ensures WellShaped(m) && m.used < c.count && m.pc.SearchLbn?
  {
    hide WellHeaded, SectorsAt, NoSync, EarlierAt, Apart, AllForeign;
  }

  lemma AdvanceSays(c: Request, d: Disc, m: Machine, es: seq<Sector>, f: nat, next: nat,
                    m': Machine, es': seq<Sector>, f': nat, next': nat)
    requires WellShaped(m) && Advance(c, d, m, es, f, next, m', es', f', next', 0)
    ensures m'.used == c.count || m'.pc.SearchLbn?
  {
    hide WellHeaded, SectorsAt, NoSync, EarlierAt, Apart, AllForeign, Filled;
  }

  lemma RejectionKeeps(c: Request, d: Disc, m: Machine, x: Look, at: nat)
    requires FindsSync(m, x, at) && at + RAW_SIZE <= |m.buf| && Filled(c, d, m, 0) && x.c3 < CD_TRUE && m.c3Retry > 1
    requires Decided(c, m, x, SearchStep(c, m, x), at)
    ensures WellShaped(SearchStep(c, m, x)) && Filled(c, d, SearchStep(c, m, x), 0)
  {
    hide Filled, SearchStep, Overlay;
    SearchKeepsShape(c, m, x);
    var open := m.(buf := Overlay(m.buf, at, PlainAt(c, m, at)));
    FilledKept(c, d, m, open, at, PlainAt(c, m, at), 0);
    FilledKept(c, d, open, SearchStep(c, m, x), at, x.decoded, 0);
  }

  // ----- calls

  /** Why a pass has failed: no sync, another place, or a sector the decoder could not repair. */
  datatype Reason = Silence | Elsewhere(lead: nat, es: seq<Sector>) | Failure(lead: nat, es: seq<Sector>, f: nat)

  datatype Pass = Pass(xs: seq<Input>, why: Reason)

  ghost predicate Fails(c: Request, d: Disc, m: Machine, p: Pass)
    requires WellShaped(m)
  {
    && IsPass(c, m, p.xs)
    && match p.why
       case Silence => Silent(c, m, p.xs)
       case Elsewhere(lead, es) => Misplaced(c, m, p.xs, lead, es)
       case Failure(lead, es, f) => Rejected(c, d, m, p.xs, lead, es, f)
  }

  function Inputs(ps: seq<Pass>): seq<Input>
  {
    if ps == [] then [] else ps[0].xs + Inputs(ps[1..])
  }

  ghost predicate AllFail(c: Request, d: Disc, m: Machine, ps: seq<Pass>)
    requires WellShaped(m)
    decreases |ps|
  {
    ps != [] ==> Fails(c, d, m, ps[0]) && AllFail(c, d, Run(c, m, ps[0].xs), ps[1..])
  }

  function Silences(ps: seq<Pass>): nat
  {
    if ps == [] then 0 else (if ps[0].why.Silence? then 1 else 0) + Silences(ps[1..])
  }

  function Misses(ps: seq<Pass>): nat
  {
    if ps == [] then 0 else (if ps[0].why.Elsewhere? then 1 else 0) + Misses(ps[1..])
  }

  function Rejections(ps: seq<Pass>): nat
  {
    if ps == [] then 0 else (if ps[0].why.Failure? then 1 else 0) + Rejections(ps[1..])
  }

  /** The budgets suffice for these passes, with a try for the frame to spare; a fresh call's for one silence, two
      misses and one rejection. */
  predicate Affordable(m: Machine, ps: seq<Pass>)
  {
    Silences(ps) < m.kmpRetry && Misses(ps) < m.frameRetry <= CD_RETRY_CNT && Rejections(ps) < m.c3Retry
  }

  /** Between two passes, some slots filled. */
  ghost predicate Between(c: Request, d: Disc, m: Machine)
  {
    WellShaped(m) && m.pc.TryRead? && m.used < c.count && Filled(c, d, m, 0)
  }

  lemma OneFails(c: Request, d: Disc, m: Machine, p: Pass, ps: seq<Pass>)
    requires Between(c, d, m) && Fails(c, d, m, p) && Affordable(m, [p] + ps)
    ensures var r := Run(c, m, p.xs);
            && Between(c, d, r) && Affordable(r, ps) && r.stopped && r.log.passes == m.log.passes + 1
            && r.kmpRetry == m.kmpRetry - if p.why.Silence? then 1 else 0
  {
    hide Run, Silent, Misplaced, Rejected, IsPass, Filled;
    assert ([p] + ps)[1..] == ps;
    match p.why
    case Silence =>
      SilentPass(c, m, p.xs);
      SlotsStay(c, d, m, Run(c, m, p.xs));
    case Elsewhere(lead, es) =>
      MisplacedPass(c, m, p.xs, lead, es);
      SlotsStay(c, d, m, Run(c, m, p.xs));
    case Failure(lead, es, f) =>
      RejectedPass(c, d, m, p.xs, lead, es, f);
  }

  lemma SlotsStay(c: Request, d: Disc, m: Machine, m': Machine)
    requires WellShaped(m) && WellShaped(m') && Filled(c, d, m, 0) && Onward(m, m')
    ensures Filled(c, d, m', 0)
  {
    hide Payload;
    forall i | 0 <= i < m'.used
      ensures Slot(m'.buf, i) == Payload(c, d, c.start + i)
    {
      assert Slot(m.buf, i) == Payload(c, d, c.start + i);
      Within(m.buf, 0, m.dst, SECTOR_SIZE * i, SECTOR_SIZE * (i + 1));
      Within(m'.buf, 0, m.dst, SECTOR_SIZE * i, SECTOR_SIZE * (i + 1));
    }
  }

  /** After any passes that fail and that the call can afford it is about to read once more. */
  lemma {:induction false} AfterFailures(c: Request, d: Disc, m: Machine, ps: seq<Pass>)
    requires Between(c, d, m) && AllFail(c, d, m, ps) && Affordable(m, ps)
    ensures var r := Run(c, m, Inputs(ps));
            && Between(c, d, r) && 0 < r.frameRetry && (ps != [] ==> r.stopped)
            && r.kmpRetry == m.kmpRetry - Silences(ps) && r.log.passes == m.log.passes + |ps|
    decreases |ps|
  {
    hide Between, Fails, Run;
    BetweenShaped(c, d, m);
    if ps == [] {
      RunOfNone(c, m);
    } else {
      assert ps == [ps[0]] + ps[1..];
      OneFails(c, d, m, ps[0], ps[1..]);
      AfterFailures(c, d, Run(c, m, ps[0].xs), ps[1..]);
      RunOfNone(c, Run(c, m, ps[0].xs));
      RunConcat(c, m, ps[0].xs, Inputs(ps[1..]));
    }
  }

  lemma RunOfNone(c: Request, m: Machine)
    requires WellShaped(m)
    ensures Run(c, m, []) == m
  {
  }

  lemma BetweenShaped(c: Request, d: Disc, m: Machine)
    requires Between(c, d, m)
    ensures WellShaped(m)
  {
    hide Filled;
  }

  /** A call recovers: after one silent pass, two passes in another place and one rejected sector, or fewer of any
      kind and in any order, and some sectors delivered in between or none, a pass over a stream of the disc's sectors
      ends it in success, with one read more than there were failures and every slot as on the disc. */
  lemma Recovers(c: Request, d: Disc, m: Machine, ps: seq<Pass>, xs: seq<Input>, lead: nat, es: seq<Sector>, f: nat)
    requires Between(c, d, m) && AllFail(c, d, m, ps) && Affordable(m, ps)
    requires var r := Run(c, m, Inputs(ps));
             && Faces(c, d, r, xs, lead, es, f) && NiceRun(c, d, r, xs)
             && LongEnough(c, r, xs, |es| + End(c) - f + CD_KMP_RETRY_CNT + 1)
    ensures var e := Run(c, m, Inputs(ps) + xs);
            && e.pc == Returned(SECTOR_SIZE) && e.used == c.count && e.log.passes == m.log.passes + |ps| + 1
            && AsPrinted(c, d, e.buf, c.count)
  {
    hide Run, Stream, WellHeaded, NiceRun, LongEnough, Filled, AllFail, InStep, AsPrinted;
    AfterFailures(c, d, m, ps);
    var r := Run(c, m, Inputs(ps));
    RunConcat(c, m, Inputs(ps), xs);
    PassDelivers(c, d, r, xs, lead, es, f);
    FilledIsPrinted(c, d, Run(c, r, xs));
  }

  /** So does a fresh call, whatever the machine has been through before it: its budgets are for one silence, two misses
      and one rejection. */
  lemma FreshCallRecovers(c: Request, d: Disc, buf: seq<byte>, researchCnt: nat, pickupSeek: bool, stopped: bool,
                          last: u32, ps: seq<Pass>, xs: seq<Input>, lead: nat, es: seq<Sector>, f: nat)
    requires |buf| == CHUNK_BYTES && c.count >= 1 && Silences(ps) <= 1 && Misses(ps) <= 2 && Rejections(ps) <= 1
    requires var m := Start(buf, researchCnt, pickupSeek, stopped, last);
             AllFail(c, d, m, ps) &&
             var r := Run(c, m, Inputs(ps));
             && Faces(c, d, r, xs, lead, es, f) && NiceRun(c, d, r, xs)
             && LongEnough(c, r, xs, |es| + End(c) - f + CD_KMP_RETRY_CNT + 1)
    ensures var e := Run(c, Start(buf, researchCnt, pickupSeek, stopped, last), Inputs(ps) + xs);
            && e.pc == Returned(2048) && e.used == c.count && e.log.passes == |ps| + 1
            && AsPrinted(c, d, e.buf, c.count)
  {
    hide Run, Faces, NiceRun, LongEnough, AllFail, AsPrinted;
    Recovers(c, d, Start(buf, researchCnt, pickupSeek, stopped, last), ps, xs, lead, es, f);
  }

  // ----- one too many

  /** With the one try for a sync already used up, a silent pass ends the call. */
  lemma SecondSilence(c: Request, d: Disc, m: Machine, ps: seq<Pass>, xs: seq<Input>)
    requires Between(c, d, m) && AllFail(c, d, m, ps) && Affordable(m, ps) && Silences(ps) == m.kmpRetry - 1
    requires var r := Run(c, m, Inputs(ps)); IsPass(c, r, xs) && Silent(c, r, xs)
    ensures var e := Run(c, m, Inputs(ps) + xs); e.pc == Returned(-4) && e.log.passes == m.log.passes + |ps| + 1
  {
    hide Run, AllFail, Silent, IsPass, Filled;
    AfterFailures(c, d, m, ps);
    RunConcat(c, m, Inputs(ps), xs);
    SilentPass(c, Run(c, m, Inputs(ps)), xs);
  }

  /** The machine is searching, with this sector to come. */
  ghost predicate Nearing(m: Machine, e: Sector, next: nat)
  {
    && WellShaped(m) && m.pc.SearchLbn? && 0 <= m.kmpCnt && next + RAW_SIZE <= |m.buf|
    && m.src <= next <= m.src + 2340 + 2048 * m.kmpCnt && NoSync(m.buf, m.src, next) && Holds(m.buf, next, e)
  }

  /** The read of a pass has stored another frame than the one asked for, behind a lead without a sync. */
  ghost predicate Unwanted(c: Request, m: Machine, xs: seq<Input>, lead: nat, e: Sector)
  {
    && |xs| > 0 && ReadWell(m, xs[0].read) && NoSync(xs[0].read.data, 0, lead) && lead <= 2340 + 2 * 2048
    && Holds(xs[0].read.data, lead, e) && e[..12] == SYNC && FrameOf(c.descramble(e)) != U32(c.start + m.used)
    && forall i {:trigger xs[i]} :: 1 <= i < |xs| ==> xs[i].look.granted && !xs[i].look.forceStop
  }

  lemma UnwantedLook(c: Request, m: Machine, x: Look, e: Sector, next: nat)
    requires Nearing(m, e, next) && x.granted && !x.forceStop && e[..12] == SYNC && m.frameRetry <= 0
    requires FrameOf(c.descramble(e)) != U32(c.start + m.used)
    ensures var m', frame := SearchStep(c, m, x), FrameOf(c.descramble(e));
            && m'.log.passes == m.log.passes
            && if m'.pc.SearchLbn? then Nearing(m', e, next) && m'.used == m.used && m'.frameRetry == m.frameRetry
               else m'.pc == Returned(if frame > U32(c.start + m.used) then -5 else -6)
  {
    hide SearchStep, FrameOf, U32, NoSync, Overlay;
    if next > m.src + 2340 {
      NearingOn(c, m, x, e, next);
    } else {
      SyncAhead(m.buf, next, e);
      HeaderIsAddress(c.descramble(e));
      var frame := FrameOf(c.descramble(e));
      if frame > U32(c.start + m.used) {
        FrameBeyond(c, m, x, next, frame);
      } else {
        FrameBefore(c, m, x, next, frame);
      }
    }
  }

  lemma SyncAhead(buf: seq<byte>, at: nat, e: Sector)
    requires Holds(buf, at, e) && e[..12] == SYNC
    ensures buf[at..at + RAW_SIZE] == e && Holds(buf, at, SYNC)
  {
    assert buf[at..at + 12] == buf[at..at + RAW_SIZE][..12];
  }

  lemma NearingOn(c: Request, m: Machine, x: Look, e: Sector, next: nat)
    requires Nearing(m, e, next) && x.granted && next > m.src + 2340
    ensures var m' := SearchStep(c, m, x);
            && m'.pc.SearchLbn? && Nearing(m', e, next) && m'.used == m.used && m'.frameRetry == m.frameRetry
            && m'.log.passes == m.log.passes
  {
    hide SearchStep, FrameOf, U32;
    NothingThere(c, m, x);
  }

  lemma {:induction false} UnwantedUpTo(c: Request, m: Machine, xs: seq<Input>, lead: nat, e: Sector, i: nat)
    requires WellShaped(m) && IsPass(c, m, xs) && Unwanted(c, m, xs, lead, e) && m.frameRetry <= 0 && 1 <= i < |xs|
    ensures var r := Run(c, m, xs[..i]);
            && Nearing(r, e, m.dst + lead) && r.used == m.used && r.frameRetry == m.frameRetry
            && r.log.passes == m.log.passes + 1
  {
    hide Run, SearchStep, Overlay, FrameOf, U32, NoSync, ReadStep;
    var r1 := PassReads(c, m, xs);
    if i == 1 {
      var data := xs[0].read.data;
      StoredAhead(r1.buf, m.dst, data, lead, [e]);
    } else {
      UnwantedUpTo(c, m, xs, lead, e, i - 1);
      PassLooks(c, m, xs, i - 1);
      UnwantedLook(c, Run(c, m, xs[..i - 1]), xs[i - 1].look, e, m.dst + lead);
    }
  }

  /** With no try for the frame left, the first header that names another ends the call. */
  lemma NoTryLeft(c: Request, m: Machine, xs: seq<Input>, lead: nat, e: Sector)
    requires WellShaped(m) && IsPass(c, m, xs) && Unwanted(c, m, xs, lead, e) && m.frameRetry <= 0
    ensures Run(c, m, xs).pc == Returned(if FrameOf(c.descramble(e)) > U32(c.start + m.used) then -5 else -6)
    ensures Run(c, m, xs).log.passes == m.log.passes + 1
  {
    hide Run, SearchStep, Overlay, FrameOf, U32, NoSync, ReadStep, Nearing;
    var r1 := PassReads(c, m, xs);
    var n := |xs| - 1;
    UnwantedUpTo(c, m, xs, lead, e, n);
    PassLooks(c, m, xs, n);
    UnwantedLook(c, Run(c, m, xs[..n]), xs[n].look, e, m.dst + lead);
    assert xs[..n + 1] == xs;
  }

  lemma {:induction false} OnlyMisses(c: Request, d: Disc, m: Machine, ps: seq<Pass>)
    requires WellShaped(m) && m.pc.TryRead? && m.stopped && AllFail(c, d, m, ps) && Misses(ps) == |ps| <= m.frameRetry
    ensures var r := Run(c, m, Inputs(ps));
            && r.pc.TryRead? && r.stopped && r.used == m.used && r.frameRetry == m.frameRetry - |ps|
            && r.log.passes == m.log.passes + |ps|
    decreases |ps|
  {
    hide Run, Misplaced, IsPass;
    MissesAtMost(ps);
    if ps == [] {
      RunOfNone(c, m);
    } else {
      MissesAtMost(ps[1..]);
      MisplacedPass(c, m, ps[0].xs, ps[0].why.lead, ps[0].why.es);
      OnlyMisses(c, d, Run(c, m, ps[0].xs), ps[1..]);
      RunConcat(c, m, ps[0].xs, Inputs(ps[1..]));
    }
  }

  lemma MissesAtMost(ps: seq<Pass>)
    ensures Misses(ps) <= |ps|
  {
  }

  /** Three sought passes in a row in another place, and the next header that names another frame ends the call, after
      four reads. */
  lemma FourthMiss(c: Request, d: Disc, m: Machine, ps: seq<Pass>, xs: seq<Input>, lead: nat, e: Sector)
    requires WellShaped(m) && m.pc.TryRead? && m.stopped && AllFail(c, d, m, ps) && Misses(ps) == |ps| == m.frameRetry
    requires var r := Run(c, m, Inputs(ps)); IsPass(c, r, xs) && Unwanted(c, r, xs, lead, e)
    ensures var z := Run(c, m, Inputs(ps) + xs);
            && z.pc == Returned(if FrameOf(c.descramble(e)) > U32(c.start + m.used) then -5 else -6)
            && z.log.passes == m.log.passes + m.frameRetry + 1
  {
    hide Run, AllFail, Unwanted, IsPass, FrameOf, U32;
    OnlyMisses(c, d, m, ps);
    RunConcat(c, m, Inputs(ps), xs);
    NoTryLeft(c, Run(c, m, Inputs(ps)), xs, lead, e);
  }
}
