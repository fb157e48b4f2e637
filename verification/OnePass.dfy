/** One pass is enough: from its read on, the machine delivers everything that was asked for, over whatever the deck
    sends first of the place it comes from. */
module OnePass {
  import opened Words
  import opened Layout
  import opened SectorMachine
  import opened InOrder
  import opened Completeness
  import opened Lockstep
  import KmpSearch

  // ----- earlier data

  /** A sector of another place on the disc: behind the request, or so far before it that the search only passes it
      by. */
  predicate Foreign(c: Request, e: Sector)
  {
    var frame, request := FrameOf(c.descramble(e)), U32(c.start);
    e[..12] == SYNC && frame != request && (frame > request || frame < U32(c.start - SEEK_POSITION))
  }

  ghost predicate AllForeign(c: Request, es: seq<Sector>)
  {
    forall e | e in es :: Foreign(c, e)
  }

  /** No sync in the last 304 bytes of such a sector once it is descrambled, nor across its end. */
  ghost predicate Apart(c: Request, es: seq<Sector>, first: Sector)
    decreases |es|
  {
    es != [] ==>
      && NoSync(c.descramble(es[0]) + (if |es| > 1 then es[1] else first), SECTOR_SIZE, RAW_SIZE)
      && Apart(c, es[1..], first)
  }

  ghost predicate EarlierAt(s: seq<byte>, at: nat, es: seq<Sector>)
    decreases |es|
  {
    es != [] ==> Holds(s, at, es[0]) && EarlierAt(s, at + RAW_SIZE, es[1..])
  }

  /** The machine is searching, and the next syncs it can find begin some sectors of another place, no more than it is
      ready to pass by, and then, one after another, the disc's sectors from f up to the last one asked for. */
  ghost predicate Facing(c: Request, d: Disc, m: Machine, es: seq<Sector>, f: nat, next: nat)
  {
    if es == [] then Aimed(c, d, m, f, next)
    else
      && WellShaped(m) && m.pc.SearchLbn? && 0 <= m.kmpCnt && 0 < m.frameRetry
      && m.src <= next <= m.src + RAW_SIZE - 12 + SECTOR_SIZE * m.kmpCnt
      && NoSync(m.buf, m.src, next)
      && m.used == 0 && m.goMsf == U32(c.start - SEEK_POSITION) && m.researchCnt + |es| <= PREVIOUS_DATA_SKIP_COUNT
      && AllForeign(c, es) && Apart(c, es, d.sector(f)) && EarlierAt(m.buf, next, es)
      && f <= c.start < End(c) && WellHeaded(c, d, f, End(c))
      && SectorsAt(d, m.buf, next + RAW_SIZE * |es|, f, End(c))
      && next + RAW_SIZE * (|es| + End(c) - f) <= m.log.base + m.log.got <= |m.buf|
      && m.log.reach <= m.log.base + m.log.got
  }

  lemma EarlierKept(s: seq<byte>, s': seq<byte>, from: nat, at: nat, es: seq<Sector>)
    requires EarlierAt(s, at, es) && from <= at && |s'| == |s| && forall i :: from <= i < |s| ==> s'[i] == s[i]
    ensures EarlierAt(s', at, es)
    decreases |es|
  {
    if es != [] {
      assert s'[at..at + RAW_SIZE] == s[at..at + RAW_SIZE];
      EarlierKept(s, s', from, at + RAW_SIZE, es[1..]);
    }
  }

  /** Where a visit to SEARCH_LBN has got to. */
  ghost predicate Advance(c: Request, d: Disc, m: Machine, es: seq<Sector>, f: nat, next: nat,
                          m': Machine, es': seq<Sector>, f': nat, next': nat, first: nat)
    requires WellShaped(m)
  {
    && WellShaped(m') && Filled(c, d, m', first) && SamePass(m, m') && f' <= End(c)
    && next' + RAW_SIZE * (|es'| + End(c) - f') == next + RAW_SIZE * (|es| + End(c) - f)
    && (Gridded(m, next) ==> Gridded(m', next'))
    && (if f' == End(c) then es' == [] && Complete(c, m', next')
        else Facing(c, d, m', es', f', next') && |es'| + End(c) - f' + m'.kmpCnt < |es| + End(c) - f + m.kmpCnt)
  }

  /** No sync within reach: one search window further. */
  lemma MissesEarlier(c: Request, d: Disc, m: Machine, x: Look, es: seq<Sector>, f: nat, next: nat, first: nat)
    requires es != [] && Facing(c, d, m, es, f, next) && Nice(c, d, m, x) && Filled(c, d, m, first)
    requires next > m.src + RAW_SIZE - 12
    ensures Advance(c, d, m, es, f, next, SearchStep(c, m, x), es, f, next, first)
  {
    hide WellHeaded, SectorsAt, SyncOffset, EarlierAt, Apart, AllForeign, Filled, FrameOf, U32;
    NoSyncIsFound(m, next);
    var m' := Missed(Scanned(m));
    assert m'.buf == Overlay(m.buf, m.dst, []);
    FilledKept(c, d, m, m', m.dst, [], first);
  }

  /** A sector of another place: it is inspected and passed by. */
  lemma PassesEarlier(c: Request, d: Disc, m: Machine, x: Look, es: seq<Sector>, f: nat, next: nat)
    requires es != [] && Facing(c, d, m, es, f, next) && Nice(c, d, m, x) && next <= m.src + RAW_SIZE - 12
    ensures var open := Descrambled(AtSync(m, next), c.descramble(es[0]));
            SearchStep(c, m, x) == Skip(open, SECTOR_SIZE)
  {
    hide WellHeaded, SectorsAt, SyncOffset, Apart, FrameOf, U32, NoSync;
    assert es[0] in es;
    SyncIsFound(m, next, es[0]);
    assert RawAt(AtSync(m, next)) == es[0];
  }

  lemma OpenFields(m: Machine, next: nat, plain: Sector)
    requires WellShaped(m) && m.src <= next && next + RAW_SIZE <= |m.buf|
    ensures var open := Descrambled(AtSync(m, next), plain);
            && open.researchCnt == m.researchCnt + 1 && open.used == m.used
            && open.log.reach <= Max(m.log.reach, next + RAW_SIZE)
            && |open.buf| == |m.buf| && forall i :: next + RAW_SIZE <= i < |m.buf| ==> open.buf[i] == m.buf[i]
  {
  }

  lemma FewerForeign(c: Request, es: seq<Sector>)
    requires es != [] && AllForeign(c, es)
    ensures AllForeign(c, es[1..])
  {
    hide Foreign;
  }

  /** What lies behind the sector just descrambled. */
  lemma BehindEarlier(c: Request, d: Disc, m: Machine, buf: seq<byte>, es: seq<Sector>, f: nat, next: nat)
    requires es != [] && Facing(c, d, m, es, f, next) && buf == Overlay(m.buf, next, c.descramble(es[0]))
    ensures AllForeign(c, es[1..]) && Apart(c, es[1..], d.sector(f)) && EarlierAt(buf, next + RAW_SIZE, es[1..])
    ensures SectorsAt(d, buf, next + RAW_SIZE * |es|, f, End(c)) && NoSync(buf, next + SECTOR_SIZE, next + RAW_SIZE)
  {
    hide WellHeaded, FrameOf, U32, NoSync, AllForeign;
    var plain := c.descramble(es[0]);
    FewerForeign(c, es);
    OverlayParts(m.buf, next, plain, next, next + RAW_SIZE);
    EarlierKept(m.buf, buf, next + RAW_SIZE, next + RAW_SIZE, es[1..]);
    SectorsKept(d, m.buf, buf, next + RAW_SIZE * |es|, f, next + RAW_SIZE * |es|, f, End(c));
    var second := if |es| > 1 then es[1] else d.sector(f);
    if |es| == 1 { assert Holds(buf, next + RAW_SIZE + RAW_SIZE * (f - f), d.sector(f)); }
    NoSyncBetween(buf, next, plain, second, next + SECTOR_SIZE);
  }

  lemma FacesNext(c: Request, d: Disc, m: Machine, es: seq<Sector>, f: nat, next: nat, first: nat)
    requires es != [] && Facing(c, d, m, es, f, next) && next <= m.src + RAW_SIZE - 12 && Filled(c, d, m, first)
    ensures var m' := Skip(Descrambled(AtSync(m, next), c.descramble(es[0])), SECTOR_SIZE);
            Advance(c, d, m, es, f, next, m', es[1..], f, next + RAW_SIZE, first)
  {
    hide WellHeaded, FrameOf, U32, NoSync, Filled, Descrambled, AllForeign, EarlierAt, SectorsAt, Apart, Overlay;
    var plain, open := c.descramble(es[0]), Descrambled(AtSync(m, next), c.descramble(es[0]));
    var m' := Skip(open, SECTOR_SIZE);
    DescrambledAt(m, next, plain);
    OpenFields(m, next, plain);
    FilledKept(c, d, m, m', next, plain, first);
    BehindEarlier(c, d, m, m'.buf, es, f, next);
  }

  lemma FacingProgress(c: Request, d: Disc, m: Machine, x: Look, es: seq<Sector>, f: nat, next: nat, first: nat)
    returns (es': seq<Sector>, f': nat, next': nat)
    requires Facing(c, d, m, es, f, next) && Nice(c, d, m, x) && InStep(m) && Filled(c, d, m, first)
    ensures Advance(c, d, m, es, f, next, SearchStep(c, m, x), es', f', next', first)
  {
    hide SearchStep, Aimed, Nice, Filled, InStep, Complete, AllForeign, EarlierAt, Apart, NoSync, SectorsAt, WellHeaded;
    if es == [] {
      es' := [];
      f', next' := SearchProgress(c, d, m, x, f, next, first);
    } else if next > m.src + RAW_SIZE - 12 {
      MissesEarlier(c, d, m, x, es, f, next, first);
      es', f', next' := es, f, next;
    } else {
      PassesEarlier(c, d, m, x, es, f, next);
      FacesNext(c, d, m, es, f, next, first);
      es', f', next' := es[1..], f, next + RAW_SIZE;
    }
  }

  lemma FacingSearches(c: Request, d: Disc, m: Machine, es: seq<Sector>, f: nat, next: nat)
    requires Facing(c, d, m, es, f, next)
    ensures WellShaped(m) && m.pc.SearchLbn? && f < End(c) && 0 <= m.kmpCnt && next <= m.log.base + m.log.got
    ensures m.src <= next
  {
    hide WellHeaded, SectorsAt, NoSync, EarlierAt, Apart, AllForeign;
  }

  // ----- runs

  /** Nice inputs all along a run. */
  ghost predicate NiceRun(c: Request, d: Disc, m: Machine, xs: seq<Input>)
    requires WellShaped(m)
    decreases |xs|
  {
    if xs == [] then true
    else
      StepKeepsShape(c, m, xs[0]);
      (m.pc.SearchLbn? ==> Nice(c, d, m, xs[0].look)) && NiceRun(c, d, Step(c, m, xs[0]), xs[1..])
  }

  /** So many inputs, or as many as it takes for the call to end. */
  ghost predicate LongEnough(c: Request, m: Machine, xs: seq<Input>, n: int)
    requires WellShaped(m)
  {
    |xs| >= n || !Active(Run(c, m, xs))
  }

  /** From any state that faces the disc's sectors, with some of another place before them or not, nice inputs lead to
      the end of the call within the pass under way: every remaining slot is filled with what the disc holds. */
  lemma {:induction false} OnePassSuffices(c: Request, d: Disc, m: Machine, xs: seq<Input>, es: seq<Sector>, f: nat,
                                           next: nat, first: nat)
    requires Facing(c, d, m, es, f, next) && InStep(m) && Filled(c, d, m, first)
    requires NiceRun(c, d, m, xs) && LongEnough(c, m, xs, |es| + End(c) - f + m.kmpCnt)
    ensures var r := Run(c, m, xs);
            && Complete(c, r, next + RAW_SIZE * (|es| + End(c) - f)) && Filled(c, d, r, first)
            && SamePass(m, r) && (Gridded(m, next) ==> r.log.aligned)
    decreases |xs|
  {
    hide Step, Facing, InStep, Filled, Nice, Gridded, Complete, SearchStep;
    FacingSearches(c, d, m, es, f, next);
    assert xs != [];
    SearchIsStep(c, m, xs[0]);
    var m' := Step(c, m, xs[0]);
    var es', f', next' := FacingProgress(c, d, m, xs[0].look, es, f, next, first);
    StepInStep(c, m, xs[0]);
    if f' == End(c) {
      CompleteIsEnded(c, m', next');
      EndedStays(c, m', xs[1..]);
    } else {
      OnePassSuffices(c, d, m', xs[1..], es', f', next', first);
    }
  }

  lemma CompleteIsEnded(c: Request, m: Machine, end: nat)
    requires Complete(c, m, end)
    ensures !Active(m) && (Gridded(m, end) ==> m.log.aligned)
  {
  }

  lemma SearchIsStep(c: Request, m: Machine, x: Input)
    requires WellShaped(m) && m.pc.SearchLbn?
    ensures Step(c, m, x) == SearchStep(c, m, x.look)
  {
  }

  lemma {:induction false} EndedStays(c: Request, m: Machine, xs: seq<Input>)
    requires WellShaped(m) && !Active(m)
    ensures Run(c, m, xs) == m
    decreases |xs|
  {
    if xs != [] {
      EndedStays(c, m, xs[1..]);
    }
  }

  // ----- a pass from its read on

  /** Bytes that hold, from a place on, one whole sector of the disc after another, as far as they go. */
  ghost predicate Carries(d: Disc, data: seq<byte>, at: nat, f: nat)
  {
    forall g {:trigger d.sector(g)} :: f <= g && at + RAW_SIZE * (g + 1 - f) <= |data| ==>
      Holds(data, at + RAW_SIZE * (g - f), d.sector(g))
  }

  /** Bytes as the deck sends them: lead bytes without a sync, then some sectors of another place, then the disc's
      sectors from frame f on. */
  ghost predicate Stream(c: Request, d: Disc, data: seq<byte>, lead: nat, es: seq<Sector>, f: nat)
  {
    && NoSync(data, 0, lead) && lead + RAW_SIZE * |es| <= |data|
    && AllForeign(c, es) && Apart(c, es, d.sector(f)) && EarlierAt(data, lead, es)
    && Carries(d, data, lead + RAW_SIZE * |es|, f)
  }

  lemma {:induction false} EarlierInside(s: seq<byte>, lo: nat, hi: nat, at: nat, es: seq<Sector>)
    requires lo <= hi <= |s| && EarlierAt(s[lo..hi], at, es)
    ensures EarlierAt(s, lo + at, es)
    decreases |es|
  {
    if es != [] {
      Within(s, lo, hi, at, at + RAW_SIZE);
      EarlierInside(s, lo, hi, at + RAW_SIZE, es[1..]);
    }
  }

  /** How many headers count as inspected already when a read has been answered. */
  function Inspected(m: Machine, r: ReadResult): nat
    requires r.Answer?
  {
    if m.stopped || r.sought then 0 else m.researchCnt
  }

  lemma StreamInBuffer(c: Request, d: Disc, buf: seq<byte>, at: nat, data: seq<byte>, lead: nat, es: seq<Sector>,
                       f: nat, end: nat)
    requires at + |data| <= |buf| && buf[at..at + |data|] == data && Stream(c, d, data, lead, es, f)
    requires f <= end && lead + RAW_SIZE * (|es| + end - f) <= |data| && 1 <= |es| + end - f
    ensures NoSync(buf, at, at + lead) && EarlierAt(buf, at + lead, es)
    ensures SectorsAt(d, buf, at + lead + RAW_SIZE * |es|, f, end)
  {
    hide AllForeign, Apart;
    forall p | at <= p < at + lead
      ensures !KmpSearch.OccursAt(buf, SYNC, p)
    {
      OccursBefore(buf, at, data, p);
    }
    EarlierInside(buf, at, at + |data|, lead, es);
    forall g | f <= g < end
      ensures Holds(buf, at + lead + RAW_SIZE * |es| + RAW_SIZE * (g - f), d.sector(g))
    {
      var k := lead + RAW_SIZE * |es| + RAW_SIZE * (g - f);
      assert Holds(data, k, d.sector(g));
      Within(buf, at, at + |data|, k, k + RAW_SIZE);
    }
  }

  /** An occurrence that begins before whole sectors of the data ends inside the data. */
  lemma OccursBefore(buf: seq<byte>, at: nat, data: seq<byte>, p: nat)
    requires at + |data| <= |buf| && buf[at..at + |data|] == data && at <= p && p + 12 <= at + |data|
    ensures KmpSearch.OccursAt(buf, SYNC, p) <==> KmpSearch.OccursAt(data, SYNC, p - at)
  {
    OccursInside(buf, at, at + |data|, p - at);
  }

  lemma ReadFaces(c: Request, d: Disc, m: Machine, r: ReadResult, lead: nat, es: seq<Sector>, f: nat)
    requires WellShaped(m) && m.pc.TryRead? && 0 < m.frameRetry && f <= c.start + m.used < End(c)
    requires r.Answer? && r.size > 0 && m.dst + |r.data| <= |m.buf|
    requires es != [] ==> m.used == 0 && Inspected(m, r) + |es| <= PREVIOUS_DATA_SKIP_COUNT
    requires Stream(c, d, r.data, lead, es, f) && WellHeaded(c, d, f, End(c))
    requires lead <= RAW_SIZE - 12 + SECTOR_SIZE * CD_KMP_RETRY_CNT && lead + RAW_SIZE * (|es| + End(c) - f) <= |r.data|
    ensures Facing(c, d, ReadStep(c, m, r), es, f, m.dst + lead) && InStep(ReadStep(c, m, r))
  {
    hide WellHeaded, SectorsAt, NoSync, EarlierAt, Apart, AllForeign, Carries, U32, Overlay;
    var m', n := ReadStep(c, m, r), |r.data|;
    OverlayParts(m.buf, m.dst, r.data, m.dst, m.dst + n);
    StreamInBuffer(c, d, m'.buf, m.dst, r.data, lead, es, f, End(c));
  }

  lemma ReadFields(c: Request, d: Disc, m: Machine, r: ReadResult)
    requires WellShaped(m) && m.pc.TryRead? && r.Answer? && r.size > 0 && m.dst + |r.data| <= |m.buf|
    requires Filled(c, d, m, 0)
    ensures var m' := ReadStep(c, m, r);
            && WellShaped(m') && !m'.stopped && m'.src == m.dst && m'.kmpCnt == CD_KMP_RETRY_CNT && m'.log.aligned
            && m'.log.passes == m.log.passes + 1 && m'.log.base == m.dst && m'.log.got == |r.data|
            && Filled(c, d, m', 0)
  {
    hide Payload, U32;
    FilledKept(c, d, m, ReadStep(c, m, r), m.dst, r.data, 0);
  }

  /** One pass, from its read to the end of the call. */
  lemma PassDelivers(c: Request, d: Disc, m: Machine, xs: seq<Input>, lead: nat, es: seq<Sector>, f: nat)
    requires WellShaped(m) && m.pc.TryRead? && 0 < m.frameRetry && f <= c.start + m.used < End(c)
    requires Filled(c, d, m, 0)
    requires xs != [] && xs[0].read.Answer? && xs[0].read.size > 0 && m.dst + |xs[0].read.data| <= |m.buf|
    requires es != [] ==> m.used == 0 && Inspected(m, xs[0].read) + |es| <= PREVIOUS_DATA_SKIP_COUNT
    requires Stream(c, d, xs[0].read.data, lead, es, f) && WellHeaded(c, d, f, End(c))
    requires lead <= RAW_SIZE - 12 + SECTOR_SIZE * CD_KMP_RETRY_CNT
    requires lead + RAW_SIZE * (|es| + End(c) - f) <= |xs[0].read.data|
    requires NiceRun(c, d, m, xs) && LongEnough(c, m, xs, |es| + End(c) - f + CD_KMP_RETRY_CNT + 1)
    ensures var r := Run(c, m, xs);
            && Complete(c, r, m.dst + lead + RAW_SIZE * (|es| + End(c) - f)) && Filled(c, d, r, 0) && InStep(r)
            && r.log.passes == m.log.passes + 1 && r.log.base == m.dst && r.log.got == |xs[0].read.data|
            && r.log.reach <= r.log.base + r.log.got && !r.stopped
            && (lead % 4 == 0 ==> r.log.aligned)
  {
    hide Stream, WellHeaded, Facing, Nice, Filled, Complete, InStep, ReadStep, SearchStep;
    var m' := Step(c, m, xs[0]);
    ReadFaces(c, d, m, xs[0].read, lead, es, f);
    ReadFields(c, d, m, xs[0].read);
    OnePassSuffices(c, d, m', xs[1..], es, f, m.dst + lead, 0);
    RunInStep(c, m', xs[1..]);
  }

  /** A call on so many sectors that the whole seek tolerance is read; what its first read stores is a stream of the
      disc's sectors whose lead, sectors of another place and frames ahead of the request take no more than twelve
      sectors' room; nice inputs, to the end. */
  ghost predicate Sought(c: Request, d: Disc, m: Machine, xs: seq<Input>, lead: nat, es: seq<Sector>, f: nat)
  {
    && WellShaped(m) && m.pc.TryRead? && m.used == 0 && 0 < m.frameRetry
    && (1 <= c.count <= 187 || c.count == MAX_SECTORS) && f <= c.start
    && lead + RAW_SIZE * (|es| + c.start - f) <= RAW_SIZE * SEEK_TOLERANCE
    && lead <= RAW_SIZE - 12 + SECTOR_SIZE * CD_KMP_RETRY_CNT
    && xs != [] && xs[0].read.Answer? && xs[0].read.size > 0
    && (es != [] ==> Inspected(m, xs[0].read) + |es| <= PREVIOUS_DATA_SKIP_COUNT)
    && |xs[0].read.data| == RAW_SIZE * PlannedSectors(c.count)
    && Stream(c, d, xs[0].read.data, lead, es, f) && WellHeaded(c, d, f, End(c))
    && NiceRun(c, d, m, xs) && LongEnough(c, m, xs, |es| + End(c) - f + CD_KMP_RETRY_CNT + 1)
  }

  /** The twelve-sector tolerance suffices. For up to 187 consecutive sectors, or 200, whenever the lead, up to five
      sectors of another place and the frames ahead of the request together take no more than twelve sectors' room,
      one read delivers everything: no second read, nothing inspected beyond what was read, every slot as on the disc.
      */
  lemma SeekToleranceSuffices(c: Request, d: Disc, m: Machine, xs: seq<Input>, lead: nat, es: seq<Sector>, f: nat)
    requires Sought(c, d, m, xs, lead, es, f)
    ensures var r, data := Run(c, m, xs), xs[0].read.data;
            && r.pc == Returned(SECTOR_SIZE) && r.used == c.count && r.log.passes == m.log.passes + 1
            && r.log.reach <= |data|
            && Filled(c, d, r, 0) && AsPrinted(c, d, r.buf, c.count)
            && r.lastSector == U32(End(c) - 1)
            && (lead % 4 == 0 ==> 4 * r.log.consumed == lead + RAW_SIZE * (|es| + End(c) - f))
  {
    hide Stream, WellHeaded, NiceRun, Payload, Run;
    ToleranceIsRead(c.count);
    PassDelivers(c, d, m, xs, lead, es, f);
    FilledIsPrinted(c, d, Run(c, m, xs));
  }
}
