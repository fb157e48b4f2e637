/** The driver with a disc in it: what a call delivers when the blocks captured are a stream of the disc's sectors. */
module DiscCalls {
  import opened Words
  import opened Layout
  import opened SingleBuffer
  import opened Capture
  import opened FlowControl
  import opened RingQueue
  import opened Trails
  import opened Worlds
  import SM = SectorMachine
  import InOrder
  import opened Provenance
  import opened Lockstep
  import opened Completeness
  import opened OnePass
  import opened ReadAhead
  import opened Evidence
  import RetryBound
  import KmpSearch

  /** From some time on memory can be had, and the decoder repairs every sector as the disc has it. */
  ghost predicate Obliging(world: World, d: Disc, from: nat)
  {
    forall time :: from <= time ==> Repairs(world(time), d)
  }

  ghost predicate Repairs(w: Moment, d: Disc)
  {
    w.granted && forall plain: Sector :: w.decoder(plain).c3 >= SM.CD_TRUE && w.decoder(plain).sector == d.decode(plain)
  }

  /** An honest look at a brimming ring, at an obliging world, is nice. */
  lemma LookIsNice(world: World, c: SM.Request, d: Disc, m: SM.Machine, x: SM.Look, t: Trail, s: State, v: Visit)
    requires SM.WellShaped(m) && m.pc.SearchLbn? && InStep(m) && EndsAt(t, s)
    requires v.begin <= v.look <= v.end <= |t.events| && HonestLook(world, c, m, x, t, v)
    requires Steady(t, v.begin, v.look) && !t.states[v.begin].forced && Brimming(t.states[v.begin], m)
    requires Obliging(world, d, v.time)
    ensures Nice(c, d, m, x)
  {
    hide Calm, Available, SM.SearchStep, SM.SyncOffset, Looks, TakenBy, Steady;
    SteadyKeepsMode(t, s, v.begin, v.look);
    assert Repairs(world(v.time), d) && Repairs(world(v.time + 2), d);
    if m.src + RAW_SIZE <= |m.buf| {
      var k := SM.SyncOffset(m, true);
      if k >= 0 && m.src + k <= m.log.base + m.log.got {
        assert 4 * (m.log.consumed + k / 4) <= m.log.got;
        SearchingIsQuiet(t, s, v.begin, v.look);
      }
    }
  }

  lemma AdvanceInside(c: SM.Request, d: Disc, m: SM.Machine, es: seq<Sector>, f: nat, next: nat,
                      m': SM.Machine, es': seq<Sector>, f': nat, next': nat, first: nat)
    requires Facing(c, d, m, es, f, next) && SM.WellShaped(m)
    requires Advance(c, d, m, es, f, next, m', es', f', next', first)
    ensures Inside(m') && m'.log.got == m.log.got && !m'.pc.Lost? && SM.WellShaped(m')
    ensures f' <= End(c) && if f' == End(c) then !SM.Active(m') else Facing(c, d, m', es', f', next')
  {
    hide WellHeaded, SectorsAt, NoSync, Filled, EarlierAt, AllForeign, Apart;
    FacingPlaces(c, d, m, es, f, next);
    if f' < End(c) { FacingPlaces(c, d, m', es', f', next'); }
  }

  lemma FacingPlaces(c: SM.Request, d: Disc, m: SM.Machine, es: seq<Sector>, f: nat, next: nat)
    requires Facing(c, d, m, es, f, next)
    ensures SM.WellShaped(m) && f <= End(c) && m.pc.SearchLbn?
    ensures m.src <= next && next + RAW_SIZE * (|es| + End(c) - f) <= m.log.base + m.log.got
  {
    hide WellHeaded, SectorsAt, NoSync, EarlierAt, AllForeign, Apart;
  }

  /** One visit to the search, facing sectors of the disc: nice, and quiet. */
  lemma OneVisit(world: World, c: SM.Request, d: Disc, m: SM.Machine, x: SM.Look, t: Trail, s: State, v: Visit,
                 es: seq<Sector>, f: nat, next: nat)
    returns (es': seq<Sector>, f': nat, next': nat)
    requires Facing(c, d, m, es, f, next) && InStep(m) && RetryBound.Thrifty(c, m) && EndsAt(t, s) && m.dst <= m.src
    requires v.begin <= v.look <= v.end <= |t.events| && HonestLook(world, c, m, x, t, v)
    requires Steady(t, v.begin, v.end) && !t.states[v.begin].forced && Brimming(t.states[v.begin], m)
    requires Obliging(world, d, v.time)
    ensures SM.WellShaped(m) && m.pc.SearchLbn? && Nice(c, d, m, x)
    ensures var m' := SM.SearchStep(c, m, x);
            && SM.WellShaped(m') && InStep(m') && Brimming(t.states[v.end], m')
            && TakenBy(t, v.end) - TakenBy(t, v.begin) == m'.log.consumed - m.log.consumed
            && f' <= End(c) && if f' == End(c) then !SM.Active(m') else Facing(c, d, m', es', f', next')
    ensures Quiet(t, v.begin, v.end) && Only(Searching, t, v.begin, v.end) && !t.states[v.end].forced
  {
    hide Calm, Available, SM.SearchStep, SM.SyncOffset, Looks, LookFits, SyncSamples, TakenBy, Steady, Quiet, Only;
    hide Facing, Advance, Nice, Inside, InStep, Brimming, Obliging, Filled, RetryBound.Thrifty;
    FacingSearches(c, d, m, es, f, next);
    SteadyUpTo(t, v.begin, v.look, v.end);
    LookIsNice(world, c, d, m, x, t, s, v);
    NothingFilled(c, d, m);
    es', f', next' := FacingProgress(c, d, m, x, es, f, next, m.used);
    AdvanceInside(c, d, m, es, f, next, SM.SearchStep(c, m, x), es', f', next', m.used);
    SearchInStep(c, m, x);
    LookBrims(world, c, m, x, t, s, v);
    SteadyKeepsMode(t, s, v.begin, v.end);
  }

  lemma NothingFilled(c: SM.Request, d: Disc, m: SM.Machine)
    requires SM.WellShaped(m)
    ensures Filled(c, d, m, m.used)
  {
  }

  lemma SteadyUpTo(t: Trail, lo: int, mid: int, hi: int)
    requires Steady(t, lo, hi) && lo <= mid <= hi
    ensures Steady(t, lo, mid) && Steady(t, mid, hi)
  {
  }

  lemma ObligingLater(world: World, d: Disc, from: nat, later: nat)
    requires Obliging(world, d, from) && from <= later
    ensures Obliging(world, d, later)
  {
  }

  lemma HonestSearch(world: World, c: SM.Request, m: SM.Machine, x: SM.Input, t: Trail, v: Visit)
    requires SM.WellShaped(m) && HonestStep(world, c, m, x, t, v) && m.pc.SearchLbn?
    ensures v.time <= v.done && v.begin <= v.look <= v.end <= |t.events| && |t.states| == |t.events| + 1
    ensures HonestLook(world, c, m, x.look, t, v)
  {
  }

  /** From the read of a call on: its visits are nice and quiet, facing sectors of the disc. */
  lemma {:induction false} VisitsAreNice(world: World, c: SM.Request, d: Disc, m: SM.Machine, xs: seq<SM.Input>,
                                         t: Trail, s: State, vs: seq<Visit>, j: nat, es: seq<Sector>, f: nat, next: nat)
    requires SM.WellShaped(m) && EndsAt(t, s) && Told(world, c, m, xs, t, vs) && 1 <= j <= |vs|
    requires vs[j - 1].end <= |t.events| && Steady(t, vs[j - 1].end, |t.events|) && Obliging(world, d, vs[j - 1].done)
    requires var r := SM.Run(c, m, xs[..j]);
             Facing(c, d, r, es, f, next) && InStep(r) && RetryBound.Thrifty(c, r)
             && Brimming(t.states[vs[j - 1].end], r)
    requires !t.states[vs[j - 1].end].forced && !SM.Active(SM.Run(c, m, xs))
    ensures NiceRun(c, d, SM.Run(c, m, xs[..j]), xs[j..])
    ensures SearchedThrough(c, m, xs, t, vs, j)
    decreases |xs| - j
  {
    hide SM.Run, SM.Step, SM.SearchStep, HonestStep, HonestLook, Steady, Quiet, Only, Calm, Available;
    hide RetryBound.Thrifty;
    hide Brimming, Facing, Nice, NiceRun, Obliging, Inside, InStep, TakenBy, SearchedThrough, EndsAt;
    var r := SM.Run(c, m, xs[..j]);
    FacingSearches(c, d, r, es, f, next);
    assert xs[..|xs|] == xs;
    assert j < |xs|;
    var v := vs[j];
    ToldAt(world, c, m, xs, t, vs, j);
    HonestSearch(world, c, r, xs[j], t, v);
    SteadyUpTo(t, v.begin, v.end, |t.events|);
    var es', f', next' := OneVisit(world, c, d, r, xs[j].look, t, s, v, es, f, next);
    SearchIsStep(c, r, xs[j]);
    RetryBound.StepThrifty(c, r, xs[j]);
    assert xs[j..][0] == xs[j] && xs[j..][1..] == xs[j + 1..];
    if f' == End(c) {
      OnlyWhileActive(world, c, m, xs, t, vs, j + 1);
      NoneLeft(c, d, m, xs, t, vs);
    } else {
      ObligingLater(world, d, vs[j - 1].done, v.done);
      VisitsAreNice(world, c, d, m, xs, t, s, vs, j + 1, es', f', next');
    }
    OneMoreSearched(c, m, xs, t, vs, j);
    OneMoreNice(c, d, r, xs[j..]);
  }

  /** From a visit on the ring is searched only, quietly, and what is taken from it is what the machine says. */
  ghost predicate SearchedThrough(c: SM.Request, m: SM.Machine, xs: seq<SM.Input>, t: Trail, vs: seq<Visit>, j: nat)
    requires SM.WellShaped(m) && 1 <= j <= |vs| == |xs|
  {
    var lo, hi := vs[j - 1].end, vs[|vs| - 1].end;
    && Quiet(t, lo, hi) && Only(Searching, t, lo, hi)
    && TakenBy(t, hi) - TakenBy(t, lo) == SM.Run(c, m, xs).log.consumed - SM.Run(c, m, xs[..j]).log.consumed
  }

  lemma OneMoreNice(c: SM.Request, d: Disc, m: SM.Machine, xs: seq<SM.Input>)
    requires SM.WellShaped(m) && m.pc.SearchLbn? && xs != [] && Nice(c, d, m, xs[0].look)
    requires SM.WellShaped(SM.Step(c, m, xs[0])) && NiceRun(c, d, SM.Step(c, m, xs[0]), xs[1..])
    ensures NiceRun(c, d, m, xs)
  {
    hide SM.Step, Nice;
  }

  lemma NoneLeft(c: SM.Request, d: Disc, m: SM.Machine, xs: seq<SM.Input>, t: Trail, vs: seq<Visit>)
    requires SM.WellShaped(m) && 1 <= |vs| == |xs| && vs[|vs| - 1].end <= |t.events| && |t.states| == |t.events| + 1
    ensures SearchedThrough(c, m, xs, t, vs, |vs|) && NiceRun(c, d, SM.Run(c, m, xs), [])
  {
    hide SM.Run;
    assert xs[..|xs|] == xs;
  }

  lemma OneMoreSearched(c: SM.Request, m: SM.Machine, xs: seq<SM.Input>, t: Trail, vs: seq<Visit>, j: nat)
    requires SM.WellShaped(m) && 1 <= j < |vs| == |xs| && SearchedThrough(c, m, xs, t, vs, j + 1)
    requires Quiet(t, vs[j - 1].end, vs[j].end) && Only(Searching, t, vs[j - 1].end, vs[j].end)
    requires TakenBy(t, vs[j].end) - TakenBy(t, vs[j - 1].end)
          == SM.Run(c, m, xs[..j + 1]).log.consumed - SM.Run(c, m, xs[..j]).log.consumed
    ensures SearchedThrough(c, m, xs, t, vs, j)
  {
    hide SM.Run, TakenBy;
    QuietWithin(t, vs[j - 1].end, vs[j].end, vs[|vs| - 1].end);
    OnlyWithin(Searching, t, vs[j - 1].end, vs[j].end, vs[|vs| - 1].end);
  }

  /** A call takes inputs only as long as it lasts. */
  lemma OnlyWhileActive(world: World, c: SM.Request, m: SM.Machine, xs: seq<SM.Input>, t: Trail, vs: seq<Visit>, j: nat)
    requires SM.WellShaped(m) && Told(world, c, m, xs, t, vs) && j <= |xs| && !SM.Active(SM.Run(c, m, xs[..j]))
    ensures j == |xs|
  {
    hide SM.Run, HonestStep;
    if j < |xs| {
      ToldAt(world, c, m, xs, t, vs, j);
      HonestPlaces(world, c, SM.Run(c, m, xs[..j]), xs[j], t, vs[j]);
    }
  }

  // ----- calls

  /** What the driver promises of a call: a machine at its beginning, its inputs to the end, each honest, and before the
      first no more than the samples CD_Research_Frame dropped. */
  ghost predicate IsCall(world: World, c: SM.Request, m: SM.Machine, xs: seq<SM.Input>, t: Trail, s: State,
                         vs: seq<Visit>, from: nat)
  {
    && Begins(c, m) && RetryBound.Thrifty(c, m) && InStep(m) && EndsAt(t, s) && Told(world, c, m, xs, t, vs)
    && !SM.Active(SM.Run(c, m, xs)) && vs != [] && vs[0].begin <= |t.events| && vs[|vs| - 1].end == |t.events|
    && Only(Skipping, t, from, vs[0].begin)
  }

  /** The reader is at the very beginning of a stream, and the request such that the whole seek tolerance is read. */
  predicate Sweeps(c: SM.Request, q: Fifo)
  {
    q.read == 0 && (c.count <= 187 || c.count == MAX_SECTORS)
  }

  /** The stream captured and the reader's place in it suit the request: the deck has sought and comes in early
      enough, or the reader stands right before the first frame asked for. */
  ghost predicate Suits(c: SM.Request, d: Disc, q: Fifo, lead: nat, es: seq<Sector>, f0: nat)
  {
    && WellHeaded(c, d, f0, End(c)) && c.count >= 1
    && (if Sweeps(c, q) then
          && Stream(c, d, BytesOf(q.stream), lead, es, f0)
          && f0 <= c.start && lead + RAW_SIZE * (|es| + c.start - f0) <= RAW_SIZE * SEEK_TOLERANCE
          && lead <= RAW_SIZE - 12 + SECTOR_SIZE * SM.CD_KMP_RETRY_CNT
        else
          && Carries(d, BytesOf(q.stream), lead + RAW_SIZE * |es|, f0)
          && c.count <= MAX_SECTORS && AtFrame(q.read, lead + RAW_SIZE * |es|, f0, c.start))
  }

  /** The first read is bound to be answered in full, or is. */
  ghost predicate Answered(world: World, c: SM.Request, m: SM.Machine, x: SM.Input, t: Trail, v: Visit)
    requires v.begin < |t.states| && v.end < |t.states|
  {
    || Answerable(world, c, m, t.states[v.begin], v.time)
    || (x.read.Answer? && x.read.size > 0 && WaitedEnough(m, x.read, t.states[v.end]))
  }

  /** No more sectors of another place than the loop passes by, counting those inspected before. */
  predicate Passable(m: SM.Machine, x: SM.Input, es: seq<Sector>)
  {
    es != [] && x.read.Answer? ==> Inspected(m, x.read) + |es| <= SM.PREVIOUS_DATA_SKIP_COUNT
  }

  /** The ring as a call needs it: a queue in calm and data mode, no force stop, no stale report. */
  ghost predicate Ready(s: State, q: Fifo)
  {
    Calm(s) && s.dataCd && !s.forced && !StaleReport(s) && Refines(s, q)
  }

  /** A disc is in and the ring ready; the first read is answered in full, from captured blocks that are a stream of the
      disc's sectors; the decoder repairs what it is given. */
  ghost predicate Plays(world: World, c: SM.Request, d: Disc, m: SM.Machine, xs: seq<SM.Input>, t: Trail,
                        vs: seq<Visit>, from: nat, q: Fifo, lead: nat, es: seq<Sector>, f0: nat)
  {
    && |xs| == |vs| && vs != [] && from <= vs[0].begin <= vs[0].end <= |t.events| && |t.states| == |t.events| + 1
    && Ready(t.states[from], q) && Steady(t, from, |t.events|)
    && Answered(world, c, m, xs[0], t, vs[0]) && Passable(m, xs[0], es)
    && Suits(c, d, FifoAfter(q, t.events[from..vs[0].end]), lead, es, f0)
    && Obliging(world, d, vs[0].time)
  }

  /** Every slot as on the disc, after one read; the ring still the queue and ready, the next read not told to seek,
      and an aligned stream read up to the first sample behind the last sector. */
  ghost predicate Fulfilled(c: SM.Request, d: Disc, m: SM.Machine, xs: seq<SM.Input>, t: Trail, from: nat, q: Fifo,
                            at: nat, f0: nat)
    requires SM.WellShaped(m) && from <= |t.events| && |t.states| == |t.events| + 1
  {
    var r, q' := SM.Run(c, m, xs), FifoAfter(q, t.events[from..]);
    && r.pc == SM.Returned(SECTOR_SIZE) && r.used == c.count && r.log.passes == 1 && Filled(c, d, r, 0)
    && AsPrinted(c, d, r.buf, c.count) && r.lastSector == End(c) - 1 && !r.stopped
    && Ready(t.states[|t.events|], q') && (at % 4 == 0 ==> AtFrame(q'.read, at, f0, End(c)))
  }

  lemma {:induction false} EarlierPrefix(data: seq<byte>, at: nat, es: seq<Sector>, n: nat)
    requires EarlierAt(data, at, es) && at + RAW_SIZE * |es| <= n <= |data|
    ensures EarlierAt(data[..n], at, es)
    decreases |es|
  {
    if es != [] {
      assert data[..n][at..at + RAW_SIZE] == data[at..at + RAW_SIZE];
      EarlierPrefix(data, at + RAW_SIZE, es[1..], n);
    }
  }

  lemma StreamPrefix(c: SM.Request, d: Disc, data: seq<byte>, lead: nat, es: seq<Sector>, f: nat, n: nat)
    requires Stream(c, d, data, lead, es, f) && lead + RAW_SIZE * |es| <= n <= |data|
    ensures Stream(c, d, data[..n], lead, es, f)
  {
    hide AllForeign, Apart;
    var at := lead + RAW_SIZE * |es|;
    EarlierPrefix(data, lead, es, n);
    forall g | f <= g && at + RAW_SIZE * (g + 1 - f) <= n
      ensures Holds(data[..n], at + RAW_SIZE * (g - f), d.sector(g))
    {
      assert Holds(data, at + RAW_SIZE * (g - f), d.sector(g));
    }
    forall p | 0 <= p < lead
      ensures !KmpSearch.OccursAt(data[..n], SYNC, p)
    {
      assert data[..n] == data[0..n];
      if p + 12 <= n { OccursInside(data, 0, n, p); }
    }
  }

  /** What the bytes of the first read begin with: the lead, the sectors of another place, and the frame after them. */
  function LeadRead(c: SM.Request, q: Fifo, lead: nat): nat { if Sweeps(c, q) then lead else 0 }

  function EarlierRead(c: SM.Request, q: Fifo, es: seq<Sector>): seq<Sector> { if Sweeps(c, q) then es else [] }

  function FrameRead(c: SM.Request, q: Fifo, f0: nat): nat { if Sweeps(c, q) then f0 else c.start }

  /** What the first read stores. */
  lemma FirstRead(world: World, c: SM.Request, d: Disc, m: SM.Machine, r: SM.ReadResult, t: Trail, v: Visit, q: Fifo,
                  lead: nat, es: seq<Sector>, f0: nat)
    requires SM.WellShaped(m) && m.used == 0 && v.begin <= v.end <= |t.events| && |t.states| == |t.events| + 1
    requires HonestRead(world, c, m, r, t, v) && r.Answer? && r.size > 0 && FullRead(r, t, v)
    requires Refines(t.states[v.end], q) && Suits(c, d, q, lead, es, f0)
    ensures |r.data| == RAW_SIZE * PlannedSectors(c.count)
    ensures Stream(c, d, r.data, LeadRead(c, q, lead), EarlierRead(c, q, es), FrameRead(c, q, f0))
    ensures WellHeaded(c, d, FrameRead(c, q, f0), End(c))
    ensures LeadRead(c, q, lead) + RAW_SIZE * (|EarlierRead(c, q, es)| + End(c) - FrameRead(c, q, f0)) <= |r.data|
  {
    hide Stream, Carries, Peeked, Refines, BytesOf, WellHeaded, PlannedSectors, StaleReport, Only, ColdSeeks;
    hide Answerable, IsRead;
    hide WaitedEnough;
    var s, n := t.states[v.end], WordsWanted(c, m);
    ToleranceIsRead(c.count);
    if Sweeps(c, q) {
      PeekReadsStream(s, q, n);
      StreamLongEnough(s, q, n);
      StreamPrefix(c, d, BytesOf(q.stream), lead, es, f0, 2 * n);
    } else {
      PeekFromFrame(d, s, q, lead + RAW_SIZE * |es|, f0, c.start, n);
      StreamCarries(c, d, r.data, 0, [], c.start);
      HeadedFromFrame(c, d, f0, c.start);
    }
  }

  /** Before the first read: what CD_Research_Frame has dropped was there. */
  lemma BeforeTheRead(world: World, c: SM.Request, d: Disc, m: SM.Machine, xs: seq<SM.Input>, t: Trail, s: State,
                      vs: seq<Visit>, from: nat, q: Fifo, lead: nat, es: seq<Sector>, f0: nat)
    requires IsCall(world, c, m, xs, t, s, vs, from) && Plays(world, c, d, m, xs, t, vs, from, q, lead, es, f0)
    ensures |t.states| == |t.events| + 1 && from <= vs[0].begin <= |t.events| && Quiet(t, from, vs[0].begin)
    ensures Calm(t.states[vs[0].begin]) && t.states[vs[0].begin].dataCd && !t.states[vs[0].begin].forced
    ensures !StaleReport(t.states[vs[0].begin])
  {
    hide Calm, Available, TakenBy, Told, Begins, RetryBound.Thrifty, SM.Run, Suits, Obliging, Refines;
    hide Steady, Quiet, StaleReport, Answered;
    OnlyBounds(Skipping, t, from, vs[0].begin);
    WellRun(t, s, from);
    SteadyUpTo(t, from, vs[0].begin, |t.events|);
    SkippingIsQuiet(t, from, vs[0].begin);
    QuietKeepsCalm(t, s, from, vs[0].begin);
    SearchingLeavesReports(t, s, from, vs[0].begin);
    SteadyKeepsMode(t, s, from, vs[0].begin);
  }

  lemma OnlyBounds(kind: Kind, t: Trail, lo: int, hi: int)
    requires Only(kind, t, lo, hi)
    ensures 0 <= lo <= hi <= |t.events|
  {
  }

  /** A read answered in full leaves no stale report. */
  lemma ReadAnswered(world: World, c: SM.Request, m: SM.Machine, x: SM.Input, t: Trail, s: State, v: Visit)
    requires EndsAt(t, s) && v.begin <= v.end <= |t.events| && HonestRead(world, c, m, x.read, t, v)
    requires Answered(world, c, m, x, t, v) && !StaleReport(t.states[v.begin])
    ensures x.read.Answer? && x.read.size > 0 && FullRead(x.read, t, v) && !StaleReport(t.states[v.end])
    ensures Answerable(world, c, m, t.states[v.begin], v.time) && x.read.sought ==> m.stopped
  {
    hide Answerable, IsRead, Available, Only, ColdSeeks, Peeked, BytesOf, Steps;
    WellRun(t, s, v.begin);
    if !m.stopped && !x.read.sought {
      OutsideIs(t, v.begin, v.end);
      SearchingLeavesReports(t, s, v.begin, v.end);
    }
  }

  /** The first read: quiet, and the machine then stands before a stream of the disc's sectors in a brimming ring. */
  lemma AfterTheRead(world: World, c: SM.Request, d: Disc, m: SM.Machine, xs: seq<SM.Input>, t: Trail, s: State,
                     vs: seq<Visit>, from: nat, q: Fifo, lead: nat, es: seq<Sector>, f0: nat)
    requires IsCall(world, c, m, xs, t, s, vs, from) && Plays(world, c, d, m, xs, t, vs, from, q, lead, es, f0)
    ensures |t.states| == |t.events| + 1 && vs[0].time <= vs[0].done && from <= vs[0].end <= |t.events|
    ensures Quiet(t, from, vs[0].end) && !t.states[vs[0].end].forced && !StaleReport(t.states[vs[0].end])
    ensures Refines(t.states[vs[0].end], FifoAfter(q, t.events[from..vs[0].end]))
    ensures Brimming(t.states[vs[0].end], SM.ReadStep(c, m, xs[0].read))
    ensures xs[0].read.Answer? && xs[0].read.size > 0
    ensures var q1, data := FifoAfter(q, t.events[from..vs[0].end]), xs[0].read.data;
            && |data| == RAW_SIZE * PlannedSectors(c.count)
            && Stream(c, d, data, LeadRead(c, q1, lead), EarlierRead(c, q1, es), FrameRead(c, q1, f0))
            && WellHeaded(c, d, FrameRead(c, q1, f0), End(c))
            && LeadRead(c, q1, lead) + RAW_SIZE * (|EarlierRead(c, q1, es)| + End(c) - FrameRead(c, q1, f0)) <= |data|
  {
    hide Calm, Available, TakenBy, RetryBound.Thrifty, SM.Run, Suits, Obliging, FullRead, Steady, Quiet, StaleReport;
    hide Told;
    hide Refines, FifoAfter, Stream, WellHeaded, PlannedSectors, SM.ReadStep, HonestRead, Only, Answered, EarlierRead;
    BeforeTheRead(world, c, d, m, xs, t, s, vs, from, q, lead, es, f0);
    FirstIsHonest(world, c, m, xs, t, vs);
    var v := vs[0];
    ReadAnswered(world, c, m, xs[0], t, s, v);
    SteadyUpTo(t, from, v.begin, |t.events|);
    SteadyUpTo(t, v.begin, v.end, |t.events|);
    ReadBrims(world, c, m, xs[0].read, t, s, v);
    QuietWithin(t, from, v.begin, v.end);
    SteadyKeepsMode(t, s, v.begin, v.end);
    QuietKeepsQueue(t, s, q, from, v.end);
    FirstRead(world, c, d, m, xs[0].read, t, v, FifoAfter(q, t.events[from..v.end]), lead, es, f0);
  }

  lemma FirstIsHonest(world: World, c: SM.Request, m: SM.Machine, xs: seq<SM.Input>, t: Trail, vs: seq<Visit>)
    requires SM.WellShaped(m) && m.pc.TryRead? && Told(world, c, m, xs, t, vs) && vs != []
    ensures |t.states| == |t.events| + 1 && vs[0].time <= vs[0].done && vs[0].begin <= vs[0].end <= |t.events|
    ensures HonestRead(world, c, m, xs[0].read, t, vs[0])
    ensures SM.Run(c, m, xs[..1]) == SM.ReadStep(c, m, xs[0].read)
  {
    hide SM.ReadStep, HonestRead, HonestLook;
    ToldAt(world, c, m, xs, t, vs, 0);
    assert xs[..0] == [];
    RunOfNone(c, m);
  }

  lemma SuitsBounds(c: SM.Request, d: Disc, q: Fifo, lead: nat, es: seq<Sector>, f0: nat)
    requires Suits(c, d, q, lead, es, f0)
    ensures 1 <= c.count <= MAX_SECTORS && f0 <= c.start && FrameRead(c, q, f0) <= c.start
    ensures LeadRead(c, q, lead) <= RAW_SIZE - 12 + SECTOR_SIZE * SM.CD_KMP_RETRY_CNT
    ensures EarlierRead(c, q, es) != [] ==> es != [] && EarlierRead(c, q, es) == es
    ensures lead % 4 == 0 ==> LeadRead(c, q, lead) % 4 == 0
    ensures lead % 4 == 0 ==>
              4 * q.read + LeadRead(c, q, lead) + RAW_SIZE * (|EarlierRead(c, q, es)| + End(c) - FrameRead(c, q, f0))
              == lead + RAW_SIZE * |es| + RAW_SIZE * (End(c) - f0)
  {
    hide Stream, Carries, WellHeaded;
  }

  lemma NiceFromRead(c: SM.Request, d: Disc, m: SM.Machine, xs: seq<SM.Input>)
    requires SM.WellShaped(m) && m.pc.TryRead? && xs != []
    requires SM.WellShaped(SM.ReadStep(c, m, xs[0].read)) && NiceRun(c, d, SM.ReadStep(c, m, xs[0].read), xs[1..])
    ensures NiceRun(c, d, m, xs)
  {
    hide SM.ReadStep;
  }

  lemma BeginsBare(c: SM.Request, d: Disc, m: SM.Machine)
    requires Begins(c, m)
    ensures SM.WellShaped(m) && m.dst == 0 && m.used == 0 && m.pc.TryRead? && 0 < m.frameRetry && m.log.passes == 0
    ensures Filled(c, d, m, 0)
  {
  }

  lemma ReadConsumesNothing(c: SM.Request, m: SM.Machine, r: SM.ReadResult)
    requires m.pc.TryRead? && SM.ReadStep(c, m, r).pc.SearchLbn?
    ensures SM.ReadStep(c, m, r).log.consumed == 0
  {
    hide SM.Overlay, U32;
  }

  /** After the call: the queue, and how far it has been read. */
  lemma AfterTheCall(c: SM.Request, m: SM.Machine, xs: seq<SM.Input>, t: Trail, s: State, vs: seq<Visit>,
                     from: nat, q: Fifo)
    requires SM.WellShaped(m) && EndsAt(t, s) && 1 <= |vs| == |xs| && vs[|vs| - 1].end == |t.events|
    requires from <= vs[0].end && Quiet(t, from, vs[0].end) && SearchedThrough(c, m, xs, t, vs, 1)
    requires Ready(t.states[from], q) && !t.states[vs[0].end].forced && !StaleReport(t.states[vs[0].end])
    requires Steady(t, vs[0].end, |t.events|)
    ensures from <= |t.events| && |t.states| == |t.events| + 1
    ensures var s', q' := t.states[|t.events|], FifoAfter(q, t.events[from..]);
            && Ready(s', q')
            && q'.read == FifoAfter(q, t.events[from..vs[0].end]).read
                          + SM.Run(c, m, xs).log.consumed - SM.Run(c, m, xs[..1]).log.consumed
  {
    hide Calm, Refines, FifoAfter, Quiet, Only, TakenBy, SM.Run, Steady, StaleReport;
    var mid, hi := vs[0].end, |t.events|;
    QuietWithin(t, from, mid, hi);
    QuietBounds(t, from, hi);
    QuietKeepsCalm(t, s, from, hi);
    QuietKeepsQueue(t, s, q, from, hi);
    SearchingReads(t, q, from, mid, hi);
    SearchingLeavesReports(t, s, mid, hi);
    SteadyKeepsMode(t, s, mid, hi);
    assert t.events[from..hi] == t.events[from..];
  }

  lemma LastOfCall(c: SM.Request, d: Disc, m: SM.Machine, end: nat, f: nat)
    requires Complete(c, m, end) && InStep(m) && WellHeaded(c, d, f, End(c)) && f <= c.start && c.count >= 1
    ensures m.pc == SM.Returned(SECTOR_SIZE) && m.used == c.count && m.lastSector == End(c) - 1
    ensures m.log.aligned ==> 4 * m.log.consumed == end - m.log.base
  {
    hide WellHeaded;
    LastFits(c, d, f);
  }

  /** What the first read of such a call stores, where that stands in the stream, and how many sectors it has to fit. */
  ghost predicate ReadsStream(c: SM.Request, d: Disc, x: SM.Input, q1: Fifo, lead: nat, es: seq<Sector>, f0: nat)
  {
    var lead', es', f := LeadRead(c, q1, lead), EarlierRead(c, q1, es), FrameRead(c, q1, f0);
    && x.read.Answer? && x.read.size > 0 && |x.read.data| == RAW_SIZE * PlannedSectors(c.count)
    && Stream(c, d, x.read.data, lead', es', f) && WellHeaded(c, d, f, End(c))
    && lead' + RAW_SIZE * (|es'| + End(c) - f) <= |x.read.data|
  }

  /** The visits of such a call: nice, over a ring that is only searched. */
  lemma NiceCall(world: World, c: SM.Request, d: Disc, m: SM.Machine, xs: seq<SM.Input>, t: Trail, s: State,
                 vs: seq<Visit>, from: nat, q: Fifo, lead: nat, es: seq<Sector>, f0: nat)
    requires IsCall(world, c, m, xs, t, s, vs, from) && Plays(world, c, d, m, xs, t, vs, from, q, lead, es, f0)
    ensures SM.WellShaped(m) && |t.states| == |t.events| + 1 && from <= vs[0].end <= |t.events| && |xs| == |vs|
    ensures Quiet(t, from, vs[0].end) && SearchedThrough(c, m, xs, t, vs, 1) && Steady(t, vs[0].end, |t.events|)
    ensures !t.states[vs[0].end].forced && !StaleReport(t.states[vs[0].end]) && SM.Run(c, m, xs[..1]).log.consumed == 0
    ensures ReadsStream(c, d, xs[0], FifoAfter(q, t.events[from..vs[0].end]), lead, es, f0) && NiceRun(c, d, m, xs)
  {
    hide Calm, Available, TakenBy, RetryBound.Thrifty, SM.Run, SM.ReadStep, Suits, FullRead, Steady, Quiet, StaleReport;
    hide Refines, FifoAfter, Stream, WellHeaded, PlannedSectors, Told, Facing, NiceRun, Brimming, InStep, Only;
    hide HonestRead, SearchedThrough, Obliging, Begins, Answered, LeadRead, EarlierRead, FrameRead, Filled;
    BeginsBare(c, d, m);
    AfterTheRead(world, c, d, m, xs, t, s, vs, from, q, lead, es, f0);
    FirstIsHonest(world, c, m, xs, t, vs);
    var q1, r1 := FifoAfter(q, t.events[from..vs[0].end]), SM.ReadStep(c, m, xs[0].read);
    var lead', es', f := LeadRead(c, q1, lead), EarlierRead(c, q1, es), FrameRead(c, q1, f0);
    SuitsBounds(c, d, q1, lead, es, f0);
    ReadFitsChunk(c.count, 0);
    ReadFaces(c, d, m, xs[0].read, lead', es', f);
    FacingSearches(c, d, r1, es', f, m.dst + lead');
    SteadyUpTo(t, from, vs[0].end, |t.events|);
    ObligingLater(world, d, vs[0].time, vs[0].done);
    RetryBound.ReadThrifty(c, m, xs[0].read);
    VisitsAreNice(world, c, d, m, xs, t, s, vs, 1, es', f, m.dst + lead');
    NiceFromRead(c, d, m, xs);
    ReadConsumesNothing(c, m, xs[0].read);
  }

  /** So its run is one pass, with everything delivered. */
  lemma RunOfCall(c: SM.Request, d: Disc, m: SM.Machine, xs: seq<SM.Input>, q1: Fifo, lead: nat, es: seq<Sector>,
                  f0: nat)
    requires Begins(c, m) && SM.WellShaped(m) && xs != [] && !SM.Active(SM.Run(c, m, xs))
    requires Suits(c, d, q1, lead, es, f0) && Passable(m, xs[0], es)
    requires ReadsStream(c, d, xs[0], q1, lead, es, f0) && NiceRun(c, d, m, xs)
    ensures var r, lead', f := SM.Run(c, m, xs), LeadRead(c, q1, lead), FrameRead(c, q1, f0);
            && Complete(c, r, lead' + RAW_SIZE * (|EarlierRead(c, q1, es)| + End(c) - f)) && InStep(r)
            && Filled(c, d, r, 0) && r.log.passes == 1 && r.log.base == 0 && !r.stopped
            && (lead' % 4 == 0 ==> r.log.aligned) && WellHeaded(c, d, f, End(c))
  {
    hide SM.Run, Suits, Stream, WellHeaded, PlannedSectors, NiceRun, Filled, InStep, Complete, LongEnough, Begins;
    hide LeadRead, EarlierRead, FrameRead;
    BeginsBare(c, d, m);
    var lead', es', f := LeadRead(c, q1, lead), EarlierRead(c, q1, es), FrameRead(c, q1, f0);
    SuitsBounds(c, d, q1, lead, es, f0);
    ReadFitsChunk(c.count, 0);
    EndedIsLongEnough(c, m, xs, |es'| + End(c) - f + SM.CD_KMP_RETRY_CNT + 1);
    PassDelivers(c, d, m, xs, lead', es', f);
  }

  /** With the disc in and the decoder obliging, a call on blocks captured from a stream of the disc's sectors delivers
      every sector asked for as it is on the disc, with a single read, and leaves the ring a calm queue, read up to the
      first sample behind the last sector: ready for the next call. */
  lemma CallDelivers(world: World, c: SM.Request, d: Disc, m: SM.Machine, xs: seq<SM.Input>, t: Trail, s: State,
                     vs: seq<Visit>, from: nat, q: Fifo, lead: nat, es: seq<Sector>, f0: nat)
    requires IsCall(world, c, m, xs, t, s, vs, from) && Plays(world, c, d, m, xs, t, vs, from, q, lead, es, f0)
    ensures SM.WellShaped(m) && from <= |t.events| && |t.states| == |t.events| + 1
    ensures Fulfilled(c, d, m, xs, t, from, q, lead + RAW_SIZE * |es|, f0)
  {
    hide Ready, RetryBound.Thrifty, SM.Run, Suits, Steady, Quiet, StaleReport, FifoAfter, WellHeaded, Told, Filled;
    hide InStep, Only, SearchedThrough, Complete, Obliging, Begins, Answered, LeadRead, EarlierRead, FrameRead;
    hide AsPrinted, ReadsStream, NiceRun, Passable;
    NiceCall(world, c, d, m, xs, t, s, vs, from, q, lead, es, f0);
    RunOfCall(c, d, m, xs, FifoAfter(q, t.events[from..vs[0].end]), lead, es, f0);
    var q1, r := FifoAfter(q, t.events[from..vs[0].end]), SM.Run(c, m, xs);
    var lead', es', f := LeadRead(c, q1, lead), EarlierRead(c, q1, es), FrameRead(c, q1, f0);
    SuitsBounds(c, d, q1, lead, es, f0);
    FilledIsPrinted(c, d, r);
    LastOfCall(c, d, r, lead' + RAW_SIZE * (|es'| + End(c) - f), f);
    AfterTheCall(c, m, xs, t, s, vs, from, q);
  }

  lemma EndedIsLongEnough(c: SM.Request, m: SM.Machine, xs: seq<SM.Input>, n: int)
    requires SM.WellShaped(m) && !SM.Active(SM.Run(c, m, xs))
    ensures LongEnough(c, m, xs, n)
  {
  }

  // ----- calls served from the ring

  /** The stream read on, over a stretch in which nothing is taken. */
  lemma OutsideReads(t: Trail, q: Fifo, from: int, mid: int, hi: int)
    requires 0 <= from <= mid && Only(Outside, t, mid, hi)
    ensures FifoAfter(q, t.events[from..hi]).read == FifoAfter(q, t.events[from..mid]).read
  {
    hide FifoAfter, TakenBy;
    OutsideIs(t, mid, hi);
    TakenGrows(t, mid, hi);
    SearchingReads(t, q, from, mid, hi);
  }

  /** CD_Research_Frame finds the reader behind the last sector delivered and a later frame requested. If the call
      then goes on reading from the ring, the reader stands at the first sample of the request when it does. */
  lemma RingCallSuits(world: World, c: SM.Request, d: Disc, m: SM.Machine, xs: seq<SM.Input>, t: Trail, s: State,
                      vs: seq<Visit>, from: nat, q: Fifo, at: nat, f0: nat, last: u32)
    requires IsCall(world, c, m, xs, t, s, vs, from) && OnAfter(world, c, d, m, xs, t, vs, from, q, at, f0, last)
    ensures from <= vs[0].begin <= vs[0].end <= |t.events|
    ensures AtFrame(FifoAfter(q, t.events[from..vs[0].end]).read, at, f0, c.start)
  {
    hide Calm, FifoAfter, SM.Run, RetryBound.Thrifty, InStep, Begins, Told, Carries, WellHeaded, Refines, Steady;
    hide Quiet, Only;
    hide SM.ResearchFrame, Available, StaleReport, Answerable, IsRead, WaitedEnough, HonestRead;
    BeginsBare(c, d, m);
    FirstIsHonest(world, c, m, xs, t, vs);
    FirstStaysOutside(world, c, m, xs, t, vs);
    var n :| ResearchedAt(c.start, last, false, false, t, from, n, vs[0].begin);
    assert ResearchedAt(c.start, last, false, false, t, from, n, vs[0].begin);
    OutsideIs(t, from, n);
    SteadyUpTo(t, from, n, |t.events|);
    SkippingIsQuiet(t, from, n);
    QuietKeepsQueue(t, s, q, from, n);
    OutsideReads(t, q, from, from, n);
    FifoOfNone(q, t, from);
    ResearchLands(t.states[n], FifoAfter(q, t.events[from..n]), at, f0, last, c.start);
    assert t.events[from..n + 1] == t.events[from..n] + [t.events[n]];
    FifoAfterOneMore(q, t.events[from..n], t.events[n]);
    OutsideReads(t, q, from, vs[0].begin, vs[0].end);
  }

  lemma FifoOfNone(q: Fifo, t: Trail, from: nat)
    requires from <= |t.events|
    ensures FifoAfter(q, t.events[from..from]) == q
  {
  }

  lemma FirstStaysOutside(world: World, c: SM.Request, m: SM.Machine, xs: seq<SM.Input>, t: Trail, vs: seq<Visit>)
    requires SM.WellShaped(m) && m.pc.TryRead? && Told(world, c, m, xs, t, vs) && vs != []
    requires vs[0].begin < |t.states| && vs[0].end < |t.states|
    requires FromTheRing(m, xs[0]) && Answered(world, c, m, xs[0], t, vs[0])
    ensures vs[0].begin <= vs[0].end <= |t.events| && Only(Outside, t, vs[0].begin, vs[0].end)
  {
    hide Told, Only, Peeked, Available, BytesOf, Answerable, IsRead, WaitedEnough, ColdSeeks;
    FirstIsHonest(world, c, m, xs, t, vs);
  }

  /** The first read goes on where the ring is. */
  predicate FromTheRing(m: SM.Machine, x: SM.Input)
  {
    !m.stopped && !(x.read.Answer? && x.read.sought)
  }

  /** A call made where an earlier one has left the ring: ready, the disc in, the reader behind the last sector,
      blocks of the same stream captured since; and served without a seek. */
  ghost predicate OnAfter(world: World, c: SM.Request, d: Disc, m: SM.Machine, xs: seq<SM.Input>, t: Trail,
                          vs: seq<Visit>, from: nat, q: Fifo, at: nat, f0: nat, last: u32)
  {
    && |xs| == |vs| && vs != [] && from <= vs[0].begin <= vs[0].end <= |t.events| && |t.states| == |t.events| + 1
    && Ready(t.states[from], q) && Steady(t, from, |t.events|) && AtFrame(q.read, at, f0, last + 1)
    && Researched(c.start, last, false, m.stopped, t, from, vs[0].begin) && last < c.start < 0x8000_0000
    && FromTheRing(m, xs[0]) && Answered(world, c, m, xs[0], t, vs[0])
    && Carries(d, BytesOf(FifoAfter(q, t.events[from..vs[0].end]).stream), at, f0)
    && 1 <= c.count <= MAX_SECTORS && WellHeaded(c, d, f0, End(c))
  }

  /** A call served from the ring plays as one that seeks does. */
  lemma RingCallPlays(world: World, c: SM.Request, d: Disc, m: SM.Machine, xs: seq<SM.Input>, t: Trail, s: State,
                      vs: seq<Visit>, from: nat, q: Fifo, at: nat, f0: nat, last: u32)
    requires IsCall(world, c, m, xs, t, s, vs, from) && OnAfter(world, c, d, m, xs, t, vs, from, q, at, f0, last)
    requires Obliging(world, d, vs[0].time)
    ensures Plays(world, c, d, m, xs, t, vs, from, q, at, [], f0)
  {
    hide Calm, FifoAfter, SM.Run, RetryBound.Thrifty, InStep, Begins, Told, Stream, Carries, WellHeaded, Refines;
    hide Steady;
    hide StaleReport, Researched, Obliging, Answered, BytesOf, Quiet, Only;
    RingCallSuits(world, c, d, m, xs, t, s, vs, from, q, at, f0, last);
    StreamCarries(c, d, BytesOf(FifoAfter(q, t.events[from..vs[0].end]).stream), 0, [], f0);
  }

  /** Every slot as on the disc, and the ring left as the next such call expects it. With CallDelivers for a call that
      seeks, the two ways of serving a request agree. */
  lemma RingCallDelivers(world: World, c: SM.Request, d: Disc, m: SM.Machine, xs: seq<SM.Input>, t: Trail, s: State,
                         vs: seq<Visit>, from: nat, q: Fifo, at: nat, f0: nat, last: u32)
    requires IsCall(world, c, m, xs, t, s, vs, from) && OnAfter(world, c, d, m, xs, t, vs, from, q, at, f0, last)
    requires Obliging(world, d, vs[0].time)
    ensures SM.WellShaped(m) && from <= |t.events| && |t.states| == |t.events| + 1
    ensures Fulfilled(c, d, m, xs, t, from, q, at, f0)
    ensures var r, q' := SM.Run(c, m, xs), FifoAfter(q, t.events[from..]);
            AtFrame(q'.read, at, f0, r.lastSector + 1)
  {
    hide Ready, FifoAfter, SM.Run, RetryBound.Thrifty, InStep, Begins, Told, Carries, WellHeaded, Steady, Quiet, Only;
    hide Researched, Obliging, Answered, Plays, IsCall, Filled;
    RingCallPlays(world, c, d, m, xs, t, s, vs, from, q, at, f0, last);
    CallDelivers(world, c, d, m, xs, t, s, vs, from, q, at, [], f0);
  }

  /** Such a call's first slot. */
  lemma FirstPayload(world: World, c: SM.Request, d: Disc, m: SM.Machine, xs: seq<SM.Input>, t: Trail, vs: seq<Visit>,
                     from: nat, q: Fifo, lead: nat, es: seq<Sector>, f0: nat)
    requires Plays(world, c, d, m, xs, t, vs, from, q, lead, es, f0) && SM.WellShaped(m) && from <= |t.events|
    requires Fulfilled(c, d, m, xs, t, from, q, lead + RAW_SIZE * |es|, f0)
    ensures xs != [] && SM.Run(c, m, xs).pc == SM.Returned(SECTOR_SIZE) && SECTOR_SIZE <= |SM.Run(c, m, xs).buf|
    ensures Extracted(InOrder.Slot(SM.Run(c, m, xs).buf, 0), Plain(c, d, c.start), d.decode(Plain(c, d, c.start)))
  {
    hide Extracted, Filled, SM.Run, Stream, Carries, WellHeaded, Obliging, Ready, Answered, FifoAfter;
    assert Plain(c, d, c.start + 0) == Plain(c, d, c.start);
    var _ := InOrder.Slot(SM.Run(c, m, xs).buf, 0);
  }
}
