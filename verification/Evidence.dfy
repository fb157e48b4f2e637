/** What the driver feeds the recovery loop with: every input of a call comes from the ring, in some state of the run it
    is on, or from the world, at some time of the call. And what follows for the call. */
module Evidence {
  import opened Words
  import opened Layout
  import opened SingleBuffer
  import opened Capture
  import opened FlowControl
  import opened Trails
  import opened Worlds
  import opened Waits
  import opened Unread
  import SM = SectorMachine
  import InOrder
  import opened Provenance
  import opened Lockstep
  import RetryBound

  // ----- one visit

  /** A visit to one of the labels: when it began and was done, by the number of looks at the world; and where in the
      trail it began, where it stood at the sync it found, and where it ended. */
  datatype Visit = Visit(time: nat, done: nat, begin: nat, look: nat, end: nat)

  function WordsWanted(c: SM.Request, m: SM.Machine): nat
    requires m.used <= c.count
  {
    2 * SECTOR_SAMPLES * PlannedSectors(c.count - m.used)
  }

  /** The wait for a read has ended because enough was there; after a seek the error status is then cleared. */
  predicate WaitedEnough(m: SM.Machine, r: SM.ReadResult, s: State)
    requires r.Answer?
  {
    r.size <= 4 * Available(s.ring) && (m.stopped || r.sought ==> s.error == NoProblem)
  }

  /** A read that is bound to be answered in full: a seek that the deck will answer and follow up in time, or a
      request close by with the samples already there. */
  ghost predicate Answerable(world: World, c: SM.Request, m: SM.Machine, s: State, time: nat)
  {
    && m.used <= c.count && m.dst + 2 * WordsWanted(c, m) <= CHUNK_BYTES
    && (if m.stopped then SeekAnswered(world, s, time, WordsWanted(c, m) / 2)
        else WordsWanted(c, m) <= 2 * Available(s.ring) && 0 <= S32(U32(c.start - m.lastSector)) <= 20)
  }

  /** How CD_ReadData sets about it: told to seek, or asked for a place too far off, it begins by switching the
      capture off; with the ring reported full and too little in it, by giving that up; and otherwise it goes on where
      the ring is. */
  ghost predicate SetsOut(stopped: bool, gap: int, s: State, t: Trail, a: Attempt, want: nat)
  {
    if stopped || gap < 0 || gap > 20 then a.sought && a.t == With(t, Disable)
    else if s.error == BufFull && Available(s.ring) < want then a.sought && a.t == With(t, Leave)
    else !a.sought && a.t == t
  }

  /** What a read is: attempts, every seek of them to the place six frames before the next one wanted, until one has not
      timed out; that one decides what is answered. */
  ghost predicate ReadBy(world: World, c: SM.Request, m: SM.Machine, r: SM.ReadResult, t: Trail, t': Trail, time: nat,
                         done: nat, tries: seq<Attempt>)
  {
    m.used <= c.count && tries != [] &&
    var want, address, last := WordsWanted(c, m) / 2, U32(c.start + m.used - 6), tries[|tries| - 1];
    && Attempts(world, tries, want, address)
    && tries[0].time == time
    && Stands(t) && SetsOut(m.stopped, S32(U32(c.start - m.lastSector)), Last(t), t, tries[0], want)
    && TimeAfter(world, last) == done && TrailAfter(world, last, address) == t'
    && match r
       case Answer(size, data, sought, stopped) =>
         && sought == last.sought && stopped == Refused(world, last)
         && if size > 0 then AnswerOf(world, last) >= 0
            else data == [] && size == AnswerOf(world, last) < 0 && size != BUFFERING_TIME_OUT
       case NoAnswer => AnswerOf(world, last) == BUFFERING_TIME_OUT
       case BadCopy => AnswerOf(world, last) >= 0
  }

  /** The record up to some step. */
  function UpTo(t: Trail, i: nat): Trail
    requires i <= |t.events| && |t.states| == |t.events| + 1
  {
    Trail(t.states[..i + 1], t.events[..i])
  }

  ghost predicate IsRead(world: World, c: SM.Request, m: SM.Machine, r: SM.ReadResult, t: Trail, v: Visit)
    requires v.begin <= v.end <= |t.events| && |t.states| == |t.events| + 1
  {
    exists tries :: ReadBy(world, c, m, r, UpTo(t, v.begin), UpTo(t, v.end), v.time, v.done, tries)
  }

  /** A read takes nothing, seeks with capture off unless it was told to read on behind a stale report, does nothing
      to the ring when it does not seek, and stores its front. It waits until enough is there, or as long as a wait
      may last, and only with CD_BUF_FULL reported. If it is bound to be answered it is. */
  ghost predicate HonestRead(world: World, c: SM.Request, m: SM.Machine, r: SM.ReadResult, t: Trail, v: Visit)
    requires v.begin <= v.end <= |t.events| && |t.states| == |t.events| + 1
  {
    && IsRead(world, c, m, r, t, v) && Only(Reading, t, v.begin, v.end)
    && (m.stopped || !StaleReport(t.states[v.begin]) ==> ColdSeeks(t, v.begin, v.end))
    && (r.Answer? && !m.stopped && !r.sought ==> Only(Outside, t, v.begin, v.end))
    && (r.Answer? && r.size > 0 ==>
          && Placed(t.states[v.end]) && m.used <= c.count && r.size == 2 * WordsWanted(c, m)
          && m.dst + r.size <= |m.buf|
          && Peeked(t.states[v.end].ring, WordsWanted(c, m)).Copied?
          && r.data == BytesOf(Peeked(t.states[v.end].ring, WordsWanted(c, m)).words)
          && (WaitedEnough(m, r, t.states[v.end])
              || (t.states[v.end].error == BufFull && v.done > v.time + 2 * WAIT_COUNT)))
    && (Answerable(world, c, m, t.states[v.begin], v.time) ==>
          r.Answer? && r.size > 0 && WaitedEnough(m, r, t.states[v.end]) && (r.sought ==> m.stopped))
  }

  /** The sector at the sync, descrambled; anything when there is none in the buffer. */
  function Opened(c: SM.Request, m: SM.Machine, granted: bool): Sector
  {
    if m.src + RAW_SIZE > |m.buf| then seq(RAW_SIZE, _ => 0)
    else
      var k := SM.SyncOffset(m, granted);
      if k < 0 || m.src + k + RAW_SIZE > |m.buf| then seq(RAW_SIZE, _ => 0)
      else c.descramble(m.buf[m.src + k..m.src + k + RAW_SIZE])
  }

  /** Memory is asked for at a time, force stop and the fill level are looked at next, in a state of the ring, and the
      decoder is asked last. */
  ghost predicate LookFits(world: World, c: SM.Request, m: SM.Machine, x: SM.Look, time: nat, s: State)
  {
    && x.granted == world(time).granted
    && x.forceStop == s.forced && x.available == Available(s.ring)
    && Verdict(x.c3, x.decoded) == world(time + 2).decoder(Opened(c, m, x.granted))
  }

  function LookNow(world: World, c: SM.Request, m: SM.Machine, time: nat, s: State): (x: SM.Look)
    requires 0 <= Available(s.ring) < RING_SAMPLES
    ensures LookFits(world, c, m, x, time, s)
  {
    var granted := world(time).granted;
    var verdict := world(time + 2).decoder(Opened(c, m, granted));
    SM.Look(granted, s.forced, verdict.c3, verdict.sector, Available(s.ring))
  }

  /** How many looks at the world a visit takes. */
  function Looks(c: SM.Request, m: SM.Machine, x: SM.Look): nat
  {
    if m.src + RAW_SIZE > |m.buf| then 0
    else
      var k := SM.SyncOffset(m, x.granted);
      if k < 0 then 1
      else if x.forceStop || m.src + k + RAW_SIZE > |m.buf| then 2
      else if FrameOf(Opened(c, m, x.granted)) == U32(c.start + m.used) then 3
      else 2
  }

  /** Samples taken up to the sync. */
  function SyncSamples(m: SM.Machine, granted: bool): nat
  {
    if m.src + RAW_SIZE <= |m.buf| && SM.SyncOffset(m, granted) >= 0 then SM.SyncOffset(m, granted) / 4 else 0
  }

  /** A visit to the search does nothing to the ring but take from it what the machine says. */
  ghost predicate HonestLook(world: World, c: SM.Request, m: SM.Machine, x: SM.Look, t: Trail, v: Visit)
    requires v.begin <= v.look <= v.end <= |t.events| && |t.states| == |t.events| + 1 && m.dst <= m.src
  {
    && Only(Searching, t, v.begin, v.end)
    && LookFits(world, c, m, x, v.time, t.states[v.look])
    && v.done == v.time + Looks(c, m, x)
    && TakenBy(t, v.look) == TakenBy(t, v.begin) + SyncSamples(m, x.granted)
    && (!SM.SearchStep(c, m, x).pc.Lost? ==>
          TakenBy(t, v.end) - TakenBy(t, v.begin) == SM.SearchStep(c, m, x).log.consumed - m.log.consumed)
  }

  ghost predicate HonestStep(world: World, c: SM.Request, m: SM.Machine, x: SM.Input, t: Trail, v: Visit)
    requires SM.WellShaped(m)
  {
    && SM.Active(m)
    && v.time <= v.done && v.begin <= v.look <= v.end <= |t.events| && |t.states| == |t.events| + 1
    && (m.pc.TryRead? ==> HonestRead(world, c, m, x.read, t, v))
    && (m.pc.SearchLbn? ==> HonestLook(world, c, m, x.look, t, v))
  }

  // ----- a call

  /** Visit after visit, each honest, and nothing in between: the looks of the decoder come at ever later times. */
  ghost predicate Told(world: World, c: SM.Request, m: SM.Machine, xs: seq<SM.Input>, t: Trail, vs: seq<Visit>)
    requires SM.WellShaped(m)
  {
    |vs| == |xs| && forall i {:trigger vs[i]} :: 0 <= i < |vs| ==>
      && HonestStep(world, c, SM.Run(c, m, xs[..i]), xs[i], t, vs[i])
      && (i > 0 ==> vs[i - 1].done == vs[i].time && vs[i - 1].end == vs[i].begin)
  }

  lemma UpToKept(t: Trail, t': Trail, i: nat)
    requires Grown(t, t') && i <= |t.events| && |t.states| == |t.events| + 1 && |t'.states| == |t'.events| + 1
    ensures UpTo(t', i) == UpTo(t, i)
  {
  }

  lemma HonestKept(world: World, c: SM.Request, m: SM.Machine, x: SM.Input, t: Trail, t': Trail, v: Visit)
    requires SM.WellShaped(m) && HonestStep(world, c, m, x, t, v) && Grown(t, t') && |t'.states| == |t'.events| + 1
    ensures HonestStep(world, c, m, x, t', v)
  {
    hide SM.SearchStep, Only, ColdSeeks, TakenBy, LookFits, Looks, SyncSamples, Peeked, Available, BytesOf, StaleReport;
    hide Answerable, WaitedEnough, ReadBy;
    GrownKeeps(t, t', v.begin, v.look);
    GrownKeeps(t, t', v.begin, v.end);
    UpToKept(t, t', v.begin);
    UpToKept(t, t', v.end);
    assert t'.states[v.begin] == t.states[v.begin];
    assert t'.states[v.look] == t.states[v.look] && t'.states[v.end] == t.states[v.end];
  }

  lemma ToldAppend(world: World, c: SM.Request, m: SM.Machine, xs: seq<SM.Input>, t: Trail, vs: seq<Visit>,
                   x: SM.Input, t': Trail, v: Visit)
    requires SM.WellShaped(m) && Told(world, c, m, xs, t, vs) && Grown(t, t') && |t'.states| == |t'.events| + 1
    requires HonestStep(world, c, SM.Run(c, m, xs), x, t', v)
    requires vs != [] ==> vs[|vs| - 1].done == v.time && vs[|vs| - 1].end == v.begin
    ensures Told(world, c, m, xs + [x], t', vs + [v])
  {
    hide HonestStep, SM.Run;
    var ys, ws := xs + [x], vs + [v];
    forall i | 0 <= i < |ws|
      ensures HonestStep(world, c, SM.Run(c, m, ys[..i]), ys[i], t', ws[i])
      ensures i > 0 ==> ws[i - 1].done == ws[i].time && ws[i - 1].end == ws[i].begin
    {
      assert ys[..i] == xs[..i];
      if i < |vs| {
        var _ := vs[i];
        HonestKept(world, c, SM.Run(c, m, xs[..i]), xs[i], t, t', vs[i]);
      } else {
        assert xs[..i] == xs;
      }
    }
  }

  lemma ToldAt(world: World, c: SM.Request, m: SM.Machine, xs: seq<SM.Input>, t: Trail, vs: seq<Visit>, i: nat)
    requires SM.WellShaped(m) && Told(world, c, m, xs, t, vs) && i < |xs|
    ensures HonestStep(world, c, SM.Run(c, m, xs[..i]), xs[i], t, vs[i])
    ensures i > 0 ==> vs[i - 1].done == vs[i].time && vs[i - 1].end == vs[i].begin
    ensures SM.WellShaped(SM.Run(c, m, xs[..i]))
    ensures SM.Run(c, m, xs[..i + 1]) == SM.Step(c, SM.Run(c, m, xs[..i]), xs[i])
  {
    hide HonestStep, SM.Run, SM.Step;
    var _ := vs[i];
    assert xs[..i + 1] == xs[..i] + [xs[i]];
    SM.RunAppend(c, m, xs[..i], xs[i]);
  }

  // ----- before the first visit

  /** CD_Research_Frame as the trail tells it: time has passed, and then so many samples have been dropped, or the
      first read is told to seek, or neither. */
  ghost predicate Researched(start: u32, last: u32, stopped: bool, stoppedThen: bool, t: Trail, from: nat, begin: nat)
  {
    exists at {:trigger t.states[at]} :: ResearchedAt(start, last, stopped, stoppedThen, t, from, at, begin)
  }

  ghost predicate ResearchedAt(start: u32, last: u32, stopped: bool, stoppedThen: bool, t: Trail, from: nat, at: int,
                               begin: nat)
  {
    && from <= at <= begin <= |t.events| < |t.states| && Only(Outside, t, from, at)
    && 0 <= Available(t.states[at].ring) < RING_SAMPLES
    && match SM.ResearchFrame(stopped, start, last, Available(t.states[at].ring))
       case Drop(n) => !stoppedThen && begin == at + 1 && t.events[at] == Consume(n)
       case Reseek => stoppedThen && begin == at
       case Leave => stoppedThen == stopped && begin == at
  }

  lemma ItIsResearched(start: u32, last: u32, stopped: bool, stoppedThen: bool, t0: Trail, t: Trail, s: State,
                       t': Trail, s': State)
    requires EndsAt(t, s) && EndsAt(t', s') && 0 <= Available(s.ring) < RING_SAMPLES && Passes(t0, t)
    requires match SM.ResearchFrame(stopped, start, last, Available(s.ring))
             case Drop(n) => !stoppedThen && Allowed(s, Consume(n)) && t' == Extended(t, s, Consume(n))
             case Reseek => stoppedThen && t' == t
             case Leave => stoppedThen == stopped && t' == t
    ensures Researched(start, last, stopped, stoppedThen, t', |t0.events|, |t'.events|)
  {
    hide SM.ResearchFrame, Available, Only, Taken;
    assert t.events <= t'.events && t.states <= t'.states;
    GrownKeeps(t, t', |t0.events|, |t.events|);
    assert t'.states[|t.events|] == s;
    assert ResearchedAt(start, last, stopped, stoppedThen, t', |t0.events|, |t.events|, |t'.events|);
  }

  lemma ResearchedKept(start: u32, last: u32, stopped: bool, stoppedThen: bool, from: nat, t: Trail, t': Trail)
    requires Researched(start, last, stopped, stoppedThen, t, from, |t.events|) && Grown(t, t')
    requires |t'.states| > |t'.events|
    ensures Researched(start, last, stopped, stoppedThen, t', from, |t.events|)
  {
    hide SM.ResearchFrame, Available, Only;
    var at :| ResearchedAt(start, last, stopped, stoppedThen, t, from, at, |t.events|);
    assert ResearchedAt(start, last, stopped, stoppedThen, t, from, at, |t.events|);
    GrownKeeps(t, t', from, at);
    assert t'.states[at] == t.states[at];
    assert ResearchedAt(start, last, stopped, stoppedThen, t', from, at, |t.events|);
  }

  // ----- where the delivered bytes come from

  /** What the decoder made, when it was asked in this visit, of the descrambled sector. */
  function Repaired(world: World, c: SM.Request, v: Visit, raw: Sector): Verdict
  {
    world(v.time + 2).decoder(c.descramble(raw))
  }

  /** A delivery's bytes stood in the buffer after a read of the ring, in the state that read has left it in; its
      output is what the decoder made of it in the visit that found it. */
  ghost predicate Came(world: World, c: SM.Request, m: SM.Machine, xs: seq<SM.Input>, t: Trail, vs: seq<Visit>,
                       d: SM.Delivery)
    requires SM.WellShaped(m)
  {
    && |vs| == |xs| && |t.states| == |t.events| + 1 && d.read < d.look < |vs| && vs[d.read].end < |t.states|
    && var s, r := t.states[vs[d.read].end], SM.Run(c, m, xs[..d.read]);
       && Placed(s) && r.used <= c.count && d.base == r.dst && d.base + 2 * WordsWanted(c, r) <= |r.buf|
       && Peeked(s.ring, WordsWanted(c, r)).Copied?
       && d.data == BytesOf(Peeked(s.ring, WordsWanted(c, r)).words)
       && d.image == BufferAfter(r.buf, s.ring, WordsWanted(c, r), d.base)
       && Verdict(d.c3, d.decoded) == Repaired(world, c, vs[d.look], d.raw)
  }

  lemma TracedCame(world: World, c: SM.Request, m: SM.Machine, xs: seq<SM.Input>, t: Trail, vs: seq<Visit>,
                   d: SM.Delivery)
    requires SM.WellShaped(m) && Told(world, c, m, xs, t, vs) && Traced(c, m, xs, d)
    ensures Came(world, c, m, xs, t, vs, d)
  {
    hide SM.Run, HonestStep, AtSector, ReadInto, Peeked, BytesOf, Placed, SM.Overlay;
    ToldAt(world, c, m, xs, t, vs, d.read);
    ImageIs(SM.Run(c, m, xs[..d.read]), xs[d.read].read, d.base, d.data, d.image);
    ReadIsPeek(world, c, SM.Run(c, m, xs[..d.read]), xs[d.read], t, vs[d.read]);
    ToldAt(world, c, m, xs, t, vs, d.look);
    LookIsVerdict(world, c, SM.Run(c, m, xs[..d.look]), xs[d.look], t, vs[d.look], d.at, d.raw);
  }

  lemma ImageIs(m: SM.Machine, r: SM.ReadResult, base: nat, data: seq<byte>, image: seq<byte>)
    requires ReadInto(m, r, base, data, image)
    ensures m.pc.TryRead? && r.Answer? && r.size > 0 && r.data == data && m.dst == base
    ensures base + |data| <= |m.buf| && image == SM.Overlay(m.buf, base, data)
  {
  }

  lemma ReadIsPeek(world: World, c: SM.Request, m: SM.Machine, x: SM.Input, t: Trail, v: Visit)
    requires SM.WellShaped(m) && HonestStep(world, c, m, x, t, v) && m.pc.TryRead? && x.read.Answer? && x.read.size > 0
    ensures v.end < |t.states| == |t.events| + 1 && Placed(t.states[v.end]) && m.used <= c.count
    ensures Peeked(t.states[v.end].ring, WordsWanted(c, m)).Copied?
    ensures x.read.data == BytesOf(Peeked(t.states[v.end].ring, WordsWanted(c, m)).words)
    ensures m.dst + 2 * WordsWanted(c, m) <= |m.buf|
  {
    hide Placed, Peeked, BytesOf, Only, ColdSeeks, StaleReport, Available, Answerable, IsRead, WaitedEnough;
  }

  lemma LookIsVerdict(world: World, c: SM.Request, m: SM.Machine, x: SM.Input, t: Trail, v: Visit, at: nat, raw: Sector)
    requires SM.WellShaped(m) && HonestStep(world, c, m, x, t, v) && AtSector(m, x.look.granted, at, raw)
    ensures Verdict(x.look.c3, x.look.decoded) == Repaired(world, c, v, raw)
  {
    hide SM.SyncOffset, SM.SearchStep, Only, TakenBy, Looks, SyncSamples, Available;
    assert Opened(c, m, x.look.granted) == c.descramble(raw);
  }

  /** The delivered sector ended inside the unread samples of the read it goes back to: all that was asked for, or all
      there was. The loop could test its cursor against that, if CD_ReadData returned the smaller of what it wants and
      what it has waited for instead of the one. */
  ghost predicate WasUnread(c: SM.Request, m: SM.Machine, xs: seq<SM.Input>, t: Trail, vs: seq<Visit>, d: SM.Delivery)
    requires SM.WellShaped(m) && d.read < |vs| == |xs| && vs[d.read].end < |t.states|
    requires SM.Run(c, m, xs[..d.read]).used <= c.count
  {
    d.at - d.base + RAW_SIZE <= UnreadBytes(t.states[vs[d.read].end].ring, WordsWanted(c, SM.Run(c, m, xs[..d.read])))
  }

  /** From byte 304 on a delivered sector is the samples of a queue at its place. */
  ghost predicate OfQueue(d: SM.Delivery, q: seq<u16>)
  {
    && d.base <= d.at && d.at - d.base + RAW_SIZE <= |BytesOf(q)|
    && d.raw[304..] == BytesOf(q)[d.at - d.base + 304..d.at - d.base + RAW_SIZE]
  }

  /** From byte 304 on a delivered sector comes out the same whatever the ring held besides its unread samples and
      whatever the buffer held before the read. */
  ghost predicate OfNothingElse(c: SM.Request, m: SM.Machine, xs: seq<SM.Input>, t: Trail, vs: seq<Visit>,
                                d: SM.Delivery)
    requires SM.WellShaped(m) && d.read < |vs| == |xs| && vs[d.read].end < |t.states|
    requires var s, r := t.states[vs[d.read].end], SM.Run(c, m, xs[..d.read]);
             && Placed(s) && r.used <= c.count && Peeked(s.ring, WordsWanted(c, r)).Copied?
             && d.base + 2 * WordsWanted(c, r) <= |r.buf| && d.base <= d.at && d.at + RAW_SIZE <= |r.buf|
  {
    var s, r := t.states[vs[d.read].end], SM.Run(c, m, xs[..d.read]);
    && d.raw[304..] == BufferAfter(r.buf, s.ring, WordsWanted(c, r), d.base)[d.at + 304..d.at + RAW_SIZE]
    && Determined(r.buf, s.ring, WordsWanted(c, r), d.base, d.at - d.base + 304, d.at - d.base + RAW_SIZE)
  }

  /** Slot i of the output, as the driver accounts for it: the user data of what the decoder made, at its time in the
      call, of a sector that a sync begins and whose descrambled header names the i-th frame asked for. Of that sector
      everything from byte 304 on is unread samples of the ring, and nothing else, if and only if it ended inside
      them. */
  ghost predicate Handed(world: World, c: SM.Request, m: SM.Machine, xs: seq<SM.Input>, t: Trail, vs: seq<Visit>,
                         i: nat, slot: seq<byte>)
    requires SM.WellShaped(m)
  {
    var ds := SM.Run(c, m, xs).log.deliveries;
    i < |ds| &&
    var d := ds[i];
    && InOrder.Genuine(c, d, i) && Came(world, c, m, xs, t, vs, d)
    && Extracted(slot, c.descramble(d.raw), Repaired(world, c, vs[d.look], d.raw).sector)
    && Addressed(c.descramble(d.raw), U32(c.start + i))
    && d.at + RAW_SIZE <= |SM.Run(c, m, xs[..d.read]).buf|
    && (OfNothingElse(c, m, xs, t, vs, d) <==> WasUnread(c, m, xs, t, vs, d))
    && (WasUnread(c, m, xs, t, vs, d) ==> OfQueue(d, Queue(t.states[vs[d.read].end].ring)))
  }

  lemma ExactlyUnread(world: World, c: SM.Request, m: SM.Machine, xs: seq<SM.Input>, t: Trail, vs: seq<Visit>,
                      d: SM.Delivery, i: nat)
    requires SM.WellShaped(m) && Came(world, c, m, xs, t, vs, d) && InOrder.Genuine(c, d, i)
    ensures d.at + RAW_SIZE <= |SM.Run(c, m, xs[..d.read]).buf|
    ensures OfNothingElse(c, m, xs, t, vs, d) <==> WasUnread(c, m, xs, t, vs, d)
    ensures WasUnread(c, m, xs, t, vs, d) ==> OfQueue(d, Queue(t.states[vs[d.read].end].ring))
  {
    hide SM.Run, Peeked, BytesOf, Queue, BufferAfter, UnreadBytes, Determined, FrameOf, U32, Repaired;
    var s, r := t.states[vs[d.read].end], SM.Run(c, m, xs[..d.read]);
    var n, lo := WordsWanted(c, r), d.at - d.base;
    FitsRing(c, r);
    DeterminedExactly(r.buf, s.ring, n, d.base, lo + 304, lo + RAW_SIZE);
    if WasUnread(c, m, xs, t, vs, d) {
      InsideIsQueue(r.buf, s.ring, n, d.base, lo + 304, lo + RAW_SIZE);
    }
  }

  lemma FitsRing(c: SM.Request, m: SM.Machine)
    requires m.used <= c.count
    ensures WordsWanted(c, m) <= 2 * RING_SAMPLES
  {
  }

  lemma SlotIsExtracted(c: SM.Request, d: SM.Delivery, i: nat)
    requires InOrder.Genuine(c, d, i)
    ensures Extracted(InOrder.Output(c, d), c.descramble(d.raw), d.decoded)
    ensures Addressed(c.descramble(d.raw), U32(c.start + i))
  {
    hide FrameOf, UserData, ModeOf, U32;
    UserDataIsExtracted(c.descramble(d.raw), d.decoded);
    HeaderIsAddress(c.descramble(d.raw));
  }

  /** A successful call fills every slot so. */
  lemma CallHandsOut(world: World, c: SM.Request, m: SM.Machine, xs: seq<SM.Input>, t: Trail, vs: seq<Visit>, i: nat)
    requires Begins(c, m) && Told(world, c, m, xs, t, vs)
    requires SM.Run(c, m, xs).pc == SM.Returned(SECTOR_SIZE) && i < c.count
    ensures SECTOR_SIZE * (i + 1) <= |SM.Run(c, m, xs).buf|
    ensures Handed(world, c, m, xs, t, vs, i, InOrder.Slot(SM.Run(c, m, xs).buf, i))
  {
    hide SM.Run, InOrder.Genuine, OfNothingElse, WasUnread, OfQueue, Told, Traced, Extracted, Addressed;
    CallIsAccountedFor(c, m, xs);
    var r := SM.Run(c, m, xs);
    var d := r.log.deliveries[i];
    assert InOrder.Slot(r.buf, i) == InOrder.Output(c, d);
    SlotIsExtracted(c, d, i);
    TracedCame(world, c, m, xs, t, vs, d);
    ExactlyUnread(world, c, m, xs, t, vs, d, i);
  }

  // ----- the ring through a call

  /** Every read that was answered found all it was asked for. */
  ghost predicate AllFull(c: SM.Request, m: SM.Machine, xs: seq<SM.Input>, t: Trail, vs: seq<Visit>)
    requires SM.WellShaped(m)
  {
    |vs| == |xs| && forall i {:trigger vs[i]} :: 0 <= i < |vs| ==>
      SM.Run(c, m, xs[..i]).pc.TryRead? ==> FullRead(xs[i].read, t, vs[i])
  }

  ghost predicate FullRead(r: SM.ReadResult, t: Trail, v: Visit)
  {
    r.Answer? && r.size > 0 ==> v.end < |t.states| && r.size <= 4 * Available(t.states[v.end].ring)
  }

  function Mark(vs: seq<Visit>, i: nat): nat
    requires vs != [] && i <= |vs|
  {
    if i == 0 then vs[0].begin else vs[i - 1].end
  }

  /** Between two visits of a pass whose data was all there: calm in data mode, with at least as much in the ring as the
      pass has read and not yet taken. */
  predicate Brimming(s: State, m: SM.Machine)
  {
    && Calm(s) && s.dataCd
    && (m.pc.SearchLbn? ==> 4 * (Available(s.ring) + m.log.consumed) >= m.log.got)
  }

  lemma ReadBrims(world: World, c: SM.Request, m: SM.Machine, r: SM.ReadResult, t: Trail, s: State, v: Visit)
    requires SM.WellShaped(m) && m.pc.TryRead? && EndsAt(t, s) && v.begin <= v.end <= |t.events|
    requires HonestRead(world, c, m, r, t, v) && FullRead(r, t, v) && Steady(t, v.begin, v.end)
    requires Brimming(t.states[v.begin], m) && (m.stopped || !StaleReport(t.states[v.begin]))
    ensures Quiet(t, v.begin, v.end) && Brimming(t.states[v.end], SM.ReadStep(c, m, r))
  {
    hide Calm, Available, SM.Overlay, U32, BytesOf, Peeked, Only, ColdSeeks, Steady, Quiet, Answerable, IsRead;
    hide WaitedEnough;
    ReadingIsQuiet(t, v.begin, v.end);
    QuietKeepsCalm(t, s, v.begin, v.end);
    if r.Answer? && r.size > 0 { PeekIsShort(t.states[v.end].ring, WordsWanted(c, m)); }
  }

  lemma LookBrims(world: World, c: SM.Request, m: SM.Machine, x: SM.Look, t: Trail, s: State, v: Visit)
    requires SM.WellShaped(m) && m.pc.SearchLbn? && EndsAt(t, s) && v.begin <= v.look <= v.end <= |t.events|
    requires HonestLook(world, c, m, x, t, v) && Steady(t, v.begin, v.end) && Brimming(t.states[v.begin], m)
    requires var m' := SM.SearchStep(c, m, x);
             InStep(m') && Inside(m') && m'.log.got == m.log.got && !m'.pc.Lost?
    ensures Quiet(t, v.begin, v.end) && Brimming(t.states[v.end], SM.SearchStep(c, m, x))
  {
    hide Calm, Available, SM.SearchStep, Only, Steady, Quiet, TakenBy, LookFits, Looks, SyncSamples;
    SearchingIsQuiet(t, s, v.begin, v.end);
  }

  /** A visit while the cursor stays inside what was read. */
  lemma StepBrims(world: World, c: SM.Request, m: SM.Machine, x: SM.Input, t: Trail, s: State, v: Visit)
    requires SM.WellShaped(m) && RetryBound.Thrifty(c, m) && InStep(m) && EndsAt(t, s)
    requires HonestStep(world, c, m, x, t, v) && Steady(t, v.begin, v.end)
    requires m.pc.TryRead? ==> FullRead(x.read, t, v) && (m.stopped || !StaleReport(t.states[v.begin]))
    requires SM.Active(m) && Brimming(t.states[v.begin], m)
    requires Inside(SM.Step(c, m, x)) && !SM.Step(c, m, x).pc.Lost?
    ensures Quiet(t, v.begin, v.end) && Brimming(t.states[v.end], SM.Step(c, m, x))
  {
    hide Brimming, HonestRead, HonestLook, FullRead, Steady, Quiet, SM.ReadStep, SM.SearchStep, StaleReport;
    hide RetryBound.Thrifty, InStep, Inside;
    if m.pc.TryRead? {
      ReadBrims(world, c, m, x.read, t, s, v);
    } else {
      StepInStep(c, m, x);
      RetryBound.SearchSpends(c, m, x.look);
      LookBrims(world, c, m, x.look, t, s, v);
    }
  }

  lemma HonestPlaces(world: World, c: SM.Request, m: SM.Machine, x: SM.Input, t: Trail, v: Visit)
    requires SM.WellShaped(m) && HonestStep(world, c, m, x, t, v)
    ensures SM.Active(m) && v.begin <= v.look <= v.end <= |t.events| && |t.states| == |t.events| + 1
  {
  }

  lemma SteadyPart(t: Trail, lo: int, from: int, to: int)
    requires Steady(t, lo, |t.events|) && lo <= from <= to <= |t.events|
    ensures Steady(t, from, to)
  {
  }

  lemma NothingIsQuiet(t: Trail, i: int)
    requires 0 <= i <= |t.events| && |t.states| == |t.events| + 1
    ensures Quiet(t, i, i)
  {
  }

  lemma QuietBounds(t: Trail, lo: int, hi: int)
    requires Quiet(t, lo, hi)
    ensures 0 <= lo <= hi <= |t.events|
  {
  }

  /** Only the first read of a call can begin without CD_BUF_STOP. */
  lemma LaterReadStopped(c: SM.Request, m: SM.Machine, x: SM.Input)
    requires SM.WellShaped(m) && RetryBound.Thrifty(c, m) && SM.Active(m)
    ensures SM.Step(c, m, x).pc.TryRead? ==> SM.Step(c, m, x).stopped
  {
    hide SM.SearchStep, SM.Overlay, RetryBound.Thrifty, U32;
    if m.pc.SearchLbn? { RetryBound.SearchSpends(c, m, x.look); }
  }

  /** A call on a calm ring in data mode, with the disc left in place, every read full and the cursor never past what
      was read, and not behind a stale CD_BUF_FULL: the reader never takes more than is there, every seek is cold, and
      the ring is calm again. */
  lemma {:induction false} CallStaysCalm(world: World, c: SM.Request, m: SM.Machine, xs: seq<SM.Input>, t: Trail,
                                         s: State, vs: seq<Visit>, i: nat)
    requires CalmCall(world, c, m, xs, t, s, vs) && i <= |vs|
    ensures Mark(vs, i) <= |t.events| && Quiet(t, vs[0].begin, Mark(vs, i)) && |t.states| == |t.events| + 1
    ensures Brimming(t.states[Mark(vs, i)], SM.Run(c, m, xs[..i]))
    ensures RetryBound.Thrifty(c, SM.Run(c, m, xs[..i]))
    ensures var r := SM.Run(c, m, xs[..i]); r.pc.TryRead? ==> r.stopped || !StaleReport(t.states[Mark(vs, i)])
  {
    hide SM.Run, SM.Step, HonestStep, Told, Steady, Quiet, Calm, Available, FullRead, StaleReport;
    hide RetryBound.Thrifty, InStep, Inside;
    ToldAt(world, c, m, xs, t, vs, 0);
    HonestPlaces(world, c, SM.Run(c, m, xs[..0]), xs[0], t, vs[0]);
    if i == 0 {
      assert xs[..0] == [];
      RunOfNone(c, m);
      NothingIsQuiet(t, vs[0].begin);
    } else {
      CallStaysCalm(world, c, m, xs, t, s, vs, i - 1);
      ToldAt(world, c, m, xs, t, vs, i - 1);
      var r, v := SM.Run(c, m, xs[..i - 1]), vs[i - 1];
      HonestPlaces(world, c, r, xs[i - 1], t, v);
      QuietBounds(t, vs[0].begin, v.begin);
      SteadyPart(t, vs[0].begin, v.begin, v.end);
      RunInStep(c, m, xs[..i - 1]);
      var _ := xs[..i];
      NotLostYet(world, c, m, xs, t, vs, i);
      StepBrims(world, c, r, xs[i - 1], t, s, v);
      QuietWithin(t, vs[0].begin, v.begin, v.end);
      LaterReadStopped(c, r, xs[i - 1]);
      RetryBound.StepThrifty(c, r, xs[i - 1]);
    }
  }

  ghost predicate CalmCall(world: World, c: SM.Request, m: SM.Machine, xs: seq<SM.Input>, t: Trail, s: State,
                           vs: seq<Visit>)
  {
    && SM.WellShaped(m) && m.pc.TryRead? && RetryBound.Thrifty(c, m) && InStep(m) && EndsAt(t, s)
    && Told(world, c, m, xs, t, vs) && vs != [] && AllFull(c, m, xs, t, vs)
    && vs[0].begin <= |t.events| && Steady(t, vs[0].begin, |t.events|)
    && Calm(t.states[vs[0].begin]) && t.states[vs[0].begin].dataCd
    && (m.stopped || !StaleReport(t.states[vs[0].begin]))
    && StaysInside(c, m, xs) && !SM.Run(c, m, xs).pc.Lost?
  }

  lemma RunOfNone(c: SM.Request, m: SM.Machine)
    requires SM.WellShaped(m)
    ensures SM.Run(c, m, []) == m
  {
  }

  lemma NotLostYet(world: World, c: SM.Request, m: SM.Machine, xs: seq<SM.Input>, t: Trail, vs: seq<Visit>, i: nat)
    requires SM.WellShaped(m) && |vs| == |xs| && Told(world, c, m, xs, t, vs) && i <= |xs|
    requires !SM.Run(c, m, xs).pc.Lost?
    ensures !SM.Run(c, m, xs[..i]).pc.Lost?
  {
    hide SM.Run, SM.Step, HonestStep;
    if i < |xs| {
      ToldAt(world, c, m, xs, t, vs, i);
      HonestPlaces(world, c, SM.Run(c, m, xs[..i]), xs[i], t, vs[i]);
    } else {
      assert xs[..i] == xs;
    }
  }
}
