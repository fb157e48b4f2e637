/** In-order delivery for whatever the deck sends: with no read short and the cursor inside what was read, every byte
    that is delivered has been captured, at its place in the stream since the last seek. */
module SentBytes {
  import opened Words
  import opened Layout
  import opened SingleBuffer
  import opened Capture
  import opened FlowControl
  import opened RingQueue
  import opened Trails
  import opened Worlds
  import opened Unread
  import SM = SectorMachine
  import InOrder
  import opened Provenance
  import opened Lockstep
  import opened ReadAhead
  import opened Evidence
  import opened DiscCalls
  import RetryBound

  /** From byte 304 on a delivered sector is the captured stream's bytes, as far behind the reader as the sector lies
      behind the beginning of its read. */
  ghost predicate OfStream(d: SM.Delivery, q: Fifo)
  {
    d.base <= d.at &&
    var at := 4 * q.read + (d.at - d.base);
    at + RAW_SIZE <= |BytesOf(q.stream)| && d.raw[304..] == BytesOf(q.stream)[at + 304..at + RAW_SIZE]
  }

  /** What a full read has stored is unread samples. */
  lemma FullReadIsUnread(world: World, c: SM.Request, m: SM.Machine, xs: seq<SM.Input>, t: Trail, vs: seq<Visit>,
                         d: SM.Delivery)
    requires SM.WellShaped(m) && Told(world, c, m, xs, t, vs) && AllFull(c, m, xs, t, vs)
    requires Traced(c, m, xs, d) && Came(world, c, m, xs, t, vs, d) && InOrder.WithinRead(d)
    ensures WasUnread(c, m, xs, t, vs, d)
  {
    hide SM.Run, Peeked, BytesOf, Available, AtSector, Repaired, HonestStep, Told, SM.Overlay, BufferAfter;
    var v, r := vs[d.read], SM.Run(c, m, xs[..d.read]);
    ToldAt(world, c, m, xs, t, vs, d.read);
    ReadIsWanted(world, c, r, xs[d.read], t, v);
    ReadIsPeek(world, c, r, xs[d.read], t, v);
    PeekIsShort(t.states[v.end].ring, WordsWanted(c, r));
    BytesOfLength(Peeked(t.states[v.end].ring, WordsWanted(c, r)).words);
  }

  lemma BytesOfLength(ws: seq<u16>)
    ensures |BytesOf(ws)| == 2 * |ws|
  {
  }

  lemma ReadIsWanted(world: World, c: SM.Request, m: SM.Machine, x: SM.Input, t: Trail, v: Visit)
    requires SM.WellShaped(m) && HonestStep(world, c, m, x, t, v) && m.pc.TryRead? && x.read.Answer? && x.read.size > 0
    ensures m.used <= c.count && x.read.size == 2 * WordsWanted(c, m)
  {
    hide Placed, Peeked, BytesOf, Only, ColdSeeks, StaleReport, Available, Answerable, IsRead, WaitedEnough;
  }

  /** The samples at the front of the queue, as bytes of the stream. */
  lemma QueueIsStream(d: SM.Delivery, s: State, q: Fifo)
    requires Refines(s, q) && OfQueue(d, Queue(s.ring))
    ensures OfStream(d, q)
  {
    hide BytesOf, Queue, Available;
    var lo := 2 * q.read;
    BytesOfSlice(q.stream, lo, |q.stream|);
    BytesOfLength(q.stream);
    assert q.stream[lo..|q.stream|] == q.stream[lo..];
    var k := d.at - d.base;
    assert BytesOf(q.stream)[4 * q.read..][k + 304..k + RAW_SIZE]
        == BytesOf(q.stream)[4 * q.read + k + 304..4 * q.read + k + RAW_SIZE];
  }

  /** A call begun in calm in data mode and not behind a stale report; the disc left in place, every read full and the
      cursor never past what was read. */
  ghost predicate InCalm(c: SM.Request, m: SM.Machine, xs: seq<SM.Input>, t: Trail, vs: seq<Visit>, from: nat)
    requires SM.WellShaped(m)
  {
    && xs != [] && !SM.Run(c, m, xs).pc.Lost? && from <= |t.events| && |t.states| == |t.events| + 1
    && Calm(t.states[from]) && t.states[from].dataCd && !StaleReport(t.states[from]) && Steady(t, from, |t.events|)
    && AllFull(c, m, xs, t, vs) && StaysInside(c, m, xs)
  }

  /** The stream as it stood at the end of a visit. */
  lemma StreamAtVisit(world: World, c: SM.Request, m: SM.Machine, xs: seq<SM.Input>, t: Trail, s: State, vs: seq<Visit>,
                      from: nat, q: Fifo, i: nat)
    requires IsCall(world, c, m, xs, t, s, vs, from) && SM.WellShaped(m) && InCalm(c, m, xs, t, vs, from)
    requires Refines(t.states[from], q) && i < |vs|
    ensures from <= vs[i].end <= |t.events| && Refines(t.states[vs[i].end], FifoAfter(q, t.events[from..vs[i].end]))
  {
    hide Calm, Told, RetryBound.Thrifty, SM.Run, Steady, Quiet, StaleReport, AllFull, StaysInside, InStep, Available;
    hide Refines, Only, Begins;
    CalmBefore(world, c, m, xs, t, s, vs, from);
    CallStaysCalm(world, c, m, xs, t, s, vs, i + 1);
    QuietWithin(t, from, vs[0].begin, vs[i].end);
    QuietBounds(t, from, vs[i].end);
    QuietKeepsQueue(t, s, q, from, vs[i].end);
  }

  lemma CalmBefore(world: World, c: SM.Request, m: SM.Machine, xs: seq<SM.Input>, t: Trail, s: State, vs: seq<Visit>,
                   from: nat)
    requires IsCall(world, c, m, xs, t, s, vs, from) && SM.WellShaped(m) && InCalm(c, m, xs, t, vs, from)
    ensures Quiet(t, from, vs[0].begin) && CalmCall(world, c, m, xs, t, s, vs)
  {
    hide Calm, Told, RetryBound.Thrifty, SM.Run, Steady, Quiet, StaleReport, AllFull, StaysInside, InStep, Available;
    OnlyBounds(Skipping, t, from, vs[0].begin);
    SteadyUpTo(t, from, vs[0].begin, |t.events|);
    SkippingIsQuiet(t, from, vs[0].begin);
    QuietKeepsCalm(t, s, from, vs[0].begin);
    SearchingLeavesReports(t, s, from, vs[0].begin);
  }

  /** Such a call leaves the ring calm. */
  lemma CalmThroughout(world: World, c: SM.Request, m: SM.Machine, xs: seq<SM.Input>, t: Trail, s: State,
                       vs: seq<Visit>, from: nat)
    requires IsCall(world, c, m, xs, t, s, vs, from) && SM.WellShaped(m) && InCalm(c, m, xs, t, vs, from)
    ensures Quiet(t, from, |t.events|) && Calm(s)
  {
    hide Calm, Told, RetryBound.Thrifty, SM.Run, Steady, Quiet, StaleReport, AllFull, StaysInside, InStep, Available;
    CalmBefore(world, c, m, xs, t, s, vs, from);
    CallStaysCalm(world, c, m, xs, t, s, vs, |vs|);
    QuietWithin(t, from, vs[0].begin, |t.events|);
  }

  /** Sector i of a call: from byte 304 on unread samples of the ring at its read, and so bytes of the stream captured
      by then, at the reader's place in it. */
  ghost predicate Sent(world: World, c: SM.Request, m: SM.Machine, xs: seq<SM.Input>, t: Trail, vs: seq<Visit>,
                       from: nat, q: Fifo, i: nat)
    requires SM.WellShaped(m)
  {
    var ds := SM.Run(c, m, xs).log.deliveries;
    i < |ds| &&
    var d := ds[i];
    && Came(world, c, m, xs, t, vs, d) && from <= vs[d.read].end <= |t.events|
    && WasUnread(c, m, xs, t, vs, d) && OfStream(d, FifoAfter(q, t.events[from..vs[d.read].end]))
  }

  /** Whatever the deck sends: so is every sector of such a successful call. */
  lemma DeliversWhatWasSent(world: World, c: SM.Request, m: SM.Machine, xs: seq<SM.Input>, t: Trail, s: State,
                            vs: seq<Visit>, from: nat, q: Fifo, i: nat)
    requires IsCall(world, c, m, xs, t, s, vs, from) && SM.WellShaped(m) && InCalm(c, m, xs, t, vs, from)
    requires Refines(t.states[from], q)
    requires SM.Run(c, m, xs).pc == SM.Returned(SECTOR_SIZE) && i < c.count
    ensures Sent(world, c, m, xs, t, vs, from, q, i)
  {
    hide SM.Run, Calm, Told, RetryBound.Thrifty, Steady, StaleReport, AllFull, InStep, Traced, WasUnread;
    hide Refines, Only, InOrder.Genuine, InOrder.Output, OfStream, OfQueue, Came, OfNothingElse, StaysInside;
    CallIsAccountedFor(c, m, xs);
    var d := DeliveryAt(c, m, xs, i);
    CameFrom(world, c, m, xs, t, vs, d);
    FullReadIsUnread(world, c, m, xs, t, vs, d);
    ExactlyUnread(world, c, m, xs, t, vs, d, i);
    StreamAtVisit(world, c, m, xs, t, s, vs, from, q, d.read);
    QueueIsStream(d, t.states[vs[d.read].end], FifoAfter(q, t.events[from..vs[d.read].end]));
  }

  lemma CameFrom(world: World, c: SM.Request, m: SM.Machine, xs: seq<SM.Input>, t: Trail, vs: seq<Visit>,
                 d: SM.Delivery)
    requires SM.WellShaped(m) && Told(world, c, m, xs, t, vs) && Traced(c, m, xs, d)
    ensures Came(world, c, m, xs, t, vs, d) && d.read < |vs|
  {
    hide SM.Run, Told, Traced;
    TracedCame(world, c, m, xs, t, vs, d);
  }

  lemma DeliveryAt(c: SM.Request, m: SM.Machine, xs: seq<SM.Input>, i: nat) returns (d: SM.Delivery)
    requires Begins(c, m) && c.count >= 1 && Accounted(c, m, xs) && SM.Run(c, m, xs).used == c.count && i < c.count
    requires StaysInside(c, m, xs)
    ensures i < |SM.Run(c, m, xs).log.deliveries| && d == SM.Run(c, m, xs).log.deliveries[i]
    ensures InOrder.Genuine(c, d, i) && Traced(c, m, xs, d) && InOrder.WithinRead(d)
  {
    hide SM.Run, InOrder.Genuine, InOrder.Output, Traced, InOrder.Fresh, StaysInside, InOrder.WithinRead;
    InsideIsWithinRead(c, m, xs);
    d := SM.Run(c, m, xs).log.deliveries[i];
    assert InOrder.Slot(SM.Run(c, m, xs).buf, i) == InOrder.Output(c, d);
  }
}
