/** Where the bytes of a delivered sector come from: which read, which look, and whether the deck sent them at all. */
module Provenance {
  import opened Words
  import opened Layout
  import opened SectorMachine
  import opened InOrder
  import opened Lockstep

  /** The machine is at a sync, k bytes on from its cursor, with the whole of this sector in the buffer. */
  ghost predicate AtSector(m: Machine, granted: bool, at: nat, raw: Sector)
  {
    && m.pc.SearchLbn? && m.src + RAW_SIZE <= |m.buf|
    && var k := SyncOffset(m, granted);
       k >= 0 && at == m.src + k && at + RAW_SIZE <= |m.buf| && raw == m.buf[at..at + RAW_SIZE]
  }

  /** A read that was answered, what it stored where, and the buffer right after it. */
  ghost predicate ReadInto(m: Machine, r: ReadResult, base: nat, data: seq<byte>, image: seq<byte>)
  {
    && m.pc.TryRead? && m.dst == base && r.Answer? && r.data == data && r.size > 0
    && base + |data| <= |m.buf| && image == Overlay(m.buf, base, data)
  }

  /** A delivery goes back to two inputs of the call: the read whose bytes stood in the buffer, and the later look that
      found the sector and gave the decoder's verdict and output. */
  ghost predicate Traced(c: Request, m: Machine, xs: seq<Input>, d: Delivery)
    requires WellShaped(m)
  {
    && d.read < d.look < |xs|
    && ReadInto(Run(c, m, xs[..d.read]), xs[d.read].read, d.base, d.data, d.image)
    && AtSector(Run(c, m, xs[..d.look]), xs[d.look].look.granted, d.at, d.raw)
    && xs[d.look].look.decoded == d.decoded && xs[d.look].look.c3 == d.c3
  }

  ghost predicate AllTraced(c: Request, m: Machine, xs: seq<Input>, ds: seq<Delivery>)
    requires WellShaped(m)
  {
    forall i {:trigger ds[i]} :: 0 <= i < |ds| ==> Traced(c, m, xs, ds[i])
  }

  /** What the machine remembers of the inputs it has taken. */
  ghost predicate Remembers(c: Request, m: Machine, xs: seq<Input>, r: Machine)
    requires WellShaped(m)
  {
    && (Active(r) ==> r.log.steps == |xs|)
    && (r.pc.SearchLbn? ==>
          && r.log.read < |xs|
          && ReadInto(Run(c, m, xs[..r.log.read]), xs[r.log.read].read, r.log.base, r.log.data, r.log.image))
    && AllTraced(c, m, xs, r.log.deliveries)
  }

  lemma TracedLonger(c: Request, m: Machine, xs: seq<Input>, x: Input, ds: seq<Delivery>)
    requires WellShaped(m) && AllTraced(c, m, xs, ds)
    ensures AllTraced(c, m, xs + [x], ds)
  {
    hide Run, AtSector;
    forall i | 0 <= i < |ds|
      ensures Traced(c, m, xs + [x], ds[i])
    {
      var d := ds[i];
      assert (xs + [x])[..d.read] == xs[..d.read] && (xs + [x])[..d.look] == xs[..d.look];
    }
  }

  /** What the machine remembers once one more sector has gone out, or none. */
  ghost predicate AtMostOne(m: Machine, raw: Sector, x: Look, m': Machine)
  {
    && m'.log == m.log.(consumed := m'.log.consumed, touched := m'.log.touched, reach := m'.log.reach,
                        failures := m'.log.failures, deliveries := m'.log.deliveries)
    && (m'.log.deliveries == m.log.deliveries
        || (|m'.log.deliveries| == |m.log.deliveries| + 1 && m'.log.deliveries[..|m.log.deliveries|] == m.log.deliveries
            && var d := m'.log.deliveries[|m.log.deliveries|];
               d == DeliveryOf(m, raw, x).(failures := d.failures)))
  }

  lemma MatchedRemembers(c: Request, m: Machine, raw: Sector, mode: byte, x: Look)
    requires m.src + RAW_SIZE <= |m.buf| && m.dst + SECTOR_SIZE <= |m.buf|
    ensures AtMostOne(m, raw, x, Matched(c, m, raw, mode, x))
  {
    hide Overlay, UserData, U32;
  }

  lemma InspectRemembers(c: Request, m: Machine, x: Look)
    requires m.src + RAW_SIZE <= |m.buf| && m.dst <= m.src
    ensures AtMostOne(m, RawAt(m), x, Inspect(c, m, x))
  {
    hide Overlay, Matched, Mismatched, U32, FrameOf, ModeOf;
    var plain := c.descramble(RawAt(m));
    var m', request := Descrambled(m, plain), U32(c.start + m.used);
    if FrameOf(plain) == request {
      MatchedRemembers(c, m', RawAt(m), ModeOf(plain), x);
    } else {
      MismatchedMoves(m', FrameOf(plain), request, x.available);
    }
  }

  /** What a visit to the search may add to the log: one delivery, of the sector it stands at. */
  ghost predicate LogGrows(m: Machine, x: Look, m': Machine)
  {
    && m'.log.read == m.log.read && m'.log.data == m.log.data
    && m'.log.base == m.log.base && m'.log.image == m.log.image
    && (Active(m') ==> m'.log.steps == m.log.steps + 1)
    && (m'.log.deliveries == m.log.deliveries
        || (|m'.log.deliveries| == |m.log.deliveries| + 1 && m'.log.deliveries[..|m.log.deliveries|] == m.log.deliveries
            && var d := m'.log.deliveries[|m.log.deliveries|];
               && AtSector(m, x.granted, d.at, d.raw) && d.look == m.log.steps && d.read == m.log.read
               && d.base == m.log.base && d.data == m.log.data && d.image == m.log.image
               && d.decoded == x.decoded && d.c3 == x.c3))
  }

  lemma SearchLogs(c: Request, m: Machine, x: Look)
    requires WellShaped(m) && m.pc.SearchLbn?
    ensures LogGrows(m, x, SearchStep(c, m, x))
  {
    hide Inspect, Overlay, U32, SyncOffset;
    if m.src + RAW_SIZE <= |m.buf| {
      var k := SyncOffset(m, x.granted);
      if k >= 0 && m.src + k + RAW_SIZE <= |m.buf| && !x.forceStop {
        InspectRemembers(c, Found(Scanned(m), k), x);
      }
    }
  }

  lemma StepRemembers(c: Request, m: Machine, xs: seq<Input>, x: Input)
    requires WellShaped(m) && Remembers(c, m, xs, Run(c, m, xs))
    ensures Remembers(c, m, xs + [x], Step(c, Run(c, m, xs), x))
  {
    hide Run, SearchStep, Overlay, U32, AllTraced, AtSector;
    var r, ys := Run(c, m, xs), xs + [x];
    var r' := Step(c, r, x);
    TracedLonger(c, m, xs, x, r.log.deliveries);
    assert ys[..|xs|] == xs;
    if r.pc.SearchLbn? {
      assert ys[..r.log.read] == xs[..r.log.read];
      SearchLogs(c, r, x.look);
      var ds, n := r'.log.deliveries, |r.log.deliveries|;
      if ds != r.log.deliveries {
        assert ds == ds[..n] + [ds[n]];
        OneMoreTraced(c, m, ys, ds[..n], ds[n]);
      }
    }
  }

  lemma OneMoreTraced(c: Request, m: Machine, xs: seq<Input>, ds: seq<Delivery>, d: Delivery)
    requires WellShaped(m) && AllTraced(c, m, xs, ds) && Traced(c, m, xs, d)
    ensures AllTraced(c, m, xs, ds + [d])
  {
    hide Traced;
  }

  lemma {:induction false} RunRemembers(c: Request, m: Machine, xs: seq<Input>)
    requires WellShaped(m) && Remembers(c, m, [], m)
    ensures Remembers(c, m, xs, Run(c, m, xs))
    decreases |xs|
  {
    hide Step, Remembers;
    if xs != [] {
      var n := |xs| - 1;
      RunRemembers(c, m, xs[..n]);
      RunAppend(c, m, xs[..n], xs[n]);
      assert xs == xs[..n] + [xs[n]];
      StepRemembers(c, m, xs[..n], xs[n]);
    }
  }

  // ----- inside what was read

  /** From byte 304 on the delivered sector lies, in its place, in what its pass's read stored. */
  ghost predicate Stored(d: Delivery)
  {
    && d.base <= d.at && d.at - d.base + RAW_SIZE <= |d.data|
    && d.raw[304..] == d.data[d.at - d.base + 304..d.at - d.base + RAW_SIZE]
  }

  lemma WithinReadIsStored(c: Request, d: Delivery, i: nat)
    requires Genuine(c, d, i) && WithinRead(d)
    ensures Stored(d)
  {
    hide FrameOf, U32;
    Within(d.image, d.base, d.base + |d.data|, d.at - d.base + 304, d.at - d.base + RAW_SIZE);
  }

  /** Every sector of a successful call: in its slot, of the frame asked for, and traced to the inputs it came from. */
  ghost predicate Accounted(c: Request, m: Machine, xs: seq<Input>)
    requires WellShaped(m)
  {
    Delivered(c, Run(c, m, xs)) && AllTraced(c, m, xs, Run(c, m, xs).log.deliveries)
  }

  /** A machine that begins a call. */
  ghost predicate Begins(c: Request, m: Machine)
  {
    && Sound(c, m) && m.pc.TryRead? && m.used == 0 && m.log.passes == 0 && m.log.steps == 0
    && m.frameRetry == CD_RETRY_CNT && m.log.failures == 0 && m.c3Retry == CD_C3_CNT
  }

  lemma CallIsAccountedFor(c: Request, m: Machine, xs: seq<Input>)
    requires Begins(c, m) && c.count >= 1 && Run(c, m, xs).pc == Returned(SECTOR_SIZE)
    ensures Run(c, m, xs).used == c.count && Accounted(c, m, xs)
  {
    hide Run, Genuine, Output, AllTraced;
    InOrderDelivery(c, m, xs);
    NothingTraced(c, m);
    RunRemembers(c, m, xs);
  }

  lemma NothingTraced(c: Request, m: Machine)
    requires WellShaped(m) && m.pc.TryRead? && m.log.steps == 0 && m.log.deliveries == []
    ensures Remembers(c, m, [], m)
  {
  }

  /** While the cursor stays inside what its passes have read, so does every delivered sector. */
  lemma {:induction false} InsideIsWithinRead(c: Request, m: Machine, xs: seq<Input>)
    requires Sound(c, m) && Ahead(m) && Counted(c, m) && StaysInside(c, m, xs)
    requires forall d | d in m.log.deliveries :: WithinRead(d)
    ensures forall d | d in Run(c, m, xs).log.deliveries :: WithinRead(d)
    decreases |xs|
  {
    hide Delivered, Fresh, Ahead, Counted, Inside, Step, WithinRead;
    if xs != [] {
      var n := |xs| - 1;
      assert xs == xs[..n] + [xs[n]];
      InsideSoFar(c, m, xs[..n], xs[n]);
      InsideIsWithinRead(c, m, xs[..n]);
      RunAppend(c, m, xs[..n], xs[n]);
      RunSound(c, m, xs[..n]);
      StepWithin(c, Run(c, m, xs[..n]), xs[n]);
    }
  }

  lemma StepWithin(c: Request, m: Machine, x: Input)
    requires Sound(c, m) && Inside(Step(c, m, x))
    ensures forall d | d in Step(c, m, x).log.deliveries :: d in m.log.deliveries || WithinRead(d)
  {
    hide Delivered, Inspect, Overlay, U32, SyncOffset;
    if m.pc.SearchLbn? && m.src + RAW_SIZE <= |m.buf| {
      var k := SyncOffset(m, x.look.granted);
      if k >= 0 && m.src + k + RAW_SIZE <= |m.buf| && !x.look.forceStop {
        InspectWithin(c, Found(Scanned(m), k), x.look);
      }
    }
  }

  lemma InspectWithin(c: Request, m: Machine, x: Look)
    requires m.src + RAW_SIZE <= |m.buf| && m.dst <= m.src && |m.log.data| == m.log.got && Inside(Inspect(c, m, x))
    ensures forall d | d in Inspect(c, m, x).log.deliveries :: d in m.log.deliveries || WithinRead(d)
  {
    hide Overlay, Matched, Mismatched, U32, FrameOf, ModeOf, Inside, WithinRead;
    var plain := c.descramble(RawAt(m));
    var m', request := Descrambled(m, plain), U32(c.start + m.used);
    if FrameOf(plain) == request {
      MatchedWithin(c, m', RawAt(m), ModeOf(plain), x);
    } else {
      MismatchedMoves(m', FrameOf(plain), request, x.available);
    }
  }

  lemma MatchedWithin(c: Request, m: Machine, raw: Sector, mode: byte, x: Look)
    requires m.src + RAW_SIZE <= |m.buf| && m.dst + SECTOR_SIZE <= |m.buf| && |m.log.data| == m.log.got
    requires Inside(Matched(c, m, raw, mode, x))
    ensures forall d | d in Matched(c, m, raw, mode, x).log.deliveries :: d in m.log.deliveries || WithinRead(d)
  {
    hide Overlay, UserData, U32;
  }

  // ----- decodes that failed

  function BadOnes(ds: seq<Delivery>): nat
  {
    if ds == [] then 0 else BadOnes(ds[..|ds| - 1]) + if ds[|ds| - 1].c3 < CD_TRUE then 1 else 0
  }

  /** The budget the decoder has left says how often it has failed, and all failures but the first were delivered. */
  predicate Excused(m: Machine)
  {
    && m.c3Retry == CD_C3_CNT - m.log.failures
    && BadOnes(m.log.deliveries) == if m.log.failures > 0 then m.log.failures - 1 else 0
  }

  lemma MatchedExcused(c: Request, m: Machine, raw: Sector, mode: byte, x: Look)
    requires Excused(m) && m.src + RAW_SIZE <= |m.buf| && m.dst + SECTOR_SIZE <= |m.buf|
    ensures Excused(Matched(c, m, raw, mode, x))
  {
    hide Overlay, UserData, U32;
    var ds := Matched(c, m, raw, mode, x).log.deliveries;
    assert ds != m.log.deliveries ==> ds[..|ds| - 1] == m.log.deliveries;
  }

  lemma MismatchedExcused(m: Machine, frame: u32, request: u32, available: Samples)
    requires Excused(m) && frame != request
    ensures Excused(Mismatched(m, frame, request, available))
  {
    hide BadOnes;
  }

  lemma InspectExcused(c: Request, m: Machine, x: Look)
    requires Excused(m) && m.src + RAW_SIZE <= |m.buf| && m.dst <= m.src
    ensures Excused(Inspect(c, m, x))
  {
    hide Overlay, Matched, Mismatched, U32, FrameOf, ModeOf, BadOnes;
    var plain := c.descramble(RawAt(m));
    var m', request := Descrambled(m, plain), U32(c.start + m.used);
    if FrameOf(plain) == request {
      MatchedExcused(c, m', RawAt(m), ModeOf(plain), x);
    } else {
      MismatchedExcused(m', FrameOf(plain), request, x.available);
    }
  }

  lemma StepExcused(c: Request, m: Machine, x: Input)
    requires WellShaped(m) && Excused(m)
    ensures Excused(Step(c, m, x))
  {
    hide Inspect, Overlay, U32, SyncOffset, BadOnes;
    if m.pc.SearchLbn? && m.src + RAW_SIZE <= |m.buf| {
      var k := SyncOffset(m, x.look.granted);
      if k >= 0 && m.src + k + RAW_SIZE <= |m.buf| && !x.look.forceStop {
        InspectExcused(c, Found(Scanned(m), k), x.look);
      }
    }
  }

  /** Over every call: the first decode that fails sends the machine back to read again; each later one is delivered
      as if it had succeeded. So a sector the decoder could not repair goes out only when an earlier decode of the
      call has failed. */
  lemma {:induction false} FailuresAfterTheFirstGoOut(c: Request, m: Machine, xs: seq<Input>)
    requires WellShaped(m) && Excused(m)
    ensures var r := Run(c, m, xs); BadOnes(r.log.deliveries) == if r.log.failures > 0 then r.log.failures - 1 else 0
    ensures Excused(Run(c, m, xs))
    decreases |xs|
  {
    hide Step, Excused;
    if xs != [] {
      StepKeepsShape(c, m, xs[0]);
      StepExcused(c, m, xs[0]);
      FailuresAfterTheFirstGoOut(c, Step(c, m, xs[0]), xs[1..]);
    }
    ExcusedSays(Run(c, m, xs));
  }

  /** So exactly the calls with no more than one failed decode hand out nothing but what the decoder has passed. */
  lemma AllRepairedExactly(c: Request, m: Machine, xs: seq<Input>)
    requires Begins(c, m)
    ensures var r := Run(c, m, xs); (forall d | d in r.log.deliveries :: d.c3 >= CD_TRUE) <==> r.log.failures <= 1
  {
    hide Run, Fresh, Genuine, Output;
    FailuresAfterTheFirstGoOut(c, m, xs);
    NoBadOnes(Run(c, m, xs).log.deliveries);
  }

  lemma {:induction false} NoBadOnes(ds: seq<Delivery>)
    ensures BadOnes(ds) == 0 <==> forall d | d in ds :: d.c3 >= CD_TRUE
    decreases |ds|
  {
    if ds != [] {
      var n := |ds| - 1;
      NoBadOnes(ds[..n]);
      assert ds == ds[..n] + [ds[n]];
    }
  }

  lemma ExcusedSays(m: Machine)
    requires Excused(m)
    ensures BadOnes(m.log.deliveries) == if m.log.failures > 0 then m.log.failures - 1 else 0
  {
  }
}
