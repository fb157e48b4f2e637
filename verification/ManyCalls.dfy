/** Any number of calls of the driver, one after another, some sought and some served from the ring. */
module ManyCalls {
  import opened Words
  import opened Layout
  import opened Capture
  import opened RingQueue
  import opened Trails
  import opened Worlds
  import SM = SectorMachine
  import opened Completeness
  import opened OnePass
  import opened ReadAhead
  import opened Evidence
  import opened DiscCalls
  import Lockstep
  import Provenance
  import RetryBound

  /** A call as the driver hands it out, and what it found in the captured stream: the lead, the sectors of another
      place and the frame behind them; for a call served from the ring nothing but the place of a frame known from
      before. */
  datatype Call = Call(c: SM.Request, m: SM.Machine, xs: seq<SM.Input>, t: Trail, s: State, vs: seq<Visit>,
                       lead: nat, es: seq<Sector>, f0: nat)

  /** Between two calls: the record, the stream captured and how far it has been read, the byte of it at which a frame
      begins, the last sector delivered and whether the next read is told to seek. */
  datatype Place = Place(t: Trail, q: Fifo, at: nat, f0: nat, last: u32, stopped: bool)

  /** What CD_DescrambleSector promises of a call: it goes on where the record has ended, and knows the last sector
      delivered and whether the next read was told to seek. */
  ghost predicate Follows(world: World, t0: Trail, last: u32, stopped: bool, c: SM.Request, m: SM.Machine,
                          xs: seq<SM.Input>,
                          t: Trail, s: State, vs: seq<Visit>)
  {
    && Grown(t0, t) && SM.WellShaped(m) && vs != [] && |xs| == |vs|
    && IsCall(world, c, m, xs, t, s, vs, |t0.events|) && m.lastSector == last
    && Researched(c.start, last, stopped, m.stopped, t, |t0.events|, vs[0].begin)
  }

  ghost predicate Made(world: World, p: Place, k: Call)
  {
    Follows(world, p.t, p.last, p.stopped, k.c, k.m, k.xs, k.t, k.s, k.vs)
  }

  /** What it finds: the disc is left in, memory is granted and sectors are repaired, the first read is answered in
      full; and if that read goes on where the ring is, a later frame is wanted of the same stream captured further,
      and if it seeks, the deck comes in early enough on the disc. */
  ghost predicate Finds(world: World, d: Disc, p: Place, k: Call)
    requires Made(world, p, k)
  {
    var from, v := |p.t.events|, k.vs[0];
    && from <= v.begin <= v.end <= |k.t.events| && |k.t.states| == |k.t.events| + 1
    && Steady(k.t, from, |k.t.events|) && Obliging(world, d, v.time) && Answered(world, k.c, k.m, k.xs[0], k.t, v)
    && var q := FifoAfter(p.q, k.t.events[from..v.end]);
       if FromTheRing(k.m, k.xs[0]) then
         && k.lead == p.at && k.es == [] && k.f0 == p.f0 && Carries(d, BytesOf(q.stream), p.at, p.f0)
         && p.last < k.c.start < 0x8000_0000 && 1 <= k.c.count <= MAX_SECTORS && WellHeaded(k.c, d, p.f0, End(k.c))
       else
         Suits(k.c, d, q, k.lead, k.es, k.f0) && Passable(k.m, k.xs[0], k.es) && k.lead % 4 == 0
  }

  ghost function After(world: World, p: Place, k: Call): Place
    requires Made(world, p, k)
  {
    var r := SM.Run(k.c, k.m, k.xs);
    Place(k.t, FifoAfter(p.q, k.t.events[|p.t.events|..]), k.lead + RAW_SIZE * |k.es|, k.f0, r.lastSector, r.stopped)
  }

  /** One call after another, nothing in between. */
  ghost predicate Chained(world: World, d: Disc, p: Place, calls: seq<Call>)
    decreases |calls|
  {
    calls == []
    || (Made(world, p, calls[0]) && Finds(world, d, p, calls[0])
        && Chained(world, d, After(world, p, calls[0]), calls[1..]))
  }

  ghost function Finally(world: World, d: Disc, p: Place, calls: seq<Call>): Place
    requires Chained(world, d, p, calls)
    decreases |calls|
  {
    if calls == [] then p else Finally(world, d, After(world, p, calls[0]), calls[1..])
  }

  /** The ring a queue and ready; unless the next read is told to seek, the reader behind the last sector delivered. */
  ghost predicate Standing(p: Place)
  {
    && |p.t.states| == |p.t.events| + 1 && Ready(p.t.states[|p.t.events|], p.q)
    && (!p.stopped ==> AtFrame(p.q.read, p.at, p.f0, p.last + 1))
  }

  /** Success after a single read, every slot as on the disc. */
  ghost predicate AsOnDisc(d: Disc, k: Call)
  {
    && SM.WellShaped(k.m)
    && var r := SM.Run(k.c, k.m, k.xs);
       r.pc == SM.Returned(SECTOR_SIZE) && r.used == k.c.count && r.log.passes == 1 && AsPrinted(k.c, d, r.buf, r.used)
  }

  lemma FoundIsPlayed(world: World, d: Disc, p: Place, k: Call)
    requires Standing(p) && Made(world, p, k) && Finds(world, d, p, k)
    ensures Plays(world, k.c, d, k.m, k.xs, k.t, k.vs, |p.t.events|, p.q, k.lead, k.es, k.f0)
    ensures (k.lead + RAW_SIZE * |k.es|) % 4 == 0
  {
    hide FifoAfter, SM.Run, RetryBound.Thrifty, Lockstep.InStep, Provenance.Begins, Told, Carries, WellHeaded, Steady;
    hide Only;
    hide Ready, Answered, Obliging, Suits, Passable, SM.ResearchFrame;
    var from := |p.t.events|;
    assert k.t.states[from] == p.t.states[from];
    if FromTheRing(k.m, k.xs[0]) {
      RingWasKept(k.c.start, p.last, p.stopped, k.t, from, k.vs[0].begin);
      RingCallPlays(world, k.c, d, k.m, k.xs, k.t, k.s, k.vs, from, p.q, p.at, p.f0, p.last);
    }
  }

  /** A read that is not told to seek was not to be told before CD_Research_Frame either. */
  lemma RingWasKept(start: u32, last: u32, stopped: bool, t: Trail, from: nat, begin: nat)
    requires Researched(start, last, stopped, false, t, from, begin)
    ensures !stopped
  {
    hide Only;
    var n :| ResearchedAt(start, last, stopped, false, t, from, n, begin);
    assert ResearchedAt(start, last, stopped, false, t, from, n, begin);
  }

  lemma OneCall(world: World, d: Disc, p: Place, k: Call)
    requires Standing(p) && Made(world, p, k) && Finds(world, d, p, k)
    ensures AsOnDisc(d, k) && Standing(After(world, p, k)) && !After(world, p, k).stopped
  {
    hide FifoAfter, SM.Run, Ready, Finds, Plays, IsCall, Filled, AsPrinted, Researched, AtFrame;
    FoundIsPlayed(world, d, p, k);
    CallDelivers(world, k.c, d, k.m, k.xs, k.t, k.s, k.vs, |p.t.events|, p.q, k.lead, k.es, k.f0);
  }

  /** Over any number of calls: each succeeds after a single read with every slot as on the disc, and leaves the ring
      ready and the reader behind the last sector it has delivered. */
  lemma {:induction false} EveryCallDelivers(world: World, d: Disc, p: Place, calls: seq<Call>)
    requires Standing(p) && Chained(world, d, p, calls)
    ensures forall k | k in calls :: AsOnDisc(d, k)
    ensures Standing(Finally(world, d, p, calls)) && (calls != [] ==> !Finally(world, d, p, calls).stopped)
    decreases |calls|
  {
    hide Standing, Made, Finds, AsOnDisc, After;
    if calls != [] {
      OneCall(world, d, p, calls[0]);
      EveryCallDelivers(world, d, After(world, p, calls[0]), calls[1..]);
      forall k | k in calls
        ensures AsOnDisc(d, k)
      {
        assert k == calls[0] || k in calls[1..];
      }
    }
  }

  /** A mounted disc is such a beginning. */
  lemma MountedStands(t: Trail, s: State, last: u32)
    requires EndsAt(t, s) && t.events == [ForceStop(false)] && Initial(t.states[0])
    ensures Standing(Place(t, Fifo([], 0), 0, 0, last, true))
  {
    StepAt(t.states, t.events, 0);
    EmptyQueue(s);
  }
}
