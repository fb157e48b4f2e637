/** The ring as a read-ahead cache: serving the next request from it agrees with seeking for it. */
module ReadAhead {
  import opened Words
  import opened Layout
  import opened SectorMachine
  import opened InOrder
  import opened Completeness
  import opened OnePass
  import opened Capture
  import opened RingQueue
  import SingleBuffer

  /** In the stream captured since the last seek, whose byte number at begins frame f0, the reader stands at the first
      sample of frame f. */
  predicate AtFrame(read: nat, at: nat, f0: nat, f: nat)
  {
    at % 4 == 0 && f0 <= f && 4 * read == at + RAW_SIZE * (f - f0)
  }

  lemma BytesOfSlice(ws: seq<u16>, lo: nat, hi: nat)
    requires lo <= hi <= |ws|
    ensures BytesOf(ws[lo..hi]) == BytesOf(ws)[2 * lo..2 * hi]
  {
    var a, b := BytesOf(ws[lo..hi]), BytesOf(ws)[2 * lo..2 * hi];
    forall k | 0 <= k < 2 * (hi - lo)
      ensures a[k] == b[k]
    {
      assert ws[lo..hi][k / 2] == ws[(2 * lo + k) / 2];
    }
  }

  /** A peek of what is buffered gives the stream's bytes from the read position on. */
  lemma PeekReadsStream(s: State, q: Fifo, copySize: nat)
    requires Refines(s, q) && copySize <= 2 * SingleBuffer.Available(s.ring)
    ensures Peeked(s.ring, copySize) == Copied(q.stream[2 * q.read..2 * q.read + copySize])
    ensures BytesOf(q.stream[2 * q.read..2 * q.read + copySize])
         == BytesOf(q.stream)[4 * q.read..4 * q.read + 2 * copySize]
  {
    hide BytesOf, Peeked;
    PeekIsExact(s.ring, copySize);
    BytesOfSlice(q.stream, 2 * q.read, 2 * q.read + copySize);
    assert q.stream[2 * q.read..][..copySize] == q.stream[2 * q.read..2 * q.read + copySize];
  }

  /** From the start of any frame on, a stream of the disc's sectors begins with that frame. */
  lemma CarriesFrom(d: Disc, data: seq<byte>, at: nat, f0: nat, f: nat, n: nat)
    requires Carries(d, data, at, f0) && f0 <= f && at + RAW_SIZE * (f - f0) + n <= |data|
    ensures var lo := at + RAW_SIZE * (f - f0); Carries(d, data[lo..lo + n], 0, f)
  {
    var lo := at + RAW_SIZE * (f - f0);
    forall g | f <= g && RAW_SIZE * (g + 1 - f) <= n
      ensures Holds(data[lo..lo + n], RAW_SIZE * (g - f), d.sector(g))
    {
      assert Holds(data, at + RAW_SIZE * (g - f0), d.sector(g));
      Within(data, lo, lo + n, RAW_SIZE * (g - f), RAW_SIZE * (g - f) + RAW_SIZE);
    }
  }

  lemma StreamCarries(c: Request, d: Disc, data: seq<byte>, lead: nat, es: seq<Sector>, f: nat)
    ensures Stream(c, d, data, lead, es, f) ==> Carries(d, data, lead + RAW_SIZE * |es|, f)
    ensures Carries(d, data, 0, f) ==> Stream(c, d, data, 0, [], f)
  {
    hide Carries;
  }

  /** After a seek: when the first pass over a four-byte-aligned stream has delivered the call, the reader stands at the
      first sample of the sector after the last one delivered. */
  lemma SeekLeavesReaderBehindLast(c: Request, d: Disc, q: Fifo, m: Machine, xs: seq<Input>, lead: nat, es: seq<Sector>,
                                   f0: nat)
    requires Sought(c, d, m, xs, lead, es, f0) && lead % 4 == 0 && q.read == 0
    ensures var r := Run(c, m, xs);
            && r.pc == Returned(SECTOR_SIZE)
            && AtFrame(FifoStep(q, Consume(r.log.consumed)).read, lead + RAW_SIZE * |es|, f0, r.lastSector + 1)
  {
    hide Stream, WellHeaded, NiceRun, Run, LongEnough;
    SeekToleranceSuffices(c, d, m, xs, lead, es, f0);
    LastFits(c, d, f0);
  }

  lemma LastFits(c: Request, d: Disc, f0: nat)
    requires WellHeaded(c, d, f0, End(c)) && f0 <= c.start && c.count >= 1
    ensures U32(End(c) - 1) == End(c) - 1
  {
    hide Plain, FrameOf, Parted;
    assert Headed(c, d, End(c) - 1);
  }

  /** CD_Research_Frame, with the reader at the sector after the last one delivered and a later frame requested: if it
      drops anything or nothing at all rather than have the next read seek, the reader then stands at the first sample
      of the requested sector, and a whole sector at least is still buffered. */
  lemma ResearchLands(s: State, q: Fifo, at: nat, f0: nat, last: u32, start: u32)
    requires Refines(s, q) && AtFrame(q.read, at, f0, last + 1) && last < start < 0x8000_0000
    ensures var research := ResearchFrame(false, start, last, SingleBuffer.Available(s.ring));
            && !research.Leave?
            && (research.Drop? ==>
                  && research.samples + SECTOR_SAMPLES <= SingleBuffer.Available(s.ring)
                  && AtFrame(FifoStep(q, Consume(research.samples)).read, at, f0, start))
            && (research.Reseek? <==> SingleBuffer.Available(s.ring) < SECTOR_SAMPLES * (start - last))
  {
    assert S32(U32(start - last - 1)) == start - last - 1;
  }

  /** What a peek at the start of a frame stores begins with that frame. */
  lemma PeekFromFrame(d: Disc, s: State, q: Fifo, at: nat, f0: nat, f: nat, copySize: nat)
    requires Refines(s, q) && Carries(d, BytesOf(q.stream), at, f0) && AtFrame(q.read, at, f0, f)
    requires copySize <= 2 * SingleBuffer.Available(s.ring)
    ensures Peeked(s.ring, copySize).Copied?
    ensures var data := BytesOf(Peeked(s.ring, copySize).words); |data| == 2 * copySize && Carries(d, data, 0, f)
  {
    hide Stream, Carries, Peeked, Refines;
    PeekReadsStream(s, q, copySize);
    StreamLongEnough(s, q, copySize);
    CarriesFrom(d, BytesOf(q.stream), at, f0, f, 2 * copySize);
  }

  lemma StreamLongEnough(s: State, q: Fifo, copySize: nat)
    requires Refines(s, q) && copySize <= 2 * SingleBuffer.Available(s.ring)
    ensures 4 * q.read + 2 * copySize <= |BytesOf(q.stream)|
  {
  }

  /** A pass over bytes that begin with the request. */
  lemma PassWithoutLead(c: Request, d: Disc, m: Machine, xs: seq<Input>)
    requires WellShaped(m) && m.pc.TryRead? && m.used == 0 && 0 < m.frameRetry && 1 <= c.count <= MAX_SECTORS
    requires xs != [] && xs[0].read.Answer? && xs[0].read.size > 0
    requires |xs[0].read.data| == RAW_SIZE * PlannedSectors(c.count) && Carries(d, xs[0].read.data, 0, c.start)
    requires WellHeaded(c, d, c.start, End(c)) && NiceRun(c, d, m, xs)
    requires LongEnough(c, m, xs, c.count + CD_KMP_RETRY_CNT + 1)
    ensures var r := Run(c, m, xs);
            && r.pc == Returned(SECTOR_SIZE) && r.used == c.count && r.log.passes == m.log.passes + 1
            && Filled(c, d, r, 0) && r.lastSector == End(c) - 1
            && r.log.consumed == SECTOR_SAMPLES * c.count
  {
    hide NiceRun, Run, Stream, Carries, Payload, Headed, Parted;
    ToleranceIsRead(c.count);
    ReadFitsChunk(c.count, 0);
    StreamCarries(c, d, xs[0].read.data, 0, [], c.start);
    PassDelivers(c, d, m, xs, 0, [], c.start);
    LastFits(c, d, c.start);
  }

  lemma HeadedFromFrame(c: Request, d: Disc, f0: nat, f: nat)
    requires WellHeaded(c, d, f0, End(c)) && f0 <= f
    ensures WellHeaded(c, d, f, End(c))
  {
    hide Headed, Parted;
  }

  /** A call served from the ring, without a seek, for any number of sectors whose planned read is buffered: every
      slot is as on the disc, the reader consumes no more than was buffered, and ends up behind the last sector once
      more. */
  lemma CallFromRing(c: Request, d: Disc, s: State, q: Fifo, m: Machine, xs: seq<Input>, at: nat, f0: nat,
                     copySize: nat)
    requires Refines(s, q) && Carries(d, BytesOf(q.stream), at, f0) && AtFrame(q.read, at, f0, c.start)
    requires WellShaped(m) && m.pc.TryRead? && m.used == 0 && 0 < m.frameRetry && 1 <= c.count <= MAX_SECTORS
    requires copySize == 2 * SECTOR_SAMPLES * PlannedSectors(c.count) <= 2 * SingleBuffer.Available(s.ring)
    requires xs != [] && xs[0].read.Answer? && xs[0].read.size > 0
    requires Peeked(s.ring, copySize).Copied? && xs[0].read.data == BytesOf(Peeked(s.ring, copySize).words)
    requires WellHeaded(c, d, f0, End(c)) && NiceRun(c, d, m, xs)
    requires LongEnough(c, m, xs, c.count + CD_KMP_RETRY_CNT + 1)
    ensures var r := Run(c, m, xs);
            && r.pc == Returned(SECTOR_SIZE) && r.used == c.count && r.log.passes == m.log.passes + 1
            && Filled(c, d, r, 0) && AsPrinted(c, d, r.buf, c.count)
            && r.log.consumed <= SingleBuffer.Available(s.ring)
            && AtFrame(FifoStep(q, Consume(r.log.consumed)).read, at, f0, r.lastSector + 1)
  {
    hide NiceRun, Run, BytesOf, Peeked, WellHeaded, Payload, Stream, Carries, Refines, Filled;
    ToleranceIsRead(c.count);
    PeekFromFrame(d, s, q, at, f0, c.start, copySize);
    HeadedFromFrame(c, d, f0, c.start);
    PassWithoutLead(c, d, m, xs);
    FilledIsPrinted(c, d, Run(c, m, xs));
  }

  /** A call served from the ring: what it finds when it begins, what it finds when it copies, and its run. */
  datatype Call = Call(c: Request, left: State, leftQ: Fifo, peek: State, peekQ: Fifo, m: Machine, xs: seq<Input>)

  function CopySize(c: Request): nat { 2 * SECTOR_SAMPLES * PlannedSectors(c.count) }

  /** The call asks for later frames than the last delivered, CD_Research_Frame drops what lies between, more blocks may
      come in, and in the end the planned read is there to be copied; inputs are nice from then on. */
  ghost predicate FromRing(d: Disc, at: nat, f0: nat, last: u32, k: Call)
  {
    Refines(k.left, k.leftQ) &&
    var research := ResearchFrame(false, k.c.start, last, SingleBuffer.Available(k.left.ring));
    && last < k.c.start < 0x8000_0000 && research.Drop?
    && Refines(k.peek, k.peekQ) && k.peekQ.read == k.leftQ.read + research.samples
    && Carries(d, BytesOf(k.peekQ.stream), at, f0)
    && Served(d, f0, k.c, k.peek, k.m, k.xs)
  }

  ghost predicate Served(d: Disc, f0: nat, c: Request, s: State, m: Machine, xs: seq<Input>)
    requires SingleBuffer.Sound(s.ring)
  {
    && WellShaped(m) && m.pc.TryRead? && m.used == 0 && 0 < m.frameRetry && 1 <= c.count <= MAX_SECTORS
    && CopySize(c) <= 2 * SingleBuffer.Available(s.ring)
    && xs != [] && xs[0].read.Answer? && xs[0].read.size > 0
    && Peeked(s.ring, CopySize(c)).Copied? && xs[0].read.data == BytesOf(Peeked(s.ring, CopySize(c)).words)
    && WellHeaded(c, d, f0, End(c)) && NiceRun(c, d, m, xs) && LongEnough(c, m, xs, c.count + CD_KMP_RETRY_CNT + 1)
  }

  /** One such call after another, each beginning where the one before has left the reader. */
  ghost predicate Chain(d: Disc, at: nat, f0: nat, last: u32, read: nat, calls: seq<Call>)
    decreases |calls|
  {
    calls == [] ||
    var k := calls[0];
    && FromRing(d, at, f0, last, k) && k.leftQ.read == read
    && Chain(d, at, f0, Run(k.c, k.m, k.xs).lastSector, k.peekQ.read + Run(k.c, k.m, k.xs).log.consumed, calls[1..])
  }

  ghost predicate AsOnDisc(d: Disc, k: Call)
    requires WellShaped(k.m)
  {
    var r := Run(k.c, k.m, k.xs);
    && r.pc == Returned(SECTOR_SIZE) && r.used == k.c.count && r.log.passes == k.m.log.passes + 1
    && Filled(k.c, d, r, 0) && AsPrinted(k.c, d, r.buf, k.c.count)
  }

  /** How many samples of the stream have been read after a chain of calls, and the last sector delivered. */
  ghost function ReadAfter(read: nat, calls: seq<Call>): nat
    requires forall k | k in calls :: WellShaped(k.m)
  {
    if calls == [] then read
    else
      var k := calls[|calls| - 1];
      k.peekQ.read + Run(k.c, k.m, k.xs).log.consumed
  }

  ghost function LastAfter(last: u32, calls: seq<Call>): u32
    requires forall k | k in calls :: WellShaped(k.m)
  {
    if calls == [] then last
    else
      var k := calls[|calls| - 1];
      Run(k.c, k.m, k.xs).lastSector
  }

  /** Any number of calls, each for later frames than the one before and served from the ring without a seek, deliver
      what is on the disc, and leave the reader at the first sample of the sector after the last one delivered. */
  lemma {:induction false} RingServesEveryCall(d: Disc, at: nat, f0: nat, last: u32, read: nat, calls: seq<Call>)
    requires AtFrame(read, at, f0, last + 1) && Chain(d, at, f0, last, read, calls)
    ensures forall k | k in calls :: WellShaped(k.m) && AsOnDisc(d, k)
    ensures AtFrame(ReadAfter(read, calls), at, f0, LastAfter(last, calls) + 1)
    decreases |calls|
  {
    hide Run, Refines, Stream, Carries, NiceRun, Peeked, BytesOf, WellHeaded, Filled, ResearchFrame, WellShaped;
    hide LongEnough, AsOnDisc;
    if calls != [] {
      var k := calls[0];
      OneCall(d, at, f0, last, k);
      RingServesEveryCall(d, at, f0, Run(k.c, k.m, k.xs).lastSector,
                          k.peekQ.read + Run(k.c, k.m, k.xs).log.consumed, calls[1..]);
      forall k' | k' in calls
        ensures WellShaped(k'.m) && AsOnDisc(d, k')
      {
        assert k' == calls[0] || k' in calls[1..];
      }
    }
  }

  lemma OneCall(d: Disc, at: nat, f0: nat, last: u32, k: Call)
    requires FromRing(d, at, f0, last, k) && AtFrame(k.leftQ.read, at, f0, last + 1)
    ensures WellShaped(k.m) && AsOnDisc(d, k)
    ensures AtFrame(k.peekQ.read + Run(k.c, k.m, k.xs).log.consumed, at, f0, Run(k.c, k.m, k.xs).lastSector + 1)
  {
    hide Run, Refines, Stream, Carries, NiceRun, Peeked, BytesOf, WellHeaded, Filled, ResearchFrame, WellShaped;
    hide LongEnough;
    ResearchLands(k.left, k.leftQ, at, f0, last, k.c.start);
    CallFromRing(k.c, d, k.peek, k.peekQ, k.m, k.xs, at, f0, CopySize(k.c));
  }

  /** The ring agrees with seeking. A request served from the ring, whatever was left in it by earlier calls, and the
      same request served by a seek, wherever the deck comes in and whatever the machine and its buffer were like, end
      alike: in success and with the same bytes. */
  lemma NoSeekAgreesWithSeek(d: Disc, at: nat, f0: nat, last: u32, k: Call, m: Machine, xs: seq<Input>, lead: nat,
                             es: seq<Sector>, f: nat)
    requires AtFrame(k.leftQ.read, at, f0, last + 1) && FromRing(d, at, f0, last, k)
    requires Sought(k.c, d, m, xs, lead, es, f)
    ensures WellShaped(k.m)
    ensures var a, b, n := Run(k.c, k.m, k.xs), Run(k.c, m, xs), SECTOR_SIZE * k.c.count;
            && a.pc == b.pc == Returned(SECTOR_SIZE) && n <= |a.buf| == |b.buf| && a.buf[..n] == b.buf[..n]
  {
    hide Run, Refines, Stream, Carries, NiceRun, Peeked, BytesOf, WellHeaded, ResearchFrame, LongEnough, Payload;
    OneCall(d, at, f0, last, k);
    SeekToleranceSuffices(k.c, d, m, xs, lead, es, f);
    SameSlotsSameBytes(k.c, d, Run(k.c, k.m, k.xs), Run(k.c, m, xs));
  }

  lemma SameSlotsSameBytes(c: Request, d: Disc, a: Machine, b: Machine)
    requires WellShaped(a) && WellShaped(b) && Filled(c, d, a, 0) && Filled(c, d, b, 0) && a.used == b.used
    ensures a.buf[..SECTOR_SIZE * a.used] == b.buf[..SECTOR_SIZE * b.used]
  {
    forall k | 0 <= k < SECTOR_SIZE * a.used
      ensures a.buf[k] == b.buf[k]
    {
      var i, j := k / SECTOR_SIZE, k % SECTOR_SIZE;
      assert Slot(a.buf, i)[j] == Slot(b.buf, i)[j];
    }
  }
}
