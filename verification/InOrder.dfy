/** In-order delivery: whatever the deck sends and whatever the machine does about it, slot i of the output holds the
    user data of a sector whose own header says it is frame start + i. */
module InOrder {
  import opened Words
  import opened Layout
  import opened SectorMachine
  import KmpSearch

  /** The i-th delivery is of the i-th frame asked for: a sync begins it, its descrambled header names the frame, and
      from byte 304 on it is what stood in the buffer right after the pass's read (its head may reach back into a
      sector the search has already descrambled, when syncs come less than a sector apart). */
  ghost predicate Genuine(c: Request, d: Delivery, i: nat)
  {
    && d.base <= d.at && d.at + RAW_SIZE <= |d.image|
    && d.base + |d.data| <= |d.image| && d.image[d.base..d.base + |d.data|] == d.data
    && d.raw[..12] == SYNC
    && d.raw[304..] == d.image[d.at + 304..d.at + RAW_SIZE]
    && FrameOf(c.descramble(d.raw)) == U32(c.start + i)
  }

  /** The delivered sector ended inside what its pass's read had stored. */
  predicate WithinRead(d: Delivery)
  {
    d.at + RAW_SIZE <= d.base + |d.data|
  }

  /** The user data of a delivery: where it starts in the decoded sector is up to the mode in the descrambled header. */
  function Output(c: Request, d: Delivery): seq<byte>
  {
    UserData(d.decoded, ModeOf(c.descramble(d.raw)))
  }

  function Slot(buf: seq<byte>, i: nat): seq<byte>
    requires SECTOR_SIZE * (i + 1) <= |buf|
  {
    buf[SECTOR_SIZE * i..SECTOR_SIZE * (i + 1)]
  }

  ghost predicate Delivered(c: Request, m: Machine)
    requires WellShaped(m)
  {
    && SECTOR_SIZE * m.used <= |m.buf|
    && |m.log.deliveries| == m.used
    && forall i {:trigger Slot(m.buf, i)} :: 0 <= i < m.used ==>
         Genuine(c, m.log.deliveries[i], i) && Slot(m.buf, i) == Output(c, m.log.deliveries[i])
  }

  /** Past what has been descrambled the buffer is still as it was read. */
  ghost predicate Fresh(m: Machine)
  {
    && |m.log.image| == |m.buf| && m.log.touched <= |m.buf|
    && m.buf[m.log.touched..] == m.log.image[m.log.touched..]
    && m.log.base + |m.log.data| <= |m.log.image| && |m.log.data| == m.log.got
    && m.log.image[m.log.base..m.log.base + |m.log.data|] == m.log.data
  }

  /** The next search begins inside the pass, at most 304 bytes before the end of what has been descrambled. */
  predicate Ahead(m: Machine)
  {
    m.pc.SearchLbn? ==> m.log.base <= m.src && m.log.touched <= m.src + 304
  }

  ghost predicate Sound(c: Request, m: Machine)
  {
    WellShaped(m) && Delivered(c, m) && Fresh(m)
  }

  // ----- the buffer under the three kinds of writes

  lemma DeliveredKept(c: Request, m: Machine, m': Machine, at: nat, data: seq<byte>)
    requires WellShaped(m) && WellShaped(m') && Delivered(c, m) && m.dst <= at && at + |data| <= |m.buf|
    requires m'.buf == Overlay(m.buf, at, data) && m'.used == m.used && m'.log.deliveries == m.log.deliveries
    ensures Delivered(c, m')
  {
    hide Genuine, Output;
    forall i | 0 <= i < m'.used
      ensures Genuine(c, m'.log.deliveries[i], i) && Slot(m'.buf, i) == Output(c, m'.log.deliveries[i])
    {
      assert Slot(m.buf, i) == Output(c, m.log.deliveries[i]);
      OverlayParts(m.buf, at, data, SECTOR_SIZE * i, SECTOR_SIZE * (i + 1));
    }
  }

  lemma FreshKept(m: Machine, m': Machine, at: nat, data: seq<byte>)
    requires Fresh(m) && at + |data| <= |m.buf| && m'.buf == Overlay(m.buf, at, data) && m'.log.image == m.log.image
    requires m'.log.base == m.log.base && m'.log.data == m.log.data && m'.log.got == m.log.got
    requires at + |data| <= m'.log.touched <= |m.buf| && m.log.touched <= m'.log.touched
    ensures Fresh(m')
  {
    var t, t' := m.log.touched, m'.log.touched;
    OverlayParts(m.buf, at, data, t', |m.buf|);
    assert m.buf[t'..] == m.buf[t..][t' - t..];
    assert m.log.image[t'..] == m.log.image[t..][t' - t..];
  }

  // ----- the steps

  lemma ReadSound(c: Request, m: Machine, r: ReadResult)
    requires Sound(c, m) && m.pc.TryRead?
    ensures Sound(c, ReadStep(c, m, r)) && Ahead(ReadStep(c, m, r))
  {
    hide Genuine, Output, U32;
    var m' := ReadStep(c, m, r);
    if m'.pc.SearchLbn? {
      DeliveredKept(c, m, m', m.dst, r.data);
      OverlayParts(m.buf, m.dst, r.data, m.dst, m.dst + |r.data|);
    } else {
      assert m'.buf == Overlay(m.buf, m.dst, []);
      DeliveredKept(c, m, m', m.dst, []);
    }
  }

  lemma DeliverSound(c: Request, m: Machine, raw: Sector, x: Look)
    requires Sound(c, m) && m.log.base <= m.src
    requires m.src + RAW_SIZE <= |m.buf| && m.log.touched == m.src + RAW_SIZE
    requires Genuine(c, DeliveryOf(m, raw, x), m.used)
    ensures Sound(c, Deliver(c, m, raw, ModeOf(c.descramble(raw)), x))
    ensures Ahead(Deliver(c, m, raw, ModeOf(c.descramble(raw)), x))
  {
    hide Genuine, UserData, U32;
    var data := UserData(x.decoded, ModeOf(c.descramble(raw)));
    var m' := Deliver(c, m, raw, ModeOf(c.descramble(raw)), x);
    FreshKept(m, m', m.dst, data);
    forall i | 0 <= i < m'.used
      ensures Genuine(c, m'.log.deliveries[i], i) && Slot(m'.buf, i) == Output(c, m'.log.deliveries[i])
    {
      OverlayParts(m.buf, m.dst, data, SECTOR_SIZE * i, SECTOR_SIZE * (i + 1));
      if i < m.used {
        assert Slot(m.buf, i) == Output(c, m.log.deliveries[i]);
      }
    }
  }

  lemma MatchedSound(c: Request, m: Machine, raw: Sector, x: Look)
    requires Sound(c, m) && m.log.base <= m.src
    requires m.src + RAW_SIZE <= |m.buf| && m.log.touched == m.src + RAW_SIZE
    requires Genuine(c, DeliveryOf(m, raw, x), m.used)
    ensures Sound(c, Matched(c, m, raw, ModeOf(c.descramble(raw)), x))
    ensures Ahead(Matched(c, m, raw, ModeOf(c.descramble(raw)), x))
  {
    hide Delivered, Deliver, U32, FrameOf;
    var m' := m.(buf := Overlay(m.buf, m.src, x.decoded));
    DeliveredKept(c, m, m', m.src, x.decoded);
    FreshKept(m, m', m.src, x.decoded);
    if x.c3 < CD_TRUE {
      var failed := m'.(stopped := true, c3Retry := m.c3Retry - 1, log := m.log.(failures := m.log.failures + 1));
      DeliveredKept(c, m, failed, m.src, x.decoded);
      if failed.c3Retry > 0 {
        DeliveredKept(c, m, failed.(pc := TryRead), m.src, x.decoded);
      } else {
        DeliverSound(c, failed, raw, x);
      }
    } else {
      DeliverSound(c, m', raw, x);
    }
  }

  lemma MismatchedSound(c: Request, m: Machine, frame: u32, request: u32, available: Samples)
    requires Sound(c, m) && m.pc.SearchLbn? && m.log.base <= m.src && frame != request
    requires m.log.touched <= m.src + RAW_SIZE
    ensures Sound(c, Mismatched(m, frame, request, available)) && Ahead(Mismatched(m, frame, request, available))
  {
    hide Delivered, Fresh, Mismatched;
    MismatchedMoves(m, frame, request, available);
    Untouched(c, m, Mismatched(m, frame, request, available));
  }

  lemma MismatchedMoves(m: Machine, frame: u32, request: u32, available: Samples)
    requires frame != request
    ensures var m' := Mismatched(m, frame, request, available);
            && m'.buf == m.buf && m'.used == m.used && m'.dst == m.dst && m.src <= m'.src
            && m'.log == m.log.(consumed := m'.log.consumed)
            && (m'.pc.SearchLbn? && m.pc.SearchLbn? ==> m.src + SECTOR_SIZE <= m'.src)
  {
    assert request > frame ==> (request - frame) * RAW_SIZE - MOVE_SIZE >= SECTOR_SIZE;
  }

  /** A step that writes nothing. */
  lemma Untouched(c: Request, m: Machine, m': Machine)
    requires Sound(c, m) && m'.buf == m.buf && m'.used == m.used && m'.dst == m.dst && m.src <= m'.src
    requires m'.log.deliveries == m.log.deliveries && m'.log.image == m.log.image && m'.log.touched == m.log.touched
    requires m'.log.base == m.log.base && m'.log.data == m.log.data && m'.log.got == m.log.got
    ensures Sound(c, m')
  {
    assert m'.buf == Overlay(m.buf, m.dst, []);
    DeliveredKept(c, m, m', m.dst, []);
  }

  lemma DescrambledSound(c: Request, m: Machine, plain: Sector)
    requires Sound(c, m) && Ahead(m) && m.pc.SearchLbn? && m.src + RAW_SIZE <= |m.buf|
    ensures Sound(c, Descrambled(m, plain))
  {
    hide Delivered;
    DescrambledKeepsShape(m, plain);
    DeliveredKept(c, m, Descrambled(m, plain), m.src, plain);
    FreshKept(m, Descrambled(m, plain), m.src, plain);
  }

  /** From byte 304 on, the sector at the cursor is still as the buffer had it when the pass began to search. */
  lemma RawIsGenuine(c: Request, m: Machine, m': Machine, x: Look)
    requires Fresh(m) && Ahead(m) && m.pc.SearchLbn? && m.src + RAW_SIZE <= |m.buf| && RawAt(m)[..12] == SYNC
    requires FrameOf(c.descramble(RawAt(m))) == U32(c.start + m.used)
    requires m'.log.image == m.log.image && m'.log.base == m.log.base && m'.log.data == m.log.data && m'.src == m.src
    ensures Genuine(c, DeliveryOf(m', RawAt(m), x), m.used)
  {
    hide FrameOf, U32;
    var t, lo, hi := m.log.touched, m.src + 304, m.src + RAW_SIZE;
    assert RawAt(m)[304..] == m.buf[lo..hi] == m.buf[t..][lo - t..hi - t];
    assert m.log.image[lo..hi] == m.log.image[t..][lo - t..hi - t];
  }

  lemma InspectSound(c: Request, m: Machine, x: Look)
    requires Sound(c, m) && Ahead(m) && m.pc.SearchLbn? && m.src + RAW_SIZE <= |m.buf| && RawAt(m)[..12] == SYNC
    ensures Sound(c, Inspect(c, m, x)) && Ahead(Inspect(c, m, x))
  {
    hide Delivered, Fresh, Matched, Mismatched, FrameOf, U32, ModeOf;
    var plain := c.descramble(RawAt(m));
    var m', request := Descrambled(m, plain), U32(c.start + m.used);
    DescrambledSound(c, m, plain);
    DescrambledKeepsShape(m, plain);
    if FrameOf(plain) == request {
      RawIsGenuine(c, m, m', x);
      MatchedSound(c, m', RawAt(m), x);
    } else {
      MismatchedSound(c, m', FrameOf(plain), request, x.available);
    }
  }

  lemma Within(buf: seq<byte>, lo: nat, hi: nat, i: nat, j: nat)
    requires lo <= hi <= |buf| && i <= j <= hi - lo
    ensures buf[lo..hi][i..j] == buf[lo + i..lo + j]
  {
    var a, b := buf[lo..hi][i..j], buf[lo + i..lo + j];
    assert |a| == j - i == |b|;
    forall p | 0 <= p < j - i
      ensures a[p] == b[p]
    {
    }
  }

  lemma SyncFound(m: Machine, granted: bool)
    requires m.src + RAW_SIZE <= |m.buf|
    ensures var k := SyncOffset(m, granted);
            k == -1 || (0 <= k <= RAW_SIZE - 12 && m.buf[m.src + k..m.src + k + 12] == SYNC)
  {
    var k, window := SyncOffset(m, granted), m.buf[m.src..m.src + RAW_SIZE];
    if k != -1 {
      assert k == KmpSearch.Find(window, SYNC) != KmpSearch.CD_FALSE;
      assert KmpSearch.OccursAt(window, SYNC, k);
      Within(m.buf, m.src, m.src + RAW_SIZE, k, k + 12);
    }
  }

  lemma SearchSound(c: Request, m: Machine, x: Look)
    requires Sound(c, m) && Ahead(m) && m.pc.SearchLbn?
    ensures Sound(c, SearchStep(c, m, x)) && Ahead(SearchStep(c, m, x))
  {
    hide Inspect, Delivered, Fresh, SyncOffset;
    Untouched(c, m, m.(pc := Lost));
    if m.src + RAW_SIZE <= |m.buf| {
      var k := SyncOffset(m, x.granted);
      SyncFound(m, x.granted);
      if k < 0 {
        Untouched(c, m, Missed(Scanned(m)));
      } else {
        Untouched(c, m, Found(Scanned(m), k));
        if x.forceStop {
          Untouched(c, m, SearchStep(c, m, x));
        } else if m.src + k + RAW_SIZE <= |m.buf| {
          Within(m.buf, m.src + k, m.src + k + RAW_SIZE, 0, 12);
          assert RawAt(Found(Scanned(m), k))[0..12] == m.buf[m.src + k..m.src + k + 12];
          InspectSound(c, Found(Scanned(m), k), x);
        }
      }
    }
  }

  lemma StepSound(c: Request, m: Machine, x: Input)
    requires Sound(c, m) && Ahead(m)
    ensures Sound(c, Step(c, m, x)) && Ahead(Step(c, m, x))
  {
    hide Sound, ReadStep, SearchStep;
    match m.pc
    case TryRead => ReadSound(c, m, x.read);
    case SearchLbn => SearchSound(c, m, x.look);
    case _ =>
  }

  /** Compaction is safe: delivering a sector writes its slot with the user data of the decoded sector, and leaves the
      other slots and every byte behind the current sector as they were. */
  lemma CompactionIsSafe(c: Request, m: Machine, raw: Sector, mode: byte, x: Look)
    requires WellShaped(m) && m.src + RAW_SIZE <= |m.buf|
    ensures var m' := Deliver(c, m, raw, mode, x);
            && WellShaped(m') && m.dst + SECTOR_SIZE <= m.src + RAW_SIZE == m'.src
            && Slot(m'.buf, m.used) == UserData(x.decoded, mode)
            && m'.buf[..m.dst] == m.buf[..m.dst] && m'.buf[m'.src..] == m.buf[m'.src..]
  {
    hide UserData, Overlay, U32;
    var m' := Deliver(c, m, raw, mode, x);
    assert m'.buf == Overlay(m.buf, m.dst, UserData(x.decoded, mode));
    OverlayParts(m.buf, m.dst, UserData(x.decoded, mode), 0, m.dst);
    OverlayParts(m.buf, m.dst, UserData(x.decoded, mode), m.dst, m.dst + SECTOR_SIZE);
    OverlayParts(m.buf, m.dst, UserData(x.decoded, mode), m.src + RAW_SIZE, |m.buf|);
    assert m'.buf[m'.src..|m.buf|] == m'.buf[m'.src..] && m.buf[m'.src..|m.buf|] == m.buf[m'.src..];
    assert m'.buf[0..m.dst] == m'.buf[..m.dst] && m.buf[0..m.dst] == m.buf[..m.dst];
  }

  // ----- how many

  /** Even a request for no sectors delivers one. */
  predicate Counted(c: Request, m: Machine)
  {
    && (Active(m) ==> m.used < Max(c.count, 1))
    && (m.pc == Returned(SECTOR_SIZE) ==> m.used == Max(c.count, 1))
  }

  lemma MatchedCounted(c: Request, m: Machine, raw: Sector, mode: byte, x: Look)
    requires Counted(c, m) && m.pc.SearchLbn? && m.src + RAW_SIZE <= |m.buf| && m.dst + SECTOR_SIZE <= |m.buf|
    ensures Counted(c, Matched(c, m, raw, mode, x))
    ensures m.log.deliveries <= Matched(c, m, raw, mode, x).log.deliveries
  {
    hide Overlay, UserData, U32;
  }

  lemma InspectCounted(c: Request, m: Machine, x: Look)
    requires Counted(c, m) && m.pc.SearchLbn? && m.src + RAW_SIZE <= |m.buf| && m.dst <= m.src
    ensures Counted(c, Inspect(c, m, x))
    ensures m.log.deliveries <= Inspect(c, m, x).log.deliveries
  {
    hide Matched, Overlay, FrameOf, U32;
    var plain := c.descramble(RawAt(m));
    MatchedCounted(c, Descrambled(m, plain), RawAt(m), ModeOf(plain), x);
  }

  lemma StepCounted(c: Request, m: Machine, x: Input)
    requires WellShaped(m) && Counted(c, m)
    ensures Counted(c, Step(c, m, x))
    ensures m.log.deliveries <= Step(c, m, x).log.deliveries
  {
    hide Inspect, Overlay, U32, SyncOffset;
    if m.pc.SearchLbn? && m.src + RAW_SIZE <= |m.buf| {
      var k := SyncOffset(m, x.look.granted);
      if k >= 0 && m.src + k + RAW_SIZE <= |m.buf| {
        InspectCounted(c, Found(Scanned(m), k), x.look);
      }
    }
  }

  // ----- over every run

  lemma {:induction false} RunSound(c: Request, m: Machine, xs: seq<Input>)
    requires Sound(c, m) && Ahead(m) && Counted(c, m)
    ensures Sound(c, Run(c, m, xs)) && Ahead(Run(c, m, xs)) && Counted(c, Run(c, m, xs))
    decreases |xs|
  {
    hide Step, Delivered, Fresh, Counted;
    if xs != [] {
      StepSound(c, m, xs[0]);
      StepCounted(c, m, xs[0]);
      RunSound(c, Step(c, m, xs[0]), xs[1..]);
    }
  }

  /** A call that ends successfully, after any inputs, has delivered every sector asked for, in order and genuine. */
  lemma InOrderDelivery(c: Request, m: Machine, xs: seq<Input>)
    requires Sound(c, m) && m.used == 0 && m.pc.TryRead? && c.count >= 1
    requires Run(c, m, xs).pc == Returned(SECTOR_SIZE)
    ensures Run(c, m, xs).used == c.count && Delivered(c, Run(c, m, xs))
  {
    RunSound(c, m, xs);
  }

  lemma StartIsSound(c: Request, buf: seq<byte>, researchCnt: nat, pickupSeek: bool, stopped: bool, lastSector: u32)
    requires |buf| == CHUNK_BYTES
    ensures Sound(c, Start(buf, researchCnt, pickupSeek, stopped, lastSector))
  {
  }

  /** No later read, jump or copy disturbs a sector already delivered. */
  lemma {:induction false} DeliveriesStay(c: Request, m: Machine, xs: seq<Input>)
    requires Sound(c, m) && Ahead(m) && Counted(c, m)
    ensures Sound(c, m) && Sound(c, Run(c, m, xs)) && m.used <= Run(c, m, xs).used
    ensures m.log.deliveries <= Run(c, m, xs).log.deliveries
    ensures forall i :: 0 <= i < m.used ==> Slot(Run(c, m, xs).buf, i) == Slot(m.buf, i)
    decreases |xs|
  {
    hide Step, Genuine, Output, Slot;
    if xs != [] {
      StepSound(c, m, xs[0]);
      StepCounted(c, m, xs[0]);
      DeliveriesStay(c, Step(c, m, xs[0]), xs[1..]);
    }
    RunSound(c, m, xs);
    SameSlots(c, m, Run(c, m, xs));
  }

  lemma SameSlots(c: Request, m: Machine, r: Machine)
    requires Sound(c, m) && Sound(c, r) && m.log.deliveries <= r.log.deliveries
    ensures forall i :: 0 <= i < m.used ==> Slot(r.buf, i) == Slot(m.buf, i)
  {
    hide Genuine, Output;
    forall i | 0 <= i < m.used
      ensures Slot(r.buf, i) == Slot(m.buf, i)
    {
      assert Slot(m.buf, i) == Output(c, m.log.deliveries[i]);
      assert Slot(r.buf, i) == Output(c, r.log.deliveries[i]);
    }
  }
}
