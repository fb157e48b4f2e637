/** The sector-recovery loop of CD_DescrambleSector as a transition system: one step for a visit to TRY_READ, one for a
    visit to SEARCH_LBN. Whatever comes from outside (what a read gives, the decoder, the ring's fill level, force stop,
    memory exhaustion) is an arbitrary input of the step. */
module SectorMachine {
  import opened Words
  import opened Layout
  import KmpSearch

  const CD_TRUE := 1
  const CD_RETRY_CNT := 3
  const CD_KMP_RETRY_CNT := 2
  const CD_C3_CNT := 2
  const PREVIOUS_DATA_SKIP_COUNT := 5
  const KMP_ERROR := -4
  const FRAME_OVER := -5
  const FRAME_UNDER := -6
  const CD_FORCE_STOP := -9

  /** A request for count sectors from frame start on, and the library's in-place descrambler. */
  datatype Request = Request(start: u32, count: u32, descramble: Sector -> Sector)

  // ----- inputs

  /** One CD_ReadData: its result, the bytes it stored, whether it sought, whether it left CD_BUF_STOP behind. It may
      also never answer, or run off the ring's memory. */
  datatype ReadResult =
    | Answer(size: int, data: seq<byte>, sought: bool, stopped: bool)
    | NoAnswer
    | BadCopy

  type Samples = x: int | 0 <= x < 0x20_0000

  /** What one visit to SEARCH_LBN observes; c3 and decoded are the decoder's verdict and the sector it leaves. */
  datatype Look = Look(granted: bool, forceStop: bool, c3: int, decoded: Sector, available: Samples)

  datatype Input = Input(read: ReadResult, look: Look)

  // ----- states

  datatype Label = TryRead | SearchLbn | Returned(code: int) | Lost | Waiting

  /** src and dst are psCDBuff and pdCDBuff; stopped says that the buffer status is CD_BUF_STOP. */
  datatype Machine = Machine(
    pc: Label, buf: seq<byte>, src: nat, dst: nat, used: nat, goMsf: u32,
    kmpCnt: int, kmpRetry: int, c3Retry: int, frameRetry: int,
    researchCnt: nat, pickupSeek: bool, stopped: bool, lastSector: u32, log: Log)

  /** History of a call; the steps never look at it. Of the current pass: where its read was stored, what it stored
      and how much, the buffer right after it, samples taken from the ring, syncs found, whether all lay on multiples
      of four, the end of the last descrambled sector and of everything inspected. Of the call: inputs taken, the
      number of the input that was the current pass's read and of the last look, decodes that failed, and sectors
      delivered. */
  datatype Log = Log(
    passes: nat, base: nat, data: seq<byte>, got: nat, image: seq<byte>, consumed: nat, found: nat, aligned: bool,
    touched: nat, reach: nat, steps: nat, read: nat, look: nat, failures: nat, deliveries: seq<Delivery>)

  /** A delivered sector: the buffer image it was found in, where in it the read was stored and what that was, where the
      sector lay and what its bytes were, the decoder's verdict and output, how many decodes had failed by then, and the
      numbers of the inputs it came from. */
  datatype Delivery = Delivery(
    image: seq<byte>, base: nat, data: seq<byte>, at: nat, raw: Sector, c3: int, decoded: Sector, failures: nat,
    read: nat, look: nat)

  predicate Active(m: Machine) { m.pc.TryRead? || m.pc.SearchLbn? }

  /** The state at the first TRY_READ of a call. */
  function Start(buf: seq<byte>, researchCnt: nat, pickupSeek: bool, stopped: bool, lastSector: u32): Machine
  {
    Machine(TryRead, buf, 0, 0, 0, 0, CD_KMP_RETRY_CNT, CD_KMP_RETRY_CNT, CD_C3_CNT, CD_RETRY_CNT,
            researchCnt, pickupSeek, stopped, lastSector, Log(0, 0, [], 0, buf, 0, 0, true, 0, 0, 0, 0, 0, 0, []))
  }

  // ----- before the first TRY_READ

  /** What CD_Research_Frame does with the ring left over from earlier calls: drop the sectors before the request,
      have the next read seek, or neither. */
  datatype Research = Drop(samples: nat) | Reseek | Leave

  function ResearchFrame(stopped: bool, start: u32, last: u32, available: Samples): Research
  {
    var secdiff := S32(U32(start - last - 1));
    if stopped || secdiff < 0 then Leave
    else if available / SECTOR_SAMPLES > secdiff then Drop(secdiff * SECTOR_SAMPLES)
    else Reseek
  }

  // ----- TRY_READ

  function Overlay(buf: seq<byte>, at: nat, data: seq<byte>): (r: seq<byte>)
    requires at + |data| <= |buf|
    ensures |r| == |buf|
  {
    buf[..at] + data + buf[at + |data|..]
  }

  lemma OverlayParts(buf: seq<byte>, at: nat, data: seq<byte>, lo: nat, hi: nat)
    requires at + |data| <= |buf| && lo <= hi <= |buf|
    ensures hi <= at || at + |data| <= lo ==> Overlay(buf, at, data)[lo..hi] == buf[lo..hi]
    ensures lo == at && hi == at + |data| ==> Overlay(buf, at, data)[lo..hi] == data
  {
    var r := Overlay(buf, at, data);
    if hi <= at || at + |data| <= lo {
      forall k | lo <= k < hi
        ensures r[k] == buf[k]
      {
      }
      assert r[lo..hi] == buf[lo..hi];
    }
  }

  function Max(a: nat, b: nat): nat { if a >= b then a else b }

  /** CD_ReadData enters Do_StopBuffering when the status is CD_BUF_STOP, and may change to it on its own. */
  function ReadStep(c: Request, m: Machine, r: ReadResult): Machine
  {
    match r
    case NoAnswer => m.(pc := Waiting)
    case BadCopy => m.(pc := Lost)
    case Answer(size, data, sought, stopped) =>
      var seek := m.stopped || sought;
      var m' := m.(src := m.dst, goMsf := U32(c.start + m.used - SEEK_POSITION), kmpCnt := CD_KMP_RETRY_CNT,
                   pickupSeek := seek, researchCnt := if seek then 0 else m.researchCnt, stopped := stopped);
      var log := m.log.(passes := m.log.passes + 1, base := m.dst, data := [], got := 0, image := m.buf, consumed := 0,
                        found := 0, aligned := true, touched := m.dst, reach := m.dst,
                        read := m.log.steps, steps := m.log.steps + 1);
      if size <= 0 then m'.(pc := Returned(size), log := log)
      else if m.dst + |data| > |m.buf| then m.(pc := Lost)
      else
        var buf := Overlay(m.buf, m.dst, data);
        m'.(pc := SearchLbn, buf := buf, stopped := false, log := log.(data := data, got := |data|, image := buf))
  }

  // ----- SEARCH_LBN

  /** Moves the source cursor and, by whole samples, the ring's read pointer. */
  function Skip(m: Machine, bytes: nat): Machine
  {
    m.(src := m.src + bytes, log := m.log.(consumed := m.log.consumed + bytes / 4))
  }

  function SyncOffset(m: Machine, granted: bool): int
    requires m.src + RAW_SIZE <= |m.buf|
  {
    if granted then KmpSearch.Find(m.buf[m.src..m.src + RAW_SIZE], SYNC) else KmpSearch.CD_FALSE
  }

  function Missed(m: Machine): Machine
  {
    if m.kmpCnt > 0 then Skip(m, SECTOR_SIZE).(kmpCnt := m.kmpCnt - 1)
    else m.(stopped := true, kmpRetry := m.kmpRetry - 1,
            pc := if m.kmpRetry - 1 > 0 then TryRead else Returned(KMP_ERROR))
  }

  /** Give up this pass and re-seek. */
  function Retry(m: Machine): Machine
  {
    m.(frameRetry := if m.pickupSeek then m.frameRetry - 1 else m.frameRetry, stopped := true, pc := TryRead)
  }

  function Deliver(c: Request, m: Machine, raw: Sector, mode: byte, x: Look): Machine
    requires m.dst + SECTOR_SIZE <= |m.buf|
  {
    var used := m.used + 1;
    Skip(m, RAW_SIZE).(
      buf := Overlay(m.buf, m.dst, UserData(x.decoded, mode)), dst := m.dst + SECTOR_SIZE,
      lastSector := U32(c.start + m.used), frameRetry := CD_RETRY_CNT, used := used,
      pc := if used < c.count then SearchLbn else Returned(SECTOR_SIZE),
      log := Skip(m, RAW_SIZE).log.(
        deliveries := m.log.deliveries + [DeliveryOf(m, raw, x)]))
  }

  function DeliveryOf(m: Machine, raw: Sector, x: Look): Delivery
  {
    Delivery(m.log.image, m.log.base, m.log.data, m.src, raw, x.c3, x.decoded, m.log.failures, m.log.read, m.log.look)
  }

  /** The requested frame: decode, and copy unless the decoder fails and may be asked again. */
  function Matched(c: Request, m: Machine, raw: Sector, mode: byte, x: Look): Machine
    requires m.src + RAW_SIZE <= |m.buf| && m.dst + SECTOR_SIZE <= |m.buf|
  {
    var m' := m.(buf := Overlay(m.buf, m.src, x.decoded));
    if x.c3 < CD_TRUE then
      var failed := m'.(stopped := true, c3Retry := m.c3Retry - 1, log := m.log.(failures := m.log.failures + 1));
      if failed.c3Retry > 0 then failed.(pc := TryRead) else Deliver(c, failed, raw, mode, x)
    else Deliver(c, m', raw, mode, x)
  }

  function Mismatched(m: Machine, frame: u32, request: u32, available: Samples): Machine
    requires frame != request
  {
    if m.frameRetry <= 0 then m.(pc := Returned(if frame > request then FRAME_OVER else FRAME_UNDER))
    else if frame > request then
      if m.researchCnt > PREVIOUS_DATA_SKIP_COUNT then Retry(m) else Skip(m, SECTOR_SIZE)
    else if frame < m.goMsf then Skip(m, SECTOR_SIZE)
    else if available / SECTOR_SAMPLES >= request - frame then Skip(m, (request - frame) * RAW_SIZE - MOVE_SIZE)
    else if m.researchCnt > PREVIOUS_DATA_SKIP_COUNT then Retry(m)
    else Skip(m, SECTOR_SIZE)
  }

  function RawAt(m: Machine): Sector
    requires m.src + RAW_SIZE <= |m.buf|
  {
    m.buf[m.src..m.src + RAW_SIZE]
  }

  /** The sector at the source cursor has been descrambled in place. */
  function Descrambled(m: Machine, plain: Sector): Machine
    requires m.src + RAW_SIZE <= |m.buf|
  {
    m.(buf := Overlay(m.buf, m.src, plain), researchCnt := m.researchCnt + 1,
       log := m.log.(touched := m.src + RAW_SIZE, reach := Max(m.log.reach, m.src + RAW_SIZE)))
  }

  /** The source cursor at a sync. */
  function Inspect(c: Request, m: Machine, x: Look): Machine
    requires m.src + RAW_SIZE <= |m.buf| && m.dst <= m.src
  {
    var plain := c.descramble(RawAt(m));
    var request := U32(c.start + m.used);
    if FrameOf(plain) == request then Matched(c, Descrambled(m, plain), RawAt(m), ModeOf(plain), x)
    else Mismatched(Descrambled(m, plain), FrameOf(plain), request, x.available)
  }

  function Found(m: Machine, k: nat): Machine
  {
    Skip(m, k).(log := Skip(m, k).log.(found := m.log.found + 1, aligned := m.log.aligned && k % 4 == 0))
  }

  /** The search looks at no more than one sector's length. */
  function Scanned(m: Machine): Machine
  {
    m.(log := m.log.(reach := Max(m.log.reach, m.src + RAW_SIZE), look := m.log.steps, steps := m.log.steps + 1))
  }

  function SearchStep(c: Request, m: Machine, x: Look): Machine
    requires m.dst <= m.src
  {
    if m.src + RAW_SIZE > |m.buf| then m.(pc := Lost)
    else
      var m' := Scanned(m);
      var k := SyncOffset(m, x.granted);
      if k < 0 then Missed(m')
      else if x.forceStop then Found(m', k).(pc := Returned(CD_FORCE_STOP))
      else if m.src + k + RAW_SIZE > |m.buf| then m.(pc := Lost)
      else Inspect(c, Found(m', k), x)
  }

  // ----- runs

  /** What every step keeps about the shape of a state. */
  predicate WellShaped(m: Machine)
  {
    && |m.buf| == CHUNK_BYTES
    && m.dst == SECTOR_SIZE * m.used <= |m.buf|
    && m.dst <= m.src
  }

  function Step(c: Request, m: Machine, x: Input): Machine
    requires WellShaped(m)
  {
    match m.pc
    case TryRead => ReadStep(c, m, x.read)
    case SearchLbn => SearchStep(c, m, x.look)
    case _ => m
  }

  lemma MatchedKeepsShape(c: Request, m: Machine, raw: Sector, mode: byte, x: Look)
    requires WellShaped(m) && m.src + RAW_SIZE <= |m.buf|
    ensures WellShaped(Matched(c, m, raw, mode, x))
  {
  }

  lemma MismatchedKeepsShape(m: Machine, frame: u32, request: u32, available: Samples)
    requires WellShaped(m) && frame != request
    ensures WellShaped(Mismatched(m, frame, request, available))
  {
  }

  lemma DescrambledKeepsShape(m: Machine, plain: Sector)
    requires WellShaped(m) && m.src + RAW_SIZE <= |m.buf|
    ensures WellShaped(Descrambled(m, plain)) && Descrambled(m, plain).src == m.src
  {
  }

  lemma InspectKeepsShape(c: Request, m: Machine, x: Look)
    requires WellShaped(m) && m.src + RAW_SIZE <= |m.buf|
    ensures WellShaped(Inspect(c, m, x))
  {
    hide Matched, Mismatched, Descrambled, FrameOf, U32;
    var plain := c.descramble(RawAt(m));
    var m', request := Descrambled(m, plain), U32(c.start + m.used);
    DescrambledKeepsShape(m, plain);
    if FrameOf(plain) == request {
      MatchedKeepsShape(c, m', RawAt(m), ModeOf(plain), x);
    } else {
      MismatchedKeepsShape(m', FrameOf(plain), request, x.available);
    }
  }

  lemma SearchKeepsShape(c: Request, m: Machine, x: Look)
    requires WellShaped(m)
    ensures WellShaped(SearchStep(c, m, x))
  {
    if m.src + RAW_SIZE <= |m.buf| {
      var m' := Scanned(m);
      var k := SyncOffset(m, x.granted);
      if k >= 0 && m.src + k + RAW_SIZE <= |m.buf| && !x.forceStop {
        InspectKeepsShape(c, Found(m', k), x);
      }
    }
  }

  /** Compaction never overtakes the source, over every pass and every branch. */
  lemma StepKeepsShape(c: Request, m: Machine, x: Input)
    requires WellShaped(m)
    ensures WellShaped(Step(c, m, x))
  {
    if m.pc.SearchLbn? { SearchKeepsShape(c, m, x.look); }
  }

  function Run(c: Request, m: Machine, xs: seq<Input>): (r: Machine)
    requires WellShaped(m)
    ensures WellShaped(r)
    decreases |xs|
  {
    if xs == [] then m
    else
      StepKeepsShape(c, m, xs[0]);
      Run(c, Step(c, m, xs[0]), xs[1..])
  }

  lemma {:induction false} RunAppend(c: Request, m: Machine, xs: seq<Input>, x: Input)
    requires WellShaped(m)
    ensures Run(c, m, xs + [x]) == Step(c, Run(c, m, xs), x)
    decreases |xs|
  {
    StepKeepsShape(c, Run(c, m, xs), x);
    if xs == [] {
      assert [x][1..] == [];
    } else {
      StepKeepsShape(c, m, xs[0]);
      assert (xs + [x])[1..] == xs[1..] + [x];
      RunAppend(c, Step(c, m, xs[0]), xs[1..], x);
    }
  }

  lemma {:induction false} RunConcat(c: Request, m: Machine, xs: seq<Input>, ys: seq<Input>)
    requires WellShaped(m)
    ensures Run(c, m, xs + ys) == Run(c, Run(c, m, xs), ys)
    decreases |xs|
  {
    hide Step;
    if xs == [] {
      assert xs + ys == ys;
    } else {
      StepKeepsShape(c, m, xs[0]);
      assert (xs + ys)[1..] == xs[1..] + ys;
      RunConcat(c, Step(c, m, xs[0]), xs[1..], ys);
    }
  }
}
