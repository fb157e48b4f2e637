/** Calls that end in success and hand out what the deck has not sent, or the decoder not repaired. */
module Mishaps {
  import opened Words
  import opened Layout
  import opened SingleBuffer
  import opened Capture
  import opened SectorMachine
  import InOrder
  import opened Evidence
  import opened Trails
  import opened Worlds
  import opened Waits
  import KmpSearch

  /** A request for one sector, and a sector that answers it. */
  predicate Answers(c: Request, raw: Sector)
  {
    c.count == 1 && raw[..12] == SYNC && FrameOf(c.descramble(raw)) == c.start
  }

  /** The call has ended in success with the one sector asked for, found there, so descrambled, so judged, so decoded.
      */
  ghost predicate HandsOut(c: Request, m: Machine, at: nat, raw: Sector, x: Look)
  {
    && m.pc == Returned(SECTOR_SIZE) && m.used == 1 && SECTOR_SIZE <= |m.buf|
    && |m.log.deliveries| == 1 && m.log.deliveries[0].raw == raw && m.log.deliveries[0].at == at
    && m.log.deliveries[0].c3 == x.c3
    && Extracted(InOrder.Slot(m.buf, 0), c.descramble(raw), x.decoded) && (m.stopped <==> x.c3 < CD_TRUE)
  }

  // ----- steps

  /** Before the first sector, with the search or the read to come. */
  ghost predicate Bare(m: Machine)
  {
    && WellShaped(m) && m.dst == 0 && m.used == 0 && m.log.deliveries == [] && m.frameRetry > 0
    && (m.pc.SearchLbn? ==> !m.stopped)
  }

  function ReadOf(data: seq<byte>): ReadResult { Answer(RAW_SIZE * PlannedSectors(1), data, true, false) }

  lemma ReadIn(c: Request, m: Machine, data: seq<byte>)
    requires Bare(m) && m.pc.TryRead? && |data| <= CHUNK_BYTES
    ensures var r := ReadStep(c, m, ReadOf(data));
            && Bare(r) && r.pc.SearchLbn? && r.src == 0 && r.buf == data + m.buf[|data|..] && r.c3Retry == m.c3Retry
            && r.goMsf == U32(c.start - SEEK_POSITION)
  {
    hide U32;
  }

  /** A sync that begins the sector k bytes on, with nothing but zeros before it. */
  lemma SyncAt(m: Machine, raw: Sector, k: nat)
    requires k <= RAW_SIZE - 12 && m.src + k + RAW_SIZE <= |m.buf| && m.buf[m.src + k..m.src + k + RAW_SIZE] == raw
    requires raw[..12] == SYNC && forall i :: m.src <= i < m.src + k ==> m.buf[i] == 0
    ensures SyncOffset(m, true) == k
  {
    var window := m.buf[m.src..m.src + RAW_SIZE];
    forall i | 0 <= i < 12
      ensures window[k + i] == SYNC[i]
    {
      assert m.buf[m.src + k..m.src + k + RAW_SIZE][i] == raw[..12][i];
    }
    assert window[k..k + 12] == SYNC;
    forall j | 0 <= j < k
      ensures !KmpSearch.OccursAt(window, SYNC, j)
    {
      assert window[j + 1] == 0 by {
        assert j + 1 == k || m.buf[m.src + (j + 1)] == 0;
        assert window[k + 0] == SYNC[0];
      }
      assert j + 12 <= RAW_SIZE && window[j..j + 12][1] == 0 != SYNC[1];
    }
    KmpSearch.FindIsLeast(window, SYNC, k);
  }

  /** The sector asked for is delivered, unless the decoder fails for the first time. */
  lemma LookedAt(c: Request, m: Machine, raw: Sector, k: nat, x: Look)
    requires Bare(m) && m.pc.SearchLbn? && m.src + k + RAW_SIZE <= |m.buf| && SyncOffset(m, true) == k
    requires m.buf[m.src + k..m.src + k + RAW_SIZE] == raw && Answers(c, raw) && x.granted && !x.forceStop
    ensures var r := SearchStep(c, m, x);
            && WellShaped(r)
            && (if x.c3 >= CD_TRUE || m.c3Retry <= 1 then HandsOut(c, r, m.src + k, raw, x)
                else Bare(r) && r.pc.TryRead? && r.c3Retry == m.c3Retry - 1)
  {
    hide FrameOf, UserData, ModeOf, SyncOffset, Extracted;
    SearchKeepsShape(c, m, x);
    UserDataIsExtracted(c.descramble(raw), x.decoded);
    SlotStored(m, raw, k, c.descramble(raw), x.decoded, UserData(x.decoded, ModeOf(c.descramble(raw))));
    assert RawAt(Found(Scanned(m), k)) == raw;
  }

  lemma SlotStored(m: Machine, raw: Sector, k: nat, plain: Sector, decoded: Sector, data: seq<byte>)
    requires |data| == SECTOR_SIZE && m.src + k + RAW_SIZE <= |m.buf|
    ensures InOrder.Slot(Overlay(Overlay(Overlay(m.buf, m.src + k, plain), m.src + k, decoded), 0, data), 0) == data
  {
    OverlayParts(Overlay(Overlay(m.buf, m.src + k, plain), m.src + k, decoded), 0, data, 0, SECTOR_SIZE);
  }

  /** Three frames early, with three sectors still buffered, the search jumps to 16 bytes before the sector asked for.
      */
  lemma JumpedOver(c: Request, m: Machine, early: Sector, x: Look)
    requires Bare(m) && m.pc.SearchLbn? && m.src == 0 && SyncOffset(m, true) == 0 && m.buf[..RAW_SIZE] == early
    requires 150 <= c.start && FrameOf(c.descramble(early)) == c.start - 3 && m.goMsf == U32(c.start - SEEK_POSITION)
    requires x.granted && !x.forceStop && x.available / SECTOR_SAMPLES == 3
    ensures var r := SearchStep(c, m, x);
            && Bare(r) && r.pc.SearchLbn? && r.src == 3 * RAW_SIZE - MOVE_SIZE && r.c3Retry == m.c3Retry
            && r.buf[RAW_SIZE..] == m.buf[RAW_SIZE..]
  {
    hide FrameOf, SyncOffset;
    SearchKeepsShape(c, m, x);
    assert RawAt(Found(Scanned(m), 0)) == early;
  }

  lemma RunOfTwo(c: Request, m: Machine, a: Input, b: Input)
    requires WellShaped(m)
    ensures WellShaped(SectorMachine.Step(c, m, a))
    ensures Run(c, m, [a, b]) == SectorMachine.Step(c, SectorMachine.Step(c, m, a), b)
  {
    hide SectorMachine.Step;
    StepKeepsShape(c, m, a);
    RunAppend(c, m, [], a);
    RunAppend(c, m, [a], b);
    assert [] + [a] == [a] && [a] + [b] == [a, b];
  }

  /** One read and one look. */
  lemma ReadAndLook(c: Request, m: Machine, data: seq<byte>, raw: Sector, x: Look) returns (xs: seq<Input>, r: Machine)
    requires Bare(m) && m.pc.TryRead? && |data| <= CHUNK_BYTES && Answers(c, raw) && x.granted && !x.forceStop
    requires (data + m.buf[|data|..])[..RAW_SIZE] == raw
    ensures xs == [Input(ReadOf(data), x), Input(NoAnswer, x)] && r == Run(c, m, xs) && WellShaped(r)
    ensures if x.c3 >= CD_TRUE || m.c3Retry <= 1 then HandsOut(c, r, 0, raw, x)
            else Bare(r) && r.pc.TryRead? && r.c3Retry == m.c3Retry - 1
  {
    hide ReadStep, SearchStep, HandsOut, FrameOf;
    xs := [Input(ReadOf(data), x), Input(NoAnswer, x)];
    ReadIn(c, m, data);
    SyncAt(ReadStep(c, m, ReadOf(data)), raw, 0);
    LookedAt(c, ReadStep(c, m, ReadOf(data)), raw, 0, x);
    RunOfTwo(c, m, xs[0], xs[1]);
    r := Run(c, m, xs);
  }

  // ----- what the deck has not sent

  /** Memory alone. The only read of the call stores nothing, as CD_CopyReadData does when the pointers are equal (line
      612), and CD_ReadData reports a full-size read nevertheless, behind a timeout with CD_BUF_FULL (lines 541-544,
      717-725). A sector of the requested frame left in the buffer by an earlier call is found, and handed out. */
  lemma StaleMemoryIsDelivered(c: Request, buf: seq<byte>, raw: Sector, x: Look, last: u32)
    returns (xs: seq<Input>, r: Machine)
    requires Answers(c, raw) && |buf| == CHUNK_BYTES && buf[..RAW_SIZE] == raw
    requires x.granted && !x.forceStop && x.c3 >= CD_TRUE
    ensures |xs| == 2 && xs[0].read == ReadOf([]) && xs[1].look == x
    ensures r == Run(c, Start(buf, 0, false, true, last), xs) && HandsOut(c, r, 0, raw, x)
  {
    hide HandsOut, Answers, Run;
    assert [] + buf[0..] == buf;
    xs, r := ReadAndLook(c, Start(buf, 0, false, true, last), [], raw, x);
  }

  function Joined(lo: int, hi: int): int { lo + 0x100 * hi }

  /** The words of a run of bytes. */
  function WordsOf(bytes: seq<byte>): seq<u16>
  {
    seq(|bytes| / 2, k requires 0 <= k < |bytes| / 2 => Joined(bytes[2 * k], bytes[2 * k + 1]))
  }

  /** Two sectors in words, the second three sectors behind the first, zeros elsewhere. */
  function Word(early: Sector, raw: Sector, k: int): u16
  {
    if 0 <= k < 1176 then WordsOf(early)[k]
    else if 3528 <= k < 4704 then WordsOf(raw)[k - 3528]
    else 0
  }

  /** What the deck sends: of the second sector no more than 1136 bytes. */
  function Sending(early: Sector, raw: Sector): Block { seq(2 * BLOCK_SAMPLES, k => Word(early, raw, k)) }

  /** A full ring is on record and capture is off; behind the first block the memory holds the rest of the second
      sector, from an earlier lap. */
  function Before(early: Sector, raw: Sector): State
  {
    State(Ring(seq(2 * RING_SAMPLES, k => Word(early, raw, k)), RING_SAMPLES, 4, 0),
          false, true, false, BufFull, Streaming)
  }

  /** The read switches the capture off and seeks; the deck answers and falls silent after one block. */
  lemma OneBlock(early: Sector, raw: Sector, address: u32) returns (t: Trail)
    ensures |t.states| == 5 && t.states[0] == t.states[1] == Before(early, raw) && EndsAt(t, t.states[4])
    ensures t.events == [Disable, Reset(address), Enable, Interrupt(Sending(early, raw))]
    ensures t.states[4].ring == After(early, raw) && t.states[3].ring.readPtr == t.states[3].ring.writePtr
    ensures t.states[3].error == BufFull == t.states[4].error && !t.states[1].enabled
    ensures forall i | 0 <= i < 5 :: !t.states[i].forced
  {
    var s := Before(early, raw);
    var states, events := [s], [];
    states, events := Extend(states, events, Disable);
    states, events := Extend(states, events, Reset(address));
    states, events := Extend(states, events, Enable);
    assert states[3].ring == s.ring.(readPtr := 0, writePtr := 0);
    StoredOver(s.ring, Sending(early, raw));
    states, events := Extend(states, events, Interrupt(Sending(early, raw)));
    t := Trail(states, events);
  }

  lemma StoredOver(b: Ring, block: Block)
    requires |b.mem| == 2 * RING_SAMPLES && b.length == RING_SAMPLES && b.mem[..|block|] == block
    ensures Stored(b.(readPtr := 0, writePtr := 0), block) == b.(readPtr := 0, writePtr := BLOCK_SAMPLES)
  {
    assert b.mem[..|block|] + b.mem[|block|..] == b.mem;
  }

  /** The ring after that block, for a reader of one sector and the seek tolerance. */
  function After(early: Sector, raw: Sector): Ring { Before(early, raw).ring.(readPtr := 0, writePtr := BLOCK_SAMPLES) }

  const WANTED := 2 * SECTOR_SAMPLES * 13

  lemma PeekedWords(early: Sector, raw: Sector)
    ensures SingleBuffer.Sound(After(early, raw))
    ensures Peeked(After(early, raw), WANTED) == Copied(seq(WANTED, k => Word(early, raw, k)))
  {
  }

  /** What the read stores: both sectors whole. */
  lemma PeekedBoth(early: Sector, raw: Sector) returns (data: seq<byte>)
    ensures SingleBuffer.Sound(After(early, raw)) && Peeked(After(early, raw), WANTED).Copied?
    ensures data == BytesOf(Peeked(After(early, raw), WANTED).words)
    ensures |data| == RAW_SIZE * 13 && data[..RAW_SIZE] == early && data[3 * RAW_SIZE..4 * RAW_SIZE] == raw
    ensures forall i :: RAW_SIZE <= i < 3 * RAW_SIZE ==> data[i] == 0
  {
    hide Peeked, After, WordsOf, ByteOf;
    PeekedWords(early, raw);
    var words := Peeked(After(early, raw), WANTED).words;
    data := BytesOf(words);
    assert words[0..1176] == WordsOf(early) && words[3528..4704] == WordsOf(raw) by {
      WordsLength(early);
      WordsLength(raw);
    }
    SectorIn(words, 0, early);
    SectorIn(words, 3528, raw);
    forall i | RAW_SIZE <= i < 3 * RAW_SIZE
      ensures data[i] == 0
    {
      assert words[i / 2] == 0;
      ZeroByte(words, i);
    }
  }

  lemma WordsLength(s: Sector)
    ensures |WordsOf(s)| == 1176
  {
  }

  lemma ZeroByte(words: seq<u16>, i: nat)
    requires i < 2 * |words| && words[i / 2] == 0
    ensures ByteOf(words, i) == 0
  {
  }

  /** A sector's words, read as bytes again. */
  lemma SectorIn(words: seq<u16>, at: nat, s: Sector)
    requires at + 1176 <= |words| && words[at..at + 1176] == WordsOf(s)
    ensures BytesOf(words)[2 * at..2 * at + RAW_SIZE] == s
  {
    forall k | 0 <= k < RAW_SIZE
      ensures BytesOf(words)[2 * at + k] == s[k]
    {
      assert words[at + k / 2] == words[at..at + 1176][k / 2] == Joined(s[2 * (k / 2)], s[2 * (k / 2) + 1]);
      assert (2 * at + k) / 2 == at + k / 2;
    }
  }

  /** Read the block and what lies behind it, look, jump, look: the second sector goes out, its last 1216 bytes from an
      earlier lap. */
  lemma BlockRun(c: Request, buf: seq<byte>, early: Sector, raw: Sector, x: Look, x': Look, last: u32)
    returns (data: seq<byte>, xs: seq<Input>, r: Machine)
    requires |buf| == CHUNK_BYTES && Answers(c, raw) && early[..12] == SYNC && 150 <= c.start
    requires FrameOf(c.descramble(early)) == c.start - 3
    requires x.granted && !x.forceStop && x.available == BLOCK_SAMPLES && x'.granted && !x'.forceStop
    requires x'.c3 >= CD_TRUE
    ensures SingleBuffer.Sound(After(early, raw)) && Peeked(After(early, raw), WANTED).Copied?
    ensures data == BytesOf(Peeked(After(early, raw), WANTED).words)
    ensures xs == [Input(ReadOf(data), x), Input(NoAnswer, x), Input(NoAnswer, x')]
    ensures r == Run(c, Start(buf, 0, false, true, last), xs) && HandsOut(c, r, 3 * RAW_SIZE, raw, x')
  {
    hide HandsOut, FrameOf, Run, ReadStep, SearchStep, After, Peeked, BytesOf;
    data := PeekedBoth(early, raw);
    var m0 := Start(buf, 0, false, true, last);
    var m1 := ReadStep(c, m0, ReadOf(data));
    ReadIn(c, m0, data);
    assert m1.buf[..RAW_SIZE] == early && m1.buf[0..RAW_SIZE] == early;
    SyncAt(m1, early, 0);
    JumpedOver(c, m1, early, x);
    var m2 := SearchStep(c, m1, x);
    Behind(m1, m2, data, raw);
    SyncAt(m2, raw, MOVE_SIZE);
    LookedAt(c, m2, raw, MOVE_SIZE, x');
    xs := [Input(ReadOf(data), x), Input(NoAnswer, x), Input(NoAnswer, x')];
    RunOfTwo(c, m0, xs[0], xs[1]);
    assert xs == xs[..2] + [xs[2]] && xs[..2] == [xs[0], xs[1]];
    RunAppend(c, m0, xs[..2], xs[2]);
    r := Run(c, m0, xs);
  }

  lemma Behind(m1: Machine, m2: Machine, data: seq<byte>, raw: Sector)
    requires |m1.buf| == |m2.buf| == CHUNK_BYTES && m2.buf[RAW_SIZE..] == m1.buf[RAW_SIZE..]
    requires |data| == RAW_SIZE * 13 && m1.buf[..|data|] == data
    requires data[3 * RAW_SIZE..4 * RAW_SIZE] == raw && forall i :: RAW_SIZE <= i < 3 * RAW_SIZE ==> data[i] == 0
    ensures m2.buf[3 * RAW_SIZE..4 * RAW_SIZE] == raw
    ensures forall i :: RAW_SIZE <= i < 3 * RAW_SIZE ==> m2.buf[i] == 0
  {
    forall i | RAW_SIZE <= i < |data|
      ensures m2.buf[i] == data[i]
    {
      assert m2.buf[RAW_SIZE..][i - RAW_SIZE] == m1.buf[RAW_SIZE..][i - RAW_SIZE] && m1.buf[..|data|][i] == data[i];
    }
  }

  /** Samples of an earlier lap. Behind a report of a full ring the deck is sent to a frame and falls silent after one
      block; the wait that has timed out counts as a success (lines 541-544), the full size is copied past the write
      pointer (lines 575-582), and the call hands out the sector that begins in the block and ends in the old memory.
      Of two sectors that agree in the part sent, the one goes out or the other: what was captured is the same. */
  lemma StaleRingIsDelivered(c: Request, buf: seq<byte>, early: Sector, raw: Sector, raw': Sector, x: Look, y: Look,
                             y': Look, last: u32)
    returns (t: Trail, t': Trail, xs: seq<Input>, xs': seq<Input>)
    requires |buf| == CHUNK_BYTES && Answers(c, raw) && Answers(c, raw') && raw[..1136] == raw'[..1136]
    requires early[..12] == SYNC && 150 <= c.start && FrameOf(c.descramble(early)) == c.start - 3
    requires x.granted && !x.forceStop && x.available == BLOCK_SAMPLES
    requires y.granted && !y.forceStop && y.c3 >= CD_TRUE && y'.granted && !y'.forceStop && y'.c3 >= CD_TRUE
    ensures OutOfOldMemory(c, buf, last, early, raw, x, y, t, xs)
    ensures OutOfOldMemory(c, buf, last, early, raw', x, y', t', xs')
    ensures Sending(early, raw) == Sending(early, raw')
  {
    hide OutOfOldMemory, Answers, FrameOf, Sending;
    t, xs := StaleRun(c, buf, early, raw, x, y, last);
    t', xs' := StaleRun(c, buf, early, raw', x, y', last);
    SameBlock(early, raw, raw');
  }

  /** One block captured since the seek, all of it unread; a read that ends so in every world that sends no more; and a
      call that ends in success with the second sector. */
  ghost predicate OutOfOldMemory(c: Request, buf: seq<byte>, last: u32, early: Sector, raw: Sector, x: Look, y: Look,
                                 t: Trail, xs: seq<Input>)
  {
    && |buf| == CHUNK_BYTES && |xs| == 3 && xs[1].look == x && xs[2].look == y
    && t.events == [Disable, Reset(U32(c.start - 6)), Enable, Interrupt(Sending(early, raw))]
    && Timely(c, buf, last, t, Sending(early, raw), xs[0].read)
    && SingleBuffer.Sound(t.states[4].ring) && Queue(t.states[4].ring) == Sending(early, raw)
    && HandsOut(c, Run(c, Start(buf, 0, false, true, last), xs), 3 * RAW_SIZE, raw, y)
  }

  lemma StaleRun(c: Request, buf: seq<byte>, early: Sector, raw: Sector, x: Look, y: Look, last: u32)
    returns (t: Trail, xs: seq<Input>)
    requires |buf| == CHUNK_BYTES && Answers(c, raw)
    requires early[..12] == SYNC && 150 <= c.start && FrameOf(c.descramble(early)) == c.start - 3
    requires x.granted && !x.forceStop && x.available == BLOCK_SAMPLES && y.granted && !y.forceStop && y.c3 >= CD_TRUE
    ensures OutOfOldMemory(c, buf, last, early, raw, x, y, t, xs)
  {
    hide HandsOut, Run, FrameOf, After, Before, Sending, EndsAt, Timely, Peeked, BytesOf, U32;
    ghost var data, r;
    data, xs, r := BlockRun(c, buf, early, raw, x, y, last);
    t := OneBlock(early, raw, U32(c.start - 6));
    BlockIsQueue(early, raw);
    AfterHolds(early, raw);
    ReadIsTimely(c, buf, last, t, Sending(early, raw), After(early, raw), data);
  }

  lemma AfterHolds(early: Sector, raw: Sector)
    ensures Available(After(early, raw)) == BLOCK_SAMPLES
  {
  }

  /** The deck answers a seek begun at this time, sends one block and falls silent for as long as a wait may last. */
  ghost predicate SendsOne(world: World, time: nat, block: Block)
  {
    && world(time).seekResult != DECK_ERROR && world(time).happenings == []
    && world(time + 1).happenings == [Captured(block)]
    && forall later :: time + 2 <= later <= time + 2 * WAIT_COUNT + 1 ==> world(later).happenings == []
  }

  /** In such a world the driver's read ends so: after the longest wait, with CD_BUF_FULL reported. */
  ghost predicate Timely(c: Request, buf: seq<byte>, last: u32, t: Trail, block: Block, r: ReadResult)
  {
    |t.states| == 5 && |t.events| == 4 && EndsAt(t, t.states[4]) &&
    forall world, time: nat :: SendsOne(world, time, block) ==>
      HonestRead(world, c, Start(buf, 0, false, true, last), r, t, Visit(time, time + 2 * WAIT_COUNT + 2, 0, 4, 4))
  }

  /** A stretch of a run that begins as one of these reads does. */
  ghost predicate SeeksOnce(t: Trail, address: u32, block: Block)
  {
    && |t.states| == 5 && EndsAt(t, t.states[4]) && t.events == [Disable, Reset(address), Enable, Interrupt(block)]
    && t.states[3].ring.readPtr == t.states[3].ring.writePtr && Available(t.states[4].ring) == BLOCK_SAMPLES
    && t.states[3].error == BufFull == t.states[4].error && !t.states[1].enabled
    && forall i | 0 <= i < 5 :: !t.states[i].forced
  }

  lemma WithNext(t: Trail, s: State, i: nat)
    requires EndsAt(t, s) && i < |t.events|
    ensures |t.states| == |t.events| + 1 && With(UpTo(t, i), t.events[i]) == UpTo(t, i + 1)
    ensures EndsAt(UpTo(t, i + 1), t.states[i + 1])
  {
    hide Allowed, SectorMachine.Step, Capture.Step;
    StepAt(t.states, t.events, i);
    StepsWithin(t.states, t.events, 0, i + 1);
    assert t.states[0..i + 2] == UpTo(t, i + 1).states && t.events[0..i + 1] == UpTo(t, i + 1).events;
    WellRun(t, s, i + 1);
  }

  lemma {:induction false} LooksOn(world: World, t: Trail, time: nat, address: u32, block: Block, looks: nat)
    requires SeeksOnce(t, address, block) && SendsOne(world, time, block) && looks <= 2 * WAIT_COUNT + 1
    ensures LookedOn(world, UpTo(t, 3), time + 1, looks) == if looks == 0 then UpTo(t, 3) else t
  {
    hide SingleBuffer.Available;
    if looks == 1 {
      OneCaptured(t, address, block);
      assert LookedOn(world, UpTo(t, 3), time + 1, 0) == UpTo(t, 3);
    } else if looks > 1 {
      LooksOn(world, t, time, address, block, looks - 1);
      assert world(time + looks).happenings == [];
    }
  }

  lemma OneCaptured(t: Trail, address: u32, block: Block)
    requires SeeksOnce(t, address, block)
    ensures Witnessed(UpTo(t, 3), [Captured(block)]) == t
  {
    hide Available, Capture.Step, Placed;
    WithNext(t, t.states[4], 2);
    WithNext(t, t.states[4], 3);
    StepAt(t.states, t.events, 2);
    StepAt(t.states, t.events, 3);
    assert [Captured(block)][..0] == [];
    assert Witnessed(UpTo(t, 3), []) == UpTo(t, 3);
    assert UpTo(t, 4) == t;
    EnabledAt(t);
  }

  lemma EnabledAt(t: Trail)
    requires |t.states| == 5 && EndsAt(t, t.states[4]) && |t.events| == 4 && t.events[3].Interrupt?
    ensures t.states[3].enabled && Placed(t.states[3])
  {
    StepAt(t.states, t.events, 3);
  }

  /** The wait goes through all its rounds. */
  lemma WaitsInVain(world: World, t: Trail, time: nat, address: u32, block: Block, want: nat)
    requires SeeksOnce(t, address, block) && SendsOne(world, time, block) && want > BLOCK_SAMPLES
    ensures EndsWait(world, UpTo(t, 3), time + 1, want, 2 * WAIT_COUNT + 1, Full(BLOCK_SAMPLES))
  {
    hide LookedOn, SendsOne;
    var from, begin := time + 1, UpTo(t, 3);
    forall k: nat | k < 2 * WAIT_COUNT + 1
      ensures TooLittle(LookedOn(world, begin, from, k), want)
      ensures !ShockSeen(LookedOn(world, begin, from, k)) && !ForceSeen(LookedOn(world, begin, from, k))
    {
      LooksOn(world, t, time, address, block, k);
    }
    LooksOn(world, t, time, address, block, 2 * WAIT_COUNT + 1);
    LooksOn(world, t, time, address, block, 2 * WAIT_COUNT);
  }

  lemma {:induction false} OneOffered(world: World, time: nat, block: Block, looks: nat)
    requires SendsOne(world, time, block) && 1 <= looks <= 2 * WAIT_COUNT
    ensures BlocksIn(world, time + 1, looks) == 1
  {
    if looks > 1 {
      OneOffered(world, time, block, looks - 1);
    } else {
      assert BlocksIn(world, time + 1, 0) == 0;
    }
  }

  lemma ReadIsTimely(c: Request, buf: seq<byte>, last: u32, t: Trail, block: Block, ring: SingleBuffer.Ring,
                     data: seq<byte>)
    requires |buf| == CHUNK_BYTES && c.count == 1 && SeeksOnce(t, U32(c.start - 6), block)
    requires t.states[4].ring == ring && SingleBuffer.Sound(ring)
    requires Peeked(ring, WANTED).Copied? && data == BytesOf(Peeked(ring, WANTED).words)
    ensures Timely(c, buf, last, t, block, ReadOf(data))
  {
    hide Answerable, Peeked, BytesOf, IsRead, SendsOne, U32;
    forall world, time: nat | SendsOne(world, time, block)
      ensures HonestRead(world, c, Start(buf, 0, false, true, last), ReadOf(data), t,
                         Visit(time, time + 2 * WAIT_COUNT + 2, 0, 4, 4))
    {
      ReadIsOne(world, c, buf, last, t, time, block, data);
      TooFew(world, c, buf, last, t, time, block);
    }
  }

  lemma TooFew(world: World, c: Request, buf: seq<byte>, last: u32, t: Trail, time: nat, block: Block)
    requires |buf| == CHUNK_BYTES && c.count == 1 && SendsOne(world, time, block) && t.states != []
    ensures !Answerable(world, c, Start(buf, 0, false, true, last), t.states[0], time)
  {
    OneOffered(world, time, block, 2 * WAIT_COUNT);
  }

  lemma ReadIsOne(world: World, c: Request, buf: seq<byte>, last: u32, t: Trail, time: nat, block: Block,
                  data: seq<byte>)
    requires |buf| == CHUNK_BYTES && c.count == 1 && SeeksOnce(t, U32(c.start - 6), block)
    requires SendsOne(world, time, block)
    ensures IsRead(world, c, Start(buf, 0, false, true, last), ReadOf(data), t,
                   Visit(time, time + 2 * WAIT_COUNT + 2, 0, 4, 4))
  {
    hide SingleBuffer.Available, EndsAt, EndsWait, LookedOn, With, U32, S32;
    var address := U32(c.start - 6);
    WithNext(t, t.states[4], 0);
    WithNext(t, t.states[4], 1);
    WithNext(t, t.states[4], 2);
    var a := Attempt(UpTo(t, 1), time, true, 2 * WAIT_COUNT + 1, Full(BLOCK_SAMPLES));
    assert Witnessed(UpTo(t, 2), []) == UpTo(t, 2);
    WaitsInVain(world, t, time, address, block, WANTED / 2);
    LooksOn(world, t, time, address, block, 2 * WAIT_COUNT + 1);
    assert UpTo(t, 4) == t;
    assert ReadBy(world, c, Start(buf, 0, false, true, last), ReadOf(data), UpTo(t, 0), UpTo(t, 4), time,
                  time + 2 * WAIT_COUNT + 2, [a]);
  }

  lemma BlockIsQueue(early: Sector, raw: Sector)
    ensures SingleBuffer.Sound(After(early, raw)) && Queue(After(early, raw)) == Sending(early, raw)
  {
  }

  lemma SameBlock(early: Sector, raw: Sector, raw': Sector)
    requires raw[..1136] == raw'[..1136]
    ensures Sending(early, raw) == Sending(early, raw')
  {
    forall k | 0 <= k < 4096
      ensures Word(early, raw, k) == Word(early, raw', k)
    {
      if 3528 <= k {
        var j := 2 * (k - 3528);
        assert raw[..1136][j] == raw'[..1136][j] && raw[..1136][j + 1] == raw'[..1136][j + 1];
      }
    }
  }

  // ----- what the decoder has not repaired

  /** Two failed decodes. The first has the call read again, the second is taken for a success (lines 912-922), and
      what the decoder has left of the sector, whatever that is, goes out. */
  lemma UnrepairedIsDelivered(c: Request, buf: seq<byte>, data: seq<byte>, raw: Sector, x: Look, y: Look, last: u32)
    returns (xs: seq<Input>, r: Machine)
    requires |buf| == CHUNK_BYTES && RAW_SIZE <= |data| <= CHUNK_BYTES && data[..RAW_SIZE] == raw && Answers(c, raw)
    requires x.granted && !x.forceStop && x.c3 < CD_TRUE && y.granted && !y.forceStop && y.c3 < CD_TRUE
    ensures xs == [Input(ReadOf(data), x), Input(NoAnswer, x), Input(ReadOf(data), y), Input(NoAnswer, y)]
    ensures r == Run(c, Start(buf, 0, false, true, last), xs) && HandsOut(c, r, 0, raw, y)
  {
    hide HandsOut, FrameOf, Run;
    var m := Start(buf, 0, false, true, last);
    var xs1, m1 := ReadAndLook(c, m, data, raw, x);
    var xs2, m2 := ReadAndLook(c, m1, data, raw, y);
    RunConcat(c, m, xs1, xs2);
    xs, r := xs1 + xs2, m2;
  }
}
