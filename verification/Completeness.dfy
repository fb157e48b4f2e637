/** Completeness: on a well-formed stream one pass delivers everything that was asked for. */
module Completeness {
  import opened Words
  import opened Layout
  import opened SectorMachine
  import opened InOrder
  import KmpSearch
  import opened Lockstep

  /** The raw sector of every frame, and what the decoder leaves of a descrambled one when it succeeds. */
  datatype Disc = Disc(sector: nat -> Sector, decode: Sector -> Sector)

  function Plain(c: Request, d: Disc, f: nat): Sector { c.descramble(d.sector(f)) }

  /** What the disc holds for a reader of frame f. */
  function Payload(c: Request, d: Disc, f: nat): (p: seq<byte>)
    ensures |p| == SECTOR_SIZE
  {
    UserData(d.decode(Plain(c, d, f)), ModeOf(Plain(c, d, f)))
  }

  ghost predicate NoSync(s: seq<byte>, lo: int, hi: int)
  {
    forall p :: lo <= p < hi ==> !KmpSearch.OccursAt(s, SYNC, p)
  }

  /** Begins with a sync and names its frame. */
  predicate Headed(c: Request, d: Disc, f: nat)
  {
    d.sector(f)[..12] == SYNC && FrameOf(Plain(c, d, f)) == f
  }

  /** No sync in the last 304 bytes of sector f, nor across its end, be it raw or descrambled. */
  ghost predicate Parted(c: Request, d: Disc, f: nat)
  {
    && NoSync(d.sector(f) + d.sector(f + 1), SECTOR_SIZE, RAW_SIZE)
    && NoSync(Plain(c, d, f) + d.sector(f + 1), SECTOR_SIZE, RAW_SIZE)
  }

  predicate Holds(s: seq<byte>, at: nat, x: seq<byte>)
  {
    at + |x| <= |s| && s[at..at + |x|] == x
  }

  ghost predicate SectorsAt(d: Disc, s: seq<byte>, at: nat, f: nat, end: nat)
  {
    forall g {:trigger d.sector(g)} :: f <= g < end ==> Holds(s, at + RAW_SIZE * (g - f), d.sector(g))
  }

  ghost predicate WellHeaded(c: Request, d: Disc, f: nat, end: nat)
  {
    && (forall g {:trigger Headed(c, d, g)} :: f <= g < end ==> Headed(c, d, g))
    && (forall g {:trigger Parted(c, d, g)} :: f <= g && g + 1 < end ==> Parted(c, d, g))
  }

  function End(c: Request): nat { c.start + c.count }

  /** The machine is searching, and the next sync it can find begins sector f of the disc, at next; from there the
      buffer holds the disc up to the last sector asked for, all of it read in this pass. */
  ghost predicate Aimed(c: Request, d: Disc, m: Machine, f: nat, next: nat)
  {
    && WellShaped(m) && m.pc.SearchLbn? && 0 <= m.kmpCnt && 0 < m.frameRetry
    && m.src <= next <= m.src + RAW_SIZE - 12 + SECTOR_SIZE * m.kmpCnt
    && NoSync(m.buf, m.src, next)
    && f <= c.start + m.used < End(c)
    && WellHeaded(c, d, f, End(c))
    && SectorsAt(d, m.buf, next, f, End(c))
    && next + RAW_SIZE * (End(c) - f) <= m.log.base + m.log.got <= |m.buf|
    && m.log.reach <= m.log.base + m.log.got
  }

  /** Slots from first on hold what the disc holds. */
  ghost predicate Filled(c: Request, d: Disc, m: Machine, first: nat)
    requires WellShaped(m)
  {
    && SECTOR_SIZE * m.used <= |m.buf|
    && forall i {:trigger Slot(m.buf, i)} :: first <= i < m.used ==> Slot(m.buf, i) == Payload(c, d, c.start + i)
  }

  /** Of each sector from the first one asked for on, as the standard lays it out, what the decoder makes of it. */
  ghost predicate AsPrinted(c: Request, d: Disc, buf: seq<byte>, n: nat)
  {
    && SECTOR_SIZE * n <= |buf|
    && forall i {:trigger Slot(buf, i)} :: 0 <= i < n ==>
         Extracted(Slot(buf, i), Plain(c, d, c.start + i), d.decode(Plain(c, d, c.start + i)))
  }

  lemma FilledIsPrinted(c: Request, d: Disc, m: Machine)
    requires WellShaped(m) && Filled(c, d, m, 0)
    ensures AsPrinted(c, d, m.buf, m.used)
  {
    hide Extracted, UserData, ModeOf;
    forall i | 0 <= i < m.used
      ensures Extracted(Slot(m.buf, i), Plain(c, d, c.start + i), d.decode(Plain(c, d, c.start + i)))
    {
      UserDataIsExtracted(Plain(c, d, c.start + i), d.decode(Plain(c, d, c.start + i)));
    }
  }

  /** Memory for the table, no force stop, a decoder that succeeds, and, at a sync inside what the pass has read, a ring
      that still holds what the pass has read and not yet taken. */
  ghost predicate Nice(c: Request, d: Disc, m: Machine, x: Look)
    requires WellShaped(m)
  {
    && x.granted && !x.forceStop && x.c3 >= CD_TRUE
    && (m.src + RAW_SIZE <= |m.buf| ==>
          var k := SyncOffset(m, true);
          k >= 0 && m.src + k + RAW_SIZE <= |m.buf| ==>
            && x.decoded == d.decode(c.descramble(m.buf[m.src + k..m.src + k + RAW_SIZE]))
            && (m.src + k <= m.log.base + m.log.got ==> 4 * (x.available + m.log.consumed + k / 4) >= m.log.got))
  }

  // ----- finding the sync

  lemma OccursInside(s: seq<byte>, lo: nat, hi: nat, p: int)
    requires lo <= hi <= |s| && 0 <= p && p + 12 <= hi - lo
    ensures KmpSearch.OccursAt(s[lo..hi], SYNC, p) <==> KmpSearch.OccursAt(s, SYNC, lo + p)
  {
    Within(s, lo, hi, p, p + 12);
  }

  /** Within reach of the search window, the sync of the next sector is found. */
  lemma SyncIsFound(m: Machine, next: nat, x: Sector)
    requires m.src + RAW_SIZE <= |m.buf| && m.src <= next <= m.src + RAW_SIZE - 12
    requires NoSync(m.buf, m.src, next) && Holds(m.buf, next, x) && x[..12] == SYNC
    ensures SyncOffset(m, true) == next - m.src
  {
    var window, k := m.buf[m.src..m.src + RAW_SIZE], next - m.src;
    Within(m.buf, next, next + RAW_SIZE, 0, 12);
    OccursInside(m.buf, m.src, m.src + RAW_SIZE, k);
    forall p | 0 <= p < k
      ensures !KmpSearch.OccursAt(window, SYNC, p)
    {
      OccursInside(m.buf, m.src, m.src + RAW_SIZE, p);
    }
    KmpSearch.FindIsLeast(window, SYNC, k);
  }

  /** Out of its reach, nothing is found. */
  lemma NoSyncIsFound(m: Machine, next: nat)
    requires m.src + RAW_SIZE <= |m.buf| && next > m.src + RAW_SIZE - 12 && NoSync(m.buf, m.src, next)
    ensures SyncOffset(m, true) == -1
  {
    var window := m.buf[m.src..m.src + RAW_SIZE];
    forall p
      ensures !KmpSearch.OccursAt(window, SYNC, p)
    {
      if 0 <= p && p + 12 <= RAW_SIZE { OccursInside(m.buf, m.src, m.src + RAW_SIZE, p); }
    }
  }

  lemma NextIsFound(c: Request, d: Disc, m: Machine, f: nat, next: nat)
    requires Aimed(c, d, m, f, next) && m.src + RAW_SIZE <= |m.buf| && next <= m.src + RAW_SIZE - 12
    ensures SyncOffset(m, true) == next - m.src
  {
    assert Headed(c, d, f);
    assert Holds(m.buf, next + RAW_SIZE * (f - f), d.sector(f));
    SyncIsFound(m, next, d.sector(f));
  }

  lemma NothingIsFound(c: Request, d: Disc, m: Machine, f: nat, next: nat)
    requires Aimed(c, d, m, f, next) && m.src + RAW_SIZE <= |m.buf| && next > m.src + RAW_SIZE - 12
    ensures SyncOffset(m, true) == -1
  {
    NoSyncIsFound(m, next);
  }

  // ----- the buffer after an inspection

  lemma SectorsKept(d: Disc, s: seq<byte>, s': seq<byte>, at: nat, f: nat, at': nat, f': nat, end: nat)
    requires SectorsAt(d, s, at, f, end) && f <= f' && at' == at + RAW_SIZE * (f' - f) && |s'| == |s|
    requires forall i :: at' <= i < |s| ==> s'[i] == s[i]
    ensures SectorsAt(d, s', at', f', end)
  {
    forall g | f' <= g < end
      ensures Holds(s', at' + RAW_SIZE * (g - f'), d.sector(g))
    {
      var p := at + RAW_SIZE * (g - f);
      assert Holds(s, p, d.sector(g));
      assert s'[p..p + RAW_SIZE] == s[p..p + RAW_SIZE];
    }
  }

  /** Between two adjacent sectors there is no sync from byte 2048 of the first on. */
  lemma NoSyncBetween(s: seq<byte>, at: nat, a: Sector, b: Sector, from: nat)
    requires Holds(s, at, a) && Holds(s, at + RAW_SIZE, b) && NoSync(a + b, SECTOR_SIZE, RAW_SIZE)
    requires at + SECTOR_SIZE <= from
    ensures NoSync(s, from, at + RAW_SIZE)
  {
    var hi := at + 2 * RAW_SIZE;
    assert s[at..hi] == s[at..at + RAW_SIZE] + s[at + RAW_SIZE..hi] == a + b;
    forall p | from <= p < at + RAW_SIZE
      ensures !KmpSearch.OccursAt(s, SYNC, p)
    {
      OccursInside(s, at, hi, p - at);
    }
  }

  /** The machine stands at sector f, just descrambled, with the raw sectors after it still in place. */
  ghost predicate Opened(c: Request, d: Disc, m: Machine, f: nat)
  {
    && WellShaped(m) && m.pc.SearchLbn? && 0 <= m.kmpCnt && 0 < m.frameRetry
    && f <= c.start + m.used < End(c)
    && WellHeaded(c, d, f, End(c))
    && Holds(m.buf, m.src, Plain(c, d, f))
    && SectorsAt(d, m.buf, m.src + RAW_SIZE, f + 1, End(c))
    && m.src + RAW_SIZE * (End(c) - f) <= m.log.base + m.log.got <= |m.buf|
    && m.log.reach <= m.log.base + m.log.got
  }

  function AtSync(m: Machine, next: nat): Machine
    requires m.src <= next
  {
    Found(Scanned(m), next - m.src)
  }

  lemma Opens(c: Request, d: Disc, m: Machine, f: nat, next: nat)
    requires Aimed(c, d, m, f, next) && next <= m.src + RAW_SIZE - 12
    ensures RawAt(AtSync(m, next)) == d.sector(f)
    ensures Opened(c, d, Descrambled(AtSync(m, next), Plain(c, d, f)), f)
  {
    hide Headed, Parted, Plain, End;
    var plain := Plain(c, d, f);
    var m' := Descrambled(AtSync(m, next), plain);
    assert m'.src == next && m'.buf == Overlay(m.buf, next, plain);
    assert Holds(m.buf, next + RAW_SIZE * (f - f), d.sector(f));
    OverlayParts(m.buf, next, plain, next, next + RAW_SIZE);
    SectorsKept(d, m.buf, m'.buf, next, f, next + RAW_SIZE, f + 1, End(c));
  }

  /** A step of SECTOR_SIZE lands 304 bytes before the next sector. */
  lemma ShortSkip(c: Request, d: Disc, m: Machine, f: nat)
    requires Opened(c, d, m, f) && f < c.start + m.used
    ensures Aimed(c, d, Skip(m, SECTOR_SIZE), f + 1, m.src + RAW_SIZE)
  {
    assert Parted(c, d, f);
    assert Holds(m.buf, m.src + RAW_SIZE + RAW_SIZE * (f + 1 - (f + 1)), d.sector(f + 1));
    NoSyncBetween(m.buf, m.src, Plain(c, d, f), d.sector(f + 1), m.src + SECTOR_SIZE);
  }

  /** The last 16 bytes before a sector further on hold no sync either. */
  lemma NoSyncBeforeFar(c: Request, d: Disc, m: Machine, f: nat, jump: nat, at: nat)
    requires Opened(c, d, m, f) && 1 <= jump && f + jump <= c.start + m.used && at == m.src + jump * RAW_SIZE
    ensures NoSync(m.buf, at - MOVE_SIZE, at)
  {
    var g, before := f + jump - 1, at - RAW_SIZE;
    assert Parted(c, d, g);
    assert Holds(m.buf, m.src + RAW_SIZE + RAW_SIZE * (g + 1 - (f + 1)), d.sector(g + 1));
    if jump == 1 {
      NoSyncBetween(m.buf, before, Plain(c, d, f), d.sector(g + 1), at - MOVE_SIZE);
    } else {
      assert Holds(m.buf, m.src + RAW_SIZE + RAW_SIZE * (g - (f + 1)), d.sector(g));
      NoSyncBetween(m.buf, before, d.sector(g), d.sector(g + 1), at - MOVE_SIZE);
    }
  }

  /** A jump of several sectors less CD_MOVE_SIZE lands 16 bytes before the sector it is meant for. */
  lemma FarSkip(c: Request, d: Disc, m: Machine, f: nat, jump: nat)
    requires Opened(c, d, m, f) && 1 <= jump && f + jump <= c.start + m.used
    ensures Aimed(c, d, Skip(m, jump * RAW_SIZE - MOVE_SIZE), f + jump, m.src + jump * RAW_SIZE)
  {
    hide NoSync, Headed, Parted, Plain;
    var at := m.src + jump * RAW_SIZE;
    NoSyncBeforeFar(c, d, m, f, jump, at);
    SectorsKept(d, m.buf, m.buf, m.src + RAW_SIZE, f + 1, at, f + jump, End(c));
  }

  /** The fields after a delivery whose decoder succeeded. */
  ghost predicate Copied(c: Request, m: Machine, m': Machine, data: seq<byte>, decoded: Sector)
  {
    && m.src + RAW_SIZE <= |m.buf| && m.dst + |data| <= |m.buf|
    && m'.buf == Overlay(Overlay(m.buf, m.src, decoded), m.dst, data)
    && m'.used == m.used + 1 && m'.src == m.src + RAW_SIZE && m'.lastSector == U32(c.start + m.used)
    && m'.pc == (if m'.used < c.count then SearchLbn else Returned(SECTOR_SIZE))
    && m'.kmpCnt == m.kmpCnt && m'.frameRetry == CD_RETRY_CNT
    && m'.log.reach == m.log.reach && m'.log.base == m.log.base && m'.log.got == m.log.got
    && m'.log.passes == m.log.passes && m'.log.aligned == m.log.aligned && m'.stopped == m.stopped
  }

  lemma MatchedCopies(c: Request, m: Machine, raw: Sector, mode: byte, x: Look)
    requires WellShaped(m) && m.src + RAW_SIZE <= |m.buf| && m.pc.SearchLbn? && x.c3 >= CD_TRUE
    ensures WellShaped(Matched(c, m, raw, mode, x))
    ensures Copied(c, m, Matched(c, m, raw, mode, x), UserData(x.decoded, mode), x.decoded)
  {
    hide UserData, Overlay, U32;
    MatchedKeepsShape(c, m, raw, mode, x);
  }

  /** The requested sector fills its slot. */
  lemma CopyFills(c: Request, d: Disc, m: Machine, m': Machine, decoded: Sector, first: nat)
    requires WellShaped(m) && WellShaped(m') && Filled(c, d, m, first)
    requires Copied(c, m, m', Payload(c, d, c.start + m.used), decoded)
    ensures Filled(c, d, m', first)
  {
    hide Payload;
    var data, buf := Payload(c, d, c.start + m.used), Overlay(m.buf, m.src, decoded);
    forall i | first <= i < m'.used
      ensures Slot(m'.buf, i) == Payload(c, d, c.start + i)
    {
      OverlayParts(buf, m.dst, data, SECTOR_SIZE * i, SECTOR_SIZE * (i + 1));
      if i < m.used {
        assert Slot(m.buf, i) == Payload(c, d, c.start + i);
        OverlayParts(m.buf, m.src, decoded, SECTOR_SIZE * i, SECTOR_SIZE * (i + 1));
      }
    }
  }

  /** And the machine stands right before the next sector. */
  lemma CopyAims(c: Request, d: Disc, m: Machine, m': Machine, data: seq<byte>, decoded: Sector)
    requires Opened(c, d, m, c.start + m.used) && WellShaped(m') && |data| == SECTOR_SIZE
    requires Copied(c, m, m', data, decoded) && m'.used < c.count
    ensures Aimed(c, d, m', c.start + m'.used, m'.src)
  {
    hide Headed, Parted;
    var f := c.start + m'.used;
    SectorsKept(d, m.buf, m'.buf, m'.src, f, m'.src, f, End(c));
  }

  // ----- steps and runs

  ghost predicate SamePass(m: Machine, m': Machine)
  {
    && m'.log.passes == m.log.passes && m'.log.base == m.log.base && m'.log.got == m.log.got
    && m'.log.reach <= m'.log.base + m'.log.got && m'.stopped == m.stopped
  }

  /** Everything delivered, the cursor right behind the last sector. */
  ghost predicate Complete(c: Request, m: Machine, end: nat)
  {
    && m.pc == Returned(SECTOR_SIZE) && m.used == c.count
    && m.src == end && m.lastSector == U32(End(c) - 1)
  }

  /** Frames of requested sectors are far from wrapping around. */
  lemma RequestFits(c: Request, d: Disc, f: nat, used: nat)
    requires WellHeaded(c, d, f, End(c)) && f <= c.start + used < End(c)
    ensures U32(c.start + used) == c.start + used
  {
    hide FrameOf, Plain, Parted;
    assert Headed(c, d, c.start + used);
  }

  lemma MissStep(c: Request, d: Disc, m: Machine, x: Look, f: nat, next: nat)
    requires Aimed(c, d, m, f, next) && Nice(c, d, m, x) && next > m.src + RAW_SIZE - 12
    ensures Aimed(c, d, SearchStep(c, m, x), f, next) && SamePass(m, SearchStep(c, m, x))
    ensures SearchStep(c, m, x) == Missed(Scanned(m)) && m.kmpCnt > 0
  {
    hide WellHeaded, SectorsAt, SyncOffset;
    NothingIsFound(c, d, m, f, next);
  }

  /** A ring that holds so many bytes holds so many whole sectors. */
  lemma StillBuffered(bytes: int, sectors: nat, available: Samples)
    requires bytes >= RAW_SIZE * sectors && 4 * available >= bytes
    ensures available / SECTOR_SAMPLES >= sectors
  {
  }

  /** At its next sync the machine inspects sector f, with the decoder's answer for it at hand. */
  lemma HitStep(c: Request, d: Disc, m: Machine, x: Look, f: nat, next: nat)
    requires Aimed(c, d, m, f, next) && Nice(c, d, m, x) && next <= m.src + RAW_SIZE - 12 && InStep(m)
    ensures SearchStep(c, m, x) == Inspect(c, AtSync(m, next), x) && RawAt(AtSync(m, next)) == d.sector(f)
    ensures x.decoded == d.decode(Plain(c, d, f)) && x.c3 >= CD_TRUE
    ensures x.available / SECTOR_SAMPLES >= End(c) - f
  {
    hide Inspect, SyncOffset, Headed, Parted;
    NextIsFound(c, d, m, f, next);
    Opens(c, d, m, f, next);
    StillBuffered(m.log.base + m.log.got - next, End(c) - f, x.available);
  }

  predicate Gridded(m: Machine, next: int)
  {
    m.log.aligned && (next - m.src) % 4 == 0
  }

  /** Where a visit to SEARCH_LBN has got to: done, or aimed at a later sector or one search window further. */
  ghost predicate Progress(c: Request, d: Disc, m: Machine, f: nat, next: nat, m': Machine, f': nat, next': nat,
                           first: nat)
    requires WellShaped(m)
  {
    && WellShaped(m') && Filled(c, d, m', first) && SamePass(m, m') && f' <= End(c)
    && next' + RAW_SIZE * (End(c) - f') == next + RAW_SIZE * (End(c) - f)
    && (Gridded(m, next) ==> Gridded(m', next'))
    && (if f' == End(c) then Complete(c, m', next')
        else Aimed(c, d, m', f', next') && End(c) - f' + m'.kmpCnt < End(c) - f + m.kmpCnt)
  }

  lemma FilledKept(c: Request, d: Disc, m: Machine, m': Machine, at: nat, data: seq<byte>, first: nat)
    requires WellShaped(m) && WellShaped(m') && Filled(c, d, m, first) && m.dst <= at && at + |data| <= |m.buf|
    requires m'.buf == Overlay(m.buf, at, data) && m'.used == m.used
    ensures Filled(c, d, m', first)
  {
    hide Payload;
    forall i | first <= i < m'.used
      ensures Slot(m'.buf, i) == Payload(c, d, c.start + i)
    {
      assert Slot(m.buf, i) == Payload(c, d, c.start + i);
      OverlayParts(m.buf, at, data, SECTOR_SIZE * i, SECTOR_SIZE * (i + 1));
    }
  }

  /** The fields after a sync found and its sector descrambled. */
  lemma DescrambledAt(m: Machine, next: nat, plain: Sector)
    requires WellShaped(m) && m.src <= next && next + RAW_SIZE <= |m.buf|
    ensures var m' := Descrambled(AtSync(m, next), plain);
            && m'.buf == Overlay(m.buf, next, plain) && m'.src == next && m'.pc == m.pc
            && m'.used == m.used && m'.dst == m.dst && m'.kmpCnt == m.kmpCnt && m'.goMsf == m.goMsf
            && m'.frameRetry == m.frameRetry && m'.stopped == m.stopped
            && m'.log.passes == m.log.passes && m'.log.base == m.log.base && m'.log.got == m.log.got
            && m'.log.aligned == (m.log.aligned && (next - m.src) % 4 == 0)
            && WellShaped(m')
  {
    hide Overlay;
    DescrambledKeepsShape(AtSync(m, next), plain);
  }

  lemma MatchProgress(c: Request, d: Disc, m: Machine, x: Look, f: nat, next: nat, first: nat)
    returns (f': nat, next': nat)
    requires Aimed(c, d, m, f, next) && next <= m.src + RAW_SIZE - 12 && Filled(c, d, m, first)
    requires f == c.start + m.used && x.decoded == d.decode(Plain(c, d, f)) && x.c3 >= CD_TRUE
    ensures var m' := Descrambled(AtSync(m, next), Plain(c, d, f));
            Progress(c, d, m, f, next, Matched(c, m', d.sector(f), ModeOf(Plain(c, d, f)), x), f', next', first)
  {
    hide Headed, Parted, Matched, UserData, ModeOf, U32, SectorsAt, NoSync, Filled, Descrambled;
    var open := Descrambled(AtSync(m, next), Plain(c, d, f));
    DescrambledAt(m, next, Plain(c, d, f));
    Opens(c, d, m, f, next);
    FilledKept(c, d, m, open, next, Plain(c, d, f), first);
    MatchedCopies(c, open, d.sector(f), ModeOf(Plain(c, d, f)), x);
    var m' := Matched(c, open, d.sector(f), ModeOf(Plain(c, d, f)), x);
    CopyFills(c, d, open, m', x.decoded, first);
    f', next' := f + 1, next + RAW_SIZE;
    if m'.used < c.count { CopyAims(c, d, open, m', Payload(c, d, f), x.decoded); }
  }

  lemma SkipProgress(c: Request, d: Disc, m: Machine, x: Look, f: nat, next: nat, first: nat)
    returns (f': nat, next': nat)
    requires Aimed(c, d, m, f, next) && next <= m.src + RAW_SIZE - 12 && Filled(c, d, m, first)
    requires f < c.start + m.used && x.available / SECTOR_SAMPLES >= End(c) - f && f <= 755040
    ensures var m' := Descrambled(AtSync(m, next), Plain(c, d, f));
            Progress(c, d, m, f, next, Mismatched(m', f, c.start + m.used, x.available), f', next', first)
  {
    hide Headed, Parted, WellHeaded, SectorsAt, NoSync, Filled, Descrambled;
    var request := c.start + m.used;
    var open := Descrambled(AtSync(m, next), Plain(c, d, f));
    DescrambledAt(m, next, Plain(c, d, f));
    Opens(c, d, m, f, next);
    FilledKept(c, d, m, open, next, Plain(c, d, f), first);
    if f < m.goMsf {
      ShortSkip(c, d, open, f);
      f', next' := f + 1, next + RAW_SIZE;
    } else {
      FarSkip(c, d, open, f, request - f);
      f', next' := request, next + (request - f) * RAW_SIZE;
    }
    var m' := Mismatched(open, f, request, x.available);
    assert m'.buf == Overlay(m.buf, next, Plain(c, d, f));
    FilledKept(c, d, m, m', next, Plain(c, d, f), first);
  }

  lemma SearchProgress(c: Request, d: Disc, m: Machine, x: Look, f: nat, next: nat, first: nat)
    returns (f': nat, next': nat)
    requires Aimed(c, d, m, f, next) && Nice(c, d, m, x) && InStep(m) && Filled(c, d, m, first)
    ensures Progress(c, d, m, f, next, SearchStep(c, m, x), f', next', first)
  {
    hide SearchStep, Inspect, Matched, Mismatched, Parted, SectorsAt, NoSync, Filled, Descrambled, FrameOf, U32;
    if next > m.src + RAW_SIZE - 12 {
      MissStep(c, d, m, x, f, next);
      f', next' := f, next;
      MissProgress(c, d, m, f, next, first);
    } else {
      HitStep(c, d, m, x, f, next);
      RequestFits(c, d, f, m.used);
      InspectCases(c, d, AtSync(m, next), x, f);
      assert Headed(c, d, f);
      if f == c.start + m.used {
        f', next' := MatchProgress(c, d, m, x, f, next, first);
      } else {
        f', next' := SkipProgress(c, d, m, x, f, next, first);
      }
    }
  }

  lemma MissProgress(c: Request, d: Disc, m: Machine, f: nat, next: nat, first: nat)
    requires Aimed(c, d, m, f, next) && Aimed(c, d, Missed(Scanned(m)), f, next) && SamePass(m, Missed(Scanned(m)))
    requires Filled(c, d, m, first) && m.kmpCnt > 0
    ensures Progress(c, d, m, f, next, Missed(Scanned(m)), f, next, first)
  {
    hide Parted, WellHeaded, SectorsAt, NoSync;
    var m' := Missed(Scanned(m));
    assert m'.buf == Overlay(m.buf, m.dst, []);
    FilledKept(c, d, m, m', m.dst, [], first);
  }

  /** Inspecting a sector whose header is good takes the branch of its frame number. */
  lemma InspectCases(c: Request, d: Disc, m: Machine, x: Look, f: nat)
    requires m.src + RAW_SIZE <= |m.buf| && m.dst <= m.src && RawAt(m) == d.sector(f) && Headed(c, d, f)
    requires U32(c.start + m.used) == c.start + m.used
    ensures var m' := Descrambled(m, Plain(c, d, f));
            && f <= 755040
            && (f == c.start + m.used ==> Inspect(c, m, x) == Matched(c, m', d.sector(f), ModeOf(Plain(c, d, f)), x))
            && (f != c.start + m.used ==> Inspect(c, m, x) == Mismatched(m', f, c.start + m.used, x.available))
  {
    hide Matched, Mismatched, Descrambled, FrameOf, U32, ModeOf;
  }
}
