/** Sizes and layouts of raw CD-ROM sectors (ECMA-130, clause 14) and of the driver's chunk buffer. */
module Layout {
  import opened Words
  import MsfTime

  const SECTOR_SIZE := 2048         // user data delivered for a sector
  const RAW_SIZE := 2352            // CDDA_SECTOR_SIZE: a raw sector
  const SECTOR_SAMPLES := 588       // CDDA_SAMPLE_SIZE: a raw sector in four-byte samples
  const CHUNK_BYTES := 2 * 2352 * 200
  const MAX_SECTORS := 200
  const MOVE_SIZE := 16             // CD_MOVE_SIZE
  const SEEK_POSITION := 6          // the deck is sent this many frames ahead of the request
  const SEEK_TOLERANCE := 12

  type Sector = s: seq<byte> | |s| == RAW_SIZE witness seq(RAW_SIZE, _ => 0)

  /** The twelve bytes that begin every sector. */
  const SYNC: seq<byte> := [0x00, 0xFF, 0xFF, 0xFF, 0xFF, 0xFF, 0xFF, 0xFF, 0xFF, 0xFF, 0xFF, 0x00]

  /** The address in a descrambled header. */
  function FrameOf(s: Sector): (f: u32)
    ensures f <= 755040
  {
    MsfTime.BcdFrame(s[12], s[13], s[14])
  }

  function ModeOf(s: Sector): byte { s[15] }

  function DataOffset(mode: byte): nat { if mode == 1 then 16 else 24 }

  function UserData(s: Sector, mode: byte): (d: seq<byte>)
    ensures |d| == SECTOR_SIZE
  {
    s[DataOffset(mode)..DataOffset(mode) + SECTOR_SIZE]
  }

  /** Two decimal digits, four bits each. */
  function Decimal(bcd: int): int { 10 * (bcd / 16) + bcd % 16 }

  /** What the standard (ECMA-130, clause 14) has in bytes 12 to 14 of a sector: minute, second and frame in BCD. */
  predicate Addressed(plain: Sector, frame: int)
  {
    frame == 4500 * Decimal(plain[12]) + 75 * Decimal(plain[13]) + Decimal(plain[14])
  }

  /** What a sector delivers: of a sector that says mode 1 the 2048 bytes behind the header, of any other the 2048
      behind header and subheader. */
  predicate Extracted(slot: seq<byte>, plain: Sector, decoded: Sector)
  {
    && |slot| == 2048
    && forall k :: 0 <= k < 2048 ==> slot[k] == if plain[15] == 1 then decoded[16 + k] else decoded[24 + k]
  }

  lemma HeaderIsAddress(plain: Sector)
    ensures forall frame :: Addressed(plain, frame) <==> frame == FrameOf(plain)
  {
  }

  lemma UserDataIsExtracted(plain: Sector, decoded: Sector)
    ensures Extracted(UserData(decoded, ModeOf(plain)), plain, decoded)
  {
  }

  /** CD_byte2sector. */
  function ByteToSector(bytes: nat): nat
  {
    bytes / SECTOR_SIZE + if bytes % SECTOR_SIZE != 0 then 1 else 0
  }

  /** The least number of sectors that holds so many bytes. */
  lemma ByteToSectorIsCeiling(bytes: nat, sectors: nat)
    ensures bytes <= sectors * SECTOR_SIZE <==> ByteToSector(bytes) <= sectors
  {
    assert bytes == bytes / SECTOR_SIZE * SECTOR_SIZE + bytes % SECTOR_SIZE;
  }

  // ----- how much CD_ReadData asks the deck for

  function PlannedSectors(request: u32): nat
  {
    if MAX_SECTORS >= request then
      if MAX_SECTORS > request + SEEK_TOLERANCE then request + SEEK_TOLERANCE
      else request + (request + SEEK_TOLERANCE - MAX_SECTORS)
    else MAX_SECTORS - SEEK_TOLERANCE
  }

  /** The whole seek tolerance is read behind requests of up to 187 sectors (and, by coincidence, of 200). Between 188
      and 193 not even the frames that a seek on the spot sends ahead of the request are allowed for, so the last
      sectors asked for are not read. */
  lemma ToleranceIsRead(request: u32)
    ensures PlannedSectors(request) == request + SEEK_TOLERANCE <==> request <= 187 || request == 200
    ensures PlannedSectors(request) >= request + SEEK_POSITION <==> request <= 187 || 194 <= request <= 200
    ensures PlannedSectors(request) >= request <==> request <= MAX_SECTORS
    ensures 188 <= request <= 200 ==> PlannedSectors(request) - request == request - 188
    ensures request > 200 ==> PlannedSectors(request) == 188
  {
  }

  /** With used sectors of an n-sector request delivered, what the next read stores fits behind them, for n up to 200.
      */
  lemma ReadFitsChunk(n: u32, used: nat)
    requires used < n <= MAX_SECTORS
    ensures SECTOR_SIZE * used + RAW_SIZE * PlannedSectors(n - used) <= CHUNK_BYTES
  {
  }
}
