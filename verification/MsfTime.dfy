/** Disc addresses: BCD bytes, packed minute/second/frame words and absolute frame numbers (75 frames a second). */
module MsfTime {
  import opened Words

  // ----- one byte: binary <-> BCD

  /** The byte whose high digit is h / 10 and whose low digit is h % 10, truncated to eight bits. */
  function BcdByte(h: byte): byte { U8(h / 10 * 0x10 + h % 10) }

  /** The number that a (possibly malformed) BCD byte stands for. */
  function BcdValue(b: byte): (h: byte)
    ensures h <= 165
  {
    b / 0x10 * 10 + b % 0x10
  }

  lemma Digits(n: nat, base: nat, high: nat, low: nat)
    requires (base == 10 || base == 0x10) && n == base * high + low && low < base
    ensures n / base == high && n % base == low
  {
  }

  method Hex2Bcd(lHex: byte) returns (lBcd: byte)
    ensures lBcd == BcdByte(lHex)
  {
    hide U8, BcdByte;
    var hex: byte := lHex;
    ghost var tens := 0;
    lBcd := 0;
    while hex >= 10
      invariant lHex == hex + 10 * tens
      invariant lBcd == if tens < 16 then 0x10 * tens else 0x10 * tens - 0x100
    {
      TenMore(lBcd, tens);
      lBcd := U8(lBcd + 0x10);
      hex := hex - 10;
      tens := tens + 1;
    }
    UnitsLast(lHex, lBcd, tens, hex);
    lBcd := U8(lBcd + hex);
  }

  lemma TenMore(lBcd: byte, tens: nat)
    requires tens < 25 && lBcd == if tens < 16 then 0x10 * tens else 0x10 * tens - 0x100
    ensures U8(lBcd + 0x10) == if tens + 1 < 16 then 0x10 * (tens + 1) else 0x10 * (tens + 1) - 0x100
  {
  }

  lemma UnitsLast(lHex: byte, lBcd: byte, tens: nat, hex: byte)
    requires lHex == hex + 10 * tens && hex < 10
    requires lBcd == if tens < 16 then 0x10 * tens else 0x10 * tens - 0x100
    ensures U8(lBcd + hex) == BcdByte(lHex)
  {
    Digits(lHex, 10, tens, hex);
  }

  method Bcd2Hex(lBcd: byte) returns (lHex: byte)
    ensures lHex == BcdValue(lBcd)
  {
    var bcd: byte := lBcd;
    ghost var tens := 0;
    lHex := 0;
    while bcd >= 0x10
      invariant lBcd == bcd + 0x10 * tens && lHex == 10 * tens
    {
      lHex := U8(lHex + 10);
      bcd := bcd - 0x10;
      tens := tens + 1;
    }
    lHex := U8(lHex + bcd);
    Digits(lBcd, 0x10, tens, bcd);
  }

  /** Eight bits hold the BCD form of 0..159 and of nothing larger. */
  lemma BcdByteRoundTrip(h: byte)
    ensures BcdValue(BcdByte(h)) == h <==> h < 160
    ensures BcdValue(BcdByte(h)) == if h < 160 then h else h - 160
  {
    var high, low := h / 10, h % 10;
    var digit := if high < 16 then high else high - 16;
    assert BcdByte(h) == 0x10 * digit + low;
    Digits(BcdByte(h), 0x10, digit, low);
  }

  // ----- packed words (the TIME_CD union)

  datatype Time = Time(frame: byte, sec: byte, min: byte, mode: byte)

  function Pack(t: Time): u32
  {
    t.frame + 0x100 * t.sec + 0x1_0000 * t.min + 0x100_0000 * t.mode
  }

  function Unpack(w: u32): Time
  {
    Time(w % 0x100, w / 0x100 % 0x100, w / 0x1_0000 % 0x100, w / 0x100_0000)
  }

  lemma UnpackPack(t: Time)
    ensures Unpack(Pack(t)) == t
  {
    var w := Pack(t);
    assert w / 0x100 == t.sec + 0x100 * t.min + 0x1_0000 * t.mode;
    assert w / 0x1_0000 == t.min + 0x100 * t.mode;
  }

  /** The absolute frame number of a binary minute/second/frame triple. */
  function FrameNumber(min: byte, sec: byte, frame: byte): u32
  {
    min * 60 * 75 + sec * 75 + frame
  }

  /** The absolute frame number that three BCD bytes stand for. */
  function BcdFrame(min: byte, sec: byte, frame: byte): (f: u32)
    ensures f <= 755040
  {
    FrameNumber(BcdValue(min), BcdValue(sec), BcdValue(frame))
  }

  method BcdMsf2Frame(lMSF: u32) returns (lFrame: u32)
    ensures lFrame == BcdMsfToFrame(lMSF)
  {
    var msf := Unpack(lMSF);
    var m: int := Bcd2Hex(msf.min);
    var s: int := Bcd2Hex(msf.sec);
    var f: int := Bcd2Hex(msf.frame);
    lFrame := m * 60 * 75 + s * 75 + f;
  }

  function BcdMsfToFrame(lMSF: u32): u32
  {
    var t := Unpack(lMSF);
    BcdFrame(t.min, t.sec, t.frame)
  }

  function HexMsfToFrame(lMSF: u32): u32
  {
    var t := Unpack(lMSF);
    FrameNumber(t.min, t.sec, t.frame)
  }

  /** The minute, second and frame bytes that the two conversions from a frame number compute, truncations included. */
  function Split(f: u32): (t: Time)
    ensures t.mode == 0
  {
    var min: int := U8(f / 4500);
    var rest: int := U32(f - min * 4500);
    var sec: int := U8(rest / 75);
    Time(U8(U32(rest - sec * 75)), sec, min, 0)
  }

  function BcdTime(t: Time): Time
  {
    Time(BcdByte(t.frame), BcdByte(t.sec), BcdByte(t.min), 0)
  }

  function FrameToMsf(f: u32): u32 { Pack(BcdTime(Split(f))) }

  function FrameToHex(f: u32): u32 { Pack(Split(f)) }

  method Frame2Msf(lFrame: u32) returns (msf: u32)
    ensures msf == FrameToMsf(lFrame)
  {
    var m: int := U8(lFrame / 4500);
    var rest: int := U32(lFrame - m * 4500);
    var s: int := U8(rest / 75);
    rest := U32(rest - s * 75);
    assert Split(lFrame) == Time(U8(rest), s, m, 0);
    m := Hex2Bcd(m);
    s := Hex2Bcd(s);
    var f := Hex2Bcd(U8(rest));
    msf := Pack(Time(f, s, m, 0));
  }

  method Frame2Hex(lFrame: u32) returns (msf: u32)
    ensures msf == FrameToHex(lFrame)
  {
    var m: int := U8(lFrame / 4500);
    var rest: int := U32(lFrame - m * 4500);
    var s: int := U8(rest / 75);
    rest := U32(rest - s * 75);
    msf := Pack(Time(U8(rest), s, m, 0));
  }

  /** Below 256 minutes nothing is truncated; from there on the minute byte has wrapped. */
  lemma SplitIsExact(f: u32)
    ensures f < 1152000 ==> Split(f) == Time(f % 4500 % 75, f % 4500 / 75, f / 4500, 0)
    ensures f >= 1152000 ==> Split(f).min == f / 4500 % 256
  {
    if f < 1152000 {
      MinutesFit(f);
      SecondsFit(f % 4500);
    }
  }

  lemma MinutesFit(f: u32)
    requires f < 1152000
    ensures U8(f / 4500) == f / 4500 && U32(f - f / 4500 * 4500) == f % 4500
  {
    assert f / 4500 < 256 && f - f / 4500 * 4500 == f % 4500;
  }

  lemma SecondsFit(rest: nat)
    requires rest < 4500
    ensures U8(rest / 75) == rest / 75 && U8(U32(rest - rest / 75 * 75)) == rest % 75
  {
    SecondsAndFrames(rest);
  }

  lemma SecondsAndFrames(rest: nat)
    requires rest < 4500
    ensures rest / 75 < 60 && rest - rest / 75 * 75 == rest % 75 < 75
  {
  }

  /** Below 256 minutes the three bytes stand for the frame they came from. */
  lemma SplitSums(f: u32)
    requires f < 1152000
    ensures Split(f).sec < 60 && Split(f).frame < 75
    ensures f == Split(f).min * 4500 + Split(f).sec * 75 + Split(f).frame
  {
    SplitIsExact(f);
    SecondsAndFrames(f % 4500);
  }

  /** Just past the wrap the minute byte restarts from 0. */
  lemma WrappedMinute(f: u32)
    requires 1152000 <= f <= 1166880
    ensures Split(f).min <= 3
  {
    assert 256 <= f / 4500 <= 259;
  }

  /** CD_HEXMSF2FRAME undoes CD_FRAME2HEX exactly on the discs shorter than 256 minutes. */
  lemma HexMsfRoundTrip(f: u32)
    ensures HexMsfToFrame(FrameToHex(f)) == f <==> f < 1152000
  {
    var t := Split(f);
    UnpackPack(t);
    SplitIsExact(f);
    if f < 1152000 { SplitSums(f); }
    assert HexMsfToFrame(FrameToHex(f)) == FrameNumber(t.min, t.sec, t.frame);
    if 1152000 <= f <= 1166880 {
      WrappedMinute(f);
    }
  }

  /** CD_BCDMSF2FRAME undoes CD_FRAME2MSF exactly on the discs shorter than 160 minutes. */
  lemma BcdMsfRoundTrip(f: u32)
    ensures BcdMsfToFrame(FrameToMsf(f)) == f <==> f < 720000
  {
    var t := Split(f);
    UnpackPack(BcdTime(t));
    BcdByteRoundTrip(t.min);
    BcdByteRoundTrip(t.sec);
    BcdByteRoundTrip(t.frame);
    if f < 1152000 { SplitSums(f); }
  }

  /** Packed BCD addresses sort like the frames they name. */
  lemma BcdMsfOrder(f: u32, g: u32)
    requires f < g < 720000
    ensures FrameToMsf(f) < FrameToMsf(g)
  {
    SplitSums(f);
    SplitSums(g);
    var s, t := Split(f), Split(g);
    BcdByteOrder(s.min, t.min);
    BcdByteOrder(s.sec, t.sec);
    BcdByteOrder(s.frame, t.frame);
    assert s.min < t.min || (s.min == t.min && (s.sec < t.sec || (s.sec == t.sec && s.frame < t.frame)));
  }

  lemma BcdByteOrder(a: byte, b: byte)
    requires a < 160 && b < 160
    ensures BcdByte(a) < BcdByte(b) <==> a < b
    ensures a == b ==> BcdByte(a) == BcdByte(b)
  {
    var ha, la := a / 10, a % 10;
    var hb, lb := b / 10, b % 10;
    assert a == 10 * ha + la && BcdByte(a) == 0x10 * ha + la;
    assert b == 10 * hb + lb && BcdByte(b) == 0x10 * hb + lb;
  }

  /** The header bytes 12, 13 and 14 of a sector, shifted into one word as the driver's loop does, decode to
      4500 minutes + 75 seconds + frames. */
  method HeaderFrame(min: byte, sec: byte, frame: byte) returns (f: u32)
    ensures f == BcdFrame(min, sec, frame)
  {
    var bytes := [min, sec, frame];
    var msf: u32 := 0;
    for lcnt := 0 to 3
      invariant lcnt == 0 ==> msf == 0
      invariant lcnt == 1 ==> msf == min
      invariant lcnt == 2 ==> msf == min * 0x100 + sec
      invariant lcnt == 3 ==> msf == min * 0x1_0000 + sec * 0x100 + frame
    {
      msf := U32(msf * 0x100);
      msf := msf + bytes[lcnt];  // the low byte is clear, so the bitwise or adds
    }
    UnpackPack(Time(frame, sec, min, 0));
    assert msf == Pack(Time(frame, sec, min, 0));
    f := BcdMsf2Frame(msf);
  }
}
