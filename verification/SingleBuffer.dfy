/** The circular sample buffer (SingleBuffer.c). A sample is a stereo pair, two 16-bit words; lengths and pointers count
    samples, so sample k lies in words 2k and 2k + 1 of the memory. */
module SingleBuffer {
  import opened Words

  // ----- the buffer as a value

  datatype Ring = Ring(mem: seq<u16>, length: int, readPtr: int, writePtr: int)

  /** Pointers in range and the memory as long as the length says. */
  ghost predicate Sound(b: Ring)
  {
    && 0 < b.length && b.length % 4 == 0 && |b.mem| == 2 * b.length
    && 0 <= b.readPtr < b.length && 0 <= b.writePtr < b.length
  }

  function Available(b: Ring): int
  {
    if b.writePtr >= b.readPtr then b.writePtr - b.readPtr else b.length - (b.readPtr - b.writePtr)
  }

  function Space(b: Ring): int
  {
    if b.writePtr == b.readPtr then b.length - 4
    else if b.writePtr > b.readPtr then b.length - (b.writePtr - b.readPtr) - 4
    else b.readPtr - b.writePtr - 4
  }

  /** The buffered words, oldest first: what the buffer is for. */
  ghost function Queue(b: Ring): (q: seq<u16>)
    requires Sound(b)
    ensures |q| == 2 * Available(b)
  {
    if b.writePtr >= b.readPtr then b.mem[2 * b.readPtr..2 * b.writePtr]
    else b.mem[2 * b.readPtr..] + b.mem[..2 * b.writePtr]
  }

  /** The largest write that is accepted. */
  function MaxWrite(b: Ring): int
  {
    if b.readPtr > b.writePtr then b.readPtr - b.writePtr - 4
    else if b.readPtr == 0 then b.length - b.writePtr - 4
    else b.length - b.writePtr
  }

  /** Down to a multiple of four samples. */
  function Rounded(len: int): int { len - len % 4 }

  function WriteAccepted(b: Ring, len: int): bool { Rounded(len) <= MaxWrite(b) }

  function AfterWrite(b: Ring, len: int): Ring
  {
    if !WriteAccepted(b, len) then b
    else if b.writePtr + Rounded(len) == b.length then b.(writePtr := 0)
    else b.(writePtr := b.writePtr + Rounded(len))
  }

  /** The read pointer after the two corrections that SingleBufferUpdateReadPointer applies. */
  function ReadPointerAfter(length: int, readPtr: int, len: int): int
  {
    var p := readPtr + len;
    var q := if p > length then p - length else if p == length then 0 else p;
    if q >= length then length - q else q
  }

  function AfterRead(b: Ring, len: int): Ring
  {
    b.(readPtr := ReadPointerAfter(b.length, b.readPtr, len))
  }

  // ----- what the arithmetic means

  /** Advancing the read pointer is addition modulo the length exactly up to the second lap. */
  lemma ReadPointerIsModular(length: int, readPtr: int, len: int)
    requires 0 <= readPtr < length && 0 <= len
    ensures ReadPointerAfter(length, readPtr, len) == (readPtr + len) % length <==> readPtr + len <= 2 * length
    ensures 0 <= ReadPointerAfter(length, readPtr, len) < length <==> readPtr + len <= 2 * length
  {
    var p := readPtr + len;
    if p < length {
      ModIs(p, length, 0);
    } else if p < 2 * length {
      ModIs(p, length, 1);
    } else if p == 2 * length {
      ModIs(p, length, 2);
    }
  }

  lemma ModIs(p: int, length: int, laps: nat)
    requires 0 < length && laps <= 2 && laps * length <= p < (laps + 1) * length
    ensures p % length == p - laps * length
  {
    var q := p / length;
    assert p == q * length + p % length;
    if q < laps {
      Scaled(q + 1, laps, length);
    } else if q > laps {
      Scaled(laps + 1, q, length);
    }
  }

  lemma Scaled(a: int, b: int, length: int)
    requires a <= b && 0 < length
    ensures a * length <= b * length
  {
    assert 0 <= (b - a) * length;
  }

  /** What is buffered and what may be added make up the buffer less its four-sample gap. */
  lemma AvailableAndSpace(b: Ring)
    ensures Available(b) + Space(b) == b.length - 4
  {
  }

  /** Reading samples that are there drops them from the front of the queue and touches nothing else. */
  lemma ReadDropsFront(b: Ring, len: int)
    requires Sound(b) && 0 <= len <= Available(b)
    ensures Sound(AfterRead(b, len))
    ensures Available(AfterRead(b, len)) == Available(b) - len
    ensures Queue(AfterRead(b, len)) == Queue(b)[2 * len..]
  {
  }

  /** The reader stands in the first four samples, with the writer not behind it: the one place from which a write
      that is accepted can close the gap. */
  predicate AtTheSeam(b: Ring)
  {
    0 < b.readPtr < 4 && b.readPtr <= b.writePtr
  }

  /** An accepted write adds its rounded length, and keeps the gap of a reader that is not at the seam. */
  lemma WriteAdds(b: Ring, len: int)
    requires Sound(b) && 0 <= len && WriteAccepted(b, len)
    ensures Sound(AfterWrite(b, len)) && b.writePtr + Rounded(len) <= b.length
    ensures Available(AfterWrite(b, len)) == Available(b) + Rounded(len)
    ensures !AtTheSeam(b) ==> Available(AfterWrite(b, len)) <= b.length - 4
  {
  }

  /** Exactly what is accepted: what fits before the end of the memory and, unless the reader is at the seam, into the
      room there is. */
  lemma AcceptedExactly(b: Ring, len: int)
    requires Sound(b) && 0 <= len
    ensures !AtTheSeam(b) ==>
              (WriteAccepted(b, len) <==> b.writePtr + (len - len % 4) <= b.length && len - len % 4 <= Space(b))
    ensures AtTheSeam(b) ==> (WriteAccepted(b, len) <==> b.writePtr + (len - len % 4) <= b.length)
  {
  }

  /** Exactly when the gap is kept: every write that is accepted keeps it if and only if the reader is not at the
      seam. */
  lemma GapIsKeptExactly(b: Ring)
    requires Sound(b) && b.writePtr % 4 == 0
    ensures (forall len: nat :: WriteAccepted(b, len) ==> Available(AfterWrite(b, len)) <= b.length - 4)
            <==> !AtTheSeam(b)
  {
    if AtTheSeam(b) {
      var all := b.length - b.writePtr;
      assert WriteAccepted(b, all) && Available(AfterWrite(b, all)) == b.length - b.readPtr;
    } else {
      forall len: nat | WriteAccepted(b, len)
        ensures Available(AfterWrite(b, len)) <= b.length - 4
      {
        WriteAdds(b, len);
      }
    }
  }

  /** What it appends to the queue are the samples already stored past the write pointer. */
  lemma WriteAppends(b: Ring, len: int)
    requires Sound(b) && 0 <= len && WriteAccepted(b, len)
    ensures Sound(AfterWrite(b, len)) && b.writePtr + Rounded(len) <= b.length
    ensures Queue(AfterWrite(b, len)) == Queue(b) + b.mem[2 * b.writePtr..2 * (b.writePtr + Rounded(len))]
  {
    hide Queue;
    WriteAdds(b, len);
    QueueGrows(b, b.writePtr + Rounded(len));
  }

  /** The write pointer moves on without meeting the read pointer. */
  lemma QueueGrows(b: Ring, to: int)
    requires Sound(b) && b.writePtr <= to <= b.length
    requires b.writePtr < b.readPtr ==> to < b.readPtr
    requires b.writePtr >= b.readPtr && to == b.length ==> b.readPtr > 0
    ensures var b' := b.(writePtr := if to == b.length then 0 else to);
            Sound(b') && Queue(b') == Queue(b) + b.mem[2 * b.writePtr..2 * to]
  {
    if b.writePtr < b.readPtr {
      Joined(b.mem, 0, 2 * b.writePtr, 2 * to);
    } else {
      Joined(b.mem, 2 * b.readPtr, 2 * b.writePtr, 2 * to);
    }
  }

  lemma Joined(s: seq<u16>, lo: nat, mid: nat, hi: nat)
    requires lo <= mid <= hi <= |s|
    ensures s[lo..hi] == s[lo..mid] + s[mid..hi] && (lo == 0 ==> s[..mid] == s[lo..mid] && s[..hi] == s[lo..hi])
  {
  }

  // ----- conservation over every run

  datatype Op = Write(len: nat) | Read(len: nat)

  /** Reads take what is available. */
  predicate Permitted(b: Ring, op: Op)
  {
    op.Read? ==> op.len <= Available(b)
  }

  /** In multiples of four samples. */
  predicate Aligned(op: Op)
  {
    op.Read? ==> op.len % 4 == 0
  }

  /** The reader on a multiple of four samples, and the gap there. */
  predicate Gapped(b: Ring)
  {
    b.readPtr % 4 == 0 && Available(b) <= b.length - 4
  }

  function Apply(b: Ring, op: Op): Ring
  {
    match op
    case Write(len) => AfterWrite(b, len)
    case Read(len) => AfterRead(b, len)
  }

  ghost predicate PermittedRun(b: Ring, ops: seq<Op>)
    decreases |ops|
  {
    ops != [] ==> Permitted(b, ops[0]) && PermittedRun(Apply(b, ops[0]), ops[1..])
  }

  function Final(b: Ring, ops: seq<Op>): Ring
    decreases |ops|
  {
    if ops == [] then b else Final(Apply(b, ops[0]), ops[1..])
  }

  /** What one operation accepts less what it takes. */
  function Gain(b: Ring, op: Op): int
  {
    match op
    case Write(len) => if WriteAccepted(b, len) then Rounded(len) else 0
    case Read(len) => 0 - len
  }

  /** Samples accepted by the writes of a run less the samples taken by its reads. */
  function Balance(b: Ring, ops: seq<Op>): int
    decreases |ops|
  {
    if ops == [] then 0 else Gain(b, ops[0]) + Balance(Apply(b, ops[0]), ops[1..])
  }

  lemma OneConserves(b: Ring, op: Op)
    requires Sound(b) && Permitted(b, op)
    ensures Sound(Apply(b, op)) && Apply(b, op).length == b.length
    ensures Available(Apply(b, op)) == Available(b) + Gain(b, op)
    ensures Gapped(b) && Aligned(op) ==> Gapped(Apply(b, op))
  {
    hide Queue, Available, WriteAccepted, Rounded;
    match op
    case Write(len) =>
      if WriteAccepted(b, len) { WriteAdds(b, len); }
      WriteKeepsReader(b, len);
    case Read(len) =>
      AvailableNatural(b);
      ReadDropsFront(b, len);
      if b.readPtr % 4 == 0 && len % 4 == 0 { ReadStaysAligned(b, len); }
  }

  lemma WriteKeepsReader(b: Ring, len: nat)
    ensures AfterWrite(b, len).readPtr == b.readPtr && AfterWrite(b, len).length == b.length
  {
    hide WriteAccepted, Rounded;
  }

  lemma ReadStaysAligned(b: Ring, len: nat)
    requires Sound(b) && b.readPtr % 4 == 0 && len % 4 == 0 && len <= b.length
    ensures AfterRead(b, len).readPtr % 4 == 0 && AfterRead(b, len).length == b.length
  {
  }

  lemma AvailableNatural(b: Ring)
    requires Sound(b)
    ensures 0 <= Available(b) < b.length
  {
  }

  /** After any run the buffer holds what was accepted minus what was taken; and if the reader began on a multiple of
      four samples and reads go by multiples of four, it never closes its four-sample gap. */
  lemma {:induction false} Conservation(b: Ring, ops: seq<Op>)
    requires Sound(b) && PermittedRun(b, ops)
    ensures Sound(Final(b, ops)) && Final(b, ops).length == b.length
    ensures 0 <= Available(Final(b, ops)) == Available(b) + Balance(b, ops)
    ensures Gapped(b) && (forall op | op in ops :: Aligned(op)) ==> Gapped(Final(b, ops))
    decreases |ops|
  {
    hide Available, Apply, Gain, Permitted, Gapped, Aligned;
    if ops == [] {
      AvailableNatural(b);
    } else {
      OneConserves(b, ops[0]);
      Conservation(Apply(b, ops[0]), ops[1..]);
    }
  }

  /** One sample read brings the reader to the seam: a write of all the room there is then closes the gap. */
  lemma UnalignedReadClosesTheGap(mem: seq<u16>)
    requires |mem| == 16
    ensures var b := Ring(mem, 8, 0, 4);
            var full := AfterWrite(AfterRead(b, 1), 4);
            Sound(b) && WriteAccepted(AfterRead(b, 1), 4) && Available(full) == 7 > 8 - 4
  {
  }

  // ----- the buffer as the driver's object

  class SingleBufferState {
    var pSingleBuf: array<u16>
    var lLength: int
    var lReadPtr: int
    var lWritePtr: int

    ghost function View(): Ring
      reads this, pSingleBuf
    {
      Ring(pSingleBuf[..], lLength, lReadPtr, lWritePtr)
    }

    /** SingleBufferInit: no memory, no length (the null pointer is an empty array here). */
    constructor ()
      ensures View() == Ring([], 0, 0, 0) && fresh(pSingleBuf)
    {
      pSingleBuf := new u16[0];
      lLength, lReadPtr, lWritePtr := 0, 0, 0;
    }

    method Set(single: array<u16>, length: int) returns (lRet: int)
      modifies this
      ensures lRet == if length % 4 == 0 then 1 else 0
      ensures lRet == 1 ==> pSingleBuf == single && View() == Ring(single[..], length, 0, 0)
      ensures lRet == 0 ==> pSingleBuf == old(pSingleBuf) && View() == old(View())
    {
      if length % 4 != 0 {
        lRet := 0;
      } else {
        pSingleBuf := single;
        lLength := length;
        lReadPtr := 0;
        lWritePtr := 0;
        lRet := 1;
      }
    }

    method DataAvailable() returns (lRet: int)
      ensures lRet == Available(View())
    {
      var lRead, lWrite := lReadPtr, lWritePtr;
      if lWrite >= lRead {
        lRet := lWrite - lRead;
      } else {
        lRet := lLength - (lRead - lWrite);
      }
    }

    method SpaceAvailable() returns (lRet: int)
      ensures lRet == lLength - 4 - Available(View())
    {
      var lRead, lWrite := lReadPtr, lWritePtr;
      if lWrite == lRead {
        lRet := lLength - 4;
      } else if lWrite > lRead {
        lRet := lLength - (lWrite - lRead) - 4;
      } else {
        lRet := lRead - lWrite - 4;
      }
    }

    method IsEmpty() returns (lRet: int)
      ensures lRet == 1 || lRet == 0
      ensures Sound(View()) ==> (lRet == 1 <==> Queue(View()) == [])
    {
      if lReadPtr == lWritePtr {
        lRet := 1;
      } else {
        lRet := 0;
      }
    }

    method UpdateWritePointer(length: int) returns (lRet: int)
      modifies this`lWritePtr
      ensures View() == AfterWrite(old(View()), length)
      ensures lRet == if WriteAccepted(old(View()), length) then 1 else 0
    {
      var len := length - length % 4;
      var lRead, lWrite := lReadPtr, lWritePtr;
      var lMaxLength;
      if lRead > lWrite {
        lMaxLength := lRead - lWrite - 4;
      } else if lRead == 0 {
        lMaxLength := lLength - lWrite - 4;
      } else {
        lMaxLength := lLength - lWrite;
      }
      if len > lMaxLength {
        lRet := 0;
      } else {
        lWrite := lWrite + len;
        if lWrite == lLength {
          lWrite := 0;
        }
        lWritePtr := lWrite;
        lRet := 1;
      }
    }

    method UpdateReadPointer(length: int) returns (lRet: int)
      modifies this`lReadPtr
      ensures View() == AfterRead(old(View()), length)
      ensures lRet == lReadPtr
    {
      lReadPtr := lReadPtr + length;
      if lReadPtr > lLength {
        lReadPtr := lReadPtr - lLength;
      } else if lReadPtr == lLength {
        lReadPtr := 0;
      }
      if lReadPtr >= lLength {
        lReadPtr := lLength - lReadPtr;
      }
      lRet := lReadPtr;
    }
  }
}
