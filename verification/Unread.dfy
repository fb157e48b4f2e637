/** How much of what a read stores are samples not read before, and that nothing else of it is to be relied upon. */
module Unread {
  import opened Words
  import opened SingleBuffer
  import opened Capture
  import opened RingQueue
  import SM = SectorMachine

  function Min(a: int, b: int): int { if a <= b then a else b }

  /** Of so many words asked for: all of them, or all there is. */
  function UnreadBytes(b: Ring, copySize: nat): int { Min(2 * copySize, 4 * Available(b)) }

  /** The buffer after CD_CopyReadData, whatever it held before. */
  ghost function BufferAfter(buf: seq<byte>, b: Ring, copySize: nat, at: nat): (r: seq<byte>)
    requires Sound(b) && Peeked(b, copySize).Copied? && at + 2 * copySize <= |buf|
    ensures |r| == |buf|
  {
    PeekIsShort(b, copySize);
    SM.Overlay(buf, at, BytesOf(Peeked(b, copySize).words))
  }

  lemma PeekIsShort(b: Ring, copySize: nat)
    requires Sound(b) && Peeked(b, copySize).Copied?
    ensures |Peeked(b, copySize).words| <= copySize
    ensures Available(b) > 0 ==> |Peeked(b, copySize).words| == copySize
    ensures Available(b) == 0 ==> Peeked(b, copySize).words == []
  {
  }

  /** A peek, however long, begins with the queue. */
  lemma PeekBeginsWithQueue(b: Ring, copySize: nat)
    requires Sound(b) && Peeked(b, copySize).Copied?
    ensures var n := Min(copySize, 2 * Available(b));
            0 <= n <= |Peeked(b, copySize).words| && Peeked(b, copySize).words[..n] == Queue(b)[..n]
  {
    hide Queue, Peeked;
    var n := Min(copySize, 2 * Available(b));
    PeekIsShort(b, copySize);
    AvailableIsNatural(b);
    forall k | 0 <= k < n
      ensures Peeked(b, copySize).words[k] == Queue(b)[k]
    {
      PeekedWord(b, copySize, k);
      WordOfQueue(b, k);
    }
  }

  lemma AvailableIsNatural(b: Ring)
    requires Sound(b)
    ensures 0 <= Available(b) < b.length
  {
  }

  /** Word k of a peek is the word of the memory at its place. */
  lemma PeekedWord(b: Ring, copySize: nat, k: nat)
    requires Sound(b) && Peeked(b, copySize).Copied? && Available(b) > 0 && k < copySize
    ensures |Peeked(b, copySize).words| == copySize && 0 <= WordAt(b, k) < |b.mem|
    ensures Peeked(b, copySize).words[k] == b.mem[WordAt(b, k)]
  {
  }

  lemma BytesOfFront(ws: seq<u16>, vs: seq<u16>, n: nat)
    requires n <= |ws| && n <= |vs| && ws[..n] == vs[..n]
    ensures BytesOf(ws)[..2 * n] == BytesOf(vs)[..2 * n]
  {
    forall k | 0 <= k < 2 * n
      ensures BytesOf(ws)[k] == BytesOf(vs)[k]
    {
      assert ws[k / 2] == ws[..n][k / 2] && vs[k / 2] == vs[..n][k / 2];
    }
  }

  /** Inside them the buffer holds the front of the queue. */
  lemma InsideIsQueue(buf: seq<byte>, b: Ring, copySize: nat, at: nat, lo: nat, hi: nat)
    requires Sound(b) && Peeked(b, copySize).Copied? && at + 2 * copySize <= |buf|
    requires lo <= hi <= UnreadBytes(b, copySize)
    ensures hi <= |BytesOf(Queue(b))|
    ensures BufferAfter(buf, b, copySize, at)[at + lo..at + hi] == BytesOf(Queue(b))[lo..hi]
  {
    hide Peeked, Queue, BytesOf, SM.Overlay;
    var n, words := Min(copySize, 2 * Available(b)), Peeked(b, copySize).words;
    PeekIsShort(b, copySize);
    PeekBeginsWithQueue(b, copySize);
    BytesOfFront(words, Queue(b), n);
    OverlayInside(buf, at, BytesOf(words), lo, hi);
    InFront(BytesOf(words), 2 * n, lo, hi);
    InFront(BytesOf(Queue(b)), 2 * n, lo, hi);
  }

  lemma InFront(s: seq<byte>, n: nat, lo: nat, hi: nat)
    requires lo <= hi <= n <= |s|
    ensures s[..n][lo..hi] == s[lo..hi]
  {
  }

  lemma OverlayInside(buf: seq<byte>, at: nat, data: seq<byte>, lo: nat, hi: nat)
    requires at + |data| <= |buf| && lo <= hi <= |data|
    ensures SM.Overlay(buf, at, data)[at + lo..at + hi] == data[lo..hi]
  {
  }

  /** A ring with the same samples to read; whatever else its memory holds. */
  ghost predicate SameUnread(b: Ring, b': Ring)
  {
    && Sound(b) && Sound(b') && b' == b.(mem := b'.mem) && |b'.mem| == |b.mem|
    && Queue(b') == Queue(b)
  }

  /** A stretch of the buffer after a read that comes out the same over every such ring and every earlier buffer: of all
      that could be there, it is what was captured and not yet read. */
  ghost predicate Determined(buf: seq<byte>, b: Ring, copySize: nat, at: nat, lo: nat, hi: nat)
    requires Sound(b) && Peeked(b, copySize).Copied? && at + 2 * copySize <= |buf| && lo <= hi && at + hi <= |buf|
  {
    forall buf', b' :: |buf'| == |buf| && SameUnread(b, b') ==>
      && Peeked(b', copySize).Copied?
      && BufferAfter(buf', b', copySize, at)[at + lo..at + hi] == BufferAfter(buf, b, copySize, at)[at + lo..at + hi]
  }

  /** Exactly the unread bytes are determined. */
  lemma DeterminedExactly(buf: seq<byte>, b: Ring, copySize: nat, at: nat, lo: nat, hi: nat)
    requires Sound(b) && Peeked(b, copySize).Copied? && at + 2 * copySize <= |buf| && copySize <= 2 * b.length
    requires lo < hi && at + hi <= |buf|
    ensures Determined(buf, b, copySize, at, lo, hi) <==> hi <= UnreadBytes(b, copySize)
  {
    hide Peeked, Queue, BytesOf, BufferAfter;
    if hi <= UnreadBytes(b, copySize) {
      forall buf', b' | |buf'| == |buf| && SameUnread(b, b')
        ensures Peeked(b', copySize).Copied?
        ensures BufferAfter(buf', b', copySize, at)[at + lo..at + hi]
             == BufferAfter(buf, b, copySize, at)[at + lo..at + hi]
      {
        SamePeeks(b, b', copySize);
        InsideIsQueue(buf, b, copySize, at, lo, hi);
        InsideIsQueue(buf', b', copySize, at, lo, hi);
      }
    } else {
      var buf', b' := Otherwise(buf, b, copySize, at, hi - 1);
      var r, r' := BufferAfter(buf, b, copySize, at), BufferAfter(buf', b', copySize, at);
      assert r[at + lo..at + hi][hi - 1 - lo] != r'[at + lo..at + hi][hi - 1 - lo];
    }
  }

  lemma SamePeeks(b: Ring, b': Ring, copySize: nat)
    requires SameUnread(b, b') && Peeked(b, copySize).Copied?
    ensures Peeked(b', copySize).Copied?
  {
    hide Queue;
  }

  /** Past them a byte could be another. */
  lemma Otherwise(buf: seq<byte>, b: Ring, copySize: nat, at: nat, k: nat) returns (buf': seq<byte>, b': Ring)
    requires Sound(b) && Peeked(b, copySize).Copied? && at + 2 * copySize <= |buf| && copySize <= 2 * b.length
    requires k >= UnreadBytes(b, copySize) && at + k < |buf|
    ensures |buf'| == |buf| && SameUnread(b, b') && Peeked(b', copySize).Copied?
    ensures BufferAfter(buf', b', copySize, at)[at + k] != BufferAfter(buf, b, copySize, at)[at + k]
  {
    hide Queue, Peeked, BytesOf;
    PeekIsShort(b, copySize);
    AvailableIsNatural(b);
    buf', b' := buf, b;
    var words := Peeked(b, copySize).words;
    if k >= 2 * |words| {
      buf' := buf[at + k := if buf[at + k] == 0 then 1 else 0];
    } else {
      var j := WordAt(b, k / 2);
      PeekedWord(b, copySize, k / 2);
      b' := b.(mem := b.mem[j := Changed(b.mem[j])]);
      OutsideQueue(b, k / 2, Changed(b.mem[j]));
      SamePeeks(b, b', copySize);
      PeekIsShort(b', copySize);
      PeekedWord(b', copySize, k / 2);
      OtherByte(words, Peeked(b', copySize).words, k);
    }
  }

  /** Another word, in both bytes. */
  function Changed(w: u16): u16 { (w % 0x100 + 1) % 0x100 + 0x100 * ((w / 0x100 + 1) % 0x100) }

  lemma OtherByte(ws: seq<u16>, vs: seq<u16>, k: nat)
    requires k < 2 * |ws| == 2 * |vs| && vs[k / 2] == Changed(ws[k / 2])
    ensures BytesOf(ws)[k] != BytesOf(vs)[k]
  {
  }

  /** The words past the queue, up to one lap, do not belong to it. */
  lemma OutsideQueue(b: Ring, k: nat, w: u16)
    requires Sound(b) && 2 * Available(b) <= k < 2 * b.length && 0 <= WordAt(b, k) < |b.mem|
    ensures SameUnread(b, b.(mem := b.mem[WordAt(b, k) := w]))
  {
  }
}
