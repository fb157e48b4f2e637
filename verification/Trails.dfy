/** The record the driver keeps of its run of the capture system, and what follows from the kinds of steps in a stretch
    of it. */
module Trails {
  import opened SingleBuffer
  import opened Capture
  import opened FlowControl
  import opened RingQueue

  /** Every state so far and the steps between them. */
  datatype Trail = Trail(states: seq<State>, events: seq<Event>)

  /** A run that has come to a state. */
  ghost predicate EndsAt(t: Trail, s: State)
  {
    Steps(t.states, t.events) && t.states[|t.events|] == s && Placed(s)
  }

  function Extended(t: Trail, s: State, e: Event): Trail
    requires Placed(s) && Allowed(s, e)
  {
    Trail(t.states + [Step(s, e)], t.events + [e])
  }

  ghost predicate Grown(a: Trail, b: Trail)
  {
    a.states <= b.states && a.events <= b.events
  }

  /** Outside: what happens while the reader looks elsewhere, or only sets the error status. Searching: that, and the
      reader's pointer moving on. Skipping: only as far as there are samples. Reading: without any moving on. */
  datatype Kind = Outside | Skipping | Searching | Reading

  predicate IsOf(kind: Kind, e: Event)
  {
    match kind
    case Outside => e.Interrupt? || e.ForceStop? || e.Report?
    case Skipping => e.Interrupt? || e.ForceStop? || e.Report? || e.Consume?
    case Searching => e.Interrupt? || e.ForceStop? || e.Report? || e.Consume? || e.Overtake?
    case Reading => !e.Consume? && !e.Overtake?
  }

  ghost predicate Only(kind: Kind, t: Trail, lo: int, hi: int)
  {
    0 <= lo <= hi <= |t.events| && forall i {:trigger t.events[i]} :: lo <= i < hi ==> IsOf(kind, t.events[i])
  }

  /** The disc is neither unmounted nor mounted. */
  ghost predicate Steady(t: Trail, lo: int, hi: int)
  {
    0 <= lo <= hi <= |t.events| && forall i {:trigger t.events[i]} :: lo <= i < hi ==> !t.events[i].ForceStop?
  }

  /** Every seek begins with capture off. */
  ghost predicate ColdSeeks(t: Trail, lo: int, hi: int)
  {
    && 0 <= lo <= hi <= |t.events| && |t.states| == |t.events| + 1
    && forall i {:trigger t.events[i]} :: lo <= i < hi ==> t.events[i].Reset? ==> !t.states[i].enabled
  }

  ghost predicate Quiet(t: Trail, lo: int, hi: int)
  {
    && 0 <= lo <= hi <= |t.events| && |t.states| == |t.events| + 1
    && forall i {:trigger t.events[i]} :: lo <= i < hi ==> QuietStep(t.states[i], t.events[i])
  }

  /** How many samples the reader has taken, or stepped over. */
  function Taken(events: seq<Event>): nat
  {
    if events == [] then 0
    else
      Taken(events[..|events| - 1]) + match events[|events| - 1]
        case Consume(n) => n
        case Overtake(n) => n
        case _ => 0
  }

  function TakenBy(t: Trail, i: int): nat
    requires 0 <= i <= |t.events|
  {
    Taken(t.events[..i])
  }

  // ----- growing

  lemma ExtendedEnds(t: Trail, s: State, e: Event)
    requires EndsAt(t, s) && Allowed(s, e)
    ensures EndsAt(Extended(t, s, e), Step(s, e)) && Grown(t, Extended(t, s, e))
    ensures Taken(Extended(t, s, e).events) == Taken(t.events) + match e
              case Consume(n) => n
              case Overtake(n) => n
              case _ => 0
  {
    StepsAppend(t.states, t.events, e);
    StepKeepsPlaced(s, e);
    assert (t.events + [e])[..|t.events|] == t.events;
  }

  lemma OnlyWithin(kind: Kind, t: Trail, lo: int, mid: int, hi: int)
    requires Only(kind, t, lo, mid) && Only(kind, t, mid, hi)
    ensures Only(kind, t, lo, hi)
  {
  }

  // ----- what a stretch of the driver's work has added

  ghost predicate Brings(kind: Kind, a: Trail, b: Trail)
  {
    Grown(a, b) && |b.states| == |b.events| + 1 && Only(kind, b, |a.events|, |b.events|)
  }

  /** Nothing but the passing of time. */
  ghost predicate Passes(a: Trail, b: Trail)
  {
    Brings(Outside, a, b) && Taken(b.events) == Taken(a.events)
  }

  /** A search that has taken so many samples. */
  ghost predicate Takes(a: Trail, b: Trail, took: int)
  {
    Brings(Searching, a, b) && Taken(b.events) == Taken(a.events) + took
  }

  /** A read; with cold seeks only, if so said. */
  ghost predicate Reads(a: Trail, b: Trail, cold: bool)
  {
    Brings(Reading, a, b) && (cold ==> ColdSeeks(b, |a.events|, |b.events|))
  }

  lemma Unmoved(t: Trail, s: State, cold: bool)
    requires EndsAt(t, s)
    ensures Passes(t, t) && Takes(t, t, 0) && Reads(t, t, cold)
  {
  }

  lemma BringsTwice(kind: Kind, a: Trail, b: Trail, c: Trail)
    requires Brings(kind, a, b) && Brings(kind, b, c)
    ensures Brings(kind, a, c)
  {
    GrownKeeps(b, c, |a.events|, |b.events|);
    OnlyWithin(kind, c, |a.events|, |b.events|, |c.events|);
  }

  lemma PassesTwice(a: Trail, b: Trail, c: Trail)
    requires Passes(a, b) && Passes(b, c)
    ensures Passes(a, c)
  {
    hide Brings;
    BringsTwice(Outside, a, b, c);
  }

  lemma TakesTwice(a: Trail, b: Trail, c: Trail, took: int, more: int)
    requires Takes(a, b, took) && Takes(b, c, more)
    ensures Takes(a, c, took + more)
  {
    hide Brings;
    BringsTwice(Searching, a, b, c);
  }

  lemma ReadsTwice(a: Trail, b: Trail, c: Trail, cold: bool, coldToo: bool)
    requires Reads(a, b, cold) && Reads(b, c, coldToo)
    ensures Reads(a, c, cold && coldToo)
  {
    BringsTwice(Reading, a, b, c);
    GrownKeeps(b, c, |a.events|, |b.events|);
  }

  /** Passing time is a search that takes nothing, and a read without a seek. */
  lemma PassesIs(a: Trail, b: Trail, cold: bool)
    requires Passes(a, b)
    ensures Takes(a, b, 0) && Reads(a, b, cold)
  {
  }

  lemma BringsOne(kind: Kind, t: Trail, s: State, e: Event)
    requires EndsAt(t, s) && Allowed(s, e) && IsOf(kind, e)
    ensures Brings(kind, t, Extended(t, s, e))
  {
  }

  lemma ColdOne(t: Trail, s: State, e: Event)
    requires EndsAt(t, s) && Allowed(s, e) && (e.Reset? ==> !s.enabled)
    ensures ColdSeeks(Extended(t, s, e), |t.events|, |t.events| + 1)
  {
  }

  lemma TakesBounds(a: Trail, b: Trail, took: int)
    requires Takes(a, b, took)
    ensures Grown(a, b) && |b.states| == |b.events| + 1 && Only(Searching, b, |a.events|, |b.events|)
    ensures TakenBy(b, |b.events|) == TakenBy(b, |a.events|) + took
  {
    assert b.events[..|b.events|] == b.events && b.events[..|a.events|] == a.events;
  }

  lemma OutsideIs(t: Trail, lo: int, hi: int)
    requires Only(Outside, t, lo, hi)
    ensures Only(Skipping, t, lo, hi) && Only(Searching, t, lo, hi) && Only(Reading, t, lo, hi)
  {
  }

  /** Skipping is quiet while the disc stays. */
  lemma SkippingIsQuiet(t: Trail, lo: int, hi: int)
    requires Only(Skipping, t, lo, hi) && Steady(t, lo, hi) && |t.states| == |t.events| + 1
    ensures Quiet(t, lo, hi) && Only(Searching, t, lo, hi)
  {
  }

  /** What was so of a stretch stays so. */
  lemma GrownKeeps(a: Trail, b: Trail, lo: int, hi: int)
    requires Grown(a, b) && 0 <= lo <= hi <= |a.events|
    ensures forall kind :: Only(kind, a, lo, hi) ==> Only(kind, b, lo, hi)
    ensures ColdSeeks(a, lo, hi) && |b.states| == |b.events| + 1 ==> ColdSeeks(b, lo, hi)
    ensures TakenBy(b, lo) == TakenBy(a, lo) && TakenBy(b, hi) == TakenBy(a, hi)
  {
    assert b.events[..lo] == a.events[..lo] && b.events[..hi] == a.events[..hi];
    forall kind | Only(kind, a, lo, hi)
      ensures Only(kind, b, lo, hi)
    {
      forall i | lo <= i < hi
        ensures IsOf(kind, b.events[i])
      {
        assert b.events[i] == a.events[i];
      }
    }
    if ColdSeeks(a, lo, hi) && |b.states| == |b.events| + 1 {
      forall i | lo <= i < hi && b.events[i].Reset?
        ensures !b.states[i].enabled
      {
        assert b.events[i] == a.events[i] && b.states[i] == a.states[i];
      }
    }
  }

  lemma TakenOne(t: Trail, i: int)
    requires 0 <= i < |t.events|
    ensures TakenBy(t, i + 1) == TakenBy(t, i) + match t.events[i]
              case Consume(n) => n
              case Overtake(n) => n
              case _ => 0
  {
    assert t.events[..i + 1][..i] == t.events[..i];
  }

  lemma {:induction false} TakenGrows(t: Trail, lo: int, hi: int)
    requires 0 <= lo <= hi <= |t.events|
    ensures TakenBy(t, lo) <= TakenBy(t, hi)
    ensures Only(Reading, t, lo, hi) ==> TakenBy(t, lo) == TakenBy(t, hi)
  {
    if lo < hi {
      TakenGrows(t, lo, hi - 1);
      TakenOne(t, hi - 1);
    }
  }

  // ----- calm stretches

  lemma WellRun(t: Trail, s: State, i: int)
    requires EndsAt(t, s) && 0 <= i <= |t.events|
    ensures |t.states| == |t.events| + 1 && Placed(t.states[i])
  {
    StaysPlaced(t.states, t.events, i);
  }

  /** A quiet stretch begun calm in data mode stays calm, and in the mode it is in. */
  lemma QuietKeepsCalm(t: Trail, s: State, lo: int, hi: int)
    requires EndsAt(t, s) && Quiet(t, lo, hi) && Calm(t.states[lo])
    ensures forall i | lo <= i <= hi :: Calm(t.states[i])
    ensures forall i | lo <= i <= hi :: t.states[i].dataCd == t.states[lo].dataCd
    ensures forall i | lo <= i <= hi :: t.states[i].forced == t.states[lo].forced
  {
    hide Calm;
    var ss, es := t.states[lo..hi + 1], t.events[lo..hi];
    StepsWithin(t.states, t.events, lo, hi);
    QuietPart(t, lo, hi);
    QuietSeeksAreGuarded(ss, es);
    forall i | lo <= i <= hi
      ensures Calm(t.states[i])
      ensures t.states[i].dataCd == t.states[lo].dataCd && t.states[i].forced == t.states[lo].forced
    {
      assert ss[i - lo] == t.states[i] && ss[i - lo] in ss;
      SeeksStayEmpty(ss, es, i - lo);
    }
  }

  lemma QuietPart(t: Trail, lo: int, hi: int)
    requires Quiet(t, lo, hi)
    ensures QuietSeeks(t.states[lo..hi + 1], t.events[lo..hi])
  {
    forall i | 0 <= i < hi - lo
      ensures QuietStep(t.states[lo..hi + 1][i], t.events[lo..hi][i])
    {
      assert t.events[lo..hi][i] == t.events[lo + i];
    }
  }

  /** Over a quiet stretch in data mode the ring goes on being the queue. */
  lemma QuietKeepsQueue(t: Trail, s: State, q: Fifo, lo: int, hi: int)
    requires EndsAt(t, s) && Quiet(t, lo, hi) && Calm(t.states[lo]) && t.states[lo].dataCd && Refines(t.states[lo], q)
    ensures Refines(t.states[hi], FifoAfter(q, t.events[lo..hi]))
  {
    hide Calm, Refines, FifoAfter;
    var ss, es := t.states[lo..hi + 1], t.events[lo..hi];
    StepsWithin(t.states, t.events, lo, hi);
    QuietPart(t, lo, hi);
    DataCdRingIsFifo(ss, es, q, hi - lo);
    assert es[..hi - lo] == es;
  }

  lemma QuietWithin(t: Trail, lo: int, mid: int, hi: int)
    requires Quiet(t, lo, mid) && Quiet(t, mid, hi)
    ensures Quiet(t, lo, hi)
  {
  }

  /** Reading is quiet, with cold seeks and the disc left in place. */
  lemma ReadingIsQuiet(t: Trail, lo: int, hi: int)
    requires Only(Reading, t, lo, hi) && Steady(t, lo, hi) && ColdSeeks(t, lo, hi)
    ensures Quiet(t, lo, hi)
  {
  }

  /** So is searching that takes no more than was there when it began: what is left is at least the difference. */
  lemma {:induction false} SearchingIsQuiet(t: Trail, s: State, lo: int, hi: int)
    requires EndsAt(t, s) && Only(Searching, t, lo, hi) && Steady(t, lo, hi)
    requires Calm(t.states[lo]) && t.states[lo].dataCd
    requires TakenBy(t, hi) - TakenBy(t, lo) <= Available(t.states[lo].ring)
    ensures Quiet(t, lo, hi) && Calm(t.states[hi]) && t.states[hi].dataCd
    ensures Available(t.states[hi].ring) + TakenBy(t, hi) - TakenBy(t, lo) >= Available(t.states[lo].ring)
    decreases hi - lo
  {
    hide Calm, Available, TakenBy;
    if lo < hi {
      TakenGrows(t, hi - 1, hi);
      SearchingIsQuiet(t, s, lo, hi - 1);
      TakenOne(t, hi - 1);
      StepAt(t.states, t.events, hi - 1);
      SearchesOn(t.states[hi - 1], t.events[hi - 1],
                 Available(t.states[lo].ring) - (TakenBy(t, hi - 1) - TakenBy(t, lo)));
      assert Quiet(t, hi - 1, hi);
      QuietWithin(t, lo, hi - 1, hi);
    }
  }

  /** One step of a search, with so much to spare. */
  lemma SearchesOn(s: State, e: Event, spare: int)
    requires Placed(s) && Allowed(s, e) && Calm(s) && s.dataCd && IsOf(Searching, e) && !e.ForceStop?
    requires spare <= Available(s.ring)
    requires match e
             case Consume(n) => n <= spare
             case Overtake(n) => n <= spare
             case _ => true
    ensures !e.Overtake? && Calm(Step(s, e)) && Step(s, e).dataCd
    ensures Available(Step(s, e).ring) >= spare - match e
              case Consume(n) => n
              case _ => 0
  {
    StepKeepsGuard(s, e);
    match e
    case Interrupt(block) => StoredAppends(s.ring, block);
    case Consume(n) => ReadDropsFront(s.ring, n);
    case _ =>
  }

  lemma {:induction false} SteadyKeepsMode(t: Trail, s: State, lo: int, hi: int)
    requires EndsAt(t, s) && Steady(t, lo, hi)
    ensures t.states[hi].forced == t.states[lo].forced && t.states[hi].dataCd == t.states[lo].dataCd
    decreases hi - lo
  {
    if lo < hi {
      SteadyKeepsMode(t, s, lo, hi - 1);
      StepAt(t.states, t.events, hi - 1);
      var _ := t.events[hi - 1];
    }
  }

  lemma FifoAfterOneMore(q: Fifo, events: seq<Event>, e: Event)
    ensures FifoAfter(q, events + [e]) == FifoStep(FifoAfter(q, events), e)
  {
    assert (events + [e])[..|events|] == events;
  }

  /** While it is only searched, the stream grows and is read on. */
  lemma {:induction false} SearchingReads(t: Trail, q: Fifo, lo: int, mid: int, hi: int)
    requires 0 <= lo <= mid && Only(Searching, t, mid, hi)
    ensures var a, b := FifoAfter(q, t.events[lo..mid]), FifoAfter(q, t.events[lo..hi]);
            a.stream <= b.stream && b.read == a.read + TakenBy(t, hi) - TakenBy(t, mid)
    decreases hi - mid
  {
    hide TakenBy, FifoAfter;
    if mid < hi {
      SearchingReads(t, q, lo, mid, hi - 1);
      TakenOne(t, hi - 1);
      assert t.events[lo..hi] == t.events[lo..hi - 1] + [t.events[hi - 1]];
      FifoAfterOneMore(q, t.events[lo..hi - 1], t.events[hi - 1]);
      var _ := t.events[hi - 1];
    }
  }

  /** A report of a full ring does not become stale in a search. */
  lemma {:induction false} SearchingLeavesReports(t: Trail, s: State, lo: int, hi: int)
    requires EndsAt(t, s) && Only(Searching, t, lo, hi) && !StaleReport(t.states[lo])
    ensures !StaleReport(t.states[hi])
    decreases hi - lo
  {
    if lo < hi {
      SearchingLeavesReports(t, s, lo, hi - 1);
      StepAt(t.states, t.events, hi - 1);
      var _ := t.events[hi - 1];
    }
  }
}
