/** What ends a wait for samples, look by look, and how the attempts of a read follow each other. */
module Waits {
  import opened Words
  import opened SingleBuffer
  import opened Capture
  import opened Trails
  import opened Worlds

  const SHOCK_DETECT := -7
  const BUFFERING_TIME_OUT := -8
  const CD_FORCE_STOP := -9

  /** How a wait for samples ends; Full: timed out with CD_BUF_FULL reported and only so many samples there. */
  datatype Waited = Enough | Shocked | Forced | Full(have: int) | TimedOut

  // ----- looks

  /** The record so many looks later, when the driver does nothing but look. */
  ghost function LookedOn(world: World, t: Trail, from: nat, looks: nat): Trail
  {
    if looks == 0 then t else Witnessed(LookedOn(world, t, from, looks - 1), world(from + looks - 1).happenings)
  }

  predicate Stands(t: Trail) { |t.states| == |t.events| + 1 }

  function Last(t: Trail): State
    requires Stands(t)
  {
    t.states[|t.events|]
  }

  predicate ShockSeen(t: Trail) { Stands(t) && Last(t).error == Shock }

  predicate ForceSeen(t: Trail) { Stands(t) && Last(t).forced }

  predicate FullSeen(t: Trail) { Stands(t) && Last(t).error == BufFull }

  predicate TooLittle(t: Trail, want: nat) { Stands(t) && Available(Last(t).ring) < want }

  /** Nothing has ended a wait in so many looks: at every other, beginning with how things stand, too little was there
      and no shock reported; at those in between force stop was not set. */
  ghost predicate StillWaiting(world: World, t: Trail, from: nat, want: nat, looks: nat)
  {
    forall k {:trigger LookedOn(world, t, from, k)} :: 0 <= k < looks ==>
      if k % 2 == 0 then TooLittle(LookedOn(world, t, from, k), want) && !ShockSeen(LookedOn(world, t, from, k))
      else !ForceSeen(LookedOn(world, t, from, k))
  }

  /** And this ends it: enough, a shock, a force stop, or the last of its rounds, which are 500 of two looks each. */
  ghost predicate EndsWait(world: World, t: Trail, from: nat, want: nat, looks: nat, how: Waited)
  {
    StillWaiting(world, t, from, want, looks) &&
    var now := LookedOn(world, t, from, looks);
    match how
    case Enough => looks % 2 == 0 && looks <= 1000 && !TooLittle(now, want)
    case Shocked => looks % 2 == 0 && looks <= 1000 && TooLittle(now, want) && ShockSeen(now)
    case Forced => looks % 2 == 1 && looks <= 1001 && ForceSeen(now)
    case Full(have) =>
      && looks == 1001 && !ForceSeen(now) && FullSeen(now) && 0 <= have
      && var before := LookedOn(world, t, from, looks - 1);
         Stands(before) && have == Available(Last(before).ring)
    case TimedOut => looks == 1001 && !ForceSeen(now) && !FullSeen(now)
  }

  lemma SeenAt(t: Trail, s: State, want: nat)
    requires EndsAt(t, s)
    ensures Stands(t) && Last(t) == s
    ensures ShockSeen(t) <==> s.error == Shock
    ensures ForceSeen(t) <==> s.forced
    ensures FullSeen(t) <==> s.error == BufFull
    ensures TooLittle(t, want) <==> Available(s.ring) < want
  {
    hide Available;
  }

  lemma NotYet(world: World, t: Trail, from: nat, want: nat)
    ensures LookedOn(world, t, from, 0) == t && StillWaiting(world, t, from, want, 0)
  {
  }

  /** One look that does not end it. */
  lemma WaitsOn(world: World, t: Trail, from: nat, want: nat, looks: nat, now: Trail, s: State)
    requires StillWaiting(world, t, from, want, looks) && now == LookedOn(world, t, from, looks) && EndsAt(now, s)
    requires if looks % 2 == 0 then Available(s.ring) < want && s.error != Shock else !s.forced
    ensures StillWaiting(world, t, from, want, looks + 1)
    ensures LookedOn(world, t, from, looks + 1) == Witnessed(now, world(from + looks).happenings)
  {
    hide TooLittle, ShockSeen, ForceSeen, Available, Witnessed;
    SeenAt(now, s, want);
  }

  /** One that does. */
  lemma EndsHere(world: World, t: Trail, from: nat, want: nat, looks: nat, now: Trail, s: State, how: Waited)
    requires StillWaiting(world, t, from, want, looks) && now == LookedOn(world, t, from, looks) && EndsAt(now, s)
    requires match how
             case Enough => looks % 2 == 0 && looks <= 2 * WAIT_COUNT && Available(s.ring) >= want
             case Shocked => looks % 2 == 0 && looks <= 2 * WAIT_COUNT && Available(s.ring) < want && s.error == Shock
             case Forced => looks % 2 == 1 && looks <= 2 * WAIT_COUNT + 1 && s.forced
             case Full(have) => looks == 2 * WAIT_COUNT + 1 && !s.forced && s.error == BufFull && 0 <= have
             case TimedOut => looks == 2 * WAIT_COUNT + 1 && !s.forced && s.error != BufFull
    requires how.Full? ==>
               exists s' :: EndsAt(LookedOn(world, t, from, looks - 1), s') && how.have == Available(s'.ring)
    ensures EndsWait(world, t, from, want, looks, how)
  {
    hide TooLittle, ShockSeen, ForceSeen, FullSeen, Available, LookedOn, StillWaiting;
    SeenAt(now, s, want);
    if how.Full? {
      var s' :| EndsAt(LookedOn(world, t, from, looks - 1), s') && how.have == Available(s'.ring);
      SeenAt(LookedOn(world, t, from, looks - 1), s', want);
    }
  }

  /** Enough there when it begins, it ends at once. */
  lemma EnoughEndsWait(world: World, t: Trail, s: State, from: nat, want: nat, looks: nat, how: Waited)
    requires EndsAt(t, s) && EndsWait(world, t, from, want, looks, how) && want <= Available(s.ring)
    ensures looks == 0 && how == Enough
  {
    SeenAt(t, s, want);
    assert EndsWait(world, t, from, want, 0, Enough);
    EndsOnce(world, t, from, want, looks, how, 0, Enough);
  }

  /** A wait that is fed in time ends with enough. */
  lemma FedEndsWait(world: World, t: Trail, s: State, from: nat, want: nat, looks: nat, how: Waited)
    requires EndsAt(t, s) && Fed(world, from, want, 0, s) && EndsWait(world, t, from, want, looks, how)
    ensures how == Enough
  {
    hide Fed, TooLittle, ShockSeen, ForceSeen, FullSeen, Available, LookedOn;
    var k := if looks <= 2 * WAIT_COUNT then looks else 2 * WAIT_COUNT;
    var s' := FedAt(world, t, s, from, want, k);
    SeenAt(LookedOn(world, t, from, k), s', want);
    FedIsClear(world, from, want, k, s');
  }

  lemma {:induction false} FedAt(world: World, t: Trail, s: State, from: nat, want: nat, looks: nat) returns (s': State)
    requires EndsAt(t, s) && Fed(world, from, want, 0, s) && looks <= 2 * WAIT_COUNT
    ensures EndsAt(LookedOn(world, t, from, looks), s') && Fed(world, from, want, looks, s')
  {
    hide Fed, Witnessed, Steps;
    s' := s;
    if looks > 0 {
      var s1 := FedAt(world, t, s, from, want, looks - 1);
      s' := LookFeeds(world, from, want, looks - 1, LookedOn(world, t, from, looks - 1), s1);
    }
  }

  /** Whether a wait is over by some look is the world's doing alone. */
  lemma EndsOnce(world: World, t: Trail, from: nat, want: nat, looks: nat, how: Waited, looks': nat, how': Waited)
    requires EndsWait(world, t, from, want, looks, how) && EndsWait(world, t, from, want, looks', how')
    ensures looks == looks' && how == how'
  {
    if looks < looks' {
      EndsFirst(world, t, from, want, looks, how, looks', how');
    } else if looks' < looks {
      EndsFirst(world, t, from, want, looks', how', looks, how);
    }
  }

  lemma EndsFirst(world: World, t: Trail, from: nat, want: nat, looks: nat, how: Waited, looks': nat, how': Waited)
    requires EndsWait(world, t, from, want, looks, how) && EndsWait(world, t, from, want, looks', how')
    ensures looks >= looks'
  {
    var _ := LookedOn(world, t, from, looks);
  }

  /** A shock reported when a wait begins with too little there ends it at once. */
  lemma ShockEndsWait(world: World, t: Trail, from: nat, want: nat, looks: nat, how: Waited)
    requires EndsWait(world, t, from, want, looks, how) && TooLittle(t, want) && ShockSeen(t)
    ensures looks == 0 && how == Shocked
  {
    assert EndsWait(world, t, from, want, 0, Shocked);
    EndsOnce(world, t, from, want, looks, how, 0, Shocked);
  }

  predicate NoMount(hs: seq<Happening>)
  {
    Mounted !in hs
  }

  lemma {:induction false} ForceStays(t: Trail, hs: seq<Happening>)
    requires ForceSeen(t) && NoMount(hs)
    ensures ForceSeen(Witnessed(t, hs))
    decreases |hs|
  {
    if hs != [] {
      ForceStays(t, hs[..|hs| - 1]);
      assert hs[|hs| - 1] in hs;
    }
  }

  /** Force stop on record at some look of a wait, with no mounting at the next, ends it by the next look. If till then
      there was too little it ends with that code, or because of a shock reported before. */
  lemma ForceEndsWait(world: World, t: Trail, from: nat, want: nat, looks: nat, how: Waited, k: nat)
    requires EndsWait(world, t, from, want, looks, how) && k <= 2 * WAIT_COUNT
    requires ForceSeen(LookedOn(world, t, from, k)) && NoMount(world(from + k).happenings)
    ensures looks <= k + 1
    ensures (forall j: nat :: j <= k + 1 ==> TooLittle(LookedOn(world, t, from, j), want)) ==>
              how.Forced? || (how.Shocked? && ShockSeen(LookedOn(world, t, from, looks)))
  {
    hide Witnessed;
    ForceStays(LookedOn(world, t, from, k), world(from + k).happenings);
    assert ForceSeen(LookedOn(world, t, from, k + 1));
  }

  // ----- attempts

  /** What the caller of a wait is told. */
  function CodeOf(how: Waited): int
  {
    match how
    case Enough => 1
    case Shocked => SHOCK_DETECT
    case Forced => CD_FORCE_STOP
    case Full(have) => have
    case TimedOut => BUFFERING_TIME_OUT
  }

  /** One attempt of CD_ReadData at having enough: the record and the time when it begins, whether it seeks, and how its
      wait ends after how many looks. */
  datatype Attempt = Attempt(t: Trail, time: nat, sought: bool, looks: nat, how: Waited)

  /** The record with a step of the driver's own. */
  ghost function With(t: Trail, e: Event): Trail
  {
    if Stands(t) && Placed(Last(t)) && Allowed(Last(t), e) then Extended(t, Last(t), e) else t
  }

  lemma WithIs(t: Trail, s: State, e: Event)
    requires EndsAt(t, s) && Allowed(s, e)
    ensures With(t, e) == Extended(t, s, e)
  {
  }

  /** The ring emptied and the deck sent to an address, up to its answer. */
  ghost function SentOff(world: World, t: Trail, time: nat, address: u32): Trail
  {
    Witnessed(With(t, Reset(address)), world(time).happenings)
  }

  predicate Refused(world: World, a: Attempt)
  {
    a.sought && world(a.time).seekResult == DECK_ERROR
  }

  /** Where its wait begins, and when. */
  ghost function WaitsFrom(world: World, a: Attempt, address: u32): Trail
  {
    if a.sought then With(SentOff(world, a.t, a.time, address), Enable) else a.t
  }

  function WaitTime(a: Attempt): nat { a.time + if a.sought then 1 else 0 }

  ghost predicate Tried(world: World, a: Attempt, want: nat, address: u32)
  {
    Refused(world, a) || EndsWait(world, WaitsFrom(world, a, address), WaitTime(a), want, a.looks, a.how)
  }

  /** The record after it: behind a seek that has brought enough no problem is left reported; an attempt that has
      timed out leaves the capture off, and without a seek an empty ring. */
  ghost function TrailAfter(world: World, a: Attempt, address: u32): Trail
  {
    if Refused(world, a) then SentOff(world, a.t, a.time, address)
    else
      var t := LookedOn(world, WaitsFrom(world, a, address), WaitTime(a), a.looks);
      match a.how
      case Enough => if a.sought then With(t, Report(NoProblem)) else t
      case TimedOut => With(With(if a.sought then t else With(t, Event.Drop), Report(MissSubq)), Disable)
      case _ => t
  }

  function TimeAfter(world: World, a: Attempt): nat
  {
    if Refused(world, a) then a.time + 1 else WaitTime(a) + a.looks
  }

  function AnswerOf(world: World, a: Attempt): int
  {
    if Refused(world, a) then DECK_ERROR else CodeOf(a.how)
  }

  ghost predicate Next(world: World, a: Attempt, b: Attempt, address: u32)
  {
    && b.sought && AnswerOf(world, a) == BUFFERING_TIME_OUT
    && b.t == TrailAfter(world, a, address) && b.time == TimeAfter(world, a)
  }

  /** Attempts of one read: each but the last has timed out, and each but the first seeks. */
  ghost predicate Attempts(world: World, tries: seq<Attempt>, want: nat, address: u32)
  {
    && tries != [] && (forall i {:trigger tries[i]} :: 0 <= i < |tries| ==> Tried(world, tries[i], want, address))
    && forall i {:trigger tries[i]} :: 1 <= i < |tries| ==> Next(world, tries[i - 1], tries[i], address)
  }

  /** So far every attempt has timed out, and this is where the next begins. */
  ghost predicate AllTimedOut(world: World, tries: seq<Attempt>, want: nat, address: u32, t: Trail, time: nat)
  {
    tries != [] ==>
      && Attempts(world, tries, want, address) && AnswerOf(world, tries[|tries| - 1]) == BUFFERING_TIME_OUT
      && t == TrailAfter(world, tries[|tries| - 1], address) && time == TimeAfter(world, tries[|tries| - 1])
  }

  lemma OneMoreAttempt(world: World, tries: seq<Attempt>, want: nat, address: u32, a: Attempt)
    requires AllTimedOut(world, tries, want, address, a.t, a.time) && Tried(world, a, want, address)
    requires tries != [] ==> a.sought
    ensures Attempts(world, tries + [a], want, address)
  {
    hide Tried, TrailAfter, TimeAfter, AnswerOf;
    var more, n := tries + [a], |tries|;
    forall i | 0 <= i < |more|
      ensures Tried(world, more[i], want, address)
    {
      assert more[i] == if i < n then tries[i] else a;
    }
    forall i | 1 <= i < |more|
      ensures Next(world, more[i - 1], more[i], address)
    {
      assert more[i - 1] == tries[i - 1];
      if i < n {
        assert more[i] == tries[i];
      } else {
        assert more[i] == a && Next(world, tries[n - 1], a, address);
      }
    }
  }
}
