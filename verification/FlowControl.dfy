/** Flow control: the interrupt stops the capture while one more block still fits. */
module FlowControl {
  import opened SingleBuffer
  import opened Capture

  /** Capture is on in data mode only while one more block leaves the ring short of full. */
  predicate Guarded(s: State)
  {
    s.enabled && s.dataCd ==> Space(s.ring) > BLOCK_SAMPLES
  }

  /** What a caller would have to check before a step that does not look at the ring itself: room for more than a
      block when capture is switched on in data mode, when a disc is mounted with capture on, and, for a reader that
      overtakes the writer, behind where it comes to stand. */
  predicate Checked(s: State, e: Event)
  {
    match e
    case Enable => s.dataCd ==> Space(s.ring) > BLOCK_SAMPLES
    case ForceStop(on) => !on && s.enabled ==> Space(s.ring) > BLOCK_SAMPLES
    case Overtake(n) => s.enabled && s.dataCd ==> n - Available(s.ring) > BLOCK_SAMPLES + 4
    case _ => true
  }

  /** Any other step keeps the guard: an interrupt that would break it stops the capture. */
  lemma StepKeepsGuard(s: State, e: Event)
    requires Placed(s) && Allowed(s, e) && Guarded(s)
    ensures Guarded(Step(s, e)) <==> Checked(s, e)
  {
    match e
    case Consume(n) => ReadDropsFront(s.ring, n);
    case Overtake(n) => OvertakenRoom(s.ring, n);
    case _ =>
  }

  ghost predicate AllChecked(states: seq<State>, events: seq<Event>)
    requires |states| == |events| + 1
  {
    forall i {:trigger events[i]} :: 0 <= i < |events| ==> Checked(states[i], events[i])
  }

  /** A reader ahead of the writer has all but that distance before it. */
  lemma OvertakenRoom(b: Ring, n: nat)
    requires Sound(b) && Available(b) < n <= b.length
    ensures Space(AfterRead(b, n)) == n - Available(b) - 4
  {
  }

  /** Exactly when flow control works: over any stretch of a run that begins guarded, the guard holds throughout if and
      only if every step is checked. */
  lemma FlowControl(states: seq<State>, events: seq<Event>)
    requires Steps(states, events) && Guarded(states[0])
    ensures (forall s | s in states :: Guarded(s)) <==> AllChecked(states, events)
  {
    if AllChecked(states, events) {
      forall i | 0 <= i < |states|
        ensures Guarded(states[i])
      {
        GuardedUpTo(states, events, i);
      }
    } else {
      var i :| 0 <= i < |events| && !Checked(states[i], events[i]);
      StepAt(states, events, i);
      if Guarded(states[i]) { StepKeepsGuard(states[i], events[i]); }
      assert states[i] in states && states[i + 1] in states;
    }
  }

  lemma {:induction false} GuardedUpTo(states: seq<State>, events: seq<Event>, i: nat)
    requires Steps(states, events) && Guarded(states[0]) && i < |states|
    requires AllChecked(states, events)
    ensures Guarded(states[i])
  {
    hide Guarded, Checked, Step, Placed;
    if i > 0 {
      GuardedUpTo(states, events, i - 1);
      StepAt(states, events, i - 1);
      StepKeepsGuard(states[i - 1], events[i - 1]);
    }
  }

  /** The caller's side of it: the disc stays, the reader takes only what is there, and every seek begins with capture
      off. */
  predicate QuietStep(s: State, e: Event)
  {
    !e.ForceStop? && !e.Overtake? && (e.Reset? ==> !s.enabled)
  }

  ghost predicate QuietSeeks(states: seq<State>, events: seq<Event>)
    requires |states| == |events| + 1
  {
    forall i {:trigger events[i]} :: 0 <= i < |events| ==> QuietStep(states[i], events[i])
  }

  /** Guarded, and with nothing coming in while a seek is under way. */
  predicate Calm(s: State)
  {
    Guarded(s) && (s.phase == Seeking ==> !s.enabled && s.ring.readPtr == s.ring.writePtr)
  }

  /** CD_BUF_FULL is still reported although capture has been switched on since. */
  predicate StaleReport(s: State)
  {
    s.enabled && s.error == BufFull
  }

  lemma {:induction false} SeeksStayEmpty(states: seq<State>, events: seq<Event>, i: nat)
    requires Steps(states, events) && QuietSeeks(states, events) && Calm(states[0]) && i < |states|
    ensures states[i].phase == Seeking ==> !states[i].enabled && states[i].ring.readPtr == states[i].ring.writePtr
    ensures states[i].dataCd == states[0].dataCd && states[i].forced == states[0].forced
  {
    if i > 0 {
      SeeksStayEmpty(states, events, i - 1);
      StepAt(states, events, i - 1);
    }
  }

  /** In such a run capture is never on without room for another block, so no interrupt overwrites an unread sample or
      makes a full ring look empty. */
  lemma QuietSeeksAreGuarded(states: seq<State>, events: seq<Event>)
    requires Steps(states, events) && QuietSeeks(states, events) && Calm(states[0])
    ensures forall s | s in states :: Calm(s)
  {
    forall i | 0 <= i < |events|
      ensures Checked(states[i], events[i])
    {
      SeeksStayEmpty(states, events, i);
      StepAt(states, events, i);
    }
    FlowControl(states, events);
    forall i | 0 <= i < |states|
      ensures Calm(states[i])
    {
      SeeksStayEmpty(states, events, i);
      assert states[i] in states;
    }
  }
}
