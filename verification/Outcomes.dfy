/** What the code that a call ends with says of it. */
module Outcomes {
  import opened Words
  import opened SingleBuffer
  import opened Capture
  import opened FlowControl
  import opened Trails
  import opened Worlds
  import opened Waits
  import SM = SectorMachine
  import opened Branches
  import opened Evidence
  import opened DiscCalls
  import Provenance
  import RetryBound
  import Lockstep

  /** A read that is answered without data: the deck refused its last seek, or its last wait ended by a shock or by
      force stop, each exactly with its own code and still on record when it ends. */
  ghost predicate ReadRefused(world: World, c: SM.Request, m: SM.Machine, r: SM.ReadResult, t: Trail, v: Visit,
                              code: int,
                              tries: seq<Attempt>)
    requires v.begin <= v.end <= |t.events| && |t.states| == |t.events| + 1
  {
    && ReadBy(world, c, m, r, UpTo(t, v.begin), UpTo(t, v.end), v.time, v.done, tries)
    && r.Answer? && code == r.size && code in {-1, -7, -9}
    && var last := tries[|tries| - 1];
       && (code == -1 <==> last.sought && world(last.time).seekResult == -1)
       && (code == -7 ==> last.how.Shocked? && t.states[v.end].error == Shock)
       && (code == -9 ==> last.how.Forced? && t.states[v.end].forced)
  }

  /** The last input of the call is such a read, or a look that ends the search. */
  ghost predicate Explained(world: World, c: SM.Request, m: SM.Machine, xs: seq<SM.Input>, t: Trail, vs: seq<Visit>,
                            code: int)
    requires SM.WellShaped(m)
  {
    && |t.states| == |t.events| + 1 && xs != [] && |xs| == |vs| &&
    var n := |xs| - 1;
    var r, v := SM.Run(c, m, xs[..n]), vs[n];
    && v.begin <= v.look <= v.end <= |t.events|
    && if r.pc.TryRead? then exists tries :: ReadRefused(world, c, r, xs[n].read, t, v, code, tries)
       else EndsSearch(c, r, xs[n].look, code) && xs[n].look.forceStop == t.states[v.look].forced
  }

  lemma ReadExplains(world: World, c: SM.Request, m: SM.Machine, x: SM.Input, t: Trail, s: State, v: Visit, code: int)
    requires SM.WellShaped(m) && HonestStep(world, c, m, x, t, v) && m.pc.TryRead? && EndsAt(t, s)
    requires SM.ReadStep(c, m, x.read).pc == SM.Returned(code)
    ensures exists tries :: ReadRefused(world, c, m, x.read, t, v, code, tries)
  {
    hide Placed, Peeked, BytesOf, Only, ColdSeeks, StaleReport, Available, Answerable, WaitedEnough, SM.Overlay, U32;
    hide Attempts, TrailAfter, TimeAfter, SetsOut, WordsWanted;
    var tries :| ReadBy(world, c, m, x.read, UpTo(t, v.begin), UpTo(t, v.end), v.time, v.done, tries);
    assert ReadBy(world, c, m, x.read, UpTo(t, v.begin), UpTo(t, v.end), v.time, v.done, tries);
    LastTried(world, tries, WordsWanted(c, m) / 2, U32(c.start + m.used - 6), UpTo(t, v.end));
    assert ReadRefused(world, c, m, x.read, t, v, code, tries);
  }

  lemma LastTried(world: World, tries: seq<Attempt>, want: nat, address: u32, t: Trail)
    requires Attempts(world, tries, want, address) && t == TrailAfter(world, tries[|tries| - 1], address)
    ensures var last := tries[|tries| - 1];
            && (AnswerOf(world, last) < 0 && AnswerOf(world, last) != BUFFERING_TIME_OUT ==>
                  AnswerOf(world, last) in {-1, -7, -9})
            && (AnswerOf(world, last) == -1 <==> last.sought && world(last.time).seekResult == -1)
            && (AnswerOf(world, last) == -7 ==> last.how.Shocked? && ShockSeen(t))
            && (AnswerOf(world, last) == -9 ==> last.how.Forced? && ForceSeen(t))
  {
    hide LookedOn, WaitsFrom, StillWaiting, With;
    var _ := tries[|tries| - 1];
  }

  lemma LookExplains(world: World, c: SM.Request, m: SM.Machine, x: SM.Input, t: Trail, v: Visit, code: int)
    requires SM.WellShaped(m) && HonestStep(world, c, m, x, t, v) && m.pc.SearchLbn?
    requires SM.SearchStep(c, m, x.look).pc == SM.Returned(code)
    ensures EndsSearch(c, m, x.look, code) && x.look.forceStop == t.states[v.look].forced
  {
    hide SM.SearchStep, EndsSearch, Only, TakenBy, Looks, SyncSamples, Available, Opened;
    SearchEnds(c, m, x.look, code);
  }

  /** So every call that has begun to read, and returns, is explained by its last input. */
  lemma EveryCodeIsExplained(world: World, c: SM.Request, m: SM.Machine, xs: seq<SM.Input>, t: Trail, s: State,
                             vs: seq<Visit>, from: nat, code: int)
    requires IsCall(world, c, m, xs, t, s, vs, from) && SM.WellShaped(m) && SM.Run(c, m, xs).pc == SM.Returned(code)
    ensures Explained(world, c, m, xs, t, vs, code)
  {
    hide SM.Run, SM.ReadStep, SM.SearchStep, HonestStep, Provenance.Begins, RetryBound.Thrifty, Lockstep.InStep, Only;
    hide EndsSearch, ReadRefused;
    var n := |xs| - 1;
    ToldAt(world, c, m, xs, t, vs, n);
    HonestPlaces(world, c, SM.Run(c, m, xs[..n]), xs[n], t, vs[n]);
    assert xs[..n + 1] == xs;
    if SM.Run(c, m, xs[..n]).pc.TryRead? {
      ReadExplains(world, c, SM.Run(c, m, xs[..n]), xs[n], t, s, vs[n], code);
    } else {
      LookExplains(world, c, SM.Run(c, m, xs[..n]), xs[n], t, vs[n], code);
    }
  }
}
