/** Runs of a machine given by its step function, which answers `None` for an event
    that cannot happen. */
module Machine {
  import opened Bytes

  predicate CanRun<S, E>(step: (S, E) -> Option<S>, s: S, events: seq<E>)
    decreases |events|
  {
    events != [] ==> step(s, events[0]).Some? && CanRun(step, step(s, events[0]).value, events[1..])
  }

  function Run<S, E>(step: (S, E) -> Option<S>, s: S, events: seq<E>): S
    requires CanRun(step, s, events)
    decreases |events|
  {
    if events == [] then s else Run(step, step(s, events[0]).value, events[1..])
  }

  lemma RunNothing<S, E>(step: (S, E) -> Option<S>, s: S)
    ensures CanRun(step, s, []) && Run(step, s, []) == s
  {
  }

  lemma {:induction false} RunConcat<S, E>(step: (S, E) -> Option<S>, s: S, a: seq<E>, b: seq<E>)
    requires CanRun(step, s, a) && CanRun(step, Run(step, s, a), b)
    ensures CanRun(step, s, a + b) && Run(step, s, a + b) == Run(step, Run(step, s, a), b)
    decreases |a|
  {
    if a == [] {
      assert a + b == b;
    } else {
      assert (a + b)[0] == a[0] && (a + b)[1..] == a[1..] + b;
      RunConcat(step, step(s, a[0]).value, a[1..], b);
    }
  }

  lemma RunThen<S, E>(step: (S, E) -> Option<S>, s: S, events: seq<E>, e: E)
    requires CanRun(step, s, events) && step(Run(step, s, events), e).Some?
    ensures CanRun(step, s, events + [e])
    ensures Run(step, s, events + [e]) == step(Run(step, s, events), e).value
  {
    RunNothing(step, step(Run(step, s, events), e).value);
    assert [e][1..] == [];
    RunConcat(step, s, events, [e]);
  }

  // One more step of a given run.
  lemma RunTo<S, E>(step: (S, E) -> Option<S>, s: S, run: seq<E>, k: nat)
    requires k < |run| && CanRun(step, s, run[..k]) && step(Run(step, s, run[..k]), run[k]).Some?
    ensures CanRun(step, s, run[..k + 1])
    ensures Run(step, s, run[..k + 1]) == step(Run(step, s, run[..k]), run[k]).value
  {
    RunThen(step, s, run[..k], run[k]);
    assert run[..k + 1] == run[..k] + [run[k]];
  }

  // The events that are possible in their turn, one after the other.
  function Taken<S, E>(step: (S, E) -> Option<S>, s: S, events: seq<E>): (taken: seq<E>)
    ensures CanRun(step, s, taken)
  {
    if events == [] then []
    else
      var before, last := Taken(step, s, events[..|events| - 1]), events[|events| - 1];
      if step(Run(step, s, before), last).Some? then
        RunThen(step, s, before, last);
        before + [last]
      else before
  }

  lemma TakenNone<S, E>(step: (S, E) -> Option<S>, s: S)
    ensures Taken(step, s, []) == []
  {
  }

  // An event that cannot happen changes nothing.
  lemma TakenThen<S, E>(step: (S, E) -> Option<S>, s: S, events: seq<E>, k: nat)
    requires k < |events|
    ensures var before, e := Taken(step, s, events[..k]), events[k];
            var now := step(Run(step, s, before), e);
            && Taken(step, s, events[..k + 1]) == before + (if now.Some? then [e] else [])
            && Run(step, s, Taken(step, s, events[..k + 1])) == if now.Some? then now.value else Run(step, s, before)
  {
    var before, e := Taken(step, s, events[..k]), events[k];
    assert events[..k + 1][..k] == events[..k] && before + [] == before;
    if step(Run(step, s, before), e).Some? {
      RunThen(step, s, before, e);
    }
  }
}
