/** Runs of a state machine: the state reached and the log collected along the way. */
module Runs {
  datatype Trail<S, L> = Trail(state: S, log: seq<L>)

  function Run<S, E, L>(step: (S, E) -> Trail<S, L>, s: S, events: seq<E>): Trail<S, L>
    decreases |events|
  {
    if events == [] then Trail(s, []) else
    var first := step(s, events[0]);
    var rest := Run(step, first.state, events[1..]);
    Trail(rest.state, first.log + rest.log)
  }

  lemma RunOne<S, E, L>(step: (S, E) -> Trail<S, L>, s: S, e: E)
    ensures Run(step, s, [e]) == step(s, e)
  {
    assert [e][1..] == [];
  }

  /** Running two event sequences in a row is running their concatenation. */
  lemma {:induction false} RunSplit<S, E, L>(step: (S, E) -> Trail<S, L>, s: S, a: seq<E>, b: seq<E>)
    ensures var t := Run(step, s, a);
      Run(step, s, a + b) == Trail(Run(step, t.state, b).state, t.log + Run(step, t.state, b).log)
    decreases |a|
  {
    if a == [] {
      assert a + b == b;
    } else {
      var first := step(s, a[0]);
      assert (a + b)[0] == a[0] && (a + b)[1..] == a[1..] + b;
      RunSplit(step, first.state, a[1..], b);
    }
  }

  lemma RunSnoc<S, E, L>(step: (S, E) -> Trail<S, L>, s: S, events: seq<E>, i: nat)
    requires i < |events|
    ensures var t := Run(step, s, events[..i]);
      var u := step(t.state, events[i]);
      Run(step, s, events[..i + 1]) == Trail(u.state, t.log + u.log)
  {
    assert events[..i + 1] == events[..i] + [events[i]];
    RunSplit(step, s, events[..i], [events[i]]);
    RunOne(step, Run(step, s, events[..i]).state, events[i]);
  }

  /** A run cut at its n-th event. */
  lemma {:induction false} RunAround<S, E, L>(step: (S, E) -> Trail<S, L>, s: S, events: seq<E>, n: nat)
    requires n < |events|
    ensures var before := Run(step, s, events[..n]);
      var at := step(before.state, events[n]);
      var after := Run(step, at.state, events[n + 1..]);
      Run(step, s, events) == Trail(after.state, before.log + at.log + after.log)
  {
    assert events == events[..n + 1] + events[n + 1..];
    RunSnoc(step, s, events, n);
    RunSplit(step, s, events[..n + 1], events[n + 1..]);
  }

  /** The event that wrote a given log entry, with the run before and after it. */
  lemma {:induction false} Writer<S, E, L>(step: (S, E) -> Trail<S, L>, s: S, events: seq<E>, i: nat)
    returns (n: nat, before: Trail<S, L>, at: Trail<S, L>, after: Trail<S, L>)
    requires i < |Run(step, s, events).log|
    ensures n < |events|
    ensures before == Run(step, s, events[..n])
    ensures at == step(before.state, events[n])
    ensures after == Run(step, at.state, events[n + 1..])
    ensures Run(step, s, events).log == before.log + at.log + after.log
    ensures |before.log| <= i < |before.log| + |at.log|
  {
    n := WriterIndex(step, s, events, i);
    RunSnoc(step, s, events, n);
    before := Run(step, s, events[..n]);
    at := step(before.state, events[n]);
    after := Run(step, at.state, events[n + 1..]);
    RunAround(step, s, events, n);
  }

  lemma {:induction false} WriterIndex<S, E, L>(step: (S, E) -> Trail<S, L>, s: S, events: seq<E>, i: nat)
    returns (n: nat)
    requires i < |Run(step, s, events).log|
    ensures n < |events| && |Run(step, s, events[..n]).log| <= i < |Run(step, s, events[..n + 1]).log|
    decreases |events|
  {
    var m := |events| - 1;
    assert events[..m + 1] == events;
    if |Run(step, s, events[..m]).log| <= i {
      n := m;
    } else {
      n := WriterIndex(step, s, events[..m], i);
      assert events[..m][..n] == events[..n] && events[..m][..n + 1] == events[..n + 1];
    }
  }

  // ---- Deterministic iteration -------------------------------------------------------------------

  function Iterate<S>(step: S -> S, s: S, n: nat): S {
    if n == 0 then s else step(Iterate(step, s, n - 1))
  }

  lemma {:induction false} IterateShift<S>(step: S -> S, s: S, n: nat)
    ensures Iterate(step, step(s), n) == Iterate(step, s, n + 1)
  {
    if n > 0 {
      IterateShift(step, s, n - 1);
    }
  }

  /** If time advances and stays below the limit as long as `good` states are not done, a done state is reached. */
  lemma {:induction false} ReachDone<S(!new)>(step: S -> S, good: S -> bool, done: S -> bool, time: S -> int,
                                       limit: int, s: S)
    returns (n: nat)
    requires good(s)
    requires forall x :: good(x) ==> time(x) < limit
    requires forall x :: good(x) && !done(x) ==> good(step(x)) && time(x) < time(step(x))
    ensures forall k :: 0 <= k <= n ==> good(Iterate(step, s, k))
    ensures forall k :: 0 <= k < n ==> !done(Iterate(step, s, k))
    ensures done(Iterate(step, s, n))
  {
    var x := s;
    n := 0;
    while !done(x)
      invariant x == Iterate(step, s, n) && good(x)
      invariant forall k :: 0 <= k <= n ==> good(Iterate(step, s, k))
      invariant forall k :: 0 <= k < n ==> !done(Iterate(step, s, k))
      decreases limit - time(x)
    {
      x := step(x);
      n := n + 1;
    }
  }
}
