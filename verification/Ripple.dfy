/**
 * The outer loop of the resource ripple:
 * whole write passes, then the agent trees, until the owned bytes stand still.
 */
module Ripple {

  const MAX_PASSES := 5

  /** What a child command leaves behind, and whether it succeeded. */
  datatype Ran<S> = Ran(state: S, ok: bool)

  /** The child commands over repositories; only their effect is known. */
  datatype Commands<!S> = Commands(
    bootstrapped: S -> bool,
    bootstrap: S -> Ran<S>,
    steps: seq<S -> Ran<S>>,
    syncTrees: S -> Ran<S>,
    check: S -> bool,
    digest: S -> string)

  datatype Outcome = Converged(passes: nat) | StepFailed | CheckFailed | DidNotConverge

  function RunSteps<S>(steps: seq<S -> Ran<S>>, s: S): Ran<S> {
    if steps == [] then Ran(s, true)
    else
      var first := steps[0](s);
      if first.ok then RunSteps(steps[1..], first.state) else first
  }

  /** The version-manifest schema is generated first when it is missing. */
  function WritePass<S>(c: Commands<S>, s: S): Ran<S> {
    if c.bootstrapped(s) then RunSteps(c.steps, s)
    else
      var first := c.bootstrap(s);
      if first.ok then RunSteps(c.steps, first.state) else first
  }

  /** The loop from its n-th pass on, entered with the digest of the state it is entered in. */
  function Passes<S>(c: Commands<S>, s: S, n: nat): (Outcome, S)
    decreases MAX_PASSES + 1 - n
  {
    if n > MAX_PASSES then (DidNotConverge, s)
    else
      var written := WritePass(c, s);
      if !written.ok then (StepFailed, written.state)
      else if c.digest(written.state) != c.digest(s) then Passes(c, written.state, n + 1)
      else
        var synced := c.syncTrees(written.state);
        if !synced.ok then (StepFailed, synced.state)
        else if c.digest(synced.state) != c.digest(s) then Passes(c, synced.state, n + 1)
        else if c.check(synced.state) then (Converged(n), synced.state)
        else (CheckFailed, synced.state)
  }

  class Repository<S> {
    var state: S

    constructor (s: S)
      ensures state == s
    {
      state := s;
    }

    method Run(command: S -> Ran<S>) returns (ok: bool)
      modifies this
      ensures Ran(state, ok) == command(old(state))
    {
      var ran := command(state);
      state := ran.state;
      ok := ran.ok;
    }

    method Write(c: Commands<S>) returns (ok: bool)
      modifies this
      ensures Ran(state, ok) == WritePass(c, old(state))
    {
      if !c.bootstrapped(state) {
        ok := Run(c.bootstrap);
        if !ok { return; }
      }
      ghost var from := state;
      var i := 0;
      while i < |c.steps|
        invariant 0 <= i <= |c.steps| && RunSteps(c.steps, from) == RunSteps(c.steps[i..], state)
      {
        assert c.steps[i..][1..] == c.steps[i + 1..];
        ok := Run(c.steps[i]);
        if !ok { return; }
        i := i + 1;
      }
      ok := true;
    }

    method WriteToFixedPoint(c: Commands<S>) returns (r: Outcome)
      modifies this
      ensures (r, state) == Passes(c, old(state), 1)
    {
      hide WritePass;
      var previous, pass := c.digest(state), 1;
      while pass <= MAX_PASSES
        invariant 1 <= pass <= MAX_PASSES + 1 && previous == c.digest(state)
        invariant Passes(c, old(state), 1) == Passes(c, state, pass)
      {
        var ok := Write(c);
        if !ok { return StepFailed; }
        var current := c.digest(state);
        if current == previous {
          ok := Run(c.syncTrees);
          if !ok { return StepFailed; }
          current := c.digest(state);
        }
        if current == previous {
          return if c.check(state) then Converged(pass) else CheckFailed;
        }
        previous, pass := current, pass + 1;
      }
      return DidNotConverge;
    }
  }

  /** The states between commands that all succeeded, each run in the state its predecessor left. */
  ghost predicate Succeeded<S(!new)>(steps: seq<S -> Ran<S>>, states: seq<S>) {
    |states| == |steps| + 1 && forall i :: 0 <= i < |steps| ==> steps[i](states[i]) == Ran(states[i + 1], true)
  }

  /** Steps succeed only if every one of them did, in order; they fail with the first that does, and stop there. */
  lemma {:induction false} EveryStepRan<S(!new)>(steps: seq<S -> Ran<S>>, s: S) returns (states: seq<S>)
    ensures states != [] && states[0] == s
    ensures RunSteps(steps, s).ok ==> Succeeded(steps, states) && states[|steps|] == RunSteps(steps, s).state
    ensures !RunSteps(steps, s).ok ==>
              && |states| <= |steps| && Succeeded(steps[..|states| - 1], states)
              && steps[|states| - 1](states[|states| - 1]) == RunSteps(steps, s)
  {
    states := [s];
    if steps != [] && steps[0](s).ok {
      var later := EveryStepRan(steps[1..], steps[0](s).state);
      states := [s] + later;
      assert forall i :: 0 < i < |steps| ==> steps[i] == steps[1..][i - 1];
    }
  }

  /** A pass succeeds only if the missing schema, if it was missing, and then every step was written in order. */
  lemma {:induction false} WholePass<S(!new)>(c: Commands<S>, s: S)
    requires WritePass(c, s).ok
    ensures exists states ::
              && Succeeded(if c.bootstrapped(s) then c.steps else [c.bootstrap] + c.steps, states)
              && states[0] == s && states[|states| - 1] == WritePass(c, s).state
  {
    if c.bootstrapped(s) {
      var states := EveryStepRan(c.steps, s);
    } else {
      var states := EveryStepRan(c.steps, c.bootstrap(s).state);
      assert Succeeded([c.bootstrap] + c.steps, [s] + states);
    }
  }

  /** A state that a whole pass and then the tree synchronization leave alone, as far as the digest tells. */
  ghost predicate Still<S>(c: Commands<S>, before: S, after: S) {
    var written := WritePass(c, before);
    && written.ok && c.digest(written.state) == c.digest(before)
    && c.syncTrees(written.state) == Ran(after, true) && c.digest(after) == c.digest(before) && c.check(after)
  }

  /** One turn of the loop that moves something: the pass itself, or else the trees rendered after it. */
  ghost predicate Moves<S>(c: Commands<S>, before: S, after: S) {
    var written := WritePass(c, before);
    && written.ok
    && if c.digest(written.state) != c.digest(before) then after == written.state
       else c.syncTrees(written.state) == Ran(after, true) && c.digest(after) != c.digest(before)
  }

  /** A turn that moves nothing ends as the check does; one in which a command fails ends there. */
  ghost predicate EndsIn<S>(c: Commands<S>, before: S, r: Outcome, after: S) {
    var written := WritePass(c, before);
    match r
    case Converged(_) => Still(c, before, after)
    case CheckFailed =>
      && written.ok && c.digest(written.state) == c.digest(before)
      && c.syncTrees(written.state) == Ran(after, true) && c.digest(after) == c.digest(before) && !c.check(after)
    case StepFailed =>
      || written == Ran(after, false)
      || (&& written.ok && c.digest(written.state) == c.digest(before)
          && c.syncTrees(written.state) == Ran(after, false))
    case DidNotConverge => after == before
  }

  /** The whole loop: turns that move something, and then its end; without one, when five turns are spent. */
  lemma {:induction false} LoopRuns<S(!new)>(c: Commands<S>, s: S, n: nat) returns (states: seq<S>)
    requires 1 <= n <= 6
    ensures states != [] && states[0] == s
    ensures forall i :: 0 < i < |states| ==> Moves(c, states[i - 1], states[i])
    ensures EndsIn(c, states[|states| - 1], Passes(c, s, n).0, Passes(c, s, n).1)
    ensures
      var spent := n + |states| - 1;
      && (Passes(c, s, n).0 == DidNotConverge <==> spent == 6)
      && (Passes(c, s, n).0.Converged? ==> Passes(c, s, n).0.passes == spent)
    decreases 6 - n
  {
    hide WritePass;
    states := [s];
    if n <= 5 {
      var written := WritePass(c, s);
      if written.ok {
        var next := written.state;
        if c.digest(next) == c.digest(s) { next := c.syncTrees(next).state; }
        if Moves(c, s, next) {
          var later := LoopRuns(c, next, n + 1);
          states := [s] + later;
        }
      }
    }
  }

  /** Success means the last pass moved nothing, the tree synchronization moved nothing, and the check then held. */
  lemma {:induction false} SuccessIsStill<S(!new)>(c: Commands<S>, s: S, n: nat)
    requires Passes(c, s, n).0.Converged?
    ensures exists before :: Still(c, before, Passes(c, s, n).1)
    ensures n <= Passes(c, s, n).0.passes <= MAX_PASSES
    decreases MAX_PASSES + 1 - n
  {
    var written := WritePass(c, s);
    if c.digest(written.state) != c.digest(s) {
      SuccessIsStill(c, written.state, n + 1);
    } else {
      var synced := c.syncTrees(written.state);
      if c.digest(synced.state) != c.digest(s) {
        SuccessIsStill(c, synced.state, n + 1);
      } else {
        assert Still(c, s, synced.state);
      }
    }
  }

  /**
   * Read through the owned bytes: when the digest has no collision on them,
   * both steps left every owned file as it was.
   */
  lemma {:induction false} SuccessKeepsOwned<S(!new), D>(c: Commands<S>, owned: S -> D, s: S)
    requires Passes(c, s, 1).0.Converged?
    requires forall x, y :: c.digest(x) == c.digest(y) ==> owned(x) == owned(y)
    ensures exists before :: Still(c, before, Passes(c, s, 1).1)
                             && owned(before) == owned(WritePass(c, before).state) == owned(Passes(c, s, 1).1)
  {
    SuccessIsStill(c, s, 1);
    var before :| Still(c, before, Passes(c, s, 1).1);
    assert c.digest(WritePass(c, before).state) == c.digest(before);
  }

  // ----- when it converges

  /** A repository split into what the passes write and the agent trees rendered from it. */
  datatype Split<C, A> = Split(core: C, trees: A)

  /**
   * Passes neither read nor write the trees, the trees are rendered from the core alone, every command succeeds, a
   * fixed core with its rendered trees passes the check, and no two repositories share a digest.
   */
  ghost predicate Separated<C(!new), A(!new)>(c: Commands<Split<C, A>>, pass: C -> C, render: C -> A) {
    && (forall core, trees :: WritePass(c, Split(core, trees)) == Ran(Split(pass(core), trees), true))
    && (forall core, trees :: c.syncTrees(Split(core, trees)) == Ran(Split(core, render(core)), true))
    && (forall core :: pass(core) == core ==> c.check(Split(core, render(core))))
    && forall x, y :: c.digest(x) == c.digest(y) ==> x == y
  }

  function Iterate<C>(pass: C -> C, k: nat, core: C): C {
    if k == 0 then core else Iterate(pass, k - 1, pass(core))
  }

  /** k is the number of passes that still change something. */
  ghost predicate StabilizesAfter<C(!new)>(pass: C -> C, core: C, k: nat) {
    && pass(Iterate(pass, k, core)) == Iterate(pass, k, core)
    && forall j: nat :: j < k ==> pass(Iterate(pass, j, core)) != Iterate(pass, j, core)
  }

  lemma {:induction false} StabilizesLater<C(!new)>(pass: C -> C, core: C, k: nat)
    requires k > 0 && StabilizesAfter(pass, core, k)
    ensures pass(core) != core && StabilizesAfter(pass, pass(core), k - 1)
  {
    assert Iterate(pass, 0, core) == core;
    assert Iterate(pass, k, core) == Iterate(pass, k - 1, pass(core));
    forall j: nat | j < k - 1 ensures pass(Iterate(pass, j, pass(core))) != Iterate(pass, j, pass(core)) {
      assert Iterate(pass, j + 1, core) == Iterate(pass, j, pass(core));
    }
  }

  /** One pass finds the fixed core; another is needed when the trees it renders are new. */
  function Needed<C, A(==)>(pass: C -> C, render: C -> A, s: Split<C, A>, k: nat): nat {
    if s.trees == render(Iterate(pass, k, s.core)) then k + 1 else k + 2
  }

  /** The loop succeeds exactly when the passes it needs are among those it is allowed, and in just so many. */
  lemma {:induction false} ConvergesInNeeded<C(!new), A(!new)>(c: Commands<Split<C, A>>, pass: C -> C, render: C -> A,
                                                             s: Split<C, A>, k: nat, n: nat)
    requires Separated(c, pass, render) && StabilizesAfter(pass, s.core, k) && 1 <= n <= MAX_PASSES
    ensures
      var needed, fixed := Needed(pass, render, s, k), Iterate(pass, k, s.core);
      if n + needed - 1 <= MAX_PASSES then Passes(c, s, n) == (Converged(n + needed - 1), Split(fixed, render(fixed)))
      else Passes(c, s, n).0 == DidNotConverge
    decreases MAX_PASSES - n
  {
    hide WritePass;
    var s0 := Split(s.core, s.trees);
    assert WritePass(c, s0) == Ran(Split(pass(s.core), s.trees), true);
    if k > 0 {
      StabilizesLater(pass, s.core, k);
      var after := Split(pass(s.core), s.trees);
      assert c.digest(after) != c.digest(s);
      assert Passes(c, s, n) == Passes(c, after, n + 1);
      if n < MAX_PASSES { ConvergesInNeeded(c, pass, render, after, k - 1, n + 1); }
    } else {
      var after := Split(s.core, render(s.core));
      assert c.syncTrees(s0) == Ran(after, true);
      if s.trees != render(s.core) {
        assert c.digest(after) != c.digest(s);
        assert Passes(c, s, n) == Passes(c, after, n + 1);
        if n < MAX_PASSES { ConvergesInNeeded(c, pass, render, after, 0, n + 1); }
      }
    }
  }

  /** Passes that keep changing something for as long as the loop runs never count as converged. */
  lemma {:induction false} NeverStable<C(!new), A(!new)>(c: Commands<Split<C, A>>, pass: C -> C, render: C -> A,
                                                       s: Split<C, A>, n: nat)
    requires Separated(c, pass, render)
    requires forall j: nat :: j + n <= MAX_PASSES ==> pass(Iterate(pass, j, s.core)) != Iterate(pass, j, s.core)
    ensures Passes(c, s, n).0 == DidNotConverge
    decreases MAX_PASSES + 1 - n
  {
    hide WritePass;
    if n <= MAX_PASSES {
      var after := Split(pass(s.core), s.trees);
      assert WritePass(c, Split(s.core, s.trees)) == Ran(after, true);
      assert Iterate(pass, 0, s.core) == s.core;
      assert c.digest(after) != c.digest(s);
      forall j: nat | j + (n + 1) <= MAX_PASSES
        ensures pass(Iterate(pass, j, after.core)) != Iterate(pass, j, after.core)
      {
        assert Iterate(pass, j + 1, s.core) == Iterate(pass, j, after.core);
      }
      NeverStable(c, pass, render, after, n + 1);
    }
  }
}
