/**
 * The two machines declared alongside the environment: `UnitReward`, one
 * state that pays 1 on every step forever, and `Chain(n)`, a line of `n`
 * states that pays 1 on entering its last, terminal state.
 */
module FsmMachines {
  import opened FsmTable
  import opened FsmEnv

  /** Why a machine cannot be declared. */
  datatype MachineError = TooFewStates // `Chain(n)` asserts `n >= 2`

  /** `UnitReward`: the single non-terminal state 'start', with no observation, looping to itself for reward 1. */
  function UnitRewardStates(): seq<(string, StateDecl<string>)> {
    [("start", StateDecl(false, [], [("start", 1.0)]))]
  }

  /** The tables `UnitReward` resolves to. */
  function UnitRewardTable(): Table {
    Table(0, 1, [false], [[]], [[0]], [[1.0]])
  }

  /** `UnitReward` builds: one state, one action, and an empty observation space. */
  lemma UnitRewardBuilds()
    ensures Build(UnitRewardStates()) == Ok(UnitRewardTable())
    ensures UnitRewardTable().WellFormed()
    ensures UnitRewardTable().ActionSpace() == MultiDiscrete(1, 1)
    ensures UnitRewardTable().ObservationSpace() == MultiEmpty
  {
    var decls := UnitRewardStates();
    assert Names(decls) == ["start"];
    assert AllTargetsDeclared(decls);
    BuildSucceedsIff(decls);
    var t := Build(decls).value;
    assert |t.trans| == 1 && |t.trans[0]| == 1;
    assert t.trans[0][0] == 0;
    assert t.trans[0] == [0];
    assert t.trans == [[0]];
    assert t.reward[0] == Rewards(decls[0].1.arcs) == [1.0];
    assert t.reward == [[1.0]];
    assert t.obs == [[]] && t.term == [false];
  }

  /** The observation of state `i` of `Chain(n)`, with the division binding tighter than the subtraction. */
  function ChainObs(n: nat, i: nat): real
    requires 2 <= n
  {
    if i < n - 2 then i as real / n as real
    else if i == n - 2 then n as real - 2.0 / n as real
    else n as real - 1.0 / n as real
  }

  /** State `i` of `Chain(n)`: only state n-1 is terminal and only the move from n-2 to n-1 pays. */
  function ChainState(n: nat, i: nat): StateDecl<int>
    requires 2 <= n && i < n
  {
    if i < n - 2 then StateDecl(false, [ChainObs(n, i)], [(i + 1, 0.0)])
    else if i == n - 2 then StateDecl(false, [ChainObs(n, i)], [(n - 1, 1.0)])
    else StateDecl(true, [ChainObs(n, i)], [(n - 1, 0.0)])
  }

  /** The mapping `Chain(n)` declares: states 0 to n-1, in that order. */
  function ChainDecls(n: nat): seq<(int, StateDecl<int>)>
    requires 2 <= n
  {
    seq(n, i requires 0 <= i < n => (i, ChainState(n, i)))
  }

  /** Fills the mapping of `Chain(n)` state by state; fewer than two states are refused. */
  method Chain(n: int) returns (r: Result<seq<(int, StateDecl<int>)>, MachineError>)
    ensures r.Err? <==> n < 2
    ensures r.Ok? ==> r.value == ChainDecls(n)
  {
    if n < 2 {
      return Err(TooFewStates);
    }
    var states: seq<(int, StateDecl<int>)> := [];
    for i := 0 to n - 2
      invariant states == ChainDecls(n)[..i]
    {
      states := states + [(i, StateDecl(false, [i as real / n as real], [(i + 1, 0.0)]))];
    }
    if n > 1 {
      states := states + [(n - 2, StateDecl(false, [n as real - 2.0 / n as real], [(n - 1, 1.0)]))];
    }
    states := states + [(n - 1, StateDecl(true, [n as real - 1.0 / n as real], [(n - 1, 0.0)]))];
    r := Ok(states);
  }

  /**
   * The tables `Chain(n)` resolves to: state i moves to i+1, except the last,
   * which stays. They are well formed, with n states, one action and one
   * observation value per state.
   */
  function ChainTable(n: nat): (t: Table)
    requires 2 <= n
    ensures t.WellFormed()
    ensures t.NumStates() == n && t.nActions == 1
    ensures t.ObservationSpace() == MultiVector(1, 1)
  {
    Table(1, 1,
      seq(n, i => i == n - 1),
      seq(n, i requires 0 <= i < n => [ChainObs(n, i)]),
      seq(n, i => [if i < n - 1 then i + 1 else n - 1]),
      seq(n, i => [if i == n - 2 then 1.0 else 0.0]))
  }

  lemma ChainNames(n: nat)
    requires 2 <= n
    ensures Names(ChainDecls(n)) == seq(n, i => i)
    ensures Distinct(Names(ChainDecls(n)))
  {
  }

  /** Every arc of `Chain(n)` targets a declared state. */
  lemma ChainTargetsDeclared(n: nat)
    requires 2 <= n
    ensures AllTargetsDeclared(ChainDecls(n))
  {
    var decls := ChainDecls(n);
    ChainNames(n);
    forall i, j | 0 <= i < n && 0 <= j < |decls[i].1.arcs| ensures decls[i].1.arcs[j].0 in Names(decls) {
      var k := decls[i].1.arcs[j].0;
      assert 0 <= k < n && Names(decls)[k] == k;
    }
  }

  /** `Chain(n)` builds, and the tables it resolves to are `ChainTable(n)`. */
  lemma ChainBuilds(n: nat)
    requires 2 <= n
    ensures Distinct(Names(ChainDecls(n)))
    ensures Build(ChainDecls(n)) == Ok(ChainTable(n))
  {
    var decls := ChainDecls(n);
    ChainNames(n);
    ChainTargetsDeclared(n);
    BuildSucceedsIff(decls);
    var t := Build(decls).value;
    ChainTransResolved(n, t);
    ChainRowsResolved(n, t);
  }

  /** Any tables holding the flags, observations and rewards `Chain(n)` declares, row by row, hold those of `ChainTable(n)`. */
  lemma ChainRowsResolved(n: nat, t: Table)
    requires 2 <= n && |t.term| == |t.obs| == |t.reward| == n
    requires forall i :: 0 <= i < n ==>
      && t.term[i] == ChainDecls(n)[i].1.terminal
      && t.obs[i] == ChainDecls(n)[i].1.obs
      && t.reward[i] == Rewards(ChainDecls(n)[i].1.arcs)
    ensures t.term == ChainTable(n).term && t.obs == ChainTable(n).obs && t.reward == ChainTable(n).reward
  {
    var c := ChainTable(n);
    forall i | 0 <= i < n ensures t.reward[i] == c.reward[i] {
      assert t.reward[i] == Rewards(ChainDecls(n)[i].1.arcs);
    }
  }

  /** Any next-state table that names the declared targets of `Chain(n)` is the one of `ChainTable(n)`. */
  lemma ChainTransResolved(n: nat, t: Table)
    requires 2 <= n && t.WellFormed() && t.NumStates() == n && t.nActions == 1
    requires forall i, j :: 0 <= i < n && 0 <= j < 1 ==> ChainDecls(n)[t.trans[i][j]].0 == ChainDecls(n)[i].1.arcs[j].0
    ensures t.trans == ChainTable(n).trans
  {
    var decls := ChainDecls(n);
    forall i | 0 <= i < n ensures t.trans[i] == ChainTable(n).trans[i] {
      assert decls[t.trans[i][0]].0 == decls[i].1.arcs[0].0;
    }
  }

  /** From a non-terminal state, `Chain(n)` moves one state on, paying 1 and resetting when it enters state n-1. */
  lemma ChainAdvance(n: nat, j: nat)
    requires 2 <= n && j < n - 1
    ensures ChainTable(n).WellFormed()
    ensures Advance(ChainTable(n), j, 0) == if j + 1 < n - 1 then Outcome(0.0, false, j + 1) else Outcome(1.0, true, 0)
  {
  }

  /** `n` repetitions of the only action of a one-action machine. */
  function Zeros(n: nat): (z: seq<nat>)
    ensures |z| == n && forall k :: 0 <= k < n ==> z[k] == 0
  {
    seq(n, _ => 0)
  }

  /**
   * From state 0, every step of `UnitReward` pays 1, never resets, and stays
   * in state 0. No induction is needed: `Run` always leaves a valid state
   * number, and the only one of a one-state machine is 0.
   */
  lemma UnitRewardRun(k: nat)
    ensures Run(UnitRewardTable(), 0, Zeros(k)) == 0
    ensures Advance(UnitRewardTable(), Run(UnitRewardTable(), 0, Zeros(k)), 0) == Outcome(1.0, false, 0)
  {
    UnitRewardBuilds();
  }

  /** A non-zero multiple of a positive `m` is at least `m` away from 0. */
  lemma MulAway(z: int, m: int)
    requires 0 < m
    ensures z >= 1 ==> z * m >= m
    ensures z <= -1 ==> z * m <= -m
  {
    if z >= 1 {
      assert z * m == (z - 1) * m + m;
    } else if z <= -1 {
      assert z * m == (z + 1) * m - m;
    }
  }

  /** Euclidean division has a unique quotient and remainder. */
  lemma ModUnique(y: int, m: int, q: int, r: int)
    requires 0 < m && 0 <= r < m && y == q * m + r
    ensures y % m == r
  {
    var d, s := y / m, y % m;
    assert y == d * m + s;
    assert (d - q) * m == r - s;
    MulAway(d - q, m);
  }

  lemma ModSucc(x: nat, m: nat)
    requires 0 < m
    ensures (x + 1) % m == if x % m + 1 < m then x % m + 1 else 0
  {
    var q, r := x / m, x % m;
    assert x == q * m + r;
    if r + 1 < m {
      ModUnique(x + 1, m, q, r + 1);
    } else {
      assert x + 1 == (q + 1) * m + 0;
      ModUnique(x + 1, m, q + 1, 0);
    }
  }

  /** One step of `Chain(n)` from state `x mod (n-1)` lands on `(x+1) mod (n-1)`, paying and resetting on wrap-around. */
  lemma ChainNext(n: nat, x: nat)
    requires 2 <= n
    ensures ChainTable(n).WellFormed() && x % (n - 1) < ChainTable(n).NumStates()
    ensures var o := Advance(ChainTable(n), x % (n - 1), 0);
      && o.reward == (if (x + 1) % (n - 1) == 0 then 1.0 else 0.0)
      && o.reset == ((x + 1) % (n - 1) == 0)
      && o.next == (x + 1) % (n - 1)
  {
    ModSucc(x, n - 1);
    ChainAdvance(n, x % (n - 1));
  }

  /** The last of `k` steps from state 0 is one `Advance` from where the first k-1 steps left off. */
  lemma RunZerosLast(t: Table, k: nat)
    requires t.WellFormed() && 0 < t.nActions && 0 < k
    ensures Run(t, 0, Zeros(k)) == Advance(t, Run(t, 0, Zeros(k - 1)), 0).next
  {
    assert Zeros(k)[..k - 1] == Zeros(k - 1);
  }

  /** After `k` steps from state 0, `Chain(n)` is in state `k mod (n-1)`. */
  lemma {:induction false} ChainRun(n: nat, k: nat)
    requires 2 <= n
    ensures ChainTable(n).WellFormed()
    ensures Run(ChainTable(n), 0, Zeros(k)) == k % (n - 1)
  {
    if k > 0 {
      RunZerosLast(ChainTable(n), k);
      ChainRun(n, k - 1);
      ChainNext(n, k - 1);
    }
  }

  /**
   * Step k+1 of `Chain(n)` after a reset pays 1, and resets, exactly when
   * k+1 is a multiple of n-1; otherwise it pays 0 and moves one state on.
   */
  lemma ChainStep(n: nat, k: nat)
    requires 2 <= n
    ensures ChainTable(n).WellFormed()
    ensures var o := Advance(ChainTable(n), Run(ChainTable(n), 0, Zeros(k)), 0);
      && o.reward == (if (k + 1) % (n - 1) == 0 then 1.0 else 0.0)
      && o.reset == ((k + 1) % (n - 1) == 0)
      && o.next == (k + 1) % (n - 1)
  {
    ChainRun(n, k);
    ChainNext(n, k);
  }

  /** The `UnitReward` environment over `nEnvs` instances, all in state 0. */
  method NewUnitReward(nEnvs: nat) returns (env: Env)
    ensures env.Valid() && fresh(env.token)
    ensures env.name == "UnitReward" && env.table == UnitRewardTable() && env.nEnvs == nEnvs
    ensures forall i :: 0 <= i < nEnvs ==> env.token[i] == 0
  {
    UnitRewardBuilds();
    var r := NewEnv("UnitReward", UnitRewardStates(), nEnvs);
    env := r.value;
  }

  /** The `Chain(n)` environment over `nEnvs` instances, all in state 0; fewer than two states are refused. */
  method NewChain(n: int, nEnvs: nat) returns (r: Result<Env, MachineError>)
    ensures r.Err? <==> n < 2
    ensures r.Ok? ==> var env := r.value;
      && env.Valid() && fresh(env.token)
      && env.name == "Chain" && env.table == ChainTable(n) && env.nEnvs == nEnvs
      && forall i :: 0 <= i < nEnvs ==> env.token[i] == 0
  {
    var states := Chain(n);
    if states.Err? {
      return Err(states.error);
    }
    ChainBuilds(n);
    var e := NewEnv("Chain", states.value, nEnvs);
    r := Ok(e.value);
  }

  /** The world a step reports over `nEnvs` instances when each pays `reward` and resets exactly when `reset`. */
  ghost predicate StepWorld(w: World, nEnvs: nat, reward: real, reset: bool) {
    && |w.reward| == |w.reset| == |w.terminal| == nEnvs
    && forall i :: 0 <= i < nEnvs ==> w.reward[i] == reward && w.reset[i] == reset && w.terminal[i] == reset
  }

  /** The world `reset` reports over `nEnvs` instances: no reward, and every instance reset. */
  ghost predicate ResetWorld(w: World, nEnvs: nat) {
    && |w.reward| == |w.reset| == |w.terminal| == nEnvs
    && forall i :: 0 <= i < nEnvs ==> w.reward[i] == 0.0 && w.reset[i] && w.terminal[i]
  }

  /** Step s of `Chain(n)` after a reset: reward 1 and a reset exactly when s is a multiple of n-1. */
  ghost predicate ChainStepWorld(w: World, n: nat, nEnvs: nat, s: nat)
    requires 2 <= n
  {
    StepWorld(w, nEnvs, if s % (n - 1) == 0 then 1.0 else 0.0, s % (n - 1) == 0)
  }

  /**
   * One vectorised step of all-zero actions from tokens that all took `s`
   * steps from state 0 reports step s+1 of `Chain(n)`, and leaves every
   * token where s+1 steps lead.
   */
  lemma ChainStepAll(n: nat, nEnvs: nat, s: nat, w: World, before: seq<nat>, after: seq<nat>)
    requires 2 <= n
    requires |before| == |after| == nEnvs && |w.reward| == |w.reset| == |w.terminal| == nEnvs
    requires forall i :: 0 <= i < nEnvs ==>
      && before[i] == Run(ChainTable(n), 0, Zeros(s))
      && w.reward[i] == Advance(ChainTable(n), before[i], 0).reward
      && w.reset[i] == Advance(ChainTable(n), before[i], 0).reset
      && w.terminal[i] == w.reset[i]
      && after[i] == Advance(ChainTable(n), before[i], 0).next
    ensures ChainStepWorld(w, n, nEnvs, s + 1)
    ensures forall i :: 0 <= i < nEnvs ==> after[i] == Run(ChainTable(n), 0, Zeros(s + 1))
  {
    ChainStep(n, s);
    RunZerosLast(ChainTable(n), s + 1);
  }

  /** The same for `UnitReward`: every step pays 1 without a reset and leaves every token on state 0. */
  lemma UnitRewardStepAll(nEnvs: nat, w: World, before: seq<nat>, after: seq<nat>)
    requires |before| == |after| == nEnvs && |w.reward| == |w.reset| == |w.terminal| == nEnvs
    requires forall i :: 0 <= i < nEnvs ==> before[i] == 0
    requires forall i :: 0 <= i < nEnvs ==>
      && w.reward[i] == Advance(UnitRewardTable(), before[i], 0).reward
      && w.reset[i] == Advance(UnitRewardTable(), before[i], 0).reset
      && w.terminal[i] == w.reset[i]
      && after[i] == Advance(UnitRewardTable(), before[i], 0).next
    ensures StepWorld(w, nEnvs, 1.0, false)
    ensures forall i :: 0 <= i < nEnvs ==> after[i] == 0
  {
    UnitRewardRun(0);
  }

  /** Steps every instance of a `UnitReward` environment, whose one state keeps every token on 0. */
  method StepUnitReward(env: Env) returns (w: World)
    requires env.Valid() && env.table == UnitRewardTable()
    modifies env.token
    ensures env.Valid()
    ensures StepWorld(w, env.nEnvs, 1.0, false)
    ensures forall i :: 0 <= i < env.nEnvs ==> env.token[i] == 0
  {
    var zeros := seq(env.nEnvs, _ => 0);
    assert ActionsFit(env.table, env.nEnvs, zeros);
    assert forall i :: 0 <= i < env.nEnvs ==> AxisIndex(ActionAt(zeros, i), 1) == 0;
    ghost var before := env.token[..];
    UnitRewardBuilds();
    assert forall i :: 0 <= i < env.nEnvs ==> before[i] == 0;
    var res := env.Step(zeros);
    w := res.value;
    UnitRewardStepAll(env.nEnvs, w, before, env.token[..]);
  }

  /**
   * Resets a fresh `UnitReward` environment and steps it `steps` times: the
   * reset reports no reward, and every step pays 1 on every instance without
   * a reset, leaving every token on state 0.
   */
  method RunUnitReward(nEnvs: nat, steps: nat) returns (ws: seq<World>)
    ensures |ws| == steps + 1
    ensures ResetWorld(ws[0], nEnvs)
    ensures forall s :: 1 <= s <= steps ==> StepWorld(ws[s], nEnvs, 1.0, false)
  {
    var env := NewUnitReward(nEnvs);
    UnitRewardBuilds();
    var w := env.Reset();
    ws := [w];
    var done := 0;
    while done < steps
      invariant 0 <= done <= steps
      invariant env.Valid() && env.table == UnitRewardTable() && env.nEnvs == nEnvs
      invariant forall i :: 0 <= i < nEnvs ==> env.token[i] == 0
      invariant |ws| == done + 1
      invariant ResetWorld(ws[0], nEnvs)
      invariant forall s :: 1 <= s <= done ==> StepWorld(ws[s], nEnvs, 1.0, false)
    {
      var next := StepUnitReward(env);
      ghost var prev := ws;
      ws := ws + [next];
      assert ws[done + 1] == next && forall s :: 0 <= s <= done ==> ws[s] == prev[s];
      done := done + 1;
    }
  }

  /** Steps every instance of a `Chain(n)` environment whose tokens all took `done` steps from state 0. */
  method StepChain(env: Env, n: nat, done: nat) returns (w: World)
    requires 2 <= n && env.Valid() && env.table == ChainTable(n)
    requires forall i :: 0 <= i < env.nEnvs ==> env.token[i] == Run(ChainTable(n), 0, Zeros(done))
    modifies env.token
    ensures env.Valid()
    ensures ChainStepWorld(w, n, env.nEnvs, done + 1)
    ensures forall i :: 0 <= i < env.nEnvs ==> env.token[i] == Run(ChainTable(n), 0, Zeros(done + 1))
  {
    var zeros := seq(env.nEnvs, _ => 0);
    assert ActionsFit(env.table, env.nEnvs, zeros);
    assert forall i :: 0 <= i < env.nEnvs ==> AxisIndex(ActionAt(zeros, i), 1) == 0;
    ghost var before := env.token[..];
    assert forall i :: 0 <= i < env.nEnvs ==> before[i] == Run(ChainTable(n), 0, Zeros(done)) && before[i] < n;
    var res := env.Step(zeros);
    w := res.value;
    ghost var after := env.token[..];
    assert forall i :: 0 <= i < env.nEnvs ==>
      var o := Advance(ChainTable(n), before[i], 0);
      && w.reward[i] == o.reward && w.reset[i] == o.reset
      && w.terminal[i] == w.reset[i] && after[i] == o.next;
    ChainStepAll(n, env.nEnvs, done, w, before, after);
  }

  /**
   * Resets a fresh `Chain(n)` environment and steps it `steps` times. The
   * reset reports no reward; step s pays 1 and reports reset and terminal
   * on every instance exactly when s is a multiple of n-1, and pays 0
   * without a reset otherwise.
   */
  method RunChain(n: int, nEnvs: nat, steps: nat) returns (r: Result<seq<World>, MachineError>)
    ensures r.Err? <==> n < 2
    ensures r.Ok? ==> var ws := r.value;
      && 2 <= n
      && |ws| == steps + 1
      && ResetWorld(ws[0], nEnvs)
      && forall s :: 1 <= s <= steps ==> ChainStepWorld(ws[s], n, nEnvs, s)
  {
    var made := NewChain(n, nEnvs);
    if made.Err? {
      return Err(made.error);
    }
    var env := made.value;
    var w := env.Reset();
    var ws := [w];
    var done := 0;
    while done < steps
      invariant 0 <= done <= steps
      invariant env.Valid() && env.table == ChainTable(n) && env.nEnvs == nEnvs
      invariant forall i :: 0 <= i < nEnvs ==> env.token[i] == Run(ChainTable(n), 0, Zeros(done))
      invariant |ws| == done + 1
      invariant ResetWorld(ws[0], nEnvs)
      invariant forall s :: 1 <= s <= done ==> ChainStepWorld(ws[s], n, nEnvs, s)
    {
      var next := StepChain(env, n, done);
      ghost var prev := ws;
      ws := ws + [next];
      assert ws[done + 1] == next && forall s :: 0 <= s <= done ==> ws[s] == prev[s];
      done := done + 1;
    }
    r := Ok(ws);
  }
}
