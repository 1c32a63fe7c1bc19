/**
 * A vectorised finite-state-machine environment: `nEnvs` independent
 * instances of one machine, each holding the number of its current state
 * (its token) in one shared array that `Reset` and `Step` update in place.
 */
module FsmEnv {
  import opened FsmTable
  import Decimal

  /** What `Reset` and `Step` report, one entry per instance. */
  datatype World = World(obs: seq<seq<real>>, reward: seq<real>, reset: seq<bool>, terminal: seq<bool>)

  /** Why a step is refused; a refused step changes nothing. */
  datatype StepError =
    | ActionShapeMismatch // the actions neither have one entry per instance nor a single entry to broadcast
    | ActionOutOfRange    // an instance's action is not an index on the action axis

  /** `a` indexes an axis of length `n`, counting from the end when negative. */
  predicate InAxis(a: int, n: nat) {
    -(n as int) <= a < n
  }

  /** The position that index `a` selects on an axis of length `n`. */
  function AxisIndex(a: int, n: nat): (r: nat)
    requires InAxis(a, n)
    ensures r < n && (r == a || r == a + n)
  {
    if a < 0 then a + n else a
  }

  /**
   * The action applied to instance `i` when the action vector is broadcast
   * over the instances: a vector with an entry for instance `i` gives that
   * entry, and a single entry serves every instance.
   */
  function ActionAt(actions: seq<int>, i: nat): (a: int)
    requires |actions| == 1 || i < |actions|
    ensures a in actions
    ensures i < |actions| ==> a == actions[i]
    ensures |actions| == 1 ==> a == actions[0]
  {
    if |actions| == 1 then actions[0] else actions[i]
  }

  /** The actions can be broadcast over `nEnvs` instances and each one indexes the action axis. */
  predicate ActionsFit(t: Table, nEnvs: nat, actions: seq<int>) {
    && (|actions| == nEnvs || |actions| == 1)
    && forall i :: 0 <= i < nEnvs ==> InAxis(ActionAt(actions, i), t.nActions)
  }

  /** Every entry of the action vector indexes the action axis. */
  predicate AllInAxis(actions: seq<int>, n: nat) {
    forall k :: 0 <= k < |actions| ==> InAxis(actions[k], n)
  }

  /**
   * The actions fit exactly when they broadcast over the instances and every
   * action looked up indexes the action axis; a single action broadcast over
   * no instances is never looked up.
   */
  lemma ActionsFitIff(t: Table, nEnvs: nat, actions: seq<int>)
    ensures ActionsFit(t, nEnvs, actions) <==>
      && (|actions| == nEnvs || |actions| == 1)
      && ((nEnvs == 0 && |actions| == 1) || AllInAxis(actions, t.nActions))
  {
    if ActionsFit(t, nEnvs, actions) && !(nEnvs == 0 && |actions| == 1) {
      forall k | 0 <= k < |actions|
        ensures InAxis(actions[k], t.nActions)
      {
        assert ActionAt(actions, k) == actions[k];
      }
    }
  }

  /**
   * Why a step refuses its actions, if it does. The token vector and the
   * action vector are broadcast together before any lookup: vectors of
   * different lengths, neither of them of length 1, do not broadcast. Every
   * action the broadcast reaches must then index the action axis. A single
   * instance broadcasts against any number of actions, so there the range is
   * checked first, and only the write-back into the one token refuses a
   * result of the wrong length.
   */
  function Refusal(t: Table, nEnvs: nat, actions: seq<int>): (r: Option<StepError>)
    ensures r.None? <==> ActionsFit(t, nEnvs, actions)
    ensures r == Some(ActionShapeMismatch) ==> |actions| != nEnvs && |actions| != 1
    ensures r == Some(ActionOutOfRange) ==> !AllInAxis(actions, t.nActions)
    ensures nEnvs == 1 && !AllInAxis(actions, t.nActions) ==> r == Some(ActionOutOfRange)
    ensures nEnvs != 1 && |actions| != nEnvs && |actions| != 1 ==> r == Some(ActionShapeMismatch)
  {
    ActionsFitIff(t, nEnvs, actions);
    if |actions| == nEnvs || |actions| == 1 then
      if ActionsFit(t, nEnvs, actions) then None else Some(ActionOutOfRange)
    else if nEnvs == 1 && !AllInAxis(actions, t.nActions) then Some(ActionOutOfRange)
    else Some(ActionShapeMismatch)
  }

  /** One instance's step: its reward, whether it reset, and its token afterwards. */
  datatype Outcome = Outcome(reward: real, reset: bool, next: nat)

  /**
   * One instance's step from state `tok` on action `a`: it is paid the reward
   * of the pair and lands on a valid state. It resets exactly when the state
   * its transition names is terminal, and then goes back to state 0, so it
   * never rests on a terminal state unless state 0 is terminal.
   */
  function Advance(t: Table, tok: nat, a: nat): (o: Outcome)
    requires t.WellFormed() && tok < t.NumStates() && a < t.nActions
    ensures o.next < t.NumStates()
    ensures o.reset <==> t.term[t.trans[tok][a]]
    ensures !t.term[0] ==> !t.term[o.next]
  {
    var landed := t.trans[tok][a];
    Outcome(t.reward[tok][a], t.term[landed], if t.term[landed] then 0 else landed)
  }

  /** An instance's token after it takes the action indices `acts` in turn, starting from `tok`. */
  function Run(t: Table, tok: nat, acts: seq<nat>): (r: nat)
    requires t.WellFormed() && tok < t.NumStates()
    requires forall k :: 0 <= k < |acts| ==> acts[k] < t.nActions
    ensures r < t.NumStates()
    // while state 0 is not terminal, steps from a non-terminal state never rest on a terminal one
    ensures !t.term[tok] && !t.term[0] ==> !t.term[r]
    decreases |acts|
  {
    if acts == [] then tok else Advance(t, Run(t, tok, acts[..|acts| - 1]), acts[|acts| - 1]).next
  }

  /** `type(self).__name__` followed by the shape of the next-state table, as in `Chain(5s1a)`. */
  function ReprString(cls: string, states: nat, actions: nat): string {
    cls + "(" + Decimal.Digits(states) + "s" + Decimal.Digits(actions) + "a)"
  }

  /** The position of the first character of `s` that is not a digit, or `|s|`. */
  function NumeralEnd(s: string): (r: nat)
    ensures r <= |s|
  {
    if s == [] || !Decimal.IsDigit(s[0]) then 0 else 1 + NumeralEnd(s[1..])
  }

  /** A numeral followed by a non-digit ends where the non-digit stands. */
  lemma {:induction false} NumeralEndAfterDigits(d: string, rest: string)
    requires Decimal.AllDigits(d) && rest != [] && !Decimal.IsDigit(rest[0])
    ensures NumeralEnd(d + rest) == |d|
  {
    if d == [] {
      assert d + rest == rest;
    } else {
      assert (d + rest)[1..] == d[1..] + rest;
      NumeralEndAfterDigits(d[1..], rest);
    }
  }

  /** Two numerals each followed by the same non-digit split at the same place. */
  lemma SplitAtNonDigit(d1: string, r1: string, d2: string, r2: string, x: char)
    requires Decimal.AllDigits(d1) && Decimal.AllDigits(d2) && !Decimal.IsDigit(x)
    requires d1 + [x] + r1 == d2 + [x] + r2
    ensures d1 == d2 && r1 == r2
  {
    var s := d1 + [x] + r1;
    assert s == d1 + ([x] + r1) && s == d2 + ([x] + r2);
    NumeralEndAfterDigits(d1, [x] + r1);
    NumeralEndAfterDigits(d2, [x] + r2);
    assert d1 == s[..|d1|] == d2;
    assert r1 == s[|d1| + 1..] == r2;
  }

  /** The representation of an environment determines its number of states and of actions. */
  lemma ReprDeterminesShape(cls: string, s1: nat, a1: nat, s2: nat, a2: nat)
    requires ReprString(cls, s1, a1) == ReprString(cls, s2, a2)
    ensures s1 == s2 && a1 == a2
  {
    var p := cls + "(";
    var u1 := Decimal.Digits(s1) + "s" + (Decimal.Digits(a1) + "a)");
    var u2 := Decimal.Digits(s2) + "s" + (Decimal.Digits(a2) + "a)");
    assert ReprString(cls, s1, a1) == p + u1;
    assert ReprString(cls, s2, a2) == p + u2;
    assert u1 == (p + u1)[|p|..];
    assert u2 == (p + u2)[|p|..];
    SplitAtNonDigit(Decimal.Digits(s1), Decimal.Digits(a1) + "a)", Decimal.Digits(s2), Decimal.Digits(a2) + "a)", 's');
    Decimal.DigitsInjective(s1, s2);
    assert Decimal.Digits(a1) + "a)" == Decimal.Digits(a2) + "a)";
    assert Decimal.Digits(a1) + "a)" == Decimal.Digits(a1) + ['a'] + [')'];
    assert Decimal.Digits(a2) + "a)" == Decimal.Digits(a2) + ['a'] + [')'];
    SplitAtNonDigit(Decimal.Digits(a1), [')'], Decimal.Digits(a2), [')'], 'a');
    Decimal.DigitsInjective(a1, a2);
  }

  class Env {
    /** The class name that the representation shows. */
    const name: string
    const table: Table
    const nEnvs: nat
    /** The current state number of every instance. */
    const token: array<nat>

    ghost predicate Valid()
      reads token
    {
      && table.WellFormed()
      && token.Length == nEnvs
      && (forall i :: 0 <= i < nEnvs ==> token[i] < table.NumStates())
      // while the start state is not terminal, no instance rests on a terminal state
      && (!table.term[0] ==> forall i :: 0 <= i < nEnvs ==> !table.term[token[i]])
    }

    /** A new environment whose instances all start in state 0. */
    constructor (name: string, table: Table, nEnvs: nat)
      requires table.WellFormed()
      ensures Valid() && fresh(token)
      ensures this.name == name && this.table == table && this.nEnvs == nEnvs
      ensures forall i :: 0 <= i < nEnvs ==> token[i] == 0
    {
      this.name := name;
      this.table := table;
      this.nEnvs := nEnvs;
      token := new nat[nEnvs](_ => 0);
    }

    /** Sends every instance back to state 0 and reports its observation, no reward, and a reset. */
    method Reset() returns (w: World)
      requires Valid()
      modifies token
      ensures Valid()
      ensures forall i :: 0 <= i < nEnvs ==> token[i] == 0
      ensures |w.obs| == |w.reward| == |w.reset| == |w.terminal| == nEnvs
      ensures forall i :: 0 <= i < nEnvs ==>
        && w.obs[i] == table.obs[0]
        && w.reward[i] == 0.0
        && w.reset[i] && w.terminal[i]
    {
      var i := 0;
      while i < nEnvs
        invariant 0 <= i <= nEnvs
        invariant forall k :: 0 <= k < i ==> token[k] == 0
      {
        token[i] := 0;
        i := i + 1;
      }
      var tok := token[..];
      w := World(
        seq(nEnvs, k requires 0 <= k < nEnvs => table.obs[tok[k]]),
        seq(nEnvs, _ => 0.0),
        seq(nEnvs, _ => true),
        seq(nEnvs, _ => true));
    }

    /**
     * Advances every instance by its action. Each instance is paid the
     * reward of (its token, its action), moves to the state the transition
     * names, and, if that state is terminal, goes back to state 0 and
     * reports reset and terminal. It observes the state it rests on.
     */
    method Step(actions: seq<int>) returns (r: Result<World, StepError>)
      requires Valid()
      modifies token
      ensures Valid()
      ensures r.Ok? <==> ActionsFit(table, nEnvs, actions)
      ensures r.Err? ==> token[..] == old(token[..])
      ensures r.Err? ==> Refusal(table, nEnvs, actions) == Some(r.error)
      ensures r.Ok? ==> |r.value.obs| == |r.value.reward| == |r.value.reset| == |r.value.terminal| == nEnvs
      ensures r.Ok? ==> forall i :: 0 <= i < nEnvs ==>
        var o := Advance(table, old(token[i]), AxisIndex(ActionAt(actions, i), table.nActions));
        && r.value.reward[i] == o.reward
        && r.value.reset[i] == o.reset
        && r.value.terminal[i] == r.value.reset[i]
        && token[i] == o.next
        && r.value.obs[i] == table.obs[token[i]]
    {
      var refusal := Refusal(table, nEnvs, actions);
      if refusal.Some? {
        return Err(refusal.value);
      }
      var act := seq(nEnvs, i requires 0 <= i < nEnvs => AxisIndex(ActionAt(actions, i), table.nActions));
      var before := token[..];
      var reward := seq(nEnvs, i requires 0 <= i < nEnvs => table.reward[before[i]][act[i]]);
      var landed := seq(nEnvs, i requires 0 <= i < nEnvs => table.trans[before[i]][act[i]]);
      var i := 0;
      while i < nEnvs
        invariant 0 <= i <= nEnvs
        invariant forall k :: 0 <= k < i ==> token[k] == landed[k]
        invariant forall k :: i <= k < nEnvs ==> token[k] == before[k]
      {
        token[i] := landed[i];
        i := i + 1;
      }
      var reset := seq(nEnvs, k requires 0 <= k < nEnvs => table.term[landed[k]]);
      i := 0;
      while i < nEnvs
        invariant 0 <= i <= nEnvs
        invariant forall k :: 0 <= k < i ==> token[k] == if reset[k] then 0 else landed[k]
        invariant forall k :: i <= k < nEnvs ==> token[k] == landed[k]
      {
        if reset[i] {
          token[i] := 0;
        }
        i := i + 1;
      }
      var tok := token[..];
      r := Ok(World(seq(nEnvs, k requires 0 <= k < nEnvs => table.obs[tok[k]]), reward, reset, reset));
    }

    /** `<class name>(<number of states>s<number of actions>a)`. */
    function Repr(): (s: string)
      ensures s == ReprString(name, table.NumStates(), table.nActions)
      ensures forall states: nat, actions: nat :: s == ReprString(name, states, actions) ==>
        states == table.NumStates() && actions == table.nActions
    {
      var s := ReprString(name, table.NumStates(), table.nActions);
      assert forall states: nat, actions: nat :: s == ReprString(name, states, actions) ==>
        states == table.NumStates() && actions == table.nActions by {
        forall states: nat, actions: nat | s == ReprString(name, states, actions)
          ensures states == table.NumStates() && actions == table.nActions
        {
          ReprDeterminesShape(name, states, actions, table.NumStates(), table.nActions);
        }
      }
      s
    }
  }

  /**
   * Builds an environment from an ordered mapping of states, failing as
   * construction of the tables fails; every instance starts in state 0.
   */
  method NewEnv<K(==, !new)>(name: string, decls: seq<(K, StateDecl<K>)>, nEnvs: nat)
    returns (r: Result<Env, BuildError<K>>)
    requires Distinct(Names(decls))
    ensures r.Ok? <==> Build(decls).Ok?
    ensures r.Err? ==> r.error == Build(decls).error
    ensures r.Ok? ==> var env := r.value;
      && env.Valid() && fresh(env.token)
      && env.name == name && env.table == Build(decls).value && env.nEnvs == nEnvs
      && forall i :: 0 <= i < nEnvs ==> env.token[i] == 0
  {
    var t := MakeTable(decls);
    if t.Err? {
      return Err(t.error);
    }
    var env := new Env(name, t.value, nEnvs);
    r := Ok(env);
  }
}
