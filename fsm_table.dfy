/**
 * The table that an FSM environment is built from, and its validation.
 *
 * A machine is declared as an ordered mapping from state names to
 * (terminal flag, observation vector, [(next state name, reward), ...]),
 * one (name, reward) pair per action. Construction numbers the states in
 * declaration order, checks that all observation vectors have one length
 * and all transition lists one length, resolves every target name to its
 * state number, and produces four parallel tables.
 */
module FsmTable {

  datatype Option<T> = None | Some(value: T)

  datatype Result<T, E> = Ok(value: T) | Err(error: E)

  /** One declared state: terminal flag, observation vector, and per action the target name and reward. */
  datatype StateDecl<K> = StateDecl(terminal: bool, obs: seq<real>, arcs: seq<(K, real)>)

  /** Why construction fails. */
  datatype BuildError<K> =
    | NoStates            // the set of observation lengths is empty, so it cannot be unpacked
    | ObsLengthMismatch   // states disagree on the observation length
    | ActionCountMismatch // states disagree on the number of actions
    | UnknownState(name: K) // a transition names a state that is not declared

  /** The spaces an environment declares. */
  datatype Space =
    | MultiDiscrete(agents: nat, choices: nat)
    | MultiVector(agents: nat, dim: nat)
    | MultiEmpty

  /**
   * The four parallel tables, indexed by state number (and action):
   * terminal flags, observation rows, next-state matrix and reward matrix.
   */
  datatype Table = Table(
    dObs: nat,
    nActions: nat,
    term: seq<bool>,
    obs: seq<seq<real>>,
    trans: seq<seq<nat>>,
    reward: seq<seq<real>>)
  {
    function NumStates(): nat { |term| }

    /** Rectangular tables over at least one state whose next-state entries are state numbers. */
    ghost predicate WellFormed() {
      && 0 < |term|
      && |obs| == |term| && |trans| == |term| && |reward| == |term|
      && (forall i :: 0 <= i < |obs| ==> |obs[i]| == dObs)
      && (forall i :: 0 <= i < |trans| ==> |trans[i]| == nActions)
      && (forall i :: 0 <= i < |reward| ==> |reward[i]| == nActions)
      && (forall i, j :: 0 <= i < |trans| && 0 <= j < |trans[i]| ==> trans[i][j] < |term|)
    }

    /** One agent choosing among `nActions` actions. */
    function ActionSpace(): Space { MultiDiscrete(1, nActions) }

    /** A vector of `dObs` values for one agent, or the empty space when there is nothing to observe. */
    function ObservationSpace(): Space { if dObs != 0 then MultiVector(1, dObs) else MultiEmpty }
  }

  function Names<K>(decls: seq<(K, StateDecl<K>)>): seq<K> {
    seq(|decls|, i requires 0 <= i < |decls| => decls[i].0)
  }

  /** The keys of a mapping are pairwise different. */
  predicate Distinct<K(==, !new)>(names: seq<K>) {
    forall i, j :: 0 <= i < j < |names| ==> names[i] != names[j]
  }

  /** State numbers by name, in declaration order. */
  function Indices<K(==, !new)>(names: seq<K>): (ix: map<K, nat>)
    requires Distinct(names)
    ensures forall k :: k in ix <==> k in names
    ensures forall i :: 0 <= i < |names| ==> names[i] in ix && ix[names[i]] == i
  {
    map i | 0 <= i < |names| :: names[i] := i
  }

  function ObsLengths<K>(decls: seq<(K, StateDecl<K>)>): seq<nat> {
    seq(|decls|, i requires 0 <= i < |decls| => |decls[i].1.obs|)
  }

  function ArcCounts<K>(decls: seq<(K, StateDecl<K>)>): seq<nat> {
    seq(|decls|, i requires 0 <= i < |decls| => |decls[i].1.arcs|)
  }

  /** The set of values in `lens`. */
  ghost function ValueSet(lens: seq<nat>): set<nat> {
    set i | 0 <= i < |lens| :: lens[i]
  }

  /** The common value of a non-empty sequence whose values are all equal, if there is one. */
  function Uniform(lens: seq<nat>): Option<nat> {
    if |lens| == 0 then None
    else if forall i :: 0 <= i < |lens| ==> lens[i] == lens[0] then Some(lens[0])
    else None
  }

  /** `Uniform` succeeds exactly when unpacking `(x,) = {values}` succeeds, with the same `x`. */
  lemma UniformIsSingletonUnpack(lens: seq<nat>, x: nat)
    ensures Uniform(lens) == Some(x) <==> ValueSet(lens) == {x}
  {
    if Uniform(lens) == Some(x) {
      assert lens[0] in ValueSet(lens);
      assert forall y :: y in ValueSet(lens) ==> y == x;
    }
    if ValueSet(lens) == {x} {
      assert x in ValueSet(lens);
      assert forall i :: 0 <= i < |lens| ==> lens[i] in ValueSet(lens);
    }
  }

  function ArcTargets<K>(arcs: seq<(K, real)>): seq<K> {
    seq(|arcs|, j requires 0 <= j < |arcs| => arcs[j].0)
  }

  /** All transition targets, state by state and action by action. */
  function Targets<K>(decls: seq<(K, StateDecl<K>)>): seq<K> {
    if decls == [] then [] else ArcTargets(decls[0].1.arcs) + Targets(decls[1..])
  }

  /** The first element of `xs` that is not among `names`. */
  function FirstMissing<K(==, !new)>(xs: seq<K>, names: seq<K>): (r: Option<K>)
    ensures r.None? <==> forall k :: 0 <= k < |xs| ==> xs[k] in names
    ensures r.Some? ==>
      && r.value !in names
      && exists k :: 0 <= k < |xs| && xs[k] == r.value && forall p :: 0 <= p < k ==> xs[p] in names
  {
    if xs == [] then None
    else if xs[0] !in names then Some(xs[0])
    else
      var r := FirstMissing(xs[1..], names);
      assert r.Some? ==> exists k :: 1 <= k < |xs| && xs[k] == r.value && forall p :: 0 <= p < k ==> xs[p] in names by {
        if r.Some? {
          var k :| 0 <= k < |xs[1..]| && xs[1..][k] == r.value && forall p :: 0 <= p < k ==> xs[1..][p] in names;
          assert xs[k + 1] == r.value;
          assert forall p :: 1 <= p < k + 1 ==> xs[p] == xs[1..][p - 1];
        }
      }
      r
  }

  lemma {:induction false} TargetsAppend<K(!new)>(a: seq<(K, StateDecl<K>)>, b: seq<(K, StateDecl<K>)>)
    ensures Targets(a + b) == Targets(a) + Targets(b)
  {
    if a == [] {
      assert a + b == b;
    } else {
      assert (a + b)[1..] == a[1..] + b;
      TargetsAppend(a[1..], b);
    }
  }

  lemma {:induction false} FirstMissingAppend<K(!new)>(a: seq<K>, b: seq<K>, names: seq<K>)
    ensures FirstMissing(a + b, names) == if FirstMissing(a, names).Some? then FirstMissing(a, names) else FirstMissing(b, names)
  {
    if a == [] {
      assert a + b == b;
    } else {
      assert (a + b)[1..] == a[1..] + b;
      FirstMissingAppend(a[1..], b, names);
    }
  }

  /** The first undeclared element is the one at the first position holding an undeclared name. */
  lemma FirstMissingAt<K(!new)>(xs: seq<K>, j: nat, names: seq<K>)
    requires j < |xs| && xs[j] !in names
    requires forall p :: 0 <= p < j ==> xs[p] in names
    ensures FirstMissing(xs, names) == Some(xs[j])
  {
    assert xs == xs[..j] + xs[j..];
    FirstMissingAppend(xs[..j], xs[j..], names);
  }

  /** Every transition target appears in `Targets`, and nothing else does. */
  lemma {:induction false} TargetsAreArcTargets<K(!new)>(decls: seq<(K, StateDecl<K>)>)
    ensures forall i, j :: 0 <= i < |decls| && 0 <= j < |decls[i].1.arcs| ==> decls[i].1.arcs[j].0 in Targets(decls)
    ensures forall x :: x in Targets(decls) ==>
      exists i, j :: 0 <= i < |decls| && 0 <= j < |decls[i].1.arcs| && decls[i].1.arcs[j].0 == x
  {
    if decls != [] {
      var rest := decls[1..];
      TargetsAreArcTargets(rest);
      var row := ArcTargets(decls[0].1.arcs);
      assert Targets(decls) == row + Targets(rest);
      forall i, j | 0 <= i < |decls| && 0 <= j < |decls[i].1.arcs|
        ensures decls[i].1.arcs[j].0 in Targets(decls)
      {
        if i == 0 {
          assert row[j] == decls[i].1.arcs[j].0;
        } else {
          assert rest[i - 1] == decls[i];
        }
      }
      forall x | x in Targets(decls)
        ensures exists i, j :: 0 <= i < |decls| && 0 <= j < |decls[i].1.arcs| && decls[i].1.arcs[j].0 == x
      {
        if x in row {
          var j :| 0 <= j < |row| && row[j] == x;
          assert decls[0].1.arcs[j].0 == x;
        } else {
          assert x in Targets(rest);
          var i, j :| 0 <= i < |rest| && 0 <= j < |rest[i].1.arcs| && rest[i].1.arcs[j].0 == x;
          assert decls[i + 1] == rest[i];
        }
      }
    }
  }

  /** Every transition names a declared state. */
  ghost predicate AllTargetsDeclared<K(!new)>(decls: seq<(K, StateDecl<K>)>) {
    forall i, j :: 0 <= i < |decls| && 0 <= j < |decls[i].1.arcs| ==> decls[i].1.arcs[j].0 in Names(decls)
  }

  lemma NoneMissingIffDeclared<K(!new)>(decls: seq<(K, StateDecl<K>)>)
    ensures FirstMissing(Targets(decls), Names(decls)).None? <==> AllTargetsDeclared(decls)
  {
    TargetsAreArcTargets(decls);
    var ts, names := Targets(decls), Names(decls);
    if AllTargetsDeclared(decls) {
      forall k | 0 <= k < |ts| ensures ts[k] in names {
        assert ts[k] in ts;
      }
    }
  }

  /** The state numbers of the targets of `arcs`. */
  function Resolved<K(==, !new)>(ix: map<K, nat>, names: seq<K>, arcs: seq<(K, real)>): (row: seq<nat>)
    requires Distinct(names) && ix == Indices(names)
    requires forall j :: 0 <= j < |arcs| ==> arcs[j].0 in names
    ensures |row| == |arcs|
    ensures forall j :: 0 <= j < |arcs| ==> row[j] < |names| && names[row[j]] == arcs[j].0
  {
    seq(|arcs|, j requires 0 <= j < |arcs| => ix[arcs[j].0])
  }

  function Rewards<K>(arcs: seq<(K, real)>): seq<real> {
    seq(|arcs|, j requires 0 <= j < |arcs| => arcs[j].1)
  }

  /** Every state has `dObs` observations and `nActions` transitions. */
  ghost predicate Rectangular<K>(decls: seq<(K, StateDecl<K>)>, dObs: nat, nActions: nat) {
    forall i :: 0 <= i < |decls| ==> |decls[i].1.obs| == dObs && |decls[i].1.arcs| == nActions
  }

  /**
   * The four tables of a validated declaration. State i is the i-th
   * declared state, and every next-state entry is the number of the state
   * that the transition names.
   */
  function Assemble<K(==, !new)>(decls: seq<(K, StateDecl<K>)>, dObs: nat, nActions: nat): (t: Table)
    requires 0 < |decls| && Distinct(Names(decls))
    requires Rectangular(decls, dObs, nActions) && AllTargetsDeclared(decls)
    ensures t.WellFormed()
    ensures t.NumStates() == |decls| && t.dObs == dObs && t.nActions == nActions
    ensures forall i :: 0 <= i < |decls| ==>
      && t.term[i] == decls[i].1.terminal
      && t.obs[i] == decls[i].1.obs
      && t.reward[i] == Rewards(decls[i].1.arcs)
    ensures forall i, j :: 0 <= i < |decls| && 0 <= j < nActions ==>
      decls[t.trans[i][j]].0 == decls[i].1.arcs[j].0
  {
    var names := Names(decls);
    var ix := Indices(names);
    var trans := seq(|decls|, i requires 0 <= i < |decls| => Resolved(ix, names, decls[i].1.arcs));
    assert forall i :: 0 <= i < |decls| ==> |trans[i]| == nActions;
    Table(dObs, nActions,
      seq(|decls|, i requires 0 <= i < |decls| => decls[i].1.terminal),
      seq(|decls|, i requires 0 <= i < |decls| => decls[i].1.obs),
      trans,
      seq(|decls|, i requires 0 <= i < |decls| => Rewards(decls[i].1.arcs)))
  }

  /**
   * What construction produces from an ordered mapping of states: the
   * observation-length check, the action-count check and the resolution
   * of target names, in that order, then the tables.
   */
  function Build<K(==, !new)>(decls: seq<(K, StateDecl<K>)>): (r: Result<Table, BuildError<K>>)
    requires Distinct(Names(decls))
    ensures r.Ok? ==> var t := r.value;
      && t.WellFormed()
      && t.NumStates() == |decls|
      && t.dObs == |decls[0].1.obs| && t.nActions == |decls[0].1.arcs|
      && (forall i :: 0 <= i < |decls| ==>
            && t.term[i] == decls[i].1.terminal
            && t.obs[i] == decls[i].1.obs
            && t.reward[i] == Rewards(decls[i].1.arcs))
      && (forall i, j :: 0 <= i < |decls| && 0 <= j < t.nActions ==>
            decls[t.trans[i][j]].0 == decls[i].1.arcs[j].0)
  {
    match Uniform(ObsLengths(decls))
    case None => Err(if decls == [] then NoStates else ObsLengthMismatch)
    case Some(dObs) =>
      match Uniform(ArcCounts(decls))
      case None => Err(ActionCountMismatch)
      case Some(nActions) =>
        match FirstMissing(Targets(decls), Names(decls))
        case Some(k) => Err(UnknownState(k))
        case None =>
          NoneMissingIffDeclared(decls);
          assert Rectangular(decls, dObs, nActions) by {
            forall i | 0 <= i < |decls| ensures |decls[i].1.obs| == dObs && |decls[i].1.arcs| == nActions {
              assert ObsLengths(decls)[i] == dObs && ArcCounts(decls)[i] == nActions;
            }
          }
          Ok(Assemble(decls, dObs, nActions))
  }

  /** Construction succeeds exactly when the table is non-empty, rectangular and closed under its transitions. */
  lemma BuildSucceedsIff<K(!new)>(decls: seq<(K, StateDecl<K>)>)
    requires Distinct(Names(decls))
    ensures Build(decls).Ok? <==>
      && |decls| > 0
      && (forall i :: 0 <= i < |decls| ==> |decls[i].1.obs| == |decls[0].1.obs|)
      && (forall i :: 0 <= i < |decls| ==> |decls[i].1.arcs| == |decls[0].1.arcs|)
      && AllTargetsDeclared(decls)
  {
    NoneMissingIffDeclared(decls);
    if |decls| > 0 {
      assert forall i :: 0 <= i < |decls| ==> |decls[i].1.obs| == ObsLengths(decls)[i];
      assert forall i :: 0 <= i < |decls| ==> |decls[i].1.arcs| == ArcCounts(decls)[i];
    }
  }

  /**
   * A table that builds offers one action per declared transition, and has
   * an empty observation space exactly when its states observe nothing.
   */
  lemma BuildSpaces<K(!new)>(decls: seq<(K, StateDecl<K>)>)
    requires Distinct(Names(decls)) && Build(decls).Ok?
    ensures Build(decls).value.ActionSpace() == MultiDiscrete(1, |decls[0].1.arcs|)
    ensures Build(decls).value.ObservationSpace() == MultiEmpty <==> forall i :: 0 <= i < |decls| ==> decls[i].1.obs == []
    ensures Build(decls).value.ObservationSpace() != MultiEmpty ==>
      Build(decls).value.ObservationSpace() == MultiVector(1, |decls[0].1.obs|)
  {
    BuildSucceedsIff(decls);
  }

  /** An empty mapping fails on the observation lengths, whose set it cannot unpack. */
  lemma BuildEmpty<K(!new)>()
    ensures Build<K>([]) == Err(NoStates)
  {
  }

  /** Two states that disagree on the observation length make construction fail on that check first. */
  lemma BuildObsMismatch<K(!new)>(decls: seq<(K, StateDecl<K>)>, i: nat, j: nat)
    requires Distinct(Names(decls))
    requires i < |decls| && j < |decls| && |decls[i].1.obs| != |decls[j].1.obs|
    ensures Build(decls) == Err(ObsLengthMismatch)
  {
    assert ObsLengths(decls)[i] != ObsLengths(decls)[j];
  }

  /**
   * With uniform lengths, two states that disagree on the number of actions
   * make construction fail on that check.
   */
  lemma BuildActionMismatch<K(!new)>(decls: seq<(K, StateDecl<K>)>, i: nat, j: nat)
    requires Distinct(Names(decls))
    requires forall p :: 0 <= p < |decls| ==> |decls[p].1.obs| == |decls[0].1.obs|
    requires i < |decls| && j < |decls| && |decls[i].1.arcs| != |decls[j].1.arcs|
    ensures Build(decls) == Err(ActionCountMismatch)
  {
    assert ObsLengths(decls)[i] == ObsLengths(decls)[0];
    assert ArcCounts(decls)[i] != ArcCounts(decls)[j];
  }

  /** A name reported as unknown is a transition target that no state declares. */
  lemma BuildUnknownState<K(!new)>(decls: seq<(K, StateDecl<K>)>)
    requires Distinct(Names(decls))
    requires Build(decls).Err? && Build(decls).error.UnknownState?
    ensures Build(decls).error.name !in Names(decls)
    ensures exists i, j :: 0 <= i < |decls| && 0 <= j < |decls[i].1.arcs| && decls[i].1.arcs[j].0 == Build(decls).error.name
  {
    var k := Build(decls).error.name;
    assert FirstMissing(Targets(decls), Names(decls)) == Some(k);
    assert k in Targets(decls);
    TargetsAreArcTargets(decls);
  }

  lemma {:induction false} TargetsSplit<K(!new)>(decls: seq<(K, StateDecl<K>)>, i: nat)
    requires i < |decls|
    ensures Targets(decls[..i + 1]) == Targets(decls[..i]) + ArcTargets(decls[i].1.arcs)
    ensures Targets(decls) == Targets(decls[..i + 1]) + Targets(decls[i + 1..])
  {
    TargetsAppend(decls[..i], [decls[i]]);
    assert decls[..i + 1] == decls[..i] + [decls[i]];
    assert Targets([decls[i]]) == ArcTargets(decls[i].1.arcs) + Targets([decls[i]][1..]);
    TargetsAppend(decls[..i + 1], decls[i + 1..]);
    assert decls == decls[..i + 1] + decls[i + 1..];
  }

  /** The first undeclared target of the first row that has one is the first undeclared target overall. */
  lemma FirstMissingInRow<K(!new)>(decls: seq<(K, StateDecl<K>)>, i: nat, names: seq<K>, k: K)
    requires i < |decls|
    requires FirstMissing(Targets(decls[..i]), names).None?
    requires FirstMissing(ArcTargets(decls[i].1.arcs), names) == Some(k)
    ensures FirstMissing(Targets(decls), names) == Some(k)
  {
    TargetsSplit(decls, i);
    FirstMissingAppend(Targets(decls[..i]), ArcTargets(decls[i].1.arcs), names);
    FirstMissingAppend(Targets(decls[..i + 1]), Targets(decls[i + 1..]), names);
  }

  /** A prefix of rows without undeclared targets stays so when a row without any is appended. */
  lemma NoneMissingExtend<K(!new)>(decls: seq<(K, StateDecl<K>)>, i: nat, names: seq<K>)
    requires i < |decls|
    requires FirstMissing(Targets(decls[..i]), names).None?
    requires FirstMissing(ArcTargets(decls[i].1.arcs), names).None?
    ensures FirstMissing(Targets(decls[..i + 1]), names).None?
  {
    TargetsSplit(decls, i);
    FirstMissingAppend(Targets(decls[..i]), ArcTargets(decls[i].1.arcs), names);
  }

  /** Rows that each name their targets' numbers are the rows `Assemble` resolves. */
  lemma AssembleFromRows<K(!new)>(decls: seq<(K, StateDecl<K>)>, dObs: nat, nActions: nat,
                                  term: seq<bool>, obs: seq<seq<real>>, trans: seq<seq<nat>>, reward: seq<seq<real>>)
    requires 0 < |decls| && Distinct(Names(decls))
    requires Rectangular(decls, dObs, nActions) && AllTargetsDeclared(decls)
    requires RowsMatch(decls, |decls|, term, obs, trans, reward)
    ensures Assemble(decls, dObs, nActions) == Table(dObs, nActions, term, obs, trans, reward)
  {
    var names := Names(decls);
    var ix := Indices(names);
    forall k | 0 <= k < |decls| ensures trans[k] == Resolved(ix, names, decls[k].1.arcs) {
      forall j | 0 <= j < |decls[k].1.arcs| ensures trans[k][j] == ix[decls[k].1.arcs[j].0] {
        assert names[trans[k][j]] == decls[k].1.arcs[j].0;
      }
    }
  }

  /**
   * Resolves the target names of one state's transitions, failing on the
   * first name that is not declared.
   */
  method ResolveRow<K(==, !new)>(indices: map<K, nat>, names: seq<K>, arcs: seq<(K, real)>)
    returns (r: Result<seq<nat>, K>)
    requires Distinct(names) && indices == Indices(names)
    ensures r.Ok? <==> FirstMissing(ArcTargets(arcs), names).None?
    ensures r.Err? ==> FirstMissing(ArcTargets(arcs), names) == Some(r.error)
    ensures r.Ok? ==>
      && |r.value| == |arcs|
      && forall j :: 0 <= j < |arcs| ==> r.value[j] < |names| && names[r.value[j]] == arcs[j].0
  {
    var row: seq<nat> := [];
    var j := 0;
    while j < |arcs|
      invariant 0 <= j <= |arcs|
      invariant |row| == j
      invariant forall p :: 0 <= p < j ==> row[p] < |names| && names[row[p]] == arcs[p].0
    {
      var s := arcs[j].0;
      if s !in indices {
        assert forall p :: 0 <= p < j ==> ArcTargets(arcs)[p] == names[row[p]];
        FirstMissingAt(ArcTargets(arcs), j, names);
        return Err(s);
      }
      row := row + [indices[s]];
      j := j + 1;
    }
    assert forall p :: 0 <= p < |arcs| ==> ArcTargets(arcs)[p] == names[row[p]];
    r := Ok(row);
  }

  /** The entries of declared state `k`, with each next-state entry naming its target. */
  ghost predicate RowMatches<K(!new)>(decls: seq<(K, StateDecl<K>)>, k: nat,
                                      term: bool, obs: seq<real>, trans: seq<nat>, reward: seq<real>)
    requires k < |decls|
  {
    && term == decls[k].1.terminal
    && obs == decls[k].1.obs
    && reward == Rewards(decls[k].1.arcs)
    && |trans| == |decls[k].1.arcs|
    && forall j :: 0 <= j < |trans| ==> trans[j] < |decls| && decls[trans[j]].0 == decls[k].1.arcs[j].0
  }

  /** The columns of the first `n` declared states. */
  ghost predicate RowsMatch<K(!new)>(decls: seq<(K, StateDecl<K>)>, n: nat,
                                     term: seq<bool>, obs: seq<seq<real>>, trans: seq<seq<nat>>, reward: seq<seq<real>>)
  {
    && n <= |decls|
    && |term| == |obs| == |reward| == |trans| == n
    && forall k :: 0 <= k < n ==> RowMatches(decls, k, term[k], obs[k], trans[k], reward[k])
  }

  lemma RowsMatchExtend<K(!new)>(decls: seq<(K, StateDecl<K>)>, i: nat,
                                 term: seq<bool>, obs: seq<seq<real>>, trans: seq<seq<nat>>, reward: seq<seq<real>>,
                                 row: seq<nat>)
    requires i < |decls| && RowsMatch(decls, i, term, obs, trans, reward)
    requires |row| == |decls[i].1.arcs|
    requires forall j :: 0 <= j < |row| ==> row[j] < |decls| && Names(decls)[row[j]] == decls[i].1.arcs[j].0
    ensures RowsMatch(decls, i + 1, term + [decls[i].1.terminal], obs + [decls[i].1.obs],
                      trans + [row], reward + [Rewards(decls[i].1.arcs)])
  {
  }

  /** One iteration of the constructor's loop: state `i`'s entry appended to each of the four tables. */
  method AddRow<K(==, !new)>(decls: seq<(K, StateDecl<K>)>, names: seq<K>, indices: map<K, nat>, i: nat,
                            term: seq<bool>, obs: seq<seq<real>>, trans: seq<seq<nat>>, reward: seq<seq<real>>)
    returns (r: Result<(seq<bool>, seq<seq<real>>, seq<seq<nat>>, seq<seq<real>>), K>)
    requires names == Names(decls) && Distinct(names) && indices == Indices(names)
    requires i < |decls| && FirstMissing(Targets(decls[..i]), names).None?
    requires RowsMatch(decls, i, term, obs, trans, reward)
    ensures r.Ok? <==> FirstMissing(ArcTargets(decls[i].1.arcs), names).None?
    ensures r.Err? ==> FirstMissing(Targets(decls), names) == Some(r.error)
    ensures r.Ok? ==> FirstMissing(Targets(decls[..i + 1]), names).None?
    ensures r.Ok? ==>
      && r.value.0 == term + [decls[i].1.terminal]
      && r.value.1 == obs + [decls[i].1.obs]
      && |r.value.2| == i + 1 && r.value.2[..i] == trans
      && r.value.3 == reward + [Rewards(decls[i].1.arcs)]
    ensures r.Ok? ==> RowsMatch(decls, i + 1, r.value.0, r.value.1, r.value.2, r.value.3)
  {
    var row := ResolveRow(indices, names, decls[i].1.arcs);
    if row.Err? {
      FirstMissingInRow(decls, i, names, row.error);
      return Err(row.error);
    }
    NoneMissingExtend(decls, i, names);
    RowsMatchExtend(decls, i, term, obs, trans, reward, row.value);
    r := Ok((term + [decls[i].1.terminal], obs + [decls[i].1.obs], trans + [row.value], reward + [Rewards(decls[i].1.arcs)]));
  }

  /** The loop over the declared states that appends one entry to each of the four tables per state. */
  method FillRows<K(==, !new)>(decls: seq<(K, StateDecl<K>)>, names: seq<K>, indices: map<K, nat>)
    returns (r: Result<(seq<bool>, seq<seq<real>>, seq<seq<nat>>, seq<seq<real>>), K>)
    requires names == Names(decls) && Distinct(names) && indices == Indices(names)
    ensures r.Err? <==> FirstMissing(Targets(decls), names).Some?
    ensures r.Err? ==> FirstMissing(Targets(decls), names) == Some(r.error)
    ensures r.Ok? ==> RowsMatch(decls, |decls|, r.value.0, r.value.1, r.value.2, r.value.3)
  {
    var term: seq<bool>, obs: seq<seq<real>>, trans: seq<seq<nat>>, reward: seq<seq<real>> := [], [], [], [];
    var i := 0;
    while i < |decls|
      invariant 0 <= i <= |decls|
      invariant FirstMissing(Targets(decls[..i]), names).None?
      invariant RowsMatch(decls, i, term, obs, trans, reward)
    {
      var next := AddRow(decls, names, indices, i, term, obs, trans, reward);
      if next.Err? {
        return Err(next.error);
      }
      term, obs, trans, reward := next.value.0, next.value.1, next.value.2, next.value.3;
      i := i + 1;
    }
    assert decls[..i] == decls;
    r := Ok((term, obs, trans, reward));
  }

  /** Builds the four tables state by state, as the environment's constructor does. */
  method MakeTable<K(==, !new)>(decls: seq<(K, StateDecl<K>)>) returns (r: Result<Table, BuildError<K>>)
    requires Distinct(Names(decls))
    ensures r == Build(decls)
  {
    var names := Names(decls);
    var indices := Indices(names);
    var dObs := Uniform(ObsLengths(decls));
    if dObs.None? {
      return Err(if |decls| == 0 then NoStates else ObsLengthMismatch);
    }
    var nActions := Uniform(ArcCounts(decls));
    if nActions.None? {
      return Err(ActionCountMismatch);
    }
    var rows := FillRows(decls, names, indices);
    if rows.Err? {
      return Err(UnknownState(rows.error));
    }
    var (term, obs, trans, reward) := rows.value;
    NoneMissingIffDeclared(decls);
    assert Rectangular(decls, dObs.value, nActions.value) by {
      forall k | 0 <= k < |decls| ensures |decls[k].1.obs| == dObs.value && |decls[k].1.arcs| == nActions.value {
        assert ObsLengths(decls)[k] == dObs.value && ArcCounts(decls)[k] == nActions.value;
      }
    }
    AssembleFromRows(decls, dObs.value, nActions.value, term, obs, trans, reward);
    r := Ok(Table(dObs.value, nActions.value, term, obs, trans, reward));
  }
}
