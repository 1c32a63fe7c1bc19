# Finite-state-machine test environment

This project models the finite-state-machine environment of `onedee/envs/fsm.py`. A machine is declared as an ordered mapping:

```
state name -> (terminal flag, observation tuple, [(next state name, reward), ...])
```

The transition list has one `(name, reward)` pair per action.

`FSMEnv` turns such a mapping into four parallel tables:
- terminal flags;
- observation rows;
- a next-state matrix;
- a reward matrix.

It then runs `n_envs` independent instances of the machine over them. Each instance keeps the number of its current state (its *token*) in one shared array, and `reset` and `step` update that array in place. Two concrete machines are declared next to it:
- `UnitReward`: one state that pays 1 on every step;
- `Chain(n)`: a line of `n` states that pays 1 on entering the last state, which is terminal.

The project has four modules:

- `FsmTable` (`fsm_table.dfy`) models table construction, lines 9-31. The mapping is a sequence of `(name, StateDecl)` pairs with distinct names, because a dict cannot repeat a key.
  - `Build` is the specification of construction. It fails, in the order the constructor fails:
    - on an empty mapping (`NoStates`), because the empty set of lengths cannot be unpacked at line 11;
    - on differing observation lengths (line 11);
    - on differing transition counts (line 12);
    - on the first undeclared target name in declaration order (line 26).
  - Otherwise `Build` yields the tables. `MakeTable` is the constructor itself, proved to produce exactly `Build`'s result. `FillRows` is its loop over the states, `AddRow` one pass of that loop, and `ResolveRow` the lookup of one state's targets. These three are proved against the first undeclared target (`FirstMissing`) and against the declared rows (`RowsMatch`).
- `FsmEnv` (`fsm_env.dfy`) has the `Env` class. Its token array is an `array<nat>` that `Reset` and `Step` change in place, and its tables are immutable.
  - `Advance` is one instance's step: the reward lookup, the next-state lookup, and the return to state 0 on a terminal state.
  - `Refusal` is the reason a step refuses its actions, if it does.
  - `Run` is a sequence of steps.
  - `Repr` is `__repr__`.
- `Decimal` (`decimal.dfy`) holds the decimal numerals that the representation string prints, and proves that a numeral determines its number.
- `FsmMachines` (`fsm_machines.dfy`) has `UnitReward` and `Chain(n)` as plain constructors of a configured `Env`. It proves their exact reward and reset sequences:
  - `UnitReward` pays 1 and never resets.
  - `Chain(n)` pays 1 and resets on exactly every (n-1)-th step after a reset, and pays 0 otherwise.

Modelling choices:
- An action vector has either one entry per instance or a single entry, which is broadcast to all instances. This is how the tensor indexing at line 43 combines a token vector with an action vector.
- A negative action counts from the end of the action axis, as tensor indexing does.
- Actions of any other shape, or out of range, make `Step` fail with nothing changed, as `Refusal` describes:
  - Vectors that do not broadcast fail at line 43 with a shape mismatch, before any action is looked up.
  - An action that the broadcast reaches and that does not index the action axis fails at line 43 as out of range.
  - With a single instance, the token broadcasts against any number of actions. Line 43 then checks the range of every action, and only the write-back at line 44 refuses a result of the wrong length, as a shape mismatch.
  - In every case the tokens are written only after both lookups succeed, so a failed step leaves them as they were.
- Rewards and observations are exact `real` values, copied and never computed with. `Chain`'s observations are modelled as written: `n - 2/n` and `n - 1/n` bind the division first.

## Model

| member | source | states |
|---|---|---|
| `FsmTable.Indices` | onedee/envs/fsm.py:10 | Exactly the declared names are mapped, and the name declared i-th is mapped to i. |
| `FsmTable.UniformIsSingletonUnpack` | onedee/envs/fsm.py:11-12 | The length check succeeds with value x exactly when the set of lengths is {x}, which is when the one-element unpacking succeeds. |
| `FsmTable.FirstMissing` | onedee/envs/fsm.py:23-26 | Nothing is reported exactly when every target is declared. A reported name is undeclared, and every target before its first occurrence is declared. |
| `FsmTable.NoneMissingIffDeclared` | onedee/envs/fsm.py:26 | No undeclared target is found exactly when every transition of every state names a declared state. |
| `FsmTable.Resolved` | onedee/envs/fsm.py:26 | Each resolved entry is a valid state number, and the state it numbers is the one the transition names. |
| `FsmTable.Assemble` | onedee/envs/fsm.py:22-31 | The four tables are well formed. Row i holds state i's terminal flag, observation and rewards, and every next-state entry numbers the state its transition names. |
| `FsmTable.Build` | onedee/envs/fsm.py:9-31 | On success the tables are well formed and have one row per declared state, in declaration order. Observation length and action count come from the states, and every next-state entry numbers the named target. |
| `FsmTable.BuildSucceedsIff` | onedee/envs/fsm.py:10-27 | Construction succeeds exactly when there are states, all observation lengths agree, all transition counts agree, and every target is declared. |
| `FsmTable.BuildSpaces` | onedee/envs/fsm.py:14-15 | The action space offers one choice per declared transition. The observation space is empty exactly when no state observes anything, and is otherwise a vector of the common observation length. |
| `FsmTable.BuildEmpty` | onedee/envs/fsm.py:11 | An empty mapping fails on the observation-length check. |
| `FsmTable.BuildObsMismatch` | onedee/envs/fsm.py:11 | Two states with different observation lengths make construction fail on the observation-length check. |
| `FsmTable.BuildActionMismatch` | onedee/envs/fsm.py:12 | With equal observation lengths, two states with different transition counts make construction fail on the action-count check. |
| `FsmTable.BuildUnknownState` | onedee/envs/fsm.py:26 | A name reported as unknown is undeclared, yet some transition names it. |
| `FsmTable.ResolveRow` | onedee/envs/fsm.py:26 | The loop over one state's transitions succeeds exactly when every target is declared, and resolves each one to the number of the named state. Otherwise it fails on the first undeclared name. |
| `FsmTable.AddRow` | onedee/envs/fsm.py:23-27 | One pass of the constructor's loop fails exactly when state i names an undeclared target, and then with the first undeclared target overall. Otherwise it appends state i's terminal flag, observation, rewards and resolved next states to the four tables. |
| `FsmTable.FillRows` | onedee/envs/fsm.py:22-27 | The constructor's loop fails exactly when some target is undeclared, and then with the first one. Otherwise its rows match the declared states, in order. |
| `FsmTable.MakeTable` | onedee/envs/fsm.py:9-31 | The constructor, checks and loop together, produces exactly `Build`'s result, success or error. |
| `FsmEnv.AxisIndex` | onedee/envs/fsm.py:43 | An action index selects a position on the action axis: itself, or itself plus the axis length when it is negative. |
| `FsmEnv.ActionAt` | onedee/envs/fsm.py:43 | Broadcasting gives each instance one of the given actions: its own entry when the vector has one for it, and the single entry when there is only one. |
| `FsmEnv.ActionsFitIff` | onedee/envs/fsm.py:43 | The actions fit exactly when they have one entry per instance or a single entry, and every action looked up indexes the action axis. A single action broadcast over no instances is never looked up. |
| `FsmEnv.Refusal` | onedee/envs/fsm.py:43-44 | A step is refused exactly when the actions do not fit. A shape mismatch means the vector has neither one entry per instance nor a single entry. With more than one instance, or none, such a vector is always a shape mismatch, even when an action is also out of range, because broadcasting comes before any lookup. An out-of-range refusal means some action does not index the action axis, and with a single instance any such action gives that refusal. |
| `FsmEnv.Advance` | onedee/envs/fsm.py:43-47 | One instance's step lands on a valid state. It resets exactly when the state its transition names is terminal, and never rests on a terminal state unless state 0 is terminal. |
| `FsmEnv.Run` | onedee/envs/fsm.py:41-47 | A sequence of steps always leaves a valid state number. Starting on a non-terminal state, it never rests on a terminal state unless state 0 is terminal. |
| `FsmEnv.ReprDeterminesShape` | onedee/envs/fsm.py:55-57 | Two representations with the same class name are equal only if their numbers of states and of actions are equal. |
| `FsmEnv.Env.constructor` | onedee/envs/fsm.py:17-20 | A new environment has a fresh token array of `n_envs` zeros over well-formed tables. |
| `FsmEnv.Env.Reset` | onedee/envs/fsm.py:33-39 | Every token becomes 0. Each instance reports state 0's observation, reward 0, reset and terminal. |
| `FsmEnv.Env.Step` | onedee/envs/fsm.py:41-53 | The step succeeds exactly when the actions broadcast over the instances and index the action axis. Otherwise it fails with `Refusal`'s reason and changes nothing. Each instance depends only on its own old token and action: it is paid the reward table entry, reset and terminal are equal and say whether the landed state is terminal, the token becomes the landed state or 0, and it observes the row of its new token. |
| `FsmEnv.Env.Repr` | onedee/envs/fsm.py:55-57 | The representation is `<class name>(<states>s<actions>a)`, and any number of states and actions read back from it are the environment's own. |
| `FsmEnv.NewEnv` | onedee/envs/fsm.py:9-31 | An environment is created exactly when the tables build, and otherwise fails with construction's error. Its tables are `Build`'s and its tokens are all 0. |
| `Decimal.Digits` | onedee/envs/fsm.py:57 | An integer is formatted as a non-empty string of digits with no leading zero. |
| `Decimal.ValueOfDigits` | onedee/envs/fsm.py:57 | Reading the formatted numeral back gives the integer. |
| `Decimal.DigitsInjective` | onedee/envs/fsm.py:57 | Different integers are formatted differently. |
| `FsmMachines.UnitRewardBuilds` | onedee/envs/fsm.py:97-99 | `UnitReward` builds one non-terminal state, with no observation, whose single action loops back to itself for reward 1. Its action space has one choice and its observation space is empty. |
| `FsmMachines.UnitRewardRun` | onedee/envs/fsm.py:97-99 | After any number of steps `UnitReward` is in state 0, and its next step pays 1 without a reset. |
| `FsmMachines.Chain` | onedee/envs/fsm.py:102-110 | Fewer than two states are refused. Otherwise the loop declares states 0 to n-1 in order, as in `ChainDecls`. |
| `FsmMachines.ChainTable` | onedee/envs/fsm.py:102-110 | `Chain(n)`'s tables are well formed, with n states, one action and one observation value. |
| `FsmMachines.ChainNames` | onedee/envs/fsm.py:104-109 | `Chain(n)` names its states 0 to n-1, in order, without repetition. |
| `FsmMachines.ChainTargetsDeclared` | onedee/envs/fsm.py:106-109 | Every transition of `Chain(n)` names a declared state. |
| `FsmMachines.ChainBuilds` | onedee/envs/fsm.py:102-110 | `Chain(n)` builds, and the tables built are `ChainTable(n)`: state i moves to i+1, state n-1 stays put, only n-1 is terminal, and only the move from n-2 pays. |
| `FsmMachines.ChainAdvance` | onedee/envs/fsm.py:106-109 | From a non-terminal state j, `Chain(n)` moves to j+1 for reward 0. From n-2 it pays 1, resets, and returns to state 0. |
| `FsmMachines.ChainNext` | onedee/envs/fsm.py:102-110 | From state x mod (n-1), one step lands on (x+1) mod (n-1). It pays 1 and resets exactly when that is 0. |
| `FsmMachines.ChainRun` | onedee/envs/fsm.py:102-110 | After k steps from state 0, `Chain(n)` is in state k mod (n-1). |
| `FsmMachines.ChainStep` | onedee/envs/fsm.py:102-110 | Step k+1 after a reset pays 1 and resets exactly when k+1 is a multiple of n-1, and otherwise pays 0 and moves one state on. |
| `FsmMachines.ChainStepAll` | onedee/envs/fsm.py:41-53 | A vectorised step of `Chain(n)` from tokens that all took s steps reports step s+1 on every instance, and leaves every token where s+1 steps lead. |
| `FsmMachines.UnitRewardStepAll` | onedee/envs/fsm.py:41-53 | A vectorised step of `UnitReward` from state 0 pays 1 without a reset on every instance and stays in state 0. |
| `FsmMachines.NewUnitReward` | onedee/envs/fsm.py:87-99 | The `UnitReward` environment has `UnitReward`'s tables and all tokens at 0. |
| `FsmMachines.NewChain` | onedee/envs/fsm.py:87-110 | The `Chain(n)` environment exists exactly when n >= 2, and then has `ChainTable(n)` and all tokens at 0. |
| `FsmMachines.StepUnitReward` | onedee/envs/fsm.py:41-53 | Stepping a `UnitReward` environment, whose only state keeps every token at 0, pays 1 on every instance without a reset, and keeps the tokens at 0. |
| `FsmMachines.RunUnitReward` | onedee/envs/fsm.py:97-99 | After a reset every step of `UnitReward` pays 1 on every instance, with reset and terminal false. |
| `FsmMachines.StepChain` | onedee/envs/fsm.py:41-53 | Stepping a `Chain(n)` environment advances every instance by one step of the chain. |
| `FsmMachines.RunChain` | onedee/envs/fsm.py:102-110 | After a reset, step s of `Chain(n)` pays 1 and reports reset and terminal on every instance exactly when s is a multiple of n-1; otherwise it pays 0 with no reset. |

## Left out

- Devices, dtypes and tensor conversion (`torch.device`, `as_tensor`): the tables are plain sequences. Rewards and observations are exact reals, not 32-bit floats, and tokens are unbounded naturals rather than 64-bit integers.
- The agent axis (`n_agents = 1`, `actions[:, 0]`, `obs[..., None]`): an action is one integer per instance, and an observation is one row per instance.
- The `decision` object: `Step` takes the action vector directly.
- Exceptions are modelled as `Err` results. This covers the failed unpacking at lines 11-12, the key lookup at line 26, a shape mismatch or an out-of-range index at line 43, a failed write-back at line 44, and the `assert` at line 103. Their messages are not modelled.
- `FsmEnv.Env.Step`: lines 52-53 return `reset` and `terminal` as one tensor object. The model returns two equal sequences, so that aliasing is not captured: writing into one of them would change the other in the source, but not in the model.
- `FsmEnv.Refusal`: only two kinds of refusal are told apart, a shape mismatch and an out-of-range action. The Python exception classes (`IndexError`, `RuntimeError`) and their messages are not modelled.
- `__str__` (lines 59-60) only returns `__repr__`.
- The `State` and `Builder` classes (lines 63-84) are not modelled. Nothing uses them, and they call `add` on lists, so they cannot run as written.
- The `fsm` decorator (lines 87-95) is not modelled: the synthesised subclass and the `__all__` registry. `NewUnitReward` and `NewChain` build the configured environment directly. Their class names are fixed as `"UnitReward"` and `"Chain"`, and they take the number of instances as a parameter rather than defaulting it to 1 as the decorator does (line 89).
- `FsmEnv.Env.Repr`: the class name is the `name` given at creation, not one read from a Python type.
- The commented-out `CoinFlip` machine (lines 112-118) is not modelled.
- The training and recording code in `megastep/demo/__init__.py` (neural networks, optimisation, GPU loops) is not part of this model.
