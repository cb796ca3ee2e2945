/**
 * The onboarding wizard's client state: the current step (1 to 4), the data
 * collected so far, and one completion flag per step. Every operation is a
 * pure transition on that state.
 */
module Wizard {
  import opened Common

  const StepsCount: int := 4

  /** The fields the four steps collect. */
  datatype DataKey = Name | Slug | Address | City | Country | Phone | Timezone | OpeningHours | PosEnabled

  /** A collected value; a patch may also carry an explicit `undefined`. */
  datatype DataValue = Text(text: string) | Flag(flag: bool) | Undefined

  /** A completion slot: a flag, or a hole left when an index beyond the end is set. */
  type Slot = Option<bool>

  datatype State = State(step: int, data: map<DataKey, DataValue>, completed: seq<Slot>)

  function AllFalse(): (c: seq<Slot>)
    ensures |c| == StepsCount && forall i :: 0 <= i < |c| ==> c[i] == Some(false)
  {
    seq(StepsCount, _ => Some(false))
  }

  /** Step 1, no data, four cleared flags. */
  const Initial: State := State(1, map[], AllFalse())

  predicate StepInRange(s: State) {
    1 <= s.step <= StepsCount
  }

  /** `setStep(n)`: n clamped into [1, 4]. */
  function SetStep(s: State, n: int): (r: State)
    ensures StepInRange(r)
    ensures 1 <= n <= StepsCount ==> r.step == n
    ensures n < 1 ==> r.step == 1
    ensures n > StepsCount ==> r.step == StepsCount
    ensures r.data == s.data && r.completed == s.completed
  {
    var m := if n < 1 then 1 else n;
    s.(step := if m > StepsCount then StepsCount else m)
  }

  function Min(a: int, b: int): int { if a <= b then a else b }
  function Max(a: int, b: int): int { if a >= b then a else b }

  /** `next`: one step forward, never past the last. */
  function Next(s: State): (r: State)
    ensures StepInRange(r)
    ensures StepInRange(s) && s.step < StepsCount ==> r.step == s.step + 1
    ensures s.step == StepsCount ==> r == s
    ensures r.data == s.data && r.completed == s.completed
  {
    SetStep(s, Min(StepsCount, s.step + 1))
  }

  /** `back`: one step back, never before the first. */
  function Back(s: State): (r: State)
    ensures StepInRange(r)
    ensures StepInRange(s) && s.step > 1 ==> r.step == s.step - 1
    ensures s.step == 1 ==> r == s
    ensures r.data == s.data && r.completed == s.completed
  {
    SetStep(s, Max(1, s.step - 1))
  }

  /** Back undoes next away from the last step, and next undoes back away from the first. */
  lemma NextBack(s: State)
    requires StepInRange(s)
    ensures s.step < StepsCount ==> Back(Next(s)) == s
    ensures s.step > 1 ==> Next(Back(s)) == s
  {
  }

  /** `update(patch)`: the keys of the patch take its values, the others keep theirs. */
  function Update(s: State, patch: map<DataKey, DataValue>): (r: State)
    ensures r.data.Keys == s.data.Keys + patch.Keys
    ensures forall k :: k in patch ==> r.data[k] == patch[k]
    ensures forall k :: k in s.data && k !in patch ==> r.data[k] == s.data[k]
    ensures r.step == s.step && r.completed == s.completed
  {
    s.(data := s.data + patch)
  }

  /** Applying the same patch twice is applying it once; an empty patch changes nothing. */
  lemma UpdateIdempotent(s: State, patch: map<DataKey, DataValue>)
    ensures Update(Update(s, patch), patch) == Update(s, patch)
    ensures Update(s, map[]) == s
  {
  }

  /** `reset`: back to the initial state. */
  function Reset(s: State): (r: State)
    ensures r.step == 1 && r.data == map[] && r.completed == AllFalse()
  {
    Initial
  }

  /** `setCompletedStep(index, done)` on a copy of the flags. A negative index
      sets a property the next copy drops, so the flags are unchanged; an index
      at or past the end lengthens the array, leaving holes. */
  function SetCompletedStep(s: State, index: int, done: bool): (r: State)
    ensures r.step == s.step && r.data == s.data
    ensures index < 0 ==> r.completed == s.completed
    ensures 0 <= index ==> |r.completed| == Max(|s.completed|, index + 1) && r.completed[index] == Some(done)
    ensures forall i :: 0 <= i < |s.completed| && i != index ==> r.completed[i] == s.completed[i]
    ensures forall i :: |s.completed| <= i < |r.completed| && i != index ==> r.completed[i] == None
  {
    var c := s.completed;
    if index < 0 then s
    else if index < |c| then s.(completed := c[index := Some(done)])
    else s.(completed := c + seq(index - |c|, _ => None) + [Some(done)])
  }

  /** The wizard's operations, as its consumers call them. */
  datatype Op =
    | SetStepOp(n: int) | NextOp | BackOp | UpdateOp(patch: map<DataKey, DataValue>)
    | ResetOp | SetCompletedOp(index: int, done: bool)

  function Apply(s: State, op: Op): State {
    match op
    case SetStepOp(n) => SetStep(s, n)
    case NextOp => Next(s)
    case BackOp => Back(s)
    case UpdateOp(patch) => Update(s, patch)
    case ResetOp => Reset(s)
    case SetCompletedOp(i, d) => SetCompletedStep(s, i, d)
  }

  function Run(s: State, ops: seq<Op>): State
    decreases |ops|
  {
    if |ops| == 0 then s else Run(Apply(s, ops[0]), ops[1..])
  }

  /** What every operation keeps: the step within [1, 4] and at least four flags. */
  predicate Invariant(s: State) {
    StepInRange(s) && |s.completed| >= StepsCount
  }

  lemma ApplyKeepsInvariant(s: State, op: Op)
    requires Invariant(s)
    ensures Invariant(Apply(s, op))
  {
  }

  /** From the initial state, any sequence of operations keeps the invariant. */
  lemma {:induction false} RunKeepsInvariant(s: State, ops: seq<Op>)
    requires Invariant(s)
    ensures Invariant(Run(s, ops))
    decreases |ops|
  {
    if |ops| > 0 {
      ApplyKeepsInvariant(s, ops[0]);
      RunKeepsInvariant(Apply(s, ops[0]), ops[1..]);
    }
  }

  lemma InitialInvariant()
    ensures Invariant(Initial)
  {
  }
}
