/**
 * Free-tier quotas: every call increments a stored counter in one atomic step and
 * decides by the value it got back. Any number of calls may interleave.
 */
module Quota {
  import opened Sequences
  import opened OrderedMaps

  datatype Kind = RECIPE_SCAN | BASKET_OPTIMIZATION | AI_CHAT_MESSAGE | OCR_UPLOAD

  datatype UsageKey = UsageKey(userId: string, kind: Kind, periodKey: string)

  /** What a call asks for; `unlimited` for premium users or when quotas are off. */
  datatype Request = Request(key: UsageKey, unlimited: bool)

  /** How far a call has come; `count` is what the increment returned. */
  datatype Call = Counted(count: nat) | Granted(count: nat) | Refused(count: nat) | Exempt

  datatype State = State(usage: map<UsageKey, nat>, calls: map<nat, Call>)

  /** The atomic steps of call `id`. */
  datatype Step = Begin(id: nat) | Decide(id: nat)

  function Used(s: State, k: UsageKey): nat {
    if k in s.usage then s.usage[k] else 0
  }

  /** One step; a step that is not enabled does nothing. */
  function Apply(reqs: nat -> Request, limit: Kind -> int, s: State, step: Step): State {
    match step
    case Begin(id) =>
      if id in s.calls then s
      else if reqs(id).unlimited then s.(calls := s.calls[id := Exempt])
      else
        var k := reqs(id).key;
        var n := Used(s, k) + 1;
        State(s.usage[k := n], s.calls[id := Counted(n)])
    case Decide(id) =>
      if id in s.calls && s.calls[id].Counted? then
        var n := s.calls[id].count;
        s.(calls := s.calls[id := if n > limit(reqs(id).key.kind) then Refused(n) else Granted(n)])
      else s
  }

  /** A run from the empty table. */
  function Run(reqs: nat -> Request, limit: Kind -> int, steps: seq<Step>): State {
    if steps == [] then State(map[], map[])
    else Apply(reqs, limit, Run(reqs, limit, steps[..|steps| - 1]), steps[|steps| - 1])
  }

  // ---- counting calls ----

  /** The calls under key `k` that drew a number of at most `l`. */
  ghost function DrewAtMost(reqs: nat -> Request, s: State, k: UsageKey, l: int): set<nat> {
    set id | id in s.calls && reqs(id).key == k && !s.calls[id].Exempt? && s.calls[id].count <= l
  }

  ghost function GrantedCalls(reqs: nat -> Request, s: State, k: UsageKey): set<nat> {
    set id | id in s.calls && reqs(id).key == k && s.calls[id].Granted?
  }

  /** The calls under `k` that have been decided. */
  ghost function Completed(reqs: nat -> Request, s: State, k: UsageKey): set<nat> {
    set id | id in s.calls && reqs(id).key == k && (s.calls[id].Granted? || s.calls[id].Refused?)
  }

  ghost predicate NonePending(reqs: nat -> Request, s: State, k: UsageKey) {
    forall id <- s.calls :: reqs(id).key == k ==> !s.calls[id].Counted?
  }

  function Min(a: int, b: int): int {
    if a < b then a else b
  }

  function AtLeast0(a: int): nat {
    if a < 0 then 0 else a
  }

  // ---- the invariant ----

  /** Of every key's numbers 1, 2, ..., each one up to the counter was drawn by exactly one call. */
  ghost predicate NumbersDrawnOnce(reqs: nat -> Request, s: State, k: UsageKey) {
    && (forall l: int :: |DrewAtMost(reqs, s, k, l)| == Min(AtLeast0(l), Used(s, k)))
    && CountsInRange(reqs, s, k)
  }

  ghost predicate DecidedByLimit(reqs: nat -> Request, limit: Kind -> int, s: State) {
    forall id <- s.calls ::
      && (s.calls[id].Granted? ==> s.calls[id].count <= limit(reqs(id).key.kind))
      && (s.calls[id].Refused? ==> s.calls[id].count > limit(reqs(id).key.kind))
  }

  /** The step is an increment under key `k`. */
  ghost predicate DrawsNumber(reqs: nat -> Request, s: State, step: Step, k: UsageKey) {
    step.Begin? && step.id !in s.calls && !reqs(step.id).unlimited && reqs(step.id).key == k
  }

  lemma DrewStep(reqs: nat -> Request, limit: Kind -> int, s: State, step: Step, k: UsageKey, l: int)
    ensures DrewAtMost(reqs, Apply(reqs, limit, s, step), k, l) ==
            DrewAtMost(reqs, s, k, l)
            + if DrawsNumber(reqs, s, step, k) && Used(s, k) + 1 <= l then {step.id} else {}
    ensures Used(Apply(reqs, limit, s, step), k) == Used(s, k) + if DrawsNumber(reqs, s, step, k) then 1 else 0
  {
  }

  lemma StepKeepsNumbers(reqs: nat -> Request, limit: Kind -> int, s: State, step: Step, k: UsageKey)
    requires NumbersDrawnOnce(reqs, s, k)
    ensures NumbersDrawnOnce(reqs, Apply(reqs, limit, s, step), k)
  {
    var t := Apply(reqs, limit, s, step);
    forall l: int
      ensures |DrewAtMost(reqs, t, k, l)| == Min(AtLeast0(l), Used(t, k))
    {
      OneMoreDrawn(reqs, limit, s, step, k, l);
    }
    NumbersInRange(reqs, limit, s, step, k);
  }

  lemma OneMoreDrawn(reqs: nat -> Request, limit: Kind -> int, s: State, step: Step, k: UsageKey, l: int)
    requires |DrewAtMost(reqs, s, k, l)| == Min(AtLeast0(l), Used(s, k))
    ensures var t := Apply(reqs, limit, s, step); |DrewAtMost(reqs, t, k, l)| == Min(AtLeast0(l), Used(t, k))
  {
    DrewStep(reqs, limit, s, step, k, l);
    assert DrawsNumber(reqs, s, step, k) ==> step.id !in DrewAtMost(reqs, s, k, l);
  }

  ghost predicate CountsInRange(reqs: nat -> Request, s: State, k: UsageKey) {
    forall id <- s.calls :: reqs(id).key == k && !s.calls[id].Exempt? ==> 1 <= s.calls[id].count <= Used(s, k)
  }

  lemma NumbersInRange(reqs: nat -> Request, limit: Kind -> int, s: State, step: Step, k: UsageKey)
    requires CountsInRange(reqs, s, k)
    ensures CountsInRange(reqs, Apply(reqs, limit, s, step), k)
  {
  }

  lemma {:induction false} EveryRunDrawsOnce(reqs: nat -> Request, limit: Kind -> int, steps: seq<Step>, k: UsageKey)
    ensures NumbersDrawnOnce(reqs, Run(reqs, limit, steps), k)
    ensures DecidedByLimit(reqs, limit, Run(reqs, limit, steps))
  {
    if steps == [] {
      forall l: int
        ensures DrewAtMost(reqs, Run(reqs, limit, steps), k, l) == {}
      {
      }
    } else {
      EveryRunDrawsOnce(reqs, limit, steps[..|steps| - 1], k);
      StepKeepsNumbers(reqs, limit, Run(reqs, limit, steps[..|steps| - 1]), steps[|steps| - 1], k);
    }
  }

  /** Never more successes than the limit, at any point of any run. */
  lemma NeverOverLimit(reqs: nat -> Request, limit: Kind -> int, steps: seq<Step>, k: UsageKey)
    ensures |GrantedCalls(reqs, Run(reqs, limit, steps), k)| <= AtLeast0(limit(k.kind))
  {
    var s := Run(reqs, limit, steps);
    EveryRunDrawsOnce(reqs, limit, steps, k);
    SubsetCardinality(GrantedCalls(reqs, s, k), DrewAtMost(reqs, s, k, limit(k.kind)));
  }

  /**
   * Exactness: whenever no call is between its increment and its decision, the number
   * of successes is min(limit, completed calls), however the steps interleaved.
   */
  lemma SuccessesAreExact(reqs: nat -> Request, limit: Kind -> int, steps: seq<Step>, k: UsageKey)
    requires NonePending(reqs, Run(reqs, limit, steps), k)
    ensures var s := Run(reqs, limit, steps);
      && |Completed(reqs, s, k)| == Used(s, k)
      && |GrantedCalls(reqs, s, k)| == Min(AtLeast0(limit(k.kind)), |Completed(reqs, s, k)|)
  {
    var s := Run(reqs, limit, steps);
    EveryRunDrawsOnce(reqs, limit, steps, k);
    assert GrantedCalls(reqs, s, k) == DrewAtMost(reqs, s, k, limit(k.kind));
    assert Completed(reqs, s, k) == DrewAtMost(reqs, s, k, Used(s, k));
  }

  // ---- keys do not interfere ----

  /** The steps of the calls under `k`. */
  function StepsOf(reqs: nat -> Request, steps: seq<Step>, k: UsageKey): seq<Step> {
    if steps == [] then []
    else
      var before, step := StepsOf(reqs, steps[..|steps| - 1], k), steps[|steps| - 1];
      if reqs(step.id).key == k then before + [step] else before
  }

  /** What `k`'s users can see: the counter and their own calls. */
  ghost predicate SameView(reqs: nat -> Request, s: State, t: State, k: UsageKey) {
    && Used(s, k) == Used(t, k)
    && forall id :: reqs(id).key == k ==>
         && (id in s.calls <==> id in t.calls)
         && (id in s.calls ==> s.calls[id] == t.calls[id])
  }

  lemma StepKeepsView(reqs: nat -> Request, limit: Kind -> int, s: State, t: State, step: Step, k: UsageKey)
    requires SameView(reqs, s, t, k)
    ensures reqs(step.id).key == k ==>
              SameView(reqs, Apply(reqs, limit, s, step), Apply(reqs, limit, t, step), k)
    ensures reqs(step.id).key != k ==> SameView(reqs, Apply(reqs, limit, s, step), t, k)
  {
  }

  /** Everything under one key is as if the calls under all other keys had never been made. */
  lemma {:induction false} KeysAreIndependent(
    reqs: nat -> Request, limit: Kind -> int, steps: seq<Step>, k: UsageKey)
    ensures SameView(reqs, Run(reqs, limit, steps), Run(reqs, limit, StepsOf(reqs, steps, k)), k)
  {
    if steps != [] {
      var init, step := steps[..|steps| - 1], steps[|steps| - 1];
      KeysAreIndependent(reqs, limit, init, k);
      StepKeepsView(
        reqs, limit, Run(reqs, limit, init), Run(reqs, limit, StepsOf(reqs, init, k)), step, k);
      AppendInit(StepsOf(reqs, init, k), step);
    }
  }

  // ---- one call, uninterrupted ----

  /**
   * A call run alone: an unlimited one counts nothing and goes ahead; any other adds one
   * to its own counter alone and goes ahead exactly when the new count is within the limit.
   */
  lemma WholeCall(reqs: nat -> Request, limit: Kind -> int, usage: map<UsageKey, nat>, id: nat)
    ensures var s := Apply(reqs, limit, Apply(reqs, limit, State(usage, map[]), Begin(id)), Decide(id));
      var k := reqs(id).key;
      if reqs(id).unlimited then s == State(usage, map[id := Exempt])
      else
        var count := if k in usage then usage[k] + 1 else 1;
        s == State(usage[k := count], map[id := if count <= limit(k.kind) then Granted(count) else Refused(count)])
  {
    var s := Apply(reqs, limit, State(usage, map[]), Begin(id));
    assert id in s.calls;
  }

  /** The usage table and the call that consumes from it. */
  class QuotaService {
    var usage: map<UsageKey, nat>

    constructor ()
      ensures usage == map[]
    {
      usage := map[];
    }

    /** The atomic upsert: create with 1, or add 1. */
    method UpsertIncrement(key: UsageKey) returns (count: nat)
      modifies this
      ensures count == Used(State(old(usage), map[]), key) + 1
      ensures usage == old(usage)[key := count]
    {
      count := if key in usage then usage[key] + 1 else 1;
      usage := usage[key := count];
    }

    /** Returns whether the call may go ahead; `false` is the 402 answer. */
    method AssertAndConsume(id: nat, reqs: nat -> Request, limit: Kind -> int) returns (granted: bool)
      modifies this
      ensures var s := Apply(reqs, limit, Apply(reqs, limit, State(old(usage), map[]), Begin(id)), Decide(id));
        usage == s.usage && granted == !s.calls[id].Refused?
    {
      if reqs(id).unlimited {
        return true;
      }
      var count := UpsertIncrement(reqs(id).key);
      granted := count <= limit(reqs(id).key.kind);
    }
  }
}
