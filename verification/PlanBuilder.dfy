/**
 * The meal-plan builder: a greedy loop that fills every slot with the candidate of
 * highest utility among those that still leave the rest of the plan affordable.
 */
module PlanBuilder {
  import opened Sequences
  import opened Options

  datatype MealType = BREAKFAST | LUNCH | DINNER | SNACK

  datatype Candidate = Candidate(id: string, calories: real, costCents: int, baseScore: real)

  datatype PlanOptions = PlanOptions(
    days: nat, mealsPerDay: int, targetCalories: Option<real>, budgetCents: Option<int>)

  /** A filled slot; `day` counts from the start date. */
  datatype Slot = Slot(day: nat, mealType: MealType, recipeId: string, costCents: int, calories: real)

  datatype Warning =
    | NoCandidates
    | BudgetExceeded(day: nat, mealType: MealType)
    | CaloriesDeviate(day: nat)

  datatype Plan = Plan(slots: seq<Slot>, totalCostCents: int, warnings: seq<Warning>)

  const REPEAT_WINDOW_DAYS := 3
  const REPEAT_PENALTY := 0.75

  function MealTypes(mealsPerDay: int): (types: seq<MealType>)
    ensures 1 <= |types| <= 4
  {
    if mealsPerDay <= 1 then [DINNER]
    else if mealsPerDay == 2 then [LUNCH, DINNER]
    else if mealsPerDay == 3 then [BREAKFAST, LUNCH, DINNER]
    else [BREAKFAST, LUNCH, DINNER, SNACK]
  }

  function Abs(x: real): real {
    if x < 0.0 then -x else x
  }

  function Max0(x: real): real {
    if x < 0.0 then 0.0 else x
  }

  function CalorieFit(calories: real, target: Option<real>): real {
    if target.None? || target.value <= 0.0 then 0.5
    else Max0(1.0 - Abs(calories - target.value) / target.value)
  }

  // ---- what the slots so far say ----

  function TotalCost(slots: seq<Slot>): int {
    if slots == [] then 0 else TotalCost(slots[..|slots| - 1]) + slots[|slots| - 1].costCents
  }

  function DayCalories(slots: seq<Slot>, day: nat): real {
    if slots == [] then 0.0
    else
      var s := slots[|slots| - 1];
      DayCalories(slots[..|slots| - 1], day) + if s.day == day then s.calories else 0.0
  }

  /** The latest day on which a recipe was used. */
  function LastUsed(slots: seq<Slot>, id: string): Option<nat> {
    if slots == [] then None
    else if slots[|slots| - 1].recipeId == id then Some(slots[|slots| - 1].day)
    else LastUsed(slots[..|slots| - 1], id)
  }

  /** Used on one of the last days, this one included. */
  predicate Recent(slots: seq<Slot>, id: string, day: nat) {
    var last := LastUsed(slots, id);
    last.Some? && day - last.value < REPEAT_WINDOW_DAYS
  }

  // ---- one slot ----

  function MinCost(candidates: seq<Candidate>): int
    requires candidates != []
  {
    var last := candidates[|candidates| - 1].costCents;
    if |candidates| == 1 then last
    else
      var before := MinCost(candidates[..|candidates| - 1]);
      if last < before then last else before
  }

  lemma {:induction false} MinCostFacts(candidates: seq<Candidate>)
    requires candidates != []
    ensures forall c <- candidates :: MinCost(candidates) <= c.costCents
    ensures exists c :: c in candidates && c.costCents == MinCost(candidates)
  {
    var n := |candidates| - 1;
    if n == 0 {
      assert candidates[0] in candidates;
    } else {
      MinCostFacts(candidates[..n]);
      var c :| c in candidates[..n] && c.costCents == MinCost(candidates[..n]);
      assert c in candidates && candidates[n] in candidates;
    }
  }

  /** The candidates after which `left` further slots at the cheapest cost still fit the budget. */
  function Affordable(candidates: seq<Candidate>, budget: Option<int>, spent: int, left: int, min: int)
    : seq<Candidate>
  {
    if budget.None? then candidates
    else if candidates == [] then []
    else
      var c, before := candidates[|candidates| - 1],
                       Affordable(candidates[..|candidates| - 1], budget, spent, left, min);
      if spent + c.costCents + left * min <= budget.value then before + [c] else before
  }

  lemma {:induction false} AffordableFacts(
    candidates: seq<Candidate>, budget: Option<int>, spent: int, left: int, min: int)
    ensures forall c :: c in Affordable(candidates, budget, spent, left, min) <==>
              c in candidates && (budget.Some? ==> spent + c.costCents + left * min <= budget.value)
  {
    if budget.Some? && candidates != [] {
      AffordableFacts(candidates[..|candidates| - 1], budget, spent, left, min);
      assert candidates == candidates[..|candidates| - 1] + [candidates[|candidates| - 1]];
    }
  }

  /** The first candidate of least cost: the head of a stable sort by cost. */
  function Cheapest(candidates: seq<Candidate>): Candidate
    requires candidates != []
  {
    var last := candidates[|candidates| - 1];
    if |candidates| == 1 then last
    else
      var before := Cheapest(candidates[..|candidates| - 1]);
      if last.costCents < before.costCents then last else before
  }

  lemma {:induction false} CheapestFacts(candidates: seq<Candidate>)
    requires candidates != []
    ensures Cheapest(candidates) in candidates && Cheapest(candidates).costCents == MinCost(candidates)
  {
    if |candidates| > 1 {
      CheapestFacts(candidates[..|candidates| - 1]);
      assert Cheapest(candidates[..|candidates| - 1]) in candidates;
    }
  }

  /** What is still wanted of today's calories, spread over the slots left today. */
  function PerSlotTarget(target: Option<real>, eaten: real, slotsLeft: int): Option<real>
    requires slotsLeft > 0
  {
    if target.None? then None else Some(Max0(target.value - eaten) / slotsLeft as real)
  }

  function BaseUtility(c: Candidate, target: Option<real>): real {
    c.baseScore + CalorieFit(c.calories, target)
  }

  function Utility(c: Candidate, target: Option<real>, slots: seq<Slot>, day: nat, smallPool: bool): real {
    BaseUtility(c, target) - if !smallPool && Recent(slots, c.id, day) then REPEAT_PENALTY else 0.0
  }

  /** The first of greatest utility, as one sweep with a strict comparison finds it. */
  function BestOf(
    pool: seq<Candidate>, target: Option<real>, slots: seq<Slot>, day: nat, smallPool: bool): Candidate
    requires pool != []
  {
    var last := pool[|pool| - 1];
    if |pool| == 1 then last
    else
      var before := BestOf(pool[..|pool| - 1], target, slots, day, smallPool);
      if Utility(last, target, slots, day, smallPool) > Utility(before, target, slots, day, smallPool) then last
      else before
  }

  lemma {:induction false} BestOfIsFirstMax(
    pool: seq<Candidate>, target: Option<real>, slots: seq<Slot>, day: nat, smallPool: bool) returns (i: nat)
    requires pool != []
    ensures i < |pool| && pool[i] == BestOf(pool, target, slots, day, smallPool)
    ensures forall j :: 0 <= j < |pool| ==>
              Utility(pool[j], target, slots, day, smallPool) <= Utility(pool[i], target, slots, day, smallPool)
    ensures forall j :: 0 <= j < i ==>
              Utility(pool[j], target, slots, day, smallPool) < Utility(pool[i], target, slots, day, smallPool)
  {
    var n := |pool| - 1;
    i := 0;
    if n > 0 {
      i := BestOfIsFirstMax(pool[..n], target, slots, day, smallPool);
      if Utility(pool[n], target, slots, day, smallPool) > Utility(pool[i], target, slots, day, smallPool) {
        i := n;
      }
    }
  }

  // ---- the plan as a specification over its own history ----

  function TotalSlots(opts: PlanOptions): nat {
    opts.days * |MealTypes(opts.mealsPerDay)|
  }

  predicate SmallPool(candidates: seq<Candidate>, opts: PlanOptions) {
    |candidates| < |MealTypes(opts.mealsPerDay)| * 2
  }

  /** The candidates the next slot may take without endangering the budget. */
  function AffordableNext(candidates: seq<Candidate>, opts: PlanOptions, slots: seq<Slot>): seq<Candidate>
    requires candidates != []
  {
    Affordable(candidates, opts.budgetCents, TotalCost(slots), TotalSlots(opts) - |slots| - 1, MinCost(candidates))
  }

  function PoolNext(candidates: seq<Candidate>, opts: PlanOptions, slots: seq<Slot>): (pool: seq<Candidate>)
    requires candidates != []
    ensures pool != []
  {
    var affordable := AffordableNext(candidates, opts, slots);
    if affordable == [] then [Cheapest(candidates)] else affordable
  }

  /** The slot that follows `slots`, at meal `m` of `day`. */
  function ChoiceNext(candidates: seq<Candidate>, opts: PlanOptions, slots: seq<Slot>, day: nat, m: nat): Candidate
    requires candidates != [] && m < |MealTypes(opts.mealsPerDay)|
  {
    var target := PerSlotTarget(opts.targetCalories, DayCalories(slots, day), |MealTypes(opts.mealsPerDay)| - m);
    BestOf(PoolNext(candidates, opts, slots), target, slots, day, SmallPool(candidates, opts))
  }

  function SlotNext(candidates: seq<Candidate>, opts: PlanOptions, slots: seq<Slot>, day: nat, m: nat): Slot
    requires candidates != [] && m < |MealTypes(opts.mealsPerDay)|
  {
    var best := ChoiceNext(candidates, opts, slots, day, m);
    Slot(day, MealTypes(opts.mealsPerDay)[m], best.id, best.costCents, best.calories)
  }

  /** Slot `i` is meal `m` of its day. */
  ghost predicate At(opts: PlanOptions, slots: seq<Slot>, i: nat, m: nat)
    requires i < |slots|
  {
    m < |MealTypes(opts.mealsPerDay)| && slots[i].day * |MealTypes(opts.mealsPerDay)| + m == i
  }

  /** Every slot is the choice its own history calls for. */
  ghost predicate Greedy(candidates: seq<Candidate>, opts: PlanOptions, slots: seq<Slot>)
    requires candidates != []
  {
    forall i :: 0 <= i < |slots| ==> GreedyAt(candidates, opts, slots, i)
  }

  ghost predicate GreedyAt(candidates: seq<Candidate>, opts: PlanOptions, slots: seq<Slot>, i: nat)
    requires candidates != [] && i < |slots|
  {
    exists m: nat :: At(opts, slots, i, m) && slots[i] == SlotNext(candidates, opts, slots[..i], slots[i].day, m)
  }

  predicate Deviates(target: Option<real>, calories: real) {
    target.Some? && target.value > 0.0 && Abs(calories - target.value) / target.value > 0.15
  }

  /** Slot `i` had to be taken although nothing was affordable. */
  ghost predicate Overrun(candidates: seq<Candidate>, opts: PlanOptions, slots: seq<Slot>, i: nat)
    requires candidates != [] && i < |slots|
  {
    AffordableNext(candidates, opts, slots[..i]) == []
  }

  /** The warnings a plan whose first `days` days are complete must carry. */
  ghost predicate Expected(
    candidates: seq<Candidate>, opts: PlanOptions, slots: seq<Slot>, days: nat, w: Warning)
    requires candidates != []
  {
    match w
    case NoCandidates => false
    case BudgetExceeded(d, t) =>
      exists i :: 0 <= i < |slots| && slots[i].day == d && slots[i].mealType == t && Overrun(candidates, opts, slots, i)
    case CaloriesDeviate(d) => d < days && Deviates(opts.targetCalories, DayCalories(slots, d))
  }

  ghost predicate IsPlan(candidates: seq<Candidate>, opts: PlanOptions, plan: Plan)
    requires candidates != []
  {
    && |plan.slots| == TotalSlots(opts)
    && Greedy(candidates, opts, plan.slots)
    && plan.totalCostCents == TotalCost(plan.slots)
    && (forall w :: w in plan.warnings <==> Expected(candidates, opts, plan.slots, opts.days, w))
    && AllDifferent(plan.warnings)
  }

  ghost predicate AllDifferent(warnings: seq<Warning>) {
    forall i, j :: 0 <= i < j < |warnings| ==> warnings[i] != warnings[j]
  }

  // ---- the loops ----

  /** The last-used map is a cache of the slots' history. */
  ghost predicate Caches(lastUsedDay: map<string, nat>, slots: seq<Slot>) {
    forall id :: (if id in lastUsedDay then Some(lastUsedDay[id]) else None) == LastUsed(slots, id)
  }

  method PickBest(
    pool: seq<Candidate>, target: Option<real>, lastUsedDay: map<string, nat>, ghost slots: seq<Slot>,
    day: nat, smallPool: bool)
    returns (best: Candidate)
    requires pool != [] && Caches(lastUsedDay, slots)
    ensures best == BestOf(pool, target, slots, day, smallPool)
  {
    best := pool[0];
    var bestUtility := 0.0;
    for i := 0 to |pool|
      invariant i > 0 ==> best == BestOf(pool[..i], target, slots, day, smallPool)
      invariant i > 0 ==> bestUtility == Utility(best, target, slots, day, smallPool)
    {
      PrefixStep(pool, i);
      var c := pool[i];
      var repeated := c.id in lastUsedDay && day - lastUsedDay[c.id] < REPEAT_WINDOW_DAYS;
      var repeatPenalty := if !smallPool && repeated then REPEAT_PENALTY else 0.0;
      assert LastUsed(slots, c.id) == if c.id in lastUsedDay then Some(lastUsedDay[c.id]) else None;
      var utility := c.baseScore + CalorieFit(c.calories, target) - repeatPenalty;
      if i == 0 || utility > bestUtility {
        bestUtility, best := utility, c;
      }
    }
    FullPrefix(pool);
  }

  /** Everything the loops know about the slots so far, with `days` days complete. */
  ghost predicate Progress(
    candidates: seq<Candidate>, opts: PlanOptions, slots: seq<Slot>, totalCostCents: int,
    lastUsedDay: map<string, nat>, warnings: seq<Warning>, days: nat)
    requires candidates != []
  {
    && Greedy(candidates, opts, slots)
    && totalCostCents == TotalCost(slots)
    && Caches(lastUsedDay, slots)
    && (forall w :: w in warnings <==> Expected(candidates, opts, slots, days, w))
    && AllDifferent(warnings)
  }

  /** A meal that has no slot yet has not been warned about. */
  lemma NotYetWarned(candidates: seq<Candidate>, opts: PlanOptions, slots: seq<Slot>, day: nat, m: nat)
    requires candidates != [] && Greedy(candidates, opts, slots)
    requires m < |MealTypes(opts.mealsPerDay)| && |slots| == day * |MealTypes(opts.mealsPerDay)| + m
    ensures !Expected(candidates, opts, slots, day, BudgetExceeded(day, MealTypes(opts.mealsPerDay)[m]))
  {
    forall i | 0 <= i < |slots| && slots[i].day == day
      ensures slots[i].mealType != MealTypes(opts.mealsPerDay)[m]
    {
      assert GreedyAt(candidates, opts, slots, i);
      var k: nat :| At(opts, slots, i, k) && slots[i] == SlotNext(candidates, opts, slots[..i], slots[i].day, k);
      assert k < m;
    }
  }

  lemma StepKeepsGreedy(candidates: seq<Candidate>, opts: PlanOptions, slots: seq<Slot>, day: nat, m: nat)
    requires candidates != [] && Greedy(candidates, opts, slots)
    requires m < |MealTypes(opts.mealsPerDay)| && |slots| == day * |MealTypes(opts.mealsPerDay)| + m
    ensures Greedy(candidates, opts, slots + [SlotNext(candidates, opts, slots, day, m)])
  {
    var after := slots + [SlotNext(candidates, opts, slots, day, m)];
    forall i | 0 <= i < |after|
      ensures GreedyAt(candidates, opts, after, i)
    {
      if i < |slots| {
        assert GreedyAt(candidates, opts, slots, i);
        assert after[..i] == slots[..i];
        var k: nat :| At(opts, slots, i, k) && slots[i] == SlotNext(candidates, opts, slots[..i], slots[i].day, k);
        assert At(opts, after, i, k);
      } else {
        assert after[..i] == slots;
        assert At(opts, after, i, m);
      }
    }
  }

  lemma StepExpects(
    candidates: seq<Candidate>, opts: PlanOptions, slots: seq<Slot>, day: nat, m: nat, w: Warning)
    requires candidates != [] && m < |MealTypes(opts.mealsPerDay)|
    ensures var after := slots + [SlotNext(candidates, opts, slots, day, m)];
      Expected(candidates, opts, after, day, w) <==>
      || Expected(candidates, opts, slots, day, w)
      || (AffordableNext(candidates, opts, slots) == [] && w == BudgetExceeded(day, MealTypes(opts.mealsPerDay)[m]))
  {
    var next := SlotNext(candidates, opts, slots, day, m);
    var after := slots + [next];
    match w
    case NoCandidates =>
    case CaloriesDeviate(d) =>
      AppendInit(slots, next);
    case BudgetExceeded(d, t) =>
      assert after[..|slots|] == slots;
      assert forall i :: 0 <= i < |slots| ==> after[..i] == slots[..i];
      assert forall i :: 0 <= i < |slots| ==>
          (Overrun(candidates, opts, after, i) <==> Overrun(candidates, opts, slots, i));
      assert Overrun(candidates, opts, after, |slots|) <==> AffordableNext(candidates, opts, slots) == [];
      if Expected(candidates, opts, slots, day, w) {
        var i :| 0 <= i < |slots| && slots[i].day == d && slots[i].mealType == t && Overrun(candidates, opts, slots, i);
        assert after[i] == slots[i];
      }
      assert after[|slots|] == next;
  }

  /** Taking the next slot keeps all of it. */
  lemma StepKeepsProgress(
    candidates: seq<Candidate>, opts: PlanOptions, slots: seq<Slot>, totalCostCents: int,
    lastUsedDay: map<string, nat>, warnings: seq<Warning>, added: seq<Warning>, day: nat, m: nat)
    requires candidates != []
    requires Progress(candidates, opts, slots, totalCostCents, lastUsedDay, warnings, day)
    requires m < |MealTypes(opts.mealsPerDay)| && |slots| == day * |MealTypes(opts.mealsPerDay)| + m
    requires added == if AffordableNext(candidates, opts, slots) == []
                      then [BudgetExceeded(day, MealTypes(opts.mealsPerDay)[m])] else []
    ensures var next := SlotNext(candidates, opts, slots, day, m);
      Progress(candidates, opts, slots + [next], totalCostCents + next.costCents,
               lastUsedDay[next.recipeId := day], warnings + added, day)
  {
    var next := SlotNext(candidates, opts, slots, day, m);
    StepKeepsGreedy(candidates, opts, slots, day, m);
    NotYetWarned(candidates, opts, slots, day, m);
    AppendInit(slots, next);
    forall w
      ensures w in warnings + added <==> Expected(candidates, opts, slots + [next], day, w)
    {
      StepExpects(candidates, opts, slots, day, m, w);
    }
  }

  lemma {:induction false} NothingEatenYet(slots: seq<Slot>, day: nat)
    requires forall s <- slots :: s.day < day
    ensures DayCalories(slots, day) == 0.0
  {
    if slots != [] {
      NothingEatenYet(slots[..|slots| - 1], day);
    }
  }

  lemma DayEnds(
    candidates: seq<Candidate>, opts: PlanOptions, slots: seq<Slot>, totalCostCents: int,
    lastUsedDay: map<string, nat>, warnings: seq<Warning>, added: seq<Warning>, day: nat)
    requires candidates != []
    requires Progress(candidates, opts, slots, totalCostCents, lastUsedDay, warnings, day)
    requires added == if Deviates(opts.targetCalories, DayCalories(slots, day)) then [CaloriesDeviate(day)] else []
    ensures Progress(candidates, opts, slots, totalCostCents, lastUsedDay, warnings + added, day + 1)
  {
    assert !Expected(candidates, opts, slots, day, CaloriesDeviate(day));
  }

  /** One slot: the affordable pool, or the cheapest recipe with a warning, and the best of it. */
  method FillSlot(
    candidates: seq<Candidate>, opts: PlanOptions, slots: seq<Slot>, totalCostCents: int,
    lastUsedDay: map<string, nat>, dayCalories: real, day: nat, m: nat)
    returns (next: Slot, added: seq<Warning>)
    requires candidates != [] && m < |MealTypes(opts.mealsPerDay)|
    requires totalCostCents == TotalCost(slots) && dayCalories == DayCalories(slots, day)
    requires Caches(lastUsedDay, slots)
    ensures next == SlotNext(candidates, opts, slots, day, m)
    ensures added == if AffordableNext(candidates, opts, slots) == []
                     then [BudgetExceeded(day, MealTypes(opts.mealsPerDay)[m])] else []
  {
    var mealTypes := MealTypes(opts.mealsPerDay);
    var smallPool := |candidates| < |mealTypes| * 2;
    var remainingAfterThis := opts.days * |mealTypes| - |slots| - 1;
    var perSlotTarget := PerSlotTarget(opts.targetCalories, dayCalories, |mealTypes| - m);
    var pool :=
      Affordable(candidates, opts.budgetCents, totalCostCents, remainingAfterThis, MinCost(candidates));
    added := [];
    if |pool| == 0 {
      pool := [Cheapest(candidates)];
      added := [BudgetExceeded(day, mealTypes[m])];
    }
    var best := PickBest(pool, perSlotTarget, lastUsedDay, slots, day, smallPool);
    next := Slot(day, mealTypes[m], best.id, best.costCents, best.calories);
  }

  method BuildPlanSlots(candidates: seq<Candidate>, opts: PlanOptions) returns (plan: Plan)
    ensures candidates == [] ==> plan == Plan([], 0, [NoCandidates])
    ensures candidates != [] ==> IsPlan(candidates, opts, plan)
  {
    if |candidates| == 0 {
      return Plan([], 0, [NoCandidates]);
    }
    var mealTypes := MealTypes(opts.mealsPerDay);
    var slots: seq<Slot>, warnings: seq<Warning> := [], [];
    var totalCostCents := 0;
    var lastUsedDay: map<string, nat> := map[];
    for day := 0 to opts.days
      invariant |slots| == day * |mealTypes|
      invariant forall s <- slots :: s.day < day
      invariant Progress(candidates, opts, slots, totalCostCents, lastUsedDay, warnings, day)
    {
      NothingEatenYet(slots, day);
      var dayCalories := 0.0;
      for m := 0 to |mealTypes|
        invariant |slots| == day * |mealTypes| + m
        invariant forall s <- slots :: s.day <= day
        invariant dayCalories == DayCalories(slots, day)
        invariant Progress(candidates, opts, slots, totalCostCents, lastUsedDay, warnings, day)
      {
        var next, added := FillSlot(candidates, opts, slots, totalCostCents, lastUsedDay, dayCalories, day, m);
        StepKeepsProgress(candidates, opts, slots, totalCostCents, lastUsedDay, warnings, added, day, m);
        AppendInit(slots, next);
        slots := slots + [next];
        totalCostCents := totalCostCents + next.costCents;
        dayCalories := dayCalories + next.calories;
        lastUsedDay := lastUsedDay[next.recipeId := day];
        warnings := warnings + added;
      }
      var deviation := if Deviates(opts.targetCalories, dayCalories) then [CaloriesDeviate(day)] else [];
      DayEnds(candidates, opts, slots, totalCostCents, lastUsedDay, warnings, deviation, day);
      warnings := warnings + deviation;
    }
    plan := Plan(slots, totalCostCents, warnings);
  }
}
