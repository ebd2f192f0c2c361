/** What the meal-plan builder guarantees about budget and variety. */
module PlanGuarantees {
  import opened Sequences
  import opened Options
  import opened PlanBuilder

  /** The cheapest way to fill `n` slots. */
  function CheapestFill(candidates: seq<Candidate>, n: nat): int
    requires candidates != []
  {
    n * MinCost(candidates)
  }

  lemma FillStep(candidates: seq<Candidate>, n: nat)
    requires candidates != []
    ensures CheapestFill(candidates, n + 1) == CheapestFill(candidates, n) + MinCost(candidates)
  {
  }

  lemma PoolIsCandidates(candidates: seq<Candidate>, opts: PlanOptions, slots: seq<Slot>, c: Candidate)
    requires candidates != [] && c in PoolNext(candidates, opts, slots)
    ensures c in candidates
  {
    AffordableFacts(
      candidates, opts.budgetCents, TotalCost(slots), TotalSlots(opts) - |slots| - 1, MinCost(candidates));
    CheapestFacts(candidates);
  }

  lemma ChoiceInPool(candidates: seq<Candidate>, opts: PlanOptions, slots: seq<Slot>, day: nat, m: nat)
    requires candidates != [] && m < |MealTypes(opts.mealsPerDay)|
    ensures ChoiceNext(candidates, opts, slots, day, m) in PoolNext(candidates, opts, slots)
  {
    var target := PerSlotTarget(opts.targetCalories, DayCalories(slots, day), |MealTypes(opts.mealsPerDay)| - m);
    var _ := BestOfIsFirstMax(PoolNext(candidates, opts, slots), target, slots, day, SmallPool(candidates, opts));
  }

  lemma ChosenFromPool(candidates: seq<Candidate>, opts: PlanOptions, slots: seq<Slot>, i: nat)
    returns (best: Candidate)
    requires candidates != [] && i < |slots| && Greedy(candidates, opts, slots)
    ensures best in PoolNext(candidates, opts, slots[..i]) && best in candidates
    ensures slots[i].costCents == best.costCents && slots[i].recipeId == best.id
  {
    assert GreedyAt(candidates, opts, slots, i);
    var m: nat :| At(opts, slots, i, m) && slots[i] == SlotNext(candidates, opts, slots[..i], slots[i].day, m);
    best := ChoiceNext(candidates, opts, slots[..i], slots[i].day, m);
    ChoiceInPool(candidates, opts, slots[..i], slots[i].day, m);
    PoolIsCandidates(candidates, opts, slots[..i], best);
  }

  lemma PrefixCost(slots: seq<Slot>, i: nat)
    requires i < |slots|
    ensures TotalCost(slots[..i + 1]) == TotalCost(slots[..i]) + slots[i].costCents
  {
    PrefixStep(slots, i);
  }

  // ---- enough budget ----

  /** What is spent plus the cheapest fill of the rest never exceeds the budget. */
  lemma {:induction false} RoomIsKept(candidates: seq<Candidate>, opts: PlanOptions, slots: seq<Slot>, i: nat)
    requires candidates != [] && Greedy(candidates, opts, slots) && opts.budgetCents.Some?
    requires i <= |slots| == TotalSlots(opts)
    requires CheapestFill(candidates, TotalSlots(opts)) <= opts.budgetCents.value
    ensures TotalCost(slots[..i]) + CheapestFill(candidates, |slots| - i) <= opts.budgetCents.value
    ensures forall j :: 0 <= j < i ==> !Overrun(candidates, opts, slots, j)
  {
    if i > 0 {
      RoomIsKept(candidates, opts, slots, i - 1);
      RoomForOne(candidates, opts, slots, i - 1);
      FillStep(candidates, |slots| - i);
    }
  }

  lemma RoomForOne(candidates: seq<Candidate>, opts: PlanOptions, slots: seq<Slot>, i: nat)
    requires candidates != [] && Greedy(candidates, opts, slots) && opts.budgetCents.Some?
    requires i < |slots| == TotalSlots(opts)
    requires TotalCost(slots[..i]) + CheapestFill(candidates, |slots| - i) <= opts.budgetCents.value
    ensures !Overrun(candidates, opts, slots, i)
    ensures TotalCost(slots[..i + 1]) + CheapestFill(candidates, |slots| - i - 1) <= opts.budgetCents.value
  {
    var left := |slots| - i - 1;
    FillStep(candidates, left);
    AffordableFacts(candidates, opts.budgetCents, TotalCost(slots[..i]), left, MinCost(candidates));
    CheapestFacts(candidates);
    assert Cheapest(candidates) in AffordableNext(candidates, opts, slots[..i]);
    var best := ChosenFromPool(candidates, opts, slots, i);
    PrefixCost(slots, i);
  }

  // ---- too little budget ----

  /** Every slot is filled at the least cost, and each is an overrun. */
  lemma {:induction false} AlwaysCheapest(candidates: seq<Candidate>, opts: PlanOptions, slots: seq<Slot>, i: nat)
    requires candidates != [] && Greedy(candidates, opts, slots) && opts.budgetCents.Some?
    requires i <= |slots| == TotalSlots(opts)
    requires CheapestFill(candidates, TotalSlots(opts)) > opts.budgetCents.value
    ensures TotalCost(slots[..i]) == CheapestFill(candidates, i)
    ensures forall j :: 0 <= j < i ==>
              Overrun(candidates, opts, slots, j) && slots[j].costCents == MinCost(candidates)
  {
    if i > 0 {
      AlwaysCheapest(candidates, opts, slots, i - 1);
      NoneAffordable(candidates, opts, slots, i - 1);
      FillStep(candidates, i - 1);
      PrefixCost(slots, i - 1);
    }
  }

  lemma NoneAffordable(candidates: seq<Candidate>, opts: PlanOptions, slots: seq<Slot>, i: nat)
    requires candidates != [] && Greedy(candidates, opts, slots) && opts.budgetCents.Some?
    requires i < |slots| == TotalSlots(opts)
    requires CheapestFill(candidates, TotalSlots(opts)) > opts.budgetCents.value
    requires TotalCost(slots[..i]) == CheapestFill(candidates, i)
    ensures Overrun(candidates, opts, slots, i) && slots[i].costCents == MinCost(candidates)
  {
    var left := |slots| - i - 1;
    var pool := AffordableNext(candidates, opts, slots[..i]);
    AffordableFacts(candidates, opts.budgetCents, TotalCost(slots[..i]), left, MinCost(candidates));
    MinCostFacts(candidates);
    FillSplit(candidates, i, left);
    assert pool != [] ==> pool[0] in pool;
    var best := ChosenFromPool(candidates, opts, slots, i);
    CheapestFacts(candidates);
  }

  lemma FillSplit(candidates: seq<Candidate>, i: nat, left: nat)
    requires candidates != []
    ensures CheapestFill(candidates, i + 1 + left) ==
            CheapestFill(candidates, i) + MinCost(candidates) + left * MinCost(candidates)
  {
  }

  ghost predicate BudgetWarned(plan: Plan, i: nat)
    requires i < |plan.slots|
  {
    BudgetExceeded(plan.slots[i].day, plan.slots[i].mealType) in plan.warnings
  }

  /**
   * The budget dichotomy: when the cheapest fill fits, the plan stays within budget and
   * nothing is warned; otherwise every slot takes the least cost, the total is exactly
   * the cheapest fill, and every slot is warned.
   */
  lemma BudgetDichotomy(candidates: seq<Candidate>, opts: PlanOptions, plan: Plan, budget: int)
    requires candidates != [] && IsPlan(candidates, opts, plan) && opts.budgetCents == Some(budget)
    ensures CheapestFill(candidates, TotalSlots(opts)) <= budget ==>
              && plan.totalCostCents <= budget
              && forall d, t :: BudgetExceeded(d, t) !in plan.warnings
    ensures CheapestFill(candidates, TotalSlots(opts)) > budget ==>
              && plan.totalCostCents == CheapestFill(candidates, TotalSlots(opts))
              && (forall i :: 0 <= i < |plan.slots| ==>
                    plan.slots[i].costCents == MinCost(candidates) && BudgetWarned(plan, i))
  {
    var slots := plan.slots;
    FullPrefix(slots);
    if CheapestFill(candidates, TotalSlots(opts)) <= budget {
      RoomIsKept(candidates, opts, slots, |slots|);
      forall d, t
        ensures BudgetExceeded(d, t) !in plan.warnings
      {
        assert !Expected(candidates, opts, slots, opts.days, BudgetExceeded(d, t));
      }
    } else {
      AlwaysCheapest(candidates, opts, slots, |slots|);
      forall i | 0 <= i < |slots|
        ensures BudgetWarned(plan, i)
      {
        assert Expected(candidates, opts, slots, opts.days, BudgetExceeded(slots[i].day, slots[i].mealType));
      }
    }
  }

  // ---- the promise: within budget whenever that is possible ----

  function ChoiceCost(choice: seq<Candidate>): int {
    if choice == [] then 0 else ChoiceCost(choice[..|choice| - 1]) + choice[|choice| - 1].costCents
  }

  lemma {:induction false} ChoiceAtLeastCheapest(candidates: seq<Candidate>, choice: seq<Candidate>)
    requires candidates != [] && forall c <- choice :: c in candidates
    ensures ChoiceCost(choice) >= CheapestFill(candidates, |choice|)
  {
    if choice != [] {
      var n := |choice| - 1;
      ChoiceAtLeastCheapest(candidates, choice[..n]);
      FillStep(candidates, n);
      MinCostFacts(candidates);
      assert choice[n] in choice;
    }
  }

  lemma {:induction false} CheapestChoice(candidates: seq<Candidate>, n: nat) returns (choice: seq<Candidate>)
    requires candidates != []
    ensures |choice| == n && (forall c <- choice :: c in candidates)
    ensures ChoiceCost(choice) == CheapestFill(candidates, n)
  {
    CheapestFacts(candidates);
    if n == 0 {
      choice := [];
    } else {
      var init := CheapestChoice(candidates, n - 1);
      FillStep(candidates, n - 1);
      AppendInit(init, Cheapest(candidates));
      choice := init + [Cheapest(candidates)];
    }
  }

  /** Some way of filling every slot keeps to the budget. */
  ghost predicate Feasible(candidates: seq<Candidate>, n: nat, budget: int) {
    exists choice: seq<Candidate> ::
      |choice| == n && (forall c <- choice :: c in candidates) && ChoiceCost(choice) <= budget
  }

  /** The plan is within budget exactly when some plan is. */
  lemma WithinBudgetIffPossible(candidates: seq<Candidate>, opts: PlanOptions, plan: Plan, budget: int)
    requires candidates != [] && IsPlan(candidates, opts, plan) && opts.budgetCents == Some(budget)
    ensures plan.totalCostCents <= budget <==> Feasible(candidates, TotalSlots(opts), budget)
  {
    BudgetDichotomy(candidates, opts, plan, budget);
    var n := TotalSlots(opts);
    if CheapestFill(candidates, n) <= budget {
      var choice := CheapestChoice(candidates, n);
      assert Feasible(candidates, n, budget);
    } else if Feasible(candidates, n, budget) {
      var choice: seq<Candidate> :|
        |choice| == n && (forall c <- choice :: c in candidates) && ChoiceCost(choice) <= budget;
      ChoiceAtLeastCheapest(candidates, choice);
    }
  }

  // ---- variety ----

  /**
   * In a large pool a recipe used within the last three days is taken again only if,
   * penalty aside, it beats every affordable recipe that was not by at least the penalty.
   */
  lemma RepeatsMustBeWorthIt(
    candidates: seq<Candidate>, opts: PlanOptions, slots: seq<Slot>, i: nat, other: Candidate)
    returns (best: Candidate, target: Option<real>)
    requires candidates != [] && i < |slots| && Greedy(candidates, opts, slots)
    requires !SmallPool(candidates, opts)
    requires Recent(slots[..i], slots[i].recipeId, slots[i].day)
    requires other in PoolNext(candidates, opts, slots[..i]) && !Recent(slots[..i], other.id, slots[i].day)
    ensures best in candidates && best.id == slots[i].recipeId && best.costCents == slots[i].costCents
    ensures exists m: nat :: At(opts, slots, i, m) && target ==
              PerSlotTarget(opts.targetCalories, DayCalories(slots[..i], slots[i].day),
                            |MealTypes(opts.mealsPerDay)| - m)
    ensures BaseUtility(best, target) - BaseUtility(other, target) >= 0.75
  {
    best := ChosenFromPool(candidates, opts, slots, i);
    assert GreedyAt(candidates, opts, slots, i);
    var m: nat :| At(opts, slots, i, m) && slots[i] == SlotNext(candidates, opts, slots[..i], slots[i].day, m);
    target := PerSlotTarget(
      opts.targetCalories, DayCalories(slots[..i], slots[i].day), |MealTypes(opts.mealsPerDay)| - m);
    best := ChoiceNext(candidates, opts, slots[..i], slots[i].day, m);
    var pool := PoolNext(candidates, opts, slots[..i]);
    var k := BestOfIsFirstMax(pool, target, slots[..i], slots[i].day, false);
    var j :| 0 <= j < |pool| && pool[j] == other;
    PoolIsCandidates(candidates, opts, slots[..i], best);
  }

  /** The cached last-used day is the latest day on which a slot holds the recipe. */
  lemma {:induction false} LastUsedIsLatest(slots: seq<Slot>, id: string)
    requires forall i, j :: 0 <= i < j < |slots| ==> slots[i].day <= slots[j].day
    ensures match LastUsed(slots, id)
      case None => forall s <- slots :: s.recipeId != id
      case Some(day) =>
        && (exists s :: s in slots && s.recipeId == id && s.day == day)
        && (forall s <- slots :: s.recipeId == id ==> s.day <= day)
  {
    if slots != [] {
      var n := |slots| - 1;
      LastUsedIsLatest(slots[..n], id);
      assert slots[n] in slots && forall s <- slots :: s in slots[..n] || s == slots[n];
      if slots[n].recipeId != id && LastUsed(slots, id).Some? {
        var s :| s in slots[..n] && s.recipeId == id && s.day == LastUsed(slots, id).value;
        assert s in slots;
      }
    }
  }

  /** A plan's slots come in day order, `mealsPerDay` to a day. */
  lemma SlotsInDayOrder(candidates: seq<Candidate>, opts: PlanOptions, slots: seq<Slot>)
    requires candidates != [] && Greedy(candidates, opts, slots)
    ensures forall i, j :: 0 <= i < j < |slots| ==> slots[i].day <= slots[j].day
  {
    forall i, j | 0 <= i < j < |slots|
      ensures slots[i].day <= slots[j].day
    {
      assert GreedyAt(candidates, opts, slots, i) && GreedyAt(candidates, opts, slots, j);
      var m: nat :| At(opts, slots, i, m);
      var k: nat :| At(opts, slots, j, k);
      if slots[i].day > slots[j].day {
        LaterDayLaterSlot(slots[j].day, slots[i].day, |MealTypes(opts.mealsPerDay)|, k);
        assert false;
      }
    }
  }

  lemma LaterDayLaterSlot(early: nat, late: nat, perDay: nat, m: nat)
    requires early < late && m < perDay
    ensures early * perDay + m < late * perDay
  {
    assert (early + 1) * perDay <= late * perDay;
  }
}
