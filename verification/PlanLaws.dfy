/**
 * What a meal plan is, told from its slots and the recipes alone: which meal each slot
 * is, what it may take, what it takes of that, and which warnings are due.
 */
module PlanLaws {
  import opened Sequences
  import opened Options
  import opened PlanBuilder
  import opened PlanGuarantees

  // ---- the slots ----

  function Meals(mealsPerDay: int): nat {
    if mealsPerDay < 1 then 1 else if mealsPerDay > 4 then 4 else mealsPerDay
  }

  /** The `m`th of `n` meals a day: dinner alone, lunch before it, breakfast before both, a snack last. */
  ghost predicate IsMeal(n: nat, m: nat, t: MealType) {
    match t
    case DINNER => m == if n <= 3 then n - 1 else 2
    case LUNCH => n >= 2 && m == if n == 2 then 0 else 1
    case BREAKFAST => n >= 3 && m == 0
    case SNACK => n == 4 && m == 3
  }

  lemma MealTable(mealsPerDay: int, m: nat)
    requires m < |MealTypes(mealsPerDay)|
    ensures |MealTypes(mealsPerDay)| == Meals(mealsPerDay)
    ensures IsMeal(Meals(mealsPerDay), m, MealTypes(mealsPerDay)[m])
  {
  }

  /** Slot `i` is the meal in turn, after all the meals of the days before its own. */
  lemma SlotsInTurn(candidates: seq<Candidate>, opts: PlanOptions, slots: seq<Slot>, i: nat) returns (m: nat)
    requires candidates != [] && Greedy(candidates, opts, slots) && i < |slots|
    ensures m < Meals(opts.mealsPerDay) && i == slots[i].day * Meals(opts.mealsPerDay) + m
    ensures IsMeal(Meals(opts.mealsPerDay), m, slots[i].mealType)
  {
    assert GreedyAt(candidates, opts, slots, i);
    m :| At(opts, slots, i, m) && slots[i] == SlotNext(candidates, opts, slots[..i], slots[i].day, m);
    MealTable(opts.mealsPerDay, m);
  }

  // ---- what a slot may take ----

  /** After taking `c` the rest of the plan could still be filled, at the least cost a recipe has, within budget. */
  ghost predicate Fits(candidates: seq<Candidate>, opts: PlanOptions, before: seq<Slot>, c: Candidate)
    requires candidates != []
  {
    && c in candidates
    && match opts.budgetCents
       case None => true
       case Some(budget) =>
         var left := opts.days * Meals(opts.mealsPerDay) - |before| - 1;
         TotalCost(before) + c.costCents + left * MinCost(candidates) <= budget
  }

  ghost predicate NothingFits(candidates: seq<Candidate>, opts: PlanOptions, before: seq<Slot>)
    requires candidates != []
  {
    forall c <- candidates :: !Fits(candidates, opts, before, c)
  }

  lemma AffordableIffFits(candidates: seq<Candidate>, opts: PlanOptions, before: seq<Slot>)
    requires candidates != []
    ensures forall c :: c in AffordableNext(candidates, opts, before) <==> Fits(candidates, opts, before, c)
    ensures AffordableNext(candidates, opts, before) == [] <==> NothingFits(candidates, opts, before)
  {
    MealTable(opts.mealsPerDay, 0);
    AffordableFacts(
      candidates, opts.budgetCents, TotalCost(before), TotalSlots(opts) - |before| - 1, MinCost(candidates));
    var pool := AffordableNext(candidates, opts, before);
    assert pool != [] ==> pool[0] in pool;
  }

  /** The first recipe of least cost. */
  ghost predicate FirstCheapest(candidates: seq<Candidate>, i: nat) {
    && i < |candidates|
    && forall j :: 0 <= j < |candidates| ==>
         if j < i then candidates[i].costCents < candidates[j].costCents
         else candidates[i].costCents <= candidates[j].costCents
  }

  lemma {:induction false} CheapestIsFirst(candidates: seq<Candidate>) returns (i: nat)
    requires candidates != []
    ensures FirstCheapest(candidates, i) && candidates[i] == Cheapest(candidates)
  {
    var n := |candidates| - 1;
    i := 0;
    if n > 0 {
      i := CheapestIsFirst(candidates[..n]);
      if candidates[n].costCents < candidates[i].costCents {
        i := n;
      }
    }
  }

  /** The pool is what fits; when nothing does, it is the first cheapest recipe alone. */
  lemma PoolIsWhatFits(candidates: seq<Candidate>, opts: PlanOptions, before: seq<Slot>) returns (i: nat)
    requires candidates != []
    ensures FirstCheapest(candidates, i)
    ensures var pool := PoolNext(candidates, opts, before);
      if NothingFits(candidates, opts, before) then pool == [candidates[i]]
      else forall c :: c in pool <==> Fits(candidates, opts, before, c)
  {
    AffordableIffFits(candidates, opts, before);
    i := CheapestIsFirst(candidates);
  }

  // ---- what a slot takes ----

  /** The recipe was used on this day or one of the two before it. */
  ghost predicate UsedLately(slots: seq<Slot>, id: string, day: nat) {
    exists s :: s in slots && s.recipeId == id && day - s.day < 3
  }

  lemma RecentIffUsedLately(slots: seq<Slot>, id: string, day: nat)
    requires forall i, j :: 0 <= i < j < |slots| ==> slots[i].day <= slots[j].day
    ensures Recent(slots, id, day) <==> UsedLately(slots, id, day)
  {
    LastUsedIsLatest(slots, id);
  }

  /** A recipe is penalised for a slot if it was used lately and there are enough recipes for variety. */
  ghost predicate Penalised(candidates: seq<Candidate>, opts: PlanOptions, slots: seq<Slot>, c: Candidate, day: nat) {
    |candidates| >= 2 * Meals(opts.mealsPerDay) && UsedLately(slots, c.id, day)
  }

  /** How far a recipe's calories are from the target. */
  ghost function Miss(c: Candidate, target: real): real {
    if c.calories < target then target - c.calories else c.calories - target
  }

  /**
   * A recipe's score: its base score; a half when nothing is aimed at, else the part of the
   * target that it does not miss; less three quarters when it is penalised.
   */
  ghost function Score(c: Candidate, target: real, penalised: bool): real {
    c.baseScore
    + (if target <= 0.0 then 0.5 else if Miss(c, target) >= target then 0.0 else (target - Miss(c, target)) / target)
    - (if penalised then 0.75 else 0.0)
  }

  lemma Cancel(x: real, y: real, factor: real)
    requires factor > 0.0
    ensures x * factor <= y * factor <==> x <= y
    ensures x * factor == y * factor <==> x == y
  {
    assert (y - x) * factor == y * factor - x * factor;
  }

  lemma SmallerPart(x: real, y: real, target: real)
    requires target > 0.0
    ensures x <= y <==> x / target <= y / target
  {
    var p, q := x / target, y / target;
    assert p * target == x;
    assert q * target == y;
    Cancel(p, q, target);
  }

  lemma Parts(miss: real, target: real)
    requires target > 0.0
    ensures (target - miss) / target == 1.0 - miss / target
    ensures miss >= target <==> miss / target >= 1.0
  {
    var x, y := miss / target, (target - miss) / target;
    assert x * target == miss;
    assert y * target == target - miss;
    assert (1.0 - x) * target == target - miss;
    Cancel(y, 1.0 - x, target);
    assert x >= 1.0 ==> x * target >= target;
    assert x < 1.0 ==> x * target < target;
  }

  lemma FitIsThePartHit(c: Candidate, target: real)
    ensures CalorieFit(c.calories, Some(target)) ==
            if target <= 0.0 then 0.5 else if Miss(c, target) >= target then 0.0
            else (target - Miss(c, target)) / target
  {
    if target > 0.0 {
      Parts(Miss(c, target), target);
      assert Abs(c.calories - target) == Miss(c, target);
    }
  }

  /** What is still wanted of the day's calories, per meal left; nothing without a target or once it is reached. */
  ghost function AimAt(opts: PlanOptions, eaten: real, mealsLeft: int): real
    requires mealsLeft > 0
  {
    match opts.targetCalories
    case Some(target) => if eaten >= target then 0.0 else (target - eaten) / mealsLeft as real
    case None => 0.0
  }

  lemma UtilityIsScore(c: Candidate, opts: PlanOptions, eaten: real, mealsLeft: int, slots: seq<Slot>, day: nat,
                       smallPool: bool)
    requires mealsLeft > 0
    ensures Utility(c, PerSlotTarget(opts.targetCalories, eaten, mealsLeft), slots, day, smallPool)
            == Score(c, AimAt(opts, eaten, mealsLeft), !smallPool && Recent(slots, c.id, day))
  {
    var aim := AimAt(opts, eaten, mealsLeft);
    if opts.targetCalories.Some? {
      assert PerSlotTarget(opts.targetCalories, eaten, mealsLeft) == Some(aim) by {
        assert 0.0 / mealsLeft as real == 0.0;
      }
      FitIsThePartHit(c, aim);
    }
  }

  /** The calories of some slots, added up. */
  ghost function Calories(slots: seq<Slot>): real {
    if slots == [] then 0.0 else Calories(slots[..|slots| - 1]) + slots[|slots| - 1].calories
  }

  /** On a day whose meals start at `start`, what is eaten is what the slots from there on hold. */
  lemma {:induction false} EatenIsTheMeals(slots: seq<Slot>, day: nat, start: nat)
    requires start <= |slots|
    requires forall i :: 0 <= i < start ==> slots[i].day < day
    requires forall i :: start <= i < |slots| ==> slots[i].day == day
    ensures DayCalories(slots, day) == Calories(slots[start..])
  {
    var n := |slots|;
    if n == start {
      NothingEatenYet(slots, day);
    } else {
      EatenIsTheMeals(slots[..n - 1], day, start);
      assert slots[start..][..n - start - 1] == slots[..n - 1][start..];
    }
  }

  /** The meals before slot `i` on its day, given that it is the `m`th. */
  lemma EatenBefore(candidates: seq<Candidate>, opts: PlanOptions, slots: seq<Slot>, i: nat, m: nat)
    requires candidates != [] && Greedy(candidates, opts, slots) && i < |slots|
    requires m <= i && i == slots[i].day * Meals(opts.mealsPerDay) + m && m < Meals(opts.mealsPerDay)
    ensures DayCalories(slots[..i], slots[i].day) == Calories(slots[i - m..i])
  {
    forall j | 0 <= j < i
      ensures if j < i - m then slots[j].day < slots[i].day else slots[j].day == slots[i].day
    {
      var k := SlotsInTurn(candidates, opts, slots, j);
      SameDay(slots[j].day, k, slots[i].day, m, Meals(opts.mealsPerDay));
    }
    EatenIsTheMeals(slots[..i], slots[i].day, i - m);
    assert slots[..i][i - m..] == slots[i - m..i];
  }

  /** Of two places in turn, the earlier is on an earlier day unless it is among the later one's meals. */
  lemma SameDay(d: nat, k: nat, e: nat, m: nat, n: nat)
    requires k < n && m < n && d * n + k < e * n + m
    ensures if d * n + k < e * n then d < e else d == e
  {
    if d < e {
      LaterDayLaterSlot(d, e, n, k);
    } else if e < d {
      LaterDayLaterSlot(e, d, n, m);
    }
  }

  /** The target slot `i` is chosen by, when it is the `m`th meal of its day. */
  ghost function AimOf(opts: PlanOptions, slots: seq<Slot>, i: nat, m: nat): real
    requires i < |slots| && m <= i && m < Meals(opts.mealsPerDay)
  {
    AimAt(opts, Calories(slots[i - m..i]), Meals(opts.mealsPerDay) - m)
  }

  /** Slot `i` takes recipe `best`. */
  ghost predicate Takes(slots: seq<Slot>, i: nat, best: Candidate)
    requires i < |slots|
  {
    slots[i].recipeId == best.id && slots[i].costCents == best.costCents && slots[i].calories == best.calories
  }

  lemma PenalisedIff(candidates: seq<Candidate>, opts: PlanOptions, slots: seq<Slot>, i: nat, c: Candidate)
    requires candidates != [] && Greedy(candidates, opts, slots) && i < |slots|
    ensures Penalised(candidates, opts, slots[..i], c, slots[i].day) <==>
            !SmallPool(candidates, opts) && Recent(slots[..i], c.id, slots[i].day)
  {
    SlotsInDayOrder(candidates, opts, slots);
    RecentIffUsedLately(slots[..i], c.id, slots[i].day);
  }

  lemma TakesTheBestUtility(candidates: seq<Candidate>, opts: PlanOptions, slots: seq<Slot>, i: nat, other: Candidate)
    returns (best: Candidate, m: nat)
    requires candidates != [] && Greedy(candidates, opts, slots) && i < |slots|
    requires other in PoolNext(candidates, opts, slots[..i])
    ensures best in PoolNext(candidates, opts, slots[..i]) && Takes(slots, i, best)
    ensures m < Meals(opts.mealsPerDay) && i == slots[i].day * Meals(opts.mealsPerDay) + m
    ensures var before, day, small := slots[..i], slots[i].day, SmallPool(candidates, opts);
      var target := PerSlotTarget(opts.targetCalories, DayCalories(before, day), Meals(opts.mealsPerDay) - m);
      Utility(other, target, before, day, small) <= Utility(best, target, before, day, small)
  {
    assert GreedyAt(candidates, opts, slots, i);
    m :| At(opts, slots, i, m) && slots[i] == SlotNext(candidates, opts, slots[..i], slots[i].day, m);
    MealTable(opts.mealsPerDay, m);
    var before, day := slots[..i], slots[i].day;
    var target := PerSlotTarget(opts.targetCalories, DayCalories(before, day), Meals(opts.mealsPerDay) - m);
    best := ChoiceNext(candidates, opts, before, day, m);
    BestBeats(PoolNext(candidates, opts, before), target, before, day, SmallPool(candidates, opts), other);
  }

  lemma BestBeats(
    pool: seq<Candidate>, target: Option<real>, slots: seq<Slot>, day: nat, smallPool: bool, other: Candidate)
    requires other in pool
    ensures var best := BestOf(pool, target, slots, day, smallPool);
      best in pool && Utility(other, target, slots, day, smallPool) <= Utility(best, target, slots, day, smallPool)
  {
    var i := BestOfIsFirstMax(pool, target, slots, day, smallPool);
    var j :| 0 <= j < |pool| && pool[j] == other;
  }

  lemma UtilityAtSlot(
    candidates: seq<Candidate>, opts: PlanOptions, slots: seq<Slot>, i: nat, m: nat, c: Candidate)
    requires candidates != [] && Greedy(candidates, opts, slots) && i < |slots|
    requires m <= i && i == slots[i].day * Meals(opts.mealsPerDay) + m && m < Meals(opts.mealsPerDay)
    ensures var before, day := slots[..i], slots[i].day;
      var target := PerSlotTarget(opts.targetCalories, DayCalories(before, day), Meals(opts.mealsPerDay) - m);
      Utility(c, target, before, day, SmallPool(candidates, opts))
      == Score(c, AimOf(opts, slots, i, m), Penalised(candidates, opts, before, c, day))
  {
    var before, day, left := slots[..i], slots[i].day, Meals(opts.mealsPerDay) - m;
    EatenBefore(candidates, opts, slots, i, m);
    PenalisedIff(candidates, opts, slots, i, c);
    UtilityIsScore(c, opts, DayCalories(before, day), left, before, day, SmallPool(candidates, opts));
  }

  /** No recipe in the pool of slot `i` scores more than the one it takes. */
  lemma TakesTheBestScore(candidates: seq<Candidate>, opts: PlanOptions, slots: seq<Slot>, i: nat, other: Candidate)
    returns (best: Candidate, m: nat)
    requires candidates != [] && Greedy(candidates, opts, slots) && i < |slots|
    requires other in PoolNext(candidates, opts, slots[..i])
    ensures best in PoolNext(candidates, opts, slots[..i]) && Takes(slots, i, best)
    ensures m <= i && m < Meals(opts.mealsPerDay) && i == slots[i].day * Meals(opts.mealsPerDay) + m
    ensures var aim, day := AimOf(opts, slots, i, m), slots[i].day;
      Score(other, aim, Penalised(candidates, opts, slots[..i], other, day))
      <= Score(best, aim, Penalised(candidates, opts, slots[..i], best, day))
  {
    best, m := TakesTheBestUtility(candidates, opts, slots, i, other);
    UtilityAtSlot(candidates, opts, slots, i, m, best);
    UtilityAtSlot(candidates, opts, slots, i, m, other);
  }

  // ---- what that means ----

  /** Scores of recipes equal but for their calories are in the order of their misses, until these reach the target. */
  lemma CloserScoresMore(a: Candidate, b: Candidate, target: real, penalised: bool)
    requires target > 0.0 && a.baseScore == b.baseScore && Score(a, target, penalised) <= Score(b, target, penalised)
    ensures Miss(b, target) <= Miss(a, target) || (Miss(a, target) >= target && Miss(b, target) >= target)
  {
    var p, q := Miss(a, target), Miss(b, target);
    Parts(p, target);
    Parts(q, target);
    SmallerPart(q, p, target);
  }

  /** The part of the target that is hit lies between nothing and all of it. */
  lemma ScoreBounds(c: Candidate, target: real)
    ensures c.baseScore <= Score(c, target, false) <= c.baseScore + 1.0
    ensures target <= 0.0 ==> Score(c, target, false) == c.baseScore + 0.5
    ensures Score(c, target, true) == Score(c, target, false) - 0.75
  {
    if target > 0.0 {
      var miss := Miss(c, target);
      Parts(miss, target);
      var x := miss / target;
      assert x * target == miss;
      assert x < 0.0 ==> x * target < 0.0;
    }
  }

  /**
   * Plans steer towards the calorie target: of two recipes of equal base score, both or
   * neither penalised, a slot takes the one no farther from what is wanted of it, unless
   * both miss it by all of it; when nothing is wanted, calories do not matter.
   */
  lemma SteersToTarget(candidates: seq<Candidate>, opts: PlanOptions, slots: seq<Slot>, i: nat, other: Candidate)
    returns (best: Candidate, m: nat)
    requires candidates != [] && Greedy(candidates, opts, slots) && i < |slots|
    requires other in PoolNext(candidates, opts, slots[..i])
    ensures Takes(slots, i, best)
    ensures m <= i && m < Meals(opts.mealsPerDay) && i == slots[i].day * Meals(opts.mealsPerDay) + m
    ensures var aim, before, day := AimOf(opts, slots, i, m), slots[..i], slots[i].day;
      (Penalised(candidates, opts, before, best, day) <==> Penalised(candidates, opts, before, other, day)) ==>
        && (aim > 0.0 && other.baseScore == best.baseScore ==>
              Miss(best, aim) <= Miss(other, aim) || (Miss(best, aim) >= aim && Miss(other, aim) >= aim))
        && (aim <= 0.0 ==> other.baseScore <= best.baseScore)
  {
    best, m := TakesTheBestScore(candidates, opts, slots, i, other);
    var aim, before, day := AimOf(opts, slots, i, m), slots[..i], slots[i].day;
    if aim > 0.0 && other.baseScore == best.baseScore
       && (Penalised(candidates, opts, before, best, day) <==> Penalised(candidates, opts, before, other, day)) {
      CloserScoresMore(other, best, aim, Penalised(candidates, opts, before, best, day));
    }
  }

  /** A recipe that is not penalised and leads every other of the pool by more than one in base score is taken. */
  lemma FarBetterScoreWins(candidates: seq<Candidate>, opts: PlanOptions, slots: seq<Slot>, i: nat, fav: Candidate)
    requires candidates != [] && Greedy(candidates, opts, slots) && i < |slots|
    requires fav in PoolNext(candidates, opts, slots[..i])
    requires !Penalised(candidates, opts, slots[..i], fav, slots[i].day)
    requires forall c <- PoolNext(candidates, opts, slots[..i]) :: c != fav ==> c.baseScore + 1.0 < fav.baseScore
    ensures Takes(slots, i, fav)
  {
    var best, m := TakesTheBestScore(candidates, opts, slots, i, fav);
    ScoreBounds(best, AimOf(opts, slots, i, m));
    ScoreBounds(fav, AimOf(opts, slots, i, m));
  }

  /** In a pool with variety, a recipe used lately is taken over a fresh one of the same calories for 0.75 more. */
  lemma RepeatsScoreMore(candidates: seq<Candidate>, opts: PlanOptions, slots: seq<Slot>, i: nat, other: Candidate)
    returns (best: Candidate)
    requires candidates != [] && Greedy(candidates, opts, slots) && i < |slots|
    requires |candidates| >= 2 * Meals(opts.mealsPerDay)
    requires other in PoolNext(candidates, opts, slots[..i])
    requires UsedLately(slots[..i], slots[i].recipeId, slots[i].day)
    requires !UsedLately(slots[..i], other.id, slots[i].day)
    ensures Takes(slots, i, best)
    ensures other.calories == best.calories ==> best.baseScore - other.baseScore >= 0.75
  {
    var m;
    best, m := TakesTheBestScore(candidates, opts, slots, i, other);
    ScoreBounds(best, AimOf(opts, slots, i, m));
    ScoreBounds(other, AimOf(opts, slots, i, m));
  }

  // ---- warnings ----

  lemma {:induction false} OtherDaysDoNotCount(slots: seq<Slot>, day: nat, n: nat)
    requires n <= |slots| && forall i :: n <= i < |slots| ==> slots[i].day != day
    ensures DayCalories(slots, day) == DayCalories(slots[..n], day)
  {
    if n < |slots| {
      OtherDaysDoNotCount(slots[..|slots| - 1], day, n);
      assert slots[..|slots| - 1][..n] == slots[..n];
    } else {
      FullPrefix(slots);
    }
  }

  /** The slots of one day. */
  ghost function MealsOf(opts: PlanOptions, slots: seq<Slot>, day: nat): seq<Slot>
    requires |slots| == opts.days * Meals(opts.mealsPerDay) && day < opts.days
  {
    var n := Meals(opts.mealsPerDay);
    DayWithin(day, opts.days, n);
    slots[day * n..day * n + n]
  }

  lemma {:induction false} DayWithin(day: nat, days: nat, n: nat)
    requires day < days
    ensures day * n + n <= days * n
  {
    assert days * n == (days - 1) * n + n;
    if day < days - 1 {
      DayWithin(day, days - 1, n);
    }
  }

  lemma DayOfPlace(d: nat, k: nat, day: nat, n: nat)
    requires k < n
    ensures d * n + k < day * n <==> d < day
    ensures d * n + k >= day * n + n <==> d > day
  {
    if d < day {
      LaterDayLaterSlot(d, day, n, k);
    } else if d > day {
      DayWithin(day, d, n);
    }
  }

  lemma PlacedByDay(candidates: seq<Candidate>, opts: PlanOptions, slots: seq<Slot>, day: nat, i: nat)
    requires candidates != [] && Greedy(candidates, opts, slots) && i < |slots|
    ensures i < day * Meals(opts.mealsPerDay) <==> slots[i].day < day
    ensures i >= day * Meals(opts.mealsPerDay) + Meals(opts.mealsPerDay) <==> slots[i].day > day
  {
    var k := SlotsInTurn(candidates, opts, slots, i);
    DayOfPlace(slots[i].day, k, day, Meals(opts.mealsPerDay));
  }

  /** A day's calories are those of its meals. */
  lemma DayIsItsMeals(candidates: seq<Candidate>, opts: PlanOptions, slots: seq<Slot>, day: nat)
    requires candidates != [] && Greedy(candidates, opts, slots)
    requires |slots| == opts.days * Meals(opts.mealsPerDay) && day < opts.days
    ensures DayCalories(slots, day) == Calories(MealsOf(opts, slots, day))
  {
    var n := Meals(opts.mealsPerDay);
    var start := day * n;
    DayWithin(day, opts.days, n);
    forall i | 0 <= i < |slots|
      ensures i < start <==> slots[i].day < day
      ensures i >= start + n <==> slots[i].day > day
    {
      PlacedByDay(candidates, opts, slots, day, i);
    }
    MiddleOfDays(slots, day, start, start + n);
  }

  lemma MiddleOfDays(slots: seq<Slot>, day: nat, start: nat, end: nat)
    requires start <= end <= |slots|
    requires forall i :: 0 <= i < |slots| ==>
               (i < start <==> slots[i].day < day) && (i >= end <==> slots[i].day > day)
    ensures DayCalories(slots, day) == Calories(slots[start..end])
  {
    OtherDaysDoNotCount(slots, day, end);
    EatenIsTheMeals(slots[..end], day, start);
    assert slots[..end][start..] == slots[start..end];
  }

  /** The day's calories are more than 15% of a positive target away from it. */
  ghost predicate FarFromTarget(opts: PlanOptions, calories: real) {
    match opts.targetCalories
    case None => false
    case Some(target) =>
      target > 0.0 && (calories - target > 0.15 * target || target - calories > 0.15 * target)
  }

  lemma AboveShare(miss: real, target: real)
    requires target > 0.0
    ensures miss / target > 0.15 <==> miss > 0.15 * target
  {
    var x := miss / target;
    assert x * target == miss;
    Cancel(x, 0.15, target);
  }

  lemma DeviatesIffFar(opts: PlanOptions, calories: real)
    ensures Deviates(opts.targetCalories, calories) <==> FarFromTarget(opts, calories)
  {
    if opts.targetCalories.Some? && opts.targetCalories.value > 0.0 {
      AboveShare(Abs(calories - opts.targetCalories.value), opts.targetCalories.value);
    }
  }

  /** Exactly the days whose meals miss the target by more than 15% carry the calorie warning. */
  lemma CalorieWarnings(candidates: seq<Candidate>, opts: PlanOptions, plan: Plan, day: nat)
    requires candidates != [] && IsPlan(candidates, opts, plan)
    ensures |plan.slots| == opts.days * Meals(opts.mealsPerDay)
    ensures CaloriesDeviate(day) in plan.warnings <==>
            day < opts.days && FarFromTarget(opts, Calories(MealsOf(opts, plan.slots, day)))
  {
    MealTable(opts.mealsPerDay, 0);
    assert CaloriesDeviate(day) in plan.warnings <==>
           Expected(candidates, opts, plan.slots, opts.days, CaloriesDeviate(day));
    if day < opts.days {
      DayIsItsMeals(candidates, opts, plan.slots, day);
      DeviatesIffFar(opts, DayCalories(plan.slots, day));
    }
  }

  /** Exactly the slots for which nothing fitted carry the budget warning. */
  lemma BudgetWarnings(candidates: seq<Candidate>, opts: PlanOptions, plan: Plan, day: nat, t: MealType)
    requires candidates != [] && IsPlan(candidates, opts, plan)
    ensures NoCandidates !in plan.warnings
    ensures BudgetExceeded(day, t) in plan.warnings <==>
            exists i :: 0 <= i < |plan.slots| && plan.slots[i].day == day && plan.slots[i].mealType == t
                        && NothingFits(candidates, opts, plan.slots[..i])
  {
    var slots := plan.slots;
    assert NoCandidates in plan.warnings <==> Expected(candidates, opts, slots, opts.days, NoCandidates);
    assert BudgetExceeded(day, t) in plan.warnings <==>
           Expected(candidates, opts, slots, opts.days, BudgetExceeded(day, t));
    forall i | 0 <= i < |slots|
      ensures Overrun(candidates, opts, slots, i) <==> NothingFits(candidates, opts, slots[..i])
    {
      AffordableIffFits(candidates, opts, slots[..i]);
    }
  }
}
