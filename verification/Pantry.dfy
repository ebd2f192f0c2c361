/** Pantry stock: how many grams there are, and what is left to buy. */
module Pantry {
  import opened Sequences
  import opened Options
  import opened BasketTypes
  import opened Units

  /** An unconsumed pantry item with its ingredient's conversion data; the unit name is normalised. */
  datatype PantryItem = PantryItem(
    ingredientId: Option<string>, quantity: real, unit: string, density: Option<real>, gramsPerPiece: Option<real>)

  predicate HasIngredient(item: PantryItem) {
    item.ingredientId.Some? && item.ingredientId.value != ""
  }

  function ItemAmount(item: PantryItem): Normalized {
    ToCanonical(item.quantity, item.unit, item.density, item.gramsPerPiece)
  }

  /** Pieces without a known weight cannot be counted as grams. */
  predicate Weighable(item: PantryItem) {
    HasIngredient(item) && ItemAmount(item).unit != Piece
  }

  // ---- specifications ----

  /** The grams (or millilitres) on record for one ingredient. */
  function StockOf(items: seq<PantryItem>, id: string): real {
    if items == [] then 0.0
    else
      var item := items[|items| - 1];
      StockOf(items[..|items| - 1], id)
      + if Weighable(item) && item.ingredientId == Some(id) then ItemAmount(item).value else 0.0
  }

  /** The same, counting only positive amounts. */
  function CoverageOf(items: seq<PantryItem>, id: string): real {
    if items == [] then 0.0
    else
      var item := items[|items| - 1];
      var grams := ItemAmount(item).value;
      CoverageOf(items[..|items| - 1], id)
      + if Weighable(item) && item.ingredientId == Some(id) && grams > 0.0 then grams else 0.0
  }

  /** The real sum of a value of each item. */
  ghost function Sum(items: seq<PantryItem>, f: PantryItem -> real): real {
    if items == [] then 0.0 else Sum(items[..|items| - 1], f) + f(items[|items| - 1])
  }

  /** An item's grams or millilitres, by its own density and weight per piece, if it is of ingredient `id`. */
  ghost function AmountOf(id: string): PantryItem -> real {
    (item: PantryItem) =>
      var amount := ToCanonical(item.quantity, item.unit, item.density, item.gramsPerPiece);
      if item.ingredientId == Some(id) && id != "" && amount.unit != Piece then amount.value else 0.0
  }

  ghost function PositiveAmountOf(id: string): PantryItem -> real {
    (item: PantryItem) => if AmountOf(id)(item) > 0.0 then AmountOf(id)(item) else 0.0
  }

  /** Stock adds up the convertible amounts, coverage the positive ones; nothing is on record without an id. */
  lemma {:induction false} StockIsTheSum(items: seq<PantryItem>, id: string)
    ensures StockOf(items, id) == Sum(items, AmountOf(id))
    ensures CoverageOf(items, id) == Sum(items, PositiveAmountOf(id))
  {
    if items != [] {
      StockIsTheSum(items[..|items| - 1], id);
      OneItem(items[|items| - 1], id);
    }
  }

  lemma OneItem(item: PantryItem, id: string)
    ensures AmountOf(id)(item) ==
            if Weighable(item) && item.ingredientId == Some(id) then ItemAmount(item).value else 0.0
  {
  }

  function GramsIn(m: map<string, real>, id: string): real {
    if id in m then m[id] else 0.0
  }

  /** No weighable item of the ingredient has a negative quantity. */
  ghost predicate NoDebt(items: seq<PantryItem>, id: string) {
    forall i :: 0 <= i < |items| && Weighable(items[i]) && items[i].ingredientId == Some(id) ==>
      items[i].quantity >= 0.0
  }

  /**
   * The two pantry counts differ only by negative entries: they agree on an
   * ingredient exactly when none of its weighable items has a negative quantity.
   */
  lemma {:induction false} CountsAgree(items: seq<PantryItem>, id: string)
    ensures StockOf(items, id) <= CoverageOf(items, id)
    ensures 0.0 <= CoverageOf(items, id)
    ensures StockOf(items, id) == CoverageOf(items, id) <==> NoDebt(items, id)
  {
    if items != [] {
      var init, item := items[..|items| - 1], items[|items| - 1];
      CountsAgree(init, id);
      ConversionKeepsSign(item.quantity, item.unit, item.density, item.gramsPerPiece);
      assert NoDebt(items, id) <==>
             NoDebt(init, id) && (Weighable(item) && item.ingredientId == Some(id) ==> item.quantity >= 0.0) by {
        DebtStep(items, id);
      }
    }
  }

  lemma DebtStep(items: seq<PantryItem>, id: string)
    requires items != []
    ensures var init, item := items[..|items| - 1], items[|items| - 1];
      NoDebt(items, id) <==>
      NoDebt(init, id) && (Weighable(item) && item.ingredientId == Some(id) ==> item.quantity >= 0.0)
  {
    var init := items[..|items| - 1];
    if NoDebt(items, id) {
      forall i | 0 <= i < |init| && Weighable(init[i]) && init[i].ingredientId == Some(id)
        ensures init[i].quantity >= 0.0
      {
        assert items[i] == init[i];
      }
    }
  }

  // ---- the loops ----

  method PantryGrams(items: seq<PantryItem>) returns (grams: map<string, real>)
    ensures forall id :: GramsIn(grams, id) == StockOf(items, id)
  {
    grams := map[];
    for i := 0 to |items|
      invariant forall id :: GramsIn(grams, id) == StockOf(items[..i], id)
    {
      PrefixStep(items, i);
      var item := items[i];
      if HasIngredient(item) {
        var canonical := ItemAmount(item);
        if canonical.unit == Grams || canonical.unit == Millilitres {
          var id := item.ingredientId.value;
          grams := grams[id := GramsIn(grams, id) + canonical.value];
        }
      }
    }
    FullPrefix(items);
  }

  method ComputeCoverageGrams(items: seq<PantryItem>) returns (coverage: map<string, real>)
    ensures forall id :: GramsIn(coverage, id) == CoverageOf(items, id)
    ensures forall id <- coverage :: coverage[id] > 0.0
  {
    coverage := map[];
    for i := 0 to |items|
      invariant forall id :: GramsIn(coverage, id) == CoverageOf(items[..i], id)
      invariant forall id <- coverage :: coverage[id] > 0.0
    {
      PrefixStep(items, i);
      var item := items[i];
      if HasIngredient(item) {
        var norm := ItemAmount(item);
        var grams := if norm.unit == Piece then 0.0 else norm.value;
        if grams > 0.0 {
          var id := item.ingredientId.value;
          coverage := coverage[id := GramsIn(coverage, id) + grams];
        }
      }
    }
    FullPrefix(items);
  }

  // ---- subtraction ----

  /** What remains to buy of one requirement, given the pantry's grams of its ingredient. */
  function AfterPantry(r: Requirement, inPantry: real): Option<Requirement> {
    if r.ingredientId.None? || r.requiredQtyG.None? || inPantry <= 0.0 then Some(r)
    else
      var needed := r.requiredQtyG.value - inPantry;
      if needed > 0.5 then Some(r.(requiredQtyG := Some(needed))) else None
  }

  function StockFor(items: seq<PantryItem>, r: Requirement): real {
    match r.ingredientId
    case Some(id) => StockOf(items, id)
    case None => 0.0
  }

  function Remaining(reqs: seq<Requirement>, items: seq<PantryItem>): seq<Requirement> {
    if reqs == [] then []
    else
      var before, r := Remaining(reqs[..|reqs| - 1], items), reqs[|reqs| - 1];
      match AfterPantry(r, StockFor(items, r))
      case Some(rest) => before + [rest]
      case None => before
  }

  method SubtractPantry(reqs: seq<Requirement>, items: seq<PantryItem>) returns (remaining: seq<Requirement>)
    ensures remaining == Remaining(reqs, items)
  {
    if forall i :: 0 <= i < |reqs| ==> reqs[i].ingredientId.None? {
      NothingToSubtract(reqs, items);
      return reqs;
    }
    var pantryGrams := PantryGrams(items);
    remaining := [];
    for i := 0 to |reqs|
      invariant remaining == Remaining(reqs[..i], items)
    {
      PrefixStep(reqs, i);
      var r := reqs[i];
      if r.ingredientId.None? || r.requiredQtyG.None? {
        remaining := remaining + [r];
      } else {
        var inPantry := GramsIn(pantryGrams, r.ingredientId.value);
        if inPantry <= 0.0 {
          remaining := remaining + [r];
        } else {
          var needed := r.requiredQtyG.value - inPantry;
          if needed > 0.5 {
            remaining := remaining + [r.(requiredQtyG := Some(needed))];
          }
        }
      }
    }
    FullPrefix(reqs);
  }

  lemma {:induction false} NothingToSubtract(reqs: seq<Requirement>, items: seq<PantryItem>)
    requires forall i :: 0 <= i < |reqs| ==> reqs[i].ingredientId.None?
    ensures Remaining(reqs, items) == reqs
  {
    if reqs != [] {
      NothingToSubtract(reqs[..|reqs| - 1], items);
    }
  }

  /** `rest` is what the pantry leaves of the `j`th requirement. */
  ghost predicate LeftOf(reqs: seq<Requirement>, items: seq<PantryItem>, j: int, rest: Requirement) {
    0 <= j < |reqs| && AfterPantry(reqs[j], StockFor(items, reqs[j])) == Some(rest)
  }

  /** Subtraction only drops or shrinks requirements. */
  lemma {:induction false} RemainingFacts(reqs: seq<Requirement>, items: seq<PantryItem>, rest: Requirement)
    ensures rest in Remaining(reqs, items) <==> exists j :: LeftOf(reqs, items, j, rest)
  {
    if reqs != [] {
      var n := |reqs| - 1;
      var init := reqs[..n];
      RemainingFacts(init, items, rest);
      if j :| LeftOf(init, items, j, rest) {
        assert LeftOf(reqs, items, j, rest);
      }
      if j :| LeftOf(reqs, items, j, rest) {
        assert j < n ==> LeftOf(init, items, j, rest);
      }
      assert LeftOf(reqs, items, n, rest) <==> AfterPantry(reqs[n], StockFor(items, reqs[n])) == Some(rest);
    }
  }

  /** What is on record of the requirement's ingredient: none for a requirement without one. */
  ghost function OnRecord(r: Requirement, items: seq<PantryItem>): real {
    if r.ingredientId.Some? then StockOf(items, r.ingredientId.value) else 0.0
  }

  /** The requirement is quantified, and its stock is positive and within half a gram of all that is required. */
  ghost predicate Covered(r: Requirement, items: seq<PantryItem>) {
    && r.requiredQtyG.Some? && OnRecord(r, items) > 0.0
    && r.requiredQtyG.value - OnRecord(r, items) <= 0.5
  }

  /** `rest` is `r` itself, with its grams, when known, reduced by any positive stock to more than half a gram. */
  ghost predicate IsRestOf(rest: Requirement, r: Requirement, items: seq<PantryItem>) {
    && rest.key == r.key && rest.ingredientId == r.ingredientId && rest.name == r.name
    && match r.requiredQtyG
       case None => rest.requiredQtyG == None
       case Some(required) =>
         if OnRecord(r, items) <= 0.0 then rest.requiredQtyG == Some(required)
         else
           rest.requiredQtyG == Some(required - OnRecord(r, items)) && required - OnRecord(r, items) > 0.5
  }

  ghost function Uncovered(items: seq<PantryItem>): Requirement -> bool {
    (r: Requirement) => !Covered(r, items)
  }

  ghost function RestOf(items: seq<PantryItem>): (Requirement, Requirement) -> bool {
    (r: Requirement, rest: Requirement) => IsRestOf(rest, r, items)
  }

  /**
   * What is left is, in order, the rest of every requirement the pantry does not cover:
   * the same key, ingredient and name, and the grams that are still lacking.
   */
  lemma {:induction false} RemainingIsTheRest(reqs: seq<Requirement>, items: seq<PantryItem>) returns (from: seq<nat>)
    ensures TakenFrom(Remaining(reqs, items), from, reqs, Uncovered(items), RestOf(items))
  {
    from := [];
    if reqs != [] {
      var init, r := reqs[..|reqs| - 1], reqs[|reqs| - 1];
      from := RemainingIsTheRest(init, items);
      RestOrCovered(r, items);
      InitAndLast(reqs);
      match AfterPantry(r, StockFor(items, r))
      case None => DropNext(Remaining(init, items), from, init, Uncovered(items), RestOf(items), r);
      case Some(rest) =>
        TakeNext(Remaining(init, items), from, init, Uncovered(items), RestOf(items), r, rest);
        from := from + [|init|];
    }
  }

  lemma RestOrCovered(r: Requirement, items: seq<PantryItem>)
    ensures match AfterPantry(r, StockFor(items, r))
      case None => Covered(r, items)
      case Some(rest) => IsRestOf(rest, r, items) && !Covered(r, items)
  {
  }

  /** What is left to buy still has distinct keys. */
  lemma {:induction false} RemainingKeysDistinct(reqs: seq<Requirement>, items: seq<PantryItem>)
    requires DistinctKeys(reqs)
    ensures DistinctKeys(Remaining(reqs, items))
  {
    if reqs != [] {
      var init, r := reqs[..|reqs| - 1], reqs[|reqs| - 1];
      RemainingKeysDistinct(init, items);
      var before := Remaining(init, items);
      forall i | 0 <= i < |before|
        ensures before[i].key != r.key
      {
        RemainingFacts(init, items, before[i]);
        var j :| LeftOf(init, items, j, before[i]);
        assert reqs[j] == init[j];
      }
    }
  }

  // ---- end to end ----

  /** The grams in `n` packs, when a pack's grams are known. */
  function PackedGrams(n: int, o: Offer): real {
    n as real * o.packQtyG.GetOr(0.0)
  }

  /** What is on hand that counts. */
  function Usable(items: seq<PantryItem>, r: Requirement): real {
    var stock := StockFor(items, r);
    if stock > 0.0 then stock else 0.0
  }

  /**
   * Pantry plus purchase meets every quantity: what is dropped was covered to within
   * half a gram, and what is kept is covered by the packs bought, of which any fewer
   * (but at least one) would not do.
   */
  lemma PantryPlusPacksSuffice(r: Requirement, items: seq<PantryItem>, o: Offer, n: int)
    requires r.requiredQtyG.Some? && Positive(o.packQtyG)
    ensures match AfterPantry(r, StockFor(items, r))
      case None => Usable(items, r) >= r.requiredQtyG.value - 0.5
      case Some(rest) =>
        && Usable(items, r) + PackedGrams(PacksNeeded(rest, o), o) >= r.requiredQtyG.value
        && (n >= 1 ==> (Usable(items, r) + PackedGrams(n, o) >= r.requiredQtyG.value <==> PacksNeeded(rest, o) <= n))
  {
    match AfterPantry(r, StockFor(items, r))
    case None =>
    case Some(rest) =>
      PacksCover(rest, o, PacksNeeded(rest, o));
      PacksCover(rest, o, n);
  }

  /** `n` packs cover a requirement of known grams exactly when `n` reaches the computed count. */
  lemma PacksCover(r: Requirement, o: Offer, n: int)
    requires r.requiredQtyG.Some? && Positive(o.packQtyG)
    ensures n >= 1 ==> (PackedGrams(n, o) >= r.requiredQtyG.value <==> PacksNeeded(r, o) <= n)
  {
    if KnownGrams(r, o) {
      PacksNeededIsLeast(r, o, n);
    } else if n >= 1 {
      assert n as real * o.packQtyG.value > 0.0;
    }
  }
}
