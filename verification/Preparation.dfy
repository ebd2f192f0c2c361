/** From a shopper's request to the optimizer's input. */
module Preparation {
  import opened Options
  import opened OrderedMaps
  import opened BasketTypes
  import opened Requirements
  import opened Pantry
  import opened OfferBuilding

  datatype PrepareError = NothingAsked | RecipeNotFound

  datatype Prepared = Prepared(requirements: seq<Requirement>, offersByReq: OfferBook)

  datatype Result<T> = Ok(value: T) | Err(error: PrepareError)

  /** The request, with what the database returns for it. */
  datatype Request = Request(
    recipeId: Option<string>, recipe: Option<seq<Line>>, ingredientNames: Option<seq<string>>,
    servingsMultiplier: real, usePantry: bool, pantry: seq<PantryItem>,
    excluded: set<StoreCode>, matches: seq<Match>, prices: Prices)

  predicate AsksRecipe(q: Request) {
    q.recipeId.Some? && q.recipeId.value != ""
  }

  predicate AsksNothing(q: Request) {
    !AsksRecipe(q) && (q.ingredientNames.None? || q.ingredientNames.value == [])
  }

  /** Recipe lines first, then names. */
  function Gathered(q: Request, lookup: string -> Option<Found>, ops: TextOps): Book
    requires AsksRecipe(q) ==> q.recipe.Some?
  {
    var fromRecipe := if AsksRecipe(q) then MergeLines(Empty(), q.recipe.value, q.servingsMultiplier, ops) else Empty();
    match q.ingredientNames
    case Some(names) => MergeNames(fromRecipe, names, lookup, ops)
    case None => fromRecipe
  }

  /**
   * What preparation answers: the two errors exactly when they are due, else what is left
   * to buy, under distinct keys, with exactly the offers wanted.
   */
  ghost predicate IsPrepared(q: Request, lookup: string -> Option<Found>, ops: TextOps, res: Result<Prepared>) {
    && (AsksNothing(q) <==> res == Err(NothingAsked))
    && (AsksRecipe(q) && q.recipe.None? <==> res == Err(RecipeNotFound))
    && (res.Ok? ==>
          var reqs := res.value.requirements;
          && Consistent(Gathered(q, lookup, ops))
          && reqs == (if q.usePantry then Pantry.Remaining(Gathered(q, lookup, ops).Values(), q.pantry)
                      else Gathered(q, lookup, ops).Values())
          && DistinctKeys(reqs)
          && IsBook(res.value.offersByReq, reqs, Wanted(q.matches, q.excluded, q.prices)))
  }

  method PrepareRequirements(q: Request, lookup: string -> Option<Found>, ops: TextOps)
    returns (res: Result<Prepared>)
    ensures IsPrepared(q, lookup, ops, res)
    ensures res.Ok? ==>
              forall stores :: OneRowPerStore(q.matches, stores) ==> FromStores(res.value.offersByReq, stores)
  {
    if AsksNothing(q) {
      return Err(NothingAsked);
    }
    if AsksRecipe(q) && q.recipe.None? {
      return Err(RecipeNotFound);
    }
    var out := new RequirementBook();
    if AsksRecipe(q) {
      out.AddRecipeRequirements(q.recipe.value, q.servingsMultiplier, ops);
    }
    if q.ingredientNames.Some? {
      out.AddNamedRequirements(q.ingredientNames.value, lookup, ops);
    }
    var reqs := out.book.Values();
    BookHasDistinctKeys(out.book);
    if q.usePantry {
      RemainingKeysDistinct(reqs, q.pantry);
      reqs := SubtractPantry(reqs, q.pantry);
    }
    var offers := BuildOffers(reqs, q.excluded, q.matches, q.prices);
    forall stores | OneRowPerStore(q.matches, stores)
      ensures FromStores(offers, stores)
    {
      BuiltOffersFromStores(reqs, offers, q.matches, q.excluded, q.prices, stores);
    }
    res := Ok(Prepared(reqs, offers));
  }

  /**
   * A request without a recipe id and without names is refused, and so is one whose recipe
   * is not found; any other is answered from its recipe's lines, if it has an id, and then
   * its names, if it has any.
   */
  lemma AnswersAreDue(q: Request, lookup: string -> Option<Found>, ops: TextOps, res: Result<Prepared>)
    requires IsPrepared(q, lookup, ops, res)
    ensures var noRecipe := q.recipeId == None || q.recipeId == Some("");
      var names := if q.ingredientNames.Some? then q.ingredientNames.value else [];
      && (res == Err(NothingAsked) <==> noRecipe && names == [])
      && (res == Err(RecipeNotFound) <==> !noRecipe && q.recipe == None)
      && (res.Ok? && noRecipe ==> Gathered(q, lookup, ops) == MergeNames(Empty(), names, lookup, ops))
      && (res.Ok? && !noRecipe ==>
            Gathered(q, lookup, ops)
            == MergeNames(MergeLines(Empty(), q.recipe.value, q.servingsMultiplier, ops), names, lookup, ops))
  {
  }
}
