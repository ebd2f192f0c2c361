# Smart grocery: baskets, plans, forecasts and shared-table protocols

A Dafny model of the parts of the grocery service that promise something hard, with
proofs that the promises hold, or exactly when they do.

* **Basket optimizer** (`BasketTypes`, `Picking`, `StoreTables`, `Ranking`, `SetCover`,
  `GreedyCover`, `Convenience`, `Grouping`, `Delivery`, `DeliveryOptimality`, `Results`,
  `Optimizer`, `Guarantees`, `StoreCounts`, `ResultLaws`, `ChoiceLaws`): four strategies turn
  requirements and offers into baskets, and an accounting pass turns a basket into a result.
* **Lists on which its promises stop** (`Markets`, `MarketTables`, `Halving`, `Limits`), each
  proved to be exactly what the service prepares from some request, at its seven store codes
  (`Markets.MarketIsPrepared`).
* **Quantities** (`Units`, `Requirements`, `Pantry`, `OfferBuilding`, `Preparation`,
  `PriceComparison`, `EndToEnd`): recipe lines become requirements, the pantry is
  subtracted, products become offers, and a second cost formula ranks the same products.
* **Meal plans** (`PlanBuilder`, `PlanGuarantees`, `PlanLaws`): a greedy loop with a look-ahead on the
  budget and a last-used map.
* **Forecasts** (`Regression`): ordinary least squares.
* **Step protocols** (`Quota`, `Tokens`, `Medians`, `Consensus`, `Overlaps`): any number of
  calls over shared tables, each database statement one atomic step, in any order.
* **Alert scan** (`AlertScan`): cursor pagination with isolated failures, over a table that
  may change between queries.
* `OrderedMaps` holds insertion-ordered maps, `Sequences` the slices loops work through.

Each loop or state change is a method proved equal to a function of its inputs or of the
old state; the promises are then proved about that function. A JavaScript `Map` that is
iterated is a sequence of keys in insertion order together with a finite map.

What such a function computes is in turn pinned by laws that do not name it: `ResultLaws`,
`ChoiceLaws` and `PlanLaws` restate fees, scores, totals and choices from the stores' terms,
the offers and the recipes, and the other modules end in laws of the same kind.

## Reading the model

* Money is integer cents. Grams, quality scores, calories, mean baselines and regression
  data are reals, so rounding of floating point, NaN and infinities are idealised away;
  `Math.ceil(n * 0.6)` is (3n + 4) / 5, and "within 15%" of a median m is 20·|p − m| ≤ 3·m.
* Stores and requirement keys are names of which only equality matters. Store codes are
  unbounded in the model; the service has the seven of `Markets.CODES`, so no basket there
  uses more than seven stores (`Limits.AtMostSevenStores`). Requirement keys are distinct, as
  they come from one `Map`. Where delivery fees are compared, all offers of one store carry
  that store's fee fields (`FromStores`); `Preparation.PrepareRequirements` proves both for
  the baskets the service prepares.
* Every hypothesis a guarantee makes about a result, a basket or a plan (`ResultOf`,
  `IsDelivery`, `Selection`, `IsPlan`) is what the corresponding method ensures for all its
  inputs, so none of them is empty.
* Database reads, clocks, name lookup, similarity search, text trimming and lower-casing,
  whether a handler throws and whether applying a price throws are inputs.

## Where comments and code differ

The model follows the code.

* DELIVERY is documented as "capped at 2 stores". When no store covers 60% it falls back to
  CHEAPEST's basket. The cap holds if and only if some store sells at least 60% of what is
  sold, or no three requirements have their first cheapest offers at three different stores
  (`StoreCounts.DeliveryStoreCount`); for every n from 2 to 7 the list `Limits.Separate(n)`
  takes n stores (`Limits.NoCapOnStores`).
* The complement is described as the "single cheapest"; the code prefers coverage and uses
  cost only among equals. It is the cheapest of all stores that add anything if and only if
  some store of greatest added coverage is (`DeliveryOptimality.ComplementIsLeastIff`);
  `Limits.DearComplement` gives offers where it is not.
* CONVENIENCE is described as "minimizing the number of stores". It is greedy: within k·H(n)
  of any k stores that sell everything, and not minimal. `StoreCounts.LuresAreExtra` says
  how stores that sell the most of what is left are used on top of all that are needed, and
  `Halving.GreedyIsNotMinimal` gives lists that two stores sell and CONVENIENCE buys at
  m + 2, for every m up to the 5 that seven stores allow. It is minimal when no store sells
  more than one requirement (`StoreCounts.StoreCountBySize`, which bounds it by k·H(d) in
  general), when every selling store is the only seller of something
  (`StoreCounts.MinimalWhenAllIndispensable`), and when one store sells everything
  (`Convenience.ConvenienceAtOneStore`). An exact condition for a greedy cover to be minimal
  is not claimed.
* DELIVERY can print an item as unmatched that is on offer (`Limits.OfferedButLeftOut`): a
  cheaper combination that lacks it wins. It buys exactly what its primary and complement
  sell (`DeliveryOptimality.DeliveryBuysExactly`), and everything when every qualifying
  primary does with its maximal complements
  (`DeliveryOptimality.DeliveryBuysAllWhenCombosDo`).
* The two pantry totals agree if and only if no weighable item has a negative quantity
  (`Pantry.CountsAgree`). The input schema (packages/shared/src/schemas.ts:103) and the image
  path (apps/api/src/pantry/pantry.service.ts:260-263) let no negative quantity be stored,
  so they agree on all stock the service can hold.
* Without x-variance the flat regression line is one of many least lines
  (`Regression.AnySlopeWithoutSpread`).
* The applied consensus price can lie outside the approved prices
  (`Medians.MedianBelowEveryAgreeing`); `Consensus.PointAmongApprovedIff` says exactly when
  it does not.
* The consensus update does not check that submissions are still pending. No submission is
  approved twice if and only if every update happened to find its submissions pending
  (`Consensus.OnceIffUpdatesFindPending`), as it does when calls do not overlap or agree on
  different submissions. Calls that overlap on the same group approve it twice and apply its
  price twice (`Overlaps.OverlapAppliesTwice`).
* A token's expiry is checked when it is read and not again by the compare-and-set. Every
  call that gets through read its token before the expiry (`Tokens.ReadBeforeExpiry`); the
  use is before the expiry too if and only if the delay between the two is less than the
  life the token had left (`Tokens.UsedInTimeIff`). If no delay exceeds d, no token is used d
  or more after its expiry (`Tokens.UsedWithinDelay`), and that bound is reached for every d
  (`Tokens.LateByAnyDelay`).
* The alert scan pages with `skip: 1` from the last alert handled. If that alert is disabled
  before the next query, the next enabled alert is never handled
  (`AlertScan.DisabledCursorDropsNext`); if it is deleted, the scan ends there
  (`AlertScan.DeletedCursorEndsScan`). A query returns what follows its cursor if and only if
  the cursor's alert is still enabled or nothing follows it (`AlertScan.FollowsCursorIff`).

## Model

| member | source | states |
|---|---|---|
| `SetCover.GreedyBound` | apps/api/src/baskets/basket-optimizer.service.ts:143-174 | Over any sets: every greedy run takes at most the sum of H(size of each cover member's share), for every cover (Chvátal's bound) |
| `SetCover.GreedyWithinHarmonic` | apps/api/src/baskets/basket-optimizer.service.ts:143-174 | Hence at most k·H(n) choices for n elements and any cover of k sets |
| `GreedyCover.BestStore` | apps/api/src/baskets/basket-optimizer.service.ts:146-166 | The inner sweep finds the first untaken store of most uncovered requirements, cheapest among equals, and none when no store adds any |
| `GreedyCover.SelectStores` | apps/api/src/baskets/basket-optimizer.service.ts:143-174 | The loop ends with nothing uncovered, never by its `break`, and its picks are a greedy run |
| `Convenience.AssignConvenience` | apps/api/src/baskets/basket-optimizer.service.ts:122-177 | The loops compute the basket of cheapest offers within the greedily selected stores |
| `Convenience.ConvenienceCoversMatched` | apps/api/src/baskets/basket-optimizer.service.ts:122-177 | A requirement is bought exactly when someone offers it, and always at a selected store |
| `Convenience.ConvenienceBound` | apps/api/src/baskets/basket-optimizer.service.ts:143-176 | If any k stores together sell everything sold at all, at most k·H(n) stores are selected |
| `Convenience.ConvenienceAtOneStore` | apps/api/src/baskets/basket-optimizer.service.ts:143-176 | If one store sells everything, exactly one store is selected: such a store, of least item cost |
| `Guarantees.ConvenienceStoreCount` | apps/api/src/baskets/basket-optimizer.service.ts:122-177 | The printed `storeCount` of CONVENIENCE is within k·H(n) |
| `Guarantees.ConvenienceSingleStore` | apps/api/src/baskets/basket-optimizer.service.ts:122-177 | With a store that stocks everything the result has one store line and one delivery fee |
| `StoreCounts.StoreCountBySize` | apps/api/src/baskets/basket-optimizer.service.ts:143-176 | If no store of a covering set of k sells more than d requirements, CONVENIENCE uses at most k·H(d) stores; at most k for d = 1 |
| `StoreCounts.MinimalWhenAllIndispensable` | apps/api/src/baskets/basket-optimizer.service.ts:116-121 | When every selling store is the only seller of something, CONVENIENCE uses no more stores than any covering set |
| `StoreCounts.LuresAreExtra` | apps/api/src/baskets/basket-optimizer.service.ts:145-176 | Stores that in turn sell the most of what is left, and undercut all others on something, are used on top of every indispensable store, so CONVENIENCE uses as many more stores than those alone |
| `Halving.GreedyIsNotMinimal` | apps/api/src/baskets/basket-optimizer.service.ts:116-121 | For every m up to 5 a list the service can prepare that two stores sell and every CONVENIENCE result buys at m + 2 stores |
| `Markets.MarketIsPrepared` | apps/api/src/baskets/baskets.service.ts:57-78 | From a request for its names, matches and prices, the service prepares exactly the list and the offers described |
| `Picking.AssignCheapest` | apps/api/src/baskets/basket-optimizer.service.ts:92-114 | The loops pick, per requirement, the first offer of least cost at an allowed store |
| `Picking.AssignQuality` | apps/api/src/baskets/basket-optimizer.service.ts:259-284 | The loops pick, per requirement, the first offer of best quality, least cost among equal quality |
| `Picking.CheapestOfIsFirstLeast` | apps/api/src/baskets/basket-optimizer.service.ts:98-108 | The pick exists exactly when an allowed offer does, and is the first of least cost |
| `Picking.QualityOfIsFirstBest` | apps/api/src/baskets/basket-optimizer.service.ts:265-278 | The pick exists exactly when an offer does, and is the first lexicographic maximum |
| `Picking.CheapestIsOptimal` | apps/api/src/baskets/basket-optimizer.service.ts:92-114 | No way of choosing one offer for each requirement that has any costs less in total |
| `Picking.QualityIsOptimal` | apps/api/src/baskets/basket-optimizer.service.ts:259-284 | No way of choosing one offer for each requirement that has any scores more in total, and none of the same total score costs less |
| `BasketTypes.PacksNeededIsLeast` | apps/api/src/baskets/basket-optimizer.service.ts:52-62 | With known grams, n packs cover the requirement if and only if n is at least the pack count |
| `StoreTables.CheapestPerStore` | apps/api/src/baskets/basket-optimizer.service.ts:289-309 | The table has, for every store met, its cheapest assignment of each requirement, in order of meeting |
| `StoreTables.RowFacts` | apps/api/src/baskets/basket-optimizer.service.ts:289-309 | A store's row holds a requirement exactly when the store sells it, bought at that store |
| `StoreTables.RowIsCheapest` | apps/api/src/baskets/basket-optimizer.service.ts:301-305 | Every entry of a row is one of the store's offers for it, and none of the store's offers costs less |
| `Grouping.GroupByStore` | apps/api/src/baskets/basket-optimizer.service.ts:335-370 | The in-place grouping equals, store by store, the subtotal, count and first offer's fee of the assignments there; `ResultLaws.StoreLinesAreTrue` says which figures these are |
| `Grouping.GrandTotal` | apps/api/src/baskets/basket-optimizer.service.ts:326-333 | The grand total is goods plus one delivery per store used, as the printed store lines list them |
| `Grouping.GroupsConserve` | apps/api/src/baskets/basket-optimizer.service.ts:343-361 | Split over stores, money and items are conserved |
| `Grouping.GrandAtTwoStores` | apps/api/src/baskets/basket-optimizer.service.ts:326-370 | Two disjoint shopping lists at two stores cost their subtotals and one delivery each |
| `Delivery.ChooseComplement` | apps/api/src/baskets/basket-optimizer.service.ts:208-246 | The sweep picks the complement of most added coverage, least cost with delivery among those |
| `Delivery.BestComplementIsMaximal` | apps/api/src/baskets/basket-optimizer.service.ts:214-240 | No store adds more coverage than the complement chosen; none is chosen only if none adds any |
| `Delivery.ComboGrand` | apps/api/src/baskets/basket-optimizer.service.ts:230-249 | `deliveryForSubtotal` and `groupByStore` agree: a combination costs its primary plus its complement's score |
| `Delivery.AssignDelivery` | apps/api/src/baskets/basket-optimizer.service.ts:185-256 | The loops compute the first cheapest qualifying combination, else the CHEAPEST basket |
| `DeliveryOptimality.DeliveryIsOptimal` | apps/api/src/baskets/basket-optimizer.service.ts:203-253 | No qualifying primary with any complement of maximal coverage for it has a lower grand total |
| `DeliveryOptimality.DeliveryHasPrimary` | apps/api/src/baskets/basket-optimizer.service.ts:195-201 | There is a primary exactly when some store reaches the 60% bar |
| `DeliveryOptimality.DeliveryUsesTwoStores` | apps/api/src/baskets/basket-optimizer.service.ts:185-256 | With a primary at most two stores deliver and at least the bar is covered |
| `DeliveryOptimality.DeliveryFallsBack` | apps/api/src/baskets/basket-optimizer.service.ts:199-201 | Without one the basket is CHEAPEST's |
| `DeliveryOptimality.DeliveryCoversAll` | apps/api/src/baskets/basket-optimizer.service.ts:185-256 | When some store stocks everything, DELIVERY buys everything |
| `DeliveryOptimality.ComplementIsLeastIff` | apps/api/src/baskets/basket-optimizer.service.ts:211-240 | The complement chosen is the cheapest of all stores that add anything if and only if some store of greatest added coverage is |
| `Limits.DearComplement` | apps/api/src/baskets/basket-optimizer.service.ts:211-240 | On a list like `Limits.Dear` the complement chosen costs 2000 although another store adds something at 100 |
| `Limits.DearIsDear` | apps/api/src/baskets/basket-optimizer.service.ts:211-240 | `Limits.Dear` is such a list, of five ingredients at three of the seven stores |
| `DeliveryOptimality.DeliveryBuysExactly` | apps/api/src/baskets/basket-optimizer.service.ts:203-255 | DELIVERY buys a requirement exactly when its primary or the complement sells it, and everything on offer without a primary |
| `DeliveryOptimality.DeliveryBuysAllWhenCombosDo` | apps/api/src/baskets/basket-optimizer.service.ts:203-255 | When every qualifying primary with its maximal complements buys everything on offer, so does DELIVERY |
| `Limits.OfferedButLeftOut` | apps/api/src/baskets/basket-optimizer.service.ts:203-255 | On a list like `Limits.Short` DELIVERY leaves an item unmatched that is on offer, though a qualifying primary with one complement buys everything |
| `Limits.ShortIsShort` | apps/api/src/baskets/basket-optimizer.service.ts:203-255 | `Limits.Short` is such a list |
| `StoreCounts.DeliveryStoreCount` | apps/api/src/baskets/basket-optimizer.service.ts:179-201 | The "capped at 2 stores" comment holds if and only if some store sells 60% of what is sold or no three requirements have their first cheapest offers at three different stores |
| `Limits.DeliveryTakesAsManyStores` | apps/api/src/baskets/basket-optimizer.service.ts:179-201 | n ≥ 2 requirements with n separate sellers make DELIVERY use n stores |
| `Limits.NoCapOnStores` | apps/api/src/baskets/basket-optimizer.service.ts:179-201 | For every n from 2 to 7 there is a list the service can prepare on which DELIVERY uses n stores |
| `Limits.AtMostSevenStores` | apps/api/src/baskets/basket-optimizer.service.ts:335-361 | With offers from the seven codes no strategy uses more than seven stores |
| `Guarantees.DeliveryBeatsConvenience` | apps/api/src/baskets/basket-optimizer.service.ts:185-256 | When some store stocks everything, DELIVERY's grand total is at most CONVENIENCE's, with the same items unmatched |
| `Guarantees.DeliverySavingsNotClamped` | apps/api/src/baskets/basket-optimizer.service.ts:372-401 | When every store at the bar stocks everything, DELIVERY costs at most the baseline mean and its savings are the unclamped difference |
| `Guarantees.CheapestOnCoveredKeys` | apps/api/src/baskets/basket-optimizer.service.ts:92-114 | On the keys any strategy covers, CHEAPEST costs no more in items |
| `Guarantees.CheapestIsLeastTotal` | apps/api/src/baskets/basket-optimizer.service.ts:92-284 | CHEAPEST's item total is at most CONVENIENCE's and QUALITY's, and the three leave the same names unmatched |
| `Guarantees.LeavesOnlyOfferless` | apps/api/src/baskets/basket-optimizer.service.ts:421-449 | CHEAPEST, CONVENIENCE and QUALITY leave a requirement unmatched exactly when nobody offers it |
| `Guarantees.ResultBalances` | apps/api/src/baskets/basket-optimizer.service.ts:403-468 | For every strategy: item lines, store subtotals and `totalCents` agree; store counts plus unmatched equal the requirements; each line is quantity times unit price |
| `ResultLaws.StoreLinesAreTrue` | apps/api/src/baskets/basket-optimizer.service.ts:335-419 | For every strategy: one line per store bought at, with the store's name, the sum and number of the lines bought there, and its fee, which is 0 if it has a minimum and the subtotal reaches it |
| `ResultLaws.TotalsAndSavings` | apps/api/src/baskets/basket-optimizer.service.ts:451-468 | Totals add up the store lines; savings are the mean less the grand total to the nearest cent, halves up, 0 below half a cent and without a mean |
| `ResultLaws.ItemIsTrue` | apps/api/src/baskets/basket-optimizer.service.ts:421-449 | An item line names its requirement and is either all zeros or one of its offers, in the fewest packs that hold the grams (one if these are not known), at packs times price |
| `ResultLaws.UnmatchedAreTheLines` | apps/api/src/baskets/basket-optimizer.service.ts:421-449 | The unmatched names are those of the unmatched lines, in order |
| `ChoiceLaws.BaselineIsTheMean` | apps/api/src/baskets/basket-optimizer.service.ts:372-401 | The baseline times the number of stores that sell at least 60% of what is sold is the sum of what each would charge, fee included; without such a store there is none |
| `ChoiceLaws.QualifiesIffSixtyPercent` | apps/api/src/baskets/basket-optimizer.service.ts:195-198 | A store qualifies exactly when it sells something and five times that number is at least three times the number sold by anyone |
| `ChoiceLaws.QualityWeighsTierTwice` | apps/api/src/baskets/basket-optimizer.service.ts:258-284 | What QUALITY buys has the greatest 2·tier + store score of all offers, at the least cost among equals |
| `ChoiceLaws.HigherTierWins` | apps/api/src/baskets/basket-optimizer.service.ts:258-284 | An offer passed over has a higher tier only if its store scores at least 2 less |
| `ChoiceLaws.EachPickIsBest` | apps/api/src/baskets/basket-optimizer.service.ts:143-173 | Each store taken sells something no earlier one does, as many such requirements as any untaken store, for the least money among those that sell as many |
| `ChoiceLaws.ComplementIsBest` | apps/api/src/baskets/basket-optimizer.service.ts:208-246 | A complement adds as many of the requirements the primary lacks as any store, and among those at the least goods plus fee, waived from the store's minimum on |
| `Results.BuildResult` | apps/api/src/baskets/basket-optimizer.service.ts:403-468 | The loops build a result with one line per requirement, one per store, and clamped rounded savings |
| `Results.BooksBalance` | apps/api/src/baskets/basket-optimizer.service.ts:403-468 | Any such result balances, for any basket bought for the requirements |
| `Optimizer.Assign` | apps/api/src/baskets/basket-optimizer.service.ts:75-90 | Every strategy's method delivers that strategy's basket |
| `Optimizer.ComputeBaseline` | apps/api/src/baskets/basket-optimizer.service.ts:376-401 | The mean of the grand totals of the single stores that reach the bar, if any |
| `Optimizer.Optimize` | apps/api/src/baskets/basket-optimizer.service.ts:32-43 | One strategy's result is built from that strategy's basket |
| `Optimizer.OptimizeAll` | apps/api/src/baskets/basket-optimizer.service.ts:21-30 | All four strategies, in order, against one baseline |
| `Optimizer.OutcomeBuys` | apps/api/src/baskets/basket-optimizer.service.ts:75-90 | Whatever the strategy, everything in the basket is bought at an offer for that requirement, in the right number of packs |
| `Units.ConversionKeepsSign` | packages/shared/src/units.ts:97-123 | Conversion to canonical units keeps a quantity negative, zero or positive, for every unit, density and weight per piece |
| `Units.OneUnit` | packages/shared/src/units.ts:97-123 | What one unit becomes: grams, millilitres or grams by density, grams by the weight given or the default, else a piece |
| `Units.InfoIsTheTables` | packages/shared/src/units.ts:18-74 | What is said of a unit is what the mass, volume, count and default tables hold for it |
| `Units.ConversionIsLinear` | packages/shared/src/units.ts:97-123 | Scaling a quantity scales the result in the same unit |
| `Units.PackHoldsItsUnits` | packages/shared/src/units.ts:139-146 | A pack of n units holds n times one unit's content |
| `Units.MassUnitsFit` | packages/shared/src/units.ts:18-26 | 1 kg = 1000 g = 10⁶ mg, 1 lb = 16 oz, 1 catty = 16 tahil to within 0.01 g |
| `Units.VolumeUnitsFit` | packages/shared/src/units.ts:28-40 | 1 l = 10 dl = 100 cl = 4 cups, 1 cup = 50 tsp, 1 tbsp = 3 tsp, 1 pint = 16 fl oz, quart and gallon to within 0.01 ml |
| `Requirements.RequirementBook.AddRecipeRequirements` | apps/api/src/baskets/baskets.service.ts:80-115 | The loop that updates the shared map equals merging line by line, whose keys, grams and names `Requirements.MergedGrams` and `Requirements.FirstLineNames` give |
| `Requirements.RequirementBook.AddNamedRequirements` | apps/api/src/baskets/baskets.service.ts:117-137 | The loop equals merging name by name |
| `Requirements.MergedGrams` | apps/api/src/baskets/baskets.service.ts:93-114 | Merging adds exactly the keys mentioned, and to the grams under each the servings multiplier times the plain sum of its lines' positive quantities, if there are any |
| `Requirements.FirstLineNames` | apps/api/src/baskets/baskets.service.ts:94-113 | A new key has the name and ingredient of its first line; one already there keeps its own |
| `Requirements.MergeIgnoresOrder` | apps/api/src/baskets/baskets.service.ts:93-114 | Any order of the lines gives the same keys and the same grams |
| `Requirements.NamesChangeNothing` | apps/api/src/baskets/baskets.service.ts:117-137 | Names add keys without a quantity and change nothing gathered before |
| `Requirements.NamesAreListed` | apps/api/src/baskets/baskets.service.ts:121-136 | Every name that is not blank is listed, and every key names add is one of theirs, with the ingredient found for it or its own text |
| `Pantry.PantryGrams` | apps/api/src/baskets/baskets.service.ts:190-205 | The loop totals every weighable item, whatever its sign |
| `Pantry.ComputeCoverageGrams` | apps/api/src/pantry/pantry.util.ts:20-37 | The loop totals only positive amounts |
| `Pantry.CountsAgree` | apps/api/src/baskets/baskets.service.ts:190-205 | The two totals of an ingredient agree if and only if none of its weighable items has a negative quantity |
| `Pantry.SubtractPantry` | apps/api/src/baskets/baskets.service.ts:207-224 | The loop leaves, in order, what `Pantry.RemainingIsTheRest` describes |
| `Pantry.RemainingIsTheRest` | apps/api/src/baskets/baskets.service.ts:207-224 | A requirement is missing exactly when it has grams, a positive stock, and at most 0.5 g lacking; the others are left in order with the same key, ingredient and name, and with the stock taken off when it is positive |
| `Pantry.StockIsTheSum` | apps/api/src/baskets/baskets.service.ts:190-205 | The stock is the sum of the ingredient's items, each converted by its own unit, density and weight per piece, pieces of unknown weight left out |
| `Pantry.PantryPlusPacksSuffice` | apps/api/src/baskets/baskets.service.ts:213-223 | What is dropped is covered to within 0.5 g; what is kept is covered by its packs, and by no fewer (if at least one) |
| `Pantry.RemainingKeysDistinct` | apps/api/src/baskets/baskets.service.ts:207-224 | Subtraction keeps keys distinct |
| `OfferBuilding.GroupByIngredient` | apps/api/src/baskets/baskets.service.ts:249-259 | The loop lists each ingredient's priced, not excluded products in match order |
| `OfferBuilding.BuildOffers` | apps/api/src/baskets/baskets.service.ts:227-270 | Each requirement gets exactly the offers of its ingredient; no other key appears |
| `OfferBuilding.BuiltOffersFromStores` | apps/api/src/baskets/baskets.service.ts:289-301 | Every offer carries its store's fee fields, as the optimizer needs, and none is from an excluded store |
| `OfferBuilding.OffersAreTheMatches` | apps/api/src/baskets/baskets.service.ts:227-304 | A requirement's offers are, in order, those of the matches for its ingredient that have a price and a store not excluded, each with its product's, store's and price's fields and the pack's grams |
| `Preparation.PrepareRequirements` | apps/api/src/baskets/baskets.service.ts:57-78 | Both errors exactly when they are due; otherwise distinct keys, one set of terms per store, and the wanted offers |
| `Preparation.AnswersAreDue` | apps/api/src/baskets/baskets.service.ts:57-78 | No recipe id and no names is refused, as is a recipe not found; otherwise the list is gathered from the recipe's lines and then the names |
| `EndToEnd.CoveredOrStillListed` | apps/api/src/baskets/baskets.service.ts:207-224 | A listed quantity is met by the pantry to within 0.5 g, or the rest stays on the list |
| `EndToEnd.ListedQuantityIsMet` | apps/api/src/baskets/baskets.service.ts:57-78 | For every strategy, pantry plus bought packs of known grams reach the quantity listed |
| `EndToEnd.RequestIsMet` | apps/api/src/baskets/baskets.service.ts:57-115 | For a whole request and every strategy: the multiplier times the grams of the recipe lines under a key is met by the pantry to within 0.5 g, or the key is on the list and met by pantry plus packs of known grams |
| `EndToEnd.RestKeepsOffers` | apps/api/src/baskets/baskets.service.ts:207-270 | What is left of a requirement has the same offers as the whole of it |
| `EndToEnd.OnSaleIsBought` | apps/api/src/baskets/baskets.service.ts:227-270 | CHEAPEST, CONVENIENCE and QUALITY buy every listed requirement that has a priced match at a store not excluded |
| `PriceComparison.CostFormulasAgree` | apps/api/src/prices/price-comparison.service.ts:77-107 | The comparison's cost equals the optimizer's pack arithmetic on the offer built for the same product |
| `PriceComparison.SortPermutes` | apps/api/src/prices/price-comparison.service.ts:66-66 | Sorting permutes the rows into order of cost |
| `PriceComparison.SortFront` | apps/api/src/prices/price-comparison.service.ts:66-66 | The first of the cheapest rows comes out in front |
| `PriceComparison.SortIsStable` | apps/api/src/prices/price-comparison.service.ts:66-66 | Rows of the same cost keep their order |
| `PriceComparison.Compare` | apps/api/src/prices/price-comparison.service.ts:39-75 | One row per ingredient, with its offers sorted and cut |
| `PriceComparison.ShownAreCheapest` | apps/api/src/prices/price-comparison.service.ts:66-71 | At most 6 rows are shown, in order, and only rows at least as dear as every row shown are hidden |
| `PriceComparison.FirstRowIsCheapest` | apps/api/src/prices/price-comparison.service.ts:40-72 | The first row shown is the offer CHEAPEST buys, at the price it pays |
| `PlanBuilder.BuildPlanSlots` | apps/api/src/meal-plans/plan-builder.ts:74-166 | The loops fill every slot with the choice its history calls for, total the cost, and warn of exactly the overruns and deviations, once each; `PlanLaws` says what is chosen and warned of |
| `PlanBuilder.PickBest` | apps/api/src/meal-plans/plan-builder.ts:128-139 | The scan, reading the last-used map, picks the best of the pool; by `PlanLaws.TakesTheBestScore` no recipe of the pool scores more |
| `PlanBuilder.BestOfIsFirstMax` | apps/api/src/meal-plans/plan-builder.ts:128-139 | The pick is the first recipe of greatest utility |
| `PlanLaws.SlotsInTurn` | apps/api/src/meal-plans/plan-builder.ts:47-52 | Slot i is the meal in turn: of 1 to 4 meals a day, lunch before dinner, breakfast before both, a snack last |
| `PlanLaws.PoolIsWhatFits` | apps/api/src/meal-plans/plan-builder.ts:101-126 | A slot may take any recipe after which the rest can still be filled at the least cost within budget; when there is none, the first cheapest recipe |
| `PlanLaws.TakesTheBestScore` | apps/api/src/meal-plans/plan-builder.ts:69-139 | No recipe of the pool has a greater base score plus the part of the per-meal target it hits (½ without one), less 0.75 if used within three days and there are twice as many recipes as meals a day |
| `PlanLaws.SteersToTarget` | apps/api/src/meal-plans/plan-builder.ts:69-139 | Of two recipes of equal base score and recency a slot takes the one no farther from what is still wanted of the day per meal left, unless both miss it by all of it |
| `PlanLaws.FarBetterScoreWins` | apps/api/src/meal-plans/plan-builder.ts:128-139 | A recipe that is not penalised and leads the pool by more than 1 in base score is taken |
| `PlanLaws.RepeatsScoreMore` | apps/api/src/meal-plans/plan-builder.ts:130-134 | With variety, a recipe of the last three days is taken over another of the same calories only for a base score at least 0.75 greater |
| `PlanLaws.CalorieWarnings` | apps/api/src/meal-plans/plan-builder.ts:155-162 | Exactly the days whose meals miss a positive target by more than 15% carry the calorie warning |
| `PlanLaws.BudgetWarnings` | apps/api/src/meal-plans/plan-builder.ts:115-126 | Exactly the slots for which nothing fitted carry the budget warning |
| `PlanGuarantees.BudgetDichotomy` | apps/api/src/meal-plans/plan-builder.ts:86-126 | If the cheapest fill fits, the total is within budget and nothing is warned; otherwise every slot takes the least cost, the total is exactly the cheapest fill and every slot is warned |
| `PlanGuarantees.WithinBudgetIffPossible` | apps/api/src/meal-plans/plan-builder.ts:101-104 | The plan is within budget if and only if some choice of recipes for all slots is |
| `PlanGuarantees.RepeatsMustBeWorthIt` | apps/api/src/meal-plans/plan-builder.ts:130-139 | In a large pool a recipe of the last three days wins only by at least 0.75 over every affordable recipe that is not |
| `PlanGuarantees.LastUsedIsLatest` | apps/api/src/meal-plans/plan-builder.ts:131-151 | The last-used day is the latest day of that recipe in the slots so far |
| `PlanGuarantees.SlotsInDayOrder` | apps/api/src/meal-plans/plan-builder.ts:92-153 | Slots come in day order |
| `Regression.LinearRegression` | apps/api/src/forecasting/forecasting.math.ts:19-60 | The accumulator loops compute the fit, in every branch |
| `Regression.FitIsLeastSquares` | apps/api/src/forecasting/forecasting.math.ts:14-60 | On every list of points, in every branch, no line has a smaller sum of squared residuals |
| `Regression.OnlyFitIsLeast` | apps/api/src/forecasting/forecasting.math.ts:44-45 | With x-variance the fitted line is the only least one |
| `Regression.AnySlopeWithoutSpread` | apps/api/src/forecasting/forecasting.math.ts:40-42 | Without x-variance every line through the centre loses as little: the flat line is one choice |
| `Regression.ClampChangesNothing` | apps/api/src/forecasting/forecasting.math.ts:48-54 | 1 − ssRes/ssYY lies in [0, 1] before it is clamped |
| `Regression.R2IsSquaredCorrelation` | apps/api/src/forecasting/forecasting.math.ts:48-54 | r²·ssXX·ssYY = ssXY² |
| `Regression.FlatFits` | apps/api/src/forecasting/forecasting.math.ts:19-58 | Without points all is 0; when x does not vary the line is flat at the mean with r² 0; when only y does not, flat at its value with r² 1 |
| `Regression.OriginDoesNotMatter` | apps/api/src/forecasting/price-forecast.service.ts:58-79 | Measuring x from another origin leaves slope, r² and every prediction unchanged |
| `Quota.QuotaService.UpsertIncrement` | apps/api/src/billing/quota.service.ts:98-102 | The atomic upsert returns and stores one more than was used |
| `Quota.QuotaService.AssertAndConsume` | apps/api/src/billing/quota.service.ts:90-122 | An uninterrupted call is the two steps of the protocol |
| `Quota.WholeCall` | apps/api/src/billing/quota.service.ts:90-122 | A call run alone counts nothing if unlimited, else adds 1 to its own counter and is granted exactly when the new count is within the limit |
| `Quota.NeverOverLimit` | apps/api/src/billing/quota.service.ts:90-122 | At every point of every interleaving at most `limit` calls under a key have succeeded |
| `Quota.SuccessesAreExact` | apps/api/src/billing/quota.service.ts:90-122 | When no call under a key is between its steps, exactly min(limit, completed calls) succeeded |
| `Quota.KeysAreIndependent` | apps/api/src/billing/quota.service.ts:98-102 | A key's counter and outcomes are as if no other key had been used |
| `Tokens.AuthService.ConsumeToken` | apps/api/src/auth/auth.service.ts:234-240 | The guarded update marks an unused token and reports how many rows changed |
| `Tokens.AuthService.UseToken` | apps/api/src/auth/auth.service.ts:220-248 | An uninterrupted call is the read, compare-and-set and write steps of the protocol, whose outcome `Tokens.WholeCall` spells out |
| `Tokens.SingleUse` | apps/api/src/auth/auth.service.ts:233-240 | In every interleaving at most one call per token gets past the compare-and-set |
| `Tokens.OneWritePerToken` | apps/api/src/auth/auth.service.ts:289-321 | Each token is behind at most one write, by a call of its kind, to its own user |
| `Tokens.WholeCall` | apps/api/src/auth/auth.service.ts:220-248 | A call run alone is accepted exactly when its token exists, is of its kind, unused and read before its expiry; then it uses the token and writes one field of that token's user |
| `Tokens.LogIsTheSteps` | apps/api/src/auth/auth.service.ts:242-245 | Every write logged was made by one step of the run, by a call that had won its token, a registration, a link or a deletion, in the order of the steps |
| `Tokens.CallWritesOneField` | apps/api/src/auth/auth.service.ts:311-315 | A verification changes only the verification time, a reset only the password hash, each of one row |
| `Tokens.TokensAreAsIssued` | apps/api/src/auth/auth.service.ts:329-344 | A token's user, kind and expiry are those it was issued with |
| `Tokens.InvalidationLaw` | apps/api/src/auth/auth.service.ts:259-263 | Invalidation uses up exactly the user's unused e-mail tokens |
| `Tokens.ResetUsedIffWon` | apps/api/src/auth/auth.service.ts:303-309 | A reset token is used exactly when some call has won it |
| `Tokens.UsedStaysUsed` | apps/api/src/auth/auth.service.ts:234-237 | `usedAt` never changes again once set |
| `Tokens.NoLateWinner` | apps/api/src/auth/auth.service.ts:234-240 | Nobody wins a token after it was used or invalidated |
| `Tokens.PasswordIsLatestReset` | apps/api/src/auth/auth.service.ts:289-315 | In every run each field of a user's row was left by the latest write that sets it, else it is the initial one: the password hash by resets, registration and deletion, which leaves none; the verification time by the clock of verifications, by registration and by linking a Google account; the deletion time by deletions |
| `Tokens.ReadBeforeExpiry` | apps/api/src/auth/auth.service.ts:224-231 | Every call that is not rejected has a read step at which its token was usable, before the token's expiry |
| `Tokens.UsedInTimeIff` | apps/api/src/auth/auth.service.ts:224-240 | A winner's use is before the expiry if and only if it follows the read by less than the life the token then had left; it is late by less than that delay |
| `Tokens.UsedWithinDelay` | apps/api/src/auth/auth.service.ts:224-240 | If every update follows its read within d, no token is used later than d − 1 after its expiry |
| `Tokens.LateByAnyDelay` | apps/api/src/auth/auth.service.ts:293-309 | For every delay d > 0 a run in which a token is used d − 1 after its expiry and the password is written |
| `Medians.MedianHalves` | apps/api/src/prices/price-submissions.service.ts:95-98 | At least half the prices are at most the median and at least half are at least it; it lies between least and greatest |
| `Medians.MedianBetweenAgreeingIff` | apps/api/src/prices/price-submissions.service.ts:95-102 | The median lies between two approved prices if and only if the lower middle price agrees with it or the upper middle one equals it |
| `Medians.MedianBelowEveryAgreeing` | apps/api/src/prices/price-submissions.service.ts:95-102 | Six prices whose median is below every price that is approved |
| `Consensus.AgreeingExactly` | apps/api/src/prices/price-submissions.service.ts:100-102 | A row is approved exactly when it is in the group and 20 times its distance from the group's median is at most 3 times the median |
| `Consensus.ConsensusIffThree` | apps/api/src/prices/price-submissions.service.ts:91-104 | There is consensus exactly when three rows of the group are within 15% of its median |
| `Consensus.PointIsOfFirstWithin` | apps/api/src/prices/price-submissions.service.ts:114-121 | The price applied is at the median, with the product name and pack of the first row within 15% of it |
| `Consensus.PriceSubmissionsService.TryAutoApprove` | apps/api/src/prices/price-submissions.service.ts:79-126 | An uninterrupted call is the query, update and apply steps of the protocol |
| `Consensus.PriceSubmissionsService.CreateSubmission` | apps/api/src/prices/price-submissions.service.ts:34-58 | Creating is the create step followed by such a call; the new submission is stored whatever that call does |
| `Consensus.ApprovalsNeverRevert` | apps/api/src/prices/price-submissions.service.ts:106-112 | In every run, from any tables, an approval is never taken back and no report changes |
| `Consensus.EveryRunIsRecorded` | apps/api/src/prices/price-submissions.service.ts:79-112 | In every interleaving a submission is auto-approved exactly when some call has approved it |
| `Consensus.ApprovedTogetherAreClose` | apps/api/src/prices/price-submissions.service.ts:100-112 | Any two submissions one call approves are of one store and differ by at most 30% of the median |
| `Consensus.PointIsMiddling` | apps/api/src/prices/price-submissions.service.ts:95-121 | Every price applied is in the middle of the prices its call read |
| `Consensus.PointAmongApprovedIff` | apps/api/src/prices/price-submissions.service.ts:95-121 | A price applied lies between prices its call approved if and only if the lower middle price agrees with it or the upper middle one equals it |
| `Consensus.ApproveKeepsOnceIffPending` | apps/api/src/prices/price-submissions.service.ts:106-112 | An update keeps "approved at most once" if and only if all it approves are still pending |
| `Consensus.OnceIffUpdatesFindPending` | apps/api/src/prices/price-submissions.service.ts:79-112 | Over whole runs, no submission is approved twice if and only if every update found its submissions pending |
| `Consensus.DisjointCallsApproveOnce` | apps/api/src/prices/price-submissions.service.ts:79-112 | Calls that overlap but agree on different submissions approve none twice |
| `Consensus.SerialRunsApproveOnce` | apps/api/src/prices/price-submissions.service.ts:79-127 | When calls do not overlap, no submission is approved twice |
| `Consensus.EachPriceTakesThree` | apps/api/src/prices/price-submissions.service.ts:79-127 | As long as updates find their submissions pending, three times the prices applied is at most the submissions approved |
| `Overlaps.OverlapAppliesTwice` | apps/api/src/prices/price-submissions.service.ts:80-121 | In any run where two calls get the same agreeing group before either updates it and both go on, both approve it and its price is written at least twice, whatever steps come in between |
| `Overlaps.TwoPricesFromThree` | apps/api/src/prices/price-submissions.service.ts:80-121 | So a run exists with two prices applied on three submissions |
| `AlertScan.AlertScanService.ForEachEnabledAlert` | apps/api/src/alerts/alert-scan.service.ts:290-321 | The loop is the scan: it ends with the first batch that is not full, calls the handler for every alert returned whichever calls throw, and counts exactly those that throw |
| `AlertScan.FixedTableScan` | apps/api/src/alerts/alert-scan.service.ts:290-321 | On a fixed table of any size the scan handles exactly the enabled alerts of the type in id order, in n / 100 + 1 queries |
| `AlertScan.HandledExactlyOnce` | apps/api/src/alerts/alert-scan.service.ts:290-321 | Those are each enabled alert of the type exactly once, no other, in ascending id order |
| `AlertScan.NextBatch` | apps/api/src/alerts/alert-scan.service.ts:296-304 | The query after the first k alerts of a fixed table returns exactly the batch that follows them |
| `AlertScan.NeverTwice` | apps/api/src/alerts/alert-scan.service.ts:290-321 | However the table changes between queries, no alert is handled twice |
| `AlertScan.StayingAlertIsHandledOnce` | apps/api/src/alerts/alert-scan.service.ts:290-321 | On a changing table an alert enabled throughout is handled exactly once, as long as every cursor's alert is still enabled at the next query |
| `AlertScan.FollowsCursorIff` | apps/api/src/alerts/alert-scan.service.ts:297-304 | A query returns the batch after its cursor if and only if the cursor's alert is still enabled or nothing follows |
| `AlertScan.DisabledCursorDropsNext` | apps/api/src/alerts/alert-scan.service.ts:303-303 | If the cursor's alert is disabled before the next query, the next enabled alert is never handled |
| `AlertScan.DeletedCursorEndsScan` | apps/api/src/alerts/alert-scan.service.ts:303-303 | If the cursor's alert is deleted before the next query, the scan ends there |

## Left out

- Product details, similarity scores, `minOrderCents` and the constant `isSubstitute` field: carried through results, never computed with.
- PlanBuilder.BuildPlanSlots: says which warnings are issued and that each is issued once, not their order or wording; dates are day numbers and `servings` is the constant 1.
- Units.ConversionKeepsSign: unit names are already trimmed and lower-cased, and a name inherited from a JavaScript object's prototype is an unknown unit.
- Guarantees.CheapestIsLeastTotal: item totals only; the code ignores delivery fees here, so nothing is claimed for `grandTotalCents`.
- DeliveryOptimality.DeliveryIsOptimal: optimal among primaries with a complement of maximal coverage, which is all the code looks for; `Limits.DearComplement` has a cheaper complement of smaller coverage.
- Consensus.SerialRunsApproveOnce: needs calls that do not overlap, because the code does not guard the update.
- Consensus.PriceSubmissionsService.TryAutoApprove: which submissions count as similar and recent is the query's answer.
- AlertScan.AlertScanService.ForEachEnabledAlert: an alert's id is its place in id order, never the empty text, and there is a limit above all ids to come; without one a scan need not end.
- Tokens.SingleUse: a token is known by the hash of its secret, taken to be unique; revoking refresh tokens and the auth cache are not modelled.
- Tokens.PasswordIsLatestReset: a deletion, and the linking of a Google account, is its update statement alone, which may happen at any time; the read before it is left out.
- Quota.SuccessesAreExact: period keys and limits are inputs; the usage report and the premium check are not modelled.
- The lock that keeps one alert scan of a kind from starting twice, and what the four alert handlers do.
- `median`, `clamp`, promotion likelihood, price direction and forecast confidence: one-branch facts.
- Refresh-token rotation and the auth cache: read and write are separate steps, so useful claims hold only for serial runs.
- Basket persistence, purchases and updates of saved baskets: plain reads and writes.
- Receipt, ingredient-line and spreadsheet parsing, search, image recognition, chat and payments: foreign services or regular expressions.
- Controllers, guards, configuration, metrics, mail, queues, seed data and the user interface.
