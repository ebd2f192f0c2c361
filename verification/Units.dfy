/**
 * Unit conversion to grams, millilitres or pieces. Unit names are taken after
 * trimming, lower-casing and dropping a final full stop.
 */
module Units {
  import opened Options

  datatype CanonicalUnit = Grams | Millilitres | Piece

  datatype Normalized = Normalized(value: real, unit: CanonicalUnit)

  const MASS_TO_GRAMS: map<string, real> := map[
    "g" := 1.0, "gram" := 1.0, "grams" := 1.0, "gr" := 1.0,
    "kg" := 1000.0, "kilogram" := 1000.0, "kilograms" := 1000.0, "kilo" := 1000.0, "kilos" := 1000.0,
    "mg" := 0.001,
    "oz" := 28.3495, "ounce" := 28.3495, "ounces" := 28.3495,
    "lb" := 453.592, "lbs" := 453.592, "pound" := 453.592, "pounds" := 453.592,
    "catty" := 604.79, "kati" := 604.79,
    "tahil" := 37.8
  ]

  const VOLUME_TO_ML: map<string, real> := map[
    "ml" := 1.0, "milliliter" := 1.0, "milliliters" := 1.0, "millilitre" := 1.0, "millilitres" := 1.0,
    "l" := 1000.0, "liter" := 1000.0, "liters" := 1000.0, "litre" := 1000.0, "litres" := 1000.0,
    "dl" := 100.0, "cl" := 10.0,
    "cup" := 250.0, "cups" := 250.0,
    "tbsp" := 15.0, "tablespoon" := 15.0, "tablespoons" := 15.0,
    "tsp" := 5.0, "teaspoon" := 5.0, "teaspoons" := 5.0,
    "fl oz" := 29.5735, "floz" := 29.5735,
    "pint" := 473.176, "pints" := 473.176,
    "quart" := 946.353,
    "gallon" := 3785.41,
    "dash" := 0.6, "pinch" := 0.3, "drop" := 0.05
  ]

  const COUNT_UNITS: set<string> := {
    "piece", "pieces", "pc", "pcs", "whole", "unit", "units",
    "clove", "cloves", "slice", "slices", "stalk", "stalks",
    "sprig", "sprigs", "leaf", "leaves", "head", "heads",
    "bunch", "bunches", "can", "cans", "tin", "tins",
    "packet", "packets", "pack", "packs", "bottle", "bottles",
    "egg", "eggs", "fillet", "fillets", "thigh", "thighs",
    "breast", "breasts", "drumstick", "drumsticks", "cube", "cubes",
    "sheet", "sheets", "stick", "sticks", "wedge", "wedges"
  }

  /** Approximate grams per count unit when the ingredient's own weight is missing. */
  const COUNT_UNIT_DEFAULT_GRAMS: map<string, real> := map[
    "clove" := 5.0, "cloves" := 5.0,
    "slice" := 25.0, "slices" := 25.0,
    "stalk" := 40.0, "stalks" := 40.0,
    "sprig" := 2.0, "sprigs" := 2.0,
    "leaf" := 1.0, "leaves" := 1.0,
    "head" := 500.0, "heads" := 500.0,
    "bunch" := 150.0, "bunches" := 150.0,
    "can" := 400.0, "cans" := 400.0, "tin" := 400.0, "tins" := 400.0,
    "egg" := 55.0, "eggs" := 55.0,
    "fillet" := 150.0, "fillets" := 150.0,
    "thigh" := 120.0, "thighs" := 120.0,
    "breast" := 250.0, "breasts" := 250.0,
    "drumstick" := 100.0, "drumsticks" := 100.0,
    "cube" := 10.0, "cubes" := 10.0,
    "sheet" := 20.0, "sheets" := 20.0,
    "stick" := 113.0, "sticks" := 113.0,
    "wedge" := 30.0, "wedges" := 30.0,
    "packet" := 200.0, "packets" := 200.0, "pack" := 200.0, "packs" := 200.0,
    "bottle" := 500.0, "bottles" := 500.0
  ]

  predicate Positive(x: Option<real>) {
    x.Some? && x.value > 0.0
  }

  /** What the tables say about one unit name. */
  datatype UnitInfo = UnitInfo(
    gramsPer: Option<real>, millilitresPer: Option<real>, countable: bool, defaultGrams: Option<real>)

  function Lookup(table: map<string, real>, u: string): Option<real> {
    if u in table then Some(table[u]) else None
  }

  function InfoOf(u: string): UnitInfo {
    UnitInfo(Lookup(MASS_TO_GRAMS, u), Lookup(VOLUME_TO_ML, u), u in COUNT_UNITS, Lookup(COUNT_UNIT_DEFAULT_GRAMS, u))
  }

  function Convert(quantity: real, info: UnitInfo, density: Option<real>, gramsPerPiece: Option<real>): Normalized {
    if info.gramsPer.Some? then Normalized(quantity * info.gramsPer.value, Grams)
    else if info.millilitresPer.Some? then OfVolume(quantity * info.millilitresPer.value, density)
    else if info.countable then
      OfCount(quantity, if gramsPerPiece.Some? then gramsPerPiece else info.defaultGrams)
    else Normalized(quantity, Piece)
  }

  function ToCanonical(quantity: real, u: string, density: Option<real>, gramsPerPiece: Option<real>): Normalized {
    Convert(quantity, InfoOf(u), density, gramsPerPiece)
  }

  /** Volume becomes mass when the density is known. */
  function OfVolume(ml: real, density: Option<real>): Normalized {
    if Positive(density) then Normalized(ml * density.value, Grams) else Normalized(ml, Millilitres)
  }

  /** A count becomes mass when the weight per piece is known. */
  function OfCount(quantity: real, perPiece: Option<real>): Normalized {
    if Positive(perPiece) then Normalized(quantity * perPiece.value, Grams) else Normalized(quantity, Piece)
  }

  function PackSizeToCanonical(packSize: real, packUnit: string, unitCount: int): Normalized {
    var norm := ToCanonical(packSize, packUnit, None, None);
    Normalized(norm.value * unitCount as real, norm.unit)
  }

  ghost predicate PositiveFactors(info: UnitInfo) {
    && (info.gramsPer.Some? ==> info.gramsPer.value > 0.0)
    && (info.millilitresPer.Some? ==> info.millilitresPer.value > 0.0)
  }

  lemma MassFactorPositive(u: string)
    ensures u in MASS_TO_GRAMS ==> MASS_TO_GRAMS[u] > 0.0
  {
  }

  lemma VolumeFactorPositive(u: string)
    ensures u in VOLUME_TO_ML ==> VOLUME_TO_ML[u] > 0.0
  {
  }

  lemma TablesArePositive(u: string)
    ensures PositiveFactors(InfoOf(u))
  {
    MassFactorPositive(u);
    VolumeFactorPositive(u);
    assert InfoOf(u).gramsPer.Some? ==> InfoOf(u).gramsPer.value == MASS_TO_GRAMS[u];
    assert InfoOf(u).millilitresPer.Some? ==> InfoOf(u).millilitresPer.value == VOLUME_TO_ML[u];
  }

  lemma ScaleKeepsSign(x: real, factor: real)
    requires factor > 0.0
    ensures x * factor >= 0.0 <==> x >= 0.0
    ensures x * factor > 0.0 <==> x > 0.0
  {
  }

  lemma OptionalScaleKeepsSign(x: real, factor: Option<real>)
    ensures OfVolume(x, factor).value >= 0.0 <==> x >= 0.0
    ensures OfVolume(x, factor).value > 0.0 <==> x > 0.0
    ensures OfCount(x, factor).value >= 0.0 <==> x >= 0.0
    ensures OfCount(x, factor).value > 0.0 <==> x > 0.0
  {
    if Positive(factor) {
      ScaleKeepsSign(x, factor.value);
    }
  }

  lemma ConvertKeepsSign(quantity: real, info: UnitInfo, density: Option<real>, gramsPerPiece: Option<real>)
    requires PositiveFactors(info)
    ensures Convert(quantity, info, density, gramsPerPiece).value >= 0.0 <==> quantity >= 0.0
    ensures Convert(quantity, info, density, gramsPerPiece).value > 0.0 <==> quantity > 0.0
  {
    if info.gramsPer.Some? {
      ScaleKeepsSign(quantity, info.gramsPer.value);
    } else if info.millilitresPer.Some? {
      ScaleKeepsSign(quantity, info.millilitresPer.value);
      OptionalScaleKeepsSign(quantity * info.millilitresPer.value, density);
    } else {
      OptionalScaleKeepsSign(quantity, if gramsPerPiece.Some? then gramsPerPiece else info.defaultGrams);
    }
  }

  /** Conversion never changes a quantity's sign, whatever the unit, density or weight per piece. */
  lemma ConversionKeepsSign(quantity: real, u: string, density: Option<real>, gramsPerPiece: Option<real>)
    ensures ToCanonical(quantity, u, density, gramsPerPiece).value >= 0.0 <==> quantity >= 0.0
    ensures ToCanonical(quantity, u, density, gramsPerPiece).value > 0.0 <==> quantity > 0.0
  {
    TablesArePositive(u);
    ConvertKeepsSign(quantity, InfoOf(u), density, gramsPerPiece);
  }

  // ---- what conversion does ----

  ghost predicate IsMultiple(many: Normalized, c: real, one: Normalized) {
    many.unit == one.unit && many.value == c * one.value
  }

  /** Scaling a quantity scales the result, in the same unit. */
  lemma ConversionIsLinear(
    c: real, one: real, many: real, u: string, density: Option<real>, gramsPerPiece: Option<real>)
    requires many == c * one
    ensures IsMultiple(ToCanonical(many, u, density, gramsPerPiece), c, ToCanonical(one, u, density, gramsPerPiece))
  {
    LinearIn(c, one, many, InfoOf(u), density, gramsPerPiece);
  }

  lemma LinearIn(
    c: real, one: real, many: real, info: UnitInfo, density: Option<real>, gramsPerPiece: Option<real>)
    requires many == c * one
    ensures IsMultiple(Convert(many, info, density, gramsPerPiece), c, Convert(one, info, density, gramsPerPiece))
  {
  }

  /**
   * What one unit becomes by what the tables say of it: masses their grams; volumes their
   * millilitres, or grams by a positive density; counts their grams by the weight given,
   * else by the unit's own default, unless that is not positive; anything else a piece.
   */
  ghost predicate IsOneUnit(one: Normalized, info: UnitInfo, density: Option<real>, gramsPerPiece: Option<real>) {
    match (info.gramsPer, info.millilitresPer)
    case (Some(grams), _) => one == Normalized(grams, Grams)
    case (None, Some(ml)) =>
      if density.Some? && density.value > 0.0 then one == Normalized(ml * density.value, Grams)
      else one == Normalized(ml, Millilitres)
    case (None, None) =>
      if info.countable && gramsPerPiece.Some? then
        one == if gramsPerPiece.value > 0.0 then Normalized(gramsPerPiece.value, Grams) else Normalized(1.0, Piece)
      else if info.countable && info.defaultGrams.Some? then one == Normalized(info.defaultGrams.value, Grams)
      else one == Normalized(1.0, Piece)
  }

  lemma OneUnit(u: string, density: Option<real>, gramsPerPiece: Option<real>)
    ensures IsOneUnit(ToCanonical(1.0, u, density, gramsPerPiece), InfoOf(u), density, gramsPerPiece)
  {
    DefaultsArePositive(u);
    DefaultOf(u);
    OneByInfo(InfoOf(u), density, gramsPerPiece);
  }

  lemma OneByInfo(info: UnitInfo, density: Option<real>, gramsPerPiece: Option<real>)
    requires info.defaultGrams.Some? ==> info.defaultGrams.value > 0.0
    ensures IsOneUnit(Convert(1.0, info, density, gramsPerPiece), info, density, gramsPerPiece)
  {
  }

  /** What is said of a unit is what its tables hold. */
  lemma InfoIsTheTables(u: string)
    ensures InfoOf(u).gramsPer == Lookup(MASS_TO_GRAMS, u) && InfoOf(u).millilitresPer == Lookup(VOLUME_TO_ML, u)
    ensures InfoOf(u).countable <==> u in COUNT_UNITS
    ensures InfoOf(u).defaultGrams == Lookup(COUNT_UNIT_DEFAULT_GRAMS, u)
  {
  }

  lemma DefaultOf(u: string)
    ensures InfoOf(u).defaultGrams.Some? ==>
              u in COUNT_UNIT_DEFAULT_GRAMS && InfoOf(u).defaultGrams.value == COUNT_UNIT_DEFAULT_GRAMS[u]
  {
  }

  lemma DefaultsArePositive(u: string)
    ensures u in COUNT_UNIT_DEFAULT_GRAMS ==> COUNT_UNIT_DEFAULT_GRAMS[u] > 0.0
  {
  }

  /** A pack of `unitCount` units holds that many times one unit's content. */
  lemma PackHoldsItsUnits(packSize: real, packUnit: string, unitCount: int)
    ensures var one := ToCanonical(packSize, packUnit, None, None);
      PackSizeToCanonical(packSize, packUnit, unitCount) == Normalized(one.value * unitCount as real, one.unit)
  {
  }

  function GramsPer(u: string): real {
    if u in MASS_TO_GRAMS then MASS_TO_GRAMS[u] else 0.0
  }

  function MillilitresPer(u: string): real {
    if u in VOLUME_TO_ML then VOLUME_TO_ML[u] else 0.0
  }

  /** The mass units fit together as they do in use; a catty is 16 tahil to within 0.01 g. */
  lemma MassUnitsFit()
    ensures GramsPer("g") == 1.0
    ensures GramsPer("kg") == 1000.0 * GramsPer("g") && GramsPer("g") == 1000.0 * GramsPer("mg")
    ensures GramsPer("lb") == 16.0 * GramsPer("oz") && 28.34 < GramsPer("oz") < 28.36
    ensures GramsPer("catty") < 16.0 * GramsPer("tahil") <= GramsPer("catty") + 0.01
    ensures 604.0 < GramsPer("catty") < 605.0
  {
  }

  /** The volume units fit together; a quart is two pints and a gallon four quarts to within 0.01 ml. */
  lemma VolumeUnitsFit()
    ensures MillilitresPer("ml") == 1.0
    ensures MillilitresPer("l") == 10.0 * MillilitresPer("dl") == 100.0 * MillilitresPer("cl")
            == 1000.0 * MillilitresPer("ml")
    ensures MillilitresPer("l") == 4.0 * MillilitresPer("cup")
    ensures MillilitresPer("tbsp") == 3.0 * MillilitresPer("tsp")
    ensures MillilitresPer("cup") == 50.0 * MillilitresPer("tsp")
    ensures MillilitresPer("pint") == 16.0 * MillilitresPer("fl oz")
    ensures 2.0 * MillilitresPer("pint") < MillilitresPer("quart") < 2.0 * MillilitresPer("pint") + 0.01
    ensures MillilitresPer("gallon") < 4.0 * MillilitresPer("quart") < MillilitresPer("gallon") + 0.01
  {
  }
}
