/** Gathering requirements from recipe lines and names, before the optimizer sees them. */
module Requirements {
  import opened Sequences
  import opened Options
  import opened OrderedMaps
  import opened BasketTypes

  /** The two string operations the keys are built with. */
  datatype TextOps = TextOps(trim: string -> string, lower: string -> string)

  /** One line of a recipe, with its ingredient when one was recognised. */
  datatype Line = Line(
    ingredientId: Option<string>, displayName: Option<string>, rawText: string, normalizedQtyG: Option<real>)

  type Book = OMap<Key, Requirement>

  function LineKey(line: Line, ops: TextOps): Key {
    match line.ingredientId
    case Some(id) => Key(id)
    case None => Key("raw:" + ops.lower(ops.trim(line.rawText)))
  }

  /** The grams a line asks for; none when its quantity is unknown or not positive. */
  function LineQty(line: Line, multiplier: real): Option<real> {
    if line.normalizedQtyG.Some? && line.normalizedQtyG.value > 0.0 then Some(line.normalizedQtyG.value * multiplier)
    else None
  }

  /** Adding quantities of which either may be unknown. */
  function AddQty(a: Option<real>, b: Option<real>): Option<real> {
    if a.Some? && b.Some? then Some(a.value + b.value)
    else if b.Some? then b
    else a
  }

  function MergeLine(book: Book, line: Line, multiplier: real, ops: TextOps): Book {
    var key, qty := LineKey(line, ops), LineQty(line, multiplier);
    if key in book.entries then
      var existing := book.entries[key];
      book.Set(key, existing.(requiredQtyG := AddQty(existing.requiredQtyG, qty)))
    else
      book.Set(key, Requirement(key, line.ingredientId, line.displayName.GetOr(ops.trim(line.rawText)), qty))
  }

  function MergeLines(book: Book, lines: seq<Line>, multiplier: real, ops: TextOps): Book {
    if lines == [] then book
    else MergeLine(MergeLines(book, lines[..|lines| - 1], multiplier, ops), lines[|lines| - 1], multiplier, ops)
  }

  /** What an ingredient search may return for a name. */
  datatype Found = Found(id: string, displayName: string)

  function NameKey(name: string, found: Option<Found>, ops: TextOps): Key {
    match found
    case Some(f) => Key(f.id)
    case None => Key("raw:" + ops.lower(name))
  }

  function MergeName(book: Book, rawName: string, lookup: string -> Option<Found>, ops: TextOps): Book {
    var name := ops.trim(rawName);
    if name == "" then book
    else
      var found := lookup(name);
      var key := NameKey(name, found, ops);
      if key in book.entries then book
      else
        match found
        case Some(f) => book.Set(key, Requirement(key, Some(f.id), f.displayName, None))
        case None => book.Set(key, Requirement(key, None, name, None))
  }

  function MergeNames(book: Book, names: seq<string>, lookup: string -> Option<Found>, ops: TextOps): Book {
    if names == [] then book
    else MergeName(MergeNames(book, names[..|names| - 1], lookup, ops), names[|names| - 1], lookup, ops)
  }

  /** Entries sit under their own keys. */
  ghost predicate Consistent(book: Book) {
    book.Valid() && forall k <- book.entries :: book.entries[k].key == k
  }

  /** The shared map that recipe lines and names are gathered into. */
  class RequirementBook {
    var book: Book

    constructor ()
      ensures book == Empty()
    {
      book := Empty();
    }

    method AddRecipeRequirements(lines: seq<Line>, multiplier: real, ops: TextOps)
      requires Consistent(book)
      modifies this
      ensures book == MergeLines(old(book), lines, multiplier, ops)
      ensures Consistent(book)
    {
      ghost var before := book;
      for i := 0 to |lines|
        invariant book == MergeLines(before, lines[..i], multiplier, ops)
      {
        PrefixStep(lines, i);
        var line := lines[i];
        var key := LineKey(line, ops);
        var qty := LineQty(line, multiplier);
        if key in book.entries {
          var existing := book.entries[key];
          if existing.requiredQtyG.Some? && qty.Some? {
            existing := existing.(requiredQtyG := Some(existing.requiredQtyG.value + qty.value));
          } else if qty.Some? {
            existing := existing.(requiredQtyG := qty);
          }
          book := book.Set(key, existing);
        } else {
          var name := line.displayName.GetOr(ops.trim(line.rawText));
          book := book.Set(key, Requirement(key, line.ingredientId, name, qty));
        }
      }
      FullPrefix(lines);
      MergeLinesConsistent(before, lines, multiplier, ops);
    }

    method AddNamedRequirements(names: seq<string>, lookup: string -> Option<Found>, ops: TextOps)
      requires Consistent(book)
      modifies this
      ensures book == MergeNames(old(book), names, lookup, ops)
      ensures Consistent(book)
    {
      ghost var before := book;
      for i := 0 to |names|
        invariant book == MergeNames(before, names[..i], lookup, ops)
      {
        PrefixStep(names, i);
        var name := ops.trim(names[i]);
        if name != "" {
          var found := lookup(name);
          var key := NameKey(name, found, ops);
          if key !in book.entries {
            match found {
              case Some(f) => book := book.Set(key, Requirement(key, Some(f.id), f.displayName, None));
              case None => book := book.Set(key, Requirement(key, None, name, None));
            }
          }
        }
      }
      FullPrefix(names);
      MergeNamesConsistent(before, names, lookup, ops);
    }
  }

  lemma {:induction false} MergeLinesConsistent(book: Book, lines: seq<Line>, multiplier: real, ops: TextOps)
    requires Consistent(book)
    ensures Consistent(MergeLines(book, lines, multiplier, ops))
  {
    if lines != [] {
      var init, line := lines[..|lines| - 1], lines[|lines| - 1];
      MergeLinesConsistent(book, init, multiplier, ops);
      var m, after := MergeLines(book, init, multiplier, ops), MergeLines(book, lines, multiplier, ops);
      SetKeepsValid(m, LineKey(line, ops), after.entries[LineKey(line, ops)]);
    }
  }

  lemma {:induction false} MergeNamesConsistent(
    book: Book, names: seq<string>, lookup: string -> Option<Found>, ops: TextOps)
    requires Consistent(book)
    ensures Consistent(MergeNames(book, names, lookup, ops))
  {
    if names != [] {
      var init, name := names[..|names| - 1], ops.trim(names[|names| - 1]);
      MergeNamesConsistent(book, init, lookup, ops);
      var m, after := MergeNames(book, init, lookup, ops), MergeNames(book, names, lookup, ops);
      var key := NameKey(name, lookup(name), ops);
      if name != "" && key !in m.entries {
        SetKeepsValid(m, key, after.entries[key]);
      }
    }
  }

  // ---- what merging adds up to ----

  /** The line goes under key `k`: its ingredient's id, else its own text, trimmed and lower-cased. */
  ghost predicate Under(line: Line, k: Key, ops: TextOps) {
    match line.ingredientId
    case Some(id) => k == Key(id)
    case None => k == Key("raw:" + ops.lower(ops.trim(line.rawText)))
  }

  ghost predicate Mentions(lines: seq<Line>, k: Key, ops: TextOps) {
    exists line :: line in lines && Under(line, k, ops)
  }

  /** The line asks for a positive number of grams under `k`. */
  ghost predicate AsksGrams(line: Line, k: Key, ops: TextOps) {
    Under(line, k, ops) && line.normalizedQtyG.Some? && line.normalizedQtyG.value > 0.0
  }

  ghost predicate Quantifies(lines: seq<Line>, k: Key, ops: TextOps) {
    exists line :: line in lines && AsksGrams(line, k, ops)
  }

  /** The grams of one serving: all positive quantities under `k`, added up. */
  ghost function GramsUnder(lines: seq<Line>, k: Key, ops: TextOps): real {
    if lines == [] then 0.0
    else
      var line := lines[|lines| - 1];
      GramsUnder(lines[..|lines| - 1], k, ops) + if AsksGrams(line, k, ops) then line.normalizedQtyG.value else 0.0
  }

  function Times(multiplier: real, grams: real): real {
    multiplier * grams
  }

  /** What is known before, with the multiplied grams of the lines on top when any line has some. */
  ghost function GramsOnTop(before: Option<real>, lines: seq<Line>, k: Key, multiplier: real, ops: TextOps)
    : Option<real>
  {
    if Quantifies(lines, k, ops) then Some(before.GetOr(0.0) + Times(multiplier, GramsUnder(lines, k, ops)))
    else before
  }

  ghost function GramsAt(book: Book, k: Key): Option<real> {
    if k in book.entries then book.entries[k].requiredQtyG else None
  }

  /**
   * Merging adds exactly the keys mentioned, and to the grams under each the multiplier
   * times the sum of its lines' positive quantities, if there are any.
   */
  lemma {:induction false} MergedGrams(book: Book, lines: seq<Line>, k: Key, multiplier: real, ops: TextOps)
    ensures var after := MergeLines(book, lines, multiplier, ops);
      && (k in after.entries <==> k in book.entries || Mentions(lines, k, ops))
      && GramsAt(after, k) == GramsOnTop(GramsAt(book, k), lines, k, multiplier, ops)
  {
    if lines != [] {
      var init, line := lines[..|lines| - 1], lines[|lines| - 1];
      MergedGrams(book, init, k, multiplier, ops);
      MentionsStep(lines, k, ops);
      OnTopStep(GramsAt(book, k), lines, k, multiplier, ops);
      MergedLine(MergeLines(book, init, multiplier, ops), line, k, multiplier, ops);
    }
  }

  /** One line's grams on top of what is known. */
  ghost function LineOnTop(before: Option<real>, line: Line, k: Key, multiplier: real, ops: TextOps): Option<real> {
    if AsksGrams(line, k, ops) then Some(before.GetOr(0.0) + Times(multiplier, line.normalizedQtyG.value)) else before
  }

  lemma MergedLine(book: Book, line: Line, k: Key, multiplier: real, ops: TextOps)
    ensures var after := MergeLine(book, line, multiplier, ops);
      && (k in after.entries <==> k in book.entries || Under(line, k, ops))
      && GramsAt(after, k) == LineOnTop(GramsAt(book, k), line, k, multiplier, ops)
  {
    assert Under(line, k, ops) <==> LineKey(line, ops) == k;
  }

  lemma OnTopStep(before: Option<real>, lines: seq<Line>, k: Key, multiplier: real, ops: TextOps)
    requires lines != []
    ensures GramsOnTop(before, lines, k, multiplier, ops) ==
            LineOnTop(GramsOnTop(before, lines[..|lines| - 1], k, multiplier, ops), lines[|lines| - 1], k,
                      multiplier, ops)
  {
    var init, line := lines[..|lines| - 1], lines[|lines| - 1];
    QuantifiesStep(lines, k, ops);
    if AsksGrams(line, k, ops) {
      var sum, grams := GramsUnder(init, k, ops), line.normalizedQtyG.value;
      assert Times(multiplier, sum + grams) == Times(multiplier, sum) + Times(multiplier, grams);
      assert GramsUnder(lines, k, ops) == sum + grams;
      if !Quantifies(init, k, ops) {
        NoGrams(init, k, ops);
        assert Times(multiplier, sum) == 0.0;
      }
    }
  }

  lemma MentionsStep(lines: seq<Line>, k: Key, ops: TextOps)
    requires lines != []
    ensures Mentions(lines, k, ops) <==>
            Mentions(lines[..|lines| - 1], k, ops) || Under(lines[|lines| - 1], k, ops)
  {
    InitOrLast(lines);
  }

  lemma QuantifiesStep(lines: seq<Line>, k: Key, ops: TextOps)
    requires lines != []
    ensures Quantifies(lines, k, ops) <==>
            Quantifies(lines[..|lines| - 1], k, ops) || AsksGrams(lines[|lines| - 1], k, ops)
  {
    InitOrLast(lines);
  }

  lemma InitOrLast<T>(s: seq<T>)
    requires s != []
    ensures forall x :: x in s <==> x in s[..|s| - 1] || x == s[|s| - 1]
  {
    assert s == s[..|s| - 1] + [s[|s| - 1]];
  }

  lemma {:induction false} NoGrams(lines: seq<Line>, k: Key, ops: TextOps)
    requires !Quantifies(lines, k, ops)
    ensures GramsUnder(lines, k, ops) == 0.0
  {
    if lines != [] {
      QuantifiesStep(lines, k, ops);
      NoGrams(lines[..|lines| - 1], k, ops);
    }
  }

  function Without<T>(s: seq<T>, i: nat): seq<T>
    requires i < |s|
  {
    s[..i] + s[i + 1..]
  }

  lemma WithoutInit<T>(s: seq<T>, i: nat)
    requires i < |s| - 1
    ensures Without(s, i)[..|s| - 2] == Without(s[..|s| - 1], i)
    ensures Without(s, i)[|s| - 2] == s[|s| - 1]
  {
  }

  lemma {:induction false} GramsOfOneLine(lines: seq<Line>, i: nat, k: Key, ops: TextOps)
    requires i < |lines|
    ensures GramsUnder(lines, k, ops) ==
            GramsUnder(Without(lines, i), k, ops)
            + if AsksGrams(lines[i], k, ops) then lines[i].normalizedQtyG.value else 0.0
  {
    if i == |lines| - 1 {
      assert Without(lines, i) == lines[..|lines| - 1];
    } else {
      GramsOfOneLine(lines[..|lines| - 1], i, k, ops);
      WithoutInit(lines, i);
    }
  }

  lemma WithoutMultiset<T>(s: seq<T>, i: nat)
    requires i < |s|
    ensures multiset(Without(s, i)) == multiset(s) - multiset{s[i]}
  {
    assert s == s[..i] + [s[i]] + s[i + 1..];
  }

  lemma SameElements<T>(s: seq<T>, t: seq<T>)
    requires multiset(s) == multiset(t)
    ensures |s| == |t|
    ensures forall x :: x in s <==> x in t
  {
    assert |multiset(s)| == |multiset(t)|;
    assert forall x :: x in s <==> x in multiset(s);
    assert forall x :: x in t <==> x in multiset(t);
  }

  lemma PlaceOfLast<T>(s: seq<T>, t: seq<T>) returns (i: nat)
    requires s != [] && multiset(s) == multiset(t)
    ensures i < |t| && t[i] == s[|s| - 1]
    ensures multiset(s[..|s| - 1]) == multiset(Without(t, i))
  {
    var n := |s| - 1;
    SameElements(s, t);
    assert s[n] in s;
    i :| 0 <= i < |t| && t[i] == s[n];
    WithoutMultiset(t, i);
    WithoutMultiset(s, n);
    assert Without(s, n) == s[..n];
  }

  /** The grams under every key depend on the lines, not on their order. */
  lemma {:induction false} GramsIgnoreOrder(lines: seq<Line>, shuffled: seq<Line>, k: Key, ops: TextOps)
    requires multiset(lines) == multiset(shuffled)
    ensures GramsUnder(lines, k, ops) == GramsUnder(shuffled, k, ops)
  {
    SameElements(lines, shuffled);
    if lines != [] {
      var i := PlaceOfLast(lines, shuffled);
      GramsIgnoreOrder(lines[..|lines| - 1], Without(shuffled, i), k, ops);
      GramsOfOneLine(shuffled, i, k, ops);
    }
  }

  /** Merging the lines in any order gives the same keys with the same grams. */
  lemma MergeIgnoresOrder(lines: seq<Line>, shuffled: seq<Line>, k: Key, multiplier: real, ops: TextOps)
    requires multiset(lines) == multiset(shuffled)
    ensures var a, b := MergeLines(Empty(), lines, multiplier, ops), MergeLines(Empty(), shuffled, multiplier, ops);
      && (k in a.entries <==> k in b.entries)
      && (k in a.entries ==> a.entries[k].requiredQtyG == b.entries[k].requiredQtyG)
  {
    GramsIgnoreOrder(lines, shuffled, k, ops);
    SameElements(lines, shuffled);
    MergedGrams(Empty(), lines, k, multiplier, ops);
    MergedGrams(Empty(), shuffled, k, multiplier, ops);
    assert Quantifies(lines, k, ops) <==> Quantifies(shuffled, k, ops);
  }

  /** The line of a key that is new to the book: what it is called, and its ingredient. */
  ghost predicate NamedBy(r: Requirement, line: Line, ops: TextOps) {
    && r.ingredientId == line.ingredientId
    && r.name == match line.displayName
         case Some(name) => name
         case None => ops.trim(line.rawText)
  }

  /** A key keeps the name and ingredient it had; a new one has those of its first line. */
  lemma {:induction false} FirstLineNames(book: Book, lines: seq<Line>, k: Key, multiplier: real, ops: TextOps)
    returns (i: nat)
    requires k in MergeLines(book, lines, multiplier, ops).entries
    ensures var r := MergeLines(book, lines, multiplier, ops).entries[k];
      if k in book.entries then r.key == book.entries[k].key && r.ingredientId == book.entries[k].ingredientId
                                && r.name == book.entries[k].name
      else
        && r.key == k && i < |lines| && Under(lines[i], k, ops) && NamedBy(r, lines[i], ops)
        && forall j :: 0 <= j < i ==> !Under(lines[j], k, ops)
  {
    i := 0;
    if lines != [] {
      var init, line := lines[..|lines| - 1], lines[|lines| - 1];
      MergedGrams(book, init, k, multiplier, ops);
      assert Under(line, k, ops) <==> LineKey(line, ops) == k;
      if k in MergeLines(book, init, multiplier, ops).entries {
        i := FirstLineNames(book, init, k, multiplier, ops);
      } else {
        i := |init|;
        assert forall j :: 0 <= j < i ==> lines[j] in init;
      }
    }
  }

  /** Names only add keys without a quantity; nothing gathered before changes. */
  lemma {:induction false} NamesChangeNothing(
    book: Book, names: seq<string>, lookup: string -> Option<Found>, ops: TextOps, k: Key)
    ensures var after := MergeNames(book, names, lookup, ops);
      && (k in book.entries ==> k in after.entries && after.entries[k] == book.entries[k])
      && (k in after.entries && k !in book.entries ==> after.entries[k].requiredQtyG.None?)
  {
    if names != [] {
      NamesChangeNothing(book, names[..|names| - 1], lookup, ops, k);
    }
  }

  /** What a name that is not blank asks for. */
  ghost predicate AskedByName(r: Requirement, rawName: string, lookup: string -> Option<Found>, ops: TextOps) {
    var name := ops.trim(rawName);
    name != "" &&
    match lookup(name)
    case Some(f) => r == Requirement(Key(f.id), Some(f.id), f.displayName, None)
    case None => r == Requirement(Key("raw:" + ops.lower(name)), None, name, None)
  }

  /** Every name that is not blank is on the list, and every key that names add is one of theirs. */
  lemma {:induction false} NamesAreListed(
    book: Book, names: seq<string>, lookup: string -> Option<Found>, ops: TextOps)
    ensures var after := MergeNames(book, names, lookup, ops);
      && (forall i, r :: 0 <= i < |names| && AskedByName(r, names[i], lookup, ops) ==> r.key in after.entries)
      && (forall k <- after.entries :: k !in book.entries ==>
            exists i :: 0 <= i < |names| && AskedByName(after.entries[k], names[i], lookup, ops)
                        && after.entries[k].key == k)
  {
    if names != [] {
      var init := names[..|names| - 1];
      NamesAreListed(book, init, lookup, ops);
      var before, after := MergeNames(book, init, lookup, ops), MergeNames(book, names, lookup, ops);
      forall k | k in after.entries && k !in book.entries
        ensures exists i :: 0 <= i < |names| && AskedByName(after.entries[k], names[i], lookup, ops)
                            && after.entries[k].key == k
      {
        if k in before.entries {
          var i :| 0 <= i < |init| && AskedByName(before.entries[k], init[i], lookup, ops);
          assert AskedByName(after.entries[k], names[i], lookup, ops);
        } else {
          assert AskedByName(after.entries[k], names[|names| - 1], lookup, ops);
        }
      }
    }
  }

  /** A consistent book lists its requirements under distinct keys, as the optimizer expects. */
  lemma BookHasDistinctKeys(book: Book)
    requires Consistent(book)
    ensures DistinctKeys(book.Values())
  {
    var reqs := book.Values();
    forall i, j | 0 <= i < j < |reqs|
      ensures reqs[i].key != reqs[j].key
    {
      assert reqs[i].key == book.order[i] && reqs[j].key == book.order[j];
    }
  }
}
