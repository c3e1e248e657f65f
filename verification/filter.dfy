/**
 * FilterObjects: drops the objects of the symbols named by the user (case-insensitively),
 * rebuilds the objects wrapper of the result map, and optionally removes the objects that
 * share a symbol with an object the overlay handler hides.
 */
module Filter {
  import opened Wrappers
  import opened JavaText
  import opened MapDocument
  import opened Overlay

  // ---------------------------------------------------------------- symbolMap

  /** A symbol filterObjects enters under a lowercased name: a non-empty name and an integer id. */
  predicate Named(s: Symbol) {
    s.name != [] && s.id != [] && ParseInt(s.id).Some?
  }

  /** symbolMap after the loop over the symbols: lowercased name to id, a later symbol overwriting. */
  function SymbolMap(symbols: seq<Symbol>): map<string, int>
    decreases |symbols|
  {
    if symbols == [] then map[]
    else
      var m := SymbolMap(symbols[..|symbols| - 1]);
      var s := symbols[|symbols| - 1];
      if Named(s) then m[ToLower(s.name) := ParseInt(s.id).value] else m
  }

  /** The symbol loop of filterObjects. */
  method BuildSymbolMap(symbols: seq<Symbol>) returns (symbolMap: map<string, int>)
    ensures symbolMap == SymbolMap(symbols)
  {
    symbolMap := map[];
    for i := 0 to |symbols|
      invariant symbolMap == SymbolMap(symbols[..i])
    {
      assert symbols[..i + 1][..i] == symbols[..i];
      var name := symbols[i].name;
      var id := symbols[i].id;
      if name != [] && id != [] {
        var parsed := ParseInt(id);
        if parsed.Some? {
          symbolMap := symbolMap[ToLower(name) := parsed.value];
        }
      }
    }
    assert symbols[..|symbols|] == symbols;
  }

  /**
   * A lowercased name is a key exactly when some symbol with a non-empty name and an
   * integer id has that name, whatever its case.
   */
  lemma {:induction false} SymbolMapKeys(symbols: seq<Symbol>, name: string)
    ensures name in SymbolMap(symbols) <==> exists i | 0 <= i < |symbols| :: Named(symbols[i]) && ToLower(symbols[i].name) == name
    decreases |symbols|
  {
    if symbols != [] {
      var last := |symbols| - 1;
      var init := symbols[..last];
      SymbolMapKeys(init, name);
      if name in SymbolMap(init) {
        var i :| 0 <= i < |init| && Named(init[i]) && ToLower(init[i].name) == name;
        assert symbols[i] == init[i];
      }
      forall i | 0 <= i < last && Named(symbols[i]) && ToLower(symbols[i].name) == name
        ensures name in SymbolMap(init)
      {
        assert symbols[i] == init[i];
      }
    }
  }

  /** The id stored under a name is that of the last symbol entered under it. */
  lemma {:induction false} SymbolMapLastWins(symbols: seq<Symbol>, i: int)
    requires 0 <= i < |symbols| && Named(symbols[i])
    requires forall j | i < j < |symbols| :: !(Named(symbols[j]) && ToLower(symbols[j].name) == ToLower(symbols[i].name))
    ensures ToLower(symbols[i].name) in SymbolMap(symbols)
    ensures SymbolMap(symbols)[ToLower(symbols[i].name)] == ParseInt(symbols[i].id).value
    decreases |symbols|
  {
    if i < |symbols| - 1 {
      SymbolMapLastWins(symbols[..|symbols| - 1], i);
    }
  }

  // ---------------------------------------------------------------- idsToFilter

  /** idsToFilter: for each name to filter, in order, the id its lowercased form maps to, if any. */
  function IdsToFilter(symbolMap: map<string, int>, names: seq<string>): seq<int>
    decreases |names|
  {
    if names == [] then []
    else
      var ids := IdsToFilter(symbolMap, names[..|names| - 1]);
      var key := ToLower(names[|names| - 1]);
      if key in symbolMap then ids + [symbolMap[key]] else ids
  }

  /** The exclusion loop of filterObjects. */
  method CollectIdsToFilter(symbolMap: map<string, int>, names: seq<string>) returns (ids: seq<int>)
    ensures ids == IdsToFilter(symbolMap, names)
  {
    ids := [];
    for k := 0 to |names|
      invariant ids == IdsToFilter(symbolMap, names[..k])
    {
      assert names[..k + 1][..k] == names[..k];
      var key := ToLower(names[k]);
      if key in symbolMap {
        ids := ids + [symbolMap[key]];
      }
    }
    assert names[..|names|] == names;
  }

  /** An id is excluded exactly when some name to filter, lowercased, maps to it; unknown names add nothing. */
  lemma {:induction false} IdsToFilterMembers(symbolMap: map<string, int>, names: seq<string>, id: int)
    ensures id in IdsToFilter(symbolMap, names) <==>
      exists k | 0 <= k < |names| :: ToLower(names[k]) in symbolMap && symbolMap[ToLower(names[k])] == id
    decreases |names|
  {
    if names != [] {
      var last := |names| - 1;
      var init := names[..last];
      IdsToFilterMembers(symbolMap, init, id);
      if id in IdsToFilter(symbolMap, init) {
        var k :| 0 <= k < |init| && ToLower(init[k]) in symbolMap && symbolMap[ToLower(init[k])] == id;
        assert names[k] == init[k];
      }
      forall k | 0 <= k < last && ToLower(names[k]) in symbolMap && symbolMap[ToLower(names[k])] == id
        ensures id in IdsToFilter(symbolMap, init)
      {
        assert names[k] == init[k];
      }
    }
  }

  /** The ids filterObjects excludes for a list of names. */
  function ExclusionIds(symbols: seq<Symbol>, names: seq<string>): seq<int> {
    IdsToFilter(SymbolMap(symbols), names)
  }

  /**
   * A name to filter matches a symbol whatever the case of either: it excludes the id of the
   * last symbol whose lowercased name equals its own lowercased form.
   */
  lemma MatchIgnoresCase(symbols: seq<Symbol>, i: int, name: string)
    requires 0 <= i < |symbols| && Named(symbols[i]) && ToLower(symbols[i].name) == ToLower(name)
    requires forall j | i < j < |symbols| :: !(Named(symbols[j]) && ToLower(symbols[j].name) == ToLower(name))
    ensures ExclusionIds(symbols, [name]) == [ParseInt(symbols[i].id).value]
  {
    SymbolMapLastWins(symbols, i);
    var m := SymbolMap(symbols);
    assert ToLower(name) in m && m[ToLower(name)] == ParseInt(symbols[i].id).value;
    assert [name][..0] == [];
    assert IdsToFilter(m, [name]) == IdsToFilter(m, []) + [m[ToLower(name)]];
  }

  // ---------------------------------------------------------------- the copy pass of filter

  /** The objects a predicate keeps, in their original order. */
  function Select(keep: MapObject -> bool, objects: seq<MapObject>): (r: seq<MapObject>)
    ensures |r| <= |objects|
    decreases |objects|
  {
    if objects == [] then []
    else
      var last := objects[|objects| - 1];
      Select(keep, objects[..|objects| - 1]) + if keep(last) then [last] else []
  }

  /** What the copy loop of filter does with an object. */
  datatype Fate =
    | Dropped   // empty or non-integer symbol attribute: skipped, not counted
    | Deleted   // symbol among the ids to filter: skipped and counted in objsDeleted
    | Kept      // copied into the objects wrapper

  function FateOf(ids: seq<int>, o: MapObject): Fate {
    if o.symbol == [] then Dropped
    else match ParseInt(o.symbol)
      case None => Dropped
      case Some(symbolId) => if symbolId in ids then Deleted else Kept
  }

  function HasFate(ids: seq<int>, fate: Fate): MapObject -> bool {
    (o: MapObject) => FateOf(ids, o) == fate
  }

  /** The objects filter copies into the wrapper. */
  function KeptObjects(ids: seq<int>, objects: seq<MapObject>): seq<MapObject> {
    Select(HasFate(ids, Kept), objects)
  }

  /** How much filter adds to objsDeleted. */
  function DeletedCount(ids: seq<int>, objects: seq<MapObject>): nat {
    |Select(HasFate(ids, Deleted), objects)|
  }

  lemma SelectStep(keep: MapObject -> bool, objects: seq<MapObject>, i: int)
    requires 0 <= i < |objects|
    ensures Select(keep, objects[..i + 1]) == Select(keep, objects[..i]) + if keep(objects[i]) then [objects[i]] else []
  {
    assert objects[..i + 1][..i] == objects[..i];
  }

  /** Selection keeps exactly the objects the predicate holds of. */
  lemma {:induction false} SelectMembers(keep: MapObject -> bool, objects: seq<MapObject>)
    ensures forall o :: o in Select(keep, objects) <==> o in objects && keep(o)
    decreases |objects|
  {
    if objects != [] {
      var init := objects[..|objects| - 1];
      SelectMembers(keep, init);
      assert objects == init + [objects[|objects| - 1]];
    }
  }

  /** Selection distributes over concatenation, so the kept objects keep their relative order. */
  lemma {:induction false} SelectAppend(keep: MapObject -> bool, a: seq<MapObject>, b: seq<MapObject>)
    ensures Select(keep, a + b) == Select(keep, a) + Select(keep, b)
    decreases |b|
  {
    if b == [] {
      assert a + b == a;
    } else {
      var n := |b| - 1;
      assert (a + b)[..|a + b| - 1] == a + b[..n];
      assert (a + b)[|a + b| - 1] == b[n];
      SelectAppend(keep, a, b[..n]);
    }
  }

  /** Selecting twice with the same predicate changes nothing. */
  lemma {:induction false} SelectIdempotent(keep: MapObject -> bool, objects: seq<MapObject>)
    ensures Select(keep, Select(keep, objects)) == Select(keep, objects)
    decreases |objects|
  {
    if objects != [] {
      var last := objects[|objects| - 1];
      var init := objects[..|objects| - 1];
      SelectIdempotent(keep, init);
      SelectAppend(keep, Select(keep, init), if keep(last) then [last] else []);
      if keep(last) {
        assert [last][..0] == [];
      }
    }
  }

  /** Selecting with a predicate that no selected object satisfies yields nothing. */
  lemma {:induction false} SelectDisjoint(keep: MapObject -> bool, other: MapObject -> bool, objects: seq<MapObject>)
    requires forall o :: !(keep(o) && other(o))
    ensures Select(other, Select(keep, objects)) == []
    decreases |objects|
  {
    if objects != [] {
      var last := objects[|objects| - 1];
      var init := objects[..|objects| - 1];
      SelectDisjoint(keep, other, init);
      SelectAppend(other, Select(keep, init), if keep(last) then [last] else []);
      if keep(last) {
        assert [last][..0] == [];
      }
    }
  }

  /** A predicate that holds of nothing selects nothing. */
  lemma {:induction false} SelectNone(keep: MapObject -> bool, objects: seq<MapObject>)
    requires forall o :: !keep(o)
    ensures Select(keep, objects) == []
    decreases |objects|
  {
    if objects != [] {
      SelectNone(keep, objects[..|objects| - 1]);
    }
  }

  /** Every object has exactly one fate, so the three selections add up to the whole list. */
  lemma {:induction false} FatesPartition(ids: seq<int>, objects: seq<MapObject>)
    ensures |Select(HasFate(ids, Kept), objects)| + |Select(HasFate(ids, Deleted), objects)| +
            |Select(HasFate(ids, Dropped), objects)| == |objects|
    decreases |objects|
  {
    if objects != [] {
      FatesPartition(ids, objects[..|objects| - 1]);
    }
  }

  /**
   * An object is copied exactly when its symbol attribute is a non-empty integer that is not
   * excluded; it is counted as deleted exactly when that integer is excluded.
   */
  lemma KeptAndDeleted(ids: seq<int>, objects: seq<MapObject>)
    ensures forall o :: o in KeptObjects(ids, objects) <==>
      o in objects && o.symbol != [] && ParseInt(o.symbol).Some? && ParseInt(o.symbol).value !in ids
    ensures forall o :: o in Select(HasFate(ids, Deleted), objects) <==>
      o in objects && o.symbol != [] && ParseInt(o.symbol).Some? && ParseInt(o.symbol).value in ids
  {
    SelectMembers(HasFate(ids, Kept), objects);
    SelectMembers(HasFate(ids, Deleted), objects);
  }

  /** Filtering the result again with the same ids keeps everything and deletes nothing. */
  lemma RefilterChangesNothing(ids: seq<int>, objects: seq<MapObject>)
    ensures KeptObjects(ids, KeptObjects(ids, objects)) == KeptObjects(ids, objects)
    ensures DeletedCount(ids, KeptObjects(ids, objects)) == 0
  {
    SelectIdempotent(HasFate(ids, Kept), objects);
    SelectDisjoint(HasFate(ids, Kept), HasFate(ids, Deleted), objects);
  }

  /** With nothing to exclude, every object with an integer symbol is kept and none is deleted. */
  lemma NothingExcluded(objects: seq<MapObject>)
    ensures forall o :: o in KeptObjects([], objects) <==> o in objects && o.symbol != [] && ParseInt(o.symbol).Some?
    ensures DeletedCount([], objects) == 0
  {
    KeptAndDeleted([], objects);
    SelectNone(HasFate([], Deleted), objects);
  }

  /**
   * The copy loop of filter: the objects copied into the wrapper, their number, and how many
   * objects were deleted.
   */
  method CopyObjects(ids: seq<int>, objects: seq<MapObject>) returns (wrapper: seq<MapObject>, objectCount: int, deleted: int)
    ensures wrapper == KeptObjects(ids, objects) && objectCount == |wrapper|
    ensures deleted == DeletedCount(ids, objects)
  {
    wrapper := [];
    objectCount := 0;
    deleted := 0;
    for i := 0 to |objects|
      invariant wrapper == KeptObjects(ids, objects[..i]) && objectCount == |wrapper|
      invariant deleted == DeletedCount(ids, objects[..i])
    {
      SelectStep(HasFate(ids, Kept), objects, i);
      SelectStep(HasFate(ids, Deleted), objects, i);
      var el := objects[i];
      if el.symbol == [] {
        continue;
      }
      var symbolId := ParseInt(el.symbol);
      if symbolId.None? {
        continue;
      }
      if symbolId.value in ids {
        deleted := deleted + 1;
        continue;
      }
      wrapper := wrapper + [el];
      objectCount := objectCount + 1;
    }
    assert objects[..|objects|] == objects;
  }

  // ---------------------------------------------------------------- removeOverlappingObjects

  /** idsToHide: the non-empty symbol attributes of the objects to hide. */
  function HiddenSymbols(objectsToHide: seq<MapObject>): set<string>
    decreases |objectsToHide|
  {
    if objectsToHide == [] then {}
    else
      var symbol := objectsToHide[|objectsToHide| - 1].symbol;
      HiddenSymbols(objectsToHide[..|objectsToHide| - 1]) + if symbol != [] then {symbol} else {}
  }

  lemma {:induction false} HiddenSymbolsMembers(objectsToHide: seq<MapObject>, symbol: string)
    ensures symbol in HiddenSymbols(objectsToHide) <==>
      symbol != [] && exists k | 0 <= k < |objectsToHide| :: objectsToHide[k].symbol == symbol
    decreases |objectsToHide|
  {
    if objectsToHide != [] {
      var last := |objectsToHide| - 1;
      var init := objectsToHide[..last];
      HiddenSymbolsMembers(init, symbol);
      if symbol in HiddenSymbols(init) {
        var k :| 0 <= k < |init| && init[k].symbol == symbol;
        assert objectsToHide[k] == init[k];
      }
      forall k | 0 <= k < last && objectsToHide[k].symbol == symbol ensures symbol in HiddenSymbols(init) || symbol == [] {
        assert objectsToHide[k] == init[k];
      }
    }
  }

  /** Whether an object survives the removal: its symbol attribute is empty or not hidden. */
  function Survives(idsToHide: set<string>): MapObject -> bool {
    (o: MapObject) => !(o.symbol != [] && o.symbol in idsToHide)
  }

  /** The objects left in the result once those with a hidden symbol are removed. */
  function Survivors(objects: seq<MapObject>, idsToHide: set<string>): seq<MapObject> {
    Select(Survives(idsToHide), objects)
  }

  /**
   * Removal takes out exactly the objects that share a non-empty symbol attribute with some
   * object to hide, whether or not they are that object, and keeps the rest in order.
   */
  lemma RemovalBySymbol(objects: seq<MapObject>, objectsToHide: seq<MapObject>)
    ensures forall o :: o in Survivors(objects, HiddenSymbols(objectsToHide)) <==>
      o in objects && (o.symbol == [] || forall k | 0 <= k < |objectsToHide| :: objectsToHide[k].symbol != o.symbol)
  {
    SelectMembers(Survives(HiddenSymbols(objectsToHide)), objects);
    forall o ensures Survives(HiddenSymbols(objectsToHide))(o) <==>
      (o.symbol == [] || forall k | 0 <= k < |objectsToHide| :: objectsToHide[k].symbol != o.symbol)
    {
      HiddenSymbolsMembers(objectsToHide, o.symbol);
    }
  }

  /** Hiding one object also removes a different object of the same symbol. */
  lemma RemovalTakesSameSymbol()
    ensures var hidden := MapObject("1", "101", None);
      var other := MapObject("2", "101", None);
      Survivors([hidden, other], HiddenSymbols([hidden])) == []
  {
    var hidden := MapObject("1", "101", None);
    var other := MapObject("2", "101", None);
    assert [hidden][..0] == [];
    var idsToHide := HiddenSymbols([hidden]);
    assert "101" in idsToHide;
    var keep := Survives(idsToHide);
    assert !keep(hidden) && !keep(other);
    assert [hidden, other][..1] == [hidden];
    assert Select(keep, [hidden]) == Select(keep, []);
    assert Select(keep, [hidden, other]) == Select(keep, [hidden]);
  }

  /** The first loop of removeOverlappingObjects: the symbols to hide. */
  method CollectHiddenSymbols(objectsToHide: seq<MapObject>) returns (idsToHide: set<string>)
    ensures idsToHide == HiddenSymbols(objectsToHide)
  {
    idsToHide := {};
    for k := 0 to |objectsToHide|
      invariant idsToHide == HiddenSymbols(objectsToHide[..k])
    {
      assert objectsToHide[..k + 1][..k] == objectsToHide[..k];
      var id := objectsToHide[k].symbol;
      if id != [] {
        idsToHide := idsToHide + {id};
      }
    }
    assert objectsToHide[..|objectsToHide|] == objectsToHide;
  }

  /**
   * The removal loops of removeOverlappingObjects: the objects left, and how many objects
   * had a hidden symbol.
   */
  method RemoveHidden(objects: seq<MapObject>, idsToHide: set<string>) returns (remaining: seq<MapObject>, removed: int)
    ensures remaining == Survivors(objects, idsToHide)
    ensures removed == |objects| - |remaining|
  {
    removed := 0;
    remaining := [];
    for i := 0 to |objects|
      invariant remaining == Survivors(objects[..i], idsToHide)
      invariant removed == i - |remaining|
    {
      SelectStep(Survives(idsToHide), objects, i);
      var id := objects[i].symbol;
      if id != [] && id in idsToHide {
        removed := removed + 1;
      } else {
        remaining := remaining + [objects[i]];
      }
    }
    assert objects[..|objects|] == objects;
  }

  /** The objects at the given positions, in the order of the positions. */
  function ObjectsAt(objects: seq<MapObject>, positions: seq<nat>): (r: seq<MapObject>)
    requires forall k | 0 <= k < |positions| :: positions[k] < |objects|
    ensures |r| == |positions| && forall k | 0 <= k < |positions| :: r[k] == objects[positions[k]]
  {
    seq(|positions|, k requires 0 <= k < |positions| => objects[positions[k]])
  }

  /** The non-empty symbol attributes of the objects at a set of positions. */
  function SymbolsAt(objects: seq<MapObject>, positions: set<nat>): set<string> {
    set h | h in positions && h < |objects| && objects[h].symbol != [] :: objects[h].symbol
  }

  /** Whatever order the positions come in, the symbols to hide are those of the objects at them. */
  lemma HiddenSymbolsAt(objects: seq<MapObject>, toHide: seq<nat>, positions: set<nat>)
    requires forall k | 0 <= k < |toHide| :: toHide[k] < |objects|
    requires forall h :: h in toHide <==> h in positions
    ensures HiddenSymbols(ObjectsAt(objects, toHide)) == SymbolsAt(objects, positions)
  {
    var hidden := ObjectsAt(objects, toHide);
    forall symbol ensures symbol in HiddenSymbols(hidden) <==> symbol in SymbolsAt(objects, positions) {
      HiddenSymbolsMembers(hidden, symbol);
      if symbol in SymbolsAt(objects, positions) {
        var h :| h in positions && h < |objects| && objects[h].symbol != [] && objects[h].symbol == symbol;
        var k :| 0 <= k < |toHide| && toHide[k] == h;
        assert hidden[k].symbol == symbol;
      }
    }
  }

  // ---------------------------------------------------------------- the filter

  class FilterObjects {
    const document: Document
    /** The names of the symbols whose objects are filtered out. */
    const names: seq<string>
    const handleOverlays: bool
    const removeOverlays: bool
    var objsDeleted: int
    var overlaysHandled: int
    var overlayManager: OverlayHandler?
    /** Whether filter has built the result's objects wrapper. */
    var hasWrapper: bool
    /** The <object> elements of the result map, in order. */
    var kept: seq<MapObject>
    /** The wrapper's count attribute. */
    var countAttr: string

    /**
     * The overlay handler exists when overlays are handled and reads this document; the
     * wrapper's count attribute is the number of objects in the result.
     */
    ghost predicate Valid()
      reads this, overlayManager
    {
      && (forall p | p in document.parts :: |p| <= MaxInt)
      && (handleOverlays ==>
            overlayManager != null && overlayManager.Valid() &&
            overlayManager.symbols == document.symbols && overlayManager.objects == AllObjects(document))
      && (hasWrapper ==> document.parts != [] && |kept| <= |document.parts[0]| && ParseInt(countAttr) == Some(|kept|))
      && (!hasWrapper ==> kept == [])
    }

    /** new FilterObjects(map, objects, handleOverlays, removeOverlays) on an already parsed map. */
    constructor(document: Document, names: seq<string>, handleOverlays: bool, removeOverlays: bool, numerics: Numerics)
      requires forall p | p in document.parts :: |p| <= MaxInt
      ensures this.document == document && this.names == names
      ensures this.handleOverlays == handleOverlays && this.removeOverlays == removeOverlays
      ensures objsDeleted == 0 && overlaysHandled == 0 && !hasWrapper
      ensures handleOverlays ==> fresh(overlayManager) && overlayManager.overlaps == []
      ensures !handleOverlays ==> overlayManager == null
      ensures Valid()
    {
      this.document := document;
      this.names := names;
      this.handleOverlays := handleOverlays;
      this.removeOverlays := removeOverlays;
      objsDeleted := 0;
      overlaysHandled := 0;
      hasWrapper := false;
      kept := [];
      countAttr := "";
      if handleOverlays {
        var handler := new OverlayHandler(document, numerics);
        overlayManager := handler;
      } else {
        overlayManager := null;
      }
    }

    /** new FilterObjects(map, objects): neither handles nor removes overlays. */
    constructor Plain(document: Document, names: seq<string>)
      requires forall p | p in document.parts :: |p| <= MaxInt
      ensures this.document == document && this.names == names
      ensures !handleOverlays && !removeOverlays && overlayManager == null
      ensures objsDeleted == 0 && overlaysHandled == 0 && !hasWrapper
      ensures Valid()
    {
      this.document := document;
      this.names := names;
      handleOverlays := false;
      removeOverlays := false;
      objsDeleted := 0;
      overlaysHandled := 0;
      hasWrapper := false;
      kept := [];
      countAttr := "";
      overlayManager := null;
    }

    /**
     * filter: copies the objects of the first <objects> element that are kept, counts the
     * deleted ones, and sets the wrapper's count; without an <objects> element nothing changes.
     */
    method Filter(ids: seq<int>)
      requires Valid() && !hasWrapper
      modifies this
      ensures Valid()
      ensures document.parts == [] ==> !hasWrapper && kept == [] && objsDeleted == old(objsDeleted)
      ensures document.parts != [] ==>
        && hasWrapper
        && kept == KeptObjects(ids, document.parts[0])
        && objsDeleted == old(objsDeleted) + DeletedCount(ids, document.parts[0])
      ensures overlaysHandled == old(overlaysHandled) && overlayManager == old(overlayManager)
    {
      if document.parts == [] {
        return;
      }
      var objects := document.parts[0];
      var wrapper, objectCount, deleted := CopyObjects(ids, objects);
      objsDeleted := objsDeleted + deleted;
      ParseIntOfIntToString(objectCount);
      hasWrapper := true;
      kept := wrapper;
      countAttr := IntToString(objectCount);
    }

    /**
     * removeOverlappingObjects: removes from the result every object whose symbol attribute
     * is that of an object to hide, lowers the wrapper's count by as many, and returns that number.
     */
    method RemoveOverlappingObjects(objectsToHide: seq<MapObject>) returns (removed: int)
      requires Valid()
      modifies this
      ensures Valid()
      ensures kept == Survivors(old(kept), HiddenSymbols(objectsToHide))
      ensures removed == |old(kept)| - |kept|
      ensures hasWrapper == old(hasWrapper) && objsDeleted == old(objsDeleted)
      ensures overlaysHandled == old(overlaysHandled) && overlayManager == old(overlayManager)
    {
      var idsToHide := CollectHiddenSymbols(objectsToHide);
      var remaining;
      remaining, removed := RemoveHidden(kept, idsToHide);
      if hasWrapper {
        var currentCount := ParseInt(countAttr).value;
        assert currentCount - removed == |remaining| <= |kept|;
        ParseIntOfIntToString(currentCount - removed);
        countAttr := IntToString(currentCount - removed);
      }
      kept := remaining;
    }

    /**
     * filterObjects: builds the name map and the ids to filter, finds the overlaps when
     * overlays are handled, filters, and when overlays are also removed, removes the objects
     * sharing a symbol with a hidden object and records how many went.
     */
    method Run()
      requires Valid() && !hasWrapper
      modifies this, overlayManager
      ensures Valid() && overlayManager == old(overlayManager)
      ensures var ids := ExclusionIds(document.symbols, names);
        var copied := if document.parts == [] then [] else KeptObjects(ids, document.parts[0]);
        && hasWrapper == (document.parts != [])
        && objsDeleted == old(objsDeleted) + (if document.parts == [] then 0 else DeletedCount(ids, document.parts[0]))
        && (handleOverlays ==>
              overlayManager.overlaps == old(overlayManager.overlaps) + Overlaps(overlayManager.objects, overlayManager.numerics))
        && (handleOverlays && removeOverlays ==>
              && kept == Survivors(copied, SymbolsAt(overlayManager.objects,
                   HideSet(overlayManager.symbolPriorities, SmallObjects(overlayManager.objects), overlayManager.overlaps)))
              && overlaysHandled == |copied| - |kept|)
        && (!(handleOverlays && removeOverlays) ==> kept == copied && overlaysHandled == old(overlaysHandled))
    {
      var symbolMap := BuildSymbolMap(document.symbols);
      var ids := CollectIdsToFilter(symbolMap, names);
      if handleOverlays {
        overlayManager.IdentifyOverlays();
      }
      Filter(ids);
      if handleOverlays {
        if removeOverlays {
          RemoveHiddenOverlays();
        }
      }
    }

    /**
     * The last step of filterObjects: asks the handler for the objects to hide, removes the
     * objects sharing a symbol with one of them, and records how many went.
     */
    method RemoveHiddenOverlays()
      requires Valid() && handleOverlays
      modifies this
      ensures Valid() && overlayManager == old(overlayManager)
      ensures kept == Survivors(old(kept), SymbolsAt(overlayManager.objects,
        HideSet(overlayManager.symbolPriorities, SmallObjects(overlayManager.objects), overlayManager.overlaps)))
      ensures overlaysHandled == |old(kept)| - |kept|
      ensures hasWrapper == old(hasWrapper) && objsDeleted == old(objsDeleted)
    {
      var handler := overlayManager;
      var toHide := handler.GetObjectsToHide();
      var objects := handler.objects;
      ghost var positions := HideSet(handler.symbolPriorities, SmallObjects(objects), handler.overlaps);
      forall k | 0 <= k < |toHide| ensures toHide[k] < |objects| {
        HiddenObjectsLost(handler.symbolPriorities, objects, handler.overlaps, toHide[k]);
      }
      var objectsToHide := ObjectsAt(objects, toHide);
      HiddenSymbolsAt(objects, toHide, positions);
      overlaysHandled := RemoveOverlappingObjects(objectsToHide);
    }
  }
}
