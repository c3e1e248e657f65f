/**
 * The symbol priority catalog of OverlayHandler: a priority in [0,100] per symbol,
 * derived from keywords in the symbol's name and from its geometry, stored under the
 * decimal text of the symbol's integer id.
 */
module Priority {
  import opened Wrappers
  import opened JavaText
  import opened MapDocument

  /**
   * The priority the keyword cascade assigns to a lowercased name: the first group
   * that matches decides, in the order the source tests them.
   */
  function BasePriority(name: string): (r: int)
    ensures r in {90, 80, 85, 30, 20, 70, 75, 50}
  {
    if Contains(name, "building") || Contains(name, "tower") then 90
    else if Contains(name, "water") || Contains(name, "lake") || Contains(name, "pond") then 80
    else if Contains(name, "path") || Contains(name, "road") || Contains(name, "track") || Contains(name, "area") then 85
    else if Contains(name, "forest") || Contains(name, "vegetation") || name == "vineyard" then 30
    else if Contains(name, "open") || Contains(name, "field") then 20
    else if Contains(name, "contour") || Contains(name, "slope") then 70
    else if Contains(name, "index") then 75
    else 50
  }

  function Clamp(p: int): int {
    if p < 0 then 0 else if p > 100 then 100 else p
  }

  /** calculatePriority: keyword priority, +5 for point geometry, +3 for line geometry, clamped. */
  function CalculatePriority(symbol: Symbol, name: string): (r: int)
    ensures 0 <= r <= 100
  {
    var base := BasePriority(ToLower(name));
    var withPoint := if symbol.hasPointGeometry then base + 5 else base;
    var withLine := if symbol.hasLineGeometry then withPoint + 3 else withPoint;
    Clamp(withLine)
  }

  /** The name the source passes to calculatePriority is already lowercased; lowercasing again changes nothing. */
  lemma CalculatePriorityOfLowered(symbol: Symbol, name: string)
    ensures CalculatePriority(symbol, ToLower(name)) == CalculatePriority(symbol, name)
  {
    ToLowerIdempotent(name);
  }

  /**
   * The two bonuses are independent and additive, and the clamp never binds: every
   * priority is the keyword priority plus the bonuses, between 20 and 98.
   */
  lemma BonusesAdditive(symbol: Symbol, name: string)
    ensures CalculatePriority(symbol, name) ==
      BasePriority(ToLower(name)) + (if symbol.hasPointGeometry then 5 else 0) + (if symbol.hasLineGeometry then 3 else 0)
    ensures 20 <= CalculatePriority(symbol, name) <= 98
  {
  }

  /** A name with "building" or "tower" gets 90 whatever other keywords it contains. */
  lemma BuildingOrTowerFirst(name: string)
    requires Contains(ToLower(name), "building") || Contains(ToLower(name), "tower")
    ensures BasePriority(ToLower(name)) == 90
  {
  }

  /** Water keywords are tested before road keywords: a name with both gets 80, not 85. */
  lemma WaterBeforeRoad(name: string)
    requires Contains(ToLower(name), "water") && Contains(ToLower(name), "road")
    requires !Contains(ToLower(name), "building") && !Contains(ToLower(name), "tower")
    ensures BasePriority(ToLower(name)) == 80
  {
  }

  /** "vineyard" is matched by equality: a name that lowercases to "vineyard" gets 30. */
  lemma VineyardByEquality(name: string)
    requires ToLower(name) == "vineyard"
    ensures BasePriority(ToLower(name)) == 30
  {
    var v := ToLower(name);
    VineyardNameLetters(v);
    BuildingAndWaterKeywordsAbsent(v);
    RoadKeywordsAbsent(v);
  }

  /**
   * A name that merely contains "vineyard" is not matched by it: without another keyword
   * it keeps the default 50. "Vineyard fence" is such a name.
   */
  lemma VineyardNotByContainment(name: string)
    requires ToLower(name) == "vineyard fence"
    ensures Contains(ToLower(name), "vineyard")
    ensures BasePriority(ToLower(name)) == 50
  {
    var f := ToLower(name);
    VineyardNameLetters(f);
    BuildingAndWaterKeywordsAbsent(f);
    RoadKeywordsAbsent(f);
    LowKeywordsAbsent(f);
    ReliefKeywordsAbsent(f);
    assert "vineyard" <= f;
  }

  /** The name contains none of the keywords of the cascade other than "vineyard". */
  predicate NoOtherKeyword(name: string) {
    && !Contains(name, "building") && !Contains(name, "tower")
    && !Contains(name, "water") && !Contains(name, "lake") && !Contains(name, "pond")
    && !Contains(name, "path") && !Contains(name, "road") && !Contains(name, "track") && !Contains(name, "area")
    && !Contains(name, "forest") && !Contains(name, "vegetation")
    && !Contains(name, "open") && !Contains(name, "field")
    && !Contains(name, "contour") && !Contains(name, "slope")
    && !Contains(name, "index")
  }

  /**
   * Without another keyword, a lowercased name gets 30 exactly when it is "vineyard" and
   * 50 otherwise, however it contains "vineyard".
   */
  lemma VineyardOnlyByEquality(name: string)
    requires NoOtherKeyword(ToLower(name))
    ensures BasePriority(ToLower(name)) == (if ToLower(name) == "vineyard" then 30 else 50)
  {
  }

  /** The two example names of the vineyard lemmas, and the letters they are made of. */
  predicate IsVineyardName(s: string) {
    s == "vineyard" || s == "vineyard fence"
  }

  const VineyardLetters: set<char> := {'v', 'i', 'n', 'e', 'y', 'a', 'r', 'd', ' ', 'f', 'c'}

  /** Every character of s is one of the letters. */
  predicate Within(s: string, letters: set<char>) {
    forall i | 0 <= i < |s| :: s[i] in letters
  }

  /** No 'a' of s has an 'e' two places later. */
  predicate NoAreaPattern(s: string) {
    forall i | 0 <= i < |s| && s[i] == 'a' :: i + 2 >= |s| || s[i + 2] != 'e'
  }

  lemma VineyardNameLetters(s: string)
    requires IsVineyardName(s)
    ensures Within(s, VineyardLetters) && NoAreaPattern(s)
  {
  }

  lemma BuildingAndWaterKeywordsAbsent(s: string)
    requires Within(s, VineyardLetters)
    ensures !Contains(s, "building") && !Contains(s, "tower")
    ensures !Contains(s, "water") && !Contains(s, "lake") && !Contains(s, "pond")
  {
    NotContainedOutside(s, VineyardLetters, "building", 0);
    NotContainedOutside(s, VineyardLetters, "tower", 0);
    NotContainedOutside(s, VineyardLetters, "water", 0);
    NotContainedOutside(s, VineyardLetters, "lake", 0);
    NotContainedOutside(s, VineyardLetters, "pond", 0);
  }

  lemma RoadKeywordsAbsent(s: string)
    requires Within(s, VineyardLetters) && NoAreaPattern(s)
    ensures !Contains(s, "path") && !Contains(s, "road") && !Contains(s, "track") && !Contains(s, "area")
  {
    NotContainedOutside(s, VineyardLetters, "path", 0);
    NotContainedOutside(s, VineyardLetters, "road", 1);
    NotContainedOutside(s, VineyardLetters, "track", 0);
    AreaNotContained(s);
  }

  lemma LowKeywordsAbsent(s: string)
    requires Within(s, VineyardLetters)
    ensures !Contains(s, "forest") && !Contains(s, "vegetation") && !Contains(s, "open") && !Contains(s, "field")
  {

    NotContainedOutside(s, VineyardLetters, "forest", 1);
    NotContainedOutside(s, VineyardLetters, "vegetation", 4);
    NotContainedOutside(s, VineyardLetters, "open", 0);
    NotContainedOutside(s, VineyardLetters, "field", 3);
  }

  lemma ReliefKeywordsAbsent(s: string)
    requires Within(s, VineyardLetters)
    ensures !Contains(s, "contour") && !Contains(s, "slope") && !Contains(s, "index")
  {
    NotContainedOutside(s, VineyardLetters, "contour", 1);
    NotContainedOutside(s, VineyardLetters, "slope", 0);
    NotContainedOutside(s, VineyardLetters, "index", 4);
  }

  /** A text in which no 'a' has an 'e' two places later does not contain "area". */
  lemma AreaNotContained(s: string)
    requires NoAreaPattern(s)
    ensures !Contains(s, "area")
  {
    forall i | 0 <= i && i + 4 <= |s| ensures !OccursAt(s, "area", i) {
      assert s[i..i + 4][0] == s[i] && s[i..i + 4][2] == s[i + 2];
    }
    ContainsIffOccurs(s, "area");
  }

  // ---------------------------------------------------------------- the catalog

  /**
   * The key loadSymbolPriorities stores a symbol under: String.valueOf of its integer id;
   * None for a blank or non-integer id, which is skipped.
   */
  function CatalogKey(s: Symbol): Option<string> {
    if Trim(s.id) == [] then None
    else match ParseInt(s.id)
      case None => None
      case Some(n) => Some(IntToString(n))
  }

  /** The priority loadSymbolPriorities computes for a symbol. */
  function SymbolPriority(s: Symbol): int {
    CalculatePriority(s, ToLower(s.name))
  }

  /** One step of loadSymbolPriorities: store the symbol's priority under its key, if it has one. */
  function Store(m: map<string, int>, s: Symbol): (r: map<string, int>)
    ensures r.Keys == if CatalogKey(s).Some? then m.Keys + {CatalogKey(s).value} else m.Keys
    ensures forall k | k in r :: r[k] == if CatalogKey(s) == Some(k) then SymbolPriority(s) else m[k]
  {
    match CatalogKey(s)
    case None => m
    case Some(k) => m[k := SymbolPriority(s)]
  }

  lemma StoreKeys(m: map<string, int>, s: Symbol, k: string)
    ensures k in Store(m, s) <==> k in m || CatalogKey(s) == Some(k)
  {
  }

  /** symbolPriorities after loadSymbolPriorities: a later symbol with the same key overwrites. */
  function Catalog(symbols: seq<Symbol>): map<string, int>
    decreases |symbols|
  {
    if symbols == [] then map[] else Store(Catalog(symbols[..|symbols| - 1]), symbols[|symbols| - 1])
  }

  /** symbolPriorities.getOrDefault(String.valueOf(symbolId), 0). */
  function PriorityOf(catalog: map<string, int>, symbolId: int): int {
    if IntToString(symbolId) in catalog then catalog[IntToString(symbolId)] else 0
  }

  /** loadSymbolPriorities: one pass over the symbols, filling the map. */
  method LoadSymbolPriorities(symbols: seq<Symbol>) returns (priorities: map<string, int>)
    ensures priorities == Catalog(symbols)
  {
    priorities := map[];
    for i := 0 to |symbols|
      invariant priorities == Catalog(symbols[..i])
    {
      assert symbols[..i + 1][..i] == symbols[..i];
      var symbol := symbols[i];
      if Trim(symbol.id) == [] {
        continue;
      }
      var id := ParseInt(symbol.id);
      if id.None? {
        continue;
      }
      var name := ToLower(symbol.name);
      priorities := priorities[IntToString(id.value) := CalculatePriority(symbol, name)];
      assert priorities == Store(Catalog(symbols[..i]), symbol);
    }
    assert symbols[..|symbols|] == symbols;
  }

  /** A blank or non-integer id never yields a key; an integer id always does. */
  lemma CatalogKeyIffInteger(s: Symbol)
    ensures CatalogKey(s).Some? <==> ParseInt(s.id).Some?
    ensures CatalogKey(s).Some? ==> CatalogKey(s).value == IntToString(ParseInt(s.id).value)
  {
    if ParseInt(s.id).Some? {
      TrimFacts(s.id);
      assert !IsTrimmed(s.id[|s.id| - 1]);
    }
  }

  /** The keys of the catalog are exactly the keys of the symbols with integer ids. */
  lemma {:induction false} CatalogKeys(symbols: seq<Symbol>, k: string)
    ensures k in Catalog(symbols) <==> exists i | 0 <= i < |symbols| :: CatalogKey(symbols[i]) == Some(k)
    decreases |symbols|
  {
    if symbols != [] {
      var n := |symbols| - 1;
      var init := symbols[..n];
      CatalogKeys(init, k);
      StoreKeys(Catalog(init), symbols[n], k);
      if k in Catalog(init) {
        var i :| 0 <= i < |init| && CatalogKey(init[i]) == Some(k);
        assert symbols[i] == init[i];
      }
      forall i | 0 <= i < n && CatalogKey(symbols[i]) == Some(k) ensures k in Catalog(init) {
        assert symbols[i] == init[i];
      }
    }
  }

  /** Every stored priority lies in [0,100]. */
  lemma {:induction false} CatalogInRange(symbols: seq<Symbol>)
    ensures forall k | k in Catalog(symbols) :: 0 <= Catalog(symbols)[k] <= 100
    decreases |symbols|
  {
    if symbols != [] {
      CatalogInRange(symbols[..|symbols| - 1]);
    }
  }

  /** The priority stored under a key is that of the last symbol with that key. */
  lemma {:induction false} CatalogLastWins(symbols: seq<Symbol>, i: int, k: string)
    requires 0 <= i < |symbols| && CatalogKey(symbols[i]) == Some(k)
    requires forall j | i < j < |symbols| :: CatalogKey(symbols[j]) != Some(k)
    ensures k in Catalog(symbols) && Catalog(symbols)[k] == SymbolPriority(symbols[i])
    decreases |symbols|
  {
    if i < |symbols| - 1 {
      var init := symbols[..|symbols| - 1];
      CatalogLastWins(init, i, k);
    }
  }

  /**
   * Looking up an integer symbol id gives the priority of the last symbol whose id parses
   * to that integer ("7" and "007" both count), and 0 when no symbol does.
   */
  lemma PriorityOfLookup(symbols: seq<Symbol>, n: int)
    requires IsInt32(n)
    ensures (forall i | 0 <= i < |symbols| :: ParseInt(symbols[i].id) != Some(n)) ==> PriorityOf(Catalog(symbols), n) == 0
    ensures forall i | 0 <= i < |symbols| && ParseInt(symbols[i].id) == Some(n) &&
                       (forall j | i < j < |symbols| :: ParseInt(symbols[j].id) != Some(n)) ::
              PriorityOf(Catalog(symbols), n) == SymbolPriority(symbols[i])
  {
    var k := IntToString(n);
    // Two symbols share a key exactly when their ids parse to the same integer.
    forall j | 0 <= j < |symbols|
      ensures CatalogKey(symbols[j]) == Some(k) <==> ParseInt(symbols[j].id) == Some(n)
    {
      CatalogKeyIffInteger(symbols[j]);
      if CatalogKey(symbols[j]) == Some(k) {
        IntToStringInjective(ParseInt(symbols[j].id).value, n);
      }
    }
    CatalogKeys(symbols, k);
    forall i | 0 <= i < |symbols| && ParseInt(symbols[i].id) == Some(n) &&
               (forall j | i < j < |symbols| :: ParseInt(symbols[j].id) != Some(n))
      ensures PriorityOf(Catalog(symbols), n) == SymbolPriority(symbols[i])
    {
      CatalogLastWins(symbols, i, k);
    }
  }

  /** Whatever the symbols, a lookup yields a priority in [0,100]. */
  lemma PriorityOfInRange(symbols: seq<Symbol>, n: int)
    ensures 0 <= PriorityOf(Catalog(symbols), n) <= 100
  {
    CatalogInRange(symbols);
  }
}
