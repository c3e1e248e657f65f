/**
 * OverlayHandler: finds pairs of map objects whose shapes overlap by more than a threshold,
 * and decides which object of each pair to hide, by symbol priority.
 */
module Overlay {
  import opened Wrappers
  import opened JavaText
  import opened MapDocument
  import opened Priority
  import opened Geometry

  /**
   * The floating-point parts: Double.parseDouble, and for two paths the size getAreaSize
   * reports for the intersection of their areas, None when that intersection is empty.
   */
  datatype Numerics = Numerics(parseDouble: NumberParser, overlapSize: (Path, Path) -> Option<real>)

  /** An OverlapPair; the objects are named by their position in the document's object list. */
  datatype OverlapPair = OverlapPair(object1: nat, object2: nat, symbolId1: int, symbolId2: int, overlapSize: real)

  /** Overlaps of this size or less are ignored. */
  const MinOverlap: real := 100.0

  // ---------------------------------------------------------------- loadObjects

  /** The key loadObjects stores an object under; None for a blank or non-integer id. */
  function ObjectKey(o: MapObject): Option<int> {
    if Trim(o.id) == [] then None else ParseInt(o.id)
  }

  /** The objects stored under their keys, a later object with the same key overwriting. */
  function Index(key: MapObject -> Option<int>, objects: seq<MapObject>): map<int, MapObject>
    decreases |objects|
  {
    if objects == [] then map[]
    else
      var byId := Index(key, objects[..|objects| - 1]);
      var o := objects[|objects| - 1];
      match key(o)
      case None => byId
      case Some(n) => byId[n := o]
  }

  /** objectsById after loadObjects. */
  function ObjectsById(objects: seq<MapObject>): map<int, MapObject> {
    Index(ObjectKey, objects)
  }

  /** loadObjects: one pass over the objects, filling the map. */
  method LoadObjects(objects: seq<MapObject>) returns (byId: map<int, MapObject>)
    ensures byId == ObjectsById(objects)
  {
    byId := map[];
    for i := 0 to |objects|
      invariant byId == ObjectsById(objects[..i])
    {
      assert objects[..i + 1][..i] == objects[..i];
      var o := objects[i];
      if Trim(o.id) != [] {
        var id := ParseInt(o.id);
        if id.Some? {
          byId := byId[id.value := o];
        }
      }
    }
    assert objects[..|objects|] == objects;
  }

  /** A blank id never parses, so the key of an object is its parsed id. */
  lemma ObjectKeyIsParsedId(o: MapObject)
    ensures ObjectKey(o) == ParseInt(o.id)
  {
    if ParseInt(o.id).Some? {
      TrimFacts(o.id);
      assert !IsTrimmed(o.id[|o.id| - 1]);
    }
  }

  /** An integer is a key exactly when some object has it as key. */
  lemma {:induction false} IndexKeys(key: MapObject -> Option<int>, objects: seq<MapObject>, n: int)
    ensures n in Index(key, objects) <==> exists i | 0 <= i < |objects| :: key(objects[i]) == Some(n)
    decreases |objects|
  {
    if objects != [] {
      var last := |objects| - 1;
      var init := objects[..last];
      IndexKeys(key, init, n);
      if n in Index(key, init) {
        var i :| 0 <= i < |init| && key(init[i]) == Some(n);
        assert objects[i] == init[i];
      }
      forall i | 0 <= i < last && key(objects[i]) == Some(n) ensures n in Index(key, init) {
        assert objects[i] == init[i];
      }
    }
  }

  /** The object stored under a key is the last one with that key. */
  lemma {:induction false} IndexLastWins(key: MapObject -> Option<int>, objects: seq<MapObject>, i: int, n: int)
    requires 0 <= i < |objects| && key(objects[i]) == Some(n)
    requires forall j | i < j < |objects| :: key(objects[j]) != Some(n)
    ensures n in Index(key, objects) && Index(key, objects)[n] == objects[i]
    decreases |objects|
  {
    if i < |objects| - 1 {
      IndexLastWins(key, objects[..|objects| - 1], i, n);
    }
  }

  /** An integer is a key exactly when some object's id parses to it; others are skipped. */
  lemma ObjectsByIdKeys(objects: seq<MapObject>, n: int)
    ensures n in ObjectsById(objects) <==> exists i | 0 <= i < |objects| :: ParseInt(objects[i].id) == Some(n)
  {
    forall i | 0 <= i < |objects| ensures ObjectKey(objects[i]) == ParseInt(objects[i].id) {
      ObjectKeyIsParsedId(objects[i]);
    }
    IndexKeys(ObjectKey, objects, n);
  }

  /** The object stored under an integer id is the last one whose id parses to it. */
  lemma ObjectsByIdLastWins(objects: seq<MapObject>, i: int, n: int)
    requires 0 <= i < |objects| && ParseInt(objects[i].id) == Some(n)
    requires forall j | i < j < |objects| :: ParseInt(objects[j].id) != Some(n)
    ensures n in ObjectsById(objects) && ObjectsById(objects)[n] == objects[i]
  {
    forall j | 0 <= j < |objects| ensures ObjectKey(objects[j]) == ParseInt(objects[j].id) {
      ObjectKeyIsParsedId(objects[j]);
    }
    IndexLastWins(ObjectKey, objects, i, n);
  }

  // ---------------------------------------------------------------- identifyOverlays

  /** The path extractGeometry builds for an object. */
  function PathOf(num: Numerics, o: MapObject): Option<Path> {
    GeometryOf(num.parseDouble, o)
  }

  /** The pair identifyOverlays records for the objects at positions i < j, if any. */
  function Candidate(objects: seq<MapObject>, num: Numerics, i: nat, j: nat): Option<OverlapPair> {
    if !(i < j < |objects|) then None
    else PairOf(num, i, j, objects[i], objects[j], PathOf(num, objects[i]), PathOf(num, objects[j]))
  }

  /** The pair recorded for objects o1 at i and o2 at j, given the paths extracted from them. */
  function PairOf(num: Numerics, i: nat, j: nat, o1: MapObject, o2: MapObject, path1: Option<Path>, path2: Option<Path>): Option<OverlapPair> {
    if path1.None? || path2.None? then None
    else
      var size := num.overlapSize(path1.value, path2.value);
      var symbolId1 := ParseInt(o1.symbol);
      var symbolId2 := ParseInt(o2.symbol);
      if size.Some? && size.value > MinOverlap && o1.symbol != o2.symbol && symbolId1.Some? && symbolId2.Some?
      then Some(OverlapPair(i, j, symbolId1.value, symbolId2.value, size.value))
      else None
  }

  /**
   * What every recorded pair satisfies: two distinct objects in document order, an overlap
   * above the threshold, symbol attributes that differ as strings and both parse as integers.
   */
  predicate WellFormed(objects: seq<MapObject>, p: OverlapPair) {
    && p.object1 < p.object2 < |objects|
    && p.overlapSize > MinOverlap
    && objects[p.object1].symbol != objects[p.object2].symbol
    && ParseInt(objects[p.object1].symbol) == Some(p.symbolId1)
    && ParseInt(objects[p.object2].symbol) == Some(p.symbolId2)
  }

  /** A recorded pair is well formed, overlaps by its recorded size, and joins two objects with paths. */
  lemma CandidateWellFormed(objects: seq<MapObject>, num: Numerics, i: nat, j: nat)
    requires Candidate(objects, num, i, j).Some?
    ensures var p := Candidate(objects, num, i, j).value;
      && p.object1 == i && p.object2 == j && WellFormed(objects, p)
      && PathOf(num, objects[i]).Some? && PathOf(num, objects[j]).Some?
      && num.overlapSize(PathOf(num, objects[i]).value, PathOf(num, objects[j]).value) == Some(p.overlapSize)
  {
  }

  /** An object without a path is paired with nothing. */
  lemma CandidateNeedsPath(objects: seq<MapObject>, num: Numerics, i: nat)
    requires i < |objects| && PathOf(num, objects[i]).None?
    ensures forall j :: Candidate(objects, num, i, j).None?
  {
  }

  /** Candidate as a function of the two positions. */
  function Candidates(objects: seq<MapObject>, num: Numerics): (nat, nat) -> Option<OverlapPair> {
    (i: nat, j: nat) => Candidate(objects, num, i, j)
  }

  /** A candidate function names its pair by the two positions it was asked about. */
  ghost predicate Indexed(cand: (nat, nat) -> Option<OverlapPair>) {
    forall i: nat, j: nat :: cand(i, j).Some? ==> cand(i, j).value.object1 == i && cand(i, j).value.object2 == j
  }

  /** The pairs the inner loop has recorded for first object i once it reaches position j. */
  function Row(cand: (nat, nat) -> Option<OverlapPair>, i: nat, j: nat): seq<OverlapPair>
    requires i < j
    decreases j
  {
    if j == i + 1 then []
    else
      var init := Row(cand, i, j - 1);
      match cand(i, j - 1)
      case Some(p) => init + [p]
      case None => init
  }

  /** The pairs the outer loop has recorded, over n objects, before reaching position i. */
  function PairsBefore(cand: (nat, nat) -> Option<OverlapPair>, n: nat, i: nat): seq<OverlapPair>
    requires i <= n
    decreases i
  {
    if i == 0 then [] else PairsBefore(cand, n, i - 1) + Row(cand, i - 1, n)
  }

  /** The overlaps identifyOverlays finds. */
  function Overlaps(objects: seq<MapObject>, num: Numerics): seq<OverlapPair> {
    PairsBefore(Candidates(objects, num), |objects|, |objects|)
  }

  /** One step of the inner loop: position j adds its candidate, if any, to the row. */
  lemma RowStep(objects: seq<MapObject>, num: Numerics, i: nat, j: nat, path1: Path, path2: Option<Path>)
    requires i < j < |objects| && PathOf(num, objects[i]) == Some(path1) && PathOf(num, objects[j]) == path2
    ensures Row(Candidates(objects, num), i, j + 1) ==
      Row(Candidates(objects, num), i, j) +
      (match PairOf(num, i, j, objects[i], objects[j], Some(path1), path2) case Some(p) => [p] case None => [])
  {
    assert Candidates(objects, num)(i, j) == Candidate(objects, num, i, j);
  }

  /** The inner loop of identifyOverlays: the pairs of object i, whose path is path1, with the objects after it. */
  method PairsOf(objects: seq<MapObject>, num: Numerics, i: nat, path1: Path) returns (row: seq<OverlapPair>)
    requires i < |objects| && PathOf(num, objects[i]) == Some(path1)
    ensures row == Row(Candidates(objects, num), i, |objects|)
  {
    row := [];
    for j := i + 1 to |objects|
      invariant row == Row(Candidates(objects, num), i, j)
    {
      var path2 := ExtractGeometry(num.parseDouble, objects[j]);
      RowStep(objects, num, i, j, path1, path2);
      if path2.None? {
        continue;
      }
      var overlap := num.overlapSize(path1, path2.value);
      if overlap.Some? && overlap.value > MinOverlap && objects[i].symbol != objects[j].symbol {
        var symbolId1 := ParseInt(objects[i].symbol);
        var symbolId2 := ParseInt(objects[j].symbol);
        if symbolId1.Some? && symbolId2.Some? {
          row := row + [OverlapPair(i, j, symbolId1.value, symbolId2.value, overlap.value)];
        }
      }
    }
  }

  /** The loops of identifyOverlays: every pair i < j of objects, in that order. */
  method FindOverlaps(objects: seq<MapObject>, num: Numerics) returns (found: seq<OverlapPair>)
    ensures found == Overlaps(objects, num)
  {
    var n := |objects|;
    ghost var cand := Candidates(objects, num);
    found := [];
    for i := 0 to n
      invariant found == PairsBefore(cand, n, i)
    {
      var path1 := ExtractGeometry(num.parseDouble, objects[i]);
      PairsBeforeStep(cand, n, i);
      if path1.None? {
        RowWithoutPath(objects, num, i);
        continue;
      }
      var row := PairsOf(objects, num, i, path1.value);
      found := found + row;
    }
  }

  /** One step of the outer loop: position i adds its row. */
  lemma PairsBeforeStep(cand: (nat, nat) -> Option<OverlapPair>, n: nat, i: nat)
    requires i < n
    ensures PairsBefore(cand, n, i + 1) == PairsBefore(cand, n, i) + Row(cand, i, n)
  {
  }

  /** The row of an object without a path is empty. */
  lemma RowWithoutPath(objects: seq<MapObject>, num: Numerics, i: nat)
    requires i < |objects| && PathOf(num, objects[i]).None?
    ensures Row(Candidates(objects, num), i, |objects|) == []
  {
    CandidateNeedsPath(objects, num, i);
    RowEmpty(Candidates(objects, num), i, |objects|);
  }

  /** A row with no candidates is empty. */
  lemma {:induction false} RowEmpty(cand: (nat, nat) -> Option<OverlapPair>, i: nat, j: nat)
    requires i < j && forall k: nat :: cand(i, k).None?
    ensures Row(cand, i, j) == []
    decreases j
  {
    if j > i + 1 {
      RowEmpty(cand, i, j - 1);
    }
  }

  /** The enumeration order: by first object, then by second. */
  predicate Precedes(p: OverlapPair, q: OverlapPair) {
    p.object1 < q.object1 || (p.object1 == q.object1 && p.object2 < q.object2)
  }

  predicate InEnumerationOrder(ps: seq<OverlapPair>) {
    forall a, b | 0 <= a < b < |ps| :: Precedes(ps[a], ps[b])
  }

  /** Appending a pair that follows every earlier one keeps the enumeration order. */
  lemma OrderExtend(ps: seq<OverlapPair>, q: OverlapPair)
    requires InEnumerationOrder(ps) && forall p | p in ps :: Precedes(p, q)
    ensures InEnumerationOrder(ps + [q])
  {
    var all := ps + [q];
    forall a, b | 0 <= a < b < |all| ensures Precedes(all[a], all[b]) {
      if b < |ps| {
        assert all[a] == ps[a] && all[b] == ps[b];
      } else {
        assert all[a] in ps;
      }
    }
  }

  /** Two ordered runs, every pair of the first before every pair of the second, stay ordered. */
  lemma OrderConcat(ps: seq<OverlapPair>, qs: seq<OverlapPair>)
    requires InEnumerationOrder(ps) && InEnumerationOrder(qs)
    requires forall p, q | p in ps && q in qs :: Precedes(p, q)
    ensures InEnumerationOrder(ps + qs)
  {
    var all := ps + qs;
    forall a, b | 0 <= a < b < |all| ensures Precedes(all[a], all[b]) {
      if b < |ps| {
        assert all[a] == ps[a] && all[b] == ps[b];
      } else if a >= |ps| {
        assert all[a] == qs[a - |ps|] && all[b] == qs[b - |ps|];
      } else {
        assert all[a] in ps && all[b] in qs;
      }
    }
  }

  /** The row of i holds exactly the candidates (i, k) for k below j, in increasing k. */
  lemma {:induction false} RowMembers(cand: (nat, nat) -> Option<OverlapPair>, i: nat, j: nat)
    requires Indexed(cand) && i < j
    ensures forall p | p in Row(cand, i, j) :: p.object1 == i && i < p.object2 < j && cand(i, p.object2) == Some(p)
    ensures forall k: nat | i < k < j && cand(i, k).Some? :: cand(i, k).value in Row(cand, i, j)
    ensures InEnumerationOrder(Row(cand, i, j))
    decreases j
  {
    if j > i + 1 {
      RowMembers(cand, i, j - 1);
      var c := cand(i, j - 1);
      if c.Some? {
        OrderExtend(Row(cand, i, j - 1), c.value);
      }
    }
  }

  /** Everything recorded before position i has a first object below i, and the order holds. */
  lemma {:induction false} PairsBeforeMembers(cand: (nat, nat) -> Option<OverlapPair>, n: nat, i: nat)
    requires Indexed(cand) && i <= n
    ensures forall p | p in PairsBefore(cand, n, i) ::
      p.object1 < i && p.object1 < p.object2 < n && cand(p.object1, p.object2) == Some(p)
    ensures forall a: nat, b: nat | a < i && a < b < n && cand(a, b).Some? :: cand(a, b).value in PairsBefore(cand, n, i)
    ensures InEnumerationOrder(PairsBefore(cand, n, i))
    decreases i
  {
    if i > 0 {
      PairsBeforeMembers(cand, n, i - 1);
      RowMembers(cand, i - 1, n);
      OrderConcat(PairsBefore(cand, n, i - 1), Row(cand, i - 1, n));
    }
  }

  /**
   * identifyOverlays records exactly the candidates (i, j) with i < j, each once, in
   * enumeration order; so no object is paired with itself, every pair is well formed, and
   * two objects with the same symbol attribute are never paired.
   */
  lemma OverlapsSpec(objects: seq<MapObject>, num: Numerics)
    ensures forall p | p in Overlaps(objects, num) ::
      Candidate(objects, num, p.object1, p.object2) == Some(p) && WellFormed(objects, p)
    ensures forall i: nat, j: nat | Candidate(objects, num, i, j).Some? ::
      Candidate(objects, num, i, j).value in Overlaps(objects, num)
    ensures InEnumerationOrder(Overlaps(objects, num))
  {
    var cand := Candidates(objects, num);
    forall i: nat, j: nat | cand(i, j).Some? ensures cand(i, j).value.object1 == i && cand(i, j).value.object2 == j {
      CandidateWellFormed(objects, num, i, j);
    }
    PairsBeforeMembers(cand, |objects|, |objects|);
    forall p | p in Overlaps(objects, num) ensures WellFormed(objects, p) {
      CandidateWellFormed(objects, num, p.object1, p.object2);
    }
    forall i: nat, j: nat | Candidate(objects, num, i, j).Some?
      ensures Candidate(objects, num, i, j).value in Overlaps(objects, num)
    {
      assert cand(i, j) == Candidate(objects, num, i, j);
    }
  }

  /** Every pair identifyOverlays finds is well formed. */
  lemma OverlapsWellFormed(objects: seq<MapObject>, num: Numerics)
    ensures forall p | p in Overlaps(objects, num) :: WellFormed(objects, p)
  {
    OverlapsSpec(objects, num);
  }

  /** Enumeration order rules out duplicates: no two pairs join the same two objects. */
  lemma OrderedPairsDistinct(ps: seq<OverlapPair>)
    requires InEnumerationOrder(ps)
    ensures forall a, b | 0 <= a < b < |ps| :: ps[a].object1 != ps[b].object1 || ps[a].object2 != ps[b].object2
  {
    forall a, b | 0 <= a < b < |ps| ensures ps[a].object1 != ps[b].object1 || ps[a].object2 != ps[b].object2 {
      assert Precedes(ps[a], ps[b]);
    }
  }

  /** identifyOverlays never records the same pair of objects twice. */
  lemma OverlapsDistinct(objects: seq<MapObject>, num: Numerics)
    ensures var ps := Overlaps(objects, num);
      forall a, b | 0 <= a < b < |ps| :: ps[a].object1 != ps[b].object1 || ps[a].object2 != ps[b].object2
  {
    OverlapsSpec(objects, num);
    OrderedPairsDistinct(Overlaps(objects, num));
  }

  // ---------------------------------------------------------------- getObjectsToHide

  /** decideVisibility: the object to hide, the one whose symbol has the lower priority, object2 on a tie. */
  function DecideVisibility(priorities: map<string, int>, p: OverlapPair): (hidden: nat)
    ensures hidden == p.object1 || hidden == p.object2
    ensures p.object1 != p.object2 ==>
      (hidden == p.object1 <==> PriorityOf(priorities, p.symbolId1) < PriorityOf(priorities, p.symbolId2))
  {
    if PriorityOf(priorities, p.symbolId1) >= PriorityOf(priorities, p.symbolId2) then p.object2 else p.object1
  }

  /**
   * The hidden object is one of the pair, and its priority is at most the other's; object1
   * is hidden exactly when its priority is strictly lower, so a tie hides object2.
   */
  lemma DecideVisibilityHidesLower(priorities: map<string, int>, p: OverlapPair)
    requires p.object1 != p.object2
    ensures var hidden := DecideVisibility(priorities, p);
      && (hidden == p.object1 || hidden == p.object2)
      && (hidden == p.object1 <==> PriorityOf(priorities, p.symbolId1) < PriorityOf(priorities, p.symbolId2))
      && (hidden == p.object1 ==> PriorityOf(priorities, p.symbolId1) <= PriorityOf(priorities, p.symbolId2))
      && (hidden == p.object2 ==> PriorityOf(priorities, p.symbolId2) <= PriorityOf(priorities, p.symbolId1))
  {
  }

  /** checkSmallObject: symbols strictly between 43 and 65 or strictly between 0 and 19 are never hidden. */
  predicate CheckSmallObject(o: MapObject): (small: bool)
    requires ParseInt(o.symbol).Some?
    ensures small <==> ParseInt(o.symbol).value in SmallSymbolIds
  {
    var symbolId := ParseInt(o.symbol).value;
    (43 < symbolId < 65) || (0 < symbolId < 19)
  }

  /** The exempt symbol ids, written out as the two closed ranges 1..18 and 44..64. */
  const SmallSymbolIds: set<int> := (set k | 1 <= k <= 18) + (set k | 44 <= k <= 64)

  /** A pair getObjectsToHide skips: the same object twice, or two equal integer symbol ids. */
  predicate SkippedPair(p: OverlapPair) {
    p.object1 == p.object2 || p.symbolId2 == p.symbolId1
  }

  /**
   * The objects checkSmallObject exempts. Every member of a recorded pair has an integer
   * symbol, so the guard only names the positions where checkSmallObject is defined.
   */
  function SmallObjects(objects: seq<MapObject>): nat -> bool {
    (h: nat) => h < |objects| && ParseInt(objects[h].symbol).Some? && CheckSmallObject(objects[h])
  }

  /** The set getObjectsToHide collects from a list of pairs, given the exempt objects. */
  function HideSet(priorities: map<string, int>, exempt: nat -> bool, pairs: seq<OverlapPair>): set<nat>
    decreases |pairs|
  {
    if pairs == [] then {}
    else
      var init := HideSet(priorities, exempt, pairs[..|pairs| - 1]);
      var p := pairs[|pairs| - 1];
      if SkippedPair(p) then init
      else
        var hidden := DecideVisibility(priorities, p);
        if exempt(hidden) then init else init + {hidden}
  }

  /** Pair p hides object h: p is not skipped, h loses it, and h is not exempt. */
  predicate HiddenBy(priorities: map<string, int>, exempt: nat -> bool, p: OverlapPair, h: nat) {
    !SkippedPair(p) && DecideVisibility(priorities, p) == h && !exempt(h)
  }

  /** An object is hidden exactly when some pair hides it. */
  lemma {:induction false} HideSetMembers(priorities: map<string, int>, exempt: nat -> bool, pairs: seq<OverlapPair>, h: nat)
    ensures h in HideSet(priorities, exempt, pairs) <==> exists k | 0 <= k < |pairs| :: HiddenBy(priorities, exempt, pairs[k], h)
    decreases |pairs|
  {
    if pairs != [] {
      var last := |pairs| - 1;
      var init := pairs[..last];
      HideSetMembers(priorities, exempt, init, h);
      if h in HideSet(priorities, exempt, init) {
        var k :| 0 <= k < |init| && HiddenBy(priorities, exempt, init[k], h);
        assert init[k] == pairs[k];
      }
      if exists k | 0 <= k < last :: HiddenBy(priorities, exempt, pairs[k], h) {
        var k :| 0 <= k < last && HiddenBy(priorities, exempt, pairs[k], h);
        assert init[k] == pairs[k];
      }
    }
  }

  /**
   * Every object getObjectsToHide hides belongs to the document, is not a small object, and
   * lost a pair with a different integer symbol: its priority is at most that of the object
   * it overlaps, strictly below it when it is the pair's first object.
   */
  lemma HiddenObjectsLost(priorities: map<string, int>, objects: seq<MapObject>, pairs: seq<OverlapPair>, h: nat)
    requires forall p | p in pairs :: WellFormed(objects, p)
    requires h in HideSet(priorities, SmallObjects(objects), pairs)
    ensures h < |objects| && ParseInt(objects[h].symbol).Some? && !CheckSmallObject(objects[h])
    ensures exists k | 0 <= k < |pairs| ::
      && pairs[k].symbolId1 != pairs[k].symbolId2
      && ((h == pairs[k].object1 && PriorityOf(priorities, pairs[k].symbolId1) < PriorityOf(priorities, pairs[k].symbolId2)) ||
          (h == pairs[k].object2 && PriorityOf(priorities, pairs[k].symbolId2) <= PriorityOf(priorities, pairs[k].symbolId1)))
  {
    HideSetMembers(priorities, SmallObjects(objects), pairs, h);
    var k :| 0 <= k < |pairs| && HiddenBy(priorities, SmallObjects(objects), pairs[k], h);
    assert pairs[k] in pairs;
    DecideVisibilityHidesLower(priorities, pairs[k]);
  }

  // ---------------------------------------------------------------- the handler

  class OverlayHandler {
    /** The document's symbols and objects, which the handler only reads. */
    const symbols: seq<Symbol>
    const objects: seq<MapObject>
    const numerics: Numerics
    var symbolPriorities: map<string, int>
    var objectsById: map<int, MapObject>
    var overlaps: seq<OverlapPair>

    /** The maps are those the constructor loaded, and every recorded pair is well formed. */
    ghost predicate Valid()
      reads this
    {
      && symbolPriorities == Catalog(symbols)
      && objectsById == ObjectsById(objects)
      && forall p | p in overlaps :: WellFormed(objects, p)
    }

    /** new OverlayHandler(document): loads the symbol priorities and the objects by id. */
    constructor(document: Document, numerics: Numerics)
      ensures symbols == document.symbols && objects == AllObjects(document) && this.numerics == numerics
      ensures symbolPriorities == Catalog(symbols) && objectsById == ObjectsById(objects)
      ensures overlaps == []
      ensures Valid()
    {
      symbols := document.symbols;
      objects := AllObjects(document);
      this.numerics := numerics;
      var priorities := LoadSymbolPriorities(document.symbols);
      var byId := LoadObjects(AllObjects(document));
      symbolPriorities := priorities;
      objectsById := byId;
      overlaps := [];
    }

    /** identifyOverlays: appends the overlapping pairs, in enumeration order. */
    method IdentifyOverlays()
      requires Valid()
      modifies this
      ensures overlaps == old(overlaps) + Overlaps(objects, numerics)
      ensures symbolPriorities == old(symbolPriorities) && objectsById == old(objectsById)
      ensures Valid()
    {
      var found := FindOverlaps(objects, numerics);
      OverlapsWellFormed(objects, numerics);
      overlaps := overlaps + found;
    }

    /** getObjectsToHide: the hidden objects, each once, in no particular order. */
    method GetObjectsToHide() returns (toHide: seq<nat>)
      requires Valid()
      ensures forall a, b | 0 <= a < b < |toHide| :: toHide[a] != toHide[b]
      ensures forall h :: h in toHide <==> h in HideSet(symbolPriorities, SmallObjects(objects), overlaps)
    {
      var hidden: set<nat> := {};
      for k := 0 to |overlaps|
        invariant hidden == HideSet(symbolPriorities, SmallObjects(objects), overlaps[..k])
      {
        assert overlaps[..k + 1][..k] == overlaps[..k];
        var overlap := overlaps[k];
        assert overlap in overlaps;
        if overlap.object1 == overlap.object2 || overlap.symbolId2 == overlap.symbolId1 {
          continue;
        }
        var lower := DecideVisibility(symbolPriorities, overlap);
        if !CheckSmallObject(objects[lower]) {
          hidden := hidden + {lower};
        }
      }
      assert overlaps[..|overlaps|] == overlaps;
      // new ArrayList<>(objectsToHide): the set's elements in its iteration order.
      toHide := [];
      var rest := hidden;
      while rest != {}
        invariant rest !! (set h | h in toHide)
        invariant hidden == rest + (set h | h in toHide)
        invariant forall a, b | 0 <= a < b < |toHide| :: toHide[a] != toHide[b]
        decreases rest
      {
        var h :| h in rest;
        toHide := toHide + [h];
        rest := rest - {h};
      }
    }
  }
}
