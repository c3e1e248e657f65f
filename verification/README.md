# Overlay resolution and symbol filtering for orienteering maps

This project models the core of RP, a tool that filters OpenOrienteering Mapper map files.
It has two parts.

- **The overlay handler** (`RP/src/OverlayHandler.java`):
  - gives every symbol of the map a priority from keywords in its name and from its geometry;
  - reads the outline of every map object from its `<coords>` text;
  - finds the pairs of objects whose symbol attributes differ as strings and both parse as integers, and whose outlines intersect with a bounding rectangle of area above 100 (so "7" and "007", the same symbol id, can still be paired);
  - decides, pair by pair, which object to hide. The lower priority loses, the second object loses a tie, and objects of a few small point-symbol ranges are never hidden.
- **The filter** (`RP/src/FilterObjects.java`):
  - maps the user's symbol names, in any case, to symbol ids;
  - copies into a new map every object whose symbol attribute is an integer not among the excluded ids, counting the excluded ones and setting the wrapper's `count`; objects with an empty or non-integer symbol are dropped without being counted;
  - optionally removes from that copy the objects that share a symbol with an object the overlay handler hides.

The XML document is replaced by plain records (`MapDocument`). A symbol is its `id` and `name` attributes and two flags for point and line geometry. An object is its `id` and `symbol` attributes and its coords text. An attribute the element lacks is the empty string, as `getAttribute` returns.

The Java library behaviour the code relies on is written out in `JavaText`:
- `Integer.parseInt` on ASCII digits and the 32-bit `int` range;
- `String.valueOf(int)`, `trim`, ASCII `toLowerCase` and `contains`;
- `split(";")`, which drops trailing empty pieces;
- `trim().split("\\s+")`.

Floating point stays abstract. `Double.parseDouble` and the size `getAreaSize` reports for the intersection of two `java.awt.geom.Area`s are parameters (`Overlay.Numerics`).

Modules:
- **`Priority`**: the catalog of `loadSymbolPriorities` and `calculatePriority`.
- **`Geometry`**: `extractGeometry`, both as written and corrected (see Findings).
- **`Overlay`**: the `OverlayHandler` class with `loadObjects`, `identifyOverlays`, `decideVisibility`, `checkSmallObject` and `getObjectsToHide`.
- **`Filter`**: the `FilterObjects` class with `filterObjects`, `filter` and `removeOverlappingObjects`.

Each loop of the source is a method proved equal to a specification function. The properties of the source are lemmas about those functions.

## Behaviour of the code worth knowing

- **Keyword order.** The keyword groups are tested in this order, and the first match decides:
  building/tower (90), water/lake/pond (80), path/road/track/area (85), forest/vegetation/"vineyard" (30), open/field (20), contour/slope (70), index (75). So water beats road, and forest or open beat contour and index. "vineyard" matches only a name equal to it, not a name containing it.
- **Removal by symbol.** The removal step removes every copied object whose *symbol attribute* equals that of some hidden object (`FilterObjects.java:167` and `:178-180`), not the hidden objects by their own id. It runs as a second pass over the copied objects, after the copy loop.
- **An uncaught exception.** `extractGeometry` can throw an uncaught `ArrayIndexOutOfBoundsException` (see Findings).
- **Unknown symbols are still paired.** A pair is recorded whenever both symbol attributes parse as integers and differ as strings. The symbols need not be in the catalog; an unknown symbol then has priority 0 when visibility is decided.
- **Coordinate tokens.** Coordinates are split on `;` into points, and each point on whitespace into fields. The first two fields are read and any further fields are ignored.

## Model

| member | source | states |
|---|---|---|
| Priority.BasePriority | RP/src/OverlayHandler.java:78-92 | the keyword cascade yields one of 90, 80, 85, 30, 20, 70, 75, or the default 50 |
| Priority.CalculatePriority | RP/src/OverlayHandler.java:74-107 | every computed priority lies in [0,100] |
| Priority.CalculatePriorityOfLowered | RP/src/OverlayHandler.java:74-77 | lowercasing the already lowercased name again does not change the priority |
| Priority.BonusesAdditive | RP/src/OverlayHandler.java:94-104 | the priority is the keyword priority plus 5 for point geometry plus 3 for line geometry, independently; it lies in [20,98], so the clamp never binds |
| Priority.BuildingOrTowerFirst | RP/src/OverlayHandler.java:78-79 | a name containing "building" or "tower" gets 90 whatever else it contains |
| Priority.WaterBeforeRoad | RP/src/OverlayHandler.java:78-83 | a name containing both "water" and "road" (and no building keyword) gets 80, not 85 |
| Priority.VineyardByEquality | RP/src/OverlayHandler.java:84-85 | a name that lowercases to "vineyard" gets 30 |
| Priority.VineyardOnlyByEquality | RP/src/OverlayHandler.java:78-92 | for every lowercased name without another keyword, the keyword priority is 30 exactly when the name equals "vineyard", and 50 otherwise, even when it contains "vineyard" |
| Priority.VineyardNotByContainment | RP/src/OverlayHandler.java:84-92 | an instance: "vineyard fence" contains "vineyard" yet keeps the default 50 |
| Priority.Store | RP/src/OverlayHandler.java:56-69 | one symbol adds its key, with its priority, only when its id is an integer; every other entry keeps its value |
| Priority.LoadSymbolPriorities | RP/src/OverlayHandler.java:48-72 | the loop builds exactly the catalog of the symbols, later symbols overwriting earlier ones |
| Priority.CatalogKeyIffInteger | RP/src/OverlayHandler.java:56-64 | a symbol enters the catalog exactly when its id parses as an int, under String.valueOf of that int; blank ids never do |
| Priority.CatalogKeys | RP/src/OverlayHandler.java:48-72 | the keys of the catalog are exactly the keys of the symbols with integer ids |
| Priority.CatalogInRange | RP/src/OverlayHandler.java:68-69 | every stored priority lies in [0,100] |
| Priority.CatalogLastWins | RP/src/OverlayHandler.java:69 | the priority stored under a key is that of the last symbol with that key |
| Priority.PriorityOfLookup | RP/src/OverlayHandler.java:216-217 | looking up an int symbol id gives the priority of the last symbol whose id parses to it, and 0 when none does |
| Priority.PriorityOfInRange | RP/src/OverlayHandler.java:216-217 | every lookup, known or unknown, gives a priority in [0,100] |
| JavaText.ParseInt | RP/src/OverlayHandler.java:63 | a parsed value is a 32-bit int, read from a string ending in a digit |
| JavaText.ToLowerIdempotent | RP/src/OverlayHandler.java:66-76 | lowercasing twice is lowercasing once |
| JavaText.ContainsIffOccurs | RP/src/OverlayHandler.java:78-92 | contains holds exactly when the keyword occurs at some offset of the name |
| JavaText.TrimFacts | RP/src/OverlayHandler.java:56 | trim keeps the piece of s starting at Leading(s); every character removed before or after it is at most U+0020, the piece neither starts nor ends with one, and it is empty exactly when every character is one |
| JavaText.ParseIntOfIntToString | RP/src/OverlayHandler.java:69 | Integer.parseInt reads back every int String.valueOf writes |
| JavaText.IntToStringInjective | RP/src/OverlayHandler.java:216-217 | distinct ints have distinct String.valueOf keys, so the string-keyed catalog behaves as an int-keyed one |
| JavaText.PiecesJoin | RP/src/OverlayHandler.java:180 | the pieces between the semicolons, joined back with semicolons, give the original text |
| JavaText.SplitLacksDelimiter | RP/src/OverlayHandler.java:180 | no coordinate token holds a semicolon |
| JavaText.Fields | RP/src/OverlayHandler.java:186 | splitting a token on whitespace yields at least one field, so parts[0] always exists |
| MapDocument.FlattenMembers | RP/src/OverlayHandler.java:127-128 | the object list the handler reads holds exactly the objects of every part |
| Geometry.Polyline | RP/src/OverlayHandler.java:192-197 | one segment per point read |
| Geometry.ExtractGeometry | RP/src/OverlayHandler.java:174-205 | the loop with its started flag returns exactly the path GeometryOf describes: none without coords or without a point, else a move, line-tos and a close |
| Geometry.BadTokenSkipped | RP/src/OverlayHandler.java:186-200 | a token that does not hold two numbers is skipped without disturbing the points around it |
| Geometry.PointsAppend | RP/src/OverlayHandler.java:185-200 | points are read token by token in document order |
| Geometry.GeometryExists | RP/src/OverlayHandler.java:174-205 | a path is returned exactly when the object has coords and some token holds two numbers |
| Geometry.GeometryShape | RP/src/OverlayHandler.java:192-203 | a returned path starts with a move, ends with a close, and has only line-tos in between |
| Geometry.GeometryVertices | RP/src/OverlayHandler.java:185-204 | the path visits exactly the parsed points, in document order |
| Geometry.ScanTokenAgrees | RP/src/OverlayHandler.java:186-199 | a token makes the source throw exactly when its first field is a number and it has no second field; otherwise the source reads the point the corrected reading does |
| Geometry.ScanTokensAgrees | RP/src/OverlayHandler.java:185-200 | the source's loop crashes exactly when some token throws, and otherwise reads the same points |
| Geometry.AsWrittenAgreesWithoutLoneNumbers | RP/src/OverlayHandler.java:174-205 | when no token is a lone number, extractGeometry as written returns the corrected result |
| Geometry.ExtractAsWritten | RP/src/OverlayHandler.java:174-205 | extractGeometry as written crashes exactly when some coordinate token throws `ArrayIndexOutOfBoundsException`, and otherwise returns the corrected path |
| Geometry.LoneNumberCrashes | RP/src/OverlayHandler.java:186-190 | the coords text "5" crashes extractGeometry as written, where the corrected version returns no path |
| Overlay.LoadObjects | RP/src/OverlayHandler.java:110-124 | the loop builds exactly objectsById, later objects overwriting earlier ones with the same id |
| Overlay.ObjectKeyIsParsedId | RP/src/OverlayHandler.java:115-117 | the blank-id guard changes nothing: an object is stored under its parsed id |
| Overlay.ObjectsByIdKeys | RP/src/OverlayHandler.java:110-124 | an int is a key exactly when some object's id parses to it; non-integer ids are skipped |
| Overlay.ObjectsByIdLastWins | RP/src/OverlayHandler.java:117 | the object stored under an id is the last one with that id |
| Overlay.CandidateWellFormed | RP/src/OverlayHandler.java:153-165 | a recorded pair joins i < j, both with paths, with the reported overlap size above 100, and with symbol attributes that differ as strings and both parse as ints |
| Overlay.CandidateNeedsPath | RP/src/OverlayHandler.java:133-135 | an object without a path is paired with nothing |
| Overlay.PairsOf | RP/src/OverlayHandler.java:139-168 | the inner loop records exactly the row of candidates of object i |
| Overlay.FindOverlaps | RP/src/OverlayHandler.java:130-169 | the nested loops record exactly the overlaps of all pairs i < j, row by row |
| Overlay.RowMembers | RP/src/OverlayHandler.java:139-168 | a row holds exactly the candidates (i, k) with k below the loop bound, in increasing k |
| Overlay.PairsBeforeMembers | RP/src/OverlayHandler.java:130-169 | after the outer loop reaches i, exactly the candidates with first object below i are recorded, in enumeration order |
| Overlay.OverlapsSpec | RP/src/OverlayHandler.java:126-172 | every recorded pair is a well-formed candidate, every candidate is recorded, and the list is in (i, j) enumeration order |
| Overlay.OverlapsWellFormed | RP/src/OverlayHandler.java:153-165 | every recorded pair is well formed: no object is paired with itself, and no same-symbol pair is recorded |
| Overlay.OverlapsDistinct | RP/src/OverlayHandler.java:130-165 | identifyOverlays never records two pairs of the same two objects |
| Overlay.OrderedPairsDistinct | RP/src/OverlayHandler.java:130-139 | a list in enumeration order never holds two pairs of the same two objects |
| Overlay.DecideVisibility | RP/src/OverlayHandler.java:215-224 | the object returned is one of the pair; for two distinct objects it is object1 exactly when object1's symbol has the strictly lower priority |
| Overlay.CheckSmallObject | RP/src/OverlayHandler.java:226-235 | an object with an int symbol is small exactly when its symbol id lies in 1..18 or 44..64; 0, 19, 43 and 65 are not small |
| Overlay.DecideVisibilityHidesLower | RP/src/OverlayHandler.java:215-224 | the hidden object is one of the pair with priority at most the other's; object1 is hidden exactly when its priority is strictly lower, so a tie hides object2 |
| Overlay.HideSetMembers | RP/src/OverlayHandler.java:237-255 | an object is in the hide set exactly when some non-skipped pair makes it the loser and it is not a small object |
| Overlay.HiddenObjectsLost | RP/src/OverlayHandler.java:226-255 | every hidden object exists, has an int symbol outside (43,65) and (0,19), and lost a pair with two different int symbols |
| Overlay.OverlayHandler.constructor | RP/src/OverlayHandler.java:37-46 | the handler starts with the loaded priority catalog, the objects by id, and no overlaps |
| Overlay.OverlayHandler.IdentifyOverlays | RP/src/OverlayHandler.java:126-172 | appends exactly the overlaps found, in enumeration order, and leaves both maps unchanged |
| Overlay.OverlayHandler.GetObjectsToHide | RP/src/OverlayHandler.java:237-255 | returns each object of the hide set exactly once, in an arbitrary order; checkSmallObject is only asked about objects with int symbols |
| Filter.BuildSymbolMap | RP/src/FilterObjects.java:44-64 | the loop builds exactly the lowercased-name map of the symbols |
| Filter.SymbolMapKeys | RP/src/FilterObjects.java:55-61 | a lowercased name is a key exactly when some symbol with a non-empty name and an int id has that name, in any case |
| Filter.SymbolMapLastWins | RP/src/FilterObjects.java:57 | a later symbol with the same lowercased name overwrites an earlier one |
| Filter.CollectIdsToFilter | RP/src/FilterObjects.java:66-71 | the loop builds exactly the ids of the names to filter |
| Filter.IdsToFilterMembers | RP/src/FilterObjects.java:66-71 | an id is excluded exactly when some name, lowercased, maps to it; unknown names add nothing |
| Filter.MatchIgnoresCase | RP/src/FilterObjects.java:57-69 | a name excludes the id of the last symbol whose name equals it ignoring case |
| Filter.CopyObjects | RP/src/FilterObjects.java:119-150 | the copy loop copies exactly the kept objects in order, counts them, and counts the deleted ones |
| Filter.FatesPartition | RP/src/FilterObjects.java:122-150 | every object is exactly one of kept, deleted, or silently dropped |
| Filter.KeptAndDeleted | RP/src/FilterObjects.java:128-148 | an object is copied exactly when its symbol is a non-excluded int, and counted as deleted exactly when it is an excluded int |
| Filter.RefilterChangesNothing | RP/src/FilterObjects.java:122-152 | filtering the result again with the same ids keeps everything and deletes nothing |
| Filter.NothingExcluded | RP/src/FilterObjects.java:136-148 | with no ids, every object with an int symbol is kept and none is deleted |
| Filter.HiddenSymbolsMembers | RP/src/FilterObjects.java:165-171 | idsToHide holds exactly the non-empty symbol attributes of the objects to hide |
| Filter.CollectHiddenSymbols | RP/src/FilterObjects.java:165-171 | the loop builds exactly idsToHide |
| Filter.RemoveHidden | RP/src/FilterObjects.java:173-188 | the objects with a hidden symbol are removed, the rest keep their order, and the count returned is the number removed |
| Filter.RemovalBySymbol | RP/src/FilterObjects.java:176-188 | an object survives exactly when its symbol is empty or no object to hide shares it |
| Filter.RemovalTakesSameSymbol | RP/src/FilterObjects.java:167-182 | hiding one object of symbol 101 also removes another object of symbol 101 |
| Filter.HiddenSymbolsAt | RP/src/FilterObjects.java:165-171 | the symbols to hide do not depend on the order of the list of objects to hide |
| Filter.FilterObjects.constructor | RP/src/FilterObjects.java:21-36 | the counters start at 0, and the overlay handler exists exactly when overlays are handled |
| Filter.FilterObjects.Plain | RP/src/FilterObjects.java:39-41 | the two-argument constructor neither handles nor removes overlays |
| Filter.FilterObjects.Filter | RP/src/FilterObjects.java:89-160 | without an objects element nothing changes; otherwise the kept objects are copied in order, objsDeleted grows by the number excluded, and count is the number kept |
| Filter.FilterObjects.RemoveOverlappingObjects | RP/src/FilterObjects.java:162-201 | the objects sharing a symbol with an object to hide are removed, count drops by their number, and that number is returned |
| Filter.FilterObjects.RemoveHiddenOverlays | RP/src/FilterObjects.java:80-85 | the result loses exactly the objects sharing a symbol with an object of the handler's hide set, and overlaysHandled is their number |
| Filter.FilterObjects.Run | RP/src/FilterObjects.java:43-87 | filterObjects: the result is the copied objects, minus the objects sharing a symbol with a hidden object when overlays are removed; overlaysHandled counts those |

## Left out

- XML parsing, `importNode` and serialization (`saveDoc`): library I/O. The document is the records of `MapDocument`, and the result map is the filter's `kept` sequence and `count` attribute.
- The output boilerplate (`appendGeoreferencingAndColors`, `appendBarrierAndSymbols`, `appendTemplatesAndView`): constant document formatting.
- The `java.awt.geom` `Area`/`Path2D` intersection and the bounding-box size of `getAreaSize`: floating-point geometry. `Numerics.overlapSize` stands for them, and `Double.parseDouble` is `Numerics.parseDouble`.
- The property that permuting the objects yields the same unordered pairs: it depends on the `Area` intersection being symmetric, which the abstract `overlapSize` does not promise.
- `System.out`/`System.err` logging, `OverlapPair.toString`, and the console of `Main`.
- The getters `getOverlaps` and `getSymbolPriorities`: plain field reads (`Overlay.OverlayHandler.overlaps`, `symbolPriorities`).
- `<object>` and `<symbol>` elements nested inside symbol definitions are not part of this model. The document is its flat list of symbols and its `<objects>` elements, and `getElementsByTagName` is taken to see only those.
- Objects are identified by their position in the document's object list, which stands for DOM element identity.
- `Overlay.OverlayHandler.GetObjectsToHide`: the order of the returned list comes from `HashSet` iteration. The model makes an arbitrary choice and states only which objects the list holds.
- `String.toLowerCase` is modelled for ASCII letters only; other characters are kept as they are. A default locale other than Turkish is assumed: under a Turkish locale "BUILDING" lowercases to "buıldıng", which contains no keyword and matches no name "building" in the filter.
- JavaText.ParseInt: accepts ASCII decimal digits only. `Integer.parseInt` reads any Unicode decimal digit (via `Character.digit`), so an id such as "١٢" is 12 in the source and is skipped in the model.
- Overlay.OverlayHandler.IdentifyOverlays: uses the corrected extractGeometry, which skips a lone-number coordinate token. The source throws `ArrayIndexOutOfBoundsException` there and aborts identifyOverlays (see Findings).
- `objsDeleted`, `overlaysHandled` and `count` are unbounded integers. In one run each stays below the number of objects, which the model bounds by `Integer.MAX_VALUE`, so `int` overflow cannot arise.

## Findings

| source | as written | input that shows it | evidently intended | confidence | as-written member | corrected member |
|---|---|---|---|---|---|---|
| RP/src/OverlayHandler.java:186-199 | the loop catches only `NumberFormatException`. A token whose first field is a number and that has no second field makes `parts[1]` throw `ArrayIndexOutOfBoundsException`, which escapes `extractGeometry` and `identifyOverlays` | an object whose coords text is `5`, with `parseDouble("5")` a number | skip the token like any other bad coordinate, as the warning message says | not executed; `Main` builds the filter with the two-argument constructor, which never handles overlays, and swallows every exception | Geometry.LoneNumberCrashes | Geometry.ExtractGeometry |

`Geometry.ExtractAsWritten` models the code as written. `Geometry.ScanTokensAgrees` proves it crashes exactly on such tokens and agrees with the corrected `Geometry.GeometryOf` everywhere else. The rest of the model uses the corrected reading.
