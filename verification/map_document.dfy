/**
 * The parsed map document the filter works on. DOM elements become records whose
 * attributes are strings ("" where the attribute is absent, as getAttribute returns).
 */
module MapDocument {
  import opened Wrappers

  /**
   * A <symbol> element: its id and name attributes, and whether it has a point_symbol or
   * point descendant, and a line_symbol or line descendant.
   */
  datatype Symbol = Symbol(id: string, name: string, hasPointGeometry: bool, hasLineGeometry: bool)

  /**
   * An <object> element: its id and symbol attributes and the text of its first <coords>
   * descendant, None when it has none.
   */
  datatype MapObject = MapObject(id: string, symbol: string, coords: Option<string>)

  /**
   * The document: its <symbol> elements in document order, and for each <objects>
   * element in document order the <object> elements it holds.
   */
  datatype Document = Document(symbols: seq<Symbol>, parts: seq<seq<MapObject>>)

  /** The concatenation of the parts: every <object> element in document order. */
  function Flatten(parts: seq<seq<MapObject>>): (r: seq<MapObject>)
    decreases |parts|
  {
    if parts == [] then [] else Flatten(parts[..|parts| - 1]) + parts[|parts| - 1]
  }

  /** What getElementsByTagName("object") yields. */
  function AllObjects(d: Document): seq<MapObject> {
    Flatten(d.parts)
  }

  /** Every object of every part appears in the flattened list, and nothing else does. */
  lemma {:induction false} FlattenMembers(parts: seq<seq<MapObject>>, o: MapObject)
    ensures o in Flatten(parts) <==> exists p | 0 <= p < |parts| :: o in parts[p]
    decreases |parts|
  {
    if parts != [] {
      var init := parts[..|parts| - 1];
      FlattenMembers(init, o);
      if o in Flatten(init) {
        var p :| 0 <= p < |init| && o in init[p];
        assert o in parts[p];
      }
      if exists p | 0 <= p < |parts| :: o in parts[p] {
        var p :| 0 <= p < |parts| && o in parts[p];
        if p < |parts| - 1 {
          assert o in init[p];
        }
      }
    }
  }
}
