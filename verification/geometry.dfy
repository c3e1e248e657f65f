/**
 * extractGeometry of OverlayHandler: the text of an object's <coords> element becomes a
 * closed Path2D through the points it lists. Double.parseDouble is a parameter.
 */
module Geometry {
  import opened Wrappers
  import opened JavaText
  import opened MapDocument

  datatype Point = Point(x: real, y: real)

  /** The Path2D operations extractGeometry issues. */
  datatype Segment = MoveTo(p: Point) | LineTo(p: Point) | ClosePath

  type Path = seq<Segment>

  /** Double.parseDouble: a value, or None for a NumberFormatException. */
  type NumberParser = string -> Option<real>

  /** coordsText.trim().split(";"): one token per point. */
  function PointTokens(coords: string): seq<string> {
    Split(Trim(coords), ';')
  }

  /**
   * The point a token denotes: its first two whitespace-separated fields, both numbers.
   * A token with fewer fields or a field that is not a number denotes none and is skipped.
   */
  function PointOf(parse: NumberParser, token: string): Option<Point> {
    var parts := Fields(token);
    if |parts| < 2 then None
    else match (parse(parts[0]), parse(parts[1]))
      case (Some(x), Some(y)) => Some(Point(x, y))
      case _ => None
  }

  /** The values read from the tokens, in order, leaving out the tokens read as None. */
  function Collect<T>(read: string -> Option<T>, tokens: seq<string>): seq<T>
    decreases |tokens|
  {
    if tokens == [] then []
    else
      var init := Collect(read, tokens[..|tokens| - 1]);
      match read(tokens[|tokens| - 1])
      case Some(v) => init + [v]
      case None => init
  }

  /** The points of the tokens that denote one, in document order. */
  function Points(parse: NumberParser, tokens: seq<string>): seq<Point> {
    Collect(t => PointOf(parse, t), tokens)
  }

  /** A move to the first point, then a line to each following point. */
  function Polyline(points: seq<Point>): (r: Path)
    requires points != []
    ensures |r| == |points|
  {
    [MoveTo(points[0])] + seq(|points| - 1, k requires 0 <= k < |points| - 1 => LineTo(points[k + 1]))
  }

  /** What extractGeometry returns: None without coords or without a single point, else the closed path. */
  function GeometryOf(parse: NumberParser, o: MapObject): Option<Path> {
    match o.coords
    case None => None
    case Some(text) =>
      var points := Points(parse, PointTokens(text));
      if points == [] then None else Some(Polyline(points) + [ClosePath])
  }

  lemma PolylineExtend(points: seq<Point>, p: Point)
    requires points != []
    ensures Polyline(points + [p]) == Polyline(points) + [LineTo(p)]
  {
  }

  /** extractGeometry, with a token lacking a second field skipped like any other bad token. */
  method ExtractGeometry(parse: NumberParser, o: MapObject) returns (path: Option<Path>)
    ensures path == GeometryOf(parse, o)
  {
    if o.coords.None? {
      return None;
    }
    var tokens := PointTokens(o.coords.value);
    var segments: Path := [];
    var started := false;
    ghost var points: seq<Point> := [];
    for i := 0 to |tokens|
      invariant points == Points(parse, tokens[..i])
      invariant started == (points != [])
      invariant started ==> segments == Polyline(points)
    {
      assert tokens[..i + 1][..i] == tokens[..i];
      var parts := Fields(tokens[i]);
      var x := parse(parts[0]);
      if x.None? || |parts| < 2 {
        continue;
      }
      var y := parse(parts[1]);
      if y.None? {
        continue;
      }
      var p := Point(x.value, y.value);
      if !started {
        segments := [MoveTo(p)];
        started := true;
      } else {
        PolylineExtend(points, p);
        segments := segments + [LineTo(p)];
      }
      points := points + [p];
    }
    assert tokens[..|tokens|] == tokens;
    if started {
      path := Some(segments + [ClosePath]);
    } else {
      path := None;
    }
  }

  // ---------------------------------------------------------------- properties

  /** Collect distributes over concatenation: each token contributes on its own, in order. */
  lemma {:induction false} CollectAppend<T>(read: string -> Option<T>, a: seq<string>, b: seq<string>)
    ensures Collect(read, a + b) == Collect(read, a) + Collect(read, b)
    decreases |b|
  {
    if b == [] {
      assert a + b == a;
    } else {
      var n := |b| - 1;
      assert (a + b)[..|a + b| - 1] == a + b[..n];
      assert (a + b)[|a + b| - 1] == b[n];
      CollectAppend(read, a, b[..n]);
    }
  }

  /** A token read as None is skipped without disturbing the values around it. */
  lemma CollectSkips<T>(read: string -> Option<T>, a: seq<string>, t: string, b: seq<string>)
    requires read(t).None?
    ensures Collect(read, a + [t] + b) == Collect(read, a + b)
  {
    CollectAppend(read, a + [t], b);
    CollectAppend(read, a, b);
    assert (a + [t])[..|a|] == a;
  }

  /** Collect is empty exactly when every token is read as None. */
  lemma {:induction false} CollectEmpty<T>(read: string -> Option<T>, tokens: seq<string>)
    ensures Collect(read, tokens) == [] <==> forall k | 0 <= k < |tokens| :: read(tokens[k]).None?
    decreases |tokens|
  {
    if tokens != [] {
      var n := |tokens| - 1;
      var init := tokens[..n];
      CollectEmpty(read, init);
      if Collect(read, tokens) == [] {
        forall k | 0 <= k < |tokens| ensures read(tokens[k]).None? {
          if k < n {
            assert init[k] == tokens[k];
          }
        }
      } else if read(tokens[n]).None? {
        var k :| 0 <= k < |init| && read(init[k]).Some?;
        assert init[k] == tokens[k];
      }
    }
  }

  /** A token that does not denote a point is skipped without disturbing the points around it. */
  lemma BadTokenSkipped(parse: NumberParser, a: seq<string>, t: string, b: seq<string>)
    requires PointOf(parse, t).None?
    ensures Points(parse, a + [t] + b) == Points(parse, a + b)
  {
    CollectSkips(t => PointOf(parse, t), a, t, b);
  }

  /** Points keeps the document order of the tokens across any split of them. */
  lemma PointsAppend(parse: NumberParser, a: seq<string>, b: seq<string>)
    ensures Points(parse, a + b) == Points(parse, a) + Points(parse, b)
  {
    CollectAppend(t => PointOf(parse, t), a, b);
  }

  /**
   * extractGeometry returns a path exactly when the object has coords and one of its
   * tokens holds two numbers; a missing coords element gives null.
   */
  lemma GeometryExists(parse: NumberParser, o: MapObject)
    ensures GeometryOf(parse, o).Some? <==>
      o.coords.Some? && !forall k | 0 <= k < |PointTokens(o.coords.value)| :: PointOf(parse, PointTokens(o.coords.value)[k]).None?
  {
    if o.coords.Some? {
      CollectEmpty(t => PointOf(parse, t), PointTokens(o.coords.value));
    }
  }

  /** The points a path visits, in order. */
  function Vertices(path: Path): seq<Point>
    decreases |path|
  {
    if path == [] then []
    else
      var init := Vertices(path[..|path| - 1]);
      match path[|path| - 1]
      case MoveTo(p) => init + [p]
      case LineTo(p) => init + [p]
      case ClosePath => init
  }

  /** A returned path starts with a move, closes at the end, and draws lines in between. */
  lemma GeometryShape(parse: NumberParser, o: MapObject)
    requires GeometryOf(parse, o).Some?
    ensures var path := GeometryOf(parse, o).value;
      && |path| >= 2 && path[0].MoveTo? && path[|path| - 1] == ClosePath
      && forall k | 0 < k < |path| - 1 :: path[k].LineTo?
  {
  }

  /** The path visits exactly the parsed points, in document order. */
  lemma GeometryVertices(parse: NumberParser, o: MapObject)
    requires GeometryOf(parse, o).Some?
    ensures Vertices(GeometryOf(parse, o).value) == Points(parse, PointTokens(o.coords.value))
  {
    var points := Points(parse, PointTokens(o.coords.value));
    PolylineVertices(points);
    var path := Polyline(points) + [ClosePath];
    assert path[..|path| - 1] == Polyline(points);
  }

  lemma {:induction false} PolylineVertices(points: seq<Point>)
    requires points != []
    ensures Vertices(Polyline(points)) == points
    decreases |points|
  {
    if |points| > 1 {
      var n := |points| - 1;
      PolylineVertices(points[..n]);
      PolylineExtend(points[..n], points[n]);
      assert points[..n] + [points[n]] == points;
      assert Polyline(points)[..|points| - 1] == Polyline(points[..n]);
    }
  }

  // ---------------------------------------------------------------- as written

  /** How the source's loop body ends for one token. */
  datatype TokenOutcome = Parsed(p: Point) | Skipped | Thrown

  /**
   * One token as the source reads it: parts[0] is parsed first, and a NumberFormatException
   * skips the token; but a token whose first field is a number and that has no second field
   * makes parts[1] throw ArrayIndexOutOfBoundsException, which nothing catches.
   */
  function ScanToken(parse: NumberParser, token: string): TokenOutcome {
    var parts := Fields(token);
    match parse(parts[0])
    case None => Skipped
    case Some(x) =>
      if |parts| < 2 then Thrown
      else match parse(parts[1])
        case None => Skipped
        case Some(y) => Parsed(Point(x, y))
  }

  /** The source's loop over the tokens: the points read, or None once an exception escapes. */
  function Scan(scan: string -> TokenOutcome, tokens: seq<string>): Option<seq<Point>>
    decreases |tokens|
  {
    if tokens == [] then Some([])
    else match Scan(scan, tokens[..|tokens| - 1])
      case None => None
      case Some(points) =>
        match scan(tokens[|tokens| - 1])
        case Thrown => None
        case Skipped => Some(points)
        case Parsed(p) => Some(points + [p])
  }

  function ScanTokens(parse: NumberParser, tokens: seq<string>): Option<seq<Point>> {
    Scan(t => ScanToken(parse, t), tokens)
  }

  /** The point a token outcome carries, if any. */
  function PointOfOutcome(outcome: TokenOutcome): Option<Point> {
    if outcome.Parsed? then Some(outcome.p) else None
  }

  datatype Extraction = Extracted(path: Option<Path>) | Crashed

  /**
   * extractGeometry exactly as written, exception included: it crashes exactly when some
   * token of the coords text throws, and otherwise returns what GeometryOf describes.
   */
  function ExtractAsWritten(parse: NumberParser, o: MapObject): (r: Extraction)
    ensures r == Crashed <==> o.coords.Some? && exists k | 0 <= k < |PointTokens(o.coords.value)| ::
      ScanToken(parse, PointTokens(o.coords.value)[k]) == Thrown
    ensures r.Extracted? ==> r.path == GeometryOf(parse, o)
  {
    match o.coords
    case None => Extracted(None)
    case Some(text) =>
      ScanTokensAgrees(parse, PointTokens(text));
      match ScanTokens(parse, PointTokens(text))
      case None => Crashed
      case Some(points) => Extracted(if points == [] then None else Some(Polyline(points) + [ClosePath]))
  }

  /** On a token that does not throw, the source and PointOf agree. */
  lemma ScanTokenAgrees(parse: NumberParser, token: string)
    ensures ScanToken(parse, token) == Thrown <==> parse(Fields(token)[0]).Some? && |Fields(token)| < 2
    ensures ScanToken(parse, token) != Thrown ==> PointOf(parse, token) == PointOfOutcome(ScanToken(parse, token))
  {
  }

  /**
   * A loop whose per-token reading agrees with read wherever it does not throw crashes
   * exactly when some token throws, and otherwise collects what read collects.
   */
  lemma {:induction false} ScanAgrees(scan: string -> TokenOutcome, read: string -> Option<Point>, tokens: seq<string>)
    requires forall t :: scan(t) != Thrown ==> read(t) == PointOfOutcome(scan(t))
    ensures Scan(scan, tokens).None? <==> exists k | 0 <= k < |tokens| :: scan(tokens[k]) == Thrown
    ensures Scan(scan, tokens).Some? ==> Scan(scan, tokens).value == Collect(read, tokens)
    decreases |tokens|
  {
    if tokens != [] {
      var n := |tokens| - 1;
      var init := tokens[..n];
      ScanAgrees(scan, read, init);
      if Scan(scan, tokens).None? && scan(tokens[n]) != Thrown {
        var k :| 0 <= k < |init| && scan(init[k]) == Thrown;
        assert init[k] == tokens[k];
      }
      if Scan(scan, tokens).Some? {
        forall k | 0 <= k < |tokens| ensures scan(tokens[k]) != Thrown {
          if k < n {
            assert init[k] == tokens[k];
          }
        }
      }
    }
  }

  /** The source's loop crashes exactly when some token throws, and otherwise reads Points. */
  lemma ScanTokensAgrees(parse: NumberParser, tokens: seq<string>)
    ensures ScanTokens(parse, tokens).None? <==> exists k | 0 <= k < |tokens| :: ScanToken(parse, tokens[k]) == Thrown
    ensures ScanTokens(parse, tokens).Some? ==> ScanTokens(parse, tokens).value == Points(parse, tokens)
  {
    forall t | ScanToken(parse, t) != Thrown
      ensures PointOf(parse, t) == PointOfOutcome(ScanToken(parse, t))
    {
      ScanTokenAgrees(parse, t);
    }
    ScanAgrees(t => ScanToken(parse, t), t => PointOf(parse, t), tokens);
  }

  /** Where no token throws, extractGeometry as written returns what Geometry describes. */
  lemma AsWrittenAgreesWithoutLoneNumbers(parse: NumberParser, o: MapObject)
    requires o.coords.Some? ==> forall k | 0 <= k < |PointTokens(o.coords.value)| ::
      ScanToken(parse, PointTokens(o.coords.value)[k]) != Thrown
    ensures ExtractAsWritten(parse, o) == Extracted(GeometryOf(parse, o))
  {
    if o.coords.Some? {
      ScanTokensAgrees(parse, PointTokens(o.coords.value));
    }
  }

  /**
   * The coords text "5" (one number, no second field) crashes the source's extractGeometry
   * with ArrayIndexOutOfBoundsException, where the intended behaviour skips the token.
   */
  lemma LoneNumberCrashes(parse: NumberParser)
    requires parse("5").Some?
    ensures ExtractAsWritten(parse, MapObject("1", "101", Some("5"))) == Crashed
    ensures GeometryOf(parse, MapObject("1", "101", Some("5"))) == None
  {
    var five := "5";
    assert Trim(five) == five;
    assert PointTokens(five) == [five];
    assert WordLength(five) == 1;
    assert Fields(five) == [five];
    assert ScanToken(parse, five) == Thrown;
    assert PointTokens(five)[..0] == [];
  }
}
