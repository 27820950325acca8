/** Compiling a camera's drawn shapes into its configuration (tvt_edge/geometry.py),
    and what a camera shows of them after the merge. */
module CameraShapes {
  import opened Options
  import opened CameraConfig
  import opened Geometry
  import opened Polygon

  datatype Direction = Entry | Exit
  datatype Side = A | B

  /** A zone is marked `hasRole` when it carries a role, a direction or a side, which only lines may. */
  datatype Shape =
    | Zone(key: string, name: string, points: seq<Point>, enabled: bool, hasRole: bool)
    | Line(key: string, name: string, points: seq<Point>, enabled: bool,
           role: string, direction: Option<Direction>, inside: Option<Side>)

  datatype Refusal =
    | BadKey | BadSuffix | BadPolygon(flaw: Flaw) | AssignedZone
    | PointsOutOfRange | NotTwoPoints | NoLength | NoRole | NoDirection | NoSide | BadRole | WrongKey

  predicate VendorChar(c: char) {
    'A' <= c <= 'Z' || 'a' <= c <= 'z' || '0' <= c <= '9' || c in {'.', '_', '-'}
  }

  predicate VendorId(s: string) {
    s != "" && forall i :: 0 <= i < |s| ==> VendorChar(s[i])
  }

  predicate EndsWith(s: string, suffix: string) {
    |suffix| <= |s| && s[|s| - |suffix|..] == suffix
  }

  function Suffix(d: Direction): string {
    if d == Entry then "_entry" else "_exit"
  }

  /** The first thing wrong with a shape. */
  ghost function Refused(s: Shape): Option<Refusal> {
    if !VendorId(s.key) then Some(BadKey)
    else if s.Line? && !EndsWith(s.key, "_entry") && !EndsWith(s.key, "_exit") then Some(BadSuffix)
    else if s.Zone? then
      if Verdict(s.points).Err? then Some(BadPolygon(Verdict(s.points).error))
      else if s.hasRole then Some(AssignedZone) else None
    else if !AllNormalized(s.points) then Some(PointsOutOfRange)
    else if |s.points| != 2 then Some(NotTwoPoints)
    else if s.points[0] == s.points[1] then Some(NoLength)
    else if s.role == "" then Some(NoRole)
    else if s.direction.None? then Some(NoDirection)
    else if s.inside.None? then Some(NoSide)
    else if !VendorId(s.role) then Some(BadRole)
    else if s.key != s.role + Suffix(s.direction.value) then Some(WrongKey)
    else None
  }

  /** The refusal of the first enabled shape that has one. */
  ghost function FirstRefusal(shapes: seq<Shape>): Option<Refusal> {
    if shapes == [] then None
    else if FirstRefusal(shapes[..|shapes| - 1]).Some? then FirstRefusal(shapes[..|shapes| - 1])
    else if shapes[|shapes| - 1].enabled then Refused(shapes[|shapes| - 1])
    else None
  }

  lemma NamedLineIsVendorId(role: string, suffix: string)
    requires VendorId(role) && suffix in {"_entry", "_exit"}
    ensures VendorId(role + suffix) && EndsWith(role + suffix, suffix)
  {
    assert (role + suffix)[|role|..] == suffix;
    forall i | 0 <= i < |role + suffix| ensures VendorChar((role + suffix)[i]) {
      if i >= |role| {
        assert (role + suffix)[i] == suffix[i - |role|];
      }
    }
  }

  /** A line is accepted exactly if it runs between two different points of the unit square,
      knows its direction and its inside end, and is named after its role and its direction. */
  lemma LineIsAccepted(s: Shape)
    requires s.Line?
    ensures Refused(s).None? <==>
              && VendorId(s.role) && s.inside.Some?
              && ((s.direction == Some(Entry) && s.key == s.role + "_entry")
                  || (s.direction == Some(Exit) && s.key == s.role + "_exit"))
              && AllNormalized(s.points) && |s.points| == 2 && s.points[0] != s.points[1]
  {
    if VendorId(s.role) {
      NamedLineIsVendorId(s.role, "_entry");
      NamedLineIsVendorId(s.role, "_exit");
    }
  }

  /** The name tells role and direction: no other line has it. */
  lemma LineNamesDiffer(role: string, d: Direction, other: string, e: Direction)
    requires role + Suffix(d) == other + Suffix(e)
    ensures role == other && d == e
  {
    var name := role + Suffix(d);
    assert name[|name| - 1] == Suffix(d)[|Suffix(d)| - 1] && name[|name| - 1] == Suffix(e)[|Suffix(e)| - 1];
    assert d == e;
    assert |role| == |other|;
    assert role == name[..|role|] && other == name[..|role|];
  }

  /** Which crossing of a line counts, given which end faces the plant. */
  function AcceptedCrossing(d: Direction, inside: Side): string {
    if (inside == B) == (d == Entry) then "A->B" else "B->A"
  }

  /** The entry and the exit line of a gate accept opposite crossings, and turning the
      line round turns the crossing round. */
  lemma CrossingsAreOpposite(d: Direction, e: Direction, s: Side, t: Side)
    ensures AcceptedCrossing(d, s) == AcceptedCrossing(e, t) <==> (d == e) == (s == t)
  {
    assert "A->B"[0] != "B->A"[0];
  }

  // ---------------------------------------------------------------- compiling

  function PointJson(p: Point): Json {
    Array([Number(p.x), Number(p.y)])
  }

  function PointsJson(points: seq<Point>): Json {
    Array(seq(|points|, i requires 0 <= i < |points| => PointJson(points[i])))
  }

  function ZoneJson(s: Shape): Json {
    Object(map["id" := String(s.key), "name" := String(s.name), "poly" := PointsJson(s.points)])
  }

  function LineJson(s: Shape): Json
    requires s.Line? && s.direction.Some? && s.inside.Some?
  {
    Object(map["id" := String(s.key), "name" := String(s.name), "points" := PointsJson(s.points),
               "accepted" := Array([String(AcceptedCrossing(s.direction.value, s.inside.value))])])
  }

  predicate Directed(shapes: seq<Shape>) {
    forall i :: 0 <= i < |shapes| && shapes[i].enabled && shapes[i].Line? ==>
      shapes[i].direction.Some? && shapes[i].inside.Some?
  }

  function ZonesJson(shapes: seq<Shape>): seq<Json> {
    if shapes == [] then []
    else
      var s := shapes[|shapes| - 1];
      ZonesJson(shapes[..|shapes| - 1]) + if s.enabled && s.Zone? then [ZoneJson(s)] else []
  }

  function LinesJson(shapes: seq<Shape>): seq<Json>
    requires Directed(shapes)
  {
    if shapes == [] then []
    else
      var s := shapes[|shapes| - 1];
      assert forall i :: 0 <= i < |shapes| - 1 ==> shapes[..|shapes| - 1][i] == shapes[i];
      LinesJson(shapes[..|shapes| - 1]) + if s.enabled && s.Line? then [LineJson(s)] else []
  }

  function Compiled(shapes: seq<Shape>): Config
    requires Directed(shapes)
  {
    (if ZonesJson(shapes) == [] then map[] else map["zones" := Object(map["anpr" := Array(ZonesJson(shapes))])])
    + (if LinesJson(shapes) == [] then map[] else map["lines" := Array(LinesJson(shapes))])
  }

  lemma {:induction false} AcceptedAreDirected(shapes: seq<Shape>)
    requires FirstRefusal(shapes).None?
    ensures Directed(shapes)
  {
    if shapes != [] {
      AcceptedAreDirected(shapes[..|shapes| - 1]);
      assert forall i :: 0 <= i < |shapes| - 1 ==> shapes[i] == shapes[..|shapes| - 1][i];
    }
  }

  method ValidateShape(s: Shape) returns (refusal: Option<Refusal>)
    ensures refusal == Refused(s)
  {
    if !VendorId(s.key) {
      return Some(BadKey);
    }
    if s.Line? && !EndsWith(s.key, "_entry") && !EndsWith(s.key, "_exit") {
      return Some(BadSuffix);
    }
    if s.Zone? {
      var verdict := ValidatePolygon(s.points);
      return if verdict.Err? then Some(BadPolygon(verdict.error)) else if s.hasRole then Some(AssignedZone) else None;
    }
    var k := 0;
    while k < |s.points|
      invariant 0 <= k <= |s.points| && forall i :: 0 <= i < k ==> Normalized(s.points[i])
    {
      if !Normalized(s.points[k]) {
        assert s.points[k] in s.points;
        return Some(PointsOutOfRange);
      }
      k := k + 1;
    }
    if |s.points| != 2 {
      return Some(NotTwoPoints);
    }
    if s.points[0].x == s.points[1].x && s.points[0].y == s.points[1].y {
      return Some(NoLength);
    }
    if s.role == "" {
      return Some(NoRole);
    }
    if s.direction.None? {
      return Some(NoDirection);
    }
    if s.inside.None? {
      return Some(NoSide);
    }
    if !VendorId(s.role) {
      return Some(BadRole);
    }
    if s.key != s.role + Suffix(s.direction.value) {
      return Some(WrongKey);
    }
    return None;
  }

  /** Compiles the enabled shapes in order, or stops at the first one that is refused. */
  method CompileCameraConfig(shapes: seq<Shape>) returns (r: Result<Config, Refusal>)
    ensures r.Ok? <==> FirstRefusal(shapes).None?
    ensures r.Ok? ==> Directed(shapes) && r.value == Compiled(shapes)
    ensures r.Err? ==> FirstRefusal(shapes) == Some(r.error)
  {
    var zones: seq<Json>, lines: seq<Json> := [], [];
    var i := 0;
    while i < |shapes|
      invariant 0 <= i <= |shapes| && FirstRefusal(shapes[..i]).None?
      invariant Directed(shapes[..i]) && zones == ZonesJson(shapes[..i]) && lines == LinesJson(shapes[..i])
    {
      var s := shapes[i];
      OneMoreShape(shapes, i);
      if s.enabled {
        var refusal := ValidateShape(s);
        if refusal.Some? {
          RefusalStays(shapes, i + 1);
          return Err(refusal.value);
        }
        if s.Zone? {
          zones := zones + [ZoneJson(s)];
        } else {
          lines := lines + [LineJson(s)];
        }
      }
      i := i + 1;
    }
    assert shapes[..i] == shapes;
    var config: Config := map[];
    if zones != [] {
      config := config["zones" := Object(map["anpr" := Array(zones)])];
    }
    if lines != [] {
      config := config["lines" := Array(lines)];
    }
    r := Ok(config);
  }

  /** What one more shape adds. */
  lemma OneMoreShape(shapes: seq<Shape>, i: nat)
    requires i < |shapes| && FirstRefusal(shapes[..i]).None?
    ensures var s := shapes[i];
            && Directed(shapes[..i])
            && FirstRefusal(shapes[..i + 1]) == (if s.enabled then Refused(s) else None)
            && ZonesJson(shapes[..i + 1]) == ZonesJson(shapes[..i]) + (if s.enabled && s.Zone? then [ZoneJson(s)] else [])
            && (s.enabled && s.Line? && Refused(s).None? ==> s.direction.Some? && s.inside.Some?)
            && (!s.enabled || Refused(s).None? ==>
                  && Directed(shapes[..i + 1])
                  && LinesJson(shapes[..i + 1])
                     == LinesJson(shapes[..i]) + if s.enabled && s.Line? then [LineJson(s)] else [])
  {
    assert shapes[..i + 1][..i] == shapes[..i];
    AcceptedAreDirected(shapes[..i]);
    if !shapes[i].enabled || Refused(shapes[i]).None? {
      AcceptedAreDirected(shapes[..i + 1]);
    }
  }

  lemma {:induction false} RefusalStays(shapes: seq<Shape>, n: nat)
    requires n <= |shapes| && FirstRefusal(shapes[..n]).Some?
    ensures FirstRefusal(shapes) == FirstRefusal(shapes[..n])
  {
    if n == |shapes| {
      assert shapes[..n] == shapes;
    } else {
      assert shapes[..|shapes| - 1][..n] == shapes[..n];
      RefusalStays(shapes[..|shapes| - 1], n);
    }
  }

  // ---------------------------------------------------------------- reading back

  datatype ZoneView = ZoneView(key: string, name: string, points: seq<Point>)
  datatype LineView = LineView(key: string, name: string, points: seq<Point>, accepted: string)

  function Field(j: Json, field: string): Json {
    if j.Object? && field in j.fields then j.fields[field] else Null
  }

  function Text(j: Json): string {
    if j.String? then j.s else ""
  }

  function Items(j: Json): seq<Json> {
    if j.Array? then j.items else []
  }

  function Coordinate(j: Json, k: nat): real {
    if k < |Items(j)| && Items(j)[k].Number? then Items(j)[k].n else 0.0
  }

  function ReadPoints(j: Json): seq<Point> {
    seq(|Items(j)|, i requires 0 <= i < |Items(j)| => Point(Coordinate(Items(j)[i], 0), Coordinate(Items(j)[i], 1)))
  }

  function ReadZone(j: Json): ZoneView {
    ZoneView(Text(Field(j, "id")), Text(Field(j, "name")), ReadPoints(Field(j, "poly")))
  }

  function ReadLine(j: Json): LineView {
    LineView(Text(Field(j, "id")), Text(Field(j, "name")), ReadPoints(Field(j, "points")),
             if Items(Field(j, "accepted")) == [] then "" else Text(Items(Field(j, "accepted"))[0]))
  }

  /** The zones and lines a camera configuration shows. */
  function ShownZones(config: Config): seq<ZoneView> {
    var items := if Anpr(config).Some? then Items(Anpr(config).value) else [];
    seq(|items|, i requires 0 <= i < |items| => ReadZone(items[i]))
  }

  function ShownLines(config: Config): seq<LineView> {
    var items := if Lines(config).Some? then Items(Lines(config).value) else [];
    seq(|items|, i requires 0 <= i < |items| => ReadLine(items[i]))
  }

  /** The zones and lines that were drawn and enabled. */
  function DrawnZones(shapes: seq<Shape>): seq<ZoneView> {
    if shapes == [] then []
    else
      var s := shapes[|shapes| - 1];
      DrawnZones(shapes[..|shapes| - 1]) + if s.enabled && s.Zone? then [ZoneView(s.key, s.name, s.points)] else []
  }

  function DrawnLines(shapes: seq<Shape>): seq<LineView>
    requires Directed(shapes)
  {
    if shapes == [] then []
    else
      var s := shapes[|shapes| - 1];
      assert forall i :: 0 <= i < |shapes| - 1 ==> shapes[..|shapes| - 1][i] == shapes[i];
      DrawnLines(shapes[..|shapes| - 1])
      + if s.enabled && s.Line?
        then [LineView(s.key, s.name, s.points, AcceptedCrossing(s.direction.value, s.inside.value))] else []
  }

  lemma PointsReadBack(points: seq<Point>)
    ensures ReadPoints(PointsJson(points)) == points
  {
    var read := ReadPoints(PointsJson(points));
    forall i | 0 <= i < |points| ensures read[i] == points[i] {
      assert Items(PointsJson(points))[i] == PointJson(points[i]);
    }
  }

  lemma ZoneReadsBack(s: Shape)
    ensures ReadZone(ZoneJson(s)) == ZoneView(s.key, s.name, s.points)
  {
    PointsReadBack(s.points);
  }

  lemma LineReadsBack(s: Shape)
    requires s.Line? && s.direction.Some? && s.inside.Some?
    ensures ReadLine(LineJson(s))
            == LineView(s.key, s.name, s.points, AcceptedCrossing(s.direction.value, s.inside.value))
  {
    PointsReadBack(s.points);
  }

  lemma {:induction false} ZonesReadBack(shapes: seq<Shape>)
    ensures |ZonesJson(shapes)| == |DrawnZones(shapes)|
    ensures forall i :: 0 <= i < |ZonesJson(shapes)| ==> ReadZone(ZonesJson(shapes)[i]) == DrawnZones(shapes)[i]
  {
    if shapes != [] {
      ZonesReadBack(shapes[..|shapes| - 1]);
      ZoneReadsBack(shapes[|shapes| - 1]);
    }
  }

  lemma {:induction false} LinesReadBack(shapes: seq<Shape>)
    requires Directed(shapes)
    ensures |LinesJson(shapes)| == |DrawnLines(shapes)|
    ensures forall i :: 0 <= i < |LinesJson(shapes)| ==> ReadLine(LinesJson(shapes)[i]) == DrawnLines(shapes)[i]
  {
    if shapes != [] {
      assert forall i :: 0 <= i < |shapes| - 1 ==> shapes[..|shapes| - 1][i] == shapes[i];
      LinesReadBack(shapes[..|shapes| - 1]);
      var s := shapes[|shapes| - 1];
      if s.enabled && s.Line? {
        LineReadsBack(s);
      }
    }
  }

  /** After an edit the camera shows exactly the enabled shapes, in order, whatever its
      configuration showed before. */
  lemma EditShowsTheShapes(config: Config, shapes: seq<Shape>)
    requires Directed(shapes)
    ensures ShownZones(Merge(config, Compiled(shapes))) == DrawnZones(shapes)
    ensures ShownLines(Merge(config, Compiled(shapes))) == DrawnLines(shapes)
  {
    var geometry := Compiled(shapes);
    var merged := Merge(config, geometry);
    MergeIsDetermined(merged, config, geometry);
    ZonesReadBack(shapes);
    LinesReadBack(shapes);
    assert Anpr(merged) == Anpr(geometry) && Lines(merged) == Lines(geometry);
    assert Anpr(geometry) == if ZonesJson(shapes) == [] then None else Some(Array(ZonesJson(shapes)));
    assert Lines(geometry) == if LinesJson(shapes) == [] then None else Some(Array(LinesJson(shapes)));
  }

  /** After any run of edits the camera shows the shapes of the last one, and keeps
      every other key of the configuration the run began with. */
  lemma LastEditIsShown(config: Config, edits: seq<Config>, shapes: seq<Shape>)
    requires Directed(shapes)
    ensures var last := MergeAll(config, edits + [Compiled(shapes)]);
            && ShownZones(last) == DrawnZones(shapes) && ShownLines(last) == DrawnLines(shapes)
            && OtherKeys(last) == OtherKeys(config) && OtherZones(last) == OtherZones(config)
  {
    OnlyTheLastEditMatters(config, edits + [Compiled(shapes)]);
    EditShowsTheShapes(config, shapes);
    MergeIsDetermined(Merge(config, Compiled(shapes)), config, Compiled(shapes));
  }

  /** The end of a line that a crossing starts from, and the one it ends at. */
  predicate Towards(crossing: string, inside: Side, d: Direction) {
    var end := if inside == A then 'A' else 'B';
    |crossing| == 4 && crossing[0] != crossing[3] && (if d == Entry then crossing[3] == end else crossing[0] == end)
  }

  /** Whatever a camera showed before, it then accepts on every enabled entry line the
      crossing that ends at the inside end, and on every exit line the one that starts there. */
  lemma {:induction false} EntriesGoInside(config: Config, shapes: seq<Shape>, k: nat)
    requires Directed(shapes) && k < |shapes| && shapes[k].enabled && shapes[k].Line?
    ensures exists i :: 0 <= i < |ShownLines(Merge(config, Compiled(shapes)))| &&
              var line := ShownLines(Merge(config, Compiled(shapes)))[i];
              && line.key == shapes[k].key && line.points == shapes[k].points
              && Towards(line.accepted, shapes[k].inside.value, shapes[k].direction.value)
  {
    EditShowsTheShapes(config, shapes);
    var i := DrawnLineOf(shapes, k);
    assert ShownLines(Merge(config, Compiled(shapes)))[i] == DrawnLines(shapes)[i];
  }

  lemma {:induction false} DrawnLineOf(shapes: seq<Shape>, k: nat) returns (i: nat)
    requires Directed(shapes) && k < |shapes| && shapes[k].enabled && shapes[k].Line?
    ensures i < |DrawnLines(shapes)| && DrawnLines(shapes)[i].key == shapes[k].key
    ensures DrawnLines(shapes)[i].points == shapes[k].points
    ensures Towards(DrawnLines(shapes)[i].accepted, shapes[k].inside.value, shapes[k].direction.value)
  {
    var n := |shapes| - 1;
    assert forall j :: 0 <= j < n ==> shapes[..n][j] == shapes[j];
    if k < n {
      i := DrawnLineOf(shapes[..n], k);
    } else {
      i := |DrawnLines(shapes[..n])|;
    }
  }
}
