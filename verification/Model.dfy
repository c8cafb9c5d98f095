/** The layer model: planned moves recorded one at a time into layers of typed paths, and the map from byte
    windows to layers. */
module Model {
  import opened Geom

  datatype Option<T> = None | Some(value: T)

  const U32_MAX: nat := 0xFFFF_FFFF
  const U64_MAX: nat := 0xFFFF_FFFF_FFFF_FFFF

  /** A byte range of the print file. */
  datatype Span = Span(start: nat, end: nat)

  datatype Pos = Pos(x: real, y: real, z: real, e: real)

  /** Which axes have a trusted position. */
  datatype Known = Known(x: bool, y: bool, z: bool, e: bool)

  datatype MoveKind = Extrusion | Travel | ExtrudeOnly

  datatype FeatureClass = InternalInfill | SolidInfill | Other | Named(name: string)

  /** A planned move as the state machine produced it; `end` is the kinematic end. */
  datatype Planned = Planned(start: Pos, end: Pos, extrudeOnly: bool, span: Span, startKnown: Known, endKnown: Known)

  datatype SimMove = SimMove(start: Pos, end: Pos, span: Span, kind: MoveKind, layer: Option<nat>, part: Option<string>,
                             startKnown: Known, endKnown: Known)

  datatype XySegment = XySegment(start: Point, end: Point, z: real, eStart: real, eEnd: real, span: Span)

  datatype TypedPath = TypedPath(class_: FeatureClass, typeName: Option<string>, segments: seq<XySegment>)

  datatype Layer = Layer(index: nat, z: real, zKnown: bool, span: Span, annotationZ: Option<real>, paths: seq<TypedPath>,
                         extrusionMoves: nat, spiralMoves: nat)

  datatype Model = Model(layers: seq<Layer>, moves: seq<SimMove>)

  /** What is open while a line is read: the `;TYPE:` name, the object bracket, a `;Z:` not yet used. */
  datatype Context = Context(currentType: Option<string>, currentObject: Option<string>, pendingZ: Option<real>)

  function Abs(v: real): real {
    if v < 0.0 then -v else v
  }

  function SaturatingNext(n: nat): nat {
    if n >= U32_MAX then U32_MAX else n + 1
  }

  function MaxNat(a: nat, b: nat): nat {
    if a >= b then a else b
  }

  function KindOf(p: Planned): MoveKind {
    if p.extrudeOnly then ExtrudeOnly
    else if p.end.e - p.start.e > 0.0 then Extrusion
    else Travel
  }

  function SegmentOf(start: Pos, end: Pos, span: Span): XySegment {
    XySegment(Point(start.x, start.y), Point(end.x, end.y), end.z, start.e, end.e, span)
  }

  predicate OpensLayer(layers: seq<Layer>, z: real, zEpsilon: real) {
    layers == [] || Abs(z - layers[|layers| - 1].z) > zEpsilon
  }

  function NewLayer(count: nat, p: Planned, pendingZ: Option<real>): Layer {
    Layer(if count > U32_MAX then U32_MAX else count, p.end.z, p.endKnown.z, p.span, pendingZ, [], 0, 0)
  }

  function ClassOf(typeName: Option<string>, classify: string -> FeatureClass): FeatureClass {
    if typeName.None? then Other else classify(typeName.value)
  }

  /** Append to the last path when it has the current type, else open a path. */
  function PathsWith(paths: seq<TypedPath>, typeName: Option<string>, classify: string -> FeatureClass, s: XySegment): seq<TypedPath> {
    if paths != [] && paths[|paths| - 1].typeName == typeName then
      var last := paths[|paths| - 1];
      paths[|paths| - 1 := last.(segments := last.segments + [s])]
    else
      paths + [TypedPath(ClassOf(typeName, classify), typeName, [s])]
  }

  function LayerWith(l: Layer, p: Planned, typeName: Option<string>, classify: string -> FeatureClass): Layer {
    l.(extrusionMoves := SaturatingNext(l.extrusionMoves),
       spiralMoves := if Abs(p.end.z - p.start.z) > 0.0 then SaturatingNext(l.spiralMoves) else l.spiralMoves,
       span := Span(l.span.start, MaxNat(l.span.end, p.span.end)),
       paths := PathsWith(l.paths, typeName, classify, SegmentOf(p.start, p.end, p.span)))
  }

  function LayersWith(layers: seq<Layer>, p: Planned, ctx: Context, zEpsilon: real, classify: string -> FeatureClass): seq<Layer> {
    if KindOf(p) != Extrusion then layers
    else
      var grown := if OpensLayer(layers, p.end.z, zEpsilon) then layers + [NewLayer(|layers|, p, ctx.pendingZ)] else layers;
      grown[|grown| - 1 := LayerWith(grown[|grown| - 1], p, ctx.currentType, classify)]
  }

  function MoveOf(p: Planned, layers: seq<Layer>, part: Option<string>): SimMove {
    SimMove(p.start, p.end, p.span, KindOf(p), if layers == [] then None else Some(layers[|layers| - 1].index), part,
            p.startKnown, p.endKnown)
  }

  /** The model after one more planned move, and whether the pending `;Z:` was taken. */
  function Recorded(m: Model, p: Planned, ctx: Context, zEpsilon: real, classify: string -> FeatureClass): Model {
    var layers := LayersWith(m.layers, p, ctx, zEpsilon, classify);
    Model(layers, m.moves + [MoveOf(p, layers, ctx.currentObject)])
  }

  function ContextAfter(m: Model, p: Planned, ctx: Context, zEpsilon: real): Context {
    if KindOf(p) == Extrusion && OpensLayer(m.layers, p.end.z, zEpsilon) then ctx.(pendingZ := None) else ctx
  }

  // ----- what recording keeps -----

  /** A planned move with the `;TYPE:` name and the object bracket open on its line. */
  datatype Item = Item(p: Planned, typeName: Option<string>, part: Option<string>)

  /** A segment under its path's type. */
  datatype Deposit = Deposit(segment: XySegment, typeName: Option<string>)

  function PathDeposits(path: TypedPath): seq<Deposit> {
    seq(|path.segments|, k requires 0 <= k < |path.segments| => Deposit(path.segments[k], path.typeName))
  }

  function PathSegments(paths: seq<TypedPath>): seq<Deposit> {
    if paths == [] then [] else PathSegments(paths[..|paths| - 1]) + PathDeposits(paths[|paths| - 1])
  }

  function LayerSegments(layers: seq<Layer>): seq<Deposit> {
    if layers == [] then [] else LayerSegments(layers[..|layers| - 1]) + PathSegments(layers[|layers| - 1].paths)
  }

  /** A planned move lays material down: it is not extrude-only and E grows along it. */
  predicate Deposits(p: Planned) {
    !p.extrudeOnly && p.end.e > p.start.e
  }

  /** The segments of exactly the planned moves that lay material down, in order, under their types. */
  function Depositions(items: seq<Item>): seq<Deposit> {
    if items == [] then []
    else
      var last := items[|items| - 1];
      Depositions(items[..|items| - 1]) +
        if Deposits(last.p) then [Deposit(PlannedSegment(last.p), last.typeName)] else []
  }

  /** The XY line of a planned move at its end's height, with its E and its bytes. */
  function PlannedSegment(p: Planned): XySegment {
    XySegment(Point(p.start.x, p.start.y), Point(p.end.x, p.end.y), p.end.z, p.start.e, p.end.e, p.span)
  }

  /** The layer heights: a new one for each deposition beyond the tolerance of the current one. */
  function Heights(items: seq<Item>, zEpsilon: real): seq<real> {
    if items == [] then []
    else
      var h, p := Heights(items[..|items| - 1], zEpsilon), items[|items| - 1].p;
      if Deposits(p) && (h == [] || p.end.z - h[|h| - 1] > zEpsilon || h[|h| - 1] - p.end.z > zEpsilon) then h + [p.end.z] else h
  }

  function Saturated(n: nat): nat {
    if n > U32_MAX then U32_MAX else n
  }

  predicate AdjacentPathsDiffer(paths: seq<TypedPath>) {
    forall k | 0 < k < |paths| :: paths[k - 1].typeName != paths[k].typeName
  }

  predicate NearHeight(segments: seq<XySegment>, z: real, zEpsilon: real) {
    forall s | 0 <= s < |segments| :: Abs(segments[s].z - z) <= zEpsilon
  }

  /** No empty path, every segment within the tolerance of z, and every path of its type's class. */
  ghost predicate PathsNear(paths: seq<TypedPath>, z: real, zEpsilon: real, classify: string -> FeatureClass) {
    forall p | 0 <= p < |paths| ::
      && paths[p].segments != [] && NearHeight(paths[p].segments, z, zEpsilon)
      && paths[p].class_ == match paths[p].typeName { case None => Other case Some(name) => classify(name) }
  }

  /** A layer with deposition: its paths near its Z, adjacent ones of different type, and its moves counted. */
  ghost predicate LayerShape(l: Layer, zEpsilon: real, classify: string -> FeatureClass) {
    && PathsNear(l.paths, l.z, zEpsilon, classify) && AdjacentPathsDiffer(l.paths) && l.paths != []
    && l.extrusionMoves == Saturated(|PathSegments(l.paths)|)
  }

  /** The layers hold exactly the planned depositions, at exactly their heights. */
  ghost predicate WellRecorded(m: Model, items: seq<Item>, zEpsilon: real, classify: string -> FeatureClass) {
    && LayerSegments(m.layers) == Depositions(items)
    && |m.layers| == |Heights(items, zEpsilon)|
    && forall i | 0 <= i < |m.layers| :: LayerAt(m.layers[i], i, Heights(items, zEpsilon)[i], zEpsilon, classify)
  }

  ghost predicate LayerAt(l: Layer, i: nat, height: real, zEpsilon: real, classify: string -> FeatureClass) {
    l.z == height && l.index == Saturated(i) && LayerShape(l, zEpsilon, classify)
  }

  /** The recorded moves are the planned ones, one for one: each with its kind, the layer current when it was recorded and
      the part it belongs to. */
  ghost predicate Follows(moves: seq<SimMove>, items: seq<Item>, zEpsilon: real) {
    |moves| == |items| && forall k | 0 <= k < |moves| :: FollowsAt(moves[k], items[k], HeightsAt(items, k + 1, zEpsilon))
  }

  /** The layer heights after the first n items. */
  function HeightsAt(items: seq<Item>, n: nat, zEpsilon: real): seq<real>
    requires n <= |items|
  {
    Heights(items[..n], zEpsilon)
  }

  ghost predicate FollowsAt(mv: SimMove, item: Item, heights: seq<real>) {
    && mv.start == item.p.start && mv.end == item.p.end && mv.span == item.p.span
    && mv.startKnown == item.p.startKnown && mv.endKnown == item.p.endKnown && mv.part == item.part
    && (mv.kind == Extrusion <==> !item.p.extrudeOnly && item.p.end.e > item.p.start.e)
    && (mv.kind == Travel <==> !item.p.extrudeOnly && item.p.end.e <= item.p.start.e)
    && (mv.kind == ExtrudeOnly <==> item.p.extrudeOnly)
    && mv.layer == if heights == [] then None else Some(Saturated(|heights| - 1))
  }

  lemma {:induction false} PathAppended(paths: seq<TypedPath>, typeName: Option<string>, classify: string -> FeatureClass, s: XySegment)
    ensures PathSegments(PathsWith(paths, typeName, classify, s)) == PathSegments(paths) + [Deposit(s, typeName)]
    ensures AdjacentPathsDiffer(paths) ==> AdjacentPathsDiffer(PathsWith(paths, typeName, classify, s))
  {
    if paths != [] && paths[|paths| - 1].typeName == typeName {
      var last := paths[|paths| - 1];
      LastPathChanged(paths, last.(segments := last.segments + [s]), [Deposit(s, typeName)]);
    } else {
      LastPathAdded(paths, TypedPath(ClassOf(typeName, classify), typeName, [s]));
    }
    hide PathSegments;
  }

  lemma {:induction false} LastPathChanged(paths: seq<TypedPath>, path: TypedPath, extra: seq<Deposit>)
    requires paths != [] && PathDeposits(path) == PathDeposits(paths[|paths| - 1]) + extra
    ensures PathSegments(paths[|paths| - 1 := path]) == PathSegments(paths) + extra
  {
    hide PathDeposits;
    assert paths[|paths| - 1 := path][..|paths| - 1] == paths[..|paths| - 1];
  }

  lemma {:induction false} LastPathAdded(paths: seq<TypedPath>, path: TypedPath)
    ensures PathSegments(paths + [path]) == PathSegments(paths) + PathDeposits(path)
  {
    hide PathDeposits;
    assert (paths + [path])[..|paths|] == paths;
  }

  lemma {:induction false} LastLayerChanged(layers: seq<Layer>, l: Layer, extra: seq<Deposit>)
    requires layers != [] && PathSegments(l.paths) == PathSegments(layers[|layers| - 1].paths) + extra
    ensures LayerSegments(layers[|layers| - 1 := l]) == LayerSegments(layers) + extra
  {
    assert layers[|layers| - 1 := l][..|layers| - 1] == layers[..|layers| - 1];
  }

  lemma {:induction false} LayerOpened(layers: seq<Layer>, l: Layer)
    requires l.paths == []
    ensures LayerSegments(layers + [l]) == LayerSegments(layers)
  {
    assert (layers + [l])[..|layers|] == layers;
  }

  lemma {:induction false} ItemAdded(items: seq<Item>, item: Item, zEpsilon: real)
    ensures Depositions(items + [item]) ==
            Depositions(items) + if Deposits(item.p) then [Deposit(SegmentOf(item.p.start, item.p.end, item.p.span), item.typeName)] else []
    ensures var h := Heights(items, zEpsilon);
            Heights(items + [item], zEpsilon) ==
            if Deposits(item.p) && (h == [] || Abs(item.p.end.z - h[|h| - 1]) > zEpsilon) then h + [item.p.end.z] else h
  {
    assert (items + [item])[..|items|] == items;
  }

  lemma LayerKeepsShape(l: Layer, p: Planned, typeName: Option<string>, classify: string -> FeatureClass, zEpsilon: real)
    requires PathsNear(l.paths, l.z, zEpsilon, classify) && AdjacentPathsDiffer(l.paths)
    requires l.extrusionMoves == Saturated(|PathSegments(l.paths)|)
    requires Abs(p.end.z - l.z) <= zEpsilon
    ensures LayerShape(LayerWith(l, p, typeName, classify), zEpsilon, classify)
  {
    hide PathsWith, PathsNear, AdjacentPathsDiffer, PathSegments, Abs;
    var s := SegmentOf(p.start, p.end, p.span);
    PathAppended(l.paths, typeName, classify, s);
    PathsStayNear(l.paths, typeName, classify, s, l.z, zEpsilon);
  }

  lemma NoPathsYet(z: real, zEpsilon: real, classify: string -> FeatureClass)
    ensures PathsNear([], z, zEpsilon, classify) && AdjacentPathsDiffer([]) && PathSegments([]) == []
  {
  }

  lemma PathsStayNear(paths: seq<TypedPath>, typeName: Option<string>, classify: string -> FeatureClass, s: XySegment, z: real, zEpsilon: real)
    requires PathsNear(paths, z, zEpsilon, classify) && Abs(s.z - z) <= zEpsilon
    ensures PathsNear(PathsWith(paths, typeName, classify, s), z, zEpsilon, classify) && PathsWith(paths, typeName, classify, s) != []
  {
    hide AdjacentPathsDiffer, Abs;
  }

  /** The code's kinds are the planned ones. */
  lemma KindIsPlanned(p: Planned)
    ensures KindOf(p) == Extrusion <==> Deposits(p)
  {
  }

  /** Recording a move conserves deposition, opens layers exactly at the planned heights and keeps every layer well formed. */
  lemma RecordingKeeps(m: Model, items: seq<Item>, p: Planned, ctx: Context, zEpsilon: real, classify: string -> FeatureClass)
    requires WellRecorded(m, items, zEpsilon, classify) && zEpsilon >= 0.0
    ensures WellRecorded(Recorded(m, p, ctx, zEpsilon, classify), items + [ItemOf(p, ctx)], zEpsilon, classify)
  {
    ItemAdded(items, ItemOf(p, ctx), zEpsilon);
    KindIsPlanned(p);
    hide LayerAt, LayerWith, PathsWith, LayerSegments, Depositions, Heights, Abs, Deposits, KindOf;
    if Deposits(p) { DepositKeeps(m, items, p, ctx, zEpsilon, classify); }
  }

  function ItemOf(p: Planned, ctx: Context): Item {
    Item(p, ctx.currentType, ctx.currentObject)
  }

  lemma DepositKeeps(m: Model, items: seq<Item>, p: Planned, ctx: Context, zEpsilon: real, classify: string -> FeatureClass)
    requires WellRecorded(m, items, zEpsilon, classify) && zEpsilon >= 0.0 && Deposits(p)
    ensures WellRecorded(Recorded(m, p, ctx, zEpsilon, classify), items + [ItemOf(p, ctx)], zEpsilon, classify)
  {
    ItemAdded(items, ItemOf(p, ctx), zEpsilon);
    KindIsPlanned(p);
    hide PathsNear, AdjacentPathsDiffer, PathsWith, LayerSegments, PathSegments, Depositions, Heights;
    NoPathsYet(p.end.z, zEpsilon, classify);
    var opens := OpensLayer(m.layers, p.end.z, zEpsilon);
    var grown := if opens then m.layers + [NewLayer(|m.layers|, p, ctx.pendingZ)] else m.layers;
    if opens { LayerOpened(m.layers, NewLayer(|m.layers|, p, ctx.pendingZ)); }
    var last := grown[|grown| - 1];
    PathAppended(last.paths, ctx.currentType, classify, SegmentOf(p.start, p.end, p.span));
    LastLayerChanged(grown, LayerWith(last, p, ctx.currentType, classify), [Deposit(SegmentOf(p.start, p.end, p.span), ctx.currentType)]);
    LayerKeepsShape(last, p, ctx.currentType, classify, zEpsilon);
  }

  lemma FollowsMore(m: Model, items: seq<Item>, p: Planned, ctx: Context, zEpsilon: real, classify: string -> FeatureClass)
    requires WellRecorded(m, items, zEpsilon, classify) && zEpsilon >= 0.0 && Follows(m.moves, items, zEpsilon)
    ensures Follows(Recorded(m, p, ctx, zEpsilon, classify).moves, items + [ItemOf(p, ctx)], zEpsilon)
  {
    RecordingKeeps(m, items, p, ctx, zEpsilon, classify);
    var m' := Recorded(m, p, ctx, zEpsilon, classify);
    LastFollows(m', items + [ItemOf(p, ctx)], p, ctx, zEpsilon, classify);
    MoveAdded(m, p, ctx, zEpsilon, classify);
    hide Recorded, WellRecorded, FollowsAt, MoveOf, HeightsAt;
    forall k | 0 <= k < |m'.moves|
      ensures FollowsAt(m'.moves[k], (items + [ItemOf(p, ctx)])[k], HeightsAt(items + [ItemOf(p, ctx)], k + 1, zEpsilon))
    {
      HeightsStay(items, ItemOf(p, ctx), k + 1, zEpsilon);
    }
  }

  lemma MoveAdded(m: Model, p: Planned, ctx: Context, zEpsilon: real, classify: string -> FeatureClass)
    ensures var m' := Recorded(m, p, ctx, zEpsilon, classify); m'.moves == m.moves + [MoveOf(p, m'.layers, ctx.currentObject)]
  {
  }

  lemma {:induction false} HeightsStay(items: seq<Item>, item: Item, n: nat, zEpsilon: real)
    requires n <= |items| + 1
    ensures n <= |items| ==> HeightsAt(items + [item], n, zEpsilon) == HeightsAt(items, n, zEpsilon)
    ensures n == |items| + 1 ==> HeightsAt(items + [item], n, zEpsilon) == Heights(items + [item], zEpsilon)
  {
    hide Heights;
    if n <= |items| {
      assert (items + [item])[..n] == items[..n];
    } else {
      assert (items + [item])[..n] == items + [item];
    }
  }

  lemma {:induction false} LastFollows(m: Model, items: seq<Item>, p: Planned, ctx: Context, zEpsilon: real, classify: string -> FeatureClass)
    requires WellRecorded(m, items, zEpsilon, classify)
    ensures FollowsAt(MoveOf(p, m.layers, ctx.currentObject), ItemOf(p, ctx), Heights(items, zEpsilon))
  {
    hide Heights, LayerSegments, Depositions, LayerShape;
    if m.layers != [] {
      assert LayerAt(m.layers[|m.layers| - 1], |m.layers| - 1, Heights(items, zEpsilon)[|m.layers| - 1], zEpsilon, classify);
    }
  }

  /** The layer a deposition lands in: a new one takes its bytes, its trust in Z and the pending annotation; the current one
      keeps them and reaches to the deposition's last byte.  Either counts a change of Z along the move as spiral. */
  lemma DepositedLayer(m: Model, p: Planned, ctx: Context, zEpsilon: real, classify: string -> FeatureClass)
    requires Deposits(p)
    ensures var layers := Recorded(m, p, ctx, zEpsilon, classify).layers;
            var opens := m.layers == [] || Abs(p.end.z - m.layers[|m.layers| - 1].z) > zEpsilon;
            var spiral := if p.end.z != p.start.z then 1 else 0;
            && |layers| == |m.layers| + (if opens then 1 else 0)
            && var l := layers[|layers| - 1];
               if opens then
                 && l.z == p.end.z && l.zKnown == p.endKnown.z && l.annotationZ == ctx.pendingZ && l.span.start == p.span.start
                 && l.spiralMoves == spiral && ContextAfter(m, p, ctx, zEpsilon).pendingZ == None
               else
                 var was := m.layers[|m.layers| - 1];
                 && l.z == was.z && l.zKnown == was.zKnown && l.annotationZ == was.annotationZ && l.span.start == was.span.start
                 && l.span.end >= p.span.end && l.span.end >= was.span.end && (l.span.end == p.span.end || l.span.end == was.span.end)
                 && (was.spiralMoves <= U32_MAX ==> l.spiralMoves == Saturated(was.spiralMoves + spiral))
  {
    hide PathsWith;
  }

  /** Consecutive layers differ in height by more than the tolerance. */
  lemma {:induction false} LayersAreApart(items: seq<Item>, zEpsilon: real, i: nat)
    requires 0 < i < |Heights(items, zEpsilon)|
    ensures Abs(Heights(items, zEpsilon)[i] - Heights(items, zEpsilon)[i - 1]) > zEpsilon
  {
    if i < |Heights(items[..|items| - 1], zEpsilon)| { LayersAreApart(items[..|items| - 1], zEpsilon, i); }
  }

  // ----- the builder -----

  /** What one line contributes: a `;TYPE:` or `;Z:` annotation, an object bracket, and its planned moves or an error.
      `START` carries the trimmed, upper-cased name, None when there is no usable one. */
  datatype Annotation = FeatureType(name: string) | ZHeight(z: real) | NoAnnotation
  datatype Bracket = ObjectStart(name: Option<string>) | ObjectEnd | NoBracket
  datatype Outcome = LineError | Moves(planned: seq<Planned>)
  datatype Line = Line(annotation: Annotation, bracket: Bracket, outcome: Outcome)

  function ContextAtLine(ctx: Context, line: Line): Context {
    ctx.(currentType := if line.annotation.FeatureType? then Some(line.annotation.name) else ctx.currentType,
         pendingZ := if line.annotation.ZHeight? then Some(line.annotation.z) else ctx.pendingZ,
         currentObject := match line.bracket
                          case ObjectStart(name) => name
                          case ObjectEnd => None
                          case NoBracket => ctx.currentObject)
  }

  const EMPTY_MODEL := Model([], [])

  class LayerModel {
    const zEpsilon: real
    const classify: string -> FeatureClass
    var layers: seq<Layer>
    var moves: seq<SimMove>
    var linesConsumed: nat
    var stopped: bool

    function View(): Model
      reads this
    {
      Model(layers, moves)
    }

    constructor (zEpsilon: real, classify: string -> FeatureClass)
      ensures View() == EMPTY_MODEL && linesConsumed == 0 && !stopped
      ensures this.zEpsilon == zEpsilon && this.classify == classify
    {
      this.zEpsilon, this.classify := zEpsilon, classify;
      layers, moves, linesConsumed, stopped := [], [], 0, false;
    }

    /** Record one planned move, opening a layer when a deposition lands beyond `zEpsilon` of the current one. */
    method RecordMove(p: Planned, ctx: Context) returns (next: Context)
      modifies this`layers, this`moves
      ensures View() == Recorded(old(View()), p, ctx, zEpsilon, classify)
      ensures next == ContextAfter(old(View()), p, ctx, zEpsilon)
    {
      next := ctx;
      var kind := KindOf(p);
      if kind == Extrusion {
        if OpensLayer(layers, p.end.z, zEpsilon) {
          layers := layers + [NewLayer(|layers|, p, ctx.pendingZ)];
          next := ctx.(pendingZ := None);
        }
        layers := layers[|layers| - 1 := LayerWith(layers[|layers| - 1], p, ctx.currentType, classify)];
      }
      moves := moves + [MoveOf(p, layers, ctx.currentObject)];
    }

    /** Replay the lines until one fails: the planned moves are recorded in order, each with the type and part open on its
        line, and whatever was recorded conserves deposition and is well formed. */
    method Build(lines: seq<Line>)
      requires View() == EMPTY_MODEL && linesConsumed == 0 && !stopped && zEpsilon >= 0.0
      modifies this`layers, this`moves, this`linesConsumed, this`stopped
      ensures linesConsumed <= |lines| && WellRecorded(View(), PlannedIn(lines, linesConsumed), zEpsilon, classify)
      ensures Follows(moves, PlannedIn(lines, linesConsumed), zEpsilon)
      ensures stopped <==> linesConsumed < |lines|
      ensures stopped ==> lines[linesConsumed].outcome.LineError?
      ensures forall k | 0 <= k < linesConsumed :: lines[k].outcome.Moves?
    {
      NothingRecorded(zEpsilon, classify);
      hide WellRecorded, LayersWith, Recorded, ContextAfter, Follows;
      var ctx := Context(None, None, None);
      for k := 0 to |lines|
        invariant linesConsumed == k && !stopped && WellRecorded(View(), PlannedIn(lines, k), zEpsilon, classify)
        invariant Follows(moves, PlannedIn(lines, k), zEpsilon) && ctx.currentType == TypeAt(lines, k) && ctx.currentObject == PartAt(lines, k)
        invariant forall j | 0 <= j < k :: lines[j].outcome.Moves?
      {
        ctx := ContextAtLine(ctx, lines[k]);
        if lines[k].outcome.LineError? {
          stopped := true;
          return;
        }
        linesConsumed := linesConsumed + 1;
        ctx := RecordLine(lines[k].outcome.planned, ctx, PlannedIn(lines, k));
      }
    }

    /** Record the moves of one line. */
    method RecordLine(planned: seq<Planned>, ctx: Context, ghost before: seq<Item>) returns (next: Context)
      requires zEpsilon >= 0.0 && WellRecorded(View(), before, zEpsilon, classify) && Follows(moves, before, zEpsilon)
      modifies this`layers, this`moves
      ensures WellRecorded(View(), before + ItemsOf(planned, ctx.currentType, ctx.currentObject), zEpsilon, classify)
      ensures Follows(moves, before + ItemsOf(planned, ctx.currentType, ctx.currentObject), zEpsilon)
      ensures next.currentType == ctx.currentType && next.currentObject == ctx.currentObject
    {
      hide WellRecorded, LayersWith, Follows, Recorded;
      next := ctx;
      ghost var all := ItemsOf(planned, ctx.currentType, ctx.currentObject);
      assert before + all[..0] == before;
      for i := 0 to |planned|
        invariant WellRecorded(View(), before + all[..i], zEpsilon, classify) && Follows(moves, before + all[..i], zEpsilon)
        invariant next.currentType == ctx.currentType && next.currentObject == ctx.currentObject
      {
        RecordingKeeps(View(), before + all[..i], planned[i], next, zEpsilon, classify);
        FollowsMore(View(), before + all[..i], planned[i], next, zEpsilon, classify);
        assert before + all[..i] + [ItemOf(planned[i], next)] == before + all[..i + 1];
        next := RecordMove(planned[i], next);
      }
      assert all[..|planned|] == all;
    }
  }

  lemma NothingRecorded(zEpsilon: real, classify: string -> FeatureClass)
    ensures WellRecorded(EMPTY_MODEL, [], zEpsilon, classify) && Follows([], [], zEpsilon)
  {
  }

  function ItemsOf(planned: seq<Planned>, typeName: Option<string>, part: Option<string>): (r: seq<Item>)
    ensures |r| == |planned|
  {
    seq(|planned|, k requires 0 <= k < |planned| => Item(planned[k], typeName, part))
  }

  /** The type named by the last `;TYPE:` of the first n lines. */
  function TypeAt(lines: seq<Line>, n: nat): Option<string>
    requires n <= |lines|
  {
    if n == 0 then None
    else if lines[n - 1].annotation.FeatureType? then Some(lines[n - 1].annotation.name)
    else TypeAt(lines, n - 1)
  }

  /** The part the last object bracket of the first n lines left open. */
  function PartAt(lines: seq<Line>, n: nat): Option<string>
    requires n <= |lines|
  {
    if n == 0 then None
    else match lines[n - 1].bracket
      case ObjectStart(name) => name
      case ObjectEnd => None
      case NoBracket => PartAt(lines, n - 1)
  }

  /** The planned moves of the first n lines, in order, each under the type and part open on its line. */
  function PlannedIn(lines: seq<Line>, n: nat): seq<Item>
    requires n <= |lines|
  {
    if n == 0 then []
    else
      PlannedIn(lines, n - 1) +
      if lines[n - 1].outcome.Moves? then ItemsOf(lines[n - 1].outcome.planned, TypeAt(lines, n), PartAt(lines, n)) else []
  }

  // ----- byte windows -----

  datatype WindowLayers = WindowLayers(layers: seq<nat>, beforeFirst: bool)

  /** The first offset past the window; a missing or degenerate end means the single offset `start`. */
  function EndExclusive(start: nat, end: Option<nat>): nat {
    if end.Some? && end.value > start then end.value
    else if start >= U64_MAX then U64_MAX else start + 1
  }

  function CellEnd(layers: seq<Layer>, i: nat): nat
    requires i < |layers|
  {
    if i + 1 < |layers| then layers[i + 1].span.start else U64_MAX
  }

  /** The layers a byte window can contain. */
  method LayersInWindow(layers: seq<Layer>, start: nat, end: Option<nat>) returns (r: WindowLayers)
    ensures r == WindowOf(layers, start, end)
  {
    var endExcl := EndExclusive(start, end);
    if layers == [] {
      return WindowLayers([], true);
    }
    var found: seq<nat> := [];
    for i := 0 to |layers|
      invariant found == CellsHit(layers, start, endExcl, i)
    {
      if start < CellEnd(layers, i) && layers[i].span.start < endExcl {
        found := found + [layers[i].index];
      }
    }
    r := WindowLayers(found, start < layers[0].span.start);
  }

  predicate Hit(layers: seq<Layer>, start: nat, endExcl: nat, i: nat)
    requires i < |layers|
  {
    start < CellEnd(layers, i) && layers[i].span.start < endExcl
  }

  function CellsHit(layers: seq<Layer>, start: nat, endExcl: nat, n: nat): seq<nat>
    requires n <= |layers|
  {
    if n == 0 then []
    else CellsHit(layers, start, endExcl, n - 1) + if Hit(layers, start, endExcl, n - 1) then [layers[n - 1].index] else []
  }

  function WindowOf(layers: seq<Layer>, start: nat, end: Option<nat>): WindowLayers {
    if layers == [] then WindowLayers([], true)
    else WindowLayers(CellsHit(layers, start, EndExclusive(start, end), |layers|), start < layers[0].span.start)
  }

  /** Layers start on distinct lines, in file order, below the top of the offset range. */
  predicate DistinctStarts(layers: seq<Layer>) {
    (forall i, j | 0 <= i < j < |layers| :: layers[i].span.start < layers[j].span.start) &&
    (forall i | 0 <= i < |layers| :: layers[i].index == i && layers[i].span.start < U64_MAX)
  }

  /** Layer i owns the offsets from its start up to the next layer's start. */
  predicate Owns(layers: seq<Layer>, i: nat, offset: nat)
    requires i < |layers|
  {
    layers[i].span.start <= offset < CellEnd(layers, i)
  }

  /** Every offset from the first layer's start on has exactly one owner. */
  lemma OneOwner(layers: seq<Layer>, offset: nat) returns (i: nat)
    requires DistinctStarts(layers) && layers != [] && layers[0].span.start <= offset < U64_MAX
    ensures i < |layers| && Owns(layers, i, offset)
    ensures forall j | 0 <= j < |layers| && Owns(layers, j, offset) :: j == i
  {
    i := |layers| - 1;
    while layers[i].span.start > offset
      invariant i < |layers| && offset < CellEnd(layers, i)
      decreases i
    {
      i := i - 1;
    }
  }

  lemma {:induction false} CellsHitExactly(layers: seq<Layer>, start: nat, endExcl: nat, n: nat)
    requires DistinctStarts(layers) && n <= |layers|
    ensures forall i | 0 <= i < |layers| :: i in CellsHit(layers, start, endExcl, n) <==> i < n && Hit(layers, start, endExcl, i)
    ensures forall i | i in CellsHit(layers, start, endExcl, n) :: i < n
  {
    hide Hit;
    if n > 0 { CellsHitExactly(layers, start, endExcl, n - 1); }
  }

  lemma {:induction false} CellsHitConsecutive(layers: seq<Layer>, start: nat, endExcl: nat, n: nat)
    requires DistinctStarts(layers) && n <= |layers|
    ensures Consecutive(CellsHit(layers, start, endExcl, n))
  {
    if n > 0 {
      CellsHitConsecutive(layers, start, endExcl, n - 1);
      var r := CellsHit(layers, start, endExcl, n - 1);
      if Hit(layers, start, endExcl, n - 1) && r != [] {
        CellsHitExactly(layers, start, endExcl, n - 1);
        var last := r[|r| - 1];
        assert last in r;
        HitBefore(layers, start, endExcl, last, n - 1);
        assert n - 2 in r;
        hide DistinctStarts, Hit;
        ConsecutiveLast(r, n - 2);
      }
    }
  }

  /** Between two layers a window hits it hits every layer. */
  lemma HitBefore(layers: seq<Layer>, start: nat, endExcl: nat, i: nat, j: nat)
    requires DistinctStarts(layers) && i < j < |layers| && Hit(layers, start, endExcl, i) && Hit(layers, start, endExcl, j)
    ensures Hit(layers, start, endExcl, j - 1)
  {
  }

  lemma ConsecutiveLast(r: seq<nat>, v: nat)
    requires Consecutive(r) && v in r && forall x | x in r :: x <= v
    ensures r[|r| - 1] == v
  {
    assert r[|r| - 1] in r;
  }

  predicate Consecutive(r: seq<nat>) {
    forall k | 0 <= k < |r| :: r[k] == r[0] + k
  }

  /** The offsets of a window: from `start` up to, not including, its end; with no end past the start, `start` alone. */
  predicate InQuery(start: nat, end: Option<nat>, o: nat) {
    o == start || (end.Some? && start <= o < end.value)
  }

  /** A window's layers are the contiguous union of the owners of its offsets. */
  lemma WindowIsUnionOfOwners(layers: seq<Layer>, start: nat, end: Option<nat>)
    requires DistinctStarts(layers) && layers != [] && start < U64_MAX && (end.Some? ==> end.value <= U64_MAX)
    ensures var r := WindowOf(layers, start, end);
            && (forall i: nat :: i in r.layers <==> i < |layers| && exists o: nat :: InQuery(start, end, o) && Owns(layers, i, o))
            && Consecutive(r.layers)
            && (r.beforeFirst <==> forall i: nat | i < |layers| :: !Owns(layers, i, start))
  {
    var e := EndExclusive(start, end);
    CellsHitExactly(layers, start, e, |layers|);
    CellsHitConsecutive(layers, start, e, |layers|);
    forall i: nat | i < |layers|
      ensures Hit(layers, start, e, i) <==> exists o: nat :: InQuery(start, end, o) && Owns(layers, i, o)
    {
      var o := MaxNat(start, layers[i].span.start);
      if Hit(layers, start, e, i) {
        assert layers[i].span.start < CellEnd(layers, i);
        assert InQuery(start, end, o) && Owns(layers, i, o);
      }
    }
    if start >= layers[0].span.start {
      var i := OneOwner(layers, start);
    }
  }

  /** The comment on `layers_in_window` reads a missing end as "to the end"; the code reads it as the one offset `start`.
      The two agree exactly when the last layer has begun by `start`. */
  lemma MissingEndReadsToTheEndIffLastLayer(layers: seq<Layer>, start: nat)
    requires DistinctStarts(layers) && layers != [] && start < U64_MAX
    ensures WindowOf(layers, start, None).layers == WindowOf(layers, start, Some(U64_MAX)).layers <==>
              layers[|layers| - 1].span.start <= start
  {
    var last := |layers| - 1;
    if layers[last].span.start <= start {
      SameCellsHit(layers, start, start + 1, U64_MAX, |layers|);
    } else {
      CellsHitExactly(layers, start, start + 1, |layers|);
      CellsHitExactly(layers, start, U64_MAX, |layers|);
      assert Hit(layers, start, U64_MAX, last) && !Hit(layers, start, start + 1, last);
    }
  }

  lemma {:induction false} SameCellsHit(layers: seq<Layer>, start: nat, e: nat, f: nat, n: nat)
    requires n <= |layers| && forall i | 0 <= i < n :: Hit(layers, start, e, i) == Hit(layers, start, f, i)
    ensures CellsHit(layers, start, e, n) == CellsHit(layers, start, f, n)
  {
    if n > 0 { SameCellsHit(layers, start, e, f, n - 1); }
  }

  /** Two layers on which they differ. */
  lemma MissingEndIsNotToTheEnd(a: Layer, b: Layer)
    requires a.index == 0 && b.index == 1 && a.span.start == 0 && b.span.start == 10
    ensures WindowOf([a, b], 0, None).layers == [0] && WindowOf([a, b], 0, Some(20)).layers == [0, 1]
  {
    var layers := [a, b];
    assert CellsHit(layers, 0, 1, 1) == [0] && CellsHit(layers, 0, 20, 1) == [0];
  }

  /** The first depositing move whose line starts at or after `offset`. */
  function FirstDepositionAtOrAfter(moves: seq<SimMove>, offset: nat): Option<SimMove> {
    if moves == [] then None
    else if moves[0].kind == Extrusion && moves[0].span.start >= offset then Some(moves[0])
    else FirstDepositionAtOrAfter(moves[1..], offset)
  }
}
