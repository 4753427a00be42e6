/**
 * The tone-curve editor of DIPSoftware/DiagramWidget.cpp: a list of control
 * points (x, y) that a press snaps to, updates or inserts into, and that a
 * drag edits.  The source's `float` coordinates are modelled as `real`:
 * they are only compared, and subtracted once for the snapping test.
 */
module DiagramWidgets {
  import opened Wrappers
  import opened Numeric

  datatype Vertex = Vertex(x: real, y: real)

  /** A pressed x within this distance of a vertex's x snaps to it. */
  const SNAP_TOLERANCE: real := 0.05

  /** `FLT_EPSILON`, 2^-23. */
  const FLT_EPSILON: real := 0.00000011920928955078125

  predicate Near(v: Vertex, x: real) {
    AbsReal(x - v.x) < SNAP_TOLERANCE
  }

  predicate StrictlyIncreasing(vs: seq<Vertex>) {
    forall i, j :: 0 <= i < j < |vs| ==> vs[i].x < vs[j].x
  }

  /** `point2Pair`: a widget pixel as a point of the unit square, y upwards. */
  function Point2Pair(w: int, h: int, px: int, py: int): (pos: Vertex)
    requires w > 0 && h > 0
    ensures pos.x * w as real == px as real
    ensures pos.y * h as real == (h - py) as real
    ensures 0 <= px <= w && 0 <= py <= h ==> 0.0 <= pos.x <= 1.0 && 0.0 <= pos.y <= 1.0
  {
    Vertex(px as real / w as real, (h - py) as real / h as real)
  }

  // ---------------------------------------------------------------------
  // Specification of mousePressEvent
  // ---------------------------------------------------------------------

  /** The first vertex from index k on whose x is near `x`. */
  function FirstNearFrom(vs: seq<Vertex>, x: real, k: nat): (r: Option<nat>)
    requires k <= |vs|
    decreases |vs| - k
    ensures r.Some? ==> k <= r.value < |vs| && Near(vs[r.value], x)
    ensures r.Some? ==> forall j :: k <= j < r.value ==> !Near(vs[j], x)
    ensures r.None? ==> forall j :: k <= j < |vs| ==> !Near(vs[j], x)
  {
    if k == |vs| then None
    else if Near(vs[k], x) then Some(k)
    else FirstNearFrom(vs, x, k + 1)
  }

  /** The pressed x after snapping: the x of the first near vertex in list
      order, or `x` itself when no vertex is near. */
  function SnapX(vs: seq<Vertex>, x: real): (sx: real)
    ensures forall k :: 0 <= k < |vs| && Near(vs[k], x) && (forall j :: 0 <= j < k ==> !Near(vs[j], x)) ==> sx == vs[k].x
    ensures (forall k :: 0 <= k < |vs| ==> !Near(vs[k], x)) ==> sx == x
    ensures sx == x || exists k :: 0 <= k < |vs| && vs[k].x == sx
  {
    match FirstNearFrom(vs, x, 0)
    case Some(k) => vs[k].x
    case None => x
  }

  /** Where the scan of consecutive vertex pairs stops. */
  datatype Hit = Update(index: nat) | InsertAt(index: nat) | Miss

  /** The scan over the pairs (vs[k], vs[k+1]), (vs[k+1], vs[k+2]), ...:
      a pair whose first x equals `x` is updated; `x` strictly inside a pair
      is inserted between them; a pair whose second x equals `x` is updated.
      It misses only when no vertex from k on has x and x is not in
      (vs[k].x, last x]. */
  function LocateFrom(vs: seq<Vertex>, x: real, k: nat): (h: Hit)
    decreases |vs| - k
    ensures h.Update? ==> k <= h.index < |vs| && vs[h.index].x == x
    ensures h.InsertAt? ==> k < h.index < |vs| && vs[h.index - 1].x < x < vs[h.index].x
    ensures h.Miss? && k + 1 < |vs| ==>
      (forall j :: k <= j < |vs| ==> vs[j].x != x) && !(vs[k].x < x <= vs[|vs| - 1].x)
  {
    if k + 1 >= |vs| then Miss
    else if x == vs[k].x then Update(k)
    else if vs[k].x < x < vs[k + 1].x then InsertAt(k + 1)
    else if x == vs[k + 1].x then Update(k + 1)
    else LocateFrom(vs, x, k + 1)
  }

  /** The vertex list after a press at the snapped position `pos`. */
  function PressVertices(vs: seq<Vertex>, pos: Vertex): seq<Vertex> {
    match LocateFrom(vs, pos.x, 0)
    case Update(i) => vs[i := Vertex(vs[i].x, pos.y)]
    case InsertAt(i) => vs[..i] + [pos] + vs[i..]
    case Miss => vs
  }

  /** The selected vertex (`vertexIt`) after a press at `pos`; a scan that
      misses leaves the previous selection. */
  function PressSelection(vs: seq<Vertex>, pos: Vertex, selected: Option<nat>): Option<nat> {
    match LocateFrom(vs, pos.x, 0)
    case Update(i) => Some(i)
    case InsertAt(i) => Some(i)
    case Miss => selected
  }

  /** A press on an existing x changes only that vertex's y; a press strictly
      between two consecutive vertices inserts exactly one vertex there, and
      the one selected is the vertex written. No existing x changes. */
  lemma PressEffect(vs: seq<Vertex>, pos: Vertex, selected: Option<nat>)
    ensures var r, h := PressVertices(vs, pos), LocateFrom(vs, pos.x, 0);
      && (h.Update? ==> |r| == |vs| && r[h.index] == Vertex(vs[h.index].x, pos.y)
                        && (forall j :: 0 <= j < |vs| && j != h.index ==> r[j] == vs[j]))
      && (h.InsertAt? ==> |r| == |vs| + 1 && 0 < h.index < |vs|
                          && r[..h.index] == vs[..h.index] && r[h.index] == pos && r[h.index + 1..] == vs[h.index..])
      && (h.Miss? ==> r == vs)
    ensures var r, sel := PressVertices(vs, pos), PressSelection(vs, pos, selected);
      LocateFrom(vs, pos.x, 0) != Miss ==> sel.Some? && sel.value < |r| && r[sel.value].x == pos.x
  {
  }

  /** A press keeps the vertices' x strictly increasing if they were. */
  lemma PressKeepsOrder(vs: seq<Vertex>, pos: Vertex)
    requires StrictlyIncreasing(vs)
    ensures StrictlyIncreasing(PressVertices(vs, pos))
  {
  }

  /** A press keeps the x of the first and of the last vertex. */
  lemma PressKeepsEndpoints(vs: seq<Vertex>, pos: Vertex)
    requires |vs| >= 2
    ensures var r := PressVertices(vs, pos);
      |r| >= |vs| && r[0].x == vs[0].x && r[|r| - 1].x == vs[|vs| - 1].x
  {
  }

  /** When the first vertex is at x = 0 and the last at x = 1, a press inside
      the widget always selects a vertex, whatever order the others are in. */
  lemma PressInsideSelects(vs: seq<Vertex>, w: int, h: int, px: int, py: int)
    requires |vs| >= 2 && vs[0].x == 0.0 && vs[|vs| - 1].x == 1.0
    requires w > 0 && h > 0 && 0 <= px <= w && 0 <= py <= h
    ensures var p := Point2Pair(w, h, px, py);
      LocateFrom(vs, SnapX(vs, p.x), 0) != Miss
  {
  }

  // ---------------------------------------------------------------------
  // The widget
  // ---------------------------------------------------------------------

  predicate IsEndpointX(x: real) {
    x >= 1.0 - FLT_EPSILON || x <= FLT_EPSILON
  }

  /** The vertex list after a drag to `pos` with vertex `k` selected: an
      endpoint vertex keeps its x and takes the new y, any other vertex
      becomes `pos`. */
  function MoveVertices(vs: seq<Vertex>, k: nat, pos: Vertex): (r: seq<Vertex>)
    requires k < |vs|
    ensures |r| == |vs| && forall j :: 0 <= j < |vs| && j != k ==> r[j] == vs[j]
    ensures IsEndpointX(vs[k].x) ==> r[k] == Vertex(vs[k].x, pos.y)
    ensures !IsEndpointX(vs[k].x) ==> r[k] == pos
  {
    if IsEndpointX(vs[k].x) then vs[k := Vertex(vs[k].x, pos.y)] else vs[k := pos]
  }

  /** `DiagramWidget`: the vertex list, whether the button is held, and the
      selected vertex `vertexIt`.  The iterator is an index: every press that
      inserts a vertex also reselects, and a press never misses, so no index
      is left pointing at an element that has moved. */
  class DiagramWidget {
    const width: int
    const height: int
    var vertices: seq<Vertex>
    var isPressed: bool
    var vertexIt: Option<nat>

    /** The curve keeps its endpoints at x = 0 and x = 1, and while the
        button is held some vertex is selected. */
    ghost predicate Valid()
      reads this
    {
      && width > 0 && height > 0
      && |vertices| >= 2 && vertices[0].x == 0.0 && vertices[|vertices| - 1].x == 1.0
      && (vertexIt.Some? ==> vertexIt.value < |vertices|)
      && (isPressed ==> vertexIt.Some?)
    }

    /** A new widget holds the identity curve [(0, 0), (1, 1)]. */
    constructor (w: int, h: int)
      requires w > 0 && h > 0
      ensures Valid() && width == w && height == h
      ensures vertices == [Vertex(0.0, 0.0), Vertex(1.0, 1.0)] && !isPressed && vertexIt == None
    {
      width, height := w, h;
      vertices := [Vertex(0.0, 0.0), Vertex(1.0, 1.0)];
      isPressed := false;
      vertexIt := None;
    }

    /** The snapping loop of `mousePressEvent`: the first vertex in list
        order whose x is within SNAP_TOLERANCE of `pos.x` lends it its x. */
    method SnapPosition(pos: Vertex) returns (snapped: Vertex)
      ensures snapped == Vertex(SnapX(vertices, pos.x), pos.y)
    {
      snapped := pos;
      var n := 0;
      while n < |vertices|
        invariant 0 <= n <= |vertices| && snapped == pos
        invariant forall j :: 0 <= j < n ==> !Near(vertices[j], pos.x)
      {
        if AbsReal(snapped.x - vertices[n].x) < SNAP_TOLERANCE {
          snapped := Vertex(vertices[n].x, snapped.y);
          break;
        }
        n := n + 1;
      }
    }

    /** The scan of `mousePressEvent` over consecutive vertex pairs: update
        or insert at `pos` and select the vertex written. */
    method UpdateOrInsert(pos: Vertex)
      modifies this`vertices, this`vertexIt
      ensures vertices == PressVertices(old(vertices), pos)
      ensures vertexIt == PressSelection(old(vertices), pos, old(vertexIt))
    {
      ghost var vs := vertices;
      var k := 0;
      while k + 1 < |vertices|
        invariant vertices == vs && vertexIt == old(vertexIt)
        invariant LocateFrom(vs, pos.x, k) == LocateFrom(vs, pos.x, 0)
      {
        if pos.x == vertices[k].x {
          assert LocateFrom(vs, pos.x, k) == Update(k);
          vertices := vertices[k := Vertex(vertices[k].x, pos.y)];
          vertexIt := Some(k);
          return;
        } else if vertices[k].x < pos.x < vertices[k + 1].x {
          assert LocateFrom(vs, pos.x, k) == InsertAt(k + 1);
          vertices := vertices[..k + 1] + [pos] + vertices[k + 1..];
          vertexIt := Some(k + 1);
          return;
        } else if pos.x == vertices[k + 1].x {
          assert LocateFrom(vs, pos.x, k) == Update(k + 1);
          vertices := vertices[k + 1 := Vertex(vertices[k + 1].x, pos.y)];
          vertexIt := Some(k + 1);
          return;
        }
        k := k + 1;
      }
    }

    /** `mousePressEvent` at pixel (px, py) of the widget. */
    method MousePress(px: int, py: int)
      requires Valid()
      requires 0 <= px <= width && 0 <= py <= height
      modifies this
      ensures Valid() && isPressed
      ensures var p := Point2Pair(width, height, px, py);
        var pos := Vertex(SnapX(old(vertices), p.x), p.y);
        && vertices == PressVertices(old(vertices), pos)
        && vertexIt == PressSelection(old(vertices), pos, old(vertexIt))
    {
      isPressed := true;
      var pos := Point2Pair(width, height, px, py);
      pos := SnapPosition(pos);
      PressInsideSelects(vertices, width, height, px, py);
      PressEffect(vertices, pos, vertexIt);
      PressKeepsEndpoints(vertices, pos);
      UpdateOrInsert(pos);
    }

    /** `mouseMoveEvent` at pixel (px, py): while the button is held, an
        endpoint vertex (x <= FLT_EPSILON or x >= 1 - FLT_EPSILON) takes
        only the new y, any other selected vertex becomes the pointer
        position; otherwise nothing changes. */
    method MouseMove(px: int, py: int)
      requires Valid()
      modifies this
      ensures Valid() && isPressed == old(isPressed) && vertexIt == old(vertexIt)
      ensures !old(isPressed) ==> vertices == old(vertices)
      ensures old(isPressed) ==>
        vertices == MoveVertices(old(vertices), vertexIt.value, Point2Pair(width, height, px, py))
      ensures old(isPressed) ==>
        var k, pos := vertexIt.value, Point2Pair(width, height, px, py);
        && |vertices| == |old(vertices)|
        && (forall j :: 0 <= j < |vertices| && j != k ==> vertices[j] == old(vertices[j]))
        && (IsEndpointX(old(vertices[k].x)) ==> vertices[k] == Vertex(old(vertices[k].x), pos.y))
        && (!IsEndpointX(old(vertices[k].x)) ==> vertices[k] == pos)
    {
      if isPressed {
        var pos := Point2Pair(width, height, px, py);
        var k := vertexIt.value;
        if vertices[k].x >= 1.0 - FLT_EPSILON || vertices[k].x <= FLT_EPSILON {
          vertices := vertices[k := Vertex(vertices[k].x, pos.y)];
        } else {
          vertices := vertices[k := pos];
        }
      }
    }

    /** `mouseReleaseEvent`: the button is no longer held. */
    method MouseRelease()
      requires Valid()
      modifies this
      ensures Valid() && !isPressed
      ensures vertices == old(vertices) && vertexIt == old(vertexIt)
    {
      isPressed := false;
    }
  }

  /** A drag moves an interior vertex to the pointer without regard to its
      neighbours: whenever the pointer's x is at or past the next vertex's x,
      the x order the presses keep is lost. */
  lemma MoveMayBreakOrder(vs: seq<Vertex>, k: nat, pos: Vertex)
    requires StrictlyIncreasing(vs) && k + 1 < |vs| && !IsEndpointX(vs[k].x)
    requires pos.x >= vs[k + 1].x
    ensures !StrictlyIncreasing(MoveVertices(vs, k, pos))
  {
  }

  /** Such a drag happens on a 4x4 widget: with the curve through x = 0,
      0.25, 0.5 and 1, dragging the vertex at 0.25 to pixel (3, 1) puts it
      at x = 0.75, past its neighbour at 0.5. */
  lemma MoveBreaksOrderExample()
    ensures var vs := [Vertex(0.0, 0.0), Vertex(0.25, 0.25), Vertex(0.5, 0.5), Vertex(1.0, 1.0)];
      && StrictlyIncreasing(vs)
      && !StrictlyIncreasing(MoveVertices(vs, 1, Point2Pair(4, 4, 3, 1)))
  {
    var vs := [Vertex(0.0, 0.0), Vertex(0.25, 0.25), Vertex(0.5, 0.5), Vertex(1.0, 1.0)];
    MoveMayBreakOrder(vs, 1, Point2Pair(4, 4, 3, 1));
  }
}
