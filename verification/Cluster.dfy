/** The multi-core interconnect: distances, neighbours, and the links a message uses on rings and ragged meshes. */
module Cluster {
  import opened Words
  import opened Cursors
  import opened Grids

  datatype Topology = Isolated | Ring | Mesh
  datatype Routing = ColumnsFirst | RowsFirst | UnknownRouting

  /** A cluster of cores; a mesh fills its rows in order and may leave the end of the last ones empty. */
  datatype Shape = Shape(cores: nat, topology: Topology, rows: nat, cols: nat, routing: Routing)

  /** What creating a cluster guarantees. */
  ghost predicate ValidShape(c: Shape)
  {
    && 0 < c.cores <= 256
    && (c.topology == Mesh ==> c.rows > 0 && c.cols == Div(c.cores + c.rows - 1, c.rows))
  }

  lemma MeshHolds(c: Shape)
    requires ValidShape(c) && c.topology == Mesh
    ensures c.cols > 0 && c.cores <= c.rows * c.cols
  {
    DivBelow(c.cores + c.rows - 1, c.rows, 1);
    DivBelow(c.cores + c.rows - 1, c.rows, c.cols + 1);
    AddOneTimes(c.cols, c.rows);
    assert c.cols * c.rows == c.rows * c.cols;
  }

  /** A place on the mesh. */
  datatype Place = Place(row: nat, col: nat)

  function CoreAt(c: Shape, p: Place): nat { Mul(p.row, c.cols) + p.col }

  function PlaceOf(c: Shape, core: nat): (p: Place)
    requires c.cols > 0
    ensures p.col < c.cols && CoreAt(c, p) == core
  {
    DivModParts(core, c.cols);
    Place(Div(core, c.cols), Rem(core, c.cols))
  }

  /** Places and core numbers determine each other. */
  lemma PlaceUnique(c: Shape, p: Place)
    requires p.col < c.cols
    ensures PlaceOf(c, CoreAt(c, p)) == p
  {
    DivModUnique(p.row, c.cols, p.col);
  }

  /** An existing core lies within the mesh. */
  lemma PlaceInside(c: Shape, core: nat)
    requires ValidShape(c) && c.topology == Mesh && core < c.cores
    ensures c.cols > 0 && PlaceOf(c, core).row < c.rows
  {
    MeshHolds(c);
    DivBelow(core, c.cols, c.rows);
  }

  function Gap(a: nat, b: nat): nat { if a > b then a - b else b - a }

  /** Links between two cores, or nothing if they are not connected. */
  function HopDistance(c: Shape, src: nat, dst: nat): Option<nat>
    requires ValidShape(c)
  {
    if src >= c.cores || dst >= c.cores then None
    else if src == dst then Some(0)
    else
      match c.topology
      case Isolated => None
      case Ring => Some(Min(Dist(c.cores, src, dst), Dist(c.cores, dst, src)))
      case Mesh =>
        MeshHolds(c);
        var p, q := PlaceOf(c, src), PlaceOf(c, dst);
        if p.row >= c.rows || q.row >= c.rows then None else Some(Gap(p.row, q.row) + Gap(p.col, q.col))
  }

  /** Distance does not depend on direction, and is zero only from a core to itself. */
  lemma DistanceSymmetric(c: Shape, a: nat, b: nat)
    requires ValidShape(c)
    ensures HopDistance(c, a, b) == HopDistance(c, b, a)
    ensures HopDistance(c, a, b) == Some(0) <==> a == b < c.cores
  {
    if c.topology == Mesh && a < c.cores && b < c.cores {
      MeshHolds(c);
      assert PlaceOf(c, a) == PlaceOf(c, b) ==> a == b;
    }
  }

  // ----- Neighbours -----

  function NextOnRing(n: nat, core: nat): nat { if core + 1 == n then 0 else core + 1 }

  function PreviousOnRing(n: nat, core: nat): nat
    requires core < n
  {
    if core == 0 then n - 1 else core - 1
  }

  lemma RoomBefore(c: Shape, core: nat)
    requires c.cols > 0
    ensures PlaceOf(c, core).row > 0 ==> core >= c.cols
    ensures PlaceOf(c, core).col > 0 ==> core >= 1
  {
    if PlaceOf(c, core).row > 0 {
      MulMonotone(1, PlaceOf(c, core).row, c.cols);
    }
  }

  function MeshNeighbors(c: Shape, core: nat, p: Place): seq<nat>
    requires p.row > 0 ==> core >= c.cols
    requires p.col > 0 ==> core >= 1
  {
    (if p.row > 0 then [core - c.cols] else [])
    + (if p.row + 1 < c.rows && core + c.cols < c.cores then [core + c.cols] else [])
    + (if p.col > 0 then [core - 1] else [])
    + (if p.col + 1 < c.cols && core + 1 < c.cores then [core + 1] else [])
  }

  /** Neighbours in the order they are listed: previous and next on a ring; north, south, west, east on a mesh. */
  function Neighbors(c: Shape, core: nat): seq<nat>
    requires ValidShape(c)
  {
    if core >= c.cores then []
    else
      match c.topology
      case Isolated => []
      case Ring => if c.cores == 1 then [] else [PreviousOnRing(c.cores, core), NextOnRing(c.cores, core)]
      case Mesh =>
        MeshHolds(c);
        RoomBefore(c, core);
        MeshNeighbors(c, core, PlaceOf(c, core))
  }

  /** The neighbours of a core are exactly the cores one link away. */
  lemma NeighborsAreOneHop(c: Shape, a: nat, b: nat)
    requires ValidShape(c) && a < c.cores
    ensures b in Neighbors(c, a) <==> HopDistance(c, a, b) == Some(1)
  {
    if c.topology == Mesh {
      MeshHolds(c);
      if b < c.cores {
        MeshNeighbor(c, a, b);
      }
    }
  }

  /** Two cores of a mesh are one link apart exactly if their numbers differ as neighbours in a row or a column do. */
  lemma MeshNeighbor(c: Shape, a: nat, b: nat)
    requires ValidShape(c) && c.topology == Mesh && a < c.cores && b < c.cores && c.cols > 0
    ensures var p, q := PlaceOf(c, a), PlaceOf(c, b);
            && (p.row > 0 && b == a - c.cols <==> q.row + 1 == p.row && q.col == p.col)
            && (p.row + 1 < c.rows && b == a + c.cols <==> q.row == p.row + 1 && q.col == p.col)
            && (p.col > 0 && b == a - 1 <==> q.row == p.row && q.col + 1 == p.col)
            && (p.col + 1 < c.cols && b == a + 1 <==> q.row == p.row && q.col == p.col + 1)
            && p.row < c.rows && q.row < c.rows
  {
    PlaceInside(c, a);
    PlaceInside(c, b);
    ColumnNeighbor(c, a, b);
    RowNeighbor(c, a, b);
  }

  lemma ColumnNeighbor(c: Shape, a: nat, b: nat)
    requires c.cols > 0 && PlaceOf(c, a).row < c.rows && PlaceOf(c, b).row < c.rows
    ensures var p, q := PlaceOf(c, a), PlaceOf(c, b);
            && (p.row > 0 && b == a - c.cols <==> q.row + 1 == p.row && q.col == p.col)
            && (p.row + 1 < c.rows && b == a + c.cols <==> q.row == p.row + 1 && q.col == p.col)
  {
    var p, q := PlaceOf(c, a), PlaceOf(c, b);
    AddOneTimes(p.row, c.cols);
    AddOneTimes(q.row, c.cols);
    if p.row > 0 {
      AddOneTimes(p.row - 1, c.cols);
      PlaceUnique(c, Place(p.row - 1, p.col));
    }
    PlaceUnique(c, Place(p.row + 1, p.col));
  }

  lemma RowNeighbor(c: Shape, a: nat, b: nat)
    requires c.cols > 0
    ensures var p, q := PlaceOf(c, a), PlaceOf(c, b);
            && (p.col > 0 && b == a - 1 <==> q.row == p.row && q.col + 1 == p.col)
            && (p.col + 1 < c.cols && b == a + 1 <==> q.row == p.row && q.col == p.col + 1)
  {
    var p := PlaceOf(c, a);
    if p.col > 0 {
      PlaceUnique(c, Place(p.row, p.col - 1));
    }
    if p.col + 1 < c.cols {
      PlaceUnique(c, Place(p.row, p.col + 1));
    }
  }

  /** Being neighbours is mutual. */
  lemma NeighborsSymmetric(c: Shape, a: nat, b: nat)
    requires ValidShape(c) && a < c.cores && b < c.cores
    ensures b in Neighbors(c, a) <==> a in Neighbors(c, b)
  {
    NeighborsAreOneHop(c, a, b);
    NeighborsAreOneHop(c, b, a);
    DistanceSymmetric(c, a, b);
  }

  // ----- Routes -----

  datatype Link = Link(src: nat, dst: nat)

  /** The links from one core to another going one way around a ring. */
  function RingRoute(n: nat, cur: nat, dst: nat, clockwise: bool): (links: seq<Link>)
    requires cur < n && dst < n
    ensures |links| == if clockwise then Dist(n, cur, dst) else Dist(n, dst, cur)
    decreases if clockwise then Dist(n, cur, dst) else Dist(n, dst, cur)
  {
    if cur == dst then []
    else
      var next := if clockwise then NextOnRing(n, cur) else PreviousOnRing(n, cur);
      [Link(cur, next)] + RingRoute(n, next, dst, clockwise)
  }

  /** The links along a row; nothing if a core on the way does not exist. */
  function RowRoute(c: Shape, row: nat, col: nat, target: nat): Option<seq<Link>>
    decreases Gap(col, target)
  {
    if col == target then Some([])
    else
      var next := if col < target then col + 1 else col - 1;
      if CoreAt(c, Place(row, next)) >= c.cores then None
      else
        var rest := RowRoute(c, row, next, target);
        if rest.None? then None
        else Some([Link(CoreAt(c, Place(row, col)), CoreAt(c, Place(row, next)))] + rest.value)
  }

  /** The links along a column; nothing if a core on the way does not exist. */
  function ColumnRoute(c: Shape, row: nat, col: nat, target: nat): Option<seq<Link>>
    decreases Gap(row, target)
  {
    if row == target then Some([])
    else
      var next := if row < target then row + 1 else row - 1;
      if CoreAt(c, Place(next, col)) >= c.cores then None
      else
        var rest := ColumnRoute(c, next, col, target);
        if rest.None? then None
        else Some([Link(CoreAt(c, Place(row, col)), CoreAt(c, Place(next, col)))] + rest.value)
  }

  function Joined(first: Option<seq<Link>>, second: Option<seq<Link>>): Option<seq<Link>>
  {
    if first.Some? && second.Some? then Some(first.value + second.value) else None
  }

  /** The links a message uses, or nothing if the route leaves the mesh. */
  function Route(c: Shape, src: nat, dst: nat): Option<seq<Link>>
    requires ValidShape(c) && src < c.cores && dst < c.cores
  {
    match c.topology
    case Isolated => if src == dst then Some([]) else None
    case Ring => Some(RingRoute(c.cores, src, dst, Dist(c.cores, src, dst) <= Dist(c.cores, dst, src)))
    case Mesh =>
      MeshHolds(c);
      var p, q := PlaceOf(c, src), PlaceOf(c, dst);
      match c.routing
      case UnknownRouting => None
      case ColumnsFirst => Joined(RowRoute(c, p.row, p.col, q.col), ColumnRoute(c, p.row, q.col, q.row))
      case RowsFirst => Joined(ColumnRoute(c, p.row, p.col, q.row), RowRoute(c, q.row, p.col, q.col))
  }

  /** Links that lead from one core to another, each starting where the one before ends. */
  ghost predicate Walk(links: seq<Link>, src: nat, dst: nat)
  {
    if links == [] then src == dst else links[0].src == src && Walk(links[1..], links[0].dst, dst)
  }

  lemma {:induction false} WalkJoin(a: seq<Link>, b: seq<Link>, src: nat, mid: nat, dst: nat)
    requires Walk(a, src, mid) && Walk(b, mid, dst)
    ensures Walk(a + b, src, dst)
  {
    if a == [] {
      assert a + b == b;
    } else {
      WalkJoin(a[1..], b, a[0].dst, mid, dst);
      assert (a + b)[1..] == a[1..] + b;
    }
  }

  /** Every link joins two existing neighbours. */
  ghost predicate AllLinks(c: Shape, links: seq<Link>)
    requires ValidShape(c)
  {
    forall i :: 0 <= i < |links| ==> Adjacent(c, links[i])
  }

  /** A link between existing cores one hop apart. */
  ghost predicate Adjacent(c: Shape, link: Link)
    requires ValidShape(c)
  {
    link.src < c.cores && link.dst < c.cores && HopDistance(c, link.src, link.dst) == Some(1)
  }

  lemma {:induction false} RingRouteWalks(c: Shape, cur: nat, dst: nat, clockwise: bool)
    requires ValidShape(c) && c.topology == Ring && cur < c.cores && dst < c.cores
    ensures var links := RingRoute(c.cores, cur, dst, clockwise); Walk(links, cur, dst) && AllLinks(c, links)
    decreases if clockwise then Dist(c.cores, cur, dst) else Dist(c.cores, dst, cur)
  {
    if cur != dst {
      var next := if clockwise then NextOnRing(c.cores, cur) else PreviousOnRing(c.cores, cur);
      RingRouteWalks(c, next, dst, clockwise);
      var links, rest := RingRoute(c.cores, cur, dst, clockwise), RingRoute(c.cores, next, dst, clockwise);
      assert links[1..] == rest && links[0] == Link(cur, next);
      RingStep(c, cur, next);
    }
  }

  /** Adjacent cores of a ring are one link apart. */
  lemma RingStep(c: Shape, a: nat, b: nat)
    requires ValidShape(c) && c.topology == Ring && 1 < c.cores && a < c.cores
    requires b == NextOnRing(c.cores, a) || b == PreviousOnRing(c.cores, a)
    ensures b < c.cores && HopDistance(c, a, b) == Some(1)
  {
  }

  /** A row is walkable exactly if its core furthest to the right on the way exists; it takes one link per column. */
  lemma {:induction false} RowRouteWalks(c: Shape, row: nat, col: nat, target: nat)
    requires ValidShape(c) && c.topology == Mesh && col < c.cols && target < c.cols
    requires CoreAt(c, Place(row, col)) < c.cores
    ensures var r := RowRoute(c, row, col, target);
            && (r.Some? <==> CoreAt(c, Place(row, target)) < c.cores)
            && (r.Some? ==>
                  && |r.value| == Gap(col, target) && AllLinks(c, r.value)
                  && Walk(r.value, CoreAt(c, Place(row, col)), CoreAt(c, Place(row, target))))
    decreases Gap(col, target)
  {
    if col != target {
      var next := if col < target then col + 1 else col - 1;
      if CoreAt(c, Place(row, next)) < c.cores {
        RowRouteWalks(c, row, next, target);
        PlaceStep(c, Place(row, col), Place(row, next));
        var r, rest := RowRoute(c, row, col, target), RowRoute(c, row, next, target);
        if r.Some? {
          assert r.value[1..] == rest.value;
        }
      }
    }
  }

  /** A column is walkable exactly if its target exists; it takes one link per row. */
  lemma {:induction false} ColumnRouteWalks(c: Shape, row: nat, col: nat, target: nat)
    requires ValidShape(c) && c.topology == Mesh && col < c.cols && CoreAt(c, Place(row, col)) < c.cores
    ensures var r := ColumnRoute(c, row, col, target);
            && (r.Some? <==> CoreAt(c, Place(target, col)) < c.cores)
            && (r.Some? ==>
                  && |r.value| == Gap(row, target) && AllLinks(c, r.value)
                  && Walk(r.value, CoreAt(c, Place(row, col)), CoreAt(c, Place(target, col))))
    decreases Gap(row, target)
  {
    if row != target {
      var next := if row < target then row + 1 else row - 1;
      AddOneTimes(Min(row, next), c.cols);
      MulMonotone(if row < target then next else target, if row < target then target else next, c.cols);
      if CoreAt(c, Place(next, col)) < c.cores {
        ColumnRouteWalks(c, next, col, target);
        PlaceStep(c, Place(row, col), Place(next, col));
        var r, rest := ColumnRoute(c, row, col, target), ColumnRoute(c, next, col, target);
        if r.Some? {
          assert r.value[1..] == rest.value;
        }
      }
    }
  }

  /** Adjacent places are one link apart. */
  lemma PlaceStep(c: Shape, p: Place, q: Place)
    requires ValidShape(c) && c.topology == Mesh && p.col < c.cols && q.col < c.cols
    requires CoreAt(c, p) < c.cores && CoreAt(c, q) < c.cores && Gap(p.row, q.row) + Gap(p.col, q.col) == 1
    ensures HopDistance(c, CoreAt(c, p), CoreAt(c, q)) == Some(1)
  {
    PlaceUnique(c, p);
    PlaceUnique(c, q);
    PlaceInside(c, CoreAt(c, p));
    PlaceInside(c, CoreAt(c, q));
  }

  /** The corner a mesh route turns at. */
  function Corner(c: Shape, src: nat, dst: nat): Place
    requires c.cols > 0
  {
    var p, q := PlaceOf(c, src), PlaceOf(c, dst);
    if c.routing == RowsFirst then Place(q.row, p.col) else Place(p.row, q.col)
  }

  /** A route along the row first. */
  lemma ColumnsFirstRoute(c: Shape, p: Place, q: Place)
    requires ValidShape(c) && c.topology == Mesh && p.col < c.cols && q.col < c.cols
    requires CoreAt(c, p) < c.cores && CoreAt(c, q) < c.cores
    ensures var r := Joined(RowRoute(c, p.row, p.col, q.col), ColumnRoute(c, p.row, q.col, q.row));
            && (r.Some? <==> CoreAt(c, Place(p.row, q.col)) < c.cores)
            && (r.Some? ==> Walk(r.value, CoreAt(c, p), CoreAt(c, q)) && AllLinks(c, r.value)
                            && |r.value| == Gap(p.row, q.row) + Gap(p.col, q.col))
  {
    RowRouteWalks(c, p.row, p.col, q.col);
    var corner := CoreAt(c, Place(p.row, q.col));
    if corner < c.cores {
      ColumnRouteWalks(c, p.row, q.col, q.row);
      JoinLegs(c, RowRoute(c, p.row, p.col, q.col).value, ColumnRoute(c, p.row, q.col, q.row).value,
               CoreAt(c, p), corner, CoreAt(c, q));
    }
  }

  /** A route along the column first. */
  lemma RowsFirstRoute(c: Shape, p: Place, q: Place)
    requires ValidShape(c) && c.topology == Mesh && p.col < c.cols && q.col < c.cols
    requires CoreAt(c, p) < c.cores && CoreAt(c, q) < c.cores
    ensures var r := Joined(ColumnRoute(c, p.row, p.col, q.row), RowRoute(c, q.row, p.col, q.col));
            && (r.Some? <==> CoreAt(c, Place(q.row, p.col)) < c.cores)
            && (r.Some? ==> Walk(r.value, CoreAt(c, p), CoreAt(c, q)) && AllLinks(c, r.value)
                            && |r.value| == Gap(p.row, q.row) + Gap(p.col, q.col))
  {
    ColumnRouteWalks(c, p.row, p.col, q.row);
    var corner := CoreAt(c, Place(q.row, p.col));
    if corner < c.cores {
      RowRouteWalks(c, q.row, p.col, q.col);
      JoinLegs(c, ColumnRoute(c, p.row, p.col, q.row).value, RowRoute(c, q.row, p.col, q.col).value,
               CoreAt(c, p), corner, CoreAt(c, q));
    }
  }

  /**
   Routing on a ragged mesh: a route exists exactly if the core at its corner does. A successful route leads from source
   to destination over links between neighbours, as many as the distance says.
   */
  lemma MeshRoute(c: Shape, src: nat, dst: nat)
    requires ValidShape(c) && c.topology == Mesh && c.routing != UnknownRouting && src < c.cores && dst < c.cores
    ensures c.cols > 0 && (Route(c, src, dst).Some? <==> CoreAt(c, Corner(c, src, dst)) < c.cores)
    ensures Route(c, src, dst).Some? ==>
              && Walk(Route(c, src, dst).value, src, dst) && AllLinks(c, Route(c, src, dst).value)
              && HopDistance(c, src, dst) == Some(|Route(c, src, dst).value|)
  {
    MeshDistance(c, src, dst);
    if c.routing == ColumnsFirst {
      ColumnsFirstRoute(c, PlaceOf(c, src), PlaceOf(c, dst));
    } else {
      RowsFirstRoute(c, PlaceOf(c, src), PlaceOf(c, dst));
    }
  }

  /** Two legs make one route. */
  lemma JoinLegs(c: Shape, a: seq<Link>, b: seq<Link>, src: nat, mid: nat, dst: nat)
    requires ValidShape(c) && Walk(a, src, mid) && Walk(b, mid, dst) && AllLinks(c, a) && AllLinks(c, b)
    ensures Walk(a + b, src, dst) && AllLinks(c, a + b)
  {
    WalkJoin(a, b, src, mid, dst);
    AllLinksJoin(c, a, b);
  }

  lemma AllLinksJoin(c: Shape, a: seq<Link>, b: seq<Link>)
    requires ValidShape(c) && AllLinks(c, a) && AllLinks(c, b)
    ensures AllLinks(c, a + b)
  {
    forall i | 0 <= i < |a + b|
      ensures Adjacent(c, (a + b)[i])
    {
      assert (a + b)[i] == if i < |a| then a[i] else b[i - |a|];
    }
  }

  /** Between existing cores of a mesh the distance is the sum of the gaps. */
  lemma MeshDistance(c: Shape, src: nat, dst: nat)
    requires ValidShape(c) && c.topology == Mesh && src < c.cores && dst < c.cores
    ensures c.cols > 0
    ensures var p, q := PlaceOf(c, src), PlaceOf(c, dst);
            HopDistance(c, src, dst) == Some(Gap(p.row, q.row) + Gap(p.col, q.col))
  {
    PlaceInside(c, src);
    PlaceInside(c, dst);
  }

  /** At least one of the two mesh routings always succeeds, and on a full mesh both do. */
  lemma SomeRoutingSucceeds(c: Shape, src: nat, dst: nat)
    requires ValidShape(c) && c.topology == Mesh && src < c.cores && dst < c.cores
    ensures Route(c.(routing := ColumnsFirst), src, dst).Some? || Route(c.(routing := RowsFirst), src, dst).Some?
    ensures c.cores == c.rows * c.cols ==>
              Route(c.(routing := ColumnsFirst), src, dst).Some? && Route(c.(routing := RowsFirst), src, dst).Some?
  {
    MeshRoute(c.(routing := ColumnsFirst), src, dst);
    MeshRoute(c.(routing := RowsFirst), src, dst);
    PlaceInside(c, src);
    PlaceInside(c, dst);
    var p, q := PlaceOf(c, src), PlaceOf(c, dst);
    if p.row <= q.row {
      MulMonotone(p.row, q.row, c.cols);
    } else {
      MulMonotone(q.row, p.row, c.cols);
    }
    if c.cores == c.rows * c.cols {
      CellBelow(c.rows, c.cols, p.row, q.col);
      CellBelow(c.rows, c.cols, q.row, p.col);
    }
  }

  /** Every row of the mesh is full, or there is only one. */
  predicate FullRows(c: Shape)
    requires c.cols > 0
  {
    c.cores <= c.cols || Rem(c.cores, c.cols) == 0
  }

  /** With full rows every corner is a core. */
  lemma CornerInside(c: Shape, src: nat, dst: nat)
    requires ValidShape(c) && c.topology == Mesh && src < c.cores && dst < c.cores && c.cols > 0 && FullRows(c)
    ensures CoreAt(c, Corner(c, src, dst)) < c.cores
  {
    var p, q := PlaceOf(c, src), PlaceOf(c, dst);
    if c.cores <= c.cols {
      FirstRow(c, src);
      FirstRow(c, dst);
    } else {
      DivModParts(c.cores, c.cols);
      RowEnds(c, p, q.col);
      RowEnds(c, q, p.col);
    }
  }

  lemma FirstRow(c: Shape, core: nat)
    requires core < c.cols
    ensures PlaceOf(c, core) == Place(0, core)
  {
    DivModUnique(0, c.cols, core);
  }

  /** In a full row every column has a core. */
  lemma RowEnds(c: Shape, p: Place, col: nat)
    requires c.cols > 0 && CoreAt(c, p) < c.cores == Mul(Div(c.cores, c.cols), c.cols) && col < c.cols
    ensures CoreAt(c, Place(p.row, col)) < c.cores
  {
    var rows := Div(c.cores, c.cols);
    if p.row >= rows {
      MulMonotone(rows, p.row, c.cols);
    } else {
      MulMonotone(p.row + 1, rows, c.cols);
      AddOneTimes(p.row, c.cols);
    }
  }

  /** The last core, and the last of the first row. */
  function FarEnds(c: Shape): (ends: (nat, nat))
    requires ValidShape(c) && c.cores > c.cols > 0
    ensures ends.0 < c.cores && ends.1 < c.cores
  {
    if c.routing == RowsFirst then (c.cols - 1, c.cores - 1) else (c.cores - 1, c.cols - 1)
  }

  /** Otherwise the corner between the last core and the end of the first row is missing. */
  lemma CornerMissing(c: Shape)
    requires ValidShape(c) && c.topology == Mesh && c.cols > 0 && !FullRows(c)
    ensures CoreAt(c, Corner(c, FarEnds(c).0, FarEnds(c).1)) >= c.cores
  {
    LastRow(c);
    FirstRow(c, c.cols - 1);
  }

  /** Where the last core is, and what its row lacks. */
  lemma LastRow(c: Shape)
    requires c.cols > 0 && Rem(c.cores, c.cols) > 0 && c.cores > 0
    ensures var row := Div(c.cores, c.cols);
            && PlaceOf(c, c.cores - 1) == Place(row, Rem(c.cores, c.cols) - 1)
            && CoreAt(c, Place(row, c.cols - 1)) >= c.cores
  {
    DivModParts(c.cores, c.cols);
    PlaceUnique(c, Place(Div(c.cores, c.cols), Rem(c.cores, c.cols) - 1));
  }

  /**
   A mesh routing reaches every core from every core exactly if the rows are full or there is only one. On any other
   mesh the last core and the end of the first row are out of reach of each other in one direction.
   */
  lemma MeshComplete(c: Shape)
    requires ValidShape(c) && c.topology == Mesh && c.routing != UnknownRouting
    ensures c.cols > 0
    ensures (forall src, dst :: 0 <= src < c.cores && 0 <= dst < c.cores ==> Route(c, src, dst).Some?) <==> FullRows(c)
    ensures !FullRows(c) ==> Route(c, FarEnds(c).0, FarEnds(c).1).None?
  {
    MeshHolds(c);
    if FullRows(c) {
      forall src: nat, dst: nat | src < c.cores && dst < c.cores
        ensures Route(c, src, dst).Some?
      {
        CornerInside(c, src, dst);
        MeshRoute(c, src, dst);
      }
    } else {
      CornerMissing(c);
      MeshRoute(c, FarEnds(c).0, FarEnds(c).1);
    }
  }

  /** Three cores in two rows: core 2 is two hops from core 1, but not along its row first. */
  lemma RaggedMeshFails(c: Shape)
    requires c == Shape(3, Mesh, 2, 2, ColumnsFirst)
    ensures ValidShape(c) && FarEnds(c) == (2, 1) && Route(c, FarEnds(c).0, FarEnds(c).1).None?
  {
    MeshComplete(c);
  }

  /** Routing on a ring always succeeds and takes the shorter way. */
  lemma RingRouteShortest(c: Shape, src: nat, dst: nat)
    requires ValidShape(c) && c.topology == Ring && src < c.cores && dst < c.cores
    ensures Route(c, src, dst).Some?
    ensures Walk(Route(c, src, dst).value, src, dst) && AllLinks(c, Route(c, src, dst).value)
    ensures HopDistance(c, src, dst) == Some(|Route(c, src, dst).value|)
  {
    RingRouteWalks(c, src, dst, Dist(c.cores, src, dst) <= Dist(c.cores, dst, src));
  }

  /** Every successful route makes as many neighbour steps as the distance says. */
  lemma RouteIsDistance(c: Shape, src: nat, dst: nat)
    requires ValidShape(c) && src < c.cores && dst < c.cores && Route(c, src, dst).Some?
    ensures Walk(Route(c, src, dst).value, src, dst) && AllLinks(c, Route(c, src, dst).value)
    ensures HopDistance(c, src, dst) == Some(|Route(c, src, dst).value|)
  {
    match c.topology
    case Isolated =>
    case Ring => RingRouteShortest(c, src, dst);
    case Mesh => MeshRoute(c, src, dst);
  }
}
