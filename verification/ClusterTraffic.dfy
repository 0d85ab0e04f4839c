/** Link loads of a set of messages, and the traffic estimate built from them. */
module ClusterTraffic {
  import opened Words
  import opened Cursors
  import opened Grids
  import opened Cluster

  // ----- Loads -----

  ghost predicate LinksInside(n: nat, links: seq<Link>)
  {
    forall i :: 0 <= i < |links| ==> links[i].src < n && links[i].dst < n
  }

  /** The cell of the load table that a link owns. */
  function CellOf(n: nat, link: Link): (i: nat)
    requires link.src < n && link.dst < n
    ensures i < n * n
  {
    CellBelow(n, n, link.src, link.dst);
    link.src * n + link.dst
  }

  /** Different links own different cells. */
  lemma CellUnique(n: nat, a: Link, b: Link)
    requires a.src < n && a.dst < n && b.src < n && b.dst < n && CellOf(n, a) == CellOf(n, b)
    ensures a == b
  {
    CellBelow(n, n, a.src, a.dst);
    CellBelow(n, n, b.src, b.dst);
  }

  function Cells(n: nat, links: seq<Link>): (cells: seq<nat>)
    requires LinksInside(n, links)
    ensures |cells| == |links|
    ensures forall i :: 0 <= i < |links| ==> cells[i] == CellOf(n, links[i]) < n * n
  {
    seq(|links|, i requires 0 <= i < |links| => CellOf(n, links[i]))
  }

  ghost predicate CellsInside(loads: seq<nat>, cells: seq<nat>) { forall i :: 0 <= i < |cells| ==> cells[i] < |loads| }

  /** Loads after each listed cell has received a service time. */
  function Loaded(loads: seq<nat>, cells: seq<nat>, service: nat): (r: seq<nat>)
    requires CellsInside(loads, cells)
    ensures |r| == |loads|
    decreases |cells|
  {
    if cells == [] then loads
    else Loaded(loads[cells[0] := loads[cells[0]] + service], cells[1..], service)
  }

  lemma {:induction false} TotalUpdate(s: seq<nat>, i: nat, more: nat)
    requires i < |s|
    ensures Total(s[i := s[i] + more]) == Total(s) + more
  {
    var n, t := |s| - 1, s[i := s[i] + more];
    if i < n {
      TotalUpdate(s[..n], i, more);
      assert t[..n] == s[..n][i := s[..n][i] + more];
    } else {
      assert t[..n] == s[..n];
    }
  }

  /** A route adds its service time once per link, no more and no less. */
  lemma {:induction false} LoadedTotal(loads: seq<nat>, cells: seq<nat>, service: nat)
    requires CellsInside(loads, cells)
    ensures Total(Loaded(loads, cells, service)) == Total(loads) + Repeated(|cells|, service)
    decreases |cells|
  {
    if cells != [] {
      LoadedTotal(loads[cells[0] := loads[cells[0]] + service], cells[1..], service);
      TotalUpdate(loads, cells[0], service);
    }
  }

  /** Times a cell occurs in a list. */
  function Uses(cells: seq<nat>, cell: nat): nat
  {
    if cells == [] then 0 else (if cells[0] == cell then 1 else 0) + Uses(cells[1..], cell)
  }

  /** Each load grows by the service time for every use of its link, and by nothing else. */
  lemma {:induction false} LoadedAt(loads: seq<nat>, cells: seq<nat>, service: nat, cell: nat)
    requires CellsInside(loads, cells) && cell < |loads|
    ensures Loaded(loads, cells, service)[cell] == loads[cell] + Repeated(Uses(cells, cell), service)
    decreases |cells|
  {
    if cells != [] {
      LoadedAt(loads[cells[0] := loads[cells[0]] + service], cells[1..], service, cell);
    }
  }

  /** Times a link occurs in a list of links. */
  function Crossings(links: seq<Link>, link: Link): nat
  {
    if links == [] then 0 else (if links[0] == link then 1 else 0) + Crossings(links[1..], link)
  }

  /** A load cell speaks of one link: the cell's uses are the link's crossings. */
  lemma {:induction false} UsesAreCrossings(n: nat, links: seq<Link>, link: Link)
    requires LinksInside(n, links) && link.src < n && link.dst < n
    ensures Uses(Cells(n, links), CellOf(n, link)) == Crossings(links, link)
    decreases |links|
  {
    if links != [] {
      UsesAreCrossings(n, links[1..], link);
      assert Cells(n, links)[1..] == Cells(n, links[1..]);
      if CellOf(n, links[0]) == CellOf(n, link) {
        CellUnique(n, links[0], link);
      }
    }
  }

  /** Walking the first link and then the rest. */
  lemma LoadedFirst(n: nat, loads: seq<nat>, links: seq<Link>, service: nat)
    requires |loads| == n * n && LinksInside(n, links) && links != []
    ensures var i := CellOf(n, links[0]);
            && LinksInside(n, links[1..])
            && Loaded(loads, Cells(n, links), service)
               == Loaded(loads[i := loads[i] + service], Cells(n, links[1..]), service)
  {
    assert Cells(n, links)[1..] == Cells(n, links[1..]);
  }

  lemma RouteInside(c: Shape, src: nat, dst: nat)
    requires ValidShape(c) && src < c.cores && dst < c.cores && Route(c, src, dst).Some?
    ensures LinksInside(c.cores, Route(c, src, dst).value)
  {
    RouteIsDistance(c, src, dst);
    forall i | 0 <= i < |Route(c, src, dst).value|
      ensures Adjacent(c, Route(c, src, dst).value[i])
    {
    }
  }

  // ----- The walks -----

  /** Loads after one link has carried a service time. */
  function OneMore(n: nat, loads: seq<nat>, link: Link, service: nat): seq<nat>
    requires |loads| == n * n && link.src < n && link.dst < n
  {
    var i := CellOf(n, link);
    loads[i := loads[i] + service]
  }

  /** Adds a service time to one link. */
  method AddLink(n: nat, loads: array<nat>, src: nat, dst: nat, service: nat)
    requires loads.Length == n * n && src < n && dst < n
    modifies loads
    ensures loads[..] == OneMore(n, old(loads[..]), Link(src, dst), service)
  {
    CellBelow(n, n, src, dst);
    loads[src * n + dst] := loads[src * n + dst] + service;
  }

  lemma RingRouteInside(n: nat, cur: nat, dst: nat, clockwise: bool)
    requires cur < n && dst < n
    ensures LinksInside(n, RingRoute(n, cur, dst, clockwise))
    decreases if clockwise then Dist(n, cur, dst) else Dist(n, dst, cur)
  {
    if cur != dst {
      RingRouteInside(n, if clockwise then NextOnRing(n, cur) else PreviousOnRing(n, cur), dst, clockwise);
    }
  }

  lemma StepModulo(n: nat, cur: nat)
    requires cur < n
    ensures (cur + 1) % n == NextOnRing(n, cur) && (cur + n - 1) % n == PreviousOnRing(n, cur)
  {
    if cur + 1 < n {
      DivModUnique(0, n, cur + 1);
    } else {
      DivModUnique(1, n, 0);
    }
    if cur > 0 {
      DivModUnique(1, n, cur - 1);
    } else {
      DivModUnique(0, n, n - 1);
    }
  }

  lemma DistModulo(n: nat, a: nat, b: nat)
    requires a < n && b < n
    ensures (b + n - a) % n == Dist(n, a, b)
  {
    if b >= a {
      DivModUnique(1, n, b - a);
    } else {
      DivModUnique(0, n, b + n - a);
    }
  }

  /** What is left of a walk leads to the same loads as the whole walk did from its start. */
  ghost predicate Remaining(n: nat, loads: seq<nat>, rest: seq<Link>, before: seq<nat>, all: seq<Link>, service: nat)
  {
    && |loads| == |before| == n * n && LinksInside(n, rest) && LinksInside(n, all)
    && Loaded(loads, Cells(n, rest), service) == Loaded(before, Cells(n, all), service)
  }

  lemma RemainingStep(n: nat, loads: seq<nat>, rest: seq<Link>, before: seq<nat>, all: seq<Link>, service: nat)
    requires Remaining(n, loads, rest, before, all, service) && rest != []
    ensures Remaining(n, OneMore(n, loads, rest[0], service), rest[1..], before, all, service)
  {
    LoadedFirst(n, loads, rest, service);
  }

  /** The walk around a ring, the shorter way. */
  method WalkRing(n: nat, loads: array<nat>, src: nat, dst: nat, service: nat)
    requires loads.Length == n * n && src < n && dst < n
    modifies loads
    ensures Remaining(n, loads[..], [], old(loads[..]),
                      RingRoute(n, src, dst, Dist(n, src, dst) <= Dist(n, dst, src)), service)
  {
    DistModulo(n, src, dst);
    DistModulo(n, dst, src);
    var clockwise := (dst + n - src) % n <= (src + n - dst) % n;
    var cur: nat := src;
    RingRouteInside(n, src, dst, clockwise);
    while cur != dst
      invariant cur < n
      invariant Remaining(n, loads[..], RingRoute(n, cur, dst, clockwise),
                          old(loads[..]), RingRoute(n, src, dst, clockwise), service)
      decreases if clockwise then Dist(n, cur, dst) else Dist(n, dst, cur)
    {
      StepModulo(n, cur);
      var next := if clockwise then (cur + 1) % n else (cur + n - 1) % n;
      RemainingStep(n, loads[..], RingRoute(n, cur, dst, clockwise),
                    old(loads[..]), RingRoute(n, src, dst, clockwise), service);
      assert RingRoute(n, cur, dst, clockwise)[1..] == RingRoute(n, next, dst, clockwise);
      AddLink(n, loads, cur, next, service);
      cur := next;
    }
  }

  /** The same for a walk that may find its way blocked. */
  ghost predicate RemainingIfAny(n: nat, loads: seq<nat>, rest: Option<seq<Link>>, before: seq<nat>,
                                 all: Option<seq<Link>>, service: nat)
  {
    (rest.Some? <==> all.Some?) && (rest.Some? ==> Remaining(n, loads, rest.value, before, all.value, service))
  }

  lemma RowRouteInside(c: Shape, row: nat, col: nat, target: nat)
    requires CoreAt(c, Place(row, col)) < c.cores && RowRoute(c, row, col, target).Some?
    ensures LinksInside(c.cores, RowRoute(c, row, col, target).value)
    decreases Gap(col, target)
  {
    if col != target {
      RowRouteInside(c, row, if col < target then col + 1 else col - 1, target);
    }
  }

  lemma ColumnRouteInside(c: Shape, row: nat, col: nat, target: nat)
    requires CoreAt(c, Place(row, col)) < c.cores && ColumnRoute(c, row, col, target).Some?
    ensures LinksInside(c.cores, ColumnRoute(c, row, col, target).value)
    decreases Gap(row, target)
  {
    if row != target {
      ColumnRouteInside(c, if row < target then row + 1 else row - 1, col, target);
    }
  }

  function Toward(from: nat, target: nat): nat
    requires from != target
  {
    if from < target then from + 1 else from - 1
  }

  /** One step along a row: the next core exists, or the walk is blocked. */
  lemma RowStep(c: Shape, loads: seq<nat>, before: seq<nat>, all: Option<seq<Link>>, row: nat, col: nat, target: nat,
                service: nat)
    requires col != target && CoreAt(c, Place(row, col)) < c.cores
    requires RemainingIfAny(c.cores, loads, RowRoute(c, row, col, target), before, all, service)
    requires |loads| == c.cores * c.cores
    ensures CoreAt(c, Place(row, Toward(col, target))) >= c.cores ==> all.None?
    ensures CoreAt(c, Place(row, Toward(col, target))) < c.cores ==>
              var link := Link(CoreAt(c, Place(row, col)), CoreAt(c, Place(row, Toward(col, target))));
              RemainingIfAny(c.cores, OneMore(c.cores, loads, link, service),
                             RowRoute(c, row, Toward(col, target), target),
                             before, all, service)
  {
    var rest := RowRoute(c, row, col, target);
    if rest.Some? {
      RemainingStep(c.cores, loads, rest.value, before, all.value, service);
      assert rest.value[1..] == RowRoute(c, row, Toward(col, target), target).value;
    }
  }

  /** One step along a column. */
  lemma ColumnStep(c: Shape, loads: seq<nat>, before: seq<nat>, all: Option<seq<Link>>, row: nat, col: nat,
                   target: nat, service: nat)
    requires row != target && CoreAt(c, Place(row, col)) < c.cores
    requires RemainingIfAny(c.cores, loads, ColumnRoute(c, row, col, target), before, all, service)
    requires |loads| == c.cores * c.cores
    ensures CoreAt(c, Place(Toward(row, target), col)) >= c.cores ==> all.None?
    ensures CoreAt(c, Place(Toward(row, target), col)) < c.cores ==>
              var link := Link(CoreAt(c, Place(row, col)), CoreAt(c, Place(Toward(row, target), col)));
              RemainingIfAny(c.cores, OneMore(c.cores, loads, link, service),
                             ColumnRoute(c, Toward(row, target), col, target),
                             before, all, service)
  {
    var rest := ColumnRoute(c, row, col, target);
    if rest.Some? {
      RemainingStep(c.cores, loads, rest.value, before, all.value, service);
      assert rest.value[1..] == ColumnRoute(c, Toward(row, target), col, target).value;
    }
  }

  lemma Coordinates(c: Shape, row: nat, col: nat)
    requires col < c.cols
    ensures CoreAt(c, Place(row, col)) % c.cols == col && CoreAt(c, Place(row, col)) / c.cols == row
  {
    DivModUnique(row, c.cols, col);
  }

  /** The core number of the next place along a row. */
  lemma NextInRow(c: Shape, row: nat, col: nat, target: nat)
    requires col < c.cols && target < c.cols && col != target
    ensures var next := CoreAt(c, Place(row, Toward(col, target)));
            && next == (if col < target then CoreAt(c, Place(row, col)) + 1 else CoreAt(c, Place(row, col)) - 1)
            && next % c.cols == Toward(col, target) && next / c.cols == row
  {
    Coordinates(c, row, Toward(col, target));
  }

  /** The core number of the next place along a column. */
  lemma NextInColumn(c: Shape, row: nat, col: nat, target: nat)
    requires col < c.cols && row != target
    ensures var next := CoreAt(c, Place(Toward(row, target), col));
            && next == (if row < target then CoreAt(c, Place(row, col)) + c.cols
                        else CoreAt(c, Place(row, col)) - c.cols)
            && next / c.cols == Toward(row, target)
  {
    Coordinates(c, Toward(row, target), col);
    AddOneTimes(Min(row, Toward(row, target)), c.cols);
  }

  /** The walk along a row of the mesh; fails where the next core does not exist. */
  method WalkRow(c: Shape, loads: array<nat>, row: nat, start: nat, target: nat, service: nat) returns (ok: bool)
    requires loads.Length == c.cores * c.cores
    requires start < c.cols && target < c.cols && CoreAt(c, Place(row, start)) < c.cores
    modifies loads
    ensures ok == RowRoute(c, row, start, target).Some?
    ensures ok ==> Remaining(c.cores, loads[..], [], old(loads[..]), RowRoute(c, row, start, target).value, service)
  {
    ghost var all, col: nat := RowRoute(c, row, start, target), start;
    var cur: nat := row * c.cols + start;
    if all.Some? {
      RowRouteInside(c, row, start, target);
    }
    Coordinates(c, row, col);
    while cur % c.cols != target
      invariant col < c.cols && cur == CoreAt(c, Place(row, col)) < c.cores && cur % c.cols == col
      invariant cur / c.cols == row
      invariant RemainingIfAny(c.cores, loads[..], RowRoute(c, row, col, target), old(loads[..]), all, service)
      decreases Gap(col, target)
    {
      var next := if cur % c.cols < target then cur + 1 else cur - 1;
      RowStep(c, loads[..], old(loads[..]), all, row, col, target, service);
      NextInRow(c, row, col, target);
      if next >= c.cores || next / c.cols != cur / c.cols {
        return false;
      }
      AddLink(c.cores, loads, cur, next, service);
      cur, col := next, Toward(col, target);
    }
    ok := true;
  }

  /** The walk along a column of the mesh. */
  method WalkColumn(c: Shape, loads: array<nat>, start: nat, col: nat, target: nat, service: nat) returns (ok: bool)
    requires loads.Length == c.cores * c.cores
    requires col < c.cols && CoreAt(c, Place(start, col)) < c.cores
    modifies loads
    ensures ok == ColumnRoute(c, start, col, target).Some?
    ensures ok ==> Remaining(c.cores, loads[..], [], old(loads[..]), ColumnRoute(c, start, col, target).value, service)
  {
    ghost var all, row: nat := ColumnRoute(c, start, col, target), start;
    var cur: nat := start * c.cols + col;
    if all.Some? {
      ColumnRouteInside(c, start, col, target);
    }
    Coordinates(c, row, col);
    while cur / c.cols != target
      invariant cur == CoreAt(c, Place(row, col)) < c.cores && cur / c.cols == row
      invariant RemainingIfAny(c.cores, loads[..], ColumnRoute(c, row, col, target), old(loads[..]), all, service)
      decreases Gap(row, target)
    {
      ColumnStep(c, loads[..], old(loads[..]), all, row, col, target, service);
      NextInColumn(c, row, col, target);
      var next := if cur / c.cols < target then cur + c.cols else cur - c.cols;
      if next >= c.cores {
        return false;
      }
      AddLink(c.cores, loads, cur, next, service);
      cur, row := next, Toward(row, target);
    }
    ok := true;
  }

  /** A route has carried a service time on each of its links, and nothing else has changed. */
  ghost predicate Carried(n: nat, before: seq<nat>, after: seq<nat>, links: seq<Link>, service: nat)
  {
    |before| == n * n && LinksInside(n, links) && after == Loaded(before, Cells(n, links), service)
  }

  lemma {:induction false} LoadedConcat(loads: seq<nat>, a: seq<nat>, b: seq<nat>, service: nat)
    requires CellsInside(loads, a) && CellsInside(loads, b)
    ensures CellsInside(loads, a + b) && Loaded(loads, a + b, service) == Loaded(Loaded(loads, a, service), b, service)
    decreases |a|
  {
    if a == [] {
      assert a + b == b;
    } else {
      LoadedConcat(loads[a[0] := loads[a[0]] + service], a[1..], b, service);
      assert (a + b)[1..] == a[1..] + b;
    }
  }

  /** Two legs carried one after the other. */
  lemma CarriedJoin(n: nat, before: seq<nat>, middle: seq<nat>, after: seq<nat>, a: seq<Link>, b: seq<Link>,
                    service: nat)
    requires Carried(n, before, middle, a, service) && Carried(n, middle, after, b, service)
    ensures Carried(n, before, after, a + b, service)
  {
    LoadedConcat(before, Cells(n, a), Cells(n, b), service);
    assert Cells(n, a + b) == Cells(n, a) + Cells(n, b);
  }

  /** Adds a message's service time to the links of its route; reports a route that leaves the mesh. */
  method AddRoute(c: Shape, loads: array<nat>, src: nat, dst: nat, service: nat) returns (ok: bool)
    requires ValidShape(c) && loads.Length == c.cores * c.cores && src < c.cores && dst < c.cores
    modifies loads
    ensures ok == Route(c, src, dst).Some?
    ensures ok ==> Carried(c.cores, old(loads[..]), loads[..], Route(c, src, dst).value, service)
  {
    match c.topology
    case Isolated =>
      ok := src == dst;
    case Ring =>
      WalkRing(c.cores, loads, src, dst, service);
      ok := true;
    case Mesh =>
      MeshHolds(c);
      if c.routing == UnknownRouting {
        return false;
      }
      ok := WalkMesh(c, loads, PlaceOf(c, src), PlaceOf(c, dst), service);
  }

  /** The two legs of a mesh walk. */
  method WalkMesh(c: Shape, loads: array<nat>, p: Place, q: Place, service: nat) returns (ok: bool)
    requires ValidShape(c) && c.topology == Mesh && loads.Length == c.cores * c.cores && c.routing != UnknownRouting
    requires p.col < c.cols && q.col < c.cols && CoreAt(c, p) < c.cores
    modifies loads
    ensures var links := if c.routing == ColumnsFirst
              then Joined(RowRoute(c, p.row, p.col, q.col), ColumnRoute(c, p.row, q.col, q.row))
              else Joined(ColumnRoute(c, p.row, p.col, q.row), RowRoute(c, q.row, p.col, q.col));
            ok == links.Some? && (ok ==> Carried(c.cores, old(loads[..]), loads[..], links.value, service))
  {
    ghost var before := loads[..];
    if c.routing == ColumnsFirst {
      ok := WalkRow(c, loads, p.row, p.col, q.col, service);
      if ok {
        ghost var middle := loads[..];
        RowRouteWalks(c, p.row, p.col, q.col);
        ok := WalkColumn(c, loads, p.row, q.col, q.row, service);
        if ok {
          CarriedJoin(c.cores, before, middle, loads[..], RowRoute(c, p.row, p.col, q.col).value,
                      ColumnRoute(c, p.row, q.col, q.row).value, service);
        }
      }
    } else {
      ok := WalkColumn(c, loads, p.row, p.col, q.row, service);
      if ok {
        ghost var middle := loads[..];
        ColumnRouteWalks(c, p.row, p.col, q.row);
        ok := WalkRow(c, loads, q.row, p.col, q.col, service);
        if ok {
          CarriedJoin(c.cores, before, middle, loads[..], ColumnRoute(c, p.row, p.col, q.row).value,
                      RowRoute(c, q.row, p.col, q.col).value, service);
        }
      }
    }
  }

  // ----- Traffic -----

  datatype Switching = HopOnly | CutThrough | StoreForward | UnknownSwitching
  datatype Contention = SharedLink | IdealParallel | UnknownContention
  datatype Net = Net(shape: Shape, hopLatency: nat, switching: Switching, contention: Contention, linkBytes: nat)
  datatype Message = Message(src: nat, dst: nat, size: nat)
  datatype Stats = Stats(isolated: nat, estimated: nat, bottleneck: nat, busiest: Option<Link>)

  ghost predicate ValidNet(net: Net) { ValidShape(net.shape) && net.linkBytes > 0 }

  function Serialization(net: Net, size: nat): nat
    requires ValidNet(net)
  {
    Div(size + net.linkBytes - 1, net.linkBytes)
  }

  /** Cycles a message takes alone, or nothing if it cannot be sent. */
  function TransferCycles(net: Net, m: Message): Option<nat>
    requires ValidNet(net)
  {
    var hops := HopDistance(net.shape, m.src, m.dst);
    if hops.None? then None
    else if hops.value == 0 || m.size == 0 then Some(0)
    else
      match net.switching
      case HopOnly => Some(Mul(hops.value, net.hopLatency))
      case CutThrough => Some(Mul(hops.value, net.hopLatency) + Serialization(net, m.size))
      case StoreForward => Some(Mul(hops.value, net.hopLatency + Serialization(net, m.size)))
      case UnknownSwitching => None
  }

  /** Time a message occupies each link. */
  function Service(net: Net, size: nat): nat
    requires ValidNet(net)
  {
    if net.switching == HopOnly || size == 0 then 0 else Serialization(net, size)
  }

  /** A link moves so many bytes a cycle; the last cycle may be partly used. */
  lemma ServiceRoundsUp(net: Net, size: nat)
    requires ValidNet(net)
    ensures Service(net, size) == if net.switching == HopOnly then 0 else CeilDiv(size, net.linkBytes)
  {
    RoundUpAgrees(size, net.linkBytes);
    DivModUnique(0, net.linkBytes, 0);
  }

  /**
   A message alone pays latency for every hop. Cut-through adds its length on one link, store-and-forward on every
   link of the way, and hop-only switching nothing.
   */
  lemma MessageTime(net: Net, m: Message, hops: nat, length: nat)
    requires ValidNet(net) && HopDistance(net.shape, m.src, m.dst) == Some(hops)
    requires length == CeilDiv(m.size, net.linkBytes)
    ensures RouteLatency(net, m) == hops * net.hopLatency
    ensures TransferCycles(net, m) ==
            if hops == 0 || m.size == 0 then Some(0)
            else match net.switching
              case HopOnly => Some(hops * net.hopLatency)
              case CutThrough => Some(hops * net.hopLatency + length)
              case StoreForward => Some(hops * net.hopLatency + hops * length)
              case UnknownSwitching => None
  {
    RoundUpAgrees(m.size, net.linkBytes);
    Apart(hops, net.hopLatency, length);
  }

  lemma Apart(n: nat, a: nat, b: nat)
    ensures n * (a + b) == n * a + n * b
  {
  }

  predicate Sendable(net: Net, m: Message)
    requires ValidNet(net)
  {
    TransferCycles(net, m).Some? && Route(net.shape, m.src, m.dst).Some?
  }

  ghost predicate AllSendable(net: Net, ms: seq<Message>)
    requires ValidNet(net)
  {
    forall i :: 0 <= i < |ms| ==> Sendable(net, ms[i])
  }

  function Zeros(n: nat): (z: seq<nat>)
    ensures |z| == n && forall i :: 0 <= i < n ==> z[i] == 0
  {
    seq(n, _ => 0)
  }

  /** Link loads of a set of messages. */
  ghost function LoadsAfter(net: Net, ms: seq<Message>): (loads: seq<nat>)
    requires ValidNet(net) && AllSendable(net, ms)
    ensures |loads| == net.shape.cores * net.shape.cores
  {
    if ms == [] then Zeros(net.shape.cores * net.shape.cores)
    else
      var m := ms[|ms| - 1];
      RouteInside(net.shape, m.src, m.dst);
      Loaded(LoadsAfter(net, ms[..|ms| - 1]), Cells(net.shape.cores, Route(net.shape, m.src, m.dst).value),
             Service(net, m.size))
  }

  /** Hops times service, over all messages. */
  ghost function Work(net: Net, ms: seq<Message>): nat
    requires ValidNet(net) && AllSendable(net, ms)
  {
    if ms == [] then 0
    else
      var m := ms[|ms| - 1];
      Work(net, ms[..|ms| - 1]) + Mul(HopDistance(net.shape, m.src, m.dst).value, Service(net, m.size))
  }

  lemma {:induction false} TotalOfZeros(n: nat)
    ensures Total(Zeros(n)) == 0
  {
    if n > 0 {
      TotalOfZeros(n - 1);
      assert Zeros(n)[..n - 1] == Zeros(n - 1);
    }
  }

  /** Load is conserved: the loads of all links add up to hops times service over all messages. */
  lemma {:induction false} LoadConserved(net: Net, ms: seq<Message>)
    requires ValidNet(net) && AllSendable(net, ms)
    ensures Total(LoadsAfter(net, ms)) == Work(net, ms)
  {
    if ms == [] {
      TotalOfZeros(net.shape.cores * net.shape.cores);
    } else {
      var rest, m := ms[..|ms| - 1], ms[|ms| - 1];
      var links := Route(net.shape, m.src, m.dst).value;
      LoadConserved(net, rest);
      RouteInside(net.shape, m.src, m.dst);
      RouteIsDistance(net.shape, m.src, m.dst);
      LoadedTotal(LoadsAfter(net, rest), Cells(net.shape.cores, links), Service(net, m.size));
      RepeatedIsProduct(|links|, Service(net, m.size));
    }
  }

  /** Service times of the messages that cross a link, once per crossing. */
  ghost function CarriedBy(net: Net, ms: seq<Message>, link: Link): nat
    requires ValidNet(net) && AllSendable(net, ms)
  {
    if ms == [] then 0
    else
      var m := ms[|ms| - 1];
      CarriedBy(net, ms[..|ms| - 1], link)
        + Repeated(Crossings(Route(net.shape, m.src, m.dst).value, link), Service(net, m.size))
  }

  /** The load found in a link's cell is exactly what the messages crossing that link add up to. */
  lemma {:induction false} LoadOfLink(net: Net, ms: seq<Message>, link: Link)
    requires ValidNet(net) && AllSendable(net, ms) && link.src < net.shape.cores && link.dst < net.shape.cores
    ensures LoadsAfter(net, ms)[CellOf(net.shape.cores, link)] == CarriedBy(net, ms, link)
  {
    if ms != [] {
      var rest, m := ms[..|ms| - 1], ms[|ms| - 1];
      var links := Route(net.shape, m.src, m.dst).value;
      LoadOfLink(net, rest, link);
      RouteInside(net.shape, m.src, m.dst);
      LoadedAt(LoadsAfter(net, rest), Cells(net.shape.cores, links), Service(net, m.size),
               CellOf(net.shape.cores, link));
      UsesAreCrossings(net.shape.cores, links, link);
    }
  }

  function MaxOf(s: seq<nat>): nat
  {
    if s == [] then 0
    else
      var rest := MaxOf(s[..|s| - 1]);
      if s[|s| - 1] > rest then s[|s| - 1] else rest
  }

  lemma {:induction false} MaxOfIsLargest(s: seq<nat>)
    ensures forall i :: 0 <= i < |s| ==> s[i] <= MaxOf(s)
    ensures MaxOf(s) > 0 ==> MaxOf(s) in s
  {
    if s != [] {
      MaxOfIsLargest(s[..|s| - 1]);
    }
  }

  function Latencies(net: Net, ms: seq<Message>): (l: seq<nat>)
    requires ValidNet(net)
    ensures |l| == |ms|
  {
    seq(|ms|, i requires 0 <= i < |ms| => TransferCycles(net, ms[i]).GetOr(0))
  }

  /** Router latency along a message's route. */
  function RouteLatency(net: Net, m: Message): nat
    requires ValidNet(net)
  {
    Mul(HopDistance(net.shape, m.src, m.dst).GetOr(0), net.hopLatency)
  }

  function RouteCycles(net: Net, ms: seq<Message>): (l: seq<nat>)
    requires ValidNet(net)
    ensures |l| == |ms|
  {
    seq(|ms|, i requires 0 <= i < |ms| => RouteLatency(net, ms[i]))
  }

  /** Sends one message: its time alone and its route's latency, or a refusal. */
  method SendOne(net: Net, m: Message, loads: array<nat>) returns (ok: bool, alone: nat, route: nat)
    requires ValidNet(net) && loads.Length == net.shape.cores * net.shape.cores
    modifies loads
    ensures ok == Sendable(net, m)
    ensures ok ==> LinksInside(net.shape.cores, Route(net.shape, m.src, m.dst).value)
    ensures ok ==> loads[..] == Loaded(old(loads[..]),
                                       Cells(net.shape.cores, Route(net.shape, m.src, m.dst).value),
                                       Service(net, m.size))
    ensures ok ==> alone == TransferCycles(net, m).value && route == RouteLatency(net, m)
  {
    var cycles := TransferCycles(net, m);
    if cycles.None? {
      return false, 0, 0;
    }
    ok := AddRoute(net.shape, loads, m.src, m.dst, Service(net, m.size));
    alone, route := cycles.value, RouteLatency(net, m);
  }

  /** What one more message adds to everything collected. */
  lemma OneMoreMessage(net: Net, ms: seq<Message>, i: nat)
    requires ValidNet(net) && i < |ms| && AllSendable(net, ms[..i])
    ensures AllSendable(net, ms[..i + 1]) <==> Sendable(net, ms[i])
    ensures Sendable(net, ms[i]) ==>
              && LinksInside(net.shape.cores, Route(net.shape, ms[i].src, ms[i].dst).value)
              && LoadsAfter(net, ms[..i + 1])
                 == Loaded(LoadsAfter(net, ms[..i]),
                           Cells(net.shape.cores, Route(net.shape, ms[i].src, ms[i].dst).value),
                           Service(net, ms[i].size))
    ensures MaxOf(Latencies(net, ms[..i + 1]))
         == Max(MaxOf(Latencies(net, ms[..i])), TransferCycles(net, ms[i]).GetOr(0))
    ensures MaxOf(RouteCycles(net, ms[..i + 1])) == Max(MaxOf(RouteCycles(net, ms[..i])), RouteLatency(net, ms[i]))
  {
    var more := ms[..i + 1];
    assert more[..i] == ms[..i] && more[i] == ms[i];
    assert Latencies(net, more)[..i] == Latencies(net, ms[..i]);
    assert RouteCycles(net, more)[..i] == RouteCycles(net, ms[..i]);
    if Sendable(net, ms[i]) {
      RouteInside(net.shape, ms[i].src, ms[i].dst);
      forall k | 0 <= k < i + 1
        ensures Sendable(net, more[k])
      {
        assert k < i ==> more[k] == ms[..i][k];
      }
    }
  }

  /** Sends the messages one by one, collecting link loads and the longest isolated and route times. */
  method SendAll(net: Net, ms: seq<Message>, loads: array<nat>) returns (ok: bool, isolated: nat, longest: nat)
    requires ValidNet(net) && loads.Length == net.shape.cores * net.shape.cores
    requires loads[..] == Zeros(loads.Length)
    modifies loads
    ensures ok == AllSendable(net, ms)
    ensures ok ==> loads[..] == LoadsAfter(net, ms)
    ensures ok ==> isolated == MaxOf(Latencies(net, ms)) && longest == MaxOf(RouteCycles(net, ms))
  {
    isolated, longest := 0, 0;
    for i := 0 to |ms|
      invariant AllSendable(net, ms[..i]) && loads[..] == LoadsAfter(net, ms[..i])
      invariant isolated == MaxOf(Latencies(net, ms[..i])) && longest == MaxOf(RouteCycles(net, ms[..i]))
    {
      OneMoreMessage(net, ms, i);
      var alone, route;
      ok, alone, route := SendOne(net, ms[i], loads);
      if !ok {
        return;
      }
      isolated := if alone > isolated then alone else isolated;
      longest := if route > longest then route else longest;
    }
    assert ms[..|ms|] == ms;
    ok := true;
  }

  /** The largest of the first loads and the first link that carries it. */
  ghost predicate Leads(n: nat, loads: seq<nat>, count: nat, most: nat, at: Option<Link>)
    requires |loads| == n * n
  {
    && count <= |loads| && most == MaxOf(loads[..count])
    && (at.None? <==> most == 0)
    && (at.Some? ==>
          && at.value.src < n && at.value.dst < n && loads[CellOf(n, at.value)] == most
          && forall i :: 0 <= i < CellOf(n, at.value) ==> loads[i] < most)
  }

  /** One more load is looked at. */
  lemma LeadStep(n: nat, loads: seq<nat>, link: Link, most: nat, at: Option<Link>)
    requires |loads| == n * n && link.src < n && link.dst < n && Leads(n, loads, CellOf(n, link), most, at)
    ensures var x := loads[CellOf(n, link)];
            Leads(n, loads, CellOf(n, link) + 1, if x > most then x else most, if x > most then Some(link) else at)
  {
    var i := CellOf(n, link);
    assert loads[..i + 1][..i] == loads[..i];
    MaxOfIsLargest(loads[..i]);
    forall k | 0 <= k < i
      ensures loads[k] <= most
    {
      assert loads[..i][k] == loads[k];
    }
  }

  /** The largest load and the first link that carries it. */
  method Busiest(n: nat, loads: array<nat>) returns (most: nat, at: Option<Link>)
    requires loads.Length == n * n
    ensures most == MaxOf(loads[..])
    ensures at.None? <==> most == 0
    ensures at.Some? ==>
              && at.value.src < n && at.value.dst < n && loads[CellOf(n, at.value)] == most
              && forall i :: 0 <= i < CellOf(n, at.value) ==> loads[i] < most
  {
    most, at := 0, None;
    var i := 0;
    for src := 0 to n
      invariant i == src * n && Leads(n, loads[..], i, most, at)
    {
      most, at := BusiestInRow(n, loads, src, most, at);
      AddOneTimes(src, n);
      i := i + n;
    }
    assert loads[..][..n * n] == loads[..];
  }

  /** One row of the search. */
  method BusiestInRow(n: nat, loads: array<nat>, src: nat, most0: nat, at0: Option<Link>)
    returns (most: nat, at: Option<Link>)
    requires loads.Length == n * n && src < n && Leads(n, loads[..], src * n, most0, at0)
    ensures Leads(n, loads[..], src * n + n, most, at)
  {
    most, at := most0, at0;
    for dst := 0 to n
      invariant Leads(n, loads[..], src * n + dst, most, at)
    {
      LeadStep(n, loads[..], Link(src, dst), most, at);
      CellBelow(n, n, src, dst);
      var load := loads[src * n + dst];
      if load > most {
        most, at := load, Some(Link(src, dst));
      }
    }
  }

  /** The estimate for simultaneous messages. */
  method EstimateTraffic(net: Net, ms: seq<Message>) returns (r: Option<Stats>)
    requires ValidNet(net)
    ensures r.Some? <==> ms == [] || (AllSendable(net, ms) && net.contention != UnknownContention)
    ensures r.Some? && ms == [] ==> r.value == Stats(0, 0, 0, None)
    ensures r.Some? && ms != [] ==>
              var loads := LoadsAfter(net, ms);
              && r.value.isolated == MaxOf(Latencies(net, ms))
              && r.value.bottleneck == MaxOf(loads)
              && r.value.estimated == (if net.contention == SharedLink
                   then Max(r.value.isolated, r.value.bottleneck + MaxOf(RouteCycles(net, ms))) else r.value.isolated)
              && (r.value.busiest.None? <==> r.value.bottleneck == 0)
              && (r.value.busiest.Some? ==>
                    && r.value.busiest.value.src < net.shape.cores && r.value.busiest.value.dst < net.shape.cores
                    && loads[CellOf(net.shape.cores, r.value.busiest.value)] == r.value.bottleneck
                    && forall i :: 0 <= i < CellOf(net.shape.cores, r.value.busiest.value) ==>
                         loads[i] < r.value.bottleneck)
  {
    if ms == [] {
      return Some(Stats(0, 0, 0, None));
    }
    var n := net.shape.cores;
    var loads := new nat[n * n](_ => 0);
    assert loads[..] == Zeros(n * n);
    var ok, isolated, longest := SendAll(net, ms, loads);
    if !ok || net.contention == UnknownContention {
      return None;
    }
    var most, at := Busiest(n, loads);
    var estimated := if net.contention == SharedLink && most + longest > isolated then most + longest else isolated;
    r := Some(Stats(isolated, estimated, most, at));
  }
}
