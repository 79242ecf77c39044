/** The spatial neighbourhood of a grid cell: which cells an agent plays
    against, on a bounded grid or on a torus, with the four von Neumann or
    the eight Moore neighbours.  y grows "southwards". */
module Space {
  import opened Codes

  datatype Cell = Cell(x: int, y: int)

  /** The topology selector.  `LandModel::neighborhood` compares the
      integer `topologyType` against GRID and TORUS; any other value selects neither. */
  datatype Topology = Grid | Torus | OtherTopology

  predicate InGrid(c: Cell, sizeX: int, sizeY: int)
  {
    0 <= c.x < sizeX && 0 <= c.y < sizeY
  }

  function Add(c: Cell, d: Cell): Cell
  {
    Cell(c.x + d.x, c.y + d.y)
  }

  /** The compass offsets in the order a neighbourhood lists them:
      E, W, S, N and, for the Moore shape, SE, SW, NE, NW.  Any shape code
      other than MOORE gives the von Neumann offsets. */
  function Offsets(shape: int): (ds: seq<Cell>)
    ensures |ds| == if shape == MOORE then 8 else 4
    ensures forall i :: 0 <= i < |ds| ==> -1 <= ds[i].x <= 1 && -1 <= ds[i].y <= 1
    ensures forall i :: 0 <= i < |ds| ==> ds[i] != Cell(0, 0)
  {
    var cardinal := [Cell(1, 0), Cell(-1, 0), Cell(0, 1), Cell(0, -1)];
    if shape == MOORE then cardinal + [Cell(1, 1), Cell(-1, 1), Cell(1, -1), Cell(-1, -1)]
    else cardinal
  }

  /** Index of the offset pointing the opposite way. */
  function Opposite(i: int): int
    requires 0 <= i < 8
  {
    [1, 0, 3, 2, 7, 6, 5, 4][i]
  }

  /** Each shape's offsets are closed under negation. */
  lemma OffsetsSymmetric(shape: int, i: int)
    requires 0 <= i < |Offsets(shape)|
    ensures 0 <= Opposite(i) < |Offsets(shape)|
    ensures Offsets(shape)[Opposite(i)] == Cell(-Offsets(shape)[i].x, -Offsets(shape)[i].y)
  {
  }

  // ---------------------------------------------------------------------
  // Bounded grid

  /** The one-cell list [c] when `present` holds, else the empty list. */
  function Opt(present: bool, c: Cell): (r: seq<Cell>)
    ensures forall b :: b in r <==> present && b == c
    ensures |r| == if present then 1 else 0
  {
    if present then [c] else []
  }

  /** The cardinal arms of `c` whose edge test passed, in the order E, W, S, N. */
  function CardinalArms(c: Cell, e: bool, w: bool, s: bool, n: bool): (r: seq<Cell>)
    ensures forall b :: b in r <==>
      (e && b == Cell(c.x + 1, c.y)) || (w && b == Cell(c.x - 1, c.y)) ||
      (s && b == Cell(c.x, c.y + 1)) || (n && b == Cell(c.x, c.y - 1))
    ensures |r| <= 4
  {
    Opt(e, Cell(c.x + 1, c.y)) + Opt(w, Cell(c.x - 1, c.y)) +
    Opt(s, Cell(c.x, c.y + 1)) + Opt(n, Cell(c.x, c.y - 1))
  }

  /** The diagonals of `c` whose two arm cardinals both passed their edge
      tests, in the order SE, SW, NE, NW. */
  function DiagonalArms(c: Cell, e: bool, w: bool, s: bool, n: bool): (r: seq<Cell>)
    ensures forall b :: b in r <==>
      (e && s && b == Cell(c.x + 1, c.y + 1)) || (w && s && b == Cell(c.x - 1, c.y + 1)) ||
      (e && n && b == Cell(c.x + 1, c.y - 1)) || (w && n && b == Cell(c.x - 1, c.y - 1))
    ensures |r| <= 4
  {
    Opt(e && s, Cell(c.x + 1, c.y + 1)) + Opt(w && s, Cell(c.x - 1, c.y + 1)) +
    Opt(e && n, Cell(c.x + 1, c.y - 1)) + Opt(w && n, Cell(c.x - 1, c.y - 1))
  }

  /** The bounded-grid neighbour list of `c` once the four edge tests are
      known: the cardinal arms, then, for the Moore shape, the diagonals. */
  function ArmList(c: Cell, e: bool, w: bool, s: bool, n: bool, moore: bool): (r: seq<Cell>)
  {
    if moore then CardinalArms(c, e, w, s, n) + DiagonalArms(c, e, w, s, n)
    else CardinalArms(c, e, w, s, n)
  }

  /** Each cardinal arm is listed exactly when its edge test passed. */
  lemma ArmListCardinals(c: Cell, e: bool, w: bool, s: bool, n: bool, moore: bool)
    ensures var r := ArmList(c, e, w, s, n, moore);
      && (Cell(c.x + 1, c.y) in r <==> e)
      && (Cell(c.x - 1, c.y) in r <==> w)
      && (Cell(c.x, c.y + 1) in r <==> s)
      && (Cell(c.x, c.y - 1) in r <==> n)
  {
    var diagonal := DiagonalArms(c, e, w, s, n);
    assert Cell(c.x + 1, c.y) !in diagonal && Cell(c.x - 1, c.y) !in diagonal;
    assert Cell(c.x, c.y + 1) !in diagonal && Cell(c.x, c.y - 1) !in diagonal;
  }

  /** A diagonal is listed exactly when the shape is Moore and both of its
      arm cardinals passed their edge tests. */
  lemma ArmListDiagonals(c: Cell, e: bool, w: bool, s: bool, n: bool, moore: bool)
    ensures var r := ArmList(c, e, w, s, n, moore);
      && (Cell(c.x + 1, c.y + 1) in r <==> moore && e && s)
      && (Cell(c.x - 1, c.y + 1) in r <==> moore && w && s)
      && (Cell(c.x + 1, c.y - 1) in r <==> moore && e && n)
      && (Cell(c.x - 1, c.y - 1) in r <==> moore && w && n)
  {
    var cardinal := CardinalArms(c, e, w, s, n);
    assert Cell(c.x + 1, c.y + 1) !in cardinal && Cell(c.x - 1, c.y + 1) !in cardinal;
    assert Cell(c.x + 1, c.y - 1) !in cardinal && Cell(c.x - 1, c.y - 1) !in cardinal;
  }

  /** Each arm is listed exactly when its condition holds, a diagonal
      exactly when the shape is Moore and both of its arms are listed, and
      the list holds at most 4 (von Neumann) or 8 (Moore) cells. */
  lemma ArmListMembers(c: Cell, e: bool, w: bool, s: bool, n: bool, moore: bool)
    ensures var r := ArmList(c, e, w, s, n, moore);
      && (Cell(c.x + 1, c.y) in r <==> e)
      && (Cell(c.x - 1, c.y) in r <==> w)
      && (Cell(c.x, c.y + 1) in r <==> s)
      && (Cell(c.x, c.y - 1) in r <==> n)
      && (Cell(c.x + 1, c.y + 1) in r <==> moore && e && s)
      && (Cell(c.x - 1, c.y + 1) in r <==> moore && w && s)
      && (Cell(c.x + 1, c.y - 1) in r <==> moore && e && n)
      && (Cell(c.x - 1, c.y - 1) in r <==> moore && w && n)
      && |r| <= if moore then 8 else 4
  {
    ArmListCardinals(c, e, w, s, n, moore);
    ArmListDiagonals(c, e, w, s, n, moore);
  }

  /** Every listed arm differs from `c` and is at most one step away on each axis. */
  lemma ArmListNear(c: Cell, e: bool, w: bool, s: bool, n: bool, moore: bool)
    ensures forall b :: b in ArmList(c, e, w, s, n, moore) ==>
      b != c && -1 <= b.x - c.x <= 1 && -1 <= b.y - c.y <= 1
  {
  }

  /** Neighbourhood on the bounded grid, as `LandModel::neighborhood`
      computes it: E is checked with (x+1) % sizeX != 0, W with x != 0,
      and S, N likewise in y. */
  function GridNeighborhood(c: Cell, sizeX: int, sizeY: int, shape: int): (r: seq<Cell>)
    requires sizeX > 0 && sizeY > 0
    ensures |r| <= if shape == MOORE then 8 else 4
    ensures forall b :: b in r ==> b != c && -1 <= b.x - c.x <= 1 && -1 <= b.y - c.y <= 1
  {
    ArmListMembers(c, CRem(c.x + 1, sizeX) != 0, c.x != 0, CRem(c.y + 1, sizeY) != 0, c.y != 0, shape == MOORE);
    ArmListNear(c, CRem(c.x + 1, sizeX) != 0, c.x != 0, CRem(c.y + 1, sizeY) != 0, c.y != 0, shape == MOORE);
    ArmList(c, CRem(c.x + 1, sizeX) != 0, c.x != 0, CRem(c.y + 1, sizeY) != 0, c.y != 0, shape == MOORE)
  }

  /** On the grid, the edge test for E (or S) passes exactly when the step
      stays on the grid. */
  lemma EdgeTest(v: int, size: int)
    requires 0 <= v < size
    ensures CRem(v + 1, size) != 0 <==> v + 1 < size
  {
    ModStep(v, 1, size);
  }

  /** Reference definition: the offsets of `ds`, in order, whose target
      cell lies on the grid. */
  function InGridShifts(c: Cell, ds: seq<Cell>, sizeX: int, sizeY: int): seq<Cell>
  {
    if ds == [] then []
    else
      (if InGrid(Add(c, ds[0]), sizeX, sizeY) then [Add(c, ds[0])] else []) +
      InGridShifts(c, ds[1..], sizeX, sizeY)
  }

  lemma {:induction false} InGridShiftsMembers(c: Cell, ds: seq<Cell>, sizeX: int, sizeY: int, b: Cell)
    ensures b in InGridShifts(c, ds, sizeX, sizeY) <==>
            InGrid(b, sizeX, sizeY) && exists i :: 0 <= i < |ds| && b == Add(c, ds[i])
  {
    if ds != [] {
      InGridShiftsMembers(c, ds[1..], sizeX, sizeY, b);
      if b == Add(c, ds[0]) {
      } else {
        if exists i :: 0 <= i < |ds| && b == Add(c, ds[i]) {
          var i :| 0 <= i < |ds| && b == Add(c, ds[i]);
          assert ds[1..][i - 1] == ds[i];
        }
        if exists j :: 0 <= j < |ds[1..]| && b == Add(c, ds[1..][j]) {
          var j :| 0 <= j < |ds[1..]| && b == Add(c, ds[1..][j]);
          assert ds[j + 1] == ds[1..][j];
        }
      }
    }
  }

  lemma {:induction false} InGridShiftsAppend(c: Cell, ds: seq<Cell>, es: seq<Cell>, sizeX: int, sizeY: int)
    ensures InGridShifts(c, ds + es, sizeX, sizeY) ==
            InGridShifts(c, ds, sizeX, sizeY) + InGridShifts(c, es, sizeX, sizeY)
  {
    if ds == [] {
      assert ds + es == es;
    } else {
      assert (ds + es)[0] == ds[0];
      assert (ds + es)[1..] == ds[1..] + es;
      InGridShiftsAppend(c, ds[1..], es, sizeX, sizeY);
    }
  }

  lemma InGridShiftsFour(c: Cell, ds: seq<Cell>, sizeX: int, sizeY: int)
    requires |ds| == 4
    ensures InGridShifts(c, ds, sizeX, sizeY) ==
            Opt(InGrid(Add(c, ds[0]), sizeX, sizeY), Add(c, ds[0])) +
            Opt(InGrid(Add(c, ds[1]), sizeX, sizeY), Add(c, ds[1])) +
            Opt(InGrid(Add(c, ds[2]), sizeX, sizeY), Add(c, ds[2])) +
            Opt(InGrid(Add(c, ds[3]), sizeX, sizeY), Add(c, ds[3]))
  {
    var k0 := Opt(InGrid(Add(c, ds[0]), sizeX, sizeY), Add(c, ds[0]));
    var k1 := Opt(InGrid(Add(c, ds[1]), sizeX, sizeY), Add(c, ds[1]));
    var k2 := Opt(InGrid(Add(c, ds[2]), sizeX, sizeY), Add(c, ds[2]));
    var k3 := Opt(InGrid(Add(c, ds[3]), sizeX, sizeY), Add(c, ds[3]));
    assert ds[3..][1..] == [];
    assert InGridShifts(c, ds[3..], sizeX, sizeY) == k3 + InGridShifts(c, [], sizeX, sizeY);
    assert ds[2..][1..] == ds[3..];
    assert InGridShifts(c, ds[2..], sizeX, sizeY) == k2 + InGridShifts(c, ds[3..], sizeX, sizeY);
    assert ds[1..][1..] == ds[2..];
    assert InGridShifts(c, ds[1..], sizeX, sizeY) == k1 + InGridShifts(c, ds[2..], sizeX, sizeY);
    assert InGridShifts(c, ds, sizeX, sizeY) == k0 + InGridShifts(c, ds[1..], sizeX, sizeY);
    assert k0 + (k1 + (k2 + (k3 + []))) == k0 + k1 + k2 + k3;
  }

  lemma CardinalShifts(c: Cell, sizeX: int, sizeY: int)
    requires InGrid(c, sizeX, sizeY)
    ensures InGridShifts(c, Offsets(VON_NEUMANN), sizeX, sizeY) ==
            Opt(c.x + 1 < sizeX, Cell(c.x + 1, c.y)) + Opt(c.x != 0, Cell(c.x - 1, c.y)) +
            Opt(c.y + 1 < sizeY, Cell(c.x, c.y + 1)) + Opt(c.y != 0, Cell(c.x, c.y - 1))
  {
    InGridShiftsFour(c, Offsets(VON_NEUMANN), sizeX, sizeY);
  }

  lemma DiagonalShifts(c: Cell, sizeX: int, sizeY: int)
    requires InGrid(c, sizeX, sizeY)
    ensures InGridShifts(c, Offsets(MOORE)[4..], sizeX, sizeY) ==
            Opt(c.x + 1 < sizeX && c.y + 1 < sizeY, Cell(c.x + 1, c.y + 1)) +
            Opt(c.x != 0 && c.y + 1 < sizeY, Cell(c.x - 1, c.y + 1)) +
            Opt(c.x + 1 < sizeX && c.y != 0, Cell(c.x + 1, c.y - 1)) +
            Opt(c.x != 0 && c.y != 0, Cell(c.x - 1, c.y - 1))
  {
    InGridShiftsFour(c, Offsets(MOORE)[4..], sizeX, sizeY);
  }

  /** With the edge tests read as "the step stays on the grid", the arm
      list is the in-grid offsets, in order. */
  lemma ArmListIsShifts(c: Cell, sizeX: int, sizeY: int, shape: int)
    requires InGrid(c, sizeX, sizeY)
    ensures ArmList(c, c.x + 1 < sizeX, c.x != 0, c.y + 1 < sizeY, c.y != 0, shape == MOORE) ==
            InGridShifts(c, Offsets(shape), sizeX, sizeY)
  {
    CardinalShifts(c, sizeX, sizeY);
    if shape == MOORE {
      assert Offsets(shape) == Offsets(VON_NEUMANN) + Offsets(MOORE)[4..];
      InGridShiftsAppend(c, Offsets(VON_NEUMANN), Offsets(MOORE)[4..], sizeX, sizeY);
      DiagonalShifts(c, sizeX, sizeY);
    } else {
      assert Offsets(shape) == Offsets(VON_NEUMANN);
    }
  }

  /** On the grid, the edge tests of `LandModel::neighborhood` select exactly the offsets
      whose target stays on the grid, in the order of `Offsets`. */
  lemma GridNeighborhoodIsInGridShifts(c: Cell, sizeX: int, sizeY: int, shape: int)
    requires sizeX > 0 && sizeY > 0
    requires InGrid(c, sizeX, sizeY)
    ensures GridNeighborhood(c, sizeX, sizeY, shape) == InGridShifts(c, Offsets(shape), sizeX, sizeY)
  {
    var e := CRem(c.x + 1, sizeX) != 0;
    var s := CRem(c.y + 1, sizeY) != 0;
    assert e == (c.x + 1 < sizeX) by { EdgeTest(c.x, sizeX); }
    assert s == (c.y + 1 < sizeY) by { EdgeTest(c.y, sizeY); }
    assert GridNeighborhood(c, sizeX, sizeY, shape) == ArmList(c, e, c.x != 0, s, c.y != 0, shape == MOORE);
    ArmListIsShifts(c, sizeX, sizeY, shape);
  }

  /** Every neighbour of a cell on the grid is on the grid. */
  lemma GridNeighborhoodInRange(c: Cell, sizeX: int, sizeY: int, shape: int)
    requires sizeX > 0 && sizeY > 0
    requires InGrid(c, sizeX, sizeY)
    ensures forall b :: b in GridNeighborhood(c, sizeX, sizeY, shape) ==> InGrid(b, sizeX, sizeY)
  {
    GridNeighborhoodIsInGridShifts(c, sizeX, sizeY, shape);
    forall b | b in GridNeighborhood(c, sizeX, sizeY, shape)
      ensures InGrid(b, sizeX, sizeY)
    {
      InGridShiftsMembers(c, Offsets(shape), sizeX, sizeY, b);
    }
  }

  /** For every cell, on or off the grid: each cardinal appears exactly when
      its edge test in `LandModel::neighborhood` passes, and (Moore) each diagonal
      exactly when both of its arm cardinals appear; von Neumann never
      yields a diagonal. */
  lemma GridArms(c: Cell, sizeX: int, sizeY: int, shape: int)
    requires sizeX > 0 && sizeY > 0
    ensures var r := GridNeighborhood(c, sizeX, sizeY, shape);
      var e := CRem(c.x + 1, sizeX) != 0;
      var w := c.x != 0;
      var s := CRem(c.y + 1, sizeY) != 0;
      var n := c.y != 0;
      && (Cell(c.x + 1, c.y) in r <==> e)
      && (Cell(c.x - 1, c.y) in r <==> w)
      && (Cell(c.x, c.y + 1) in r <==> s)
      && (Cell(c.x, c.y - 1) in r <==> n)
      && (Cell(c.x + 1, c.y + 1) in r <==> shape == MOORE && e && s)
      && (Cell(c.x - 1, c.y + 1) in r <==> shape == MOORE && w && s)
      && (Cell(c.x + 1, c.y - 1) in r <==> shape == MOORE && e && n)
      && (Cell(c.x - 1, c.y - 1) in r <==> shape == MOORE && w && n)
  {
    ArmListMembers(c, CRem(c.x + 1, sizeX) != 0, c.x != 0, CRem(c.y + 1, sizeY) != 0, c.y != 0, shape == MOORE);
  }

  /** Neighbour counts on a grid of at least 2 x 2: a corner cell has 2
      (von Neumann) or 3 (Moore) neighbours, an interior cell 4 or 8. */
  lemma GridCounts(c: Cell, sizeX: int, sizeY: int, shape: int)
    requires sizeX >= 2 && sizeY >= 2
    requires InGrid(c, sizeX, sizeY)
    ensures (c.x == 0 || c.x == sizeX - 1) && (c.y == 0 || c.y == sizeY - 1) ==>
            |GridNeighborhood(c, sizeX, sizeY, shape)| == if shape == MOORE then 3 else 2
    ensures 0 < c.x < sizeX - 1 && 0 < c.y < sizeY - 1 ==>
            |GridNeighborhood(c, sizeX, sizeY, shape)| == if shape == MOORE then 8 else 4
  {
    EdgeTest(c.x, sizeX);
    EdgeTest(c.y, sizeY);
  }

  // ---------------------------------------------------------------------
  // Torus

  /** Neighbourhood on the torus, as `LandModel::neighborhood` computes it: the same
      offsets in the same order, each moved coordinate wrapped with
      `(v + 1) % size` or `((v - 1) + size) % size`. */
  function TorusNeighborhood(c: Cell, sizeX: int, sizeY: int, shape: int): (r: seq<Cell>)
    requires sizeX > 0 && sizeY > 0
    ensures |r| == |Offsets(shape)|
    ensures InGrid(c, sizeX, sizeY) ==> forall i :: 0 <= i < |r| ==> InGrid(r[i], sizeX, sizeY)
  {
    var east := CRem(c.x + 1, sizeX);
    var west := CRem((c.x - 1) + sizeX, sizeX);
    var south := CRem(c.y + 1, sizeY);
    var north := CRem((c.y - 1) + sizeY, sizeY);
    var cardinal := [Cell(east, c.y), Cell(west, c.y), Cell(c.x, south), Cell(c.x, north)];
    if shape == MOORE then
      cardinal + [Cell(east, south), Cell(west, south), Cell(east, north), Cell(west, north)]
    else
      cardinal
  }

  /** Reference definition: `c` moved by `d`, each coordinate taken modulo
      the grid size. */
  function Wrap(c: Cell, d: Cell, sizeX: int, sizeY: int): Cell
    requires sizeX > 0 && sizeY > 0
  {
    Cell((c.x + d.x) % sizeX, (c.y + d.y) % sizeY)
  }

  /** A step of at most one cell from a coordinate in [0, size) wraps as
      expected. */
  lemma ModStep(v: int, d: int, size: int)
    requires 0 <= v < size
    requires -1 <= d <= 1
    ensures (v + d) % size == if v + d < 0 then size - 1 else if v + d == size then 0 else v + d
  {
    var a := v + d;
    if a < 0 {
      assert a == size * -1 + (size - 1);
    } else if a == size {
      assert a == size * 1 + 0;
    } else {
      assert a == size * 0 + a;
    }
  }

  lemma ModShift(v: int, size: int)
    requires 0 <= v < size
    ensures ((v - 1) + size) % size == (v - 1) % size
  {
    ModStep(v, -1, size);
    if v == 0 {
      assert (size - 1) % size == size - 1;
    } else {
      assert (v - 1 + size) == size * 1 + (v - 1);
    }
  }

  /** On the torus `LandModel::neighborhood` lists, for every cell of the grid, exactly
      the wrapped targets of `Offsets`, in that order. */
  lemma TorusNeighborhoodIsWrap(c: Cell, sizeX: int, sizeY: int, shape: int)
    requires sizeX > 0 && sizeY > 0
    requires InGrid(c, sizeX, sizeY)
    ensures var r := TorusNeighborhood(c, sizeX, sizeY, shape);
      forall i :: 0 <= i < |r| ==> r[i] == Wrap(c, Offsets(shape)[i], sizeX, sizeY)
  {
    ModShift(c.x, sizeX);
    ModShift(c.y, sizeY);
    assert c.x % sizeX == c.x by { ModStep(c.x, 0, sizeX); }
    assert c.y % sizeY == c.y by { ModStep(c.y, 0, sizeY); }
  }

  /** Wrapping back by the opposite offset returns to the start cell. */
  lemma WrapBack(c: Cell, d: Cell, sizeX: int, sizeY: int)
    requires sizeX > 0 && sizeY > 0
    requires InGrid(c, sizeX, sizeY)
    requires -1 <= d.x <= 1 && -1 <= d.y <= 1
    ensures Wrap(Wrap(c, d, sizeX, sizeY), Cell(-d.x, -d.y), sizeX, sizeY) == c
  {
    var b := Wrap(c, d, sizeX, sizeY);
    ModStep(c.x, d.x, sizeX);
    ModStep(c.y, d.y, sizeY);
    ModStep(b.x, -d.x, sizeX);
    ModStep(b.y, -d.y, sizeY);
  }

  // ---------------------------------------------------------------------
  // Both topologies

  /** The neighbourhood of a cell for the configured topology and shape;
      an unrecognised topology yields no neighbours. */
  function Neighborhood(c: Cell, sizeX: int, sizeY: int, topology: Topology, shape: int): (r: seq<Cell>)
    requires sizeX > 0 && sizeY > 0
    ensures topology == Torus ==> |r| == if shape == MOORE then 8 else 4
    ensures topology == OtherTopology ==> r == []
  {
    match topology
    case Grid => GridNeighborhood(c, sizeX, sizeY, shape)
    case Torus => TorusNeighborhood(c, sizeX, sizeY, shape)
    case OtherTopology => []
  }

  /** For a cell on the grid, every neighbour is on the grid, on both
      topologies. */
  lemma NeighborhoodInRange(c: Cell, sizeX: int, sizeY: int, topology: Topology, shape: int)
    requires sizeX > 0 && sizeY > 0
    requires InGrid(c, sizeX, sizeY)
    ensures forall b :: b in Neighborhood(c, sizeX, sizeY, topology, shape) ==> InGrid(b, sizeX, sizeY)
  {
    if topology == Grid {
      GridNeighborhoodInRange(c, sizeX, sizeY, shape);
    }
  }

  /** Reference relation: b is one offset away from a, on the grid for the
      bounded topology, modulo the sizes on the torus. */
  predicate Adjacent(a: Cell, b: Cell, sizeX: int, sizeY: int, topology: Topology, shape: int)
    requires sizeX > 0 && sizeY > 0
  {
    var ds := Offsets(shape);
    match topology
    case Grid => InGrid(b, sizeX, sizeY) && exists i :: 0 <= i < |ds| && b == Add(a, ds[i])
    case Torus => exists i :: 0 <= i < |ds| && b == Wrap(a, ds[i], sizeX, sizeY)
    case OtherTopology => false
  }

  /** The neighbourhood `LandModel::neighborhood` computes is exactly the
      reference adjacency. */
  lemma NeighborhoodIsAdjacent(a: Cell, b: Cell, sizeX: int, sizeY: int, topology: Topology, shape: int)
    requires sizeX > 0 && sizeY > 0
    requires InGrid(a, sizeX, sizeY)
    ensures b in Neighborhood(a, sizeX, sizeY, topology, shape) <==> Adjacent(a, b, sizeX, sizeY, topology, shape)
  {
    var ds := Offsets(shape);
    match topology
    case Grid =>
      GridNeighborhoodIsInGridShifts(a, sizeX, sizeY, shape);
      InGridShiftsMembers(a, ds, sizeX, sizeY, b);
    case Torus =>
      TorusNeighborhoodIsWrap(a, sizeX, sizeY, shape);
      var r := TorusNeighborhood(a, sizeX, sizeY, shape);
      if b in r {
        var i :| 0 <= i < |r| && r[i] == b;
        assert b == Wrap(a, ds[i], sizeX, sizeY);
      }
      if exists i :: 0 <= i < |ds| && b == Wrap(a, ds[i], sizeX, sizeY) {
        var i :| 0 <= i < |ds| && b == Wrap(a, ds[i], sizeX, sizeY);
        assert r[i] == b;
      }
    case OtherTopology =>
  }

  lemma AdjacentSymmetric(a: Cell, b: Cell, sizeX: int, sizeY: int, topology: Topology, shape: int)
    requires sizeX > 0 && sizeY > 0
    requires InGrid(a, sizeX, sizeY) && InGrid(b, sizeX, sizeY)
    requires Adjacent(a, b, sizeX, sizeY, topology, shape)
    ensures Adjacent(b, a, sizeX, sizeY, topology, shape)
  {
    var ds := Offsets(shape);
    match topology
    case Grid =>
      var i :| 0 <= i < |ds| && b == Add(a, ds[i]);
      OffsetsSymmetric(shape, i);
      assert a == Add(b, ds[Opposite(i)]);
    case Torus =>
      var i :| 0 <= i < |ds| && b == Wrap(a, ds[i], sizeX, sizeY);
      OffsetsSymmetric(shape, i);
      WrapBack(a, ds[i], sizeX, sizeY);
      assert a == Wrap(b, ds[Opposite(i)], sizeX, sizeY);
  }

  /** The neighbour relation is symmetric on both topologies and both
      shapes: b is a neighbour of a exactly when a is a neighbour of b. */
  lemma NeighborhoodSymmetric(a: Cell, b: Cell, sizeX: int, sizeY: int, topology: Topology, shape: int)
    requires sizeX > 0 && sizeY > 0
    requires InGrid(a, sizeX, sizeY) && InGrid(b, sizeX, sizeY)
    ensures b in Neighborhood(a, sizeX, sizeY, topology, shape) <==> a in Neighborhood(b, sizeX, sizeY, topology, shape)
  {
    NeighborhoodIsAdjacent(a, b, sizeX, sizeY, topology, shape);
    NeighborhoodIsAdjacent(b, a, sizeX, sizeY, topology, shape);
    if Adjacent(a, b, sizeX, sizeY, topology, shape) {
      AdjacentSymmetric(a, b, sizeX, sizeY, topology, shape);
    }
    if Adjacent(b, a, sizeX, sizeY, topology, shape) {
      AdjacentSymmetric(b, a, sizeX, sizeY, topology, shape);
    }
  }
}
