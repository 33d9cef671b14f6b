/** The strict AVX-512 kernels (jb.c:2979-3021, 3081-3177): sixteen output rows share a vector, one to a lane, and
    weights are stored so that a column of the sixteen is contiguous. They compute the reference products
    (jb.c:2381-2412, 2616-2637): the same operations on the same operands in the same order. */
module RowLanes {
  import opened Segments
  import opened Floats

  const LANES: nat := 16

  type Lanes = s: seq<Float> | |s| == LANES witness seq(16, _ => NaN)

  function Splat(x: Float): Lanes {
    seq(LANES, _ => x)
  }

  function LanesAdd(m: Rounding, x: Lanes, y: Lanes): Lanes {
    seq(LANES, l requires 0 <= l < LANES => Add(m, x[l], y[l]))
  }

  function LanesMul(m: Rounding, x: Lanes, y: Lanes): Lanes {
    seq(LANES, l requires 0 <= l < LANES => Mul(m, x[l], y[l]))
  }

  /** Where lane `lane` of column `c` of tile `tile` is stored. */
  function Slot(tile: nat, c: nat, lane: nat, columns: nat, lanes: nat): nat {
    (tile * columns + c) * lanes + lane
  }

  function Size(tiles: nat, columns: nat, lanes: nat): nat {
    tiles * columns * lanes
  }

  lemma SlotInRange(tile: nat, c: nat, lane: nat, tiles: nat, columns: nat, lanes: nat)
    requires tile < tiles && c < columns && lane < lanes
    ensures Slot(tile, c, lane, columns, lanes) < Size(tiles, columns, lanes)
    ensures At(At(tile, c, tiles, columns), lane, tiles * columns, lanes) == Slot(tile, c, lane, columns, lanes)
  {
    Fits(tiles, tile, columns);
    Fits(tiles * columns, tile * columns + c, lanes);
  }

  /** Counting past the last lane, column or tile gives the next place: an image is written in the order of its
      places. */
  lemma SlotsInOrder(tile: nat, c: nat, lane: nat, tiles: nat, columns: nat, lanes: nat)
    ensures Slot(0, 0, 0, columns, lanes) == 0
    ensures Slot(tiles, 0, 0, columns, lanes) == Size(tiles, columns, lanes)
    ensures Slot(tile, c, lane + 1, columns, lanes) == Slot(tile, c, lane, columns, lanes) + 1
    ensures Slot(tile, c, lanes, columns, lanes) == Slot(tile, c + 1, 0, columns, lanes)
    ensures Slot(tile, columns, 0, columns, lanes) == Slot(tile + 1, 0, 0, columns, lanes)
  {
    assert tile * columns + columns == (tile + 1) * columns;
  }

  /** Each place belongs to one lane of one column of one tile. */
  ghost function Owner(k: nat, tiles: nat, columns: nat, lanes: nat): (o: (nat, nat, nat))
    requires k < Size(tiles, columns, lanes)
    ensures o.0 < tiles && o.1 < columns && o.2 < lanes && k == Slot(o.0, o.1, o.2, columns, lanes)
  {
    AtOf(tiles * columns, lanes, k);
    AtOf(tiles, columns, k / lanes);
    (k / lanes / columns, k / lanes % columns, k % lanes)
  }

  lemma SlotInjective(tile: nat, c: nat, lane: nat, tile': nat, c': nat, lane': nat,
                      tiles: nat, columns: nat, lanes: nat)
    requires tile < tiles && c < columns && lane < lanes && tile' < tiles && c' < columns && lane' < lanes
    requires Slot(tile, c, lane, columns, lanes) == Slot(tile', c', lane', columns, lanes)
    ensures tile == tile' && c == c' && lane == lane'
  {
    SlotInRange(tile, c, lane, tiles, columns, lanes);
    SlotInRange(tile', c', lane', tiles, columns, lanes);
    AtInjective(At(tile, c, tiles, columns), lane, At(tile', c', tiles, columns), lane', tiles * columns, lanes);
    AtInjective(tile, c, tile', c', tiles, columns);
  }

  /** The image whose lane `lane` of column `c` of tile `tile` is `f((tile, c, lane))`. */
  ghost function Image<T>(f: ((nat, nat, nat)) -> T, tiles: nat, columns: nat, lanes: nat): (image: seq<T>)
    ensures |image| == Size(tiles, columns, lanes)
    ensures forall tile: nat, c: nat, lane: nat {:trigger Slot(tile, c, lane, columns, lanes)} |
      tile < tiles && c < columns && lane < lanes ::
      Slot(tile, c, lane, columns, lanes) < |image| && image[Slot(tile, c, lane, columns, lanes)] == f((tile, c, lane))
  {
    ImageSlots(f, tiles, columns, lanes);
    RawImage(f, tiles, columns, lanes)
  }

  ghost function RawImage<T>(f: ((nat, nat, nat)) -> T, tiles: nat, columns: nat, lanes: nat): (image: seq<T>)
    ensures |image| == Size(tiles, columns, lanes)
  {
    seq(Size(tiles, columns, lanes), k requires 0 <= k < Size(tiles, columns, lanes) =>
      f(Owner(k, tiles, columns, lanes)))
  }

  lemma ImageSlots<T>(f: ((nat, nat, nat)) -> T, tiles: nat, columns: nat, lanes: nat)
    ensures var image := RawImage(f, tiles, columns, lanes);
      forall tile: nat, c: nat, lane: nat {:trigger Slot(tile, c, lane, columns, lanes)} |
        tile < tiles && c < columns && lane < lanes ::
        Slot(tile, c, lane, columns, lanes) < |image|
          && image[Slot(tile, c, lane, columns, lanes)] == f((tile, c, lane))
  {
    hide Slot, Size, Owner;
    var image := RawImage(f, tiles, columns, lanes);
    forall tile: nat, c: nat, lane: nat {:trigger Slot(tile, c, lane, columns, lanes)} |
      tile < tiles && c < columns && lane < lanes
      ensures Slot(tile, c, lane, columns, lanes) < |image|
      ensures image[Slot(tile, c, lane, columns, lanes)] == f((tile, c, lane))
    {
      SlotInRange(tile, c, lane, tiles, columns, lanes);
      var k := Slot(tile, c, lane, columns, lanes);
      var o := Owner(k, tiles, columns, lanes);
      SlotInjective(tile, c, lane, o.0, o.1, o.2, tiles, columns, lanes);
    }
  }

  /** Row `lane` of tile `tile`. */
  function RowOf(tile: nat, lane: nat, rows: nat): (r: nat)
    requires rows % LANES == 0 && tile < rows / LANES && lane < LANES
    ensures r < rows && r / LANES == tile && r % LANES == lane
  {
    tile * LANES + lane
  }

  /** Writes a vector to memory. */
  method Store(y: array<Float>, at: nat, v: Lanes)
    requires at + LANES <= y.Length
    modifies y
    ensures forall l | 0 <= l < LANES :: y[at + l] == v[l]
    ensures forall i | 0 <= i < y.Length && !(at <= i < at + LANES) :: y[i] == old(y[i])
  {
    for l := 0 to LANES
      invariant forall i | 0 <= i < l :: y[at + i] == v[i]
      invariant forall i | 0 <= i < y.Length && !(at <= i < at + LANES) :: y[i] == old(y[i])
    {
      y[at + l] := v[l];
    }
  }

  /** An element of an output whose rows are a multiple of the lanes is written by exactly one tile. */
  lemma OutputPlace(t: nat, tile: nat, lane: nat, tokens: nat, rows: nat)
    requires t < tokens && rows % LANES == 0 && tile < rows / LANES && lane < LANES
    ensures tile * LANES + LANES <= rows
    ensures At(t, RowOf(tile, lane, rows), tokens, rows) == t * rows + tile * LANES + lane
    ensures t * rows + tile * LANES + LANES <= tokens * rows
  {
    Fits(tokens, t, rows);
  }

  /** What is computed so far of the output `want`: the rows before `r`, and of row `r` the tokens before `t`. */
  ghost predicate Done(y: seq<Float>, want: seq<Float>, tokens: nat, rows: nat, r: nat, t: nat)
    requires |want| == tokens * rows
  {
    |y| == tokens * rows
    && forall t', r' {:trigger At(t', r', tokens, rows)} | 0 <= t' < tokens && 0 <= r' < rows
         && (r' < r || (r' == r && t' < t)) :: y[At(t', r', tokens, rows)] == want[At(t', r', tokens, rows)]
  }

  lemma DoneNone(y: seq<Float>, want: seq<Float>, tokens: nat, rows: nat)
    requires |y| == |want| == tokens * rows
    ensures Done(y, want, tokens, rows, 0, 0) && Tiled(y, want, tokens, rows, 0, 0)
  {
  }

  lemma DoneStep(y: seq<Float>, want: seq<Float>, tokens: nat, rows: nat, r: nat, t: nat)
    requires |want| == tokens * rows && r < rows && t < tokens && Done(y, want, tokens, rows, r, t)
    ensures At(t, r, tokens, rows) < |y|
    ensures var k := At(t, r, tokens, rows); Done(y[k := want[k]], want, tokens, rows, r, t + 1)
  {
  }

  lemma DoneNext(y: seq<Float>, want: seq<Float>, tokens: nat, rows: nat, r: nat)
    requires |want| == tokens * rows && Done(y, want, tokens, rows, r, tokens)
    ensures Done(y, want, tokens, rows, r + 1, 0)
  {
  }

  lemma DoneAll(y: seq<Float>, want: seq<Float>, tokens: nat, rows: nat)
    requires |want| == tokens * rows && Done(y, want, tokens, rows, rows, 0)
    ensures y == want
  {
    forall i | 0 <= i < |y|
      ensures y[i] == want[i]
    {
      AtOf(tokens, rows, i);
    }
  }

  /** As above for a kernel that works by tiles: the tiles before `tile`, and of `tile` the tokens before `t`. */
  ghost predicate Tiled(y: seq<Float>, want: seq<Float>, tokens: nat, rows: nat, tile: nat, t: nat)
    requires |want| == tokens * rows
  {
    |y| == tokens * rows
    && forall t', r' {:trigger At(t', r', tokens, rows)} | 0 <= t' < tokens && 0 <= r' < rows
         && (r' / LANES < tile || (r' / LANES == tile && t' < t)) ::
         y[At(t', r', tokens, rows)] == want[At(t', r', tokens, rows)]
  }

  /** Vector `v` holds the output's rows of a tile for a token. */
  ghost predicate Holds(v: Lanes, want: seq<Float>, tokens: nat, rows: nat, tile: nat, t: nat)
    requires |want| == tokens * rows && rows % LANES == 0 && tile < rows / LANES && t < tokens
  {
    forall l | 0 <= l < LANES :: v[l] == want[At(t, RowOf(tile, l, rows), tokens, rows)]
  }

  /** Storing a token's vector at its place. */
  method StoreToken(y: array<Float>, ghost want: seq<Float>, tokens: nat, rows: nat, tile: nat, t: nat, v: Lanes)
    requires |want| == tokens * rows && rows % LANES == 0 && tile < rows / LANES && t < tokens
    requires Tiled(y[..], want, tokens, rows, tile, t) && Holds(v, want, tokens, rows, tile, t)
    modifies y
    ensures Tiled(y[..], want, tokens, rows, tile, t + 1)
  {
    OutputPlace(t, tile, 0, tokens, rows);
    ghost var past := y[..];
    Store(y, t * rows + tile * LANES, v);
    forall t', r' {:trigger At(t', r', tokens, rows)} | 0 <= t' < tokens && 0 <= r' < rows
      && (r' / LANES < tile || (r' / LANES == tile && t' < t + 1))
      ensures y[At(t', r', tokens, rows)] == want[At(t', r', tokens, rows)]
    {
      if r' / LANES == tile && t' == t {
        OutputPlace(t, tile, r' % LANES, tokens, rows);
        assert r' == RowOf(tile, r' % LANES, rows);
      } else {
        ElsewherePlace(t', r', t, tile, tokens, rows);
        assert y[At(t', r', tokens, rows)] == past[At(t', r', tokens, rows)];
      }
    }
  }

  lemma ElsewherePlace(t': nat, r': nat, t: nat, tile: nat, tokens: nat, rows: nat)
    requires t' < tokens && r' < rows && t < tokens && rows % LANES == 0 && tile < rows / LANES
    requires r' / LANES != tile || t' != t
    ensures !(t * rows + tile * LANES <= At(t', r', tokens, rows) < t * rows + tile * LANES + LANES)
  {
    var l := At(t', r', tokens, rows) - (t * rows + tile * LANES);
    if 0 <= l < LANES {
      OutputPlace(t, tile, l, tokens, rows);
      AtInjective(t', r', t, RowOf(tile, l, rows), tokens, rows);
      assert false;
    }
  }

  lemma TiledNext(y: seq<Float>, want: seq<Float>, tokens: nat, rows: nat, tile: nat)
    requires |want| == tokens * rows && rows % LANES == 0 && Tiled(y, want, tokens, rows, tile, tokens)
    ensures Tiled(y, want, tokens, rows, tile + 1, 0)
  {
  }

  lemma TiledAll(y: seq<Float>, want: seq<Float>, tokens: nat, rows: nat)
    requires |want| == tokens * rows && rows % LANES == 0 && Tiled(y, want, tokens, rows, rows / LANES, 0)
    ensures y == want
  {
    DoneAll(y, want, tokens, rows);
  }

  /** An output of tokens by rows from its elements. */
  ghost function Output(f: ((nat, nat)) -> Float, tokens: nat, rows: nat): (y: seq<Float>)
    ensures |y| == tokens * rows
    ensures forall t: nat, r: nat {:trigger At(t, r, tokens, rows)} | t < tokens && r < rows ::
      y[At(t, r, tokens, rows)] == f((r, t))
  {
    OutputAt(f, tokens, rows);
    RawOutput(f, tokens, rows)
  }

  ghost function OutputOwner(i: nat, tokens: nat, rows: nat): (o: (nat, nat))
    requires i < tokens * rows
    ensures o.0 < rows && o.1 < tokens && i == At(o.1, o.0, tokens, rows)
  {
    AtOf(tokens, rows, i);
    (i % rows, i / rows)
  }

  ghost function RawOutput(f: ((nat, nat)) -> Float, tokens: nat, rows: nat): (y: seq<Float>)
    ensures |y| == tokens * rows
  {
    var n: nat := tokens * rows;
    seq(n, i requires 0 <= i < n => f(OutputOwner(i, tokens, rows)))
  }

  lemma OutputAt(f: ((nat, nat)) -> Float, tokens: nat, rows: nat)
    ensures forall t: nat, r: nat {:trigger At(t, r, tokens, rows)} | t < tokens && r < rows ::
      RawOutput(f, tokens, rows)[At(t, r, tokens, rows)] == f((r, t))
  {
    hide OutputOwner;
    forall t: nat, r: nat {:trigger At(t, r, tokens, rows)} | t < tokens && r < rows
      ensures RawOutput(f, tokens, rows)[At(t, r, tokens, rows)] == f((r, t))
    {
      var o := OutputOwner(At(t, r, tokens, rows), tokens, rows);
      AtInjective(t, r, o.1, o.0, tokens, rows);
    }
  }
}
