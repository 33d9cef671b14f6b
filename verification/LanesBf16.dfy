/** The BF16 product by row lanes. */
module LanesBf16 {
  import opened Segments
  import opened Floats
  import opened RowLanes

  /** A product: a matrix of codes, what a code means, and token rows to multiply it with. */
  datatype Product = Product(
    m: Rounding, bf: bv16 -> Float, data: seq<bv16>, x: seq<Float>, tokens: nat, rows: nat, cols: nat)
  {
    ghost predicate Valid() {
      |data| == rows * cols && |x| == tokens * cols
    }

    /** The sum for output row `r` and token `t` after `c` columns. */
    ghost function Dot(r: nat, t: nat, c: nat): Float
      requires Valid() && r < rows && t < tokens && c <= cols
    {
      if c == 0 then Zero(false)
      else Add(m, Dot(r, t, c - 1), Mul(m, bf(data[At(r, c - 1, rows, cols)]), x[At(t, c - 1, tokens, cols)]))
    }

    /** The whole output: a dot product for each token and row. */
    ghost function Y(): (y: seq<Float>)
      requires Valid()
      ensures |y| == tokens * rows
      ensures forall t: nat, r: nat {:trigger At(t, r, tokens, rows)} | t < tokens && r < rows ::
        y[At(t, r, tokens, rows)] == Dot(r, t, cols)
    {
      Output((i: (nat, nat)) => if i.0 < rows && i.1 < tokens then Dot(i.0, i.1, cols) else NaN, tokens, rows)
    }

    /** The code in row `lane` of tile `tile` and column `c`. */
    function Code(tile: nat, c: nat, lane: nat): bv16
      requires |data| == rows * cols && rows % LANES == 0 && tile < rows / LANES && c < cols && lane < LANES
    {
      data[At(RowOf(tile, lane, rows), c, rows, cols)]
    }

    /** The matrix with sixteen rows transposed at a time. */
    ghost function Transposed(): (image: seq<bv16>)
      requires Valid() && rows % LANES == 0
      ensures |image| == Size(rows / LANES, cols, LANES)
      ensures forall tile: nat, c: nat, lane: nat {:trigger Slot(tile, c, lane, cols, LANES)} |
        tile < rows / LANES && c < cols && lane < LANES ::
        Slot(tile, c, lane, cols, LANES) < |image| && image[Slot(tile, c, lane, cols, LANES)] == Code(tile, c, lane)
    {
      Image((i: (nat, nat, nat)) => if i.0 < rows / LANES && i.1 < cols && i.2 < LANES then Code(i.0, i.1, i.2) else 0,
        rows / LANES, cols, LANES)
    }
  }

  lemma Columns(p: Product, r: nat, t: nat, c: nat)
    requires p.Valid() && r < p.rows && t < p.tokens && c < p.cols
    ensures At(r, c, p.rows, p.cols) < |p.data| && At(t, c, p.tokens, p.cols) < |p.x|
    ensures p.Dot(r, t, c + 1) == Add(p.m, p.Dot(r, t, c), Mul(p.m, p.bf(p.data[At(r, c, p.rows, p.cols)]),
                                                               p.x[At(t, c, p.tokens, p.cols)]))
  {
  }

  lemma NoColumns(p: Product, r: nat, t: nat)
    requires p.Valid() && r < p.rows && t < p.tokens
    ensures p.Dot(r, t, 0) == Zero(false)
  {
  }

  lemma Sizes(p: Product)
    requires p.Valid()
    ensures |p.data| == p.rows * p.cols && |p.x| == p.tokens * p.cols
  {
  }

  /** The reference product: row by row, all tokens side by side. */
  method Reference(p: Product, y: array<Float>)
    requires p.Valid() && y.Length == p.tokens * p.rows
    modifies y
    ensures y[..] == p.Y()
  {
    hide *;
    DoneNone(y[..], p.Y(), p.tokens, p.rows);
    for r: nat := 0 to p.rows
      invariant Done(y[..], p.Y(), p.tokens, p.rows, r, 0)
    {
      ReferenceRow(p, r, y);
      DoneNext(y[..], p.Y(), p.tokens, p.rows, r);
    }
    DoneAll(y[..], p.Y(), p.tokens, p.rows);
  }

  method ReferenceRow(p: Product, r: nat, y: array<Float>)
    requires p.Valid() && y.Length == p.tokens * p.rows && r < p.rows && Done(y[..], p.Y(), p.tokens, p.rows, r, 0)
    modifies y
    ensures Done(y[..], p.Y(), p.tokens, p.rows, r, p.tokens)
  {
    hide *;
    var sum := new Float[p.tokens](_ => Zero(false));
    forall t: nat | t < p.tokens
      ensures sum[t] == p.Dot(r, t, 0)
    {
      NoColumns(p, r, t);
    }
    for c: nat := 0 to p.cols
      invariant forall t: nat | t < p.tokens :: sum[t] == p.Dot(r, t, c)
      invariant y[..] == old(y[..])
    {
      Sizes(p);
      var a := p.bf(p.data[At(r, c, p.rows, p.cols)]);
      for t: nat := 0 to p.tokens
        invariant forall q: nat | q < p.tokens :: sum[q] == p.Dot(r, q, if q < t then c + 1 else c)
        invariant y[..] == old(y[..])
      {
        Columns(p, r, t, c);
        sum[t] := Add(p.m, sum[t], Mul(p.m, a, p.x[At(t, c, p.tokens, p.cols)]));
      }
    }
    for t: nat := 0 to p.tokens
      invariant Done(y[..], p.Y(), p.tokens, p.rows, r, t)
      invariant forall q: nat | q < p.tokens :: sum[q] == p.Dot(r, q, p.cols)
    {
      DoneStep(y[..], p.Y(), p.tokens, p.rows, r, t);
      ghost var past := y[..];
      var k := At(t, r, p.tokens, p.rows);
      y[k] := sum[t];
      assert y[..] == past[k := p.Y()[k]];
    }
  }

  /** Writes the transposed image. */
  method Pack(p: Product, image: array<bv16>)
    requires p.Valid() && p.rows % LANES == 0 && image.Length == Size(p.rows / LANES, p.cols, LANES)
    modifies image
    ensures image[..] == p.Transposed()
  {
    hide Slot, Size, Product.Transposed, Product.Dot, Product.Code;
    var tiles: nat := p.rows / LANES;
    SlotsInOrder(0, 0, 0, tiles, p.cols, LANES);
    ghost var want := p.Transposed();
    for tile: nat := 0 to tiles
      invariant Slot(tile, 0, 0, p.cols, LANES) <= |want|
      invariant forall i | 0 <= i < Slot(tile, 0, 0, p.cols, LANES) :: image[i] == want[i]
    {
      for c: nat := 0 to p.cols
        invariant Slot(tile, c, 0, p.cols, LANES) <= |want|
        invariant forall i | 0 <= i < Slot(tile, c, 0, p.cols, LANES) :: image[i] == want[i]
      {
        for lane: nat := 0 to LANES
          invariant Slot(tile, c, lane, p.cols, LANES) <= |want|
          invariant forall i | 0 <= i < Slot(tile, c, lane, p.cols, LANES) :: image[i] == want[i]
        {
          var k := Slot(tile, c, lane, p.cols, LANES);
          image[k] := p.Code(tile, c, lane);
          SlotsInOrder(tile, c, lane, tiles, p.cols, LANES);
        }
        SlotsInOrder(tile, c, 0, tiles, p.cols, LANES);
      }
      SlotsInOrder(tile, 0, 0, tiles, p.cols, LANES);
    }
  }

  /** Loads a column of a tile. */
  function Load(p: Product, image: seq<bv16>, tile: nat, c: nat): (v: Lanes)
    requires p.rows % LANES == 0 && |image| == Size(p.rows / LANES, p.cols, LANES) && tile < p.rows / LANES
      && c < p.cols
  {
    SlotInRange(tile, c, LANES - 1, p.rows / LANES, p.cols, LANES);
    seq(LANES, l requires 0 <= l < LANES => p.bf(image[Slot(tile, c, l, p.cols, LANES)]))
  }

  /** The lanes of one tile and token after `c` columns. */
  ghost predicate Sums(p: Product, tile: nat, t: nat, c: nat, v: Lanes)
    requires p.Valid() && p.rows % LANES == 0 && tile < p.rows / LANES && t < p.tokens && c <= p.cols
  {
    forall l | 0 <= l < LANES :: v[l] == p.Dot(RowOf(tile, l, p.rows), t, c)
  }

  lemma SumStart(p: Product, tile: nat, t: nat)
    requires p.Valid() && p.rows % LANES == 0 && tile < p.rows / LANES && t < p.tokens
    ensures Sums(p, tile, t, 0, Splat(Zero(false)))
  {
  }

  /** A vector step is the reference's scalar step in every lane. */
  lemma SumStep(p: Product, tile: nat, t: nat, c: nat, v: Lanes)
    requires p.Valid() && p.rows % LANES == 0 && tile < p.rows / LANES && t < p.tokens && c < p.cols
    requires Sums(p, tile, t, c, v)
    ensures |p.x| == p.tokens * p.cols
    ensures Sums(p, tile, t, c + 1,
      LanesAdd(p.m, v, LanesMul(p.m, Load(p, p.Transposed(), tile, c), Splat(p.x[At(t, c, p.tokens, p.cols)]))))
  {
    hide Product.Dot, Product.Transposed, Size, Slot;
    forall l: nat | l < LANES
      ensures Load(p, p.Transposed(), tile, c)[l] == p.bf(p.Code(tile, c, l))
      ensures p.Dot(RowOf(tile, l, p.rows), t, c + 1) ==
        Add(p.m, v[l], Mul(p.m, Load(p, p.Transposed(), tile, c)[l], p.x[At(t, c, p.tokens, p.cols)]))
    {
      SlotInRange(tile, c, l, p.rows / LANES, p.cols, LANES);
      Columns(p, RowOf(tile, l, p.rows), t, c);
    }
  }

  lemma SumEnd(p: Product, tile: nat, t: nat, v: Lanes)
    requires p.Valid() && p.rows % LANES == 0 && tile < p.rows / LANES && t < p.tokens && Sums(p, tile, t, p.cols, v)
    ensures Holds(v, p.Y(), p.tokens, p.rows, tile, t)
  {
    hide Product.Dot, Product.Y;
  }

  /** The row-lane kernel on the image leaves what the reference leaves, in every element of the output. */
  method Kernel(p: Product, image: seq<bv16>, y: array<Float>)
    requires p.Valid() && p.rows % LANES == 0 && image == p.Transposed() && y.Length == p.tokens * p.rows
    modifies y
    ensures y[..] == p.Y()
  {
    hide Product.Valid, Product.Y, Product.Transposed, Tiled, Done;
    DoneNone(y[..], p.Y(), p.tokens, p.rows);
    var tiles: nat := p.rows / LANES;
    for tile: nat := 0 to tiles
      invariant Tiled(y[..], p.Y(), p.tokens, p.rows, tile, 0)
    {
      var tb: nat := 0;
      while tb < p.tokens
        invariant tb <= p.tokens && Tiled(y[..], p.Y(), p.tokens, p.rows, tile, tb)
      {
        var n: nat := if p.tokens - tb < 8 then p.tokens - tb else 8;
        TileBlock(p, image, tile, tb, n, y);
        tb := tb + n;
      }
      TiledNext(y[..], p.Y(), p.tokens, p.rows, tile);
    }
    TiledAll(y[..], p.Y(), p.tokens, p.rows);
  }

  /** One tile for up to eight tokens: every weight column is loaded once for all of them. */
  method TileBlock(p: Product, image: seq<bv16>, tile: nat, tb: nat, n: nat, y: array<Float>)
    requires p.Valid() && p.rows % LANES == 0 && image == p.Transposed() && y.Length == p.tokens * p.rows
    requires tile < p.rows / LANES && tb + n <= p.tokens && n <= 8
    requires Tiled(y[..], p.Y(), p.tokens, p.rows, tile, tb)
    modifies y
    ensures Tiled(y[..], p.Y(), p.tokens, p.rows, tile, tb + n)
  {
    hide Product.Valid, Product.Y, Product.Transposed, Tiled, Sums, Holds;
    var sum := TileSums(p, image, tile, tb, n);
    for q: nat := 0 to n
      invariant forall i: nat | i < n :: Sums(p, tile, tb + i, p.cols, sum[i])
      invariant Tiled(y[..], p.Y(), p.tokens, p.rows, tile, tb + q)
    {
      SumEnd(p, tile, tb + q, sum[q]);
      StoreToken(y, p.Y(), p.tokens, p.rows, tile, tb + q, sum[q]);
    }
  }

  method TileSums(p: Product, image: seq<bv16>, tile: nat, tb: nat, n: nat) returns (sum: array<Lanes>)
    requires p.Valid() && p.rows % LANES == 0 && image == p.Transposed()
    requires tile < p.rows / LANES && tb + n <= p.tokens && n <= 8
    ensures fresh(sum) && sum.Length == 8 && forall q: nat | q < n :: Sums(p, tile, tb + q, p.cols, sum[q])
  {
    hide Product.Valid, Product.Transposed, Sums, LanesAdd, LanesMul, Load, Splat, At, Size;
    sum := new Lanes[8](_ => Splat(Zero(false)));
    forall q: nat | q < n
      ensures Sums(p, tile, tb + q, 0, sum[q])
    {
      SumStart(p, tile, tb + q);
    }
    for c: nat := 0 to p.cols
      invariant forall q: nat | q < n :: Sums(p, tile, tb + q, c, sum[q])
    {
      var w := Load(p, image, tile, c);
      for q: nat := 0 to n
        invariant forall i: nat | i < n :: Sums(p, tile, tb + i, if i < q then c + 1 else c, sum[i])
      {
        SumStep(p, tile, tb + q, c, sum[q]);
        sum[q] := LanesAdd(p.m, sum[q], LanesMul(p.m, w, Splat(p.x[At(tb + q, c, p.tokens, p.cols)])));
      }
    }
  }
}
