/** The NVFP4 product by row lanes. Its decode table holds a positive zero where the reference negates one, which
    changes intermediate values but no output. */
module LanesNvFp4 {
  import opened Segments
  import opened Floats
  import opened RowLanes

  function Magnitude(code: bv8): Float {
    match code
    case 0 => Zero(false)
    case 1 => Finite(0.5)
    case 2 => Finite(1.0)
    case 3 => Finite(1.5)
    case 4 => Finite(2.0)
    case 5 => Finite(3.0)
    case 6 => Finite(4.0)
    case _ => Finite(6.0)
  }

  /** The reference's weight for a code: a magnitude, negated if the sign bit is set. */
  function Signed(code: bv8): Float {
    if code & 8 != 0 then Neg(Magnitude(code & 7)) else Magnitude(code & 7)
  }

  /** The kernel's table. */
  function Table(code: bv8): Float {
    match code
    case 0 => Zero(false)
    case 1 => Finite(0.5)
    case 2 => Finite(1.0)
    case 3 => Finite(1.5)
    case 4 => Finite(2.0)
    case 5 => Finite(3.0)
    case 6 => Finite(4.0)
    case 7 => Finite(6.0)
    case 8 => Zero(false)
    case 9 => Finite(-0.5)
    case 10 => Finite(-1.0)
    case 11 => Finite(-1.5)
    case 12 => Finite(-2.0)
    case 13 => Finite(-3.0)
    case 14 => Finite(-4.0)
    case _ => Finite(-6.0)
  }

  /** The tables differ in one code, by the sign of a zero. */
  lemma TablesDiffer(code: bv8)
    requires code < 16
    ensures Like(Signed(code), Table(code))
    ensures Signed(code) == Table(code) <==> code != 8
  {
  }

  function Low(v: bv8): (code: bv8)
    ensures code < 16
  {
    v & 15
  }

  function High(v: bv8): (code: bv8)
    ensures code < 16
  {
    v >> 4
  }

  function Join(low: bv8, high: bv8): bv8 {
    low | (high << 4)
  }

  lemma JoinedCodes(low: bv8, high: bv8)
    requires low < 16 && high < 16
    ensures Low(Join(low, high)) == low && High(Join(low, high)) == high
  {
  }

  /** The reference's weights for the two codes of a byte. */
  function LowWeight(v: bv8): (w: Float)
    ensures w == Signed(Low(v))
  {
    assert (v & 15) & 8 == v & 8 && (v & 15) & 7 == v & 7;
    var w := Magnitude(v & 7);
    if v & 8 != 0 then Neg(w) else w
  }

  function HighWeight(v: bv8): (w: Float)
    ensures w == Signed(High(v))
  {
    assert ((v >> 4) & 8 != 0) == (v & 128 != 0);
    var w := Magnitude((v >> 4) & 7);
    if v & 128 != 0 then Neg(w) else w
  }

  /** A product: packed codes, block scales, what a scale byte means, the matrix's scale and the token rows. */
  datatype Product = Product(
    m: Rounding, e4m3: bv8 -> Float, w: seq<bv8>, s: seq<bv8>, global: Float,
    x: seq<Float>, tokens: nat, rows: nat, cols: nat)
  {
    ghost predicate Valid() {
      && cols % 16 == 0 && m.Valid()
      && |w| == rows * (cols / 2) && |s| == rows * (cols / 16) && |x| == tokens * cols
    }

    /** The code in row `r` and column `c`. */
    function Code(r: nat, c: nat): (code: bv8)
      requires |w| == rows * (cols / 2) && cols % 2 == 0 && r < rows && c < cols
      ensures code < 16
    {
      var v := w[At(r, c / 2, rows, cols / 2)];
      if c % 2 == 1 then High(v) else Low(v)
    }

    function Scale(r: nat, b: nat): Float
      requires |s| == rows * (cols / 16) && r < rows && b < cols / 16
    {
      Mul(m, e4m3(s[At(r, b, rows, cols / 16)]), global)
    }

    /** The scaled sum of a pair of products, columns `2 * i` and `2 * i + 1`. */
    ghost function Term(table: bv8 -> Float, r: nat, t: nat, i: nat): Float
      requires Valid() && r < rows && t < tokens && i < cols / 2
    {
      Mul(m, Scale(r, i / 8), Add(m, Mul(m, table(Code(r, 2 * i)), x[At(t, 2 * i, tokens, cols)]),
                                     Mul(m, table(Code(r, 2 * i + 1)), x[At(t, 2 * i + 1, tokens, cols)])))
    }

    /** The sum for output row `r` and token `t` after `i` pairs of columns. */
    ghost function Dot(table: bv8 -> Float, r: nat, t: nat, i: nat): Float
      requires Valid() && r < rows && t < tokens && i <= cols / 2
    {
      if i == 0 then Zero(false) else Add(m, Dot(table, r, t, i - 1), Term(table, r, t, i - 1))
    }

    /** The whole output, with the reference's weights. */
    ghost function Y(): (y: seq<Float>)
      requires Valid()
      ensures |y| == tokens * rows
      ensures forall t: nat, r: nat {:trigger At(t, r, tokens, rows)} | t < tokens && r < rows ::
        y[At(t, r, tokens, rows)] == Dot(Signed, r, t, cols / 2)
    {
      Output((i: (nat, nat)) => if i.0 < rows && i.1 < tokens then Dot(Signed, i.0, i.1, cols / 2) else NaN,
             tokens, rows)
    }

    /** The codes with sixteen rows transposed at a time: a byte holds those of a row and of the row eight on. */
    function PackedCode(tile: nat, c: nat, lane: nat): bv8
      requires |w| == rows * (cols / 2) && cols % 2 == 0
      requires rows % LANES == 0 && tile < rows / LANES && c < cols && lane < 8
    {
      Join(Code(RowOf(tile, lane, rows), c), Code(RowOf(tile, lane + 8, rows), c))
    }

    ghost function Codes(): (image: seq<bv8>)
      requires Valid() && rows % LANES == 0
      ensures |image| == Size(rows / LANES, cols, 8)
      ensures forall tile: nat, c: nat, lane: nat {:trigger Slot(tile, c, lane, cols, 8)} |
        tile < rows / LANES && c < cols && lane < 8 ::
        Slot(tile, c, lane, cols, 8) < |image| && image[Slot(tile, c, lane, cols, 8)] == PackedCode(tile, c, lane)
    {
      Image((i: (nat, nat, nat)) =>
              if i.0 < rows / LANES && i.1 < cols && i.2 < 8 then PackedCode(i.0, i.1, i.2) else 0,
            rows / LANES, cols, 8)
    }

    function ScaleByte(tile: nat, b: nat, lane: nat): bv8
      requires |s| == rows * (cols / 16) && rows % LANES == 0 && tile < rows / LANES && b < cols / 16 && lane < LANES
    {
      s[At(RowOf(tile, lane, rows), b, rows, cols / 16)]
    }

    ghost function Scales(): (image: seq<bv8>)
      requires Valid() && rows % LANES == 0
      ensures |image| == Size(rows / LANES, cols / 16, LANES)
      ensures forall tile: nat, b: nat, lane: nat {:trigger Slot(tile, b, lane, cols / 16, LANES)} |
        tile < rows / LANES && b < cols / 16 && lane < LANES ::
        Slot(tile, b, lane, cols / 16, LANES) < |image|
        && image[Slot(tile, b, lane, cols / 16, LANES)] == ScaleByte(tile, b, lane)
    {
      Image((i: (nat, nat, nat)) =>
          if i.0 < rows / LANES && i.1 < cols / 16 && i.2 < LANES then ScaleByte(i.0, i.1, i.2) else 0,
        rows / LANES, cols / 16, LANES)
    }
  }

  /** The kernel's table gives every sum the reference's, bit for bit: a sum starts at the positive zero, so it never is
      the negative one, and any other number absorbs the sign of a zero. */
  lemma {:induction false} SignOfZeroIsAbsorbed(p: Product, r: nat, t: nat, i: nat)
    requires p.Valid() && r < p.rows && t < p.tokens && i <= p.cols / 2
    ensures p.Dot(Table, r, t, i) == p.Dot(Signed, r, t, i) != Zero(true)
    decreases i
  {
    hide *;
    if i > 0 {
      SignOfZeroIsAbsorbed(p, r, t, i - 1);
      AbsorbTerm(p, r, t, i);
    } else {
      NoPairs(p, Signed, r, t);
      NoPairs(p, Table, r, t);
    }
  }

  lemma AbsorbTerm(p: Product, r: nat, t: nat, i: nat)
    requires p.Valid() && r < p.rows && t < p.tokens && 0 < i <= p.cols / 2
    requires p.Dot(Table, r, t, i - 1) == p.Dot(Signed, r, t, i - 1) != Zero(true)
    ensures p.Dot(Table, r, t, i) == p.Dot(Signed, r, t, i) != Zero(true)
  {
    hide *;
    TermsAlike(p, r, t, i - 1);
    NextTerm(p, Signed, r, t, i);
    NextTerm(p, Table, r, t, i);
    AbsorbOne(p, p.Dot(Signed, r, t, i - 1), p.Term(Signed, r, t, i - 1), p.Term(Table, r, t, i - 1));
  }

  lemma NextTerm(p: Product, table: bv8 -> Float, r: nat, t: nat, i: nat)
    requires p.Valid() && r < p.rows && t < p.tokens && 0 < i <= p.cols / 2
    ensures p.Dot(table, r, t, i) == Add(p.m, p.Dot(table, r, t, i - 1), p.Term(table, r, t, i - 1))
  {
    hide Add, Product.Term;
  }

  lemma AbsorbOne(p: Product, sum: Float, x: Float, y: Float)
    requires p.Valid() && Like(x, y) && sum != Zero(true)
    ensures Add(p.m, sum, x) == Add(p.m, sum, y) != Zero(true)
  {
    LikeKept(p.m, sum, sum, x, y);
  }

  /** A term of the sum does not depend on the table but for the sign of a zero. */
  lemma TermsAlike(p: Product, r: nat, t: nat, i: nat)
    requires p.Valid() && r < p.rows && t < p.tokens && i < p.cols / 2
    ensures Like(p.Term(Signed, r, t, i), p.Term(Table, r, t, i))
  {
    hide Signed, Table, Add, Mul, Like;
    PairsAlike(p.m, p.Scale(r, i / 8), p.Code(r, 2 * i), p.x[At(t, 2 * i, p.tokens, p.cols)],
               p.Code(r, 2 * i + 1), p.x[At(t, 2 * i + 1, p.tokens, p.cols)]);
  }

  lemma PairsAlike(m: Rounding, scale: Float, a: bv8, u: Float, b: bv8, v: Float)
    requires m.Valid() && a < 16 && b < 16
    ensures Like(Mul(m, scale, Add(m, Mul(m, Signed(a), u), Mul(m, Signed(b), v))),
                 Mul(m, scale, Add(m, Mul(m, Table(a), u), Mul(m, Table(b), v))))
  {
    hide Add, Mul, Signed, Table;
    TablesDiffer(a);
    TablesDiffer(b);
    LikeKept(m, Signed(a), Table(a), u, u);
    LikeKept(m, Signed(b), Table(b), v, v);
    LikeKept(m, Mul(m, Signed(a), u), Mul(m, Table(a), u), Mul(m, Signed(b), v), Mul(m, Table(b), v));
    LikeKept(m, scale, scale, Add(m, Mul(m, Signed(a), u), Mul(m, Signed(b), v)),
             Add(m, Mul(m, Table(a), u), Mul(m, Table(b), v)));
  }

  /** Not so within a sum: the pairs of products can differ. */
  lemma PairsCanDiffer(m: Rounding)
    ensures var one := Finite(1.0);
      Add(m, Mul(m, Signed(8), one), Mul(m, Signed(8), one)) == Zero(true)
      && Add(m, Mul(m, Table(8), one), Mul(m, Table(8), one)) == Zero(false)
  {
  }

  lemma Sizes(p: Product)
    requires p.Valid()
    ensures |p.w| == p.rows * (p.cols / 2) && |p.s| == p.rows * (p.cols / 16) && |p.x| == p.tokens * p.cols
    ensures p.cols % 16 == 0
  {
  }

  lemma PairStep(p: Product, table: bv8 -> Float, r: nat, t: nat, b: nat, k: nat)
    requires p.Valid() && r < p.rows && t < p.tokens && b < p.cols / 16 && k < 8
    ensures 8 * b + k + 1 <= p.cols / 2 && 16 * b + 2 * k + 1 < p.cols
    ensures |p.w| == p.rows * (p.cols / 2) && |p.s| == p.rows * (p.cols / 16) && |p.x| == p.tokens * p.cols
    ensures p.cols % 2 == 0 && (16 * b + 2 * k) / 2 == (16 * b + 2 * k + 1) / 2 == 8 * b + k
    ensures p.Dot(table, r, t, 8 * b + k + 1) ==
      Add(p.m, p.Dot(table, r, t, 8 * b + k),
        Mul(p.m, p.Scale(r, b),
          Add(p.m, Mul(p.m, table(p.Code(r, 16 * b + 2 * k)), p.x[At(t, 16 * b + 2 * k, p.tokens, p.cols)]),
                   Mul(p.m, table(p.Code(r, 16 * b + 2 * k + 1)), p.x[At(t, 16 * b + 2 * k + 1, p.tokens, p.cols)]))))
  {
    hide Add, Mul, Product.Scale, Product.Code;
    assert (8 * b + k) / 8 == b;
    assert 2 * (8 * b + k) == 16 * b + 2 * k;
  }

  /** The reference product: row by row and token by token, a block of sixteen columns at a time. */
  method Reference(p: Product, y: array<Float>)
    requires p.Valid() && y.Length == p.tokens * p.rows
    modifies y
    ensures y[..] == p.Y()
  {
    hide *;
    DoneNone(y[..], p.Y(), p.tokens, p.rows);
    for r: nat := 0 to p.rows
      invariant Done(y[..], p.Y(), p.tokens, p.rows, r, 0)
    {
      for t: nat := 0 to p.tokens
        invariant Done(y[..], p.Y(), p.tokens, p.rows, r, t)
      {
        var sum := ReferenceDot(p, r, t);
        DoneStep(y[..], p.Y(), p.tokens, p.rows, r, t);
        ghost var past := y[..];
        var k := At(t, r, p.tokens, p.rows);
        y[k] := sum;
        assert y[..] == past[k := p.Y()[k]];
      }
      DoneNext(y[..], p.Y(), p.tokens, p.rows, r);
    }
    DoneAll(y[..], p.Y(), p.tokens, p.rows);
  }

  method ReferenceDot(p: Product, r: nat, t: nat) returns (sum: Float)
    requires p.Valid() && r < p.rows && t < p.tokens
    ensures sum == p.Dot(Signed, r, t, p.cols / 2)
  {
    hide Product.Valid, Product.Dot, Product.Code, Add, Mul, Signed, LowWeight, HighWeight, Low, High, At;
    Sizes(p);
    NoPairs(p, Signed, r, t);
    sum := Zero(false);
    for b: nat := 0 to p.cols / 16
      invariant sum == p.Dot(Signed, r, t, 8 * b)
    {
      var scale := p.Scale(r, b);
      for k: nat := 0 to 8
        invariant 8 * b + k <= p.cols / 2
        invariant sum == p.Dot(Signed, r, t, 8 * b + k)
      {
        PairStep(p, Signed, r, t, b, k);
        var v := p.w[At(r, b * 8 + k, p.rows, p.cols / 2)];
        ByteCodes(p, r, b, k);
        var wl, wh := LowWeight(v), HighWeight(v);
        sum := Add(p.m, sum, Mul(p.m, scale, Add(p.m, Mul(p.m, wl, p.x[At(t, 16 * b + 2 * k, p.tokens, p.cols)]),
                                                      Mul(p.m, wh, p.x[At(t, 16 * b + 2 * k + 1, p.tokens, p.cols)]))));
      }
    }
  }

  lemma NoPairs(p: Product, table: bv8 -> Float, r: nat, t: nat)
    requires p.Valid() && r < p.rows && t < p.tokens
    ensures p.Dot(table, r, t, 0) == Zero(false)
  {
  }

  /** A byte holds an even column's code and the next one's. */
  lemma ByteCodes(p: Product, r: nat, b: nat, k: nat)
    requires p.Valid() && r < p.rows && b < p.cols / 16 && k < 8
    ensures b * 8 + k < p.cols / 2 && 16 * b + 2 * k + 1 < p.cols && p.cols % 2 == 0
    ensures |p.w| == p.rows * (p.cols / 2)
    ensures p.Code(r, 16 * b + 2 * k) == Low(p.w[At(r, b * 8 + k, p.rows, p.cols / 2)])
    ensures p.Code(r, 16 * b + 2 * k + 1) == High(p.w[At(r, b * 8 + k, p.rows, p.cols / 2)])
  {
    hide Low, High, At, Product.Valid;
    Sizes(p);
    PairFits(p, b, k);
    Halves(8 * b + k);
  }

  /** Writes the transposed codes and scales. */
  method Pack(p: Product, codes: array<bv8>, scales: array<bv8>)
    requires p.Valid() && p.rows % LANES == 0 && codes != scales
    requires codes.Length == Size(p.rows / LANES, p.cols, 8)
    requires scales.Length == Size(p.rows / LANES, p.cols / 16, LANES)
    modifies codes, scales
    ensures codes[..] == p.Codes() && scales[..] == p.Scales()
  {
    hide Slot, Size, Product.Codes, Product.Scales, Product.Valid, Product.Dot, Product.Code, Product.ScaleByte,
      Product.PackedCode;
    var tiles: nat := p.rows / LANES;
    Sizes(p);
    SlotsInOrder(0, 0, 0, tiles, p.cols, 8);
    SlotsInOrder(0, 0, 0, tiles, p.cols / 16, LANES);
    for tile: nat := 0 to tiles
      invariant Slot(tile, 0, 0, p.cols, 8) <= codes.Length && Slot(tile, 0, 0, p.cols / 16, LANES) <= scales.Length
      invariant forall i | 0 <= i < Slot(tile, 0, 0, p.cols, 8) :: codes[i] == p.Codes()[i]
      invariant forall i | 0 <= i < Slot(tile, 0, 0, p.cols / 16, LANES) :: scales[i] == p.Scales()[i]
    {
      PackCodes(p, tile, codes);
      PackScales(p, tile, scales);
    }
  }

  method PackCodes(p: Product, tile: nat, codes: array<bv8>)
    requires p.Valid() && p.rows % LANES == 0 && codes.Length == Size(p.rows / LANES, p.cols, 8)
      && tile < p.rows / LANES
    requires Slot(tile, 0, 0, p.cols, 8) <= codes.Length
    requires forall i | 0 <= i < Slot(tile, 0, 0, p.cols, 8) :: codes[i] == p.Codes()[i]
    modifies codes
    ensures Slot(tile + 1, 0, 0, p.cols, 8) <= codes.Length
    ensures forall i | 0 <= i < Slot(tile + 1, 0, 0, p.cols, 8) :: codes[i] == p.Codes()[i]
  {
    hide Slot, Size, Product.Codes, Product.Valid, Product.Dot, Product.Code, Product.PackedCode;
    Sizes(p);
    for c: nat := 0 to p.cols
      invariant Slot(tile, c, 0, p.cols, 8) <= codes.Length
      invariant forall i | 0 <= i < Slot(tile, c, 0, p.cols, 8) :: codes[i] == p.Codes()[i]
    {
      for lane: nat := 0 to 8
        invariant Slot(tile, c, lane, p.cols, 8) <= codes.Length
        invariant forall i | 0 <= i < Slot(tile, c, lane, p.cols, 8) :: codes[i] == p.Codes()[i]
      {
        SlotInRange(tile, c, lane, p.rows / LANES, p.cols, 8);
        codes[Slot(tile, c, lane, p.cols, 8)] := p.PackedCode(tile, c, lane);
        SlotsInOrder(tile, c, lane, 0, p.cols, 8);
      }
      SlotsInOrder(tile, c, 0, 0, p.cols, 8);
    }
    SlotsInOrder(tile, 0, 0, 0, p.cols, 8);
  }

  method PackScales(p: Product, tile: nat, scales: array<bv8>)
    requires p.Valid() && p.rows % LANES == 0 && tile < p.rows / LANES
    requires scales.Length == Size(p.rows / LANES, p.cols / 16, LANES)
    requires Slot(tile, 0, 0, p.cols / 16, LANES) <= scales.Length
    requires forall i | 0 <= i < Slot(tile, 0, 0, p.cols / 16, LANES) :: scales[i] == p.Scales()[i]
    modifies scales
    ensures Slot(tile + 1, 0, 0, p.cols / 16, LANES) <= scales.Length
    ensures forall i | 0 <= i < Slot(tile + 1, 0, 0, p.cols / 16, LANES) :: scales[i] == p.Scales()[i]
  {
    hide Slot, Size, Product.Scales, Product.Valid, Product.Dot, Product.ScaleByte;
    Sizes(p);
    var blocks: nat := p.cols / 16;
    for b: nat := 0 to blocks
      invariant Slot(tile, b, 0, blocks, LANES) <= scales.Length
      invariant forall i | 0 <= i < Slot(tile, b, 0, blocks, LANES) :: scales[i] == p.Scales()[i]
    {
      for lane: nat := 0 to LANES
        invariant Slot(tile, b, lane, blocks, LANES) <= scales.Length
        invariant forall i | 0 <= i < Slot(tile, b, lane, blocks, LANES) :: scales[i] == p.Scales()[i]
      {
        SlotInRange(tile, b, lane, p.rows / LANES, blocks, LANES);
        scales[Slot(tile, b, lane, blocks, LANES)] := p.ScaleByte(tile, b, lane);
        SlotsInOrder(tile, b, lane, 0, blocks, LANES);
      }
      SlotsInOrder(tile, b, 0, 0, blocks, LANES);
    }
    SlotsInOrder(tile, 0, 0, 0, blocks, LANES);
  }

  /** Takes a column's codes apart: the low halves of its bytes are the first eight rows', the high halves the
      others'. */
  function LoadCodes(p: Product, codes: seq<bv8>, tile: nat, c: nat): (v: seq<bv8>)
    requires p.rows % LANES == 0 && |codes| == Size(p.rows / LANES, p.cols, 8) && tile < p.rows / LANES && c < p.cols
    ensures |v| == LANES
  {
    SlotInRange(tile, c, 7, p.rows / LANES, p.cols, 8);
    seq(LANES, l requires 0 <= l < LANES =>
      if l < 8 then Low(codes[Slot(tile, c, l, p.cols, 8)]) else High(codes[Slot(tile, c, l - 8, p.cols, 8)]))
  }

  /** What the kernel takes apart is the matrix's codes, row by row. */
  lemma LoadCodesAt(p: Product, tile: nat, c: nat, l: nat)
    requires p.Valid() && p.rows % LANES == 0 && tile < p.rows / LANES && c < p.cols && l < LANES
    ensures LoadCodes(p, p.Codes(), tile, c)[l] == p.Code(RowOf(tile, l, p.rows), c)
  {
    hide Product.Code, Product.Codes, Size, Slot;
    var lane := if l < 8 then l else l - 8;
    SlotInRange(tile, c, lane, p.rows / LANES, p.cols, 8);
    JoinedCodes(p.Code(RowOf(tile, lane, p.rows), c), p.Code(RowOf(tile, lane + 8, p.rows), c));
  }

  function LoadScales(p: Product, scales: seq<bv8>, tile: nat, b: nat): (v: Lanes)
    requires p.rows % LANES == 0 && |scales| == Size(p.rows / LANES, p.cols / 16, LANES)
    requires tile < p.rows / LANES && b < p.cols / 16
  {
    SlotInRange(tile, b, LANES - 1, p.rows / LANES, p.cols / 16, LANES);
    LanesMul(p.m, seq(LANES, l requires 0 <= l < LANES => p.e4m3(scales[Slot(tile, b, l, p.cols / 16, LANES)])),
      Splat(p.global))
  }

  lemma LoadScalesAt(p: Product, tile: nat, b: nat, l: nat)
    requires p.Valid() && p.rows % LANES == 0 && tile < p.rows / LANES && b < p.cols / 16 && l < LANES
    ensures LoadScales(p, p.Scales(), tile, b)[l] == p.Scale(RowOf(tile, l, p.rows), b)
  {
    hide Product.Scales, Size, Slot, Mul;
    SlotInRange(tile, b, l, p.rows / LANES, p.cols / 16, LANES);
  }

  /** The table, permuted by a vector of codes. */
  function Permute(codes: seq<bv8>): Lanes
    requires |codes| == LANES
  {
    seq(LANES, l requires 0 <= l < LANES => Table(codes[l]))
  }

  /** The lanes of one tile and token after `i` pairs of columns. */
  ghost predicate Sums(p: Product, tile: nat, t: nat, i: nat, v: Lanes)
    requires p.Valid() && p.rows % LANES == 0 && tile < p.rows / LANES && t < p.tokens && i <= p.cols / 2
  {
    forall l | 0 <= l < LANES :: v[l] == p.Dot(Table, RowOf(tile, l, p.rows), t, i)
  }

  lemma SumStart(p: Product, tile: nat, t: nat)
    requires p.Valid() && p.rows % LANES == 0 && tile < p.rows / LANES && t < p.tokens
    ensures Sums(p, tile, t, 0, Splat(Zero(false)))
  {
  }

  /** A pair of columns for one token, in all lanes. */
  function AddPair(p: Product, sum: Lanes, scale: Lanes, we: Lanes, u: Float, wo: Lanes, v: Float): Lanes {
    var pair := LanesAdd(p.m, LanesMul(p.m, we, Splat(u)), LanesMul(p.m, wo, Splat(v)));
    LanesAdd(p.m, sum, LanesMul(p.m, scale, pair))
  }

  /** What a lane holds after a pair of columns. */
  lemma LaneStep(p: Product, tile: nat, t: nat, b: nat, k: nat, sum: Lanes, u: Float, v: Float, l: nat)
    requires p.Valid() && p.rows % LANES == 0 && tile < p.rows / LANES && t < p.tokens && b < p.cols / 16 && k < 8
    requires 8 * b + k < p.cols / 2 && 16 * b + 2 * k + 1 < p.cols && l < LANES
    requires |p.x| == p.tokens * p.cols
    requires u == p.x[At(t, 16 * b + 2 * k, p.tokens, p.cols)] && v == p.x[At(t, 16 * b + 2 * k + 1, p.tokens, p.cols)]
    requires sum[l] == p.Dot(Table, RowOf(tile, l, p.rows), t, 8 * b + k)
    ensures AddPair(p, sum, LoadScales(p, p.Scales(), tile, b),
                    Permute(LoadCodes(p, p.Codes(), tile, 16 * b + 2 * k)), u,
                    Permute(LoadCodes(p, p.Codes(), tile, 16 * b + 2 * k + 1)), v)[l]
      == p.Dot(Table, RowOf(tile, l, p.rows), t, 8 * b + k + 1)
  {
    hide Product.Dot, Product.Valid, Product.Codes, Product.Scales, Product.Code, Product.Scale, Size, Slot, RowOf,
         LoadCodes, LoadScales, Table, Add, Mul, At;
    PairStep(p, Table, RowOf(tile, l, p.rows), t, b, k);
    LoadCodesAt(p, tile, 16 * b + 2 * k, l);
    LoadCodesAt(p, tile, 16 * b + 2 * k + 1, l);
    LoadScalesAt(p, tile, b, l);
  }

  /** A vector step is the reference's scalar step in every lane, but for the table. */
  lemma SumStep(p: Product, tile: nat, t: nat, b: nat, k: nat, sum: Lanes)
    requires p.Valid() && p.rows % LANES == 0 && tile < p.rows / LANES && t < p.tokens && b < p.cols / 16 && k < 8
    requires 8 * b + k <= p.cols / 2 && Sums(p, tile, t, 8 * b + k, sum)
    ensures 8 * b + k + 1 <= p.cols / 2 && 16 * b + 2 * k + 1 < p.cols && |p.x| == p.tokens * p.cols
    ensures Sums(p, tile, t, 8 * b + k + 1,
      AddPair(p, sum, LoadScales(p, p.Scales(), tile, b),
              Permute(LoadCodes(p, p.Codes(), tile, 16 * b + 2 * k)), p.x[At(t, 16 * b + 2 * k, p.tokens, p.cols)],
              Permute(LoadCodes(p, p.Codes(), tile, 16 * b + 2 * k + 1)),
                p.x[At(t, 16 * b + 2 * k + 1, p.tokens, p.cols)]))
  {
    hide Product.Dot, Product.Valid, Product.Codes, Product.Scales, Size, RowOf, LoadCodes, LoadScales, Permute,
      AddPair, At;
    PairFits(p, b, k);
    Sizes(p);
    var u, v := p.x[At(t, 16 * b + 2 * k, p.tokens, p.cols)], p.x[At(t, 16 * b + 2 * k + 1, p.tokens, p.cols)];
    forall l: nat | l < LANES
      ensures AddPair(p, sum, LoadScales(p, p.Scales(), tile, b),
                      Permute(LoadCodes(p, p.Codes(), tile, 16 * b + 2 * k)), u,
                      Permute(LoadCodes(p, p.Codes(), tile, 16 * b + 2 * k + 1)), v)[l]
        == p.Dot(Table, RowOf(tile, l, p.rows), t, 8 * b + k + 1)
    {
      LaneStep(p, tile, t, b, k, sum, u, v, l);
    }
  }

  lemma SumEnd(p: Product, tile: nat, t: nat, v: Lanes)
    requires p.Valid() && p.rows % LANES == 0 && tile < p.rows / LANES && t < p.tokens
      && Sums(p, tile, t, p.cols / 2, v)
    ensures Holds(v, p.Y(), p.tokens, p.rows, tile, t)
  {
    hide Product.Dot, Product.Y, Product.Valid;
    forall l: nat | l < LANES
      ensures v[l] == p.Y()[At(t, RowOf(tile, l, p.rows), p.tokens, p.rows)]
    {
      SignOfZeroIsAbsorbed(p, RowOf(tile, l, p.rows), t, p.cols / 2);
    }
  }

  /** The row-lane kernel on the images leaves what the reference leaves, in every element of the output. */
  method Kernel(p: Product, codes: seq<bv8>, scales: seq<bv8>, y: array<Float>)
    requires p.Valid() && p.rows % LANES == 0 && codes == p.Codes() && scales == p.Scales()
    requires y.Length == p.tokens * p.rows
    modifies y
    ensures y[..] == p.Y()
  {
    hide Product.Valid, Product.Y, Product.Codes, Product.Scales, Tiled, Done;
    DoneNone(y[..], p.Y(), p.tokens, p.rows);
    var tiles: nat := p.rows / LANES;
    for tile: nat := 0 to tiles
      invariant Tiled(y[..], p.Y(), p.tokens, p.rows, tile, 0)
    {
      var tb: nat := 0;
      while tb < p.tokens
        invariant tb <= p.tokens && Tiled(y[..], p.Y(), p.tokens, p.rows, tile, tb)
      {
        var n: nat := if p.tokens - tb < 8 then p.tokens - tb else 8;
        TileBlock(p, codes, scales, tile, tb, n, y);
        tb := tb + n;
      }
      TiledNext(y[..], p.Y(), p.tokens, p.rows, tile);
    }
    TiledAll(y[..], p.Y(), p.tokens, p.rows);
  }

  /** One tile for up to eight tokens. */
  method TileBlock(p: Product, codes: seq<bv8>, scales: seq<bv8>, tile: nat, tb: nat, n: nat, y: array<Float>)
    requires p.Valid() && p.rows % LANES == 0 && codes == p.Codes() && scales == p.Scales()
    requires y.Length == p.tokens * p.rows && tile < p.rows / LANES && tb + n <= p.tokens && n <= 8
    requires Tiled(y[..], p.Y(), p.tokens, p.rows, tile, tb)
    modifies y
    ensures Tiled(y[..], p.Y(), p.tokens, p.rows, tile, tb + n)
  {
    hide Product.Valid, Product.Y, Product.Codes, Product.Scales, Tiled, Sums, Holds;
    var sum := TileSums(p, codes, scales, tile, tb, n);
    for q: nat := 0 to n
      invariant forall i: nat | i < n :: Sums(p, tile, tb + i, p.cols / 2, sum[i])
      invariant Tiled(y[..], p.Y(), p.tokens, p.rows, tile, tb + q)
    {
      SumEnd(p, tile, tb + q, sum[q]);
      StoreToken(y, p.Y(), p.tokens, p.rows, tile, tb + q, sum[q]);
    }
  }

  method TileSums(p: Product, codes: seq<bv8>, scales: seq<bv8>, tile: nat, tb: nat, n: nat) returns (sum: array<Lanes>)
    requires p.Valid() && p.rows % LANES == 0 && codes == p.Codes() && scales == p.Scales()
    requires tile < p.rows / LANES && tb + n <= p.tokens && n <= 8
    ensures fresh(sum) && sum.Length == 8 && forall q: nat | q < n :: Sums(p, tile, tb + q, p.cols / 2, sum[q])
  {
    hide Product.Valid, Product.Codes, Product.Scales, Sums, AddPair, LoadScales, LoadCodes, Permute, Splat, At, Size;
    Sizes(p);
    sum := new Lanes[8](_ => Splat(Zero(false)));
    forall q: nat | q < n
      ensures Sums(p, tile, tb + q, 0, sum[q])
    {
      SumStart(p, tile, tb + q);
    }
    for b: nat := 0 to p.cols / 16
      invariant forall q: nat | q < n :: Sums(p, tile, tb + q, 8 * b, sum[q])
    {
      var scale := LoadScales(p, scales, tile, b);
      for k: nat := 0 to 8
        invariant 8 * b + k <= p.cols / 2
        invariant forall q: nat | q < n :: Sums(p, tile, tb + q, 8 * b + k, sum[q])
      {
        PairFits(p, b, k);
        var c := 16 * b + 2 * k;
        var we, wo := Permute(LoadCodes(p, codes, tile, c)), Permute(LoadCodes(p, codes, tile, c + 1));
        for q: nat := 0 to n
          invariant forall i: nat | i < n :: Sums(p, tile, tb + i, if i < q then 8 * b + k + 1 else 8 * b + k, sum[i])
        {
          SumStep(p, tile, tb + q, b, k, sum[q]);
          sum[q] := AddPair(p, sum[q], scale, we, p.x[At(tb + q, c, p.tokens, p.cols)],
                            wo, p.x[At(tb + q, c + 1, p.tokens, p.cols)]);
        }
      }
    }
  }

  lemma Halves(i: nat)
    ensures 2 * i / 2 == (2 * i + 1) / 2 == i && 2 * i % 2 == 0 && (2 * i + 1) % 2 == 1
  {
  }

  lemma PairFits(p: Product, b: nat, k: nat)
    requires p.Valid() && b < p.cols / 16 && k < 8
    ensures 8 * b + k + 1 <= p.cols / 2 && 16 * b + 2 * k + 1 < p.cols
  {
  }
}
