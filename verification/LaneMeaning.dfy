/** What the reference products are (jb.c:2381-2412, 2616-2637), apart from the functions the kernels are proved
    against: left-to-right sums of products, and over exact arithmetic the product of the matrices. */
module LaneMeaning {
  import opened Floats
  import opened Segments
  import opened RowLanes
  import LanesBf16
  import LanesNvFp4

  // ----- exact arithmetic

  function Made(r: real): Float {
    if r == 0.0 then Zero(false) else Finite(r)
  }

  function Times(x: real, y: real): real {
    x * y
  }

  /** Arithmetic without rounding. */
  function Exact(): Rounding {
    Rounding((x: real, y: real) => Made(x + y), (x: real, y: real) => Made(Times(x, y)))
  }

  predicate Number(x: Float) {
    x.Zero? || x.Finite?
  }

  function Value(x: Float): real {
    if x.Finite? then x.v else 0.0
  }

  lemma SumIs(x: Float, y: Float)
    requires Number(x) && Number(y)
    ensures Number(Add(Exact(), x, y)) && Value(Add(Exact(), x, y)) == Value(x) + Value(y)
  {
  }

  lemma ProductIs(x: Float, y: Float)
    requires Number(x) && Number(y)
    ensures Number(Mul(Exact(), x, y)) && Value(Mul(Exact(), x, y)) == Times(Value(x), Value(y))
  {
    hide Times;
    TimesZero(Value(x));
    TimesZero(Value(y));
  }

  lemma TimesZero(x: real)
    ensures Times(x, 0.0) == 0.0 && Times(0.0, x) == 0.0
  {
  }

  lemma Distribute(s: real, a: real, b: real)
    ensures Times(s, a + b) == Times(s, a) + Times(s, b)
  {
  }

  lemma ExactIsValid()
    ensures Exact().Valid()
  {
  }

  /** What is exact already: adding the negative zero, multiplying by one and by minus one, infinities, and that neither
      operation tells its operands apart if the rounding does not. */
  lemma FloatLaws(m: Rounding, x: Float, y: Float, neg: bool)
    requires forall a, b :: m.sum(a, b) == m.sum(b, a)
    requires forall a, b :: m.product(a, b) == m.product(b, a)
    ensures Add(m, x, y) == Add(m, y, x) && Mul(m, x, y) == Mul(m, y, x)
    ensures Add(m, x, Zero(true)) == x && (x != Zero(true) ==> Add(m, x, Zero(false)) == x)
    ensures Mul(Exact(), x, Finite(1.0)) == x && Mul(Exact(), x, Finite(-1.0)) == Neg(x)
    ensures x.Finite? ==> Add(m, x, Neg(x)) == Zero(false)
    ensures x != NaN && x != Inf(!neg) ==> Add(m, Inf(neg), x) == Inf(neg)
    ensures x.Inf? ==> Add(m, x, Neg(x)) == NaN
    ensures x == NaN || x.Zero? ==> Mul(m, Inf(neg), x) == NaN
    ensures x.Inf? || x.Finite? ==>
      Mul(m, Inf(neg), x) == Inf(neg != if x.Inf? then x.neg else x.v < 0.0)
    ensures Mul(m, Zero(neg), Zero(true)) == Zero(!neg) && Mul(m, Zero(neg), Finite(1.0)) == Zero(neg)
  {
    if x.Finite? {
      assert x.v + (0.0 - x.v) == 0.0;
      assert Times(x.v, 1.0) == x.v && Times(x.v, -1.0) == 0.0 - x.v;
    }
  }

  /** The sum of `f` below `n`. */
  ghost function Total(f: nat -> real, n: nat): real {
    if n == 0 then 0.0 else f(n - 1) + Total(f, n - 1)
  }

  // ----- BF16

  /** One more column: its weight times the token's value is added. */
  ghost predicate Column(p: LanesBf16.Product, r: nat, t: nat, c: nat, before: Float, after: Float) {
    && r * p.cols + c < |p.data| && t * p.cols + c < |p.x|
    && after == Add(p.m, before, Mul(p.m, p.bf(p.data[r * p.cols + c]), p.x[t * p.cols + c]))
  }

  /** A row's product with a token: its partial sums, column by column from zero. */
  ghost predicate Sums(p: LanesBf16.Product, r: nat, t: nat, sums: seq<Float>) {
    && |sums| == p.cols + 1 && sums[0] == Zero(false)
    && forall c: nat | c < p.cols :: Column(p, r, t, c, sums[c], sums[c + 1])
  }

  lemma ColumnIs(p: LanesBf16.Product, r: nat, t: nat, c: nat)
    requires p.Valid() && r < p.rows && t < p.tokens && c < p.cols
    ensures Column(p, r, t, c, p.Dot(r, t, c), p.Dot(r, t, c + 1))
  {
    hide Add, Mul, At, LanesBf16.Product.Dot, LanesBf16.Product.Valid;
    LanesBf16.Columns(p, r, t, c);
    AtIs(r, c, p.rows, p.cols);
    AtIs(t, c, p.tokens, p.cols);
  }

  lemma AtIs(i: nat, j: nat, rows: nat, columns: nat)
    requires i < rows && j < columns
    ensures At(i, j, rows, columns) == i * columns + j
  {
  }

  lemma {:induction false} SumsUpTo(p: LanesBf16.Product, r: nat, t: nat, sums: seq<Float>, c: nat)
    requires p.Valid() && r < p.rows && t < p.tokens && Sums(p, r, t, sums) && c <= p.cols
    ensures sums[c] == p.Dot(r, t, c)
  {
    hide Add, Mul, LanesBf16.Product.Valid, LanesBf16.Product.Dot;
    if c > 0 {
      SumsUpTo(p, r, t, sums, c - 1);
      ColumnIs(p, r, t, c - 1);
      assert Column(p, r, t, c - 1, sums[c - 1], sums[c - 1 + 1]);
    } else {
      LanesBf16.NoColumns(p, r, t);
    }
  }

  /** The reference product's element is the last of them. */
  lemma Bf16Is(p: LanesBf16.Product, r: nat, t: nat, sums: seq<Float>)
    requires p.Valid() && r < p.rows && t < p.tokens && Sums(p, r, t, sums)
    ensures |p.Y()| == p.tokens * p.rows && t * p.rows + r < |p.Y()| && p.Y()[t * p.rows + r] == sums[p.cols]
  {
    SumsUpTo(p, r, t, sums, p.cols);
    assert At(t, r, p.tokens, p.rows) == t * p.rows + r;
  }

  /** All codes and all token values are numbers. */
  ghost predicate Bf16Numbers(p: LanesBf16.Product) {
    && (forall i | 0 <= i < |p.data| :: Number(p.bf(p.data[i])))
    && (forall i | 0 <= i < |p.x| :: Number(p.x[i]))
  }

  ghost function Bf16Term(p: LanesBf16.Product, r: nat, t: nat): nat -> real {
    (c: nat) => if r * p.cols + c < |p.data| && t * p.cols + c < |p.x|
                then Times(Value(p.bf(p.data[r * p.cols + c])), Value(p.x[t * p.cols + c])) else 0.0
  }

  lemma ColumnExact(p: LanesBf16.Product, r: nat, t: nat, c: nat, before: Float, after: Float)
    requires p.m == Exact() && Bf16Numbers(p) && Number(before) && Column(p, r, t, c, before, after)
    ensures Number(after) && Value(after) == Value(before) + Bf16Term(p, r, t)(c)
  {
    hide Add, Mul, Exact, Number, Value, Times;
    var w, x := p.bf(p.data[r * p.cols + c]), p.x[t * p.cols + c];
    ProductIs(w, x);
    SumIs(before, Mul(p.m, w, x));
  }

  lemma OneMore(f: nat -> real, n: nat)
    ensures Total(f, n + 1) == Total(f, n) + f(n)
  {
  }

  /** Over exact arithmetic the product is that of the matrices. */
  lemma {:induction false} Bf16Exact(p: LanesBf16.Product, r: nat, t: nat, c: nat)
    requires p.Valid() && p.m == Exact() && Bf16Numbers(p) && r < p.rows && t < p.tokens && c <= p.cols
    ensures Number(p.Dot(r, t, c)) && Value(p.Dot(r, t, c)) == Total(Bf16Term(p, r, t), c)
  {
    hide *;
    if c == 0 {
      LanesBf16.NoColumns(p, r, t);
      ZeroIs(Bf16Term(p, r, t));
    } else {
      Bf16Exact(p, r, t, c - 1);
      ColumnIs(p, r, t, c - 1);
      ColumnExact(p, r, t, c - 1, p.Dot(r, t, c - 1), p.Dot(r, t, c - 1 + 1));
      OneMore(Bf16Term(p, r, t), c - 1);
    }
  }

  lemma ZeroIs(f: nat -> real)
    ensures Number(Zero(false)) && Value(Zero(false)) == 0.0 == Total(f, 0)
  {
  }

  lemma PlaceIs(tile: nat, c: nat, lane: nat, columns: nat, lanes: nat)
    ensures Slot(tile, c, lane, columns, lanes) == (tile * columns + c) * lanes + lane
  {
  }

  lemma RowPlace(tile: nat, lane: nat, rows: nat, c: nat, columns: nat)
    requires rows % 16 == 0 && tile < rows / 16 && lane < 16 && c < columns
    ensures RowOf(tile, lane, rows) == tile * 16 + lane < rows
    ensures At(RowOf(tile, lane, rows), c, rows, columns) == (tile * 16 + lane) * columns + c
  {
    AtIs(RowOf(tile, lane, rows), c, rows, columns);
  }

  /** The image: lane by lane within a column, column by column within sixteen rows. */
  lemma Bf16ImageIs(p: LanesBf16.Product, tile: nat, c: nat, lane: nat, k: nat, i: nat)
    requires p.Valid() && p.rows % 16 == 0 && tile < p.rows / 16 && c < p.cols && lane < 16
    requires k == (tile * p.cols + c) * 16 + lane && i == (tile * 16 + lane) * p.cols + c
    ensures k < |p.Transposed()| && i < |p.data| && p.Transposed()[k] == p.data[i]
  {
    hide Slot, Size, At, RowOf;
    PlaceIs(tile, c, lane, p.cols, LANES);
    RowPlace(tile, lane, p.rows, c, p.cols);
  }

  // ----- NVFP4

  /** The code in row `r` and column `c`: even columns in the low halves of the bytes, odd ones in the high halves. */
  function Code(p: LanesNvFp4.Product, r: nat, c: nat): nat
    requires r * (p.cols / 2) + c / 2 < |p.w|
  {
    var v := p.w[r * (p.cols / 2) + c / 2] as nat;
    if c % 2 == 0 then v % 16 else v / 16
  }

  /** What a code stands for: a sign, two bits of exponent and one of mantissa. */
  function Weight(code: nat): real {
    var e, m := code % 8 / 2, (code % 2) as real;
    var magnitude := if e == 0 then m / 2.0 else if e == 1 then 1.0 + m / 2.0 else if e == 2 then 2.0 + m
      else 4.0 + 2.0 * m;
    if code >= 8 then -magnitude else magnitude
  }

  lemma WeightIs(code: bv8)
    requires code < 16
    ensures Number(LanesNvFp4.Signed(code)) && Value(LanesNvFp4.Signed(code)) == Weight(code as nat)
    ensures Number(LanesNvFp4.Table(code)) && Value(LanesNvFp4.Table(code)) == Weight(code as nat)
  {
  }

  lemma HalvesAre(v: bv8)
    ensures LanesNvFp4.Low(v) as nat == v as nat % 16 && LanesNvFp4.High(v) as nat == v as nat / 16
  {
    assert v & 15 == v % 16;
    assert v >> 4 == v / 16;
  }

  ghost predicate NvFp4Numbers(p: LanesNvFp4.Product) {
    && (forall i | 0 <= i < |p.s| :: Number(p.e4m3(p.s[i]))) && Number(p.global)
    && (forall i | 0 <= i < |p.x| :: Number(p.x[i]))
  }

  /** A weight times a token's value, times the two scales. */
  function Scaled(s: Float, global: Float, weight: real, x: Float): real {
    Times(Times(Value(s), Value(global)), Times(weight, Value(x)))
  }

  /** A column's weight, its block's scale and the global one, and the token's value, multiplied. */
  ghost function NvFp4Term(p: LanesNvFp4.Product, r: nat, t: nat): nat -> real {
    (c: nat) => if r * (p.cols / 2) + c / 2 < |p.w| && r * (p.cols / 16) + c / 16 < |p.s| && t * p.cols + c < |p.x|
                then Scaled(p.e4m3(p.s[r * (p.cols / 16) + c / 16]), p.global, Weight(Code(p, r, c)),
                  p.x[t * p.cols + c])
                else 0.0
  }

  /** One more pair of columns: the two weights times the token's values, added, then scaled, are added. The codes are
      in byte `k`, the scale is number `g`, and the values are from `j` on. */
  ghost predicate PairAt(p: LanesNvFp4.Product, table: bv8 -> Float, k: nat, g: nat, j: nat, before: Float,
                         after: Float)
  {
    && k < |p.w| && g < |p.s| && j + 1 < |p.x|
    && after == Add(p.m, before,
         Mul(p.m, Mul(p.m, p.e4m3(p.s[g]), p.global),
             Add(p.m, Mul(p.m, table(LanesNvFp4.Low(p.w[k])), p.x[j]),
                      Mul(p.m, table(LanesNvFp4.High(p.w[k])), p.x[j + 1]))))
  }

  ghost predicate Pair(p: LanesNvFp4.Product, table: bv8 -> Float, r: nat, t: nat, i: nat, before: Float, after: Float)
  {
    PairAt(p, table, r * (p.cols / 2) + i, r * (p.cols / 16) + i / 8, t * p.cols + 2 * i, before, after)
  }

  /** A row's product with a token: its partial sums, pair of columns by pair of columns from zero. */
  ghost predicate PairSums(p: LanesNvFp4.Product, table: bv8 -> Float, r: nat, t: nat, sums: seq<Float>) {
    && |sums| == p.cols / 2 + 1 && sums[0] == Zero(false)
    && forall i: nat | i < p.cols / 2 :: Pair(p, table, r, t, i, sums[i], sums[i + 1])
  }

  lemma PlacesAre(p: LanesNvFp4.Product, r: nat, t: nat, i: nat)
    requires p.Valid() && r < p.rows && t < p.tokens && i < p.cols / 2
    ensures i / 8 < p.cols / 16 && 2 * i + 1 < p.cols
    ensures At(r, i / 8, p.rows, p.cols / 16) == r * (p.cols / 16) + i / 8 < |p.s|
    ensures At(t, 2 * i, p.tokens, p.cols) == t * p.cols + 2 * i
    ensures At(t, 2 * i + 1, p.tokens, p.cols) == t * p.cols + 2 * i + 1 < |p.x|
    ensures At(r, i, p.rows, p.cols / 2) == r * (p.cols / 2) + i < |p.w|
    ensures 2 * i / 2 == i && (2 * i + 1) / 2 == i && 2 * i / 16 == i / 8 && (2 * i + 1) / 16 == i / 8
  {
  }

  lemma PairIs(p: LanesNvFp4.Product, table: bv8 -> Float, r: nat, t: nat, i: nat)
    requires p.Valid() && r < p.rows && t < p.tokens && i < p.cols / 2
    ensures Pair(p, table, r, t, i, p.Dot(table, r, t, i), p.Dot(table, r, t, i + 1))
  {
    hide Add, Mul, At, LanesNvFp4.Low, LanesNvFp4.High;
    PlacesAre(p, r, t, i);
  }

  lemma {:induction false} PairSumsUpTo(p: LanesNvFp4.Product, table: bv8 -> Float, r: nat, t: nat, sums: seq<Float>,
                                        i: nat)
    requires p.Valid() && r < p.rows && t < p.tokens && PairSums(p, table, r, t, sums) && i <= p.cols / 2
    ensures sums[i] == p.Dot(table, r, t, i)
  {
    hide Add, Mul, LanesNvFp4.Product.Valid, LanesNvFp4.Product.Dot;
    if i > 0 {
      PairSumsUpTo(p, table, r, t, sums, i - 1);
      PairIs(p, table, r, t, i - 1);
      assert Pair(p, table, r, t, i - 1, sums[i - 1], sums[i - 1 + 1]);
    } else {
      LanesNvFp4.NoPairs(p, table, r, t);
    }
  }

  /** The reference product's element is the last of them, with the weights of the codes. */
  lemma NvFp4Is(p: LanesNvFp4.Product, r: nat, t: nat, sums: seq<Float>)
    requires p.Valid() && r < p.rows && t < p.tokens && PairSums(p, LanesNvFp4.Signed, r, t, sums)
    ensures |p.Y()| == p.tokens * p.rows && t * p.rows + r < |p.Y()| && p.Y()[t * p.rows + r] == sums[p.cols / 2]
  {
    PairSumsUpTo(p, LanesNvFp4.Signed, r, t, sums, p.cols / 2);
    assert At(t, r, p.tokens, p.rows) == t * p.rows + r;
  }

  lemma PairCodes(p: LanesNvFp4.Product, r: nat, t: nat, i: nat, k: nat, g: nat, j: nat)
    requires p.Valid() && r < p.rows && t < p.tokens && i < p.cols / 2
    requires k == r * (p.cols / 2) + i && g == r * (p.cols / 16) + i / 8 && j == t * p.cols + 2 * i
    requires k < |p.w| && g < |p.s| && j + 1 < |p.x|
    ensures NvFp4Term(p, r, t)(2 * i) == Scaled(p.e4m3(p.s[g]), p.global, Weight(p.w[k] as nat % 16), p.x[j])
    ensures NvFp4Term(p, r, t)(2 * i + 1) == Scaled(p.e4m3(p.s[g]), p.global, Weight(p.w[k] as nat / 16), p.x[j + 1])
  {
    hide Weight, Value, Scaled;
    PlacesAre(p, r, t, i);
  }

  /** A pair of columns, over exact arithmetic. */
  lemma PairValue(m: Rounding, s: Float, global: Float, a: Float, x: Float, b: Float, y: Float)
    requires m == Exact() && Number(s) && Number(global) && Number(a) && Number(x) && Number(b) && Number(y)
    ensures var term := Mul(m, Mul(m, s, global), Add(m, Mul(m, a, x), Mul(m, b, y)));
      && Number(term)
      && Value(term) == Scaled(s, global, Value(a), x) + Scaled(s, global, Value(b), y)
  {
    hide Add, Mul, Exact, Number, Value, Times;
    ProductIs(s, global);
    ProductIs(a, x);
    ProductIs(b, y);
    SumIs(Mul(m, a, x), Mul(m, b, y));
    ProductIs(Mul(m, s, global), Add(m, Mul(m, a, x), Mul(m, b, y)));
    Distribute(Times(Value(s), Value(global)), Times(Value(a), Value(x)), Times(Value(b), Value(y)));
  }

  lemma PairExactAt(p: LanesNvFp4.Product, k: nat, g: nat, j: nat, before: Float, after: Float)
    requires p.m == Exact() && NvFp4Numbers(p) && Number(before)
    requires PairAt(p, LanesNvFp4.Signed, k, g, j, before, after)
    ensures Number(after)
    ensures Value(after) == Value(before) + (Scaled(p.e4m3(p.s[g]), p.global, Weight(p.w[k] as nat % 16), p.x[j])
                                            + Scaled(p.e4m3(p.s[g]), p.global, Weight(p.w[k] as nat / 16), p.x[j + 1]))
  {
    hide Add, Mul, Exact, Number, Value, Weight, Scaled, LanesNvFp4.Signed, LanesNvFp4.Low, LanesNvFp4.High;
    var low, high := LanesNvFp4.Low(p.w[k]), LanesNvFp4.High(p.w[k]);
    HalvesAre(p.w[k]);
    WeightIs(low);
    WeightIs(high);
    var s, a, b := p.e4m3(p.s[g]), LanesNvFp4.Signed(low), LanesNvFp4.Signed(high);
    PairValue(p.m, s, p.global, a, p.x[j], b, p.x[j + 1]);
    SumIs(before, Mul(p.m, Mul(p.m, s, p.global), Add(p.m, Mul(p.m, a, p.x[j]), Mul(p.m, b, p.x[j + 1]))));
  }

  lemma PairExact(p: LanesNvFp4.Product, r: nat, t: nat, i: nat, before: Float, after: Float)
    requires p.Valid() && p.m == Exact() && NvFp4Numbers(p) && r < p.rows && t < p.tokens && i < p.cols / 2
    requires Number(before) && Pair(p, LanesNvFp4.Signed, r, t, i, before, after)
    ensures Number(after)
    ensures Value(after) == Value(before) + (NvFp4Term(p, r, t)(2 * i) + NvFp4Term(p, r, t)(2 * i + 1))
  {
    hide *;
    var k, g, j := PairPlaces(p, r, t, i, before, after);
    PairExactAt(p, k, g, j, before, after);
    PairCodes(p, r, t, i, k, g, j);
  }

  lemma PairPlaces(p: LanesNvFp4.Product, r: nat, t: nat, i: nat, before: Float, after: Float)
    returns (k: nat, g: nat, j: nat)
    requires Pair(p, LanesNvFp4.Signed, r, t, i, before, after)
    ensures k == r * (p.cols / 2) + i && g == r * (p.cols / 16) + i / 8 && j == t * p.cols + 2 * i
    ensures k < |p.w| && g < |p.s| && j + 1 < |p.x| && PairAt(p, LanesNvFp4.Signed, k, g, j, before, after)
  {
    hide Add, Mul, LanesNvFp4.Signed, LanesNvFp4.Low, LanesNvFp4.High;
    k, g, j := r * (p.cols / 2) + i, r * (p.cols / 16) + i / 8, t * p.cols + 2 * i;
  }

  lemma TwoMore(f: nat -> real, n: nat)
    ensures Total(f, n + 2) == Total(f, n) + (f(n) + f(n + 1))
  {
  }

  /** Over exact arithmetic the product is that of the scaled matrices. */
  lemma {:induction false} NvFp4Exact(p: LanesNvFp4.Product, r: nat, t: nat, i: nat)
    requires p.Valid() && p.m == Exact() && NvFp4Numbers(p) && r < p.rows && t < p.tokens && i <= p.cols / 2
    ensures Number(p.Dot(LanesNvFp4.Signed, r, t, i))
    ensures Value(p.Dot(LanesNvFp4.Signed, r, t, i)) == Total(NvFp4Term(p, r, t), 2 * i)
  {
    hide *;
    if i == 0 {
      LanesNvFp4.NoPairs(p, LanesNvFp4.Signed, r, t);
      ZeroIs(NvFp4Term(p, r, t));
    } else {
      NvFp4Exact(p, r, t, i - 1);
      PairIs(p, LanesNvFp4.Signed, r, t, i - 1);
      PairExact(p, r, t, i - 1, p.Dot(LanesNvFp4.Signed, r, t, i - 1), p.Dot(LanesNvFp4.Signed, r, t, i - 1 + 1));
      TwoMore(NvFp4Term(p, r, t), 2 * (i - 1));
    }
  }

  /** The image of the codes: a byte holds those of a row, low, and of the row eight on, high. */
  lemma CodesImageIs(p: LanesNvFp4.Product, tile: nat, c: nat, lane: nat, k: nat)
    requires p.Valid() && p.rows % 16 == 0 && tile < p.rows / 16 && c < p.cols && lane < 8
    requires k == (tile * p.cols + c) * 8 + lane
    ensures k < |p.Codes()| && tile * 16 + lane + 8 < p.rows
    ensures LanesNvFp4.Low(p.Codes()[k]) == p.Code(tile * 16 + lane, c)
    ensures LanesNvFp4.High(p.Codes()[k]) == p.Code(tile * 16 + lane + 8, c)
  {
    hide LanesNvFp4.Low, LanesNvFp4.High, LanesNvFp4.Join, LanesNvFp4.Product.Code, LanesNvFp4.Product.Codes;
    hide At, Slot, Size;
    PlaceIs(tile, c, lane, p.cols, 8);
    RowPlace(tile, lane, p.rows, c, p.cols);
    RowPlace(tile, lane + 8, p.rows, c, p.cols);
    LanesNvFp4.JoinedCodes(p.Code(tile * 16 + lane, c), p.Code(tile * 16 + lane + 8, c));
  }

  /** The image of the scales. */
  lemma ScalesImageIs(p: LanesNvFp4.Product, tile: nat, b: nat, lane: nat, k: nat, i: nat)
    requires p.Valid() && p.rows % 16 == 0 && tile < p.rows / 16 && b < p.cols / 16 && lane < 16
    requires k == (tile * (p.cols / 16) + b) * 16 + lane && i == (tile * 16 + lane) * (p.cols / 16) + b
    ensures k < |p.Scales()| && i < |p.s| && p.Scales()[k] == p.s[i]
  {
    hide Slot, Size, At, RowOf, LanesNvFp4.Product.Scales;
    PlaceIs(tile, b, lane, p.cols / 16, LANES);
    RowPlace(tile, lane, p.rows, b, p.cols / 16);
  }
}
