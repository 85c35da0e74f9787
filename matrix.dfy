/**
 * The floating-point colour transformation matrix `FloatCtm` of the tool and
 * the four ways it is built: the default identity, the saturation matrix, the
 * per-channel gain matrix and a caller-given matrix.
 *
 * The source stores nine `f64` values; here they are exact `real`s, so the
 * rounding of `(1.0 - sat) / 3.0` is not part of the model.
 */
module Matrix {
  import opened Wrappers

  /**
   * Nine coefficients in row-major order: output channel `r` is the sum over
   * `c` of `Entry(m, r, c)` times input channel `c`.
   */
  type FloatCtm = s: seq<real> | |s| == 9 witness [1.0, 0.0, 0.0, 0.0, 1.0, 0.0, 0.0, 0.0, 1.0]

  /** A linear red, green, blue triple. */
  type Rgb = v: seq<real> | |v| == 3 witness [0.0, 0.0, 0.0]

  /** Why a matrix could not be built from a list of command-line values. */
  datatype CtmError =
    | GainIndexOutOfBounds(len: nat)  // `rgb[2]` on a gain list shorter than three panics
    | ShapeError(len: nat)            // a `--ctm` list whose length is not nine cannot become `[f64; 9]`

  /** The coefficient in row `row` and column `col`. */
  function Entry(m: FloatCtm, row: nat, col: nat): real
    requires row < 3 && col < 3
  {
    m[3 * row + col]
  }

  function RowSum(m: FloatCtm, row: nat): real
    requires row < 3
  {
    Entry(m, row, 0) + Entry(m, row, 1) + Entry(m, row, 2)
  }

  function ColumnSum(m: FloatCtm, col: nat): real
    requires col < 3
  {
    Entry(m, 0, col) + Entry(m, 1, col) + Entry(m, 2, col)
  }

  /** What the display does with the matrix: output = m × input. */
  function Apply(m: FloatCtm, v: Rgb): Rgb
  {
    [ Entry(m, 0, 0) * v[0] + Entry(m, 0, 1) * v[1] + Entry(m, 0, 2) * v[2],
      Entry(m, 1, 0) * v[0] + Entry(m, 1, 1) * v[1] + Entry(m, 1, 2) * v[2],
      Entry(m, 2, 0) * v[0] + Entry(m, 2, 1) * v[1] + Entry(m, 2, 2) * v[2] ]
  }

  function Mean(v: Rgb): real
  {
    (v[0] + v[1] + v[2]) / 3.0
  }

  /** `FloatCtm::default()`: the identity matrix. */
  function Default(): (m: FloatCtm)
    ensures forall r, c :: 0 <= r < 3 && 0 <= c < 3 ==> Entry(m, r, c) == if r == c then 1.0 else 0.0
  {
    [1.0, 0.0, 0.0, 0.0, 1.0, 0.0, 0.0, 0.0, 1.0]
  }

  /** The default matrix leaves every colour unchanged. */
  lemma DefaultIsNeutral(v: Rgb)
    ensures Apply(Default(), v) == v
  {
  }

  /**
   * `FloatCtm::from_saturation(sat)`. The contract pins the matrix down:
   * one value on the diagonal, another everywhere else, their difference is
   * `sat`, and every row and column sums to one.
   */
  function FromSaturation(sat: real): (m: FloatCtm)
    ensures forall r :: 0 <= r < 3 ==> Entry(m, r, r) == Entry(m, 0, 0)
    ensures forall r, c :: 0 <= r < 3 && 0 <= c < 3 && r != c ==> Entry(m, r, c) == Entry(m, 0, 1)
    ensures Entry(m, 0, 0) - Entry(m, 0, 1) == sat
    ensures forall r :: 0 <= r < 3 ==> RowSum(m, r) == 1.0
    ensures forall c :: 0 <= c < 3 ==> ColumnSum(m, c) == 1.0
  {
    var coeff := (1.0 - sat) / 3.0;
    [ coeff + sat, coeff, coeff,
      coeff, coeff + sat, coeff,
      coeff, coeff, coeff + sat ]
  }

  /** Full saturation is the identity. */
  lemma SaturationOneIsDefault()
    ensures FromSaturation(1.0) == Default()
  {
  }

  /** Zero saturation averages the three channels: every coefficient is one third. */
  lemma SaturationZeroIsUniform()
    ensures forall i :: 0 <= i < 9 ==> FromSaturation(0.0)[i] == 1.0 / 3.0
  {
  }

  /**
   * The saturation matrix blends each channel between its own value and the
   * mean of the three channels, with weight `sat` on the channel itself.
   */
  lemma SaturationBlendsWithMean(sat: real, v: Rgb)
    ensures forall r :: 0 <= r < 3 ==> Apply(FromSaturation(sat), v)[r] == sat * v[r] + (1.0 - sat) * Mean(v)
  {
  }

  /** A grey (all channels equal) is left unchanged at every saturation. */
  lemma SaturationKeepsGrey(sat: real, g: real)
    ensures Apply(FromSaturation(sat), [g, g, g]) == [g, g, g]
  {
    var v: Rgb := [g, g, g];
    SaturationBlendsWithMean(sat, v);
    assert Mean(v) == g;
    assert sat * g + (1.0 - sat) * g == g;
    var out := Apply(FromSaturation(sat), v);
    assert out[0] == g && out[1] == g && out[2] == g;
  }

  /**
   * The gain matrix built inline by `main` from the `--rgb-gain` list:
   * `rgb[0]`, `rgb[1]`, `rgb[2]` on the diagonal. A list shorter than three
   * makes the indexing panic; values after the third are ignored.
   */
  function FromGain(rgb: seq<real>): (res: Result<FloatCtm, CtmError>)
    ensures res.Ok? <==> |rgb| >= 3
    ensures res.Err? ==> res.error == GainIndexOutOfBounds(|rgb|)
    ensures res.Ok? ==> forall r, c :: 0 <= r < 3 && 0 <= c < 3 ==>
      Entry(res.value, r, c) == if r == c then rgb[r] else 0.0
  {
    if |rgb| < 3 then Err(GainIndexOutOfBounds(|rgb|))
    else Ok([rgb[0], 0.0, 0.0, 0.0, rgb[1], 0.0, 0.0, 0.0, rgb[2]])
  }

  /** The gain matrix scales each channel by its own gain. */
  lemma GainScalesChannels(rgb: seq<real>, v: Rgb)
    requires |rgb| >= 3
    ensures FromGain(rgb).Ok?
    ensures Apply(FromGain(rgb).value, v) == [rgb[0] * v[0], rgb[1] * v[1], rgb[2] * v[2]]
  {
    var out := Apply(FromGain(rgb).value, v);
    assert out[0] == rgb[0] * v[0] && out[1] == rgb[1] * v[1] && out[2] == rgb[2] * v[2];
  }

  /** Unit gains give the default matrix. */
  lemma UnitGainIsDefault()
    ensures FromGain([1.0, 1.0, 1.0]) == Ok(Default())
  {
  }

  /**
   * The matrix built inline by `main` from the `--ctm` list with
   * `try_into().unwrap()`: exactly nine values, taken in row-major order;
   * any other length is an error and no matrix is produced.
   */
  function FromExplicit(values: seq<real>): (res: Result<FloatCtm, CtmError>)
    ensures res.Ok? <==> |values| == 9
    ensures res.Err? ==> res.error == ShapeError(|values|)
    ensures res.Ok? ==> forall r, c :: 0 <= r < 3 && 0 <= c < 3 ==> Entry(res.value, r, c) == values[3 * r + c]
  {
    if |values| == 9 then Ok(values) else Err(ShapeError(|values|))
  }
}
