/**
 * The four places where `main` passes a matrix through `to_linux_ctm` and
 * `to_xrandr_cli` to build the value of `xrandr --set CTM`: `--saturation`,
 * `--rgb-gain`, `--ctm` and `--reset`.
 */
module Pipeline {
  import opened Wrappers
  import opened Matrix
  import opened FixedPoint
  import opened Text
  import opened Xrandr

  /** Which command-line option the matrix comes from. */
  datatype CtmSource =
    | Saturation(sat: real)
    | Gain(rgb: seq<real>)
    | Explicit(values: seq<real>)
    | Reset

  /**
   * The matrix built for a source, or the panic that building it causes:
   * only a short gain list or a `--ctm` list of the wrong length fails.
   */
  function MatrixFor(src: CtmSource): (res: Result<FloatCtm, CtmError>)
    ensures res.Err? <==> (src.Gain? && |src.rgb| < 3) || (src.Explicit? && |src.values| != 9)
  {
    match src
    case Saturation(sat) => Ok(FromSaturation(sat))
    case Gain(rgb) => FromGain(rgb)
    case Explicit(values) => FromExplicit(values)
    case Reset => Ok(Default())
  }

  /**
   * The argument given after `--set CTM`. It is produced exactly when a
   * matrix is, and it parses back to the encoding of that matrix.
   */
  function CtmArgument(src: CtmSource): (res: Result<string, CtmError>)
    ensures res.Ok? <==> MatrixFor(src).Ok?
    ensures res.Err? ==> res.error == MatrixFor(src).error
    ensures res.Ok? ==> ParseXrandrCli(res.value) == Some(ToLinuxCtm(MatrixFor(src).value))
  {
    match MatrixFor(src)
    case Ok(m) =>
      XrandrCliRoundTrip(ToLinuxCtm(m));
      Ok(ToXrandrCli(ToLinuxCtm(m)))
    case Err(e) => Err(e)
  }

  /** The eighteen tokens of nine given words, written out. */
  lemma TokensOf(d: DrmCtm)
    ensures Tokens(d) == [ ToDecimal(Low(d[0])), ToDecimal(High(d[0])), ToDecimal(Low(d[1])), ToDecimal(High(d[1])), ToDecimal(Low(d[2])), ToDecimal(High(d[2])),
                           ToDecimal(Low(d[3])), ToDecimal(High(d[3])), ToDecimal(Low(d[4])), ToDecimal(High(d[4])), ToDecimal(Low(d[5])), ToDecimal(High(d[5])),
                           ToDecimal(Low(d[6])), ToDecimal(High(d[6])), ToDecimal(Low(d[7])), ToDecimal(High(d[7])), ToDecimal(Low(d[8])), ToDecimal(High(d[8])) ]
  {
    HalvesAt(d, 0); HalvesAt(d, 1); HalvesAt(d, 2);
    HalvesAt(d, 3); HalvesAt(d, 4); HalvesAt(d, 5);
    HalvesAt(d, 6); HalvesAt(d, 7); HalvesAt(d, 8);
  }

  /** A diagonal matrix encodes to words that are zero off the diagonal. */
  lemma EncodeDiagonal(a: real, b: real, c: real)
    ensures ToLinuxCtm([a, 0.0, 0.0, 0.0, b, 0.0, 0.0, 0.0, c])
         == [EncodeCoeff(a), 0, 0, 0, EncodeCoeff(b), 0, 0, 0, EncodeCoeff(c)]
  {
  }

  /** Words that are zero off the diagonal print `0` for both halves of every off-diagonal word. */
  lemma DiagonalTokens(a: U64, b: U64, c: U64)
    ensures Tokens([a, 0, 0, 0, b, 0, 0, 0, c])
         == [ ToDecimal(Low(a)), ToDecimal(High(a)), "0", "0", "0", "0", "0", "0",
              ToDecimal(Low(b)), ToDecimal(High(b)), "0", "0", "0", "0", "0", "0",
              ToDecimal(Low(c)), ToDecimal(High(c)) ]
  {
    var d: DrmCtm := [a, 0, 0, 0, b, 0, 0, 0, c];
    TokensOf(d);
    assert Low(0) == 0 && High(0) == 0 && ToDecimal(0) == "0";
  }

  /** The argument for a source whose matrix is diagonal, written out token by token. */
  lemma DiagonalArgument(src: CtmSource, a: real, b: real, c: real)
    requires MatrixFor(src) == Ok([a, 0.0, 0.0, 0.0, b, 0.0, 0.0, 0.0, c])
    ensures CtmArgument(src)
         == Ok(Join([ ToDecimal(Low(EncodeCoeff(a))), ToDecimal(High(EncodeCoeff(a))), "0", "0", "0", "0", "0", "0",
                      ToDecimal(Low(EncodeCoeff(b))), ToDecimal(High(EncodeCoeff(b))), "0", "0", "0", "0", "0", "0",
                      ToDecimal(Low(EncodeCoeff(c))), ToDecimal(High(EncodeCoeff(c))) ], ','))
  {
    EncodeDiagonal(a, b, c);
    DiagonalTokens(EncodeCoeff(a), EncodeCoeff(b), EncodeCoeff(c));
  }

  /** `--reset`: the diagonal words are 2^32, each printed low half first as `0,1`. */
  lemma ResetArgument()
    ensures CtmArgument(Reset)
         == Ok(Join(["0", "1", "0", "0", "0", "0", "0", "0", "0", "1", "0", "0", "0", "0", "0", "0", "0", "1"], ','))
  {
    EncodeSamples();
    DiagonalArgument(Reset, 1.0, 1.0, 1.0);
    HalvesOfWord(0, 1);
    assert ToDecimal(0) == "0" && ToDecimal(1) == "1";
  }

  /** `--ctm=-1,0,0,0,1,0,0,0,1`: the word of -1 is 2^63 + 2^32, printed as `0,2147483649`. */
  lemma NegativeOneArgument()
    ensures CtmArgument(Explicit([-1.0, 0.0, 0.0, 0.0, 1.0, 0.0, 0.0, 0.0, 1.0]))
         == Ok(Join(["0", "2147483649", "0", "0", "0", "0", "0", "0", "0", "1", "0", "0", "0", "0", "0", "0", "0", "1"], ','))
  {
    NegativeOneTexts();
    DiagonalArgument(Explicit([-1.0, 0.0, 0.0, 0.0, 1.0, 0.0, 0.0, 0.0, 1.0]), -1.0, 1.0, 1.0);
  }

  /** The token texts of the words of -1 and 1. */
  lemma NegativeOneTexts()
    ensures ToDecimal(Low(EncodeCoeff(-1.0))) == "0" && ToDecimal(High(EncodeCoeff(-1.0))) == "2147483649"
    ensures ToDecimal(Low(EncodeCoeff(1.0))) == "0" && ToDecimal(High(EncodeCoeff(1.0))) == "1"
  {
    EncodeSamples();
    HalvesOfWord(0, 2147483649);
    HalvesOfWord(0, 1);
    assert ToDecimal(0) == "0" && ToDecimal(1) == "1";
    DecimalOf2147483649();
  }

  /** `--rgb-gain 2,1,0.5`: words 2^33, 2^32 and 2^31 on the diagonal. */
  lemma GainArgument()
    ensures CtmArgument(Gain([2.0, 1.0, 0.5]))
         == Ok(Join(["0", "2", "0", "0", "0", "0", "0", "0", "0", "1", "0", "0", "0", "0", "0", "0", "2147483648", "0"], ','))
  {
    EncodeSamples();
    DiagonalArgument(Gain([2.0, 1.0, 0.5]), 2.0, 1.0, 0.5);
    HalvesOfWord(0, 2);
    assert ToDecimal(2) == "2";
    HalvesOfWord(0, 1);
    assert ToDecimal(0) == "0" && ToDecimal(1) == "1";
    HalvesOfWord(2147483648, 0);
    DecimalOf2147483648();
  }

  /** `--saturation 0`: every coefficient is 1/3, encoded as 2^32 / 3 truncated, 1431655765. */
  lemma GreyArgument()
    ensures CtmArgument(Saturation(0.0))
         == Ok(Join(["1431655765", "0", "1431655765", "0", "1431655765", "0", "1431655765", "0", "1431655765", "0", "1431655765", "0", "1431655765", "0", "1431655765", "0", "1431655765", "0"], ','))
  {
    EncodeSamples();
    var d := ToLinuxCtm(MatrixFor(Saturation(0.0)).value);
    assert d == [1431655765, 1431655765, 1431655765, 1431655765, 1431655765, 1431655765, 1431655765, 1431655765, 1431655765];
    TokensOf(d);
    DecimalOf1431655765();
    assert Tokens(d) == ["1431655765", "0", "1431655765", "0", "1431655765", "0", "1431655765", "0", "1431655765", "0", "1431655765", "0", "1431655765", "0", "1431655765", "0", "1431655765", "0"];
  }

  /** `--ctm` with five values produces no argument at all. */
  lemma ShortExplicitFails()
    ensures CtmArgument(Explicit([1.0, 0.0, 0.0, 0.0, 1.0])) == Err(ShapeError(5))
  {
  }
}
