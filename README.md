# x-color-tool: the `--set CTM` pipeline

This project models the numeric core of x-color-tool, a small Rust tool that
adjusts a display's colour by calling `xrandr --set CTM <value>`. The value
comes out of a three-stage pipeline:

1. **Matrix** (`FloatCtm`, module `Matrix`). Nine coefficients of a 3×3
   matrix in row-major order. It is built in one of four ways: the default
   identity, `from_saturation(sat)`, a diagonal gain matrix from the
   `--rgb-gain` list, or a caller-given `--ctm` list of exactly nine values.
   The `f64` coefficients are exact `real`s here.
2. **Fixed point** (`to_linux_ctm`, module `FixedPoint`). Each coefficient
   becomes a 64-bit DRM word in sign-magnitude form. Bit 63 is the sign and
   bits 0-62 hold |x|·2^32, truncated toward zero. Words are naturals below
   2^64. For finite values, Rust's `as u64` cast is modelled exactly:
   truncation, 0 for negatives, and saturation at 2^64 - 1. `| (1 << 63)` sets bit 63 and
   keeps the rest.
3. **Argument text** (`to_xrandr_cli`, module `Xrandr`, with the text
   helpers in `Text`). The source reads the nine `u64` words back through
   the `[u32; 18]` member of a union. The model states that split
   explicitly: word `i` gives token `2i` (its low 32 bits) and token `2i+1`
   (its high 32 bits), which is what a little-endian host produces. The 18
   numbers are printed in decimal and joined with commas.

`Pipeline` ties the stages together for the four options of `main` that
produce a `--set CTM` value. `CtmSource` picks the option and `CtmArgument`
builds the whole value.

Each stage has a partner that its results are checked against:
- the matrix builders: the action of the matrix on an RGB triple (`Apply`);
- the encoder: the value a driver reads back from a word (`DecodeWord`);
- the union: `Pairs`, which joins halves back into words;
- `u32::to_string`: a decimal reader;
- `join`: a split at the separator;
- the whole argument: a parser (`ParseXrandrCli`) that reads the 18 tokens
  back into nine words.

Two facts about the code that a reader might not expect:
- A diagonal word 2^32 is not a `u32` token. The code prints it as the
  pair `0,1` (`ResetArgument`).
- The `--rgb-gain` list is indexed, not length-checked. Fewer than three
  values panics, and values after the third are ignored (`Matrix.FromGain`).

## Model

| member | source | states |
|---|---|---|
| `Matrix.Default` | src/main.rs:18-22 | the default matrix is the identity: entry (r, c) is 1 when r = c and 0 otherwise |
| `Matrix.DefaultIsNeutral` | src/main.rs:18-22 | applying the default matrix to any RGB triple returns it unchanged |
| `Matrix.FromSaturation` | src/main.rs:37-50 | one value on the whole diagonal and another everywhere else; they differ by exactly `sat`; every row and every column sums to 1 |
| `Matrix.SaturationOneIsDefault` | src/main.rs:37-50 | `from_saturation(1)` is the default identity |
| `Matrix.SaturationZeroIsUniform` | src/main.rs:37-50 | `from_saturation(0)` has every one of its nine entries equal to 1/3 |
| `Matrix.SaturationBlendsWithMean` | src/main.rs:37-50 | output channel r is `sat·v[r] + (1 - sat)·mean(v)`, a blend of the channel with the average of the three |
| `Matrix.SaturationKeepsGrey` | src/main.rs:37-50 | a grey triple (g, g, g) is left unchanged at every saturation |
| `Matrix.FromGain` | src/main.rs:155-157 | succeeds exactly when the list has at least three values; then `rgb[0..2]` are on the diagonal and every other entry is 0; otherwise it is the index error and no matrix is built |
| `Matrix.GainScalesChannels` | src/main.rs:155-157 | the gain matrix multiplies each channel by its own gain |
| `Matrix.UnitGainIsDefault` | src/main.rs:157 | gains 1, 1, 1 give the default identity |
| `Matrix.FromExplicit` | src/main.rs:163-165 | succeeds exactly when the list has nine values, taken in row-major order (entry (r, c) is value 3r + c); any other length is a shape error carrying that length, and no matrix is built |
| `FixedPoint.WithSignBit` | src/main.rs:29 | `m \| 1<<63` has bit 63 set and the same bits 0-62 as `m`; it leaves a word that already has bit 63 set unchanged |
| `FixedPoint.CastU64` | src/main.rs:29-31 | Rust's `as u64` on a finite value: in range the result n satisfies n ≤ y < n + 1; negatives give 0; 2^64 and above give 2^64 - 1 |
| `FixedPoint.EncodeCoeff` | src/main.rs:27-33 | a negative coefficient always gets bit 63; in range, bit 63 is set exactly when x < 0, and the magnitude bits m satisfy m ≤ \|x\|·2^32 < m + 1 |
| `FixedPoint.EncodeNegative` | src/main.rs:28-29 | the word of a negative x is the word of -x with bit 63 set, so both have the same magnitude bits; in range those bits are the whole word of -x |
| `FixedPoint.EncodeTruncates` | src/main.rs:30-31 | truncation, not rounding: 0.9999999998 encodes to 4294967295, below the word 2^32 of 1.0 |
| `FixedPoint.EncodeSamples` | src/main.rs:27-33 | 0, 1, 2, 0.5, -1 and 1/3 encode to 0, 2^32, 2^33, 2^31, 2^63 + 2^32 and 1431655765 |
| `FixedPoint.EncodeOutOfRange` | src/main.rs:30-31 | nothing clamps: a positive x with x·2^32 ≥ 2^63 gets bit 63 set (the driver reads it as negative), and from 2^64 the word saturates to 2^64 - 1 |
| `FixedPoint.DecodeEncode` | src/main.rs:27-33 | for x in range, the value read back from its word is x truncated toward zero by less than 2^-32, with the same sign unless it is 0, and equals x when x·2^32 is whole |
| `FixedPoint.EncodeDecode` | src/main.rs:27-33 | every word except the negative zero 2^63 is the encoding of the value read back from it |
| `FixedPoint.ToLinuxCtm` | src/main.rs:25-35 | exactly nine words, in order; word i is the encoding of coefficient i and depends on nothing else |
| `FixedPoint.DecodeLinuxCtm` | src/main.rs:25-35 | a matrix of in-range coefficients that are whole multiples of 2^-32 is read back from its nine words exactly |
| `FixedPoint.LinuxCtmOfDecode` | src/main.rs:25-35 | nine words with no negative zero are the encoding of the matrix read back from them |
| `Xrandr.Low` | src/main.rs:4-11 | the low half read through the union: a word below 2^32 is its own low half |
| `Xrandr.High` | src/main.rs:4-11 | the high half read through the union: the low half plus 2^32 times the high half is the word |
| `Xrandr.Halves` | src/main.rs:4-11 | the union read of a list of words has two 32-bit words per 64-bit word; `HalvesAt` places them and `HalvesOfPairs`/`PairsOfHalves` make `Pairs` its inverse |
| `Xrandr.HalvesOfWord` | src/main.rs:4-7 | a low half and a high half below 2^32 are recovered from the word `lo + 2^32·hi` |
| `Xrandr.HalvesAt` | src/main.rs:4-7 | 32-bit word 2i is the low half of 64-bit word i and 32-bit word 2i + 1 is its high half |
| `Xrandr.XrandrWords` | src/main.rs:4-11 | the `[u32; 18]` view has 18 words, and `ts[2i] + 2^32·ts[2i+1]` is 64-bit word i |
| `Xrandr.LinuxOfXrandr` | src/main.rs:4-7 | reading the 18 halves back as nine words gives the original words |
| `Xrandr.XrandrOfLinux` | src/main.rs:4-7 | reading nine words back as 18 halves gives the original halves |
| `Xrandr.Tokens` | src/main.rs:12 | `map(\|n\| n.to_string())` gives 18 tokens, each a canonical decimal string; `ToXrandrCli` ties token k to 32-bit word k |
| `Xrandr.ToXrandrCli` | src/main.rs:10-13 | the value splits at its commas into exactly 18 tokens; token k is the decimal text of 32-bit word k |
| `Xrandr.XrandrCliRoundTrip` | src/main.rs:10-13 | parsing the value returns the original nine words |
| `Xrandr.ParseIsExact` | src/main.rs:10-13 | the only text that parses to nine given words is their serialisation, so serialising and parsing are inverse |
| `Text.ToDecimal` | src/main.rs:12 | `to_string` of an unsigned number is non-empty, all digits, without a leading zero, and starts with `0` only for 0 |
| `Text.DecimalRoundTrip` | src/main.rs:12 | reading the printed digits gives the number back |
| `Text.CanonicalRoundTrip` | src/main.rs:12 | printing the number a canonical digit string denotes gives the string back |
| `Text.Join` | src/main.rs:12 | `join(",")`: no items give the empty text and one item gives itself; `SplitJoin` and `JoinSplit` state that it is the inverse of `Split` |
| `Text.Split` | src/main.rs:12 | not in the source: the partner that states what `Join` means. Splitting gives at least one piece, and no piece contains the separator |
| `Text.SplitJoin` | src/main.rs:12 | pieces free of the separator are recovered by splitting their join |
| `Text.JoinSplit` | src/main.rs:12 | joining the pieces of a split gives the text back |
| `Pipeline.MatrixFor` | src/main.rs:147-176 | the matrix each option builds; it fails exactly for a gain list shorter than three (indexing panic) or a `--ctm` list whose length is not nine (`unwrap` panic) |
| `Pipeline.CtmArgument` | src/main.rs:147-176 | a value is produced exactly when the option's matrix is built, with the same error otherwise, and it parses back to the encoding of that matrix |
| `Pipeline.DiagonalArgument` | src/main.rs:155-168 | for a diagonal matrix, the six tokens of each off-diagonal run are all `0` and the diagonal words give tokens 0-1, 8-9 and 16-17 |
| `Pipeline.ResetArgument` | src/main.rs:173-176 | `--reset` gives the comma-join of `0,1,0,0,0,0,0,0,0,1,0,0,0,0,0,0,0,1` |
| `Pipeline.NegativeOneArgument` | src/main.rs:163-168 | `--ctm=-1,0,0,0,1,0,0,0,1` gives the token pair `0,2147483649` for -1, then the identity's tokens |
| `Pipeline.GainArgument` | src/main.rs:155-160 | `--rgb-gain 2,1,0.5` gives `0,2` for the gain 2, `0,1` for 1 and `2147483648,0` for 0.5, with `0` everywhere else |
| `Pipeline.GreyArgument` | src/main.rs:147-152 | `--saturation 0` gives the pair `1431655765,0` nine times |
| `Pipeline.ShortExplicitFails` | src/main.rs:163-165 | a `--ctm` list of five values gives a shape error and no value |

## Left out

- Command-line parsing with `clap` and the `Args` struct (src/main.rs:53-107). The model takes the parsed values as parameters, and `CtmSource` says which option supplied them.
- Building and running the `xrandr` command: `Command::new`, `cmd.status()`, `dbg!` and the hard-coded output `eDP`, which ignores `--display`. These are process I/O.
- `main` appends one `--set CTM` value for each option given, so it can pass several in one run. The model builds each value on its own and does not model the order of the command's arguments.
- The brightness and gamma range checks and the gamma strings (src/main.rs:117-143). They only add process arguments and print `f64` values with `to_string`.
- IEEE-754 effects: the rounding of `(1.0 - sat) / 3.0`, NaN, infinities and the sign of `-0.0`. Coefficients are exact reals, so these effects are not modelled.
- Byte order: the union read depends on the host. The model fixes the little-endian result, low half first, and it does not say what a big-endian host would print.
- Parsing is not in the source. `ParseXrandrCli` and `Split` exist only to state that the output of `to_xrandr_cli` determines its nine words.
