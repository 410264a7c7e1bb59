# Fixed-point money and the quote-feed reader of `finance`, in Dafny

This project models the sequential core of the Go package `finance`/`money`:

- **The `Money` type** (`money.go`). It is an int64 `M` holding an amount scaled by the package-wide decimal scale `DP`.
  - Its integer operations are modelled exactly, with Go's int64 wrap-around, Go's truncating `/` and `%`, and the sign-bit overflow tests of `Add` and `Sub` (the bitwise form of these tests on 64-bit words is shown equal to the sign form in `GoBits`):
    - `Set`, `Value`, `Sign`, `Neg`, `Abs`;
    - `Add`, `Sub`;
    - `Gett`, `Mul`;
    - `String`.
  - The float operations are modelled over exact reals, with `float64` `*` and `/` idealised:
    - `Setf`, `Mulf`, `Div`, `Get`.
- **The rounding primitive `Rnd`** (`fintech.go`).
- **The precision configuration** (`finance.go`). `DecimalChange` validates the number of decimal places and computes 10^d with a loop. The globals `DP` and `DPf` become fields of a `Config` object, which the operations that read the scale (`Gett`, `Get`, `Mul`, `Setf`, `Mulf`, `Div`, `String`) take explicitly. `MAXDEC` and the panic messages are Go constants. `Guard`, `Guardf`, `Round` and `Roundn` are package variables that no code reassigns. All of them are Dafny constants.
- **The quote-feed reader** (`quote.go`).
  - `parseQuote` scans a byte feed for double-quoted strings, takes them alternately as key and value, and hands every completed pair to `quoteFields`.
  - `quoteFields` looks the key up in the table `qPos` and stores the value in the string field the key names.

A Go `panic` becomes a result value: `Result<T> = Ok(value) | Panic(msg)`, or `Outcome = Completed | Panicked(msg)`. The result carries the exact message: `OVFL`, `DLZ`, `DTL`, `BADQUOTE`, the unknown-key and conversion messages of `quoteFields`, and Go's run-time message for an integer division by zero.

Every method that changes a receiver in place is a method of a class (`Money`, `Config`, `Quote`), and its `ensures` state the whole new state. Each is proved against a specification function:
- `Negated` and `Absolute` for `Neg` and `Abs`;
- `MoneyText` for `String`;
- `ScaleFor` and `Pow10` for `DecimalChange`;
- `Update`, `Tokens` and `ApplyAll` for `quoteFields` and `parseQuote`.

Lemmas then relate these functions to each other and to independent reference definitions.

Modules:
- `GoInt`: int64, wrap-around, truncating quotient and remainder, sign bits, float idealisation.
- `GoBits`: the overflow tests of `Add` and `Sub` on two's-complement words.
- `GoFormat`: `%d` and `%02d`.
- `Finance`: the configuration and constants.
- `Fintech`: `Rnd`.
- `Money`: the money type.
- `Quote`: the quote reader.

Where the code's own comments or the package's stated intent and the code differ, the model follows the code:
- **Exact halves round toward plus infinity.** `Rnd` increments from a remainder of 0.5 but does not decrement at -0.5. So `Setf(0.125)` stores 13 cents and `Setf(-0.125)` stores -12 (`Money.SetfHalves`). The opening comment of money.go speaks of a `.5 + 1/Guardf` threshold, but that variant is commented out in finance.go.
- **`DecimalChange(0)` sets `DP` to 0, not 1.** Every later integer division by `DP` then panics (`Money.ZeroDecimals`).
- **`String` pads the fraction with `%02d`.**
  - `%02d` pads the remainder to at least two digits but otherwise prints it with its own number of digits. The text is therefore exact only at two decimal places (`DP = 100`, the default), which is the scale the signed reference text `SignedMoneyText` is meant for. At three places `M = 1050` (1.050) prints `1.50`, while `M = 1500` prints `1.500` (`Money.MoneyTextAtThousandths`).
  - The whole part is printed with `%d`, so an amount strictly between `-DP` and 0 loses its sign: `M = -5` prints `0.05` (`Money.MoneyTextLosesSign`).
  - Evaluating the second argument calls `Abs`, so after `String` the receiver holds `Absolute(M)` (`Money.PrintTwice`), also when a zero `DP` makes the division panic. That is `|M|` for every `M` except `MinInt64`, which stays `MinInt64`.

## Model

| member | source | states |
|---|---|---|
| GoInt.Wrap | money.go:117 | the int64 that two's-complement arithmetic leaves for a mathematical result: congruent to it modulo 2^64 for every input; the value itself in range, shifted by exactly 2^64 just outside it |
| GoInt.Quot | money.go:107 | Go's `/` by a positive divisor: the remainder lies strictly between -d and d with the sign of the dividend, and the quotient lies between 0 and the dividend |
| GoInt.Rem | money.go:163 | Go's `%` by a positive divisor: dividend = d * quotient + remainder, the remainder taking the sign of the dividend |
| GoInt.QuotUnique | money.go:107 | the truncated quotient is the only integer with the truncated-quotient property |
| GoInt.QuotQuot | money.go:123 | `i / Guard / DP` is `i` divided by `Guard*DP` with one truncation |
| GoInt.Trunc | money.go:101 | Go's `int64(f)` of an in-range float: drops the fraction toward zero, so f - Trunc(f) lies in [0, 1) for f >= 0 and in (-1, 0] for f < 0 |
| GoInt.TruncOfQuotient | money.go:123-124 | truncating the exact real quotient is Go's integer `/` |
| GoInt.AddSignTest | money.go:91 | Go's overflow test on the wrapped sum: r's sign differs from both m's and n's; so it fires only when m and n have the same sign |
| GoInt.SubSignTest | money.go:169 | Go's overflow test on the wrapped difference: r's sign differs from m's and agrees with n's; so it fires only when m and n have opposite signs |
| GoInt.AddSignTestExact | money.go:91 | the test `(r^m)&(r^n) < 0` on the wrapped sum fires exactly when `m + n` leaves the int64 range |
| GoInt.SubSignTestExact | money.go:169 | the test `(r^m)&^(r^n) < 0` on the wrapped difference fires exactly when `m - n` leaves the int64 range |
| GoBits.TopOfSigned | money.go:91 | a word's top bit is set exactly when the int64 it denotes is negative |
| GoBits.TopOfXorAnd | money.go:91 | the top bit of (a^b)&(a^c) is the conjunction of a's top bit differing from b's and from c's; for (a^b)&^(a^c), differing from b's and agreeing with c's |
| GoBits.AddWordTest | money.go:91 | Go's word test `(r^m)&(r^n) < 0` is AddSignTest on the values the words denote |
| GoBits.SubWordTest | money.go:169 | Go's word test `(r^m)&^(r^n) < 0` is SubSignTest on the values the words denote |
| GoFormat.Digits | money.go:163 | decimal digits without leading zeros; one digit exactly below 10 |
| GoFormat.DigitsRoundTrip | money.go:163 | reading back the digits of n gives n |
| GoFormat.FormatD | money.go:163 | `%d`: a leading '-' exactly for negatives, then the digits of the magnitude |
| GoFormat.Format02D | money.go:163 | `%02d`: at least two characters; for non-negatives, digits that read back as the number; exactly two below 100; unchanged `%d` from 10 up and for negatives |
| Finance.Pow10 | finance.go:65-69 | the value of `newDecimal` after d steps of the loop: 10^d, at least 1 |
| Finance.Pow10Digits | finance.go:65-69 | 10^n is written as a 1 followed by n zeros, so the scale for d places has d zeros |
| Finance.Pow10Fits | finance.go:67-69 | 10^n for n up to MAXDEC = 18 is below 2^63 - 1, so the loop never overflows |
| Finance.Pow10Add | finance.go:67-69 | 10^(a+b) = 10^a * 10^b |
| Finance.ScaleFor | finance.go:64-72 | the scale for d places: 0 for d = 0, 10^d otherwise, always an int64 |
| Finance.Config.constructor | finance.go:21-22 | the default scale: DP = 100 and DPf = 100.0 |
| Finance.Config.DecimalChange | finance.go:57-74 | d < 0 panics DLZ and d > 18 panics DTL, both leaving DP and DPf unchanged; otherwise DP = 10^d for d >= 1 (loop invariant newDecimal = 10^i), DP = 0 for d = 0, and DPf = DP |
| Fintech.Rnd | fintech.go:373-387 | r+1 from a remainder of 0.5 up, r for remainders in [-0.5, 0.5), r-1 below -0.5 (increments wrap as int64); within one of r |
| Fintech.RndMonotone | fintech.go:373-387 | for a fixed r, a larger remainder never rounds to a smaller result |
| Fintech.RndFloor | fintech.go:370-387 | truncating y toward zero and rounding by the remainder gives floor(y + 1/2): halves go toward plus infinity |
| Money.MoneyText | money.go:163 | the text `%d.%02d` of Value()/DP and Abs().Value()%DP: at least four characters; a leading '-' exactly when M <= -DP; no other '-' unless M is MinInt64 |
| Money.DivQuotient | money.go:100 | the float quotient `Guardf * DPf * m / n / Guardf` of Div, idealised: multiplied by n it gives DPf * m |
| Money.Negated | money.go:128-133 | 0 stays 0, MinInt64 wraps to itself, every other value becomes its negation |
| Money.NegatedInvolutive | money.go:128-133 | negating twice is the identity for every int64 |
| Money.Absolute | money.go:81-86 | non-negatives unchanged, negatives negated; the result is non-negative exactly when the input is not MinInt64 |
| Money.AbsoluteIdempotent | money.go:81-86 | Abs applied twice is Abs |
| Money.Money.constructor | money.go:63-65 | the zero value holds M = 0 |
| Money.Money.Value | money.go:177-179 | returns M |
| Money.Money.Set | money.go:141-144 | stores x, returns the receiver, and Value() then returns x |
| Money.Money.Sign | money.go:154-159 | -1 exactly when M < 0, and 1 exactly when M >= 0, zero included |
| Money.Money.Neg | money.go:128-133 | the receiver becomes Negated(M) and is returned |
| Money.Money.Abs | money.go:81-86 | the receiver becomes Absolute(M): non-negative for every M except MinInt64 |
| Money.Money.Add | money.go:89-96 | an in-range sum is stored; an out-of-range sum panics OVFL and leaves M unchanged; an argument other than the receiver is not modified |
| Money.Money.Sub | money.go:167-174 | an in-range difference is stored; an out-of-range difference panics OVFL and leaves M unchanged; an argument other than the receiver is not modified |
| Money.Money.Gett | money.go:106-108 | a zero DP panics with Go's integer division message, and every non-zero DP gives the value: M divided by DP, truncated toward zero |
| Money.Money.Get | money.go:111-113 | the real r with r * DP = M |
| Money.Money.Mul | money.go:116-118 | stores the wrapped product M * n.M divided by DP with truncation, no rounding and no overflow check; a zero DP panics with M unchanged; an argument other than the receiver is not modified |
| Money.Money.Setf | money.go:147-151 | stores floor(f * DP + 1/2), wrapped as int64 |
| Money.Money.Mulf | money.go:121-125 | with i the wrapped product M * k, stores floor(i / (Guard*DP) + 1/2); a zero DP panics with M unchanged |
| Money.Money.Div | money.go:99-103 | stores floor(DP * M / n.M + 1/2), the guard factor cancelling |
| Money.Money.String | money.go:162-164 | the text MoneyText(M, DP), and the receiver left holding Absolute(M), also when a zero DP panics |
| Money.DivReal | money.go:100 | Guardf * DPf * m / n / Guardf equals DPf * m / n |
| Money.MulfRounds | money.go:123-124 | Mulf's truncate-then-round is floor(i / (Guard*DP) + 1/2), and the truncated value is well inside the int64 range |
| Money.SetfGetRoundTrip | money.go:147-151 | reading an amount with Get and storing it back with Setf restores M |
| Money.QuotScaled | money.go:117 | w * DP divided by DP is w |
| Money.MulByUnit | money.go:116-118 | multiplying by the money value one (raw DP) gives the amount back when the raw product fits |
| Money.AddThenSub | money.go:89-96 | an Add that does not overflow followed by a Sub of the same amount restores the receiver and leaves the argument unchanged |
| Money.MoneyTextAgrees | money.go:162-164 | String's text equals the signed reference text for every amount except MinInt64 and those strictly between -DP and 0 |
| Money.MoneyTextLosesSign | money.go:162-164 | for -DP < M < 0 the text is that of -M: the sign is lost |
| Money.MoneyTextLosesSignAtCents | money.go:162-164 | M = -5 and M = 5 both print "0.05" at two decimal places |
| Money.SignedMoneyTextInjective | money.go:161-163 | the signed reference text determines the amount: distinct amounts print differently |
| Money.MoneyTextAtThousandths | money.go:162-164 | at DP = 1000, M = 1050 prints "1.50" and M = 1500 prints "1.500": `%02d` drops leading zeros of a three-digit fraction |
| Money.PrintTwice | money.go:162-164 | printing -1.05 gives "-1.05", and printing the same receiver again gives "1.05" |
| Money.SetfHalves | money.go:147-151 | 0.125 is stored as 13 cents and -0.125 as -12: halves toward plus infinity |
| Money.ZeroDecimals | finance.go:64-72 | after DecimalChange(0), Gett panics with an integer division by zero |
| Quote.QPosTable | quote.go:33-52 | the key table qPos: exactly the nineteen feed keys, each at its own position from 0 to 18 (no two share one), and the string fields are those of id, t, e, s, ccol and eccol |
| Quote.Text | quote.go:78 | string(b): one character per byte, same length |
| Quote.PutField | quote.go:82-87 | the named string field holds the new value and every other string field is unchanged |
| Quote.PutFieldLaws | quote.go:82-87 | writing a field twice keeps the second value; writing back its own value changes nothing |
| Quote.UpdateEmptyValue | quote.go:75-77 | a nil value is ignored, whatever the key |
| Quote.UpdateUnknownKey | quote.go:189 | a key outside qPos panics with the key in the message and changes nothing |
| Quote.UpdateStringField | quote.go:79-87 | a key naming a string field (id, t, e, s, ccol, eccol) stores the value verbatim in that field only and completes |
| Quote.UpdateOtherField | quote.go:88-99 | a key naming a numeric or time field leaves every string field as it was |
| Quote.UpdateIdempotent | quote.go:74-190 | storing the same completed pair twice is storing it once |
| Quote.Update | quote.go:74-190 | quoteFields on one pair: a panic changes no field and needs a non-empty value; the fields change only for a key naming a string field, and then to PutField of that field with the value |
| Quote.ConvMessage | quote.go:88-184 | the panic text of a failed conversion: starts with UNABLE, the key and a space, and ends with the value; for the keys below div (code 17) nothing else lies between them |
| Quote.ApplyAll | quote.go:192-228 | the pairs handed to quoteFields one after the other: a panic needs at least one pair, and a string field that no pair's key names keeps its value |
| Quote.ApplyAllAppend | quote.go:192-228 | storing xs then ys is storing xs and then, unless that panicked, ys |
| Quote.ScanFrom | quote.go:192-228 | the scan parseQuote performs on the rest of a feed with a pending key: outside quotes bytes are skipped; a quoted string is read up to the next '"' with no escapes, as the key when none is pending (an empty one leaves none) and otherwise as the value completing a pair; a quote left open ends the scan as unterminated. Its contract is stated by ScanShape |
| Quote.ScanShape | quote.go:197-222 | no pair of a scan has an empty key, an unterminated scan needs a '"' in what is left of the feed, and each pair takes at least two of its bytes |
| Quote.Tokens | quote.go:192-228 | the scan of a whole feed: no empty key, unterminated only if the feed holds a '"', at most half as many pairs as bytes |
| Quote.Until | quote.go:202-207 | the length of the longest quote-free prefix: the index of the first '"' or the end |
| Quote.ScanFromQuoteFree | quote.go:202-204 | no key or value read contains a '"': there is no escape processing |
| Quote.TokensQuoteFree | quote.go:202-204 | every pair of a whole feed is free of quotes |
| Quote.SkipUnquoted | quote.go:195-196 | bytes outside quoted strings are skipped |
| Quote.ReadQuoted | quote.go:198-208 | a quoted string is read as exactly the bytes between its quotes |
| Quote.ScanKey | quote.go:197-208 | a quoted string read with no key pending becomes the pending key |
| Quote.ScanValue | quote.go:209-222 | a quoted string read with a key pending completes the pair, and both buffers are reset |
| Quote.ScanEntry | quote.go:197-222 | an entry "k":"v", yields exactly the pair (k, v) |
| Quote.RenderRoundTrip | quote.go:192-228 | reading back a feed of rendered pairs gives those pairs, in order |
| Quote.TokensRender | quote.go:192-228 | the scan of a rendered feed is its pairs, complete |
| Quote.UnterminatedKey | quote.go:197-208 | an opening quote for a key with no closing quote ends the scan as unterminated (BADQUOTE) after the earlier pairs |
| Quote.UnterminatedValue | quote.go:209-220 | an opening quote for a value with no closing quote ends the scan as unterminated (BADQUOTE), dropping the pending key |
| Quote.TrailingKeyDropped | quote.go:192-228 | a key with no value at the end of the feed is dropped without a panic |
| Quote.EmptyKeySkipped | quote.go:197-208 | an empty quoted string in key position is no key: the next quoted string is the key |
| Quote.EmptyValueConsumesKey | quote.go:209-222 | an empty quoted string in value position consumes the pending key and changes no field |
| Quote.Quote.constructor | quote.go:10-31 | the zero quote has every string field empty |
| Quote.Quote.QuoteFields | quote.go:74-190 | the fields and result are those of Update: nil value ignored, unknown key panics, string fields set verbatim, failed conversions panic with the source's message |
| Quote.Quote.ParseQuote | quote.go:192-228 | the fields are those left by storing the feed's pairs in order; the result is the first quoteFields panic, else BADQUOTE for an unterminated quote, else the receiver |
| Quote.Quote.StoreValue | quote.go:209-222 | reads the value, stores the pair with quoteFields, and either continues the scan after it or ends the parse with the panic |
| Quote.ReadToken | quote.go:198-220 | from an opening quote, the token is the bytes up to the closing quote, or an unclosed quote is reported where the source panics BADQUOTE |

## Left out

- `UnmarshalYAML` (money.go:67-78) is a callback into a YAML decoder and is not modelled.
- `Pow` (money.go:136-138) rests on `math.Pow` and is not modelled.
- Float64 rounding, infinities and NaN are not modelled. `float64` `*` and `/` are exact real arithmetic (`GoInt.FMul`, `GoInt.FDiv`), and `int64(f)` is truncation toward zero, defined only where the result fits.
- Money.Money.Setf: requires that f * DPf truncates to an int64, because Go's conversion of an out-of-range float is implementation-defined.
- Money.Money.Div: requires n.M != 0 and an in-range truncated quotient. Division by zero is not trapped in the source (the `DBZ` message is never used), and the resulting float infinity is not modelled.
- Money.Money.Get: requires DP != 0, because the float division by a zero DPf yields an infinity or NaN, which is not modelled.
- Money.Money.Mulf: takes k = int64(f * Guardf * DPf) as its integer input. The float product and its conversion are not modelled.
- Money.Money.String: the Go language leaves open whether `m.Value()/DP` is divided before or after `m.Abs()` runs. The model takes the gc compiler's order (calls first, then the arithmetic), so with DP = 0 the receiver already holds Absolute(M) when the division panics.
- Finance.Pow10Fits: `newDecimal` is Go's `int` (finance.go:64), which the model takes as 64 bits. The no-overflow claim holds only where `int` is 64 bits; with a 32-bit `int`, 10^d overflows from d = 10 on.
- Finance.Config.DecimalChange: models `newDecimal` as a 64-bit `int`, as for `Pow10Fits`; the 32-bit wrap-around is not modelled.
- Fintech.RndMonotone: holds only for r strictly inside the int64 range. At MaxInt64 and MinInt64 the source's `r++` and `r--` wrap, and monotonicity fails there.
- Quote.Quote.QuoteFields: for the numeric and time fields (quote.go:88-99, 102-133, 136-170, 173-184), only whether the conversion fails is modelled. It is a parameter `convErr` standing for `strconv.ParseFloat` and `time.Parse`. The new values of those fields (set through `Setf` and `now()`) are not modelled, so the `Quote` class holds only the six string fields that `qPos` names. `Other` (quote.go:30), the seventh string field, is left out: no code of the core writes it.
- `getQuotePage` (quote.go:230-240), `now` (quote.go:64-72) and `GetQuote` (quote.go:58-60) use HTTP and the wall clock, and are not modelled.
- The iteration over `qPos` in `quoteFields` (quote.go:79) is a map lookup, because the keys are unique and the order cannot matter.
- The process-wide globals `DP` and `DPf` are fields of a `Config` object passed to each operation. Concurrent access to them is not modelled.
- Go's truncating `/` and `%` are modelled only for positive divisors. These are the only divisors the core uses: `Guard`, and `DP` once it is non-zero.
- The financial formulas of fintech.go (fintech.go:78-368, 394-415) are floating-point numerics over `math` and are not modelled.
