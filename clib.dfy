/**
 * Models of the parts of the C library that the sampler relies on:
 * `strtol` as glibc implements it for base 0, `index`, the decimal text
 * that `%llu` prints, what `printf` prints when it is handed a format
 * string and no further arguments, unsigned wrap-around, and the standard
 * output stream as an append-only text; and the outcome of one read of
 * the sensor library.
 */
module CLib {

  datatype Option<T> = None | Some(value: T)

  /** Whether `long` is 32 bits wide (a 32-bit Raspberry Pi OS) or 64. */
  datatype DataModel = ILP32 | LP64

  const INT_MIN: int := -0x8000_0000
  const INT_MAX: int := 0x7fff_ffff

  function LongMin(dm: DataModel): int {
    if dm == ILP32 then INT_MIN else -0x8000_0000_0000_0000
  }

  function LongMax(dm: DataModel): int {
    if dm == ILP32 then INT_MAX else 0x7fff_ffff_ffff_ffff
  }

  /** The Linux values of the two `errno` codes `strtol` can set. */
  const EINVAL: int := 22
  const ERANGE: int := 34

  const TWO_TO_32: int := 0x1_0000_0000
  const TWO_TO_64: int := 0x1_0000_0000_0000_0000

  /** Conversion to (and arithmetic in) `unsigned long long`. */
  function U64(x: int): (r: int)
    ensures 0 <= r < TWO_TO_64
    ensures 0 <= x < TWO_TO_64 ==> r == x
  {
    x % TWO_TO_64
  }

  /** Division is determined by quotient and remainder. */
  lemma DivUnique(n: int, d: int, q: int, r: int)
    requires d > 0 && 0 <= r < d && n == q * d + r
    ensures n / d == q && n % d == r
  {
    var q', r' := n / d, n % d;
    assert n == q' * d + r';
    assert (q - q') * d == r' - r by {
      MulSubDistributes(q, q', d);
    }
    if q > q' {
      MulAtLeast(q - q', d);
    } else if q < q' {
      MulAtLeast(q' - q, d);
      MulSubDistributes(q', q, d);
    }
  }

  lemma MulSubDistributes(a: int, b: int, d: int)
    ensures (a - b) * d == a * d - b * d
  {
  }

  lemma MulAtLeast(x: int, d: int)
    requires x >= 1 && d > 0
    ensures x * d >= d
  {
    assert x * d == (x - 1) * d + d;
    MulNonNegative(x - 1, d);
  }

  lemma MulNonNegative(x: int, d: int)
    requires x >= 0 && d >= 0
    ensures x * d >= 0
  {
  }

  /** Division by `d` of a multiple of `d` plus something more. */
  lemma DivPlusMultiple(a: nat, b: nat, d: nat)
    requires d > 0
    ensures (a * d + b) / d == a + b / d && (a * d + b) % d == b % d
  {
    var q, r := b / d, b % d;
    assert a * d + b == (a + q) * d + r;
    DivUnique(a * d + b, d, a + q, r);
  }

  /** Dividing twice is dividing by the product. */
  lemma DivDiv(n: nat, d: nat, e: nat)
    requires d > 0 && e > 0
    ensures n / d / e == n / (d * e)
  {
    var q1, r1 := n / d, n % d;
    var q2, r2 := q1 / e, q1 % e;
    assert q1 == q2 * e + r2;
    assert n == q1 * d + r1;
    assert n == q2 * (d * e) + (r2 * d + r1) by {
      assert q1 * d == (q2 * e + r2) * d;
      assert (q2 * e + r2) * d == q2 * (d * e) + r2 * d;
    }
    assert r2 * d + r1 < d * e by {
      MulAtLeast(e - r2, d);
      assert (e - r2) * d == e * d - r2 * d by { MulSubDistributes(e, r2, d); }
    }
    MulNonNegative(r2, d);
    DivUnique(n, d * e, q2, r2 * d + r1);
  }

  /** Text written piece by piece is the text of the pieces joined in order. */
  lemma {:induction false} Associative(a: string, b: string, c: string)
    ensures (a + b) + c == a + (b + c)
  {
  }

  /** A `struct timespec` as `clock_gettime` fills it in. */
  datatype Timespec = Timespec(sec: int, nsec: int)

  /** An error code of the sensor library: anything but DHT_SUCCESS (0). */
  type DhtErrorCode = c: int | c != 0 witness 1

  /**
   * What one `pi_2_dht_read` call yields: the humidity and the temperature
   * as the text `%.2f` prints for them (for the temperature, after the
   * conversion to Fahrenheit when the configuration asks for it), or the
   * library's error code.
   */
  datatype DhtRead = DhtSuccess(humidity: string, temperature: string) | DhtFailure(errCode: DhtErrorCode)

  // ---------------------------------------------------------------------
  // Characters (C locale)

  /** `isspace` in the C locale: space, \t, \n, \v, \f and \r. */
  predicate IsSpace(c: char) {
    c == ' ' || '\t' <= c <= '\r'
  }

  /** The value of `c` as a digit of a base up to 36; 36 when it is none. */
  function DigitValue(c: char): (d: nat)
    ensures d <= 36
    ensures '0' <= c <= '9' ==> d == c as int - '0' as int
  {
    if '0' <= c <= '9' then c as int - '0' as int
    else if 'a' <= c <= 'z' then c as int - 'a' as int + 10
    else if 'A' <= c <= 'Z' then c as int - 'A' as int + 10
    else 36
  }

  predicate IsDigitIn(c: char, base: nat) {
    DigitValue(c) < base
  }

  // ---------------------------------------------------------------------
  // index(3)

  /** `index(s, c)`: the position of the first `c` in `s`, if there is one. */
  function IndexOf(s: string, c: char): (r: Option<nat>)
    ensures r.None? <==> c !in s
    ensures r.Some? ==> r.value < |s| && s[r.value] == c && c !in s[..r.value]
  {
    IndexFrom(s, c, 0)
  }

  function IndexFrom(s: string, c: char, from: nat): (r: Option<nat>)
    requires from <= |s|
    ensures r.None? <==> c !in s[from..]
    ensures r.Some? ==> from <= r.value < |s| && s[r.value] == c && c !in s[from..r.value]
    decreases |s| - from
  {
    if from == |s| then None
    else if s[from] == c then Some(from)
    else
      assert s[from..] == [s[from]] + s[from + 1..];
      var r := IndexFrom(s, c, from + 1);
      assert r.Some? ==> s[from..r.value] == [s[from]] + s[from + 1..r.value];
      r
  }

  /** The first `c` of `a + [c] + b` is the one after `a` when `a` holds none. */
  lemma IndexOfAfterPrefix(a: string, c: char, b: string)
    requires c !in a
    ensures IndexOf(a + [c] + b, c) == Some(|a|)
  {
    var s := a + [c] + b;
    assert s[|a|] == c;
    assert s[..|a|] == a;
  }

  // ---------------------------------------------------------------------
  // strtol(3), base 0, as glibc implements it

  /** Number of consecutive isspace characters of `s` from `from`. */
  function SpaceRun(s: string, from: nat): (n: nat)
    requires from <= |s|
    ensures from + n <= |s|
    ensures forall k :: from <= k < from + n ==> IsSpace(s[k])
    ensures from + n < |s| ==> !IsSpace(s[from + n])
    decreases |s| - from
  {
    if from < |s| && IsSpace(s[from]) then 1 + SpaceRun(s, from + 1) else 0
  }

  /** Number of consecutive digits of `base` in `s` from `from`. */
  function DigitRun(s: string, from: nat, base: nat): (n: nat)
    requires from <= |s|
    ensures from + n <= |s|
    ensures forall k :: from <= k < from + n ==> IsDigitIn(s[k], base)
    ensures from + n < |s| ==> !IsDigitIn(s[from + n], base)
    decreases |s| - from
  {
    if from < |s| && IsDigitIn(s[from], base) then 1 + DigitRun(s, from + 1, base) else 0
  }

  /** The number the digits `ds` spell in `base`, most significant first. */
  function DigitsValue(ds: string, base: nat): nat {
    if ds == [] then 0 else DigitsValue(ds[..|ds| - 1], base) * base + DigitValue(ds[|ds| - 1])
  }

  /**
   * What `v = strtol(s, &end, 0)` yields: `v`, the offset of `end` in `s`,
   * and whether errno was set to ERANGE. glibc sets EINVAL only for an
   * invalid base, so with base 0 it never does, and it leaves errno alone
   * otherwise.
   */
  datatype StrtolResult = StrtolResult(value: int, end: nat, erange: bool)

  /**
   * Leading white space is skipped, then an optional sign; `0x`/`0X`
   * followed by a hexadecimal digit selects base 16, another leading `0`
   * base 8, anything else base 10. The longest run of digits of that base
   * is read. No digits at all means no conversion: the value is 0 and `end`
   * is `s` itself. A magnitude beyond the range of `long` is clamped to
   * LONG_MAX or LONG_MIN and sets ERANGE.
   */
  function Strtol(s: string, dm: DataModel): (r: StrtolResult)
    ensures r.end <= |s|
    ensures LongMin(dm) <= r.value <= LongMax(dm)
    ensures r.erange ==> r.value == LongMin(dm) || r.value == LongMax(dm)
  {
    var i := SpaceRun(s, 0);
    var negative := i < |s| && s[i] == '-';
    var j := if i < |s| && (s[i] == '-' || s[i] == '+') then i + 1 else i;
    ReadDigits(s, DigitsStart(s, j), BaseAt(s, j), negative, dm)
  }

  /** The base that base 0 selects for the digits at `j`. */
  function BaseAt(s: string, j: nat): nat
    requires j <= |s|
  {
    if HexPrefixAt(s, j) then 16 else if j < |s| && s[j] == '0' then 8 else 10
  }

  predicate HexPrefixAt(s: string, j: nat) {
    j + 2 < |s| && s[j] == '0' && (s[j + 1] == 'x' || s[j + 1] == 'X') && IsDigitIn(s[j + 2], 16)
  }

  function DigitsStart(s: string, j: nat): (start: nat)
    requires j <= |s|
    ensures start <= |s|
  {
    if HexPrefixAt(s, j) then j + 2 else j
  }

  /** Reads the longest run of digits of `base` from `start`, clamped to `long`. */
  function ReadDigits(s: string, start: nat, base: nat, negative: bool, dm: DataModel): (r: StrtolResult)
    requires start <= |s|
    ensures r.end <= |s|
    ensures LongMin(dm) <= r.value <= LongMax(dm)
    ensures r.erange ==> r.value == LongMin(dm) || r.value == LongMax(dm)
  {
    var n := DigitRun(s, start, base);
    if n == 0 then StrtolResult(0, 0, false)
    else Clamped(DigitsValue(s[start..start + n], base), negative, start + n, dm)
  }

  /** The result for a magnitude read up to `end`: in range, or clamped with ERANGE. */
  function Clamped(magnitude: nat, negative: bool, end: nat, dm: DataModel): (r: StrtolResult)
    ensures r.end == end
    ensures LongMin(dm) <= r.value <= LongMax(dm)
    ensures r.erange ==> r.value == LongMin(dm) || r.value == LongMax(dm)
  {
    if !negative && magnitude > LongMax(dm) then StrtolResult(LongMax(dm), end, true)
    else if negative && magnitude > -LongMin(dm) then StrtolResult(LongMin(dm), end, true)
    else StrtolResult(if negative then -(magnitude as int) else magnitude, end, false)
  }

  // ---------------------------------------------------------------------
  // Decimal text, as `%llu` / `%d` print it

  function DigitChar(d: nat): (c: char)
    requires d < 10
    ensures '0' <= c <= '9' && DigitValue(c) == d
  {
    ('0' as int + d) as char
  }

  /** The decimal digits of `n`, without leading zeros. */
  function DecimalText(n: nat): (s: string)
    ensures |s| >= 1
    ensures forall k :: 0 <= k < |s| ==> '0' <= s[k] <= '9'
    ensures n > 0 ==> s[0] != '0'
  {
    if n < 10 then [DigitChar(n)] else DecimalText(n / 10) + [DigitChar(n % 10)]
  }

  /** The decimal text of an `int` or `long`, with a `-` when negative. */
  function IntText(v: int): (s: string)
    ensures |s| >= 1
  {
    if v < 0 then "-" + DecimalText(-v) else DecimalText(v)
  }

  lemma {:induction false} DecimalTextValue(n: nat)
    ensures DigitsValue(DecimalText(n), 10) == n
  {
    if n >= 10 {
      var s := DecimalText(n);
      assert s[..|s| - 1] == DecimalText(n / 10);
      DecimalTextValue(n / 10);
    }
  }

  /** Octal and decimal read the single digit "0" alike. */
  lemma ZeroInAnyBase(base: nat)
    ensures DigitsValue("0", base) == 0
  {
    assert "0"[..0] == [];
  }

  /**
   * `DecimalText(n)` at `j`, for `n > 0`, followed by the end of `s` or by a
   * character that is no decimal digit, is read in base 10 as exactly `n`.
   */
  lemma ReadDecimalDigits(s: string, j: nat, negative: bool, n: nat, dm: DataModel)
    requires n > 0 && j + |DecimalText(n)| <= |s|
    requires s[j..j + |DecimalText(n)|] == DecimalText(n)
    requires j + |DecimalText(n)| < |s| ==> !IsDigitIn(s[j + |DecimalText(n)|], 10)
    ensures BaseAt(s, j) == 10 && DigitsStart(s, j) == j
    ensures ReadDigits(s, j, 10, negative, dm) == Clamped(n, negative, j + |DecimalText(n)|, dm)
  {
    var d := DecimalText(n);
    assert s[j] == d[0];
    forall k | j <= k < j + |d| ensures IsDigitIn(s[k], 10) {
      assert s[k] == d[k - j];
    }
    DecimalTextValue(n);
  }

  /**
   * `strtol` reads back the text `IntText` prints, followed by anything that
   * cannot continue the number: the whole text is consumed, and the value
   * is the original one, or clamped with ERANGE when `long` cannot hold it.
   */
  lemma StrtolReadsIntText(v: int, t: string, dm: DataModel)
    requires t != [] ==> !IsDigitIn(t[0], 10)
    requires v == 0 && t != [] ==> t[0] != 'x' && t[0] != 'X'
    ensures Strtol(IntText(v) + t, dm) == Clamped(if v < 0 then -v else v, v < 0, |IntText(v)|, dm)
  {
    var magnitude: nat := if v < 0 then -v else v;
    if v == 0 {
      assert IntText(v) + t == "0" + t;
      assert Strtol("0" + t, dm) == StrtolResult(0, 1, false) by {
        StrtolReadsZero(t, dm);
      }
      assert Clamped(magnitude, v < 0, |IntText(v)|, dm) == StrtolResult(0, 1, false);
    } else {
      var sign := if v < 0 then "-" else "";
      assert IntText(v) + t == sign + DecimalText(magnitude) + t;
      assert |IntText(v)| == |sign| + |DecimalText(magnitude)|;
      assert Strtol(sign + DecimalText(magnitude) + t, dm)
          == Clamped(magnitude, v < 0, |sign| + |DecimalText(magnitude)|, dm) by {
        StrtolReadsDigits(sign, v < 0, magnitude, t, dm);
      }
    }
  }

  lemma StrtolReadsDigits(sign: string, negative: bool, n: nat, t: string, dm: DataModel)
    requires sign == if negative then "-" else ""
    requires n > 0
    requires t != [] ==> !IsDigitIn(t[0], 10)
    ensures Strtol(sign + DecimalText(n) + t, dm) == Clamped(n, negative, |sign| + |DecimalText(n)|, dm)
  {
    var d := DecimalText(n);
    var s := sign + d + t;
    var j := |sign|;
    SignedTextStart(sign, negative, d, t);
    StrtolAfterSign(s, j, negative, dm);
    DigitsAfterSign(sign, n, t, negative, dm);
  }

  /** A signed decimal text has no leading white space and at most one sign. */
  lemma SignedTextStart(sign: string, negative: bool, d: string, t: string)
    requires sign == if negative then "-" else ""
    requires |d| > 0 && '0' <= d[0] <= '9'
    ensures var s := sign + d + t;
      && |s| > 0 && SpaceRun(s, 0) == 0 && (negative <==> s[0] == '-')
      && |sign| == (if s[0] == '-' || s[0] == '+' then 1 else 0)
  {
    var s := sign + d + t;
    assert s[|sign|] == d[0];
    assert s[0] == if negative then '-' else d[0];
    assert !IsSpace(s[0]);
  }

  /** After the sign, the digits of `DecimalText(n)` are read in base 10 as `n`. */
  lemma DigitsAfterSign(sign: string, n: nat, t: string, negative: bool, dm: DataModel)
    requires n > 0
    requires t != [] ==> !IsDigitIn(t[0], 10)
    ensures var s := sign + DecimalText(n) + t;
      && BaseAt(s, |sign|) == 10 && DigitsStart(s, |sign|) == |sign|
      && ReadDigits(s, |sign|, 10, negative, dm) == Clamped(n, negative, |sign| + |DecimalText(n)|, dm)
  {
    var d := DecimalText(n);
    var s := sign + d + t;
    var j := |sign|;
    assert s[j..j + |d|] == d && (j + |d| < |s| ==> s[j + |d|] == t[0]) by {
      MiddleOfThree(sign, d, t);
    }
    ReadDecimalDigits(s, j, negative, n, dm);
  }

  lemma MiddleOfThree(a: string, b: string, c: string)
    ensures (a + b + c)[|a|..|a| + |b|] == b
    ensures c != [] ==> (a + b + c)[|a| + |b|] == c[0]
  {
  }

  /** `Strtol` once it has found no white space and the optional sign. */
  lemma StrtolAfterSign(s: string, j: nat, negative: bool, dm: DataModel)
    requires |s| > 0 && SpaceRun(s, 0) == 0
    requires negative <==> s[0] == '-'
    requires j == (if s[0] == '-' || s[0] == '+' then 1 else 0)
    ensures Strtol(s, dm) == ReadDigits(s, DigitsStart(s, j), BaseAt(s, j), negative, dm)
  {
  }

  lemma StrtolReadsZero(t: string, dm: DataModel)
    requires t != [] ==> !IsDigitIn(t[0], 10) && t[0] != 'x' && t[0] != 'X'
    ensures Strtol("0" + t, dm) == StrtolResult(0, 1, false)
  {
    var s := "0" + t;
    assert s[0] == '0';
    assert BaseAt(s, 0) == 8 && DigitsStart(s, 0) == 0;
    assert DigitRun(s, 0, 8) == 1 by {
      assert IsDigitIn(s[0], 8);
      if 1 < |s| { assert s[1] == t[0]; }
    }
    assert s[0..1] == "0";
    ZeroInAnyBase(8);
  }

  // ---------------------------------------------------------------------
  // printf(3) handed a format string and no further arguments

  /**
   * What `printf(fmt)` prints when `fmt` is all it is given: `%%` prints one
   * `%`; any other conversion reads an argument that was never passed, which
   * is undefined behaviour (None).
   */
  function PrintfNoArgs(fmt: string): (r: Option<string>)
    ensures '%' !in fmt ==> r == Some(fmt)
  {
    if fmt == [] then Some([])
    else if fmt[0] != '%' then
      assert fmt == [fmt[0]] + fmt[1..];
      match PrintfNoArgs(fmt[1..])
      case Some(t) => Some([fmt[0]] + t)
      case None => None
    else if |fmt| >= 2 && fmt[1] == '%' then
      match PrintfNoArgs(fmt[2..])
      case Some(t) => Some("%" + t)
      case None => None
    else None
  }

  /** `%%` between two runs of plain text prints as a single `%`. */
  lemma {:induction false} PrintfHalvesPercent(a: string, b: string)
    requires '%' !in a && '%' !in b
    ensures PrintfNoArgs(a + "%%" + b) == Some(a + "%" + b)
    decreases |a|
  {
    var s := a + "%%" + b;
    if a == [] {
      assert s[0] == '%' && s[1] == '%' && s[2..] == b;
      assert PrintfNoArgs(s) == Some("%" + b);
      assert a + "%" + b == "%" + b;
    } else {
      PrintfHalvesPercent(a[1..], b);
      assert s[0] == a[0] && s[1..] == a[1..] + "%%" + b;
      assert PrintfNoArgs(s) == Some([a[0]] + (a[1..] + "%" + b));
      assert a + "%" + b == [a[0]] + (a[1..] + "%" + b);
    }
  }

  /** A `%` followed by anything but `%`, after plain text, is undefined behaviour. */
  lemma {:induction false} PrintfOtherConversion(a: string, c: char, b: string)
    requires '%' !in a && c != '%'
    ensures PrintfNoArgs(a + ['%', c] + b) == None
    decreases |a|
  {
    var s := a + ['%', c] + b;
    if a == [] {
      assert s[0] == '%' && s[1] == c;
    } else {
      PrintfOtherConversion(a[1..], c, b);
      assert s[0] == a[0] && s[1..] == a[1..] + ['%', c] + b;
    }
  }

  // ---------------------------------------------------------------------
  // The standard output stream

  /** A stream that only ever grows; `text` is everything written so far. */
  class OutputStream {
    var text: string

    constructor ()
      ensures text == []
    {
      text := [];
    }

    method Write(s: string)
      modifies this
      ensures text == old(text) + s
    {
      text := text + s;
    }
  }
}
