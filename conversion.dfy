/**
 * `convert_str_to_int`, which both versions of the sampler share word for
 * word: `strtol` in base 0, then three checks, each ending the process with
 * its own exit code. Here the exit becomes a `ConversionFailed` value.
 */
module Convert {
  import opened CLib

  /**
   * A converted value together with what `errno` holds afterwards (the
   * source never resets it), or the exit code of the failed check.
   */
  datatype Conversion = Converted(value: int, errno: int) | ConversionFailed(code: int)

  /**
   * `errno` is what errno holds when the function is entered. Exit code 1
   * when errno is EINVAL after `strtol`, 2 when characters follow the
   * number, 3 when the `long` value does not fit in an `int`.
   */
  function ConvertStrToInt(str: string, errno: int, dm: DataModel): (r: Conversion)
    ensures r.ConversionFailed? ==> r.code == 1 || r.code == 2 || r.code == 3
    ensures r.Converted? ==> INT_MIN <= r.value <= INT_MAX && r.errno != EINVAL
    ensures r.Converted? ==> r.value == Strtol(str, dm).value && Strtol(str, dm).end == |str|
  {
    var p := Strtol(str, dm);
    var errnoAfter := if p.erange then ERANGE else errno;
    if errnoAfter == EINVAL then ConversionFailed(1)
    else if p.end < |str| then ConversionFailed(2)
    else if p.value < INT_MIN || p.value > INT_MAX then ConversionFailed(3)
    else Converted(p.value, errnoAfter)
  }

  /**
   * Every `int`, written in decimal, converts back to itself, and errno is
   * left as it was.
   */
  lemma ConvertReadsIntText(v: int, errno: int, dm: DataModel)
    requires INT_MIN <= v <= INT_MAX && errno != EINVAL
    ensures ConvertStrToInt(IntText(v), errno, dm) == Converted(v, errno)
  {
    var str := IntText(v);
    assert Strtol(str, dm) == StrtolResult(v, |str|, false) by {
      StrtolReadsIntText(v, [], dm);
      assert str + [] == str;
      assert LongMin(dm) <= INT_MIN && INT_MAX <= LongMax(dm);
    }
  }

  /**
   * A number followed by a character that cannot continue it (a space, a
   * letter other than the `x` of a hexadecimal prefix, ...) fails with code 2.
   */
  lemma ConvertRejectsTrailing(v: int, t: string, errno: int, dm: DataModel)
    requires INT_MIN <= v <= INT_MAX && errno != EINVAL
    requires t != [] && !IsDigitIn(t[0], 10)
    requires v == 0 ==> t[0] != 'x' && t[0] != 'X'
    ensures ConvertStrToInt(IntText(v) + t, errno, dm) == ConversionFailed(2)
  {
    var str := IntText(v) + t;
    assert Strtol(str, dm) == StrtolResult(v, |IntText(v)|, false) by {
      StrtolReadsIntText(v, t, dm);
      assert LongMin(dm) <= INT_MIN && INT_MAX <= LongMax(dm);
    }
  }

  /**
   * With a 64-bit `long`, a decimal number that `long` holds but `int` does
   * not fails with code 3.
   */
  lemma ConvertRejectsOutOfRange(v: int, errno: int)
    requires LongMin(LP64) <= v <= LongMax(LP64)
    requires v < INT_MIN || v > INT_MAX
    requires errno != EINVAL
    ensures ConvertStrToInt(IntText(v), errno, LP64) == ConversionFailed(3)
  {
    var str := IntText(v);
    assert Strtol(str, LP64) == StrtolResult(v, |str|, false) by {
      StrtolReadsIntText(v, [], LP64);
      assert str + [] == str;
    }
  }

  /**
   * With a 32-bit `long`, `strtol` itself clamps every larger number to
   * LONG_MAX, which equals INT_MAX, so the range check never fires: the
   * conversion succeeds with INT_MAX and errno set to ERANGE.
   */
  lemma Ilp32ClampsOverflow(n: nat, errno: int)
    requires n > INT_MAX
    ensures ConvertStrToInt(DecimalText(n), errno, ILP32) == Converted(INT_MAX, ERANGE)
  {
    var str := DecimalText(n);
    assert Strtol(str, ILP32) == StrtolResult(INT_MAX, |str|, true) by {
      StrtolReadsIntText(n, [], ILP32);
      assert IntText(n) + [] == str;
    }
  }

  /** A stale EINVAL in errno fails every conversion that does not overflow. */
  lemma ConvertStaleEinval(str: string, dm: DataModel)
    requires !Strtol(str, dm).erange
    ensures ConvertStrToInt(str, EINVAL, dm) == ConversionFailed(1)
  {
  }

  /**
   * The empty argument converts to 0: `strtol` finds no digits, so `end`
   * is the string itself, whose first character is already the terminator.
   */
  lemma ConvertEmptyIsZero(errno: int, dm: DataModel)
    requires errno != EINVAL
    ensures ConvertStrToInt("", errno, dm) == Converted(0, errno)
  {
    assert SpaceRun("", 0) == 0;
    assert DigitRun("", 0, 10) == 0;
  }
}
