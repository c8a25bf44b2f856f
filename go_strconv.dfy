/**
  strconv.ParseUint(s, 0, 64) from Go's standard library (the form with the
  0b, 0o and 0x prefixes and `_` digit separators), and the digit formatting
  that its round-trip lemmas use.
*/
module GoStrconv {
  import opened Wrappers

  const MaxUint64: int := 0xFFFF_FFFF_FFFF_FFFF

  type Uint64 = x: int | 0 <= x <= MaxUint64

  datatype NumErrorKind = ErrSyntax | ErrRange

  /** strconv.NumError: the function that failed, its input and the reason. */
  datatype NumError = NumError(fn: string, num: string, err: NumErrorKind)

  /**
    Go's `lower`, which sets bit 0x20 of a byte. It is written here as ASCII
    lower-casing; the two agree on every comparison the parser makes with it,
    which are against lower-case letters only.
  */
  function Lower(c: char): char {
    if 'A' <= c <= 'Z' then (c as int + 32) as char else c
  }

  /** The value of an ASCII digit or letter (0 to 35), or -1 for any other character. */
  function Digit(c: char): (d: int)
    ensures -1 <= d < 36
  {
    if '0' <= c <= '9' then c as int - '0' as int
    else if 'a' <= Lower(c) <= 'z' then Lower(c) as int - 'a' as int + 10
    else -1
  }

  /**
    The base that a base-0 parse takes from the prefix of s, and the digits
    that follow the prefix.
  */
  function BaseAndDigits(s: string): (r: (int, string))
    requires |s| > 0
    ensures r.0 in {2, 8, 10, 16}
    ensures r.0 == 10 <==> s[0] != '0'
  {
    if s[0] == '0' then
      if |s| >= 3 && Lower(s[1]) == 'b' then (2, s[2..])
      else if |s| >= 3 && Lower(s[1]) == 'o' then (8, s[2..])
      else if |s| >= 3 && Lower(s[1]) == 'x' then (16, s[2..])
      else (8, s[1..])
    else (10, s)
  }

  /**
    The prefixes a base-0 parse recognises, in either case: 0x or 0X selects
    16, 0b or 0B selects 2, 0o or 0O selects 8, each only with at least one
    character after it; any other leading 0 selects 8 and is dropped; no
    leading 0 selects 10. The digits are what follows the prefix.
  */
  lemma BasePrefixes(s: string)
    requires |s| > 0
    ensures var r := BaseAndDigits(s);
            && |r.1| <= |s| <= |r.1| + 2 && r.1 == s[|s| - |r.1|..]
            && (|s| >= 3 && s[0] == '0' && s[1] in {'x', 'X'} ==> r == (16, s[2..]))
            && (|s| >= 3 && s[0] == '0' && s[1] in {'b', 'B'} ==> r == (2, s[2..]))
            && (|s| >= 3 && s[0] == '0' && s[1] in {'o', 'O'} ==> r == (8, s[2..]))
            && (s[0] == '0' && (|s| < 3 || s[1] !in {'b', 'B', 'o', 'O', 'x', 'X'}) ==> r == (8, s[1..]))
            && (s[0] != '0' ==> r == (10, s))
  {
  }

  /** n * base, written out for each base a base-0 parse can select. */
  function Times(n: int, base: int): (r: int)
    requires base in {2, 8, 10, 16}
  {
    if base == 2 then n * 2 else if base == 8 then n * 8 else if base == 10 then n * 10 else n * 16
  }

  /** ParseUint's cutoff, MaxUint64 / base + 1: the least n for which n * base overflows. */
  function Cutoff(base: int): int
    requires base in {2, 8, 10, 16}
  {
    if base == 2 then MaxUint64 / 2 + 1
    else if base == 8 then MaxUint64 / 8 + 1
    else if base == 10 then MaxUint64 / 10 + 1
    else MaxUint64 / 16 + 1
  }

  /** One turn of ParseUint's digit loop: n so far, and whether an underscore was seen. */
  function AccumulateDigit(c: char, base: int, n: Uint64, underscores: bool): Result<(Uint64, bool), NumErrorKind>
    requires base in {2, 8, 10, 16}
  {
    if c == '_' then Success((n, true))
    else
      var d := Digit(c);
      if d < 0 || d >= base then Failure(ErrSyntax)
      else if n >= Cutoff(base) then Failure(ErrRange)         // n * base overflows
      else if Times(n, base) + d > MaxUint64 then Failure(ErrRange)   // n * base + d overflows
      else Success((Times(n, base) + d, underscores))
  }

  /** ParseUint's digit loop over ds, which stops at the first error. */
  function Accumulate(ds: string, base: int, n: Uint64, underscores: bool): Result<(Uint64, bool), NumErrorKind>
    requires base in {2, 8, 10, 16}
  {
    if ds == [] then Success((n, underscores))
    else
      match AccumulateDigit(ds[0], base, n, underscores)
      case Failure(k) => Failure(k)
      case Success((m, u)) => Accumulate(ds[1..], base, m, u)
  }

  /** What strconv's underscoreOK remembers about the previous character. */
  datatype Saw = SawStart | SawDigit | SawUnderscore | SawOther

  function UnderscoreScan(s: string, hex: bool, saw: Saw): bool {
    if s == [] then saw != SawUnderscore
    else if ('0' <= s[0] <= '9') || (hex && 'a' <= Lower(s[0]) <= 'f') then
      UnderscoreScan(s[1..], hex, SawDigit)
    else if s[0] == '_' then
      saw == SawDigit && UnderscoreScan(s[1..], hex, SawUnderscore)
    else if saw == SawUnderscore then false
    else UnderscoreScan(s[1..], hex, SawOther)
  }

  /**
    strconv's underscoreOK: every underscore stands between two digits, or
    between a base prefix and a digit.
  */
  function UnderscoreOK(s: string): bool {
    var t := if |s| >= 1 && (s[0] == '-' || s[0] == '+') then s[1..] else s;
    if |t| >= 2 && t[0] == '0' && (Lower(t[1]) == 'b' || Lower(t[1]) == 'o' || Lower(t[1]) == 'x') then
      UnderscoreScan(t[2..], Lower(t[1]) == 'x', SawDigit)
    else
      UnderscoreScan(t, false, SawStart)
  }

  /** strconv.ParseUint(s, 0, 64). */
  function ParseUint(s: string): (r: Result<Uint64, NumError>)
    ensures r.Failure? ==> r.error.fn == "ParseUint" && r.error.num == s
  {
    if s == [] then Failure(NumError("ParseUint", s, ErrSyntax))
    else
      var (base, ds) := BaseAndDigits(s);
      match Accumulate(ds, base, 0, false)
      case Failure(k) => Failure(NumError("ParseUint", s, k))
      case Success((n, underscores)) =>
        if underscores && !UnderscoreOK(s) then Failure(NumError("ParseUint", s, ErrSyntax))
        else Success(n)
  }

  // ---- A reference meaning for digit strings, and formatting ----

  predicate ValidDigits(ds: string, base: int) {
    forall i :: 0 <= i < |ds| ==> 0 <= Digit(ds[i]) < base
  }

  /** The number that the digits ds denote in base, most significant first. */
  function DigitsValue(ds: string, base: nat): (v: nat)
    requires ValidDigits(ds, base)
  {
    if ds == [] then 0
    else DigitsValue(ds[..|ds| - 1], base) * base + Digit(ds[|ds| - 1])
  }

  function DigitChar(d: nat): (c: char)
    requires d < 36
    ensures Digit(c) == d
  {
    if d < 10 then ('0' as int + d) as char else ('a' as int + d - 10) as char
  }

  /** Euclidean division by one of the four bases a base-0 parse can select. */
  lemma DivModBase(n: nat, base: nat)
    requires base in {2, 8, 10, 16}
    ensures n == (n / base) * base + n % base
    ensures 0 <= n % base < base
    ensures n >= base ==> 1 <= n / base < n
  {
    if base == 2 {
    } else if base == 8 {
    } else if base == 10 {
    } else {
    }
  }

  /** The digits of n in base, most significant first, lower-case letters above 9 (strconv.FormatUint). */
  function FormatBase(n: nat, base: nat): (ds: string)
    requires base in {2, 8, 10, 16}
    ensures |ds| > 0 && ValidDigits(ds, base)
    ensures n > 0 ==> ds[0] != '0'
    ensures '_' !in ds
    decreases n
  {
    if n < base then [DigitChar(n)]
    else
      DivModBase(n, base);
      FormatBase(n / base, base) + [DigitChar(n % base)]
  }

  /** The prefix that selects base in a base-0 parse. */
  function BasePrefix(base: nat): string {
    if base == 2 then "0b" else if base == 8 then "0o" else if base == 16 then "0x" else ""
  }

  // ---- Lemmas ----

  lemma {:induction false} FormatBaseValue(n: nat, base: nat)
    requires base in {2, 8, 10, 16}
    ensures DigitsValue(FormatBase(n, base), base) == n
    decreases n
  {
    var ds := FormatBase(n, base);
    if n >= base {
      DivModBase(n, base);
      assert ds[..|ds| - 1] == FormatBase(n / base, base);
      FormatBaseValue(n / base, base);
    }
  }

  /** The loop over a + [c] is the loop over a followed by one more turn. */
  lemma {:induction false} AccumulateSnoc(a: string, c: char, base: int, n: Uint64, u: bool)
    requires base in {2, 8, 10, 16}
    ensures Accumulate(a + [c], base, n, u) ==
            match Accumulate(a, base, n, u)
            case Failure(k) => Failure(k)
            case Success((m, u')) => AccumulateDigit(c, base, m, u')
  {
    var s := a + [c];
    if a == [] {
      assert s == [c];
      assert s[1..] == [];
    } else {
      assert s[0] == a[0];
      assert s[1..] == a[1..] + [c];
      match AccumulateDigit(a[0], base, n, u)
      case Failure(k) =>
      case Success((m, u')) => AccumulateSnoc(a[1..], c, base, m, u');
    }
  }

  /**
    One turn of the loop on a valid digit: it either appends the digit, or
    fails with a range error exactly when the result would exceed 2^64 - 1.
  */
  lemma DigitStep(c: char, base: int, n: Uint64)
    requires base in {2, 8, 10, 16}
    requires 0 <= Digit(c) < base
    ensures n * base + Digit(c) <= MaxUint64 ==> AccumulateDigit(c, base, n, false) == Success((n * base + Digit(c), false))
    ensures n * base + Digit(c) > MaxUint64 ==> AccumulateDigit(c, base, n, false) == Failure(ErrRange)
    ensures n * base + Digit(c) >= n
  {
    assert c != '_';
    if base == 2 {
    } else if base == 8 {
    } else if base == 10 {
    } else {
    }
  }

  lemma Grows(v: nat, base: int, d: nat)
    requires base >= 1
    ensures v * base + d >= v
  {
  }

  /**
    Over valid digits without underscores the loop computes the digits' value,
    and fails with a range error exactly when that value exceeds 2^64 - 1.
  */
  lemma {:induction false} AccumulateDigits(ds: string, base: int)
    requires base in {2, 8, 10, 16}
    requires ValidDigits(ds, base)
    ensures DigitsValue(ds, base) <= MaxUint64 ==> Accumulate(ds, base, 0, false) == Success((DigitsValue(ds, base), false))
    ensures DigitsValue(ds, base) > MaxUint64 ==> Accumulate(ds, base, 0, false) == Failure(ErrRange)
  {
    if ds == [] {
    } else {
      var a := ds[..|ds| - 1];
      var c := ds[|ds| - 1];
      assert ds == a + [c];
      AccumulateDigits(a, base);
      AccumulateSnoc(a, c, base, 0, false);
      var va := DigitsValue(a, base);
      var next := va * base + Digit(c);
      assert DigitsValue(ds, base) == next;
      if va <= MaxUint64 {
        DigitStep(c, base, va);
      } else {
        Grows(va, base, Digit(c));
      }
    }
  }

  /** Without underscores, a character that is not a digit of base makes the loop fail. */
  lemma {:induction false} AccumulateInvalid(ds: string, base: int, n: Uint64)
    requires base in {2, 8, 10, 16}
    requires '_' !in ds && !ValidDigits(ds, base)
    ensures Accumulate(ds, base, n, false).Failure?
  {
    if 0 <= Digit(ds[0]) < base {
      var tail := ds[1..];
      assert !ValidDigits(tail, base) by {
        var j :| 0 <= j < |ds| && !(0 <= Digit(ds[j]) < base);
        assert j > 0 && tail[j - 1] == ds[j];
      }
      assert ds[0] in ds;
      match AccumulateDigit(ds[0], base, n, false)
      case Failure(_) =>
      case Success((m, u)) =>
        assert !u;
        AccumulateInvalid(tail, base, m);
    }
  }

  /**
    What ParseUint means on a string without underscores: it succeeds exactly
    when the text after the base prefix is digits of that base whose value fits
    in 64 bits, and then yields that value.
  */
  lemma ParseUintMeaning(s: string)
    requires |s| > 0 && '_' !in s
    ensures var (base, ds) := BaseAndDigits(s);
            && (ParseUint(s).Success? <==> ValidDigits(ds, base) && DigitsValue(ds, base) <= MaxUint64)
            && (ParseUint(s).Success? ==> ParseUint(s).value == DigitsValue(ds, base))
  {
    var (base, ds) := BaseAndDigits(s);
    assert '_' !in ds by {
      assert ds == s || ds == s[1..] || ds == s[2..];
    }
    if ValidDigits(ds, base) {
      AccumulateDigits(ds, base);
    } else {
      AccumulateInvalid(ds, base, 0);
    }
  }

  /** Parsing the prefixed digits of a 64-bit value gives the value back, in bases 2, 8, 10 and 16. */
  lemma ParseFormatted(n: Uint64, base: nat)
    requires base in {2, 8, 10, 16}
    requires base == 10 ==> n > 0
    ensures ParseUint(BasePrefix(base) + FormatBase(n, base)) == Success(n)
  {
    var ds := FormatBase(n, base);
    var s := BasePrefix(base) + ds;
    FormatBaseValue(n, base);
    AccumulateDigits(ds, base);
    if base == 10 {
      assert s == ds;
      assert BaseAndDigits(s) == (10, ds);
    } else {
      assert |s| >= 3 && s[0] == '0' && s[2..] == ds;
      assert BaseAndDigits(s) == (base, ds) by {
        if base == 2 {
          assert Lower(s[1]) == 'b';
        } else if base == 8 {
          assert Lower(s[1]) == 'o';
        } else {
          assert Lower(s[1]) == 'x';
        }
      }
    }
  }

  /** strconv.FormatUint(n, 10), and ParseUint reads it back. */
  lemma ParseFormatUint(n: Uint64)
    ensures ParseUint(FormatBase(n, 10)) == Success(n)
  {
    if n == 0 {
      assert FormatBase(n, 10) == "0";
      var s := FormatBase(n, 10);
      assert |s| == 1 && s[0] == '0' && s[1..] == [];
      assert BaseAndDigits(s) == (8, []);
    } else {
      ParseFormatted(n, 10);
      assert BasePrefix(10) + FormatBase(n, 10) == FormatBase(n, 10);
    }
  }

  /** A leading 0 without a letter selects octal. */
  lemma ParseLegacyOctal(n: Uint64)
    ensures ParseUint("0" + FormatBase(n, 8)) == Success(n)
  {
    var ds := FormatBase(n, 8);
    var s := "0" + ds;
    assert s[1] == ds[0] && 0 <= Digit(ds[0]) < 8;
    assert '0' <= s[1] <= '7' && Lower(s[1]) == s[1];
    assert s[1..] == ds;
    assert BaseAndDigits(s) == (8, ds);
    FormatBaseValue(n, 8);
    AccumulateDigits(ds, 8);
  }

  /** Decimal digits whose value does not fit in 64 bits give a range error. */
  lemma ParseDecimalOverflow(ds: string)
    requires |ds| > 0 && ds[0] != '0'
    requires ValidDigits(ds, 10) && DigitsValue(ds, 10) > MaxUint64
    ensures ParseUint(ds) == Failure(NumError("ParseUint", ds, ErrRange))
  {
    AccumulateDigits(ds, 10);
  }

  /** No sign is accepted, and the empty string is not a number. */
  lemma ParseRejectsSign(s: string)
    requires s == [] || s[0] == '+' || s[0] == '-'
    ensures ParseUint(s) == Failure(NumError("ParseUint", s, ErrSyntax))
  {
  }

  /**
    A base prefix is recognised in either case: 0b or 0B, 0o or 0O, 0x or 0X,
    followed by valid digits, gives the digits' value or the range error.
  */
  lemma ParsePrefixed(p: string, ds: string, base: int)
    requires (base == 2 && p in {"0b", "0B"}) || (base == 8 && p in {"0o", "0O"}) || (base == 16 && p in {"0x", "0X"})
    requires |ds| > 0 && ValidDigits(ds, base)
    ensures DigitsValue(ds, base) <= MaxUint64 ==> ParseUint(p + ds) == Success(DigitsValue(ds, base))
    ensures DigitsValue(ds, base) > MaxUint64 ==> ParseUint(p + ds) == Failure(NumError("ParseUint", p + ds, ErrRange))
  {
    var s := p + ds;
    assert |s| >= 3 && s[0] == '0' && s[1] == p[1] && s[2..] == ds;
    assert BaseAndDigits(s) == (base, ds);
    AccumulateDigits(ds, base);
  }

  // ---- Underscores ----

  /** s with its underscores removed. */
  function DropUnderscores(s: string): (r: string)
    ensures '_' !in r && |r| <= |s|
  {
    if s == [] then []
    else if s[0] == '_' then DropUnderscores(s[1..])
    else [s[0]] + DropUnderscores(s[1..])
  }

  /** The digit loop skips underscores and only remembers that it saw one. */
  lemma {:induction false} AccumulateDrop(ds: string, base: int, n: Uint64, u: bool)
    requires base in {2, 8, 10, 16}
    ensures Accumulate(ds, base, n, u) ==
            match Accumulate(DropUnderscores(ds), base, n, false)
            case Failure(k) => Failure(k)
            case Success((m, _)) => Success((m, u || '_' in ds))
  {
    if ds != [] {
      var tail := ds[1..];
      assert ds == [ds[0]] + tail;
      if ds[0] == '_' {
        AccumulateDrop(tail, base, n, true);
      } else {
        var d := [ds[0]] + DropUnderscores(tail);
        assert d[0] == ds[0] && d[1..] == DropUnderscores(tail);
        assert ('_' in ds) == ('_' in tail);
        match AccumulateDigit(ds[0], base, n, u)
        case Failure(_) =>
        case Success((m, _)) => AccumulateDrop(tail, base, m, u);
      }
    }
  }

  /** Without underscores the loop never sets its underscore flag. */
  lemma {:induction false} AccumulateKeepsFlag(ds: string, base: int, n: Uint64, u: bool)
    requires base in {2, 8, 10, 16} && '_' !in ds
    ensures Accumulate(ds, base, n, u).Success? ==> Accumulate(ds, base, n, u).value.1 == u
  {
    if ds != [] {
      assert ds[0] in ds;
      assert forall c :: c in ds[1..] ==> c in ds;
      match AccumulateDigit(ds[0], base, n, u)
      case Failure(_) =>
      case Success((m, _)) => AccumulateKeepsFlag(ds[1..], base, m, u);
    }
  }

  /** A non-empty text that underscoreOK's scan accepts is not all underscores. */
  lemma {:induction false} ScanNotOnlyUnderscores(s: string, hex: bool, saw: Saw)
    requires |s| > 0 && UnderscoreScan(s, hex, saw)
    ensures |DropUnderscores(s)| > 0
  {
    if s[0] == '_' {
      if |s| == 1 {
        assert false;
      } else {
        ScanNotOnlyUnderscores(s[1..], hex, SawUnderscore);
      }
    }
  }

  /**
    Removing the underscores of a literal that underscoreOK accepts keeps its
    base: the digits after the prefix lose their underscores and nothing else.
  */
  lemma DropPrefix(s: string)
    requires |s| > 0 && UnderscoreOK(s)
    ensures |DropUnderscores(s)| > 0
    ensures BaseAndDigits(DropUnderscores(s)) == (BaseAndDigits(s).0, DropUnderscores(BaseAndDigits(s).1))
  {
    var d := DropUnderscores(s);
    assert s[0] != '_';
    assert d == [s[0]] + DropUnderscores(s[1..]);
    if s[0] == '0' && |s| >= 2 {
      var rest := s[2..];
      assert s[1..] == [s[1]] + rest;
      if |s| >= 3 && (Lower(s[1]) == 'b' || Lower(s[1]) == 'o' || Lower(s[1]) == 'x') {
        assert DropUnderscores(s[1..]) == [s[1]] + DropUnderscores(rest);
        ScanNotOnlyUnderscores(rest, Lower(s[1]) == 'x', SawDigit);
        assert d[1] == s[1] && d[2..] == DropUnderscores(rest);
      } else if s[1] == '_' {
        assert UnderscoreScan(s[1..], false, SawDigit);
        assert UnderscoreScan(rest, false, SawUnderscore);
        assert |rest| > 0 && '0' <= rest[0] <= '9';
        assert rest == [rest[0]] + rest[1..];
        assert DropUnderscores(s[1..]) == DropUnderscores(rest) == [rest[0]] + DropUnderscores(rest[1..]);
        assert d[1] == rest[0];
      } else {
        assert DropUnderscores(s[1..]) == [s[1]] + DropUnderscores(rest);
        assert d[1] == s[1];
      }
    }
  }

  /** The same parse result, an error naming s as its input. */
  function WithInput(r: Result<Uint64, NumError>, s: string): Result<Uint64, NumError> {
    match r
    case Success(v) => Success(v)
    case Failure(e) => Failure(NumError(e.fn, s, e.err))
  }

  /** The base prefix holds no underscore: s has one exactly when its digits have one. */
  lemma UnderscoreInDigits(s: string)
    requires |s| > 0
    ensures ('_' in BaseAndDigits(s).1) == ('_' in s)
  {
    var ds := BaseAndDigits(s).1;
    var k := |s| - |ds|;
    assert ds == s[k..] && k <= 2;
    assert forall j :: 0 <= j < k ==> s[j] != '_';
    if '_' in s {
      var i :| 0 <= i < |s| && s[i] == '_';
      assert ds[i - k] == '_';
    }
  }

  /**
    Underscores that underscoreOK accepts are skipped: the literal parses as it
    would without them, an error naming the literal as written.
  */
  lemma ParseAcceptedUnderscores(s: string)
    requires UnderscoreOK(s)
    ensures ParseUint(s) == WithInput(ParseUint(DropUnderscores(s)), s)
  {
    if s != [] {
      var (base, ds) := BaseAndDigits(s);
      DropPrefix(s);
      AccumulateDrop(ds, base, 0, false);
      AccumulateKeepsFlag(DropUnderscores(ds), base, 0, false);
      hide BaseAndDigits, Accumulate, DropUnderscores, UnderscoreOK;
    }
  }

  /**
    Underscores that underscoreOK rejects make the parse fail: with the error
    of the digit loop when that loop fails on the digits, and with a syntax
    error otherwise.
  */
  lemma ParseRejectedUnderscores(s: string)
    requires '_' in s && !UnderscoreOK(s)
    ensures ParseUint(s).Failure?
    ensures var (base, ds) := BaseAndDigits(s);
            var loop := Accumulate(DropUnderscores(ds), base, 0, false);
            ParseUint(s) == Failure(NumError("ParseUint", s, if loop.Failure? then loop.error else ErrSyntax))
  {
    var (base, ds) := BaseAndDigits(s);
    UnderscoreInDigits(s);
    AccumulateDrop(ds, base, 0, false);
    hide BaseAndDigits, Accumulate, DropUnderscores, UnderscoreOK;
  }
}
