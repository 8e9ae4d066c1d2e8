/**
 * Go's `strconv.ParseUint(s, 10, 64)` and its formatting counterpart, the
 * decimal rendering of a non-negative integer (`strconv.FormatUint`, and
 * `fmt`'s `%d` verb on a non-negative value).
 */
module Strconv {
  import opened Wrappers

  const MaxUint64: nat := 0xFFFF_FFFF_FFFF_FFFF

  /** Go's `uint64`. */
  newtype u64 = x: int | 0 <= x <= MaxUint64

  /** The two failures of `ParseUint`: `strconv.ErrSyntax` and `strconv.ErrRange`. */
  datatype NumError = ErrSyntax | ErrRange

  /** The pair `(uint64, error)` that `ParseUint` returns; `None` stands for nil. */
  datatype ParseResult = ParseResult(value: u64, err: Option<NumError>)

  predicate IsDigit(c: char) { '0' <= c <= '9' }

  predicate AllDigits(s: string) { forall i :: 0 <= i < |s| ==> IsDigit(s[i]) }

  function DigitValue(c: char): (d: nat)
    requires IsDigit(c)
    ensures d < 10
  {
    c as int - '0' as int
  }

  /** The value of a decimal numeral, read most significant digit first. */
  function DecimalValue(s: string): nat
    requires AllDigits(s)
    decreases |s|
  {
    if |s| == 0 then 0 else DecimalValue(s[..|s| - 1]) * 10 + DigitValue(s[|s| - 1])
  }

  /** Length of the longest prefix of `s` made of digits. */
  function DigitRun(s: string): (k: nat)
    ensures k <= |s| && AllDigits(s[..k])
    ensures forall j :: 0 <= j < k ==> IsDigit(s[j])
    ensures k < |s| ==> !IsDigit(s[k])
    decreases |s|
  {
    if |s| == 0 || !IsDigit(s[0]) then 0
    else
      var k := 1 + DigitRun(s[1..]);
      assert s[..k] == [s[0]] + s[1..][..k - 1];
      k
  }

  /** What `ParseUint(s, 10, 64)` accepts: a non-empty numeral below 2^64. */
  predicate IsUint64Numeral(s: string) {
    |s| > 0 && AllDigits(s) && DecimalValue(s) <= MaxUint64
  }

  /**
   * The digit loop of `ParseUint`: `n` is the value of `s[..i]`. Scanning
   * stops at the first character that is not a digit (syntax error, value 0)
   * or at the first digit that takes the value past 2^64 - 1 (range error,
   * value 2^64 - 1), whichever comes first.
   */
  function Scan(s: string, i: nat, n: u64): (r: ParseResult)
    requires i <= |s|
    ensures r.err == Some(ErrSyntax) ==> r.value == 0
    ensures r.err == Some(ErrRange) ==> r.value as int == MaxUint64
    ensures r.err == None ==> n <= r.value
    decreases |s| - i
  {
    if i == |s| then ParseResult(n, None)
    else if !IsDigit(s[i]) then ParseResult(0, Some(ErrSyntax))
    else
      var n1 := n as int * 10 + DigitValue(s[i]);
      if n1 > MaxUint64 then ParseResult(MaxUint64 as u64, Some(ErrRange))
      else Scan(s, i + 1, n1 as u64)
  }

  /** `strconv.ParseUint(s, 10, 64)`: the empty string is a syntax error. */
  function ParseUint(s: string): (r: ParseResult)
    ensures r.err == Some(ErrSyntax) ==> r.value == 0
    ensures r.err == Some(ErrRange) ==> r.value as int == MaxUint64
    ensures s == "" ==> r.err == Some(ErrSyntax)
  {
    if s == "" then ParseResult(0, Some(ErrSyntax)) else Scan(s, 0, 0)
  }

  /** Decimal rendering of `n`, without leading zeros. */
  function FormatUint(n: nat): (r: string)
    ensures |r| >= 1 && AllDigits(r) && DecimalValue(r) == n
    ensures r[0] == '0' ==> r == "0"
    decreases n
  {
    var last := ['0' + ((n % 10) as char)];
    if n < 10 then last
    else
      var r := FormatUint(n / 10) + last;
      assert r[..|r| - 1] == FormatUint(n / 10);
      r
  }

  /** A longer prefix of a numeral never has a smaller value. */
  lemma {:induction false} DecimalValuePrefix(s: string, j: nat)
    requires AllDigits(s) && j <= |s|
    ensures DecimalValue(s[..j]) <= DecimalValue(s)
    decreases |s|
  {
    if j < |s| {
      var t := s[..|s| - 1];
      assert t[..j] == s[..j];
      DecimalValuePrefix(t, j);
    } else {
      assert s[..j] == s;
    }
  }

  /** The scan from position `i` on, when the digits read so far fit. */
  lemma {:induction false} ScanFrom(s: string, i: nat)
    requires i <= DigitRun(s)
    requires DecimalValue(s[..i]) <= MaxUint64
    ensures var k := DigitRun(s);
      Scan(s, i, DecimalValue(s[..i]) as u64) ==
        if DecimalValue(s[..k]) > MaxUint64 then ParseResult(MaxUint64 as u64, Some(ErrRange))
        else if k < |s| then ParseResult(0, Some(ErrSyntax))
        else ParseResult(DecimalValue(s[..k]) as u64, None)
    decreases |s| - i
  {
    var k := DigitRun(s);
    if i < k {
      var p := s[..i + 1];
      assert p[..|p| - 1] == s[..i];
      assert s[..k][..i + 1] == p;
      DecimalValuePrefix(s[..k], i + 1);
      if DecimalValue(p) <= MaxUint64 {
        ScanFrom(s, i + 1);
      }
    }
  }

  /**
   * Full behaviour of `ParseUint(s, 10, 64)`, with `k` the length of the
   * leading run of digits: an empty input is a syntax error; a leading run
   * whose value exceeds 2^64 - 1 is a range error with value 2^64 - 1, even
   * if a non-digit follows it; any other non-digit is a syntax error with
   * value 0; otherwise the value is that of the numeral.
   */
  lemma ParseUintBehaviour(s: string)
    ensures var k := DigitRun(s);
      ParseUint(s) ==
        if s == "" then ParseResult(0, Some(ErrSyntax))
        else if DecimalValue(s[..k]) > MaxUint64 then ParseResult(MaxUint64 as u64, Some(ErrRange))
        else if k < |s| then ParseResult(0, Some(ErrSyntax))
        else ParseResult(DecimalValue(s[..k]) as u64, None)
  {
    if s != "" {
      assert s[..0] == "";
      ScanFrom(s, 0);
    }
  }

  /**
   * `ParseUint` succeeds exactly on the numerals below 2^64, and then
   * returns their value; on failure the value is 0 or 2^64 - 1 according
   * to the kind of error.
   */
  lemma ParseUintSucceeds(s: string)
    ensures ParseUint(s).err == None <==> IsUint64Numeral(s)
    ensures ParseUint(s).err == None ==> ParseUint(s).value as int == DecimalValue(s)
    ensures ParseUint(s).err == Some(ErrSyntax) ==> ParseUint(s).value == 0
    ensures ParseUint(s).err == Some(ErrRange) ==> ParseUint(s).value as int == MaxUint64
  {
    ParseUintBehaviour(s);
    var k := DigitRun(s);
    if s != "" && k == |s| {
      assert s[..k] == s;
    }
    if s != "" && k < |s| {
      assert !AllDigits(s);
    }
  }

  /** A numeral below 2^64 with a non-digit after it is a syntax error. */
  lemma ParseUintSyntax(s: string, tail: string)
    requires IsUint64Numeral(s) || s == ""
    requires |tail| > 0 && !IsDigit(tail[0])
    ensures ParseUint(s + tail) == ParseResult(0, Some(ErrSyntax))
  {
    var t := s + tail;
    ParseUintBehaviour(t);
    assert t[|s|] == tail[0];
    assert t[..|s|] == s;
    assert DigitRun(t) == |s|;
  }

  /** Parsing a formatted value gives it back. */
  lemma ParseFormat(n: nat)
    requires n <= MaxUint64
    ensures ParseUint(FormatUint(n)) == ParseResult(n as u64, None)
  {
    ParseUintSucceeds(FormatUint(n));
  }

  /** Formatting a parsed value gives back the numeral, if it has no leading zero. */
  lemma FormatParse(s: string)
    requires IsUint64Numeral(s) && (s[0] == '0' ==> s == "0")
    ensures FormatUint(ParseUint(s).value as nat) == s
  {
    ParseUintSucceeds(s);
    NumeralUnique(FormatUint(DecimalValue(s)), s);
  }

  /** Two numerals without leading zeros and with equal values are equal. */
  lemma {:induction false} NumeralUnique(a: string, b: string)
    requires |a| >= 1 && |b| >= 1 && AllDigits(a) && AllDigits(b)
    requires a[0] == '0' ==> a == "0"
    requires b[0] == '0' ==> b == "0"
    requires DecimalValue(a) == DecimalValue(b)
    ensures a == b
    decreases |a|
  {
    var a', b' := a[..|a| - 1], b[..|b| - 1];
    var da, db := DigitValue(a[|a| - 1]), DigitValue(b[|b| - 1]);
    assert DecimalValue(a') * 10 + da == DecimalValue(b') * 10 + db;
    assert da == db && DecimalValue(a') == DecimalValue(b');
    assert a[|a| - 1] == b[|b| - 1];
    if |a| == 1 || |b| == 1 {
      assert |a| == 1 && |b| == 1 by {
        if |a| > 1 { NonzeroLead(a'); }
        if |b| > 1 { NonzeroLead(b'); }
      }
      assert a == [a[0]] && b == [b[0]];
    } else {
      NumeralUnique(a', b');
      assert a == a' + [a[|a| - 1]] && b == b' + [b[|b| - 1]];
    }
  }

  /** A numeral that starts with a non-zero digit has a positive value. */
  lemma {:induction false} NonzeroLead(s: string)
    requires |s| >= 1 && AllDigits(s) && s[0] != '0'
    ensures DecimalValue(s) > 0
    decreases |s|
  {
    if |s| > 1 {
      NonzeroLead(s[..|s| - 1]);
    }
  }
}
