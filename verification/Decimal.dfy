/**
 Decimal text of unsigned 64-bit integers, as printed and parsed at the agent boundary
 and inside provisioning keys.
 */
module Decimal {
  import opened Base

  const MAX_UINT64: nat := 0xFFFF_FFFF_FFFF_FFFF

  predicate IsDigit(c: char) {
    '0' <= c <= '9'
  }

  predicate AllDigits(s: string) {
    forall i :: 0 <= i < |s| ==> IsDigit(s[i])
  }

  function Digit(d: nat): (c: char)
    requires d < 10
    ensures IsDigit(c) && DigitValue(c) == d
  {
    '0' + d as char
  }

  function DigitValue(c: char): (d: nat)
    requires IsDigit(c)
    ensures d < 10
  {
    c as nat - '0' as nat
  }

  /** The number a digit string denotes, whatever its length and leading zeros. */
  function Value(s: string): nat
    requires AllDigits(s)
  {
    if s == "" then 0 else 10 * Value(s[..|s| - 1]) + DigitValue(s[|s| - 1])
  }

  /** Shortest decimal text of `n`. */
  function FormatUint(n: nat): (s: string)
    ensures s != "" && AllDigits(s)
    ensures |s| > 1 ==> s[0] != '0'
  {
    if n < 10 then [Digit(n)] else FormatUint(n / 10) + [Digit(n % 10)]
  }

  /** Base-10 parse: digits only, at least one, and within 64 bits. Leading zeros pass here. */
  function ParseUint(s: string): Option<nat> {
    if s != "" && AllDigits(s) && Value(s) <= MAX_UINT64 then Some(Value(s)) else None
  }

  /** The client's stricter parse: the text must be exactly what the printer would emit. */
  function ParseCanonicalUint(s: string): Option<nat> {
    match ParseUint(s)
    case None => None
    case Some(n) => if FormatUint(n) == s then Some(n) else None
  }

  lemma {:induction false} ValueOfFormat(n: nat)
    ensures Value(FormatUint(n)) == n
  {
    if n >= 10 {
      ValueOfFormat(n / 10);
      var s := FormatUint(n);
      assert s[..|s| - 1] == FormatUint(n / 10);
    }
  }

  lemma FormatInjective(m: nat, n: nat)
    requires FormatUint(m) == FormatUint(n)
    ensures m == n
  {
    ValueOfFormat(m);
    ValueOfFormat(n);
  }

  /** Parsing inverts printing on 64-bit values and accepts nothing else. */
  lemma ParseCanonicalExact(s: string, n: nat)
    ensures ParseCanonicalUint(s) == Some(n) <==> n <= MAX_UINT64 && s == FormatUint(n)
  {
    ValueOfFormat(n);
  }

  /** A text without `sep` is determined by any text that starts with it followed by `sep`. */
  lemma {:induction false} SplitAtSeparator(x: string, y: string, x': string, y': string, sep: char)
    requires sep !in x && sep !in x'
    requires x + [sep] + y == x' + [sep] + y'
    ensures x == x' && y == y'
  {
    var s := x + [sep] + y;
    assert s[|x|] == sep && s[|x'|] == sep;
    assert forall i :: 0 <= i < |x| ==> s[i] == x[i] != sep;
    assert forall i :: 0 <= i < |x'| ==> s[i] == x'[i] != sep;
    assert s[..|x|] == x && s[..|x'|] == x';
    assert s[|x| + 1..] == y && s[|x'| + 1..] == y';
  }

  function Zeros(n: nat): string {
    seq(n, _ => '0')
  }

  /** A digit string is the printed form of its value behind some leading zeros. */
  lemma {:induction false} LeadingZeros(s: string) returns (n: nat)
    requires s != "" && AllDigits(s)
    ensures s == Zeros(n) + FormatUint(Value(s))
  {
    var front, last := s[..|s| - 1], s[|s| - 1];
    assert s == front + [last];
    assert Digit(DigitValue(last)) == last;
    if front == "" {
      n := 0;
    } else {
      n := LeadingZeros(front);
      if Value(front) == 0 {
        assert front == Zeros(n + 1);
        n := n + 1;
      } else {
        assert Value(s) / 10 == Value(front) && Value(s) % 10 == DigitValue(last);
        assert FormatUint(Value(s)) == FormatUint(Value(front)) + [last];
      }
    }
  }

  /** Leading zeros do not change the value. */
  lemma {:induction false} ValueIgnoresZeros(n: nat, s: string)
    requires AllDigits(s)
    ensures AllDigits(Zeros(n) + s) && Value(Zeros(n) + s) == Value(s)
    decreases |s|, n
  {
    var padded := Zeros(n) + s;
    if s != "" {
      ValueIgnoresZeros(n, s[..|s| - 1]);
      assert padded[..|padded| - 1] == Zeros(n) + s[..|s| - 1];
    } else if n > 0 {
      ValueIgnoresZeros(n - 1, "");
      assert padded[..|padded| - 1] == Zeros(n - 1) + "";
    }
  }
}
