/** The string functions of Go's standard library that the program relies on, for ASCII text. */
module Text {
  import opened Results

  const MAX_INT := 0x7FFF_FFFF_FFFF_FFFF

  function Upper(c: char): (r: char) {
    if 'a' <= c <= 'z' then ((c as int) - 32) as char else c
  }

  function ToUpper(s: string): (r: string)
    ensures |r| == |s|
  {
    seq(|s|, i requires 0 <= i < |s| => Upper(s[i]))
  }

  predicate EqualFold(a: string, b: string) {
    ToUpper(a) == ToUpper(b)
  }

  // ---- numbers ----

  function Digit(n: nat): (c: char)
    requires n < 10
  {
    ('0' as int + n) as char
  }

  predicate IsNumeral(c: char) {
    '0' <= c <= '9'
  }

  /** Itoa of a natural number. */
  function Decimal(n: nat): (s: string)
    ensures |s| >= 1 && forall i :: 0 <= i < |s| ==> IsNumeral(s[i])
  {
    if n < 10 then [Digit(n)] else Decimal(n / 10) + [Digit(n % 10)]
  }

  function Value(s: string): (n: nat)
    requires forall i :: 0 <= i < |s| ==> IsNumeral(s[i])
  {
    if s == "" then 0
    else
      assert IsNumeral(s[|s| - 1]);
      10 * Value(s[..|s| - 1]) + (s[|s| - 1] as int - '0' as int)
  }

  lemma ValueOfDecimal(n: nat)
    ensures Value(Decimal(n)) == n
  {
    var s := Decimal(n);
    if n < 10 {
      assert s[..0] == "";
    } else {
      ValueOfDecimal(n / 10);
      assert s[..|s| - 1] == Decimal(n / 10);
    }
  }

  /** An optional sign and decimal digits, within the range of a 64-bit integer. */
  function Atoi(s: string): (r: Option<int>) {
    var signed := s != "" && (s[0] == '+' || s[0] == '-');
    var digits := if signed then s[1..] else s;
    if digits == "" || exists i :: 0 <= i < |digits| && !IsNumeral(digits[i]) then None
    else
      var n: int := Value(digits);
      var v := if signed && s[0] == '-' then -n else n;
      if -MAX_INT - 1 <= v <= MAX_INT then Some(v) else None
  }

  lemma AtoiOfDecimal(n: nat)
    requires n <= MAX_INT
    ensures Atoi(Decimal(n)) == Some(n)
  {
    ValueOfDecimal(n);
    assert IsNumeral(Decimal(n)[0]);
  }

  /** Numbers that do not fit 64 bits are refused. */
  lemma AtoiExact(n: nat)
    ensures var v := Atoi(Decimal(n)); (v.Some? <==> n <= MAX_INT) && (v.Some? ==> v.value == n)
  {
    ValueOfDecimal(n);
    assert IsNumeral(Decimal(n)[0]);
  }

  /** A sign is read. */
  lemma AtoiPositive(n: nat)
    ensures var v := Atoi("+" + Decimal(n)); (v.Some? <==> n <= MAX_INT) && (v.Some? ==> v.value == n)
  {
    ValueOfDecimal(n);
    assert ("+" + Decimal(n))[1..] == Decimal(n);
  }

  lemma AtoiNegative(n: nat)
    ensures var v := Atoi("-" + Decimal(n)); (v.Some? <==> n <= MAX_INT + 1) && (v.Some? ==> v.value + n == 0)
  {
    ValueOfDecimal(n);
    assert ("-" + Decimal(n))[1..] == Decimal(n);
  }

  /** Case does not matter. */
  lemma FoldIgnoresCase(s: string)
    ensures EqualFold(s, ToUpper(s)) && EqualFold("telephone-event", "TELEPHONE-Event") && !EqualFold("a", "b")
  {
    assert ToUpper(ToUpper(s)) == ToUpper(s);
    assert ToUpper("telephone-event") == ToUpper("TELEPHONE-Event");
    assert ToUpper("a")[0] != ToUpper("b")[0];
  }

  // ---- separators ----

  function Split(s: string, sep: char): (r: seq<string>)
    ensures |r| >= 1
  {
    if s == "" then [""]
    else
      var rest := Split(s[1..], sep);
      if s[0] == sep then [""] + rest else [[s[0]] + rest[0]] + rest[1..]
  }

  lemma SplitWhole(a: string, sep: char)
    requires sep !in a
    ensures Split(a, sep) == [a]
  {
    if a != "" {
      SplitWhole(a[1..], sep);
      assert [a[0]] + a[1..] == a;
    }
  }

  lemma SplitFirst(a: string, sep: char, b: string)
    requires sep !in a
    ensures Split(a + [sep] + b, sep) == [a] + Split(b, sep)
  {
    var s := a + [sep] + b;
    if a == "" {
      assert s[1..] == b;
    } else {
      SplitFirst(a[1..], sep, b);
      assert s[1..] == a[1..] + [sep] + b;
      assert [a[0]] + a[1..] == a;
    }
  }
}
