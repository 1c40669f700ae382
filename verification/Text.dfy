// The few string operations the key and flag formats rely on.
module Text {
  // str(n) for a non-negative integer.
  function Decimal(n: nat): (s: string)
    ensures s != []
  {
    if n < 10 then [DigitChar(n)] else Decimal(n / 10) + [DigitChar(n % 10)]
  }

  function DigitChar(d: nat): char
    requires d < 10
  {
    '0' + d as char
  }

  predicate IsDigit(c: char) {
    '0' <= c <= '9'
  }

  // str.isdigit, on ASCII text.
  predicate IsDecimal(s: string) {
    s != [] && forall i :: 0 <= i < |s| ==> IsDigit(s[i])
  }

  // int(s)
  function ParseDecimal(s: string): nat
    requires IsDecimal(s)
  {
    var last := (s[|s| - 1] - '0') as nat;
    if |s| == 1 then last else 10 * ParseDecimal(s[..|s| - 1]) + last
  }

  /** Decimal text parses back to the number it was printed from. */
  lemma {:induction false} DecimalRoundTrip(n: nat)
    ensures IsDecimal(Decimal(n)) && ParseDecimal(Decimal(n)) == n
  {
    if n >= 10 {
      DecimalRoundTrip(n / 10);
      assert Decimal(n)[..|Decimal(n)| - 1] == Decimal(n / 10);
    }
  }

  // str.rfind of a character; -1 when it does not occur.
  function RFind(s: string, c: char): (r: int)
    ensures -1 <= r < |s|
    ensures r >= 0 ==> s[r] == c
    ensures forall i :: r < i < |s| ==> s[i] != c
  {
    if s == [] then -1
    else if s[|s| - 1] == c then |s| - 1
    else RFind(s[..|s| - 1], c)
  }

  lemma {:induction false} LastOccurrence(prefix: string, c: char, rest: string)
    requires c !in rest
    ensures RFind(prefix + [c] + rest, c) == |prefix|
  {
    if rest != [] {
      var s, front := prefix + [c] + rest, rest[..|rest| - 1];
      assert s[|s| - 1] == rest[|rest| - 1];
      assert s[..|s| - 1] == prefix + [c] + front;
      LastOccurrence(prefix, c, front);
    }
  }

  lemma SplitAtLast(p1: string, p2: string, c: char, r1: string, r2: string)
    requires c !in r1 && c !in r2 && p1 + [c] + r1 == p2 + [c] + r2
    ensures p1 == p2 && r1 == r2
  {
    LastOccurrence(p1, c, r1);
    LastOccurrence(p2, c, r2);
    var s := p1 + [c] + r1;
    assert p1 == s[..|p1|] && r1 == s[|p1| + 1..];
    assert p2 == s[..|p2|] && r2 == s[|p2| + 1..];
  }

  predicate EndsWith(s: string, suffix: string) {
    |suffix| <= |s| && s[|s| - |suffix|..] == suffix
  }

  predicate StartsWith(s: string, prefix: string) {
    prefix <= s
  }
}
