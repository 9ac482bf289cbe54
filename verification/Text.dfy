/** Strings as the source handles them: decimal numerals and unambiguous cutting points. */
module Text {

  predicate IsDigit(c: char) {
    '0' <= c <= '9'
  }

  predicate AllDigits(s: string) {
    forall i :: 0 <= i < |s| ==> IsDigit(s[i])
  }

  /** The texts matched by /^\d+$/. */
  predicate IsNumeral(s: string) {
    s != "" && AllDigits(s)
  }

  function DigitChar(d: nat): (c: char)
    requires d < 10
    ensures IsDigit(c)
  {
    ('0' as int + d) as char
  }

  function DigitValue(c: char): (d: nat)
    requires IsDigit(c)
    ensures d < 10
  {
    c as int - '0' as int
  }

  /** What toString() and template literals print for a non-negative integer. */
  function NatToString(n: nat): (s: string)
    ensures IsNumeral(s)
  {
    if n < 10 then [DigitChar(n)] else NatToString(n / 10) + [DigitChar(n % 10)]
  }

  function ParseNat(s: string): nat
    requires AllDigits(s)
  {
    if s == "" then 0 else ParseNat(s[..|s| - 1]) * 10 + DigitValue(s[|s| - 1])
  }

  lemma {:induction false} ParseNatToString(n: nat)
    ensures ParseNat(NatToString(n)) == n
  {
    if n >= 10 {
      ParseNatToString(n / 10);
      var s := NatToString(n);
      assert s[..|s| - 1] == NatToString(n / 10);
    } else {
      var s := NatToString(n);
      assert s[..|s| - 1] == "";
    }
  }

  lemma NatToStringInjective(m: nat, n: nat)
    requires NatToString(m) == NatToString(n)
    ensures m == n
  {
    ParseNatToString(m);
    ParseNatToString(n);
  }

  /** toString() of a bigint. */
  function IntToString(i: int): (s: string)
    ensures s != ""
  {
    if i < 0 then "-" + NatToString(-i) else NatToString(i)
  }

  predicate IsIntText(s: string) {
    IsNumeral(s) || (|s| > 0 && s[0] == '-' && IsNumeral(s[1..]))
  }

  /** BigInt(text) for the texts IntToString produces. */
  function ParseInt(s: string): int
    requires IsIntText(s)
  {
    if IsNumeral(s) then ParseNat(s) as int else -(ParseNat(s[1..]) as int)
  }

  lemma ParseIntToString(i: int)
    ensures IsIntText(IntToString(i))
    ensures ParseInt(IntToString(i)) == i
    ensures IsNumeral(IntToString(i)) <==> i >= 0
  {
    if i < 0 {
      ParseNatToString(-i);
      var s := IntToString(i);
      assert s[1..] == NatToString(-i);
      assert !IsDigit(s[0]);
    } else {
      ParseNatToString(i);
    }
  }

  // ---------- the one way to write a number ----------

  /** A numeral without superfluous zeros in front. */
  predicate Canonical(s: string) {
    IsNumeral(s) && (s[0] == '0' ==> s == "0")
  }

  /** A canonical numeral, or a minus sign and one that is not zero. */
  predicate CanonicalInt(s: string) {
    Canonical(s) || (|s| > 1 && s[0] == '-' && Canonical(s[1..]) && s[1..] != "0")
  }

  lemma ParseNatBounds(s: string)
    requires Canonical(s)
    ensures |s| > 1 ==> Canonical(s[..|s| - 1]) && s[..|s| - 1] != "0"
    ensures |s| == 1 ==> ParseNat(s) == DigitValue(s[0])
  {
    assert |s| > 1 ==> s[..|s| - 1][0] == s[0];
  }

  lemma {:induction false} ParseNatPositive(s: string)
    requires Canonical(s) && s != "0"
    ensures ParseNat(s) > 0
  {
    ParseNatBounds(s);
    if |s| > 1 {
      ParseNatPositive(s[..|s| - 1]);
    } else {
      assert s == [s[0]];
    }
  }

  lemma {:induction false} PrintParsed(s: string)
    requires Canonical(s)
    ensures NatToString(ParseNat(s)) == s
  {
    ParseNatBounds(s);
    if |s| > 1 {
      var front := s[..|s| - 1];
      PrintParsed(front);
      ParseNatPositive(front);
      assert s == front + [s[|s| - 1]];
    } else {
      assert s == [s[0]];
    }
  }

  lemma {:induction false} NatToStringCanonical(n: nat)
    ensures Canonical(NatToString(n))
    ensures NatToString(n) == "0" <==> n == 0
  {
    if n >= 10 {
      NatToStringCanonical(n / 10);
      assert NatToString(n)[0] == NatToString(n / 10)[0];
    }
  }

  /** A text prints the number n if and only if it is canonical and reads as n. */
  lemma NatTextExact(s: string, n: nat)
    ensures s == NatToString(n) <==> Canonical(s) && ParseNat(s) == n
  {
    NatToStringCanonical(n);
    ParseNatToString(n);
    if Canonical(s) && ParseNat(s) == n {
      PrintParsed(s);
    }
  }

  /** The same for integers: there is exactly one canonical text for each. */
  lemma IntTextExact(s: string, i: int)
    ensures CanonicalInt(s) ==> IsIntText(s)
    ensures s == IntToString(i) <==> CanonicalInt(s) && ParseInt(s) == i
  {
    ParseIntToString(i);
    if i >= 0 {
      NatTextExact(s, i);
    } else {
      NatTextExact(IntToString(i)[1..], -i);
      NatToStringCanonical(-i);
    }
    if CanonicalInt(s) && !Canonical(s) {
      ParseNatPositive(s[1..]);
      NatTextExact(s[1..], ParseNat(s[1..]));
      assert s == "-" + s[1..] && !IsDigit(s[0]);
    }
  }

  /** No character of s is one of the given stops. */
  predicate FreeOf(s: string, stops: set<char>) {
    forall i :: 0 <= i < |s| ==> s[i] !in stops
  }

  /** s is over, or continues with one of the given stops. */
  predicate CutAt(s: string, stops: set<char>) {
    s == "" || s[0] in stops
  }

  /** A text splits in only one way into a part without stops and a rest that starts at a stop. */
  lemma CutUnique(a: string, s: string, b: string, t: string, stops: set<char>)
    requires FreeOf(a, stops) && FreeOf(b, stops)
    requires CutAt(s, stops) && CutAt(t, stops)
    requires a + s == b + t
    ensures a == b && s == t
  {
    var whole := a + s;
    assert whole == b + t;
    assert s != "" ==> whole[|a|] == s[0];
    assert t != "" ==> whole[|b|] == t[0];
    assert forall i :: 0 <= i < |a| ==> whole[i] == a[i];
    assert forall i :: 0 <= i < |b| ==> whole[i] == b[i];
    assert |a| == |b|;
    assert a == whole[..|a|] && b == whole[..|a|];
    assert s == whole[|a|..] && t == whole[|a|..];
  }

  lemma DropPrefix(p: string, a: string, b: string)
    requires p + a == p + b
    ensures a == b
  {
    assert a == (p + a)[|p|..] == (p + b)[|p|..] == b;
  }

  lemma NumeralFreeOf(n: nat, stops: set<char>)
    requires forall c :: c in stops ==> !IsDigit(c)
    ensures FreeOf(NatToString(n), stops)
  {
  }

  /** s.split(sep) for a one-character separator. */
  function Split(s: string, sep: char): (parts: seq<string>)
    ensures parts != [] && FreeOf(parts[0], {sep})
  {
    if s == "" then [""] else
    var rest := Split(s[1..], sep);
    if s[0] == sep then [""] + rest else [[s[0]] + rest[0]] + rest[1..]
  }

  lemma {:induction false} SplitFirst(a: string, sep: char, b: string)
    requires FreeOf(a, {sep})
    ensures Split(a + [sep] + b, sep) == [a] + Split(b, sep)
  {
    var s := a + [sep] + b;
    if a == "" {
      assert s[1..] == b;
    } else {
      assert s[1..] == a[1..] + [sep] + b;
      assert FreeOf(a[1..], {sep});
      SplitFirst(a[1..], sep, b);
      assert [a[0]] + a[1..] == a;
    }
  }

  lemma {:induction false} SplitWhole(a: string, sep: char)
    requires FreeOf(a, {sep})
    ensures Split(a, sep) == [a]
  {
    if a != "" {
      assert FreeOf(a[1..], {sep});
      SplitWhole(a[1..], sep);
      assert [a[0]] + a[1..] == a;
    }
  }
}
