/** Decimal digits, fixed-width and shortest decimal rendering of naturals,
    and the substring test that `str::contains` performs. */
module Text {

  predicate IsDigit(c: char) {
    '0' <= c <= '9'
  }

  predicate AllDigits(s: string) {
    forall i :: 0 <= i < |s| ==> IsDigit(s[i])
  }

  function DigitValue(c: char): int
    requires IsDigit(c)
  {
    c as int - '0' as int
  }

  function DigitChar(n: int): (c: char)
    requires 0 <= n < 10
    ensures IsDigit(c) && DigitValue(c) == n
  {
    ('0' as int + n) as char
  }

  function Pow10(n: nat): (p: nat)
    ensures p >= 1
  {
    if n == 0 then 1 else 10 * Pow10(n - 1)
  }

  /** The number a string of decimal digits denotes, most significant first. */
  function Value(s: string): (v: nat)
    requires AllDigits(s)
    ensures v < Pow10(|s|)
  {
    if s == [] then 0 else Value(s[..|s| - 1]) * 10 + DigitValue(s[|s| - 1])
  }

  lemma {:induction false} ValueSnoc(s: string, c: char)
    requires AllDigits(s) && IsDigit(c)
    ensures AllDigits(s + [c]) && Value(s + [c]) == Value(s) * 10 + DigitValue(c)
  {
    assert (s + [c])[..|s|] == s;
  }

  /** `n` written with exactly `width` digits, zero-padded on the left
      (the `%Y`, `%m` and `%d` fields of a date). */
  function Padded(n: nat, width: nat): (s: string)
    requires n < Pow10(width)
    ensures |s| == width && AllDigits(s) && Value(s) == n
  {
    if width == 0 then []
    else
      var s := Padded(n / 10, width - 1) + [DigitChar(n % 10)];
      ValueSnoc(Padded(n / 10, width - 1), DigitChar(n % 10));
      s
  }

  /** Reading a digit string back and padding it to its own width gives the string back. */
  lemma {:induction false} PaddedOfValue(s: string)
    requires AllDigits(s)
    ensures Padded(Value(s), |s|) == s
  {
    if s != [] {
      var init, c := s[..|s| - 1], s[|s| - 1];
      PaddedOfValue(init);
      var v := Value(s);
      assert v == Value(init) * 10 + DigitValue(c);
      assert v / 10 == Value(init) && v % 10 == DigitValue(c) by {
        DivModTen(Value(init), DigitValue(c));
      }
      assert DigitChar(DigitValue(c)) == c;
      assert s == init + [c];
    }
  }

  lemma {:induction false} DivModTen(a: int, b: int)
    requires 0 <= b < 10
    ensures (a * 10 + b) / 10 == a && (a * 10 + b) % 10 == b
  {
  }

  /** The shortest decimal form of `n`, as Rust's `{}` formats an unsigned integer. */
  function Decimal(n: nat): (s: string)
    ensures |s| >= 1 && AllDigits(s) && Value(s) == n
    ensures s[0] == '0' ==> s == "0"
  {
    if n < 10 then [DigitChar(n)]
    else
      var init := Decimal(n / 10);
      ValueSnoc(init, DigitChar(n % 10));
      init + [DigitChar(n % 10)]
  }

  /** `p` occurs in `s` starting at index `i`. */
  predicate OccursAt(s: string, p: string, i: int) {
    0 <= i && i + |p| <= |s| && s[i..i + |p|] == p
  }

  /** `s.contains(p)`: `p` is a substring of `s`. */
  predicate Contains(s: string, p: string) {
    exists i | 0 <= i <= |s| :: OccursAt(s, p, i)
  }

  /** The empty pattern and the string itself occur in every string, and so does any
      piece of a concatenation. */
  lemma {:induction false} ContainsFacts(s: string, p: string, q: string)
    ensures Contains(s, "") && Contains(s, s)
    ensures Contains(p + s + q, s)
  {
    assert OccursAt(s, "", 0);
    assert OccursAt(s, s, 0);
    assert (p + s + q)[|p|..|p| + |s|] == s;
    assert OccursAt(p + s + q, s, |p|);
  }
}
