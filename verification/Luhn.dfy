/** The Luhn check digit of payment cards, for digit strings of any length. */
module Luhn {

  predicate Digit(c: char) { '0' <= c <= '9' }

  predicate Digits(s: string) { forall k | 0 <= k < |s| :: Digit(s[k]) }

  function Value(c: char): nat
    requires Digit(c)
  {
    c as int - '0' as int
  }

  function DigitOf(v: nat): (c: char)
    requires v < 10
    ensures Digit(c) && Value(c) == v
  {
    ('0' as int + v) as char
  }

  /** A digit's share: doubled digits have their own two digits added up. */
  function Share(v: nat, doubled: bool): nat {
    if !doubled then v else if 2 * v > 9 then 2 * v - 9 else 2 * v
  }

  /** The shares from the right; every second one is doubled, starting with the last if `doubled`. */
  function Sum(s: string, doubled: bool): nat
    requires Digits(s)
    decreases |s|
  {
    if s == "" then 0
    else
      var n := |s| - 1;
      assert Digits(s[..n]);
      Share(Value(s[n]), doubled) + Sum(s[..n], !doubled)
  }

  /** Standard Luhn, for strings as long as card numbers. */
  method LuhnValid(digits: string) returns (ok: bool)
    ensures ok <==> digits != "" && Digits(digits) && 13 <= |digits| <= 19 && Sum(digits, false) % 10 == 0
  {
    if digits == "" || !Digits(digits) || !(13 <= |digits| <= 19) {
      return false;
    }
    hide Sum;
    var total := 0;
    var index := 0;
    assert digits[..|digits|] == digits;
    while index < |digits|
      invariant 0 <= index <= |digits| && Digits(digits)
      invariant total + Sum(digits[..|digits| - index], index % 2 == 1) == Sum(digits, false)
    {
      SumLast(digits, |digits| - index, index % 2 == 1);
      var value := Value(digits[|digits| - 1 - index]);
      if index % 2 == 1 {
        value := value * 2;
        if value > 9 {
          value := value - 9;
        }
      }
      total := total + value;
      index := index + 1;
    }
    SumNothing(digits[..0], index % 2 == 1);
    ok := total % 10 == 0;
  }

  lemma SumNothing(s: string, doubled: bool)
    requires s == ""
    ensures Sum(s, doubled) == 0
  {
  }

  lemma SumLast(s: string, n: nat, doubled: bool)
    requires 0 < n <= |s| && Digits(s)
    ensures Sum(s[..n], doubled) == Share(Value(s[n - 1]), doubled) + Sum(s[..n - 1], !doubled)
  {
    assert s[..n][..n - 1] == s[..n - 1];
  }

  function Padded(prefix: string, n: nat): (body: string)
    ensures |body| == n
  {
    if |prefix| >= n then prefix[..n] else prefix + seq(n - |prefix|, _ => '4')
  }

  /** Builds a card number of the given length with the right check digit. */
  method LuhnCard(prefix: string, length: nat) returns (card: string)
    requires Digits(prefix) && length >= 1
    ensures |card| == length && Digits(card) && Sum(card, false) % 10 == 0
    ensures |prefix| < length ==> prefix <= card
  {
    hide Sum;
    var body := Padded(prefix, length - 1);
    assert Digits(body);
    var total := 0;
    var index := 0;
    assert body[..|body|] == body;
    while index < |body|
      invariant 0 <= index <= |body| && Digits(body)
      invariant total + Sum(body[..|body| - index], index % 2 == 0) == Sum(body, true)
    {
      SumLast(body, |body| - index, index % 2 == 0);
      var value := Value(body[|body| - 1 - index]);
      if index % 2 == 0 {
        value := value * 2;
        if value > 9 {
          value := value - 9;
        }
      }
      total := total + value;
      index := index + 1;
    }
    SumNothing(body[..0], index % 2 == 0);
    var check := (10 - total % 10) % 10;
    card := body + [DigitOf(check)];
    CheckDigit(total);
    Appended(body, check);
  }

  lemma Appended(body: string, check: nat)
    requires Digits(body) && check < 10
    ensures var card := body + [DigitOf(check)];
            Digits(card) && Sum(card, false) == check + Sum(body, true)
  {
    var card := body + [DigitOf(check)];
    assert card[..|card| - 1] == body;
  }

  lemma CheckDigit(total: nat)
    ensures ((10 - total % 10) % 10 + total) % 10 == 0
  {
  }

  // ---------- What the check digit catches ----------

  /** Replacing one digit moves the sum by the difference of the two shares. */
  lemma {:induction false} SumReplaced(s: string, i: nat, c: char, doubled: bool)
    requires Digits(s) && i < |s| && Digit(c)
    ensures Digits(s[i := c])
    ensures var twice := doubled == ((|s| - 1 - i) % 2 == 0);
            Sum(s[i := c], doubled) + Share(Value(s[i]), twice) == Sum(s, doubled) + Share(Value(c), twice)
    decreases |s|
  {
    var n := |s| - 1;
    var t := s[i := c];
    if i == n {
      assert t[..n] == s[..n];
    } else {
      assert t[..n] == s[..n][i := c];
      SumReplaced(s[..n], i, c, !doubled);
    }
  }

  /** Both kinds of share tell any two digits apart modulo ten. */
  lemma SharesDiffer(a: nat, b: nat, doubled: bool)
    requires a < 10 && b < 10
    ensures Share(a, doubled) % 10 == Share(b, doubled) % 10 <==> a == b
  {
  }

  /** No single wrong digit goes unnoticed, whatever the length. */
  lemma SingleErrorDetected(s: string, i: nat, c: char)
    requires Digits(s) && i < |s| && Digit(c) && c != s[i]
    requires Sum(s, false) % 10 == 0
    ensures Digits(s[i := c]) && Sum(s[i := c], false) % 10 != 0
  {
    SumReplaced(s, i, c, false);
    var twice := (|s| - 1 - i) % 2 != 0;
    SharesDiffer(Value(s[i]), Value(c), twice);
    Modular(Sum(s, false), Sum(s[i := c], false), Share(Value(s[i]), twice), Share(Value(c), twice));
  }

  lemma Modular(x: nat, y: nat, a: nat, b: nat)
    requires y + a == x + b
    ensures x % 10 == y % 10 <==> a % 10 == b % 10
  {
  }

  function Swapped(s: string, i: nat): string
    requires i + 1 < |s|
  {
    s[i := s[i + 1]][i + 1 := s[i]]
  }

  lemma SumSwapped(s: string, i: nat)
    requires Digits(s) && i + 1 < |s|
    ensures Digits(Swapped(s, i))
    ensures var a, b := Value(s[i]), Value(s[i + 1]);
            var twice := (|s| - 1 - i) % 2 != 0;
            Sum(Swapped(s, i), false) + (Share(a, twice) + Share(b, !twice))
            == Sum(s, false) + (Share(b, twice) + Share(a, !twice))
  {
    hide Sum, Share;
    var once := s[i := s[i + 1]];
    SumReplaced(s, i, s[i + 1], false);
    SumReplaced(once, i + 1, s[i], false);
  }

  /** A swap of neighbours is caught unless the two are equal or are 0 and 9. */
  lemma TranspositionDetected(s: string, i: nat)
    requires Digits(s) && i + 1 < |s| && Sum(s, false) % 10 == 0
    ensures Digits(Swapped(s, i))
    ensures Sum(Swapped(s, i), false) % 10 == 0 <==>
            s[i] == s[i + 1] || {s[i], s[i + 1]} == {'0', '9'}
  {
    hide Sum, Share;
    var a, b := Value(s[i]), Value(s[i + 1]);
    var twice := (|s| - 1 - i) % 2 != 0;
    SumSwapped(s, i);
    SwapShares(a, b, twice);
    Modular(Sum(s, false), Sum(Swapped(s, i), false),
            Share(a, twice) + Share(b, !twice), Share(b, twice) + Share(a, !twice));
    NinesAndZeros(s[i], s[i + 1]);
  }

  lemma SwapShares(a: nat, b: nat, twice: bool)
    requires a < 10 && b < 10
    ensures (Share(a, twice) + Share(b, !twice)) % 10 == (Share(b, twice) + Share(a, !twice)) % 10
            <==> a == b || (a == 0 && b == 9) || (a == 9 && b == 0)
  {
    assert a in {0, 1, 2, 3, 4, 5, 6, 7, 8, 9};
    assert b in {0, 1, 2, 3, 4, 5, 6, 7, 8, 9};
  }

  lemma NinesAndZeros(c: char, d: char)
    requires Digit(c) && Digit(d)
    ensures {c, d} == {'0', '9'} <==> (c == '0' && d == '9') || (c == '9' && d == '0')
  {
    if {c, d} == {'0', '9'} {
      assert '0' in {c, d} && '9' in {c, d};
      assert c in {'0', '9'};
    }
  }
}
