/** The IBAN check: letters as two digits, one big number, remainder 1 modulo 97. Strings are ASCII. */
module Iban {
  import opened Text
  import opened Tokens
  import opened Luhn

  predicate Lower(c: char) { 'a' <= c <= 'z' }

  predicate Letter(c: char) { 'A' <= c <= 'Z' }

  function Raise(c: char): char { if Lower(c) then (c as int - 'a' as int + 'A' as int) as char else c }

  /** s.replace(" ", "").upper() */
  function Compact(s: string): string {
    if s == "" then "" else (if s[0] == ' ' then "" else [Raise(s[0])]) + Compact(s[1..])
  }

  predicate Alphanumeric(s: string) { forall k | 0 <= k < |s| :: Digit(s[k]) || Letter(s[k]) }

  /** What one character contributes: a digit itself, a letter its number from 10 to 35 in two digits. */
  function Expand(c: char): (d: string)
    ensures Digits(d)
  {
    if Digit(c) then [c]
    else if Letter(c) then
      var v := c as int - 'A' as int + 10;
      [DigitOf(v / 10), DigitOf(v % 10)]
    else ""
  }

  function Expanded(s: string): (d: string)
    ensures Digits(d)
  {
    if s == "" then "" else Expand(s[0]) + Expanded(s[1..])
  }

  /** int(digits) */
  function Number(digits: string): nat
    requires Digits(digits)
    decreases |digits|
  {
    if digits == "" then 0
    else
      var n := |digits| - 1;
      10 * Number(digits[..n]) + Value(digits[n])
  }

  function Rearranged(candidate: string): string
    requires |candidate| >= 4
  {
    candidate[4..] + candidate[..4]
  }

  /** Python refuses to read a longer decimal string as one integer. */
  const LONGEST_INTEGER := 4300

  predicate Shape(candidate: string) {
    && |candidate| >= 15
    && Letter(candidate[0]) && Letter(candidate[1]) && Digit(candidate[2]) && Digit(candidate[3])
  }

  predicate Valid(iban: string) {
    var candidate := Compact(iban);
    && Shape(candidate) && Alphanumeric(candidate)
    && var digits := Expanded(Rearranged(candidate));
    && |digits| <= LONGEST_INTEGER && Number(digits) % 97 == 1
  }

  lemma {:induction false} ExpandedAppend(a: string, b: string)
    ensures Expanded(a + b) == Expanded(a) + Expanded(b)
  {
    hide Expand;
    if a == "" {
      assert a + b == b;
    } else {
      assert (a + b)[1..] == a[1..] + b && (a + b)[0] == a[0];
      ExpandedAppend(a[1..], b);
    }
  }

  method IbanValid(iban: string) returns (ok: bool)
    ensures ok <==> Valid(iban)
  {
    hide Expanded, Expand, Number, Compact, Alphanumeric;
    var candidate := Compact(iban);
    if !Shape(candidate) {
      return false;
    }
    var rearranged := Rearranged(candidate);
    RearrangedSame(candidate);
    var digits := "";
    var i := 0;
    NoneExpanded(rearranged);
    while i < |rearranged|
      invariant 0 <= i <= |rearranged|
      invariant digits == Expanded(rearranged[..i]) && Alphanumeric(rearranged[..i])
    {
      OneMore(rearranged, i);
      if !Digit(rearranged[i]) && !Letter(rearranged[i]) {
        return false;
      }
      digits := digits + Expand(rearranged[i]);
      i := i + 1;
    }
    assert rearranged[..i] == rearranged;
    return |digits| <= LONGEST_INTEGER && Number(digits) % 97 == 1;
  }

  lemma NoneExpanded(s: string)
    ensures Expanded(s[..0]) == "" && Alphanumeric(s[..0])
  {
  }

  lemma OneMore(s: string, i: nat)
    requires i < |s| && Alphanumeric(s[..i])
    ensures Expanded(s[..i + 1]) == Expanded(s[..i]) + Expand(s[i])
    ensures Alphanumeric(s[..i + 1]) <==> Digit(s[i]) || Letter(s[i])
    ensures Alphanumeric(s) ==> Digit(s[i]) || Letter(s[i])
  {
    hide Expand, Expanded;
    assert s[..i + 1][..i] == s[..i];
    ExpandedLast(s[..i + 1]);
    assert forall k | 0 <= k < i :: s[..i + 1][k] == s[..i][k];
    assert s[..i + 1][i] == s[i];
  }

  lemma RearrangedSame(candidate: string)
    requires |candidate| >= 4
    ensures Alphanumeric(Rearranged(candidate)) <==> Alphanumeric(candidate)
  {
    var r := Rearranged(candidate);
    var n := |candidate| - 4;
    assert forall k | 0 <= k < |candidate| :: candidate[k] == if k < 4 then r[n + k] else r[k - 4];
    assert forall k | 0 <= k < |r| :: r[k] == if k < n then candidate[k + 4] else candidate[k - n];
  }

  // ---------- The alphabet ----------

  /** The three kinds of characters, the number each stands for, and what raising changes. */
  lemma LettersExactly(c: char)
    ensures Letter(c) <==> c in "ABCDEFGHIJKLMNOPQRSTUVWXYZ"
  {
    assert Letter(c) ==> c == "ABCDEFGHIJKLMNOPQRSTUVWXYZ"[c as int - 65];
  }

  lemma LowersExactly(c: char)
    ensures Lower(c) <==> c in "abcdefghijklmnopqrstuvwxyz"
    ensures !Lower(c) ==> Raise(c) == c
  {
    assert Lower(c) ==> c == "abcdefghijklmnopqrstuvwxyz"[c as int - 97];
  }

  lemma DigitsExactly(c: char)
    ensures Digit(c) <==> c in "0123456789"
  {
    assert Digit(c) ==> c == "0123456789"[c as int - 48];
  }

  lemma NumbersExactly(k: nat)
    requires k < 26
    ensures var upper, lower := "ABCDEFGHIJKLMNOPQRSTUVWXYZ"[k], "abcdefghijklmnopqrstuvwxyz"[k];
            Raise(lower) == upper && Letter(upper) && CharValue(upper) == 10 + k
  {
    assert "ABCDEFGHIJKLMNOPQRSTUVWXYZ"[k] as int == 65 + k;
    assert "abcdefghijklmnopqrstuvwxyz"[k] as int == 97 + k;
  }

  // ---------- The remainder, character by character ----------

  /** The value of a character in the number: 0 to 35. */
  function CharValue(c: char): nat
    requires Digit(c) || Letter(c)
  {
    if Digit(c) then Value(c) else c as int - 'A' as int + 10
  }

  /** One more character on the right of a remainder. */
  function Shift(r: nat, c: char): nat
    requires Digit(c) || Letter(c)
  {
    ((if Digit(c) then 10 else 100) * r + CharValue(c)) % 97
  }

  function Remainder(s: string): nat
    requires Alphanumeric(s)
    decreases |s|
  {
    if s == "" then 0 else Shift(Remainder(s[..|s| - 1]), s[|s| - 1])
  }

  lemma {:induction false} NumberAppend(a: string, c: char)
    requires Digits(a) && Digit(c)
    ensures Digits(a + [c]) && Number(a + [c]) == 10 * Number(a) + Value(c)
  {
    assert (a + [c])[..|a|] == a;
  }

  lemma NumberShift(a: string, c: char)
    requires Digits(a) && (Digit(c) || Letter(c))
    ensures Digits(a + Expand(c)) && Number(a + Expand(c)) == (if Digit(c) then 10 else 100) * Number(a) + CharValue(c)
  {
    if Digit(c) {
      NumberAppend(a, c);
    } else {
      var v := CharValue(c);
      var x, y := DigitOf(v / 10), DigitOf(v % 10);
      NumberAppend(a, x);
      NumberAppend(a + [x], y);
      assert a + Expand(c) == a + [x] + [y];
    }
  }

  lemma ShiftMod(n: nat, c: char)
    requires Digit(c) || Letter(c)
    ensures ((if Digit(c) then 10 else 100) * n + CharValue(c)) % 97 == Shift(n % 97, c)
  {
    var q, r := n / 97, n % 97;
    assert n == 97 * q + r;
    if Digit(c) {
      assert 10 * n + CharValue(c) == 97 * (10 * q) + (10 * r + CharValue(c));
      Multiple(10 * q, 10 * r + CharValue(c));
    } else {
      assert 100 * n + CharValue(c) == 97 * (100 * q) + (100 * r + CharValue(c));
      Multiple(100 * q, 100 * r + CharValue(c));
    }
  }

  lemma Multiple(q: nat, x: nat)
    ensures (97 * q + x) % 97 == x % 97
  {
    assert (97 * q + x) / 97 == q + x / 97;
  }

  /** The remainder of the big number is a fold from the left that never needs the big number. */
  lemma {:induction false} RemainderExact(s: string)
    requires Alphanumeric(s)
    ensures Number(Expanded(s)) % 97 == Remainder(s)
    decreases |s|
  {
    if s != "" {
      var n := |s| - 1;
      ExpandedLast(s);
      assert Alphanumeric(s[..n]);
      RemainderExact(s[..n]);
      hide Expand, Shift, CharValue, Expanded, Number;
      NumberShift(Expanded(s[..n]), s[n]);
      ShiftMod(Number(Expanded(s[..n])), s[n]);
    } else {
      assert Number("") == 0;
    }
  }

  lemma ExpandedLast(s: string)
    requires s != ""
    ensures Expanded(s) == Expanded(s[..|s| - 1]) + Expand(s[|s| - 1])
  {
    hide Expand;
    var n := |s| - 1;
    assert s == s[..n] + [s[n]];
    ExpandedAppend(s[..n], [s[n]]);
    assert [s[n]][1..] == "" && Expanded("") == "";
    assert Expand(s[n]) + "" == Expand(s[n]);
  }

  // ---------- What the check catches ----------

  /** Shifting is one to one in the remainder: 97 is prime to ten. */
  lemma ShiftInjective(r: nat, t: nat, c: char)
    requires (Digit(c) || Letter(c)) && r < 97 && t < 97 && Shift(r, c) == Shift(t, c)
    ensures r == t
  {
    if Digit(c) {
      CancelsTen(r, t, CharValue(c));
    } else {
      CancelsHundred(r, t, CharValue(c));
    }
  }

  /** 68 is the inverse of 10 modulo 97. */
  lemma CancelsTen(r: nat, t: nat, v: nat)
    requires r < 97 && t < 97 && (10 * r + v) % 97 == (10 * t + v) % 97
    ensures r == t
  {
    var x, y := (10 * r + v) / 97, (10 * t + v) / 97;
    assert r - t == 97 * (68 * (x - y) - 7 * (r - t));
  }

  /** 65 is the inverse of 100 modulo 97. */
  lemma CancelsHundred(r: nat, t: nat, v: nat)
    requires r < 97 && t < 97 && (100 * r + v) % 97 == (100 * t + v) % 97
    ensures r == t
  {
    var x, y := (100 * r + v) / 97, (100 * t + v) / 97;
    assert r - t == 97 * (65 * (x - y) - 67 * (r - t));
  }

  predicate SameClass(c: char, d: char) { (Digit(c) && Digit(d)) || (Letter(c) && Letter(d)) }

  lemma ShiftTells(r: nat, c: char, d: char)
    requires SameClass(c, d) && r < 97 && c != d
    ensures Shift(r, c) != Shift(r, d)
  {
    var m := if Digit(c) then 10 else 100;
    Tells(m * r, CharValue(c), CharValue(d));
  }

  lemma Tells(base: nat, v: nat, w: nat)
    requires v < 97 && w < 97 && v != w
    ensures (base + v) % 97 != (base + w) % 97
  {
    assert base + v - (base + w) == v - w;
  }

  /** Changing one character for another of its class always changes the remainder. */
  lemma {:induction false} RemainderTells(s: string, i: nat, c: char)
    requires Alphanumeric(s) && i < |s| && SameClass(s[i], c) && c != s[i]
    ensures Alphanumeric(s[i := c]) && Remainder(s[i := c]) != Remainder(s)
    decreases |s|
  {
    hide Shift;
    var n := |s| - 1;
    var t := s[i := c];
    RemainderSmall(s[..n]);
    if i == n {
      assert t[..n] == s[..n];
      ShiftTells(Remainder(s[..n]), s[n], c);
    } else {
      assert t[..n] == s[..n][i := c];
      RemainderTells(s[..n], i, c);
      RemainderSmall(t[..n]);
      if Remainder(t) == Remainder(s) {
        ShiftInjective(Remainder(s[..n]), Remainder(t[..n]), s[n]);
      }
    }
  }

  lemma RemainderSmall(s: string)
    requires Alphanumeric(s)
    ensures Remainder(s) < 97
  {
  }

  function Kept(c: char): string { if c == ' ' then "" else [Raise(c)] }

  lemma {:induction false} CompactAppend(a: string, b: string)
    ensures Compact(a + b) == Compact(a) + Compact(b)
  {
    hide Raise;
    if a == "" {
      assert a + b == b;
    } else {
      CompactAppend(a[1..], b);
      assert (a + b)[1..] == a[1..] + b && (a + b)[0] == a[0];
      CompactHead(a);
      CompactHead(a + b);
      hide Compact, Kept;
      Associate(Kept(a[0]), Compact(a[1..]), Compact(b));
    }
  }

  lemma CompactHead(s: string)
    requires s != ""
    ensures Compact(s) == Kept(s[0]) + Compact(s[1..])
  {
    hide Raise;
  }

  /** Where a character that is not a space ends up. */
  lemma CompactAt(s: string, i: nat, c: char)
    requires i < |s| && s[i] != ' ' && c != ' '
    ensures var j := |Compact(s[..i])|;
            j < |Compact(s)| && Compact(s)[j] == Raise(s[i]) && Compact(s[i := c]) == Compact(s)[j := Raise(c)]
  {
    hide Raise;
    var before, after := s[..i], s[i + 1..];
    assert s == before + ([s[i]] + after) && s[i := c] == before + ([c] + after);
    CompactAppend(before, [s[i]] + after);
    CompactAppend(before, [c] + after);
    assert ([s[i]] + after)[1..] == after && ([c] + after)[1..] == after;
  }

  lemma CompactTwice(s: string)
    ensures Compact(Compact(s)) == Compact(s) && (Valid(Compact(s)) <==> Valid(s))
  {
    CompactSmaller(s);
    CompactIs(Compact(s));
    hide Compact, Expanded, Number;
  }

  /** Any single error that exchanges a digit or a letter, in either case, for another one is caught, with or without
      spaces between the groups. */
  lemma ErrorDetected(candidate: string, i: nat, c: char)
    requires Valid(candidate) && i < |candidate|
    requires var x, y := Raise(candidate[i]), Raise(c);
             x != y && ((Letter(x) && Letter(y)) || (Digit(x) && Digit(y)))
    ensures !Valid(candidate[i := c])
  {
    var compact, j := Compact(candidate), |Compact(candidate[..i])|;
    CompactTwice(candidate);
    CompactTwice(candidate[i := c]);
    CompactAt(candidate, i, c);
    hide Compact, Valid;
    CompactErrorDetected(compact, j, Raise(c));
  }

  lemma CompactErrorDetected(candidate: string, i: nat, c: char)
    requires Compact(candidate) == candidate && Valid(candidate) && i < |candidate|
    requires SameClass(candidate[i], c) && c != candidate[i]
    ensures !Valid(candidate[i := c])
  {
    var wrong := candidate[i := c];
    var n := |candidate| - 4;
    CompactAgain(candidate, i, c);
    var at := if i < 4 then n + i else i - 4;
    assert Rearranged(wrong) == Rearranged(candidate)[at := c];
    RearrangedSame(candidate);
    RearrangedSame(wrong);
    RemainderTells(Rearranged(candidate), at, c);
    RemainderExact(Rearranged(candidate));
    RemainderExact(Rearranged(wrong));
    hide Compact, Expanded, Number, Remainder;
  }

  lemma {:induction false} CompactIs(s: string)
    requires forall k | 0 <= k < |s| :: s[k] != ' ' && !Lower(s[k])
    ensures Compact(s) == s
  {
    if s != "" {
      CompactIs(s[1..]);
    }
  }

  lemma {:induction false} CompactSmaller(s: string)
    ensures |Compact(s)| <= |s|
    ensures forall k | 0 <= k < |Compact(s)| :: Compact(s)[k] != ' ' && !Lower(Compact(s)[k])
  {
    if s != "" {
      CompactSmaller(s[1..]);
    }
  }

  lemma CompactAgain(s: string, i: nat, c: char)
    requires Compact(s) == s && i < |s| && (Digit(c) || Letter(c))
    ensures Compact(s[i := c]) == s[i := c]
  {
    CompactSmaller(s);
    CompactIs(s[i := c]);
  }

  // ---------- Generating ----------

  function TwoDigits(n: nat): (s: string)
    requires n < 100
    ensures Digits(s) && |s| == 2
  {
    [DigitOf(n / 10), DigitOf(n % 10)]
  }

  function Raised(s: string): (r: string)
    ensures |r| == |s| && forall k | 0 <= k < |s| :: r[k] == Raise(s[k])
  {
    seq(|s|, k requires 0 <= k < |s| => Raise(s[k]))
  }

  /** Check digits that make the remainder 1. */
  function Build(country: string, bban: string): string {
    var check := 98 - Number(Expanded(Raised(bban + country + "00"))) % 97;
    country + TwoDigits(check) + bban
  }

  lemma NumberTwo(a: string, n: nat)
    requires Digits(a) && n < 100
    ensures Digits(a + TwoDigits(n)) && Number(a + TwoDigits(n)) == 100 * Number(a) + n
  {
    var x, y := DigitOf(n / 10), DigitOf(n % 10);
    NumberAppend(a, x);
    NumberAppend(a + [x], y);
    assert a + TwoDigits(n) == a + [x] + [y];
  }

  lemma CheckMakesOne(n: nat)
    ensures (100 * n + (98 - (100 * n) % 97)) % 97 == 1
  {
    var m := 100 * n;
    assert m == 97 * (m / 97) + m % 97;
    Multiple(m / 97 + 1, 1);
    assert m + (98 - m % 97) == 97 * (m / 97 + 1) + 1;
  }

  predicate PlainCode(s: string) { forall k | 0 <= k < |s| :: Digit(s[k]) || Letter(s[k]) || Lower(s[k]) }

  /** Every IBAN built this way validates if it is not too short, as long as its number can be read at all. */
  lemma BuiltIsValid(country: string, bban: string)
    requires |country| == 2 && PlainCode(country) && PlainCode(bban)
    requires !Digit(country[0]) && !Digit(country[1])
    requires |Expanded(Raised(bban + country + "00"))| <= LONGEST_INTEGER
    ensures Valid(Build(country, bban)) <==> |bban| >= 11
  {
    hide Expanded, Number, Compact, Raise;
    var head := Raised(bban + country);
    var base := Expanded(head);
    var check := 98 - Number(Expanded(Raised(bban + country + "00"))) % 97;
    BaseNumber(bban + country);
    var built := Build(country, bban);
    BuiltShape(country, bban, check);
    CompactRaises(built);
    ExpandedAppend(head, TwoDigits(check));
    ExpandDigits(TwoDigits(check));
    NumberTwo(base, check);
    CheckMakesOne(Number(base));
  }

  lemma BaseNumber(code: string)
    ensures Number(Expanded(Raised(code + "00"))) == 100 * Number(Expanded(Raised(code)))
    ensures |Expanded(Raised(code + "00"))| == |Expanded(Raised(code))| + 2
  {
    hide Number, Expanded;
    assert Raise('0') == '0';
    assert Raised(code + "00") == Raised(code) + "00";
    ExpandedAppend(Raised(code), "00");
    ExpandDigits("00");
    assert "00" == TwoDigits(0);
    NumberTwo(Expanded(Raised(code)), 0);
  }

  /** Upper-cased and turned round, the built IBAN is the code followed by its check digits. */
  lemma BuiltShape(country: string, bban: string, check: nat)
    requires |country| == 2 && PlainCode(country) && PlainCode(bban) && check < 100
    requires !Digit(country[0]) && !Digit(country[1])
    ensures var built := country + TwoDigits(check) + bban;
            var candidate := Raised(built);
            && PlainCode(built) && (Shape(candidate) <==> |bban| >= 11) && Alphanumeric(candidate)
            && Rearranged(candidate) == Raised(bban + country) + TwoDigits(check)
  {
    var built := country + TwoDigits(check) + bban;
    var candidate := Raised(built);
    assert Raised(TwoDigits(check)) == TwoDigits(check);
    assert candidate[4..] == Raised(bban);
    assert candidate[..4] == Raised(country) + TwoDigits(check);
    assert Raised(bban + country) == Raised(bban) + Raised(country);
  }

  lemma ExpandDigits(s: string)
    requires Digits(s) && |s| == 2
    ensures Expanded(s) == s
  {
    assert s[1..][1..] == "" && Expanded("") == "";
    assert Expanded(s[1..]) == [s[1]] + Expanded(s[1..][1..]);
    assert s == [s[0]] + ([s[1]] + "");
  }

  lemma {:induction false} CompactRaises(s: string)
    requires PlainCode(s)
    ensures Compact(s) == Raised(s)
  {
    if s != "" {
      CompactRaises(s[1..]);
      assert Raised(s) == [Raise(s[0])] + Raised(s[1..]);
    }
  }

  // ---------- Trimming a greedy match ----------

  /** A place where a group ends. */
  predicate Boundary(candidate: string, end: nat) {
    1 <= end <= |candidate| && (end == |candidate| || candidate[end] == ' ')
  }

  /** The prefix up to `end` is whole groups and validates; no longer such prefix does. */
  ghost predicate Longest(candidate: string, end: nat) {
    && Boundary(candidate, end) && Valid(candidate[..end])
    && forall longer: nat | Boundary(candidate, longer) && longer > end :: !Valid(candidate[..longer])
  }

  /** The longest prefix that ends with a group and validates. */
  method LongestValid(candidate: string) returns (r: Option<string>)
    ensures r.None? ==> forall end: nat | Boundary(candidate, end) :: !Valid(candidate[..end])
    ensures r.Some? ==>
              exists end: nat :: Boundary(candidate, end) && r.value == candidate[..end] && Valid(r.value)
                && forall longer: nat | Boundary(candidate, longer) && end < longer :: !Valid(candidate[..longer])
  {
    hide Valid;
    var end := |candidate|;
    while end >= 1
      invariant 0 <= end <= |candidate|
      invariant forall longer: nat | Boundary(candidate, longer) && longer > end :: !Valid(candidate[..longer])
    {
      if end == |candidate| || candidate[end] == ' ' {
        var ok := IbanValid(candidate[..end]);
        if ok {
          assert Longest(candidate, end);
          return Some(candidate[..end]);
        }
      }
      end := end - 1;
    }
    return None;
  }
}
