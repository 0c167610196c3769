// Numbers as text: what printf.c prints and what its width parser reads back.
module Numerals {
  import Bits

  const UINT_SPAN := 0x1_0000_0000
  const INT_LIMIT := 0x8000_0000

  type uint = n: nat | n < UINT_SPAN
  type int32 = n: int | -INT_LIMIT <= n < INT_LIMIT

  // Signed 32-bit arithmetic wraps.
  function Wrap(x: int): int32 {
    (x + INT_LIMIT) % UINT_SPAN - INT_LIMIT
  }

  // ----- Digits -----

  // The digits of num, most significant first, without leading zeros.
  function Digits(num: nat, base: nat): (ds: seq<nat>)
    requires base >= 2
    ensures |ds| > 0
  {
    if num < base then [num] else Quotient(num, base); Digits(num / base, base) + [num % base]
  }

  function Value(ds: seq<nat>, base: nat): nat {
    if ds == [] then 0 else Value(ds[..|ds| - 1], base) * base + ds[|ds| - 1]
  }

  ghost predicate AllBelow(ds: seq<nat>, base: nat) {
    forall k :: 0 <= k < |ds| ==> ds[k] < base
  }

  // ds writes num: digits below the base, no leading zero unless it is the only digit.
  ghost predicate Writes(ds: seq<nat>, num: nat, base: nat) {
    ds != [] && AllBelow(ds, base) && Value(ds, base) == num && (|ds| > 1 ==> ds[0] != 0)
  }

  lemma ValueSnoc(ds: seq<nat>, x: nat, base: nat)
    ensures Value(ds + [x], base) == Value(ds, base) * base + x
  {
    assert (ds + [x])[..|ds|] == ds;
  }

  // The quotient of a number of at least the base.
  lemma Quotient(num: nat, base: nat)
    requires base >= 2 && num >= base
    ensures num == num / base * base + num % base && 1 <= num / base < num && num % base < base
  {
  }

  lemma {:induction false} DigitsWrite(num: nat, base: nat)
    requires base >= 2
    ensures Writes(Digits(num, base), num, base)
    ensures num > 0 ==> Digits(num, base)[0] > 0
  {
    if num < base {
      ValueSnoc([], num, base);
      assert [] + [num] == [num];
    } else {
      Quotient(num, base);
      var q, r := num / base, num % base;
      assert Digits(num, base) == Digits(q, base) + [r];
      DigitsWrite(q, base);
      ValueSnoc(Digits(q, base), r, base);
      hide Digits, Value;
    }
  }

  lemma {:induction false} LeadingDigitCounts(ds: seq<nat>, base: nat)
    requires ds != [] && ds[0] != 0 && base >= 1
    ensures Value(ds, base) >= 1
  {
    if |ds| > 1 {
      LeadingDigitCounts(ds[..|ds| - 1], base);
      assert Value(ds, base) >= Value(ds[..|ds| - 1], base) * base;
      assert Value(ds[..|ds| - 1], base) * base >= base;
    } else {
      assert ds[..0] == [];
    }
  }

  lemma QuotientUnique(q: nat, r: nat, base: nat)
    requires base > 0 && r < base
    ensures (q * base + r) / base == q && (q * base + r) % base == r
  {
    assert q * base == base * q;
    Bits.RemainderUnique(q * base + r, base, q, r);
  }

  lemma DigitsSnoc(v: nat, last: nat, base: nat)
    requires base >= 2 && v >= 1 && last < base
    ensures Digits(v * base + last, base) == Digits(v, base) + [last]
  {
    assert v * base >= base;
    QuotientUnique(v, last, base);
  }

  lemma OneDigitMore(num: nat, base: nat)
    requires base >= 2 && num >= base
    ensures |Digits(num, base)| == |Digits(num / base, base)| + 1
  {
    Quotient(num, base);
    DigitsSnoc(num / base, num % base, base);
  }

  lemma OneDigit(d: nat, base: nat)
    requires base >= 2 && d < base
    ensures Digits(d, base) == [d] && Value([d], base) == d
  {
    assert [d][..0] == [] && Value([], base) * base == 0;
  }

  // The canonical numeral is the only digit sequence that writes the number.
  lemma {:induction false} NumeralUnique(ds: seq<nat>, num: nat, base: nat)
    requires base >= 2 && Writes(ds, num, base)
    ensures ds == Digits(num, base)
  {
    hide Digits, Value;
    var n := |ds|;
    var init, last := ds[..n - 1], ds[n - 1];
    assert ds == init + [last];
    if n == 1 {
      OneDigit(last, base);
    } else {
      ValueSnoc(init, last, base);
      LeadingDigitCounts(init, base);
      NumeralUnique(init, Value(init, base), base);
      DigitsSnoc(Value(init, base), last, base);
    }
  }

  function Power(base: nat, k: nat): nat {
    if k == 0 then 1 else Power(base, k - 1) * base
  }

  lemma Bigger(q: nat, p: nat, base: nat)
    ensures q >= p ==> q * base >= p * base
  {
  }

  lemma {:induction false} FewDigits(num: nat, base: nat, k: nat)
    requires base >= 2 && k > 0 && num < Power(base, k)
    ensures |Digits(num, base)| <= k
  {
    if num < base {
    } else {
      Quotient(num, base);
      Bigger(num / base, Power(base, k - 1), base);
      OneDigitMore(num, base);
      assert Power(base, k) == Power(base, k - 1) * base;
      hide Digits, Power;
      FewDigits(num / base, base, k - 1);
    }
  }

  // Ten decimal or eight hexadecimal digits are enough for an unsigned int.
  lemma DigitsFit(num: uint)
    ensures |Digits(num, 10)| <= 10 && |Digits(num, 16)| <= 8
  {
    assert Power(10, 2) == 100 && Power(10, 4) == 10_000 && Power(10, 6) == 1_000_000;
    assert Power(10, 8) == 100_000_000 && Power(10, 10) == 10_000_000_000;
    assert Power(16, 2) == 0x100 && Power(16, 4) == 0x1_0000 && Power(16, 6) == 0x100_0000 && Power(16, 8) == UINT_SPAN;
    FewDigits(num, 10, 10);
    FewDigits(num, 16, 8);
  }

  // ----- Text -----

  function Digit(d: nat, upper: bool): char
    requires d < 16
  {
    if d < 10 then '0' + d as char else (if upper then 'A' else 'a') + (d - 10) as char
  }

  function Text(ds: seq<nat>, upper: bool): (s: string)
    requires forall k :: 0 <= k < |ds| ==> ds[k] < 16
    ensures |s| == |ds|
  {
    if ds == [] then [] else Text(ds[..|ds| - 1], upper) + [Digit(ds[|ds| - 1], upper)]
  }

  // What %u, %x and %X print.
  function Unsigned(num: uint, base: nat, upper: bool): (s: string)
    requires base == 10 || base == 16
    ensures 0 < |s| <= 10
  {
    DigitsWrite(num, base);
    DigitsFit(num);
    Text(Digits(num, base), upper)
  }

  // What %d prints.
  function Signed(num: int32): (s: string)
    ensures 0 < |s| <= 11
  {
    if num < 0 then "-" + Unsigned(0 - num, 10, false) else Unsigned(num, 10, false)
  }

  // a2d
  function A2d(ch: char): int {
    if '0' <= ch <= '9' then ch as int - '0' as int
    else if 'a' <= ch <= 'f' then ch as int - 'a' as int + 10
    else if 'A' <= ch <= 'F' then ch as int - 'A' as int + 10
    else -1
  }

  // The test that keeps a2i in its loop: `digit > base` leaves it, so a digit equal to the base stays.
  predicate Accepts(ch: char, base: nat) {
    0 <= A2d(ch) <= base
  }

  // a2i on the characters of s: the number read, and how many of them were taken.
  function A2i(s: string, base: nat, num: int32): (r: (int32, nat))
    ensures r.1 <= |s|
    ensures r.1 < |s| ==> !Accepts(s[r.1], base)
    ensures forall k :: 0 <= k < r.1 ==> Accepts(s[k], base)
  {
    if s == [] || !Accepts(s[0], base) then (num, 0)
    else
      var rest := A2i(s[1..], base, Wrap(num * base + A2d(s[0])));
      (rest.0, rest.1 + 1)
  }

  // A digit is read back as itself.
  lemma DigitRoundTrip(d: nat, upper: bool)
    requires d < 16
    ensures A2d(Digit(d, upper)) == d && Digit(d, upper) != '\0'
  {
  }

  lemma {:induction false} A2iAppend(s: string, t: string, base: nat, num: int32)
    requires forall k :: 0 <= k < |s| ==> Accepts(s[k], base)
    ensures var r := A2i(s, base, num);
      r.1 == |s| && A2i(s + t, base, num) == (A2i(t, base, r.0).0, |s| + A2i(t, base, r.0).1)
  {
    if s == [] {
      assert s + t == t;
    } else {
      assert (s + t)[1..] == s[1..] + t;
      A2iAppend(s[1..], t, base, Wrap(num * base + A2d(s[0])));
    }
  }

  // Wrapped arithmetic gives the one int that equals the result up to multiples of 2^32.
  lemma WrapIsCongruent(x: int)
    ensures (Wrap(x) - x) % 0x1_0000_0000 == 0
  {
  }

  lemma WrapFits(x: nat)
    requires x < INT_LIMIT
    ensures Wrap(x) == x
  {
  }

  lemma ValueGrows(v: nat, last: nat, base: nat)
    requires base >= 1
    ensures v <= v * base + last
  {
  }

  // Reading the printed digits gives their value, as long as it fits in an int.
  lemma {:induction false} A2iReadsDigits(ds: seq<nat>, base: nat, upper: bool)
    requires base == 10 || base == 16
    requires AllBelow(ds, base) && Value(ds, base) < INT_LIMIT
    ensures forall k :: 0 <= k < |Text(ds, upper)| ==> Accepts(Text(ds, upper)[k], base)
    ensures A2i(Text(ds, upper), base, 0) == (Value(ds, base), |ds|)
  {
    hide Wrap, A2d;
    if ds == [] {
    } else {
      var init, last := ds[..|ds| - 1], ds[|ds| - 1];
      ValueGrows(Value(init, base), last, base);
      A2iReadsDigits(init, base, upper);
      var s, c := Text(init, upper), Digit(last, upper);
      DigitRoundTrip(last, upper);
      A2iAppend(s, [c], base, 0);
      assert [c][1..] == [];
      WrapFits(Value(ds, base));
      assert A2i([c], base, Value(init, base)) == (Value(ds, base), 1);
    }
  }

  lemma A2iStops(s: string, base: nat, num: int32)
    ensures A2i(s, base, num).1 == 0 <==> s == [] || !Accepts(s[0], base)
    ensures A2i(s, base, num).1 == 0 ==> A2i(s, base, num).0 == num
  {
  }

  lemma UnsignedReadsBack(num: uint, base: nat, upper: bool)
    requires (base == 10 || base == 16) && num < INT_LIMIT
    ensures var s := Unsigned(num, base, upper);
      (forall k :: 0 <= k < |s| ==> Accepts(s[k], base)) && A2i(s, base, 0) == (num, |s|)
  {
    hide A2i, Accepts, A2d, Value;
    DigitsWrite(num, base);
    DigitsFit(num);
    A2iReadsDigits(Digits(num, base), base, upper);
  }

  // a2i undoes ui2a: on the numeral of a number below 2^31, followed by any text, it gives the number
  // and stops after the numeral, if and only if a2i does not accept the first character of that text.
  lemma NumeralRoundTrip(num: uint, base: nat, upper: bool, after: string)
    requires (base == 10 || base == 16) && num < INT_LIMIT
    ensures var s := Unsigned(num, base, upper);
      A2i(s + after, base, 0) == (num, |s|) <==> after == [] || !Accepts(after[0], base)
  {
    hide A2i, Accepts, Unsigned;
    UnsignedReadsBack(num, base, upper);
    A2iAppend(Unsigned(num, base, upper), after, base, 0);
    A2iStops(after, base, num);
  }

  // The digit test lets 'a' and 'A' through in base 10: "5a" reads as 60.
  lemma LetterReadAsDecimalDigit()
    ensures Accepts('a', 10) && A2d('a') == 10 && !(0 <= A2d('a') < 10)
    ensures A2i("5a", 10, 0) == (60, 2)
  {
    assert "5a"[1..] == "a" && "a"[1..] == "";
    assert A2i("a", 10, 5) == (60, 1);
  }

  // Exactly the characters that are no digits of the base but have digit value equal to it.
  lemma WronglyAccepted(ch: char, base: nat)
    requires base == 10 || base == 16
    ensures Accepts(ch, base) && !(0 <= A2d(ch) < base) <==> base == 10 && (ch == 'a' || ch == 'A')
  {
  }
}
