// What Format prints for each conversion, stated on the characters: which digits, in which base and case,
// how they are padded, and how long the text is.
module Conversions {
  import opened Numerals
  import opened FormatSpec

  // ----- Numerals read as text -----

  // The digit a character stands for, where letters are of the given case; -1 for any other character.
  function DigitOf(c: char, upper: bool): int {
    if '0' <= c <= '9' then c as int - '0' as int
    else if upper && 'A' <= c <= 'F' then c as int - 'A' as int + 10
    else if !upper && 'a' <= c <= 'f' then c as int - 'a' as int + 10
    else -1
  }

  function NumberOf(t: string, base: nat, upper: bool): int {
    if t == [] then 0 else NumberOf(t[..|t| - 1], base, upper) * base + DigitOf(t[|t| - 1], upper)
  }

  predicate DigitsOnly(t: string, base: nat, upper: bool) {
    forall k :: 0 <= k < |t| ==> 0 <= DigitOf(t[k], upper) < base
  }

  // t is num in the base, with letters of the given case and no leading zero.
  predicate IsNumeral(t: string, num: nat, base: nat, upper: bool) {
    t != [] && DigitsOnly(t, base, upper) && NumberOf(t, base, upper) == num && (|t| > 1 ==> t[0] != '0')
  }

  lemma {:induction false} TextIsNumber(ds: seq<nat>, base: nat, upper: bool)
    requires base <= 16 && AllBelow(ds, base)
    ensures DigitsOnly(Text(ds, upper), base, upper) && NumberOf(Text(ds, upper), base, upper) == Value(ds, base)
  {
    if ds == [] {
    } else {
      var init, last := ds[..|ds| - 1], ds[|ds| - 1];
      TextIsNumber(init, base, upper);
      var s, c := Text(init, upper), Digit(last, upper);
      assert Text(ds, upper) == s + [c] && (s + [c])[..|s|] == s;
      assert DigitOf(c, upper) == last;
    }
  }

  lemma UnsignedIsNumeral(num: uint, base: nat, upper: bool)
    requires base == 10 || base == 16
    ensures IsNumeral(Unsigned(num, base, upper), num, base, upper)
  {
    hide DigitOf, NumberOf, Value, Digits, Text, Digit;
    var ds := Digits(num, base);
    DigitsWrite(num, base);
    DigitsFit(num);
    assert Unsigned(num, base, upper) == Text(ds, upper);
    TextIsNumber(ds, base, upper);
    LeadingCharacter(ds, upper);
    ZeroDigit(ds[0], upper);
  }

  lemma ZeroDigit(d: nat, upper: bool)
    requires d < 16
    ensures Digit(d, upper) == '0' <==> d == 0
  {
  }

  // The digits of a text.
  function DigitsOf(t: string, upper: bool): (ds: seq<int>)
    ensures |ds| == |t|
  {
    seq(|t|, k requires 0 <= k < |t| => DigitOf(t[k], upper))
  }

  // A number has only one numeral in each base and case, so IsNumeral fixes the text.
  lemma NumeralTextUnique(t: string, u: string, num: nat, base: nat, upper: bool)
    requires 2 <= base <= 16 && IsNumeral(t, num, base, upper) && IsNumeral(u, num, base, upper)
    ensures t == u
  {
    hide DigitOf, NumberOf, Value, Digits;
    NumeralDigits(t, num, base, upper);
    NumeralDigits(u, num, base, upper);
    assert |t| == |DigitsOf(t, upper)| == |DigitsOf(u, upper)| == |u|;
    forall k | 0 <= k < |t|
      ensures t[k] == u[k]
    {
      assert DigitsOf(t, upper)[k] == DigitsOf(u, upper)[k];
      SameDigit(t[k], u[k], upper);
    }
  }

  lemma SameDigit(c: char, d: char, upper: bool)
    requires DigitOf(c, upper) == DigitOf(d, upper) >= 0
    ensures c == d
  {
  }

  lemma NumeralDigits(t: string, num: nat, base: nat, upper: bool)
    requires 2 <= base <= 16 && IsNumeral(t, num, base, upper)
    ensures DigitsOf(t, upper) == Digits(num, base)
  {
    hide NumberOf, Value, Digits;
    var ds: seq<nat> := DigitsOf(t, upper);
    NumberIsValue(t, ds, base, upper);
    assert |t| > 1 ==> ds[0] != 0;
    NumeralUnique(ds, num, base);
  }

  lemma {:induction false} NumberIsValue(t: string, ds: seq<nat>, base: nat, upper: bool)
    requires DigitsOnly(t, base, upper) && |ds| == |t| && forall k :: 0 <= k < |t| ==> ds[k] == DigitOf(t[k], upper)
    ensures Value(ds, base) == NumberOf(t, base, upper) && AllBelow(ds, base)
  {
    if t == [] {
    } else {
      NumberIsValue(t[..|t| - 1], ds[..|t| - 1], base, upper);
    }
  }

  // ----- Specifications -----

  // A percent sign, the zero flag, a width (0 for none) and a conversion.
  function SpecText(zero: bool, width: int32, conv: char): string
    requires width >= 0
  {
    "%" + ZeroFlag(zero) + (if width == 0 then "" else Unsigned(width, 10, false)) + [conv]
  }

  // r is t with characters c before it that make it at least `width` long.
  predicate PaddedWith(r: string, c: char, t: string, width: int) {
    && |r| == (if width > |t| then width else |t|)
    && r[|r| - |t|..] == t
    && forall k :: 0 <= k < |r| - |t| ==> r[k] == c
  }

  // The conversion character is neither a digit nor a letter a2i takes for one.
  predicate EndsWidth(conv: char) {
    !Accepts(conv, 10)
  }

  lemma SpecOnly(zero: bool, width: int32, conv: char)
    requires width >= 0 && EndsWidth(conv)
    ensures Items(SpecText(zero, width, conv)) == [Spec(conv, zero, width)]
  {
    hide A2i, Unsigned;
    assert Items("") == [];
    if width > 0 {
      SpecIsRead(zero, width, conv, "");
      assert SpecText(zero, width, conv) + "" == SpecText(zero, width, conv);
      assert SpecText(zero, width, conv) == "%" + ZeroFlag(zero) + Unsigned(width, 10, false) + [conv] + "";
    } else {
      var s := SpecText(zero, width, conv);
      assert s == "%" + (ZeroFlag(zero) + [conv]) && s[1..] == ZeroFlag(zero) + [conv];
      NoWidthIsRead(zero, conv);
      assert s[1..][|ZeroFlag(zero)|..] == [conv] && [conv][1..] == "";
    }
  }

  lemma NoWidthIsRead(zero: bool, conv: char)
    requires EndsWidth(conv)
    ensures Prefix(ZeroFlag(zero) + [conv]) == (zero, 0, |ZeroFlag(zero)|)
  {
    assert !('0' <= conv <= '9');
    assert ("0" + [conv])[1..] == [conv];
    assert ZeroFlag(zero) + [conv] == if zero then "0" + [conv] else [conv];
  }

  lemma Paddeds(t: string, zero: bool, width: int)
    ensures PaddedWith(Padded(t, zero, width), if zero then '0' else ' ', t, width)
  {
  }

  lemma OneItem(s: string, i: Item, args: seq<Arg>)
    requires Items(s) == [i] && Suits(i, args)
    ensures Match(Items(s), args) && Format(s, args) == ItemText(i, args)
  {
    hide Items, ItemText, Suits, ArgsAfter;
    var rest := ArgsAfter(i, args);
    assert [i][1..] == [] && Match([], rest) && Render([], rest) == "";
    assert Match([i], args) && Render([i], args) == ItemText(i, args) + Render([], rest);
    assert ItemText(i, args) + "" == ItemText(i, args);
  }

  // ----- The conversions -----

  // %u, %x and %X: the number in base 10 or 16, x with lower-case and X with upper-case letters, padded to
  // the width with blanks, or with zeros if the flag asks for it. Without padding a2i reads it back.
  lemma NumberConversion(zero: bool, width: int32, conv: char, raw: uint) returns (t: string)
    requires width >= 0 && (conv == 'u' || conv == 'x' || conv == 'X')
    ensures Match(Items(SpecText(zero, width, conv)), [Number(raw)])
    ensures IsNumeral(t, raw, if conv == 'u' then 10 else 16, conv == 'X')
    ensures var r := Format(SpecText(zero, width, conv), [Number(raw)]);
      && PaddedWith(r, if zero then '0' else ' ', t, width)
      && (width == 0 && raw < INT_LIMIT ==> A2i(r, if conv == 'u' then 10 else 16, 0) == (raw, |r|))
  {
    hide Items, Unsigned, A2i, IsNumeral, SpecText, Render, Format, Padded, PaddedWith, Accepts;
    var base := if conv == 'u' then 10 else 16;
    t := Unsigned(raw, base, conv == 'X');
    NotDigits();
    SpecOnly(zero, width, conv);
    UnsignedIsNumeral(raw, base, conv == 'X');
    OneItem(SpecText(zero, width, conv), Spec(conv, zero, width), [Number(raw)]);
    assert ItemText(Spec(conv, zero, width), [Number(raw)]) == Padded(t, zero, width);
    Paddeds(t, zero, width);
    if width == 0 && raw < INT_LIMIT {
      UnsignedReadsBack(raw, base, conv == 'X');
      NoPadding(t, zero);
    }
  }

  lemma NoPadding(t: string, zero: bool)
    ensures Padded(t, zero, 0) == t
  {
  }

  // %d: the number the 32 bits stand for in two's complement, with a minus sign directly before its digits.
  lemma DecimalConversion(zero: bool, width: int32, raw: uint) returns (t: string)
    requires width >= 0
    ensures Match(Items(SpecText(zero, width, 'd')), [Number(raw)])
    ensures IsNumeral(t, if raw < INT_LIMIT then raw else UINT_SPAN - raw, 10, false)
    ensures PaddedWith(Format(SpecText(zero, width, 'd'), [Number(raw)]), if zero then '0' else ' ',
                       if raw < INT_LIMIT then t else "-" + t, width)
  {
    hide Items, Unsigned, IsNumeral, SpecText, Render, Format, Padded, PaddedWith, Accepts;
    var num: uint := if raw < INT_LIMIT then raw else UINT_SPAN - raw;
    t := Unsigned(num, 10, false);
    NotDigits();
    SpecOnly(zero, width, 'd');
    UnsignedIsNumeral(num, 10, false);
    OneItem(SpecText(zero, width, 'd'), Spec('d', zero, width), [Number(raw)]);
    assert ItemText(Spec('d', zero, width), [Number(raw)]) == Padded(Signed(AsInt(raw)), zero, width);
    Paddeds(Signed(AsInt(raw)), zero, width);
  }

  // %s: the text, padded with blanks whatever the flag.
  lemma TextConversion(zero: bool, width: int32, text: string)
    requires width >= 0
    ensures Match(Items(SpecText(zero, width, 's')), [Str(text)])
    ensures PaddedWith(Format(SpecText(zero, width, 's'), [Str(text)]), ' ', text, width)
  {
    hide Items, SpecText, Render, Format, Padded, PaddedWith, Accepts;
    NotDigits();
    SpecOnly(zero, width, 's');
    OneItem(SpecText(zero, width, 's'), Spec('s', zero, width), [Str(text)]);
    Paddeds(text, false, width);
  }

  // %c: the character in the low eight bits, whatever the flag and the width.
  lemma CharConversion(zero: bool, width: int32, c: char, high: nat)
    requires width >= 0 && c as int < 256 && 256 * high + c as int < UINT_SPAN
    ensures Match(Items(SpecText(zero, width, 'c')), [Number(256 * high + c as int)])
    ensures Format(SpecText(zero, width, 'c'), [Number(256 * high + c as int)]) == [c]
  {
    hide Items, SpecText, Render, Format, Accepts;
    var raw: uint := 256 * high + c as int;
    NotDigits();
    SpecOnly(zero, width, 'c');
    OneItem(SpecText(zero, width, 'c'), Spec('c', zero, width), [Number(raw)]);
    QuotientUnique(high, c as int, 256);
    assert high * 256 == 256 * high;
  }

  // %% is a percent sign; any other conversion prints nothing; neither takes an argument.
  lemma OtherConversion(zero: bool, width: int32, conv: char, args: seq<Arg>)
    requires width >= 0 && EndsWidth(conv) && conv !in "udxXcs"
    ensures Match(Items(SpecText(zero, width, conv)), args)
    ensures Format(SpecText(zero, width, conv), args) == if conv == '%' then "%" else ""
  {
    hide Items, SpecText, Render, Format, Accepts;
    SpecOnly(zero, width, conv);
    OneItem(SpecText(zero, width, conv), Spec(conv, zero, width), args);
  }

  // A specification that the end of the format cuts off prints nothing.
  lemma CutOffSpec(zero: bool, width: int32, args: seq<Arg>)
    requires width >= 0
    ensures var s := "%" + ZeroFlag(zero) + (if width == 0 then "" else Unsigned(width, 10, false));
      Match(Items(s), args) && Format(s, args) == ""
  {
    hide Unsigned, A2i;
    var n := if width == 0 then "" else Unsigned(width, 10, false);
    var s := "%" + ZeroFlag(zero) + n;
    assert s[1..] == ZeroFlag(zero) + n;
    if width > 0 {
      NumeralLead(width);
      UnsignedReadsBack(width, 10, false);
      PrefixIsRead(zero, n);
    } else {
      assert ZeroFlag(zero) + n == ZeroFlag(zero);
    }
    assert s[1..][|ZeroFlag(zero)| + |n|..] == "";
    assert Items(s) == [];
  }

  lemma NotDigits()
    ensures EndsWidth('u') && EndsWidth('d') && EndsWidth('x') && EndsWidth('X') && EndsWidth('c') && EndsWidth('s')
    ensures EndsWidth('%')
  {
  }
}
