// What tfp_format is meant to print: a format is a list of items, and each item prints a text of its
// own. The format is given without its NUL; a '%' that reaches the end of the format prints nothing.
module FormatSpec {
  import opened Numerals

  // A variable argument: a 32-bit integer, or a C string up to its NUL.
  datatype Arg = Number(raw: uint) | Str(text: string)

  datatype Item = Literal(c: char) | Spec(conv: char, zero: bool, width: int32)

  function AsInt(raw: uint): int32 {
    if raw < INT_LIMIT then raw else raw - UINT_SPAN
  }

  // ----- Reading the format -----

  // The optional 0 flag and width at the start of s: the flag, the width, the characters taken.
  function Prefix(s: string): (r: (bool, int32, nat))
    ensures r.2 <= |s|
  {
    var zero := s != [] && s[0] == '0';
    var t := if zero then s[1..] else s;
    var skipped := if zero then 1 else 0;
    if t != [] && '0' <= t[0] <= '9' then
      var (w, n) := A2i(t, 10, 0);
      (zero, w, skipped + n)
    else (zero, 0, skipped)
  }

  function Items(s: string): seq<Item>
    decreases |s|
  {
    if s == [] then []
    else if s[0] != '%' then [Literal(s[0])] + Items(s[1..])
    else
      var (zero, width, n) := Prefix(s[1..]);
      var t := s[1..][n..];
      if t == [] then [] else [Spec(t[0], zero, width)] + Items(t[1..])
  }

  // ----- Printing an item -----

  predicate TakesNumber(i: Item) {
    i.Spec? && i.conv in "udxXc"
  }

  predicate TakesText(i: Item) {
    i.Spec? && i.conv == 's'
  }

  // The next argument is of the kind the item asks for.
  predicate Suits(i: Item, args: seq<Arg>) {
    && (TakesNumber(i) ==> args != [] && args[0].Number?)
    && (TakesText(i) ==> args != [] && args[0].Str?)
  }

  function ArgsAfter(i: Item, args: seq<Arg>): seq<Arg>
    requires Suits(i, args)
  {
    if TakesNumber(i) || TakesText(i) then args[1..] else args
  }

  // The arguments are of the kinds the format asks for; more may follow.
  predicate Match(items: seq<Item>, args: seq<Arg>) {
    items == [] || (Suits(items[0], args) && Match(items[1..], ArgsAfter(items[0], args)))
  }

  function Fill(c: char, n: nat): (s: string)
    ensures |s| == n
  {
    seq(n, _ => c)
  }

  // Pad characters before the text, so that it takes at least `width` columns.
  function Padded(text: string, zero: bool, width: int): string {
    Fill(if zero then '0' else ' ', if width > |text| then width - |text| else 0) + text
  }

  function NumberText(i: Item, raw: uint): string
    requires TakesNumber(i)
  {
    match i.conv
    case 'u' => Padded(Unsigned(raw, 10, false), i.zero, i.width)
    case 'd' => Padded(Signed(AsInt(raw)), i.zero, i.width)
    case 'x' => Padded(Unsigned(raw, 16, false), i.zero, i.width)
    case 'X' => Padded(Unsigned(raw, 16, true), i.zero, i.width)
    case _ => [(raw % 256) as char]
  }

  // An item that takes no argument prints itself, a percent sign, or nothing.
  function ConstantText(i: Item): string {
    if i.Literal? then [i.c] else if i.conv == '%' then "%" else ""
  }

  function ItemText(i: Item, args: seq<Arg>): string
    requires Suits(i, args)
  {
    if TakesNumber(i) then NumberText(i, args[0].raw)
    else if TakesText(i) then Padded(args[0].text, false, i.width)
    else ConstantText(i)
  }

  function Render(items: seq<Item>, args: seq<Arg>): string
    requires Match(items, args)
  {
    if items == [] then "" else ItemText(items[0], args) + Render(items[1..], ArgsAfter(items[0], args))
  }

  function Format(s: string, args: seq<Arg>): string
    requires Match(Items(s), args)
  {
    Render(Items(s), args)
  }

  // ----- Properties -----

  lemma LiteralFirst(c: char, rest: seq<Item>, args: seq<Arg>)
    requires Match(rest, args)
    ensures Match([Literal(c)] + rest, args) && Render([Literal(c)] + rest, args) == [c] + Render(rest, args)
  {
    assert ([Literal(c)] + rest)[1..] == rest;
  }

  // A format without '%' prints itself.
  lemma {:induction false} PlainText(s: string, args: seq<Arg>)
    requires '%' !in s
    ensures Match(Items(s), args) && Format(s, args) == s
  {
    hide Prefix, NumberText;
    if s == [] {
    } else {
      PlainText(s[1..], args);
      LiteralFirst(s[0], Items(s[1..]), args);
      assert s == [s[0]] + s[1..];
    }
  }

  // No conversion is cut off by the end of s.
  predicate Complete(s: string)
    decreases |s|
  {
    if s == [] then true
    else if s[0] != '%' then Complete(s[1..])
    else
      var n := Prefix(s[1..]).2;
      s[1..][n..] != [] && Complete(s[1..][n..][1..])
  }

  lemma {:induction false} A2iStopsInside(s: string, t: string, num: int32)
    requires A2i(s, 10, num).1 < |s|
    ensures A2i(s + t, 10, num) == A2i(s, 10, num)
  {
    if !Accepts(s[0], 10) {
    } else {
      assert (s + t)[1..] == s[1..] + t;
      A2iStopsInside(s[1..], t, Wrap(num * 10 + A2d(s[0])));
    }
  }

  lemma PrefixStopsInside(s: string, t: string)
    requires Prefix(s).2 < |s|
    ensures Prefix(s + t) == Prefix(s)
  {
    var zero := s[0] == '0';
    var u := if zero then s[1..] else s;
    assert (if zero then (s + t)[1..] else s + t) == u + t;
    if u != [] && '0' <= u[0] <= '9' {
      A2iStopsInside(u, t, 0);
    }
  }

  // Formats compose: what a complete format prints does not depend on what follows it.
  lemma {:induction false} ItemsAppend(s: string, t: string)
    requires Complete(s)
    ensures Items(s + t) == Items(s) + Items(t)
    decreases |s|
  {
    hide Prefix;
    if s == [] {
      assert s + t == t;
    } else if s[0] != '%' {
      assert (s + t)[1..] == s[1..] + t;
      ItemsAppend(s[1..], t);
    } else {
      var n := Prefix(s[1..]).2;
      assert (s + t)[1..] == s[1..] + t;
      PrefixStopsInside(s[1..], t);
      assert (s[1..] + t)[n..] == s[1..][n..] + t;
      assert (s[1..][n..] + t)[1..] == s[1..][n..][1..] + t;
      ItemsAppend(s[1..][n..][1..], t);
    }
  }

  lemma {:induction false} RenderAppend(a: seq<Item>, b: seq<Item>, args: seq<Arg>, more: seq<Arg>)
    requires Match(a, args) && Match(b, more) && Left(a, args) == []
    ensures Match(a + b, args + more) && Render(a + b, args + more) == Render(a, args) + Render(b, more)
  {
    hide ItemText, ArgsAfter, Suits;
    if a == [] {
      assert a + b == b && args + more == more;
    } else {
      assert (a + b)[1..] == a[1..] + b;
      SuitsAppend(a[0], args, more);
      RenderAppend(a[1..], b, ArgsAfter(a[0], args), more);
    }
  }

  lemma SuitsAppend(i: Item, args: seq<Arg>, more: seq<Arg>)
    requires Suits(i, args)
    ensures Suits(i, args + more) && ItemText(i, args + more) == ItemText(i, args)
    ensures ArgsAfter(i, args + more) == ArgsAfter(i, args) + more
  {
  }

  // The arguments a list of items leaves over.
  function Left(items: seq<Item>, args: seq<Arg>): seq<Arg>
    requires Match(items, args)
  {
    if items == [] then args else Left(items[1..], ArgsAfter(items[0], args))
  }

  lemma FormatAppend(s: string, t: string, args: seq<Arg>, more: seq<Arg>)
    requires Complete(s) && Match(Items(s), args) && Match(Items(t), more) && Left(Items(s), args) == []
    ensures Match(Items(s + t), args + more)
    ensures Format(s + t, args + more) == Format(s, args) + Format(t, more)
  {
    ItemsAppend(s, t);
    RenderAppend(Items(s), Items(t), args, more);
  }

  lemma {:induction false} LeadingCharacter(ds: seq<nat>, upper: bool)
    requires ds != [] && AllBelow(ds, 16)
    ensures Text(ds, upper)[0] == Digit(ds[0], upper)
  {
    if |ds| == 1 {
    } else {
      LeadingCharacter(ds[..|ds| - 1], upper);
    }
  }

  // A width other than 0 does not start with a 0, so it is not taken for the zero flag.
  lemma NumeralLead(num: uint)
    ensures '0' <= Unsigned(num, 10, false)[0] <= '9'
    ensures num > 0 ==> Unsigned(num, 10, false)[0] != '0'
  {
    DigitsWrite(num, 10);
    DigitsFit(num);
    LeadingCharacter(Digits(num, 10), false);
  }

  function ZeroFlag(zero: bool): string {
    if zero then "0" else ""
  }

  lemma PrefixIsRead(zero: bool, s: string)
    requires s != [] && '1' <= s[0] <= '9'
    ensures var (w, n) := A2i(s, 10, 0); Prefix(ZeroFlag(zero) + s) == (zero, w, |ZeroFlag(zero)| + n)
  {
    hide A2i;
    assert ZeroFlag(zero) + s == if zero then "0" + s else s;
    assert ("0" + s)[1..] == s;
  }

  // A flag, a width and a conversion are read as written, unless the conversion is an 'a' or a digit.
  lemma SpecIsRead(zero: bool, width: int32, conv: char, rest: string)
    requires width > 0 && !Accepts(conv, 10)
    ensures Items("%" + ZeroFlag(zero) + Unsigned(width, 10, false) + [conv] + rest)
      == [Spec(conv, zero, width)] + Items(rest)
  {
    hide A2i, Accepts, Unsigned;
    var n, after := Unsigned(width, 10, false), [conv] + rest;
    NumeralLead(width);
    NumeralRoundTrip(width, 10, false, after);
    var s := "%" + ZeroFlag(zero) + n + [conv] + rest;
    assert s[1..] == ZeroFlag(zero) + (n + after);
    PrefixIsRead(zero, n + after);
    assert s[1..][|ZeroFlag(zero)| + |n|..] == after;
    assert after[1..] == rest;
  }

  lemma {:induction false} ZerosThenNumeral(k: nat, s: string)
    ensures A2i(Fill('0', k) + s, 10, 0) == (A2i(s, 10, 0).0, k + A2i(s, 10, 0).1)
  {
    hide A2i;
    if k == 0 {
      assert Fill('0', k) + s == s;
    } else {
      ZeroTaken(Fill('0', k - 1) + s);
      assert Fill('0', k) + s == "0" + (Fill('0', k - 1) + s);
      ZerosThenNumeral(k - 1, s);
    }
  }

  lemma ZeroTaken(s: string)
    ensures A2i("0" + s, 10, 0) == (A2i(s, 10, 0).0, 1 + A2i(s, 10, 0).1)
  {
    assert ("0" + s)[1..] == s;
  }

  // "%0Nd" prints the sign after the zeros. So a2i reads a number back from its zero-padded print if it
  // is not negative; from a negative one it reads the zeros only.
  lemma ZeroPaddedNumber(width: int32, raw: uint)
    requires width > 0
    ensures var f, num := "%0" + Unsigned(width, 10, false) + "d", AsInt(raw);
      var pad := if width > |Signed(num)| then width - |Signed(num)| else 0;
      && Match(Items(f), [Number(raw)])
      && var r := Format(f, [Number(raw)]);
         && |r| == (if width > |Signed(num)| then width else |Signed(num)|)
         && (num < 0 ==> r == Fill('0', pad) + "-" + Unsigned(0 - num, 10, false) && A2i(r, 10, 0) == (0, pad))
         && (num >= 0 ==> A2i(r, 10, 0) == (num, |r|))
  {
    hide A2i, Accepts, Unsigned, Items, Fill;
    var f, num := "%0" + Unsigned(width, 10, false) + "d", AsInt(raw);
    ConversionD();
    SpecIsRead(true, width, 'd', "");
    assert f == "%" + ZeroFlag(true) + Unsigned(width, 10, false) + "d" + "";
    assert Items(f) == [Spec('d', true, width)];
    OneNumber(Spec('d', true, width), raw);
    ZerosThenSigned(if width > |Signed(num)| then width - |Signed(num)| else 0, num);
  }

  lemma ZerosThenSigned(pad: nat, num: int32)
    ensures var r := Fill('0', pad) + Signed(num);
      && (num < 0 ==> r == Fill('0', pad) + "-" + Unsigned(0 - num, 10, false) && A2i(r, 10, 0) == (0, pad))
      && (num >= 0 ==> A2i(r, 10, 0) == (num, |r|))
  {
    hide A2i, Accepts, Unsigned, Fill;
    ZerosThenNumeral(pad, Signed(num));
    ConversionD();
    if num < 0 {
      A2iStops(Signed(num), 10, 0);
    } else {
      UnsignedReadsBack(num, 10, false);
    }
  }

  lemma ConversionD()
    ensures !Accepts('d', 10) && !Accepts('-', 10) && Items("") == []
  {
  }

  lemma OneNumber(i: Item, raw: uint)
    requires TakesNumber(i)
    ensures Match([i], [Number(raw)]) && Render([i], [Number(raw)]) == NumberText(i, raw)
  {
    assert [i][1..] == [] && ArgsAfter(i, [Number(raw)]) == [];
  }
}
