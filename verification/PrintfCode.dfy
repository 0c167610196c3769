// printf.c as it runs: digits written into a buffer, a format read through a moving pointer, and
// characters handed to the output function one by one.
module PrintfCode {
  import Bits
  import opened Numerals
  import opened FormatSpec

  // ----- Arithmetic of the digit loops -----

  lemma ScaleUp(num: nat, d: nat, base: nat)
    requires d > 0 && num / d >= base >= 2
    ensures d < d * base <= num
  {
    assert num == num / d * d + num % d;
    assert num / d * d >= base * d;
  }

  // Dividing off one digit: base^(k+1) bounds num, d is base^k.
  lemma DigitStep(num: nat, d: nat, base: nat, v: nat)
    requires d > 0 && base >= 2 && num < d * base
    ensures num / d < base && num % d < d
    ensures v * (d * base) + num == (v * base + num / d) * d + num % d
  {
    assert num == num / d * d + num % d;
    if num / d >= base {
      ScaleUp(num, d, base);
      assert false;
    }
    assert v * (d * base) == v * base * d;
    assert (v * base + num / d) * d == v * base * d + num / d * d;
  }

  lemma BelowNext(num: nat, d: nat, base: nat)
    requires d > 0 && num / d < base
    ensures num < d * base
  {
    assert num == num / d * d + num % d;
    Bigger(base, num / d + 1, d);
  }

  lemma PowerDown(base: nat, k: nat)
    requires base >= 2
    ensures Power(base, k) >= 1
    ensures Power(base, k) / base == if k == 0 then 0 else Power(base, k - 1)
    ensures Power(base, k) / base < Power(base, k) && (Power(base, k) / base == 0 <==> k == 0)
  {
    if k == 0 {
      Bits.RemainderUnique(1, base, 0, 1);
    } else {
      PowerDown(base, k - 1);
      assert Power(base, k) == Power(base, k - 1) * base;
      hide Power;
      Doubles(Power(base, k - 1), base);
      QuotientUnique(Power(base, k - 1), 0, base);
    }
  }

  lemma Doubles(p: nat, base: nat)
    requires p >= 1 && base >= 2
    ensures p < p * base
  {
  }

  lemma AtLeastPower(num: nat, base: nat, k: nat)
    requires base >= 2 && k > 0 && num >= Power(base, k)
    ensures num >= base && num / base >= Power(base, k - 1)
  {
    PowerDown(base, k - 1);
    assert Power(base, k) == Power(base, k - 1) * base;
    hide Power;
    Bigger(Power(base, k - 1), 1, base);
    Quotient(num, base);
    Bigger(Power(base, k - 1), num / base + 1, base);
    assert (num / base + 1) * base == num / base * base + base;
  }

  lemma {:induction false} ManyDigits(num: nat, base: nat, k: nat)
    requires base >= 2 && num >= Power(base, k)
    ensures |Digits(num, base)| > k
  {
    hide Power, Digits;
    if k == 0 {
    } else {
      AtLeastPower(num, base, k);
      OneDigitMore(num, base);
      ManyDigits(num / base, base, k - 1);
    }
  }

  // The digits taken off so far, ds, and what is left; the last of ds has weight l.
  ghost predicate Split(num0: nat, base: nat, ds: seq<nat>, num: nat, l: nat) {
    AllBelow(ds, base) && num < l && Value(ds, base) * l + num == num0
  }

  // d is the weight of the next digit, base^k, or 0 after the last digit.
  ghost predicate Weight(base: nat, d: nat, l: nat, k: nat) {
    if d == 0 then l == 1 else d == Power(base, k) && l == d * base
  }

  // The first digit is not zero, unless it is the only one.
  ghost predicate Leads(num0: nat, ds: seq<nat>, num: nat, d: nat, k: nat) {
    if ds == [] then num == num0 && d != 0 && (k == 0 || d <= num) else ds[0] != 0 || (|ds| == 1 && d == 0)
  }

  ghost predicate Taken(num0: nat, base: nat, ds: seq<nat>, num: nat, d: nat, l: nat, k: nat) {
    Split(num0, base, ds, num, l) && Weight(base, d, l, k) && Leads(num0, ds, num, d, k)
  }

  // One round of the second loop of ui2a: the digit q is always written, as its test is always met.
  lemma TakeDigit(num0: nat, base: nat, ds: seq<nat>, num: nat, d: nat, l: nat, k: nat, q: nat, r: nat, next: nat)
    requires base >= 2 && d > 0 && q == num / d && r == num % d && next == d / base
    requires Taken(num0, base, ds, num, d, l, k)
    ensures q < base && next < d && (ds != [] || q > 0 || next == 0) && (next == 0 <==> k == 0)
    ensures Taken(num0, base, ds + [q], r, next, d, if k == 0 then 0 else k - 1)
  {
    hide Value, Power;
    DigitStep(num, d, base, Value(ds, base));
    PowerUnfolds(base, k);
    PowerDown(base, k);
    ValueSnoc(ds, q, base);
    QuotientPositive(num, d);
    var all := ds + [q];
    assert AllBelow(all, base);
    assert Value(all, base) * d + r == num0;
  }

  lemma PowerUnfolds(base: nat, k: nat)
    ensures Power(base, k) == if k == 0 then 1 else Power(base, k - 1) * base
  {
  }

  lemma QuotientPositive(num: nat, d: nat)
    requires d > 0
    ensures num >= d ==> num / d >= 1
  {
  }

  lemma AllTaken(num0: nat, base: nat, ds: seq<nat>, num: nat, l: nat, k: nat)
    requires base >= 2 && Taken(num0, base, ds, num, 0, l, k)
    ensures ds == Digits(num0, base)
  {
    NumeralUnique(ds, num0, base);
  }

  // The text s has been written into the buffer at position `at`.
  ghost predicate Written(bf: seq<char>, was: seq<char>, at: nat, s: string) {
    at + |s| <= |bf| == |was| && bf == was[..at] + s + was[at + |s|..]
  }

  lemma WriteNothing(bf: seq<char>, at: nat)
    requires at <= |bf|
    ensures Written(bf, bf, at, [])
  {
  }

  lemma WriteOne(bf: seq<char>, was: seq<char>, at: nat, s: string, c: char)
    requires Written(bf, was, at, s) && at + |s| < |was|
    ensures |bf| == |was| && Written(bf[at + |s| := c], was, at, s + [c])
  {
  }

  lemma TextSnoc(ds: seq<nat>, d: nat, upper: bool)
    requires (forall i :: 0 <= i < |ds| ==> ds[i] < 16) && d < 16
    ensures Text(ds + [d], upper) == Text(ds, upper) + [Digit(d, upper)]
  {
    assert (ds + [d])[..|ds|] == ds;
  }

  // The first loop of ui2a: the largest power of the base that num still contains, or 1.
  method LargestPower(num: uint, base: uint) returns (d: uint, ghost k: nat)
    requires base == 10 || base == 16
    ensures d > 0 && Taken(num, base, [], num, d, d * base, k) && k < |Digits(num, base)|
  {
    d, k := 1, 0;
    while num / d >= base
      invariant d == Power(base, k) > 0 && (k == 0 || d <= num)
      decreases num + 1 - d
    {
      ScaleUp(num, d, base);
      d := d * base;
      k := k + 1;
    }
    BelowNext(num, d, base);
    if k > 0 {
      ManyDigits(num, base, k);
    }
  }

  // ui2a
  method Ui2a(num0: uint, base: uint, upper: bool, bf: array<char>, at: nat)
    requires (base == 10 || base == 16) && at + |Unsigned(num0, base, upper)| < bf.Length
    modifies bf
    ensures Written(bf[..], old(bf[..]), at, Unsigned(num0, base, upper) + ['\0'])
  {
    hide Taken, Written, Digits, Text, Value, Power, Digit;
    var d: uint, k: nat := LargestPower(num0, base);
    var num: uint, n: nat, p: nat := num0, 0, at;
    ghost var was, ds: seq<nat>, l: nat := bf[..], [], d * base;
    WriteNothing(was, at);
    assert Text(ds, upper) == [];
    while d != 0
      invariant Taken(num0, base, ds, num, d, l, k) && forall i :: 0 <= i < |ds| ==> ds[i] < 16
      invariant n == |ds| && p == at + n && n + (if d == 0 then 0 else k + 1) <= |Digits(num0, base)|
      invariant Written(bf[..], was, at, Text(ds, upper))
      decreases d
    {
      var dgt := num / d;
      TakeDigit(num0, base, ds, num, d, l, k, dgt, num % d, d / base);
      l := d;
      num := num % d;
      d := d / base;
      k := if k == 0 then 0 else k - 1;
      if n != 0 || dgt > 0 || d == 0 {
        TextSnoc(ds, dgt, upper);
        WriteOne(bf[..], was, at, Text(ds, upper), Digit(dgt, upper));
        bf[p] := Digit(dgt, upper);
        p := p + 1;
        n := n + 1;
      }
      ds := ds + [dgt];
    }
    AllTaken(num0, base, ds, num, l, k);
    WriteOne(bf[..], was, at, Text(ds, upper), '\0');
    bf[p] := '\0';
  }

  // Storing all of s before any other character and NUL.
  lemma WriteAfter(bf: seq<char>, was: seq<char>, at: nat, c: char, s: string)
    requires at < |was| && Written(bf, was[at := c], at + 1, s)
    ensures Written(bf, was, at, [c] + s)
  {
  }

  // The magnitude of a negative int, INT_MIN included, when negation wraps.
  lemma NegationAsUnsigned(num: int32)
    ensures num < 0 ==> Wrap(0 - num) % UINT_SPAN == 0 - num
    ensures num >= 0 ==> num % UINT_SPAN == num
  {
  }

  // i2a: negation wraps, and the result is taken as unsigned.
  method I2a(num0: int32, bf: array<char>)
    requires |Signed(num0)| < bf.Length
    modifies bf
    ensures Written(bf[..], old(bf[..]), 0, Signed(num0) + ['\0'])
  {
    hide Unsigned, Written, Wrap;
    NegationAsUnsigned(num0);
    ghost var was := bf[..];
    if num0 < 0 {
      ghost var s := Unsigned(0 - num0, 10, false);
      var num := Wrap(0 - num0);
      bf[0] := '-';
      Ui2a(num % UINT_SPAN, 10, false, bf, 1);
      WriteAfter(bf[..], was, 0, '-', s + ['\0']);
      assert ['-'] + (s + ['\0']) == Signed(num0) + ['\0'];
    } else {
      Ui2a(num0 % UINT_SPAN, 10, false, bf, 0);
    }
  }

  // ----- Reading the format -----

  // A C string: its characters and the NUL that ends it.
  ghost predicate CString(s: seq<char>) {
    s != [] && s[|s| - 1] == '\0' && forall k :: 0 <= k < |s| - 1 ==> s[k] != '\0'
  }

  ghost function Chars(s: seq<char>): string
    requires s != []
  {
    s[..|s| - 1]
  }

  // A round of a2i's loop on the rest of the text from i on, and where it stops.
  lemma A2iStep(s: string, i: nat, base: nat, num: int32)
    requires i <= |s|
    ensures i == |s| || !Accepts(s[i], base) ==> Numerals.A2i(s[i..], base, num) == (num, 0)
    ensures i < |s| && Accepts(s[i], base) ==>
      var rest := Numerals.A2i(s[i + 1..], base, Wrap(num * base + A2d(s[i])));
      Numerals.A2i(s[i..], base, num) == (rest.0, rest.1 + 1)
    ensures A2d('\0') < 0
  {
    assert i < |s| ==> s[i..][1..] == s[i + 1..];
  }

  // a2i: `ch` has just been read from before `src`; on return the first character that is not taken
  // has been read. The NUL is never taken, so nothing after it is read.
  method A2i(ch0: char, fmt: seq<char>, src: nat, base: nat) returns (ch: char, p: nat, num: int32)
    requires CString(fmt) && 1 <= src <= |fmt| && ch0 == fmt[src - 1]
    ensures src <= p <= |fmt| && ch == fmt[p - 1]
    ensures (num, p - src) == Numerals.A2i(Chars(fmt)[src - 1..], base, 0)
  {
    hide Numerals.A2i, A2d;
    ch, p, num := ch0, src, 0;
    ghost var s := Chars(fmt);
    while A2d(ch) >= 0
      invariant src <= p <= |fmt| && ch == fmt[p - 1]
      invariant var (n, k) := Numerals.A2i(s[p - 1..], base, num);
        (n, p - src + k) == Numerals.A2i(s[src - 1..], base, 0)
      decreases |fmt| - p
    {
      A2iStep(s, p - 1, base, num);
      if A2d(ch) > base {
        break;
      }
      num := Wrap(num * base + A2d(ch));
      ch := fmt[p];
      p := p + 1;
    }
    A2iStep(s, p - 1, base, num);
  }

  // The flag and the width after a '%': p0 is just past the '%', and on return the conversion
  // character, or the NUL, has been read.
  method ReadPrefix(fmt: seq<char>, p0: nat) returns (ch: char, p: nat, lz: bool, w: int32)
    requires CString(fmt) && p0 < |fmt|
    ensures p0 < p <= |fmt| && ch == fmt[p - 1]
    ensures (lz, w, p - 1 - p0) == Prefix(Chars(fmt)[p0..])
  {
    hide Numerals.A2i, Accepts, A2d;
    ghost var s := Chars(fmt);
    lz, w := false, 0;
    ch, p := fmt[p0], p0 + 1;
    if ch == '0' {
      assert s[p0..][1..] == s[p0 + 1..];
      ch, p := fmt[p], p + 1;
      lz := true;
    }
    if '0' <= ch <= '9' {
      ch, p, w := A2i(ch, fmt, p, 10);
    }
  }

  // ----- Output -----

  // The characters of a C string in a buffer.
  ghost function ToNul(bf: seq<char>): (s: string)
    requires '\0' in bf
    ensures |s| < |bf| && bf[|s|] == '\0' && s == bf[..|s|] && '\0' !in s
  {
    if bf[0] == '\0' then [] else [bf[0]] + ToNul(bf[1..])
  }

  lemma {:induction false} ToNulIs(bf: seq<char>, s: string)
    requires '\0' in bf && |s| < |bf| && bf[|s|] == '\0' && s == bf[..|s|] && '\0' !in s
    ensures ToNul(bf) == s
  {
    if s == [] {
    } else {
      assert bf[0] == s[0];
      ToNulIs(bf[1..], s[1..]);
    }
  }

  lemma {:induction false} DigitsAreNotNul(ds: seq<nat>, upper: bool)
    requires forall k :: 0 <= k < |ds| ==> ds[k] < 16
    ensures '\0' !in Text(ds, upper)
  {
    if ds == [] {
    } else {
      DigitsAreNotNul(ds[..|ds| - 1], upper);
      DigitRoundTrip(ds[|ds| - 1], upper);
    }
  }

  lemma NumbersAreNotNul(raw: uint, base: nat, upper: bool)
    requires base == 10 || base == 16
    ensures '\0' !in Unsigned(raw, base, upper)
  {
    DigitsWrite(raw, base);
    DigitsAreNotNul(Digits(raw, base), upper);
  }

  // The texts among the arguments end at their NUL.
  ghost predicate CStrings(args: seq<Arg>) {
    forall k :: 0 <= k < |args| && args[k].Str? ==> '\0' !in args[k].text
  }

  // The output function tfp_format is given, with what it has been sent.
  class Printer {
    var out: string

    method Putf(c: char)
      modifies this
      ensures out == old(out) + [c]
    {
      out := out + [c];
    }

    // putchw
    method Putchw(n0: int32, z: bool, bf: seq<char>)
      requires '\0' in bf
      modifies this
      ensures out == old(out) + Padded(ToNul(bf), z, n0)
    {
      hide ToNul;
      ghost var s := ToNul(bf);
      var n: int, p := n0, 0;
      while bf[p] != '\0' && n > 0
        invariant 0 <= p <= |s| && n == n0 - p && (p > 0 ==> n >= 0)
        decreases |s| - p
      {
        assert bf[p] == s[p];
        n, p := n - 1, p + 1;
      }
      PutFill(if z then '0' else ' ', n);
      PutText(bf);
    }

    // The loop of putchw that pads.
    method PutFill(fc: char, n0: int)
      modifies this
      ensures out == old(out) + Fill(fc, if n0 > 0 then n0 else 0)
    {
      ghost var was := out;
      var n := n0;
      while n > 0
        invariant n0 > 0 ==> 0 <= n <= n0 && out == was + Fill(fc, n0 - n)
        invariant n0 <= 0 ==> n == n0 && out == was
      {
        assert Fill(fc, n0 - n + 1) == Fill(fc, n0 - n) + [fc];
        Putf(fc);
        n := n - 1;
      }
    }

    // The loop of putchw that prints the text.
    method PutText(bf: seq<char>)
      requires '\0' in bf
      modifies this
      ensures out == old(out) + ToNul(bf)
    {
      hide ToNul;
      ghost var was, s := out, ToNul(bf);
      var p := 0;
      while bf[p] != '\0'
        invariant 0 <= p <= |s| && out == was + s[..p]
        decreases |s| - p
      {
        assert bf[p] == s[p] && s[..p + 1] == s[..p] + [s[p]];
        Putf(bf[p]);
        p := p + 1;
      }
      assert s[..p] == s;
    }

    // The cases of tfp_format that print a number through the buffer.
    method PrintNumber(i: Item, raw: uint, bf: array<char>)
      requires i.Spec? && i.conv in "udxX" && bf.Length == 12
      modifies this, bf
      ensures out == old(out) + NumberText(i, raw)
    {
      ghost var was, text := bf[..], "";
      hide Written, Unsigned, Signed, ToNul;
      match i.conv {
        case 'u' =>
          Ui2a(raw, 10, false, bf, 0);
          text := Unsigned(raw, 10, false);
          NumbersAreNotNul(raw, 10, false);
        case 'd' =>
          I2a(AsInt(raw), bf);
          text := Signed(AsInt(raw));
          SignedIsNotNul(AsInt(raw));
        case _ =>
          Ui2a(raw, 16, i.conv == 'X', bf, 0);
          text := Unsigned(raw, 16, i.conv == 'X');
          NumbersAreNotNul(raw, 16, i.conv == 'X');
      }
      BufferText(bf[..], was, text);
      Putchw(i.width, i.zero, bf[..]);
    }

    // tfp_format
    method TfpFormat(fmt: seq<char>, args: seq<Arg>)
      requires CString(fmt) && Match(Items(Chars(fmt)), args)
      requires CStrings(args)
      modifies this
      ensures out == old(out) + Format(Chars(fmt), args)
    {
      hide Items, Render, Match, CStrings;
      var bf := new char[12];
      var va, ch, p, aborted := args, fmt[0], 1, false;
      ghost var s, goal := Chars(fmt), out + Format(Chars(fmt), args);
      assert s[0..] == s;
      while ch != '\0' && !aborted
        invariant aborted ==> out == goal
        invariant !aborted ==> 1 <= p <= |fmt| && ch == fmt[p - 1] && CStrings(va)
        invariant !aborted ==> Match(Items(s[p - 1..]), va) && out + Render(Items(s[p - 1..]), va) == goal
        decreases if aborted then 0 else 1, |fmt| - p
      {
        p, va, aborted := FormatOne(fmt, ch, p, va, bf);
        if !aborted {
          ch, p := fmt[p], p + 1;
        }
      }
      if !aborted {
        assert s[p - 1..] == "";
        Nothing(va);
      }
    }

    // What tfp_format does with the character ch it has just read; aborted is its `goto abort`.
    method FormatOne(fmt: seq<char>, ch: char, p0: nat, va0: seq<Arg>, bf: array<char>)
      returns (p: nat, va: seq<Arg>, aborted: bool)
      requires CString(fmt) && 1 <= p0 < |fmt| && ch == fmt[p0 - 1] && bf.Length == 12
      requires Match(Items(Chars(fmt)[p0 - 1..]), va0) && CStrings(va0)
      modifies this, bf
      ensures var all := old(out) + Render(Items(Chars(fmt)[p0 - 1..]), va0);
        if aborted then out == all
        else
          && p0 <= p < |fmt| && CStrings(va) && Match(Items(Chars(fmt)[p..]), va)
          && out + Render(Items(Chars(fmt)[p..]), va) == all
    {
      hide Items, Render, Match, ItemText, Suits, Prefix, ArgsAfter, CStrings;
      ghost var s, rest := Chars(fmt), Chars(fmt)[p0 - 1..];
      assert rest[0] == ch && rest[1..] == s[p0..];
      p, va, aborted := p0, va0, false;
      if ch != '%' {
        LiteralStep(rest, va0);
        Putf(ch);
      } else {
        SpecStep(rest, va0);
        var c, lz, w;
        c, p, lz, w := ReadPrefix(fmt, p0);
        ghost var n := p - 1 - p0;
        if c == '\0' {
          assert rest[1..][n..] == "";
          aborted := true;
        } else {
          assert rest[1..][n..] == s[p - 1..] && s[p - 1..][0] == c && s[p - 1..][1..] == s[p..];
          va := PrintSpec(Spec(c, lz, w), va0, bf);
        }
      }
    }

    // The switch of tfp_format.
    method PrintSpec(i: Item, va0: seq<Arg>, bf: array<char>) returns (va: seq<Arg>)
      requires i.Spec? && bf.Length == 12
      requires Suits(i, va0) && CStrings(va0)
      modifies this, bf
      ensures va == ArgsAfter(i, va0) && CStrings(va) && out == old(out) + ItemText(i, va0)
    {
      va := va0;
      match i.conv {
        case 'c' =>
          Putf((va[0].raw % 256) as char);
          va := va[1..];
        case 's' =>
          ToNulIs(va[0].text + ['\0'], va[0].text);
          Putchw(i.width, false, va[0].text + ['\0']);
          va := va[1..];
        case '%' =>
          Putf('%');
        case _ =>
          if i.conv in "udxX" {
            PrintNumber(i, va[0].raw, bf);
            va := va[1..];
          }
      }
    }
  }

  lemma SignedIsNotNul(num: int32)
    ensures '\0' !in Signed(num)
  {
    hide Unsigned;
    if num < 0 {
      NumbersAreNotNul(0 - num, 10, false);
    } else {
      NumbersAreNotNul(num, 10, false);
    }
  }

  // A buffer into which a text and its NUL have been written reads as that text.
  lemma BufferText(bf: seq<char>, was: seq<char>, s: string)
    requires Written(bf, was, 0, s + ['\0']) && '\0' !in s
    ensures '\0' in bf && ToNul(bf) == s
  {
    assert bf[|s|] == '\0' && bf[..|s|] == s;
    ToNulIs(bf, s);
  }

  lemma LiteralStep(s: string, va: seq<Arg>)
    requires s != [] && s[0] != '%' && Match(Items(s), va)
    ensures Match(Items(s[1..]), va) && Render(Items(s), va) == [s[0]] + Render(Items(s[1..]), va)
  {
    assert Items(s)[1..] == Items(s[1..]);
  }

  lemma SpecStep(s: string, va: seq<Arg>)
    requires s != [] && s[0] == '%' && Match(Items(s), va)
    ensures var (zero, width, n) := Prefix(s[1..]);
      var t := s[1..][n..];
      if t == [] then Render(Items(s), va) == ""
      else
        var i := Spec(t[0], zero, width);
        && Suits(i, va) && Match(Items(t[1..]), ArgsAfter(i, va))
        && Render(Items(s), va) == ItemText(i, va) + Render(Items(t[1..]), ArgsAfter(i, va))
  {
    var (zero, width, n) := Prefix(s[1..]);
    var t := s[1..][n..];
    if t != [] {
      assert Items(s)[1..] == Items(t[1..]);
    }
  }

  lemma Nothing(va: seq<Arg>)
    ensures Items("") == [] && Match([], va) && Render([], va) == ""
  {
  }
}
