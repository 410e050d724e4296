/** What `printf_helper` of Kernel/Library/printf.cpp prints, given by a grammar for the directives and a
    rendering of each. Characters are bytes; arguments are words of the stack, in order; `text` gives the
    string at an address. */
module PrintfSpec {
  import opened Words

  /** A C string, without its final NUL; it fits the address space. */
  type Text = s: string | '\0' !in s && |s| < 0xFFFF_FFFF

  // ---------- Digits ----------

  function DigitChar(d: nat, capitals: bool): char
    requires d < 16
  {
    if d < 10 then ('0' as int + d) as char
    else if capitals then ('A' as int + d - 10) as char
    else ('a' as int + d - 10) as char
  }

  /** The radices of the conversions. */
  datatype Radix = Octal | Decimal | Hexadecimal

  function Times(n: nat, radix: Radix): nat {
    match radix
    case Octal => 8 * n
    case Decimal => 10 * n
    case Hexadecimal => 16 * n
  }

  function Quotient(n: nat, radix: Radix): (q: nat)
    ensures q == 0 || q < n
  {
    match radix
    case Octal => n / 8
    case Decimal => n / 10
    case Hexadecimal => n / 16
  }

  function Remainder(n: nat, radix: Radix): (r: nat)
    ensures r < 16 && n == Times(Quotient(n, radix), radix) + r
  {
    match radix
    case Octal => n % 8
    case Decimal => n % 10
    case Hexadecimal => n % 16
  }

  /** The digits of a number, most significant first. */
  function Digits(n: nat, radix: Radix, capitals: bool): (s: string)
    ensures |s| > 0 && '\0' !in s
  {
    var q, last := Quotient(n, radix), [DigitChar(Remainder(n, radix), capitals)];
    if q == 0 then last else Digits(q, radix, capitals) + last
  }

  function DigitValue(c: char): nat {
    if '0' <= c <= '9' then c as int - '0' as int
    else if 'A' <= c <= 'F' then c as int - 'A' as int + 10
    else if 'a' <= c <= 'f' then c as int - 'a' as int + 10
    else 0
  }

  /** The number a row of digits stands for. */
  function ReadBack(s: string, radix: Radix): nat {
    if s == "" then 0 else Times(ReadBack(s[..|s| - 1], radix), radix) + DigitValue(s[|s| - 1])
  }

  lemma DigitReadsBack(d: nat, capitals: bool)
    requires d < 16
    ensures DigitValue(DigitChar(d, capitals)) == d
  {
  }

  lemma ReadBackLast(s: string, c: char, radix: Radix)
    ensures ReadBack(s + [c], radix) == Times(ReadBack(s, radix), radix) + DigitValue(c)
  {
    assert (s + [c])[..|s|] == s;
  }

  /** The digits of a number stand for it. */
  lemma {:induction false} DigitsReadBack(n: nat, radix: Radix, capitals: bool)
    ensures ReadBack(Digits(n, radix, capitals), radix) == n
  {
    var q, r := Quotient(n, radix), Remainder(n, radix);
    DigitReadsBack(r, capitals);
    if q == 0 {
      ReadBackLast("", DigitChar(r, capitals), radix);
      assert "" + [DigitChar(r, capitals)] == [DigitChar(r, capitals)];
    } else {
      DigitsReadBack(q, radix, capitals);
      ReadBackLast(Digits(q, radix, capitals), DigitChar(r, capitals), radix);
    }
  }

  function Power(radix: Radix, k: nat): nat {
    if k == 0 then 1 else Times(Power(radix, k - 1), radix)
  }

  /** A number below radix^k has at most k digits. */
  lemma {:induction false} DigitsLength(n: nat, radix: Radix, capitals: bool, k: nat)
    requires k > 0 && n < Power(radix, k)
    ensures |Digits(n, radix, capitals)| <= k
    decreases k
  {
    if Quotient(n, radix) > 0 {
      assert Quotient(n, radix) < Power(radix, k - 1);
      assert k > 1;
      DigitsLength(Quotient(n, radix), radix, capitals, k - 1);
    }
  }

  /** A number from radix^k on has more than k digits. */
  lemma {:induction false} DigitsAtLeast(n: nat, radix: Radix, capitals: bool, k: nat)
    requires n >= Power(radix, k)
    ensures |Digits(n, radix, capitals)| > k
    decreases k
  {
    if k > 0 {
      PowerPositive(radix, k - 1);
      assert Quotient(n, radix) >= Power(radix, k - 1);
      DigitsAtLeast(Quotient(n, radix), radix, capitals, k - 1);
    }
  }

  lemma {:induction false} PowerPositive(radix: Radix, k: nat)
    ensures Power(radix, k) > 0
  {
    if k > 0 {
      PowerPositive(radix, k - 1);
    }
  }

  // ---------- Fields ----------

  function Repeat(c: char, n: nat): (s: string)
    ensures |s| == n
  {
    if n == 0 then "" else Repeat(c, n - 1) + [c]
  }

  function Padding(width: nat, length: nat): nat {
    if length < width then width - length else 0
  }

  function Sign(negative: bool): string {
    if negative then "-" else ""
  }

  /** A sign and a text in a field: padded on the right, or on the left with zeros behind the sign, or on
      the left with spaces in front of it. `length` is what the text counts for. */
  function Field(left: bool, zero: bool, sign: string, text: string, length: nat, width: nat): string {
    var pad := Padding(width, |sign| + length);
    Front(left, zero, sign, pad) + text + Repeat(' ', if left then pad else 0)
  }

  function Front(left: bool, zero: bool, sign: string, pad: nat): string {
    if left then sign else if zero then sign + Repeat('0', pad) else Repeat(' ', pad) + sign
  }

  /** The field is as long as its content or the width, whichever is more. */
  lemma FieldLength(left: bool, zero: bool, sign: string, text: string, width: nat)
    ensures var n := |sign| + |text|;
            |Field(left, zero, sign, text, |text|, width)| == if n < width then width else n
  {
  }

  // ---------- Directives ----------

  /** `left` and `zero` are the flags; `wide` says that an L stood among the modifiers. */
  datatype Directive = Directive(left: bool, zero: bool, width: Word, wide: bool, conv: char)

  /** What follows a % sign. */
  datatype Item =
    | Conversion(directive: Directive, rest: string)
    /** %% or %-% */
    | Percent(rest: string)
    /** %-- or a directive cut off by the end of the format */
    | Dropped(rest: string)
    /** The end of the format is stepped over. */
    | Overrun

  predicate IsDigit(c: char) {
    '0' <= c <= '9'
  }

  predicate IsModifier(c: char) {
    c == 'F' || c == 'N' || c == 'z' || c == 'l' || c == 'L' || c == 'h'
  }

  /** [modifiers] conversion */
  function FromModifiers(left: bool, zero: bool, width: Word, wide: bool, f: string): (item: Item)
    ensures item.Conversion? ==> |item.rest| < |f|
    ensures item.Conversion? || item == Dropped("")
    decreases |f|
  {
    if f == "" then Dropped("")
    else if IsModifier(f[0]) then FromModifiers(left, zero, width, wide || f[0] == 'L', f[1..])
    else Conversion(Directive(left, zero, width, wide, f[0]), f[1..])
  }

  /** [width] [modifiers] conversion; the width is kept in 32 bits. */
  function FromWidth(left: bool, zero: bool, width: Word, f: string): (item: Item)
    ensures item.Conversion? ==> |item.rest| < |f|
    ensures item.Conversion? || item == Dropped("")
    decreases |f|
  {
    if f != "" && IsDigit(f[0]) then
      FromWidth(left, zero, (10 * width + DigitValue(f[0])) % 0x1_0000_0000, f[1..])
    else FromModifiers(left, zero, width, false, f)
  }

  /** [0] [width] [modifiers] conversion */
  function FromZero(left: bool, f: string): (item: Item)
    requires f != ""
    ensures item.Conversion? ==> |item.rest| < |f|
    ensures !item.Percent?
    ensures item.Dropped? ==> item.rest == ""
  {
    if f[0] != '0' then FromWidth(left, false, 0, f)
    else if f == "0" then Overrun
    else FromWidth(left, true, 0, f[1..])
  }

  /** After %-. */
  function AfterDash(f: string): (item: Item)
    ensures !item.Overrun? ==> |item.rest| <= |f|
  {
    if f == "" then Dropped("")
    else if f[0] == '%' then Percent(f[1..])
    else if f[0] == '-' then Dropped(f[1..])
    else FromZero(true, f)
  }

  /** After %. */
  function AfterPercent(f: string): (item: Item)
    ensures !item.Overrun? ==> |item.rest| <= |f|
  {
    if f == "" then Overrun
    else if f[0] == '%' then Percent(f[1..])
    else if f[0] == '-' then AfterDash(f[1..])
    else FromZero(false, f)
  }

  // ---------- Rendering ----------

  predicate IsNumber(conv: char) {
    IsPointer(conv) || IsSigned(conv) || conv == 'n' || conv == 'u' || conv == 'o'
  }

  /** Printed like a pointer: eight hexadecimal digits. */
  predicate IsPointer(conv: char) {
    conv == 'X' || conv == 'x' || conv == 'p'
  }

  predicate IsSigned(conv: char) {
    conv == 'd' || conv == 'i'
  }

  function RadixOf(conv: char): Radix {
    if IsPointer(conv) || conv == 'n' then Hexadecimal else if conv == 'o' then Octal else Decimal
  }

  /** The magnitude of a word, and its sign when the conversion is signed. */
  function Magnitude(w: Word, signed: bool): Word {
    if Negative(w, signed) then 0x1_0000_0000 - w else w
  }

  predicate Negative(w: Word, signed: bool) {
    signed && w >= 0x8000_0000
  }

  /** The stack words a directive takes. */
  function Taken(d: Directive): nat {
    if IsNumber(d.conv) then if d.wide then 2 else 1 else if d.conv == 'c' || d.conv == 's' then 1 else 0
  }

  /** Hexadecimal conversions with x, X and p always have width 8 and zero padding; strings and characters
      never have zero padding; anything else prints nothing. */
  function Render(d: Directive, w: Word, text: Word -> Text): string {
    if IsNumber(d.conv) then
      var pointer, signed := IsPointer(d.conv), IsSigned(d.conv);
      var digits := Digits(Magnitude(w, signed), RadixOf(d.conv), d.conv == 'X');
      Field(d.left, d.zero || pointer, Sign(Negative(w, signed)), digits, |digits|, if pointer then 8 else d.width)
    else if d.conv == 's' then Field(d.left, false, "", text(w), |text(w)|, d.width)
    else if d.conv == 'c' then Field(d.left, false, "", CharText(w), 1, d.width)
    else ""
  }

  /** A NUL character prints nothing, though it counts for one. */
  function CharText(w: Word): string {
    if w % 256 == 0 then "" else [(w % 256) as char]
  }

  datatype Output = Output(out: string, overrun: bool)

  /** The format from f on, arguments from word k on. */
  function Format(f: string, args: nat -> Word, k: nat, text: Word -> Text): Output
    decreases |f|, 1
  {
    if f == "" then Output("", false)
    else if f[0] != '%' then Behind([f[0]], Format(f[1..], args, k, text))
    else FormatItem(AfterPercent(f[1..]), args, k, text)
  }

  function Behind(s: string, o: Output): Output {
    Output(s + o.out, o.overrun)
  }

  /** A directive, then the rest of the format. */
  function FormatItem(item: Item, args: nat -> Word, k: nat, text: Word -> Text): Output
    decreases if item.Overrun? then 0 else |item.rest|, 2
  {
    match item
    case Overrun => Output("", true)
    case Percent(rest) => Behind("%", Format(rest, args, k, text))
    case Dropped(rest) => Format(rest, args, k, text)
    case Conversion(d, rest) => Behind(Render(d, args(k), text), Format(rest, args, k + Taken(d), text))
  }

  // ---------- What the specification promises ----------

  /** A signed number reads back as its magnitude, with a minus sign exactly below zero; read as a 32-bit
      two's complement value it is the argument. */
  lemma SignedValue(w: Word)
    ensures var v := if w >= 0x8000_0000 then w - 0x1_0000_0000 else w;
            && (Negative(w, true) <==> v < 0)
            && Magnitude(w, true) == (if v < 0 then -v else v)
            && ReadBack(Digits(Magnitude(w, true), Decimal, false), Decimal) == (if v < 0 then -v else v)
  {
    DigitsReadBack(Magnitude(w, true), Decimal, false);
  }

  lemma {:induction false} ZerosAreNothing(n: nat, radix: Radix)
    ensures ReadBack(Repeat('0', n), radix) == 0
  {
    if n > 0 {
      ZerosAreNothing(n - 1, radix);
      ReadBackLast(Repeat('0', n - 1), '0', radix);
    }
  }

  /** Zeros in front do not change the number. */
  lemma {:induction false} ZerosReadBack(zeros: string, s: string, radix: Radix)
    requires ReadBack(zeros, radix) == 0
    ensures ReadBack(zeros + s, radix) == ReadBack(s, radix)
  {
    if s == "" {
      assert zeros + s == zeros;
    } else {
      var front, last := s[..|s| - 1], s[|s| - 1];
      ZerosReadBack(zeros, front, radix);
      assert zeros + s == (zeros + front) + [last];
      ReadBackLast(zeros + front, last, radix);
    }
  }

  /** Without -, a pointer or hexadecimal number is exactly eight characters that read back as the word,
      whatever width the format asks for. */
  lemma HexIsEightDigits(d: Directive, w: Word, text: Word -> Text)
    requires IsPointer(d.conv) && !d.left
    ensures |Render(d, w, text)| == 8 && ReadBack(Render(d, w, text), Hexadecimal) == w
  {
    HexDigits(w, d.conv == 'X');
    var digits := Digits(w, Hexadecimal, d.conv == 'X');
    assert Render(d, w, text) == Repeat('0', 8 - |digits|) + digits;
  }

  lemma HexDigits(w: Word, capitals: bool)
    ensures var digits := Digits(w, Hexadecimal, capitals);
            |digits| <= 8 && ReadBack(Repeat('0', 8 - |digits|) + digits, Hexadecimal) == w
  {
    assert Power(Hexadecimal, 8) == 0x1_0000_0000 by {
      assert Power(Hexadecimal, 2) == 256;
      assert Power(Hexadecimal, 4) == 0x1_0000;
      assert Power(Hexadecimal, 6) == 0x100_0000;
    }
    var digits := Digits(w, Hexadecimal, capitals);
    DigitsLength(w, Hexadecimal, capitals, 8);
    DigitsReadBack(w, Hexadecimal, capitals);
    ZerosAreNothing(8 - |digits|, Hexadecimal);
    ZerosReadBack(Repeat('0', 8 - |digits|), digits, Hexadecimal);
  }

  /** A number or a string fills its field: as long as the width or the content, whichever is more. */
  lemma FieldsAreFilled(d: Directive, w: Word, text: Word -> Text)
    requires d.conv == 's' || (IsNumber(d.conv) && !IsPointer(d.conv))
    ensures var signed := IsSigned(d.conv);
            var n := if d.conv == 's' then |text(w)|
                     else |Digits(Magnitude(w, signed), RadixOf(d.conv), false)| + if Negative(w, signed) then 1 else 0;
            |Render(d, w, text)| == if n < d.width then d.width else n
  {
  }

  /** A character fills its field exactly when it is not NUL; a NUL leaves it one short. */
  lemma CharFieldFilledIff(d: Directive, w: Word, text: Word -> Text)
    requires d.conv == 'c'
    ensures |Render(d, w, text)| == (if d.width > 1 then d.width else 1) <==> w % 256 != 0
  {
  }

  /** With %5c a NUL is printed as four spaces. */
  lemma CharFieldShort(d: Directive, w: Word, text: Word -> Text)
    requires d == Directive(false, false, 5, false, 'c') && w % 256 == 0
    ensures Render(d, w, text) == "    "
  {
    assert Repeat(' ', 4) == "    ";
    assert Repeat(' ', 4) + "" == Repeat(' ', 4);
  }

  // ---------- Reading a printed number back ----------

  /** The text without spaces and minus signs. */
  function Strip(s: string): string {
    if s == "" then ""
    else Strip(s[..|s| - 1]) + if s[|s| - 1] == ' ' || s[|s| - 1] == '-' then "" else [s[|s| - 1]]
  }

  lemma {:induction false} StripJoined(s: string, t: string)
    ensures Strip(s + t) == Strip(s) + Strip(t)
  {
    if t == "" {
      assert s + t == s;
    } else {
      var front := t[..|t| - 1];
      assert (s + t)[..|s + t| - 1] == s + front;
      StripJoined(s, front);
    }
  }

  lemma StripChar(c: char)
    ensures Strip([c]) == if c == ' ' || c == '-' then "" else [c]
  {
    assert [c][..0] == "";
  }

  lemma {:induction false} StripSpaces(n: nat)
    ensures Strip(Repeat(' ', n)) == "" && '-' !in Repeat(' ', n)
  {
    if n > 0 {
      StripSpaces(n - 1);
      StripJoined(Repeat(' ', n - 1), [' ']);
      StripChar(' ');
    }
  }

  lemma {:induction false} StripZeros(n: nat)
    ensures Strip(Repeat('0', n)) == Repeat('0', n) && '-' !in Repeat('0', n)
  {
    if n > 0 {
      StripZeros(n - 1);
      StripJoined(Repeat('0', n - 1), ['0']);
      StripChar('0');
    }
  }

  lemma {:induction false} StripDigits(n: nat, radix: Radix, capitals: bool)
    ensures Strip(Digits(n, radix, capitals)) == Digits(n, radix, capitals) && '-' !in Digits(n, radix, capitals)
  {
    var q, c := Quotient(n, radix), DigitChar(Remainder(n, radix), capitals);
    StripChar(c);
    if q != 0 {
      StripDigits(q, radix, capitals);
      StripJoined(Digits(q, radix, capitals), [c]);
    }
  }

  lemma StripSign(negative: bool)
    ensures Strip(Sign(negative)) == "" && ('-' in Sign(negative) <==> negative)
  {
    StripChar('-');
    assert "-" == ['-'];
  }

  /** What stands in front of the digits strips to zeros, if to anything. */
  lemma StripFront(left: bool, zero: bool, negative: bool, pad: nat)
    ensures var front := Front(left, zero, Sign(negative), pad);
            && Strip(front) == (if !left && zero then Repeat('0', pad) else "")
            && ('-' in front <==> negative)
  {
    StripSign(negative);
    if !left && zero {
      StripZeros(pad);
      StripJoined(Sign(negative), Repeat('0', pad));
    } else if !left {
      StripSpaces(pad);
      StripJoined(Repeat(' ', pad), Sign(negative));
    }
  }

  lemma StripThree(front: string, text: string, back: string)
    requires Strip(back) == ""
    ensures Strip(front + text + back) == Strip(front) + Strip(text)
  {
    StripJoined(front, text);
    StripJoined(front + text, back);
    assert Strip(front + text) + "" == Strip(front + text);
  }

  /** Stripped of blanks and sign, a field of digits is zeros and the digits. */
  lemma StripField(left: bool, zero: bool, negative: bool, n: nat, radix: Radix, capitals: bool, width: nat)
    ensures var digits := Digits(n, radix, capitals);
            var f := Field(left, zero, Sign(negative), digits, |digits|, width);
            ReadBack(Strip(f), radix) == n && ('-' in f <==> negative)
  {
    var digits := Digits(n, radix, capitals);
    var pad := Padding(width, |Sign(negative)| + |digits|);
    var back := Repeat(' ', if left then pad else 0);
    StripFront(left, zero, negative, pad);
    StripDigits(n, radix, capitals);
    StripSpaces(if left then pad else 0);
    StripThree(Front(left, zero, Sign(negative), pad), digits, back);
    var zeros := if !left && zero then Repeat('0', pad) else "";
    ZerosAreNothing(pad, radix);
    ZerosReadBack(zeros, digits, radix);
    DigitsReadBack(n, radix, capitals);
  }

  /** Every printed number, with any flags and any width, reads back as its magnitude and its sign. */
  lemma RenderReadsBack(d: Directive, w: Word, text: Word -> Text)
    requires IsNumber(d.conv)
    ensures ReadBack(Strip(Render(d, w, text)), RadixOf(d.conv)) == Magnitude(w, IsSigned(d.conv))
    ensures '-' in Render(d, w, text) <==> Negative(w, IsSigned(d.conv))
  {
    var pointer, signed := IsPointer(d.conv), IsSigned(d.conv);
    StripField(d.left, d.zero || pointer, Negative(w, signed), Magnitude(w, signed), RadixOf(d.conv), d.conv == 'X',
               if pointer then 8 else d.width);
  }

  /** The h modifier is read but does not shorten the number. */
  lemma ShortIsNotTruncated(left: bool, zero: bool, width: Word, f: string)
    requires f != ""
    ensures FromModifiers(left, zero, width, false, "h" + f) == FromModifiers(left, zero, width, false, f)
  {
    assert ("h" + f)[1..] == f;
  }

  /** The low half of a word, read as a short and widened again. */
  function Short(w: Word, signed: bool): Word {
    if signed && w % 0x1_0000 >= 0x8000 then 0xFFFF_0000 + w % 0x1_0000 else w % 0x1_0000
  }

  lemma ShortHolds(w: Word, signed: bool)
    ensures w == Short(w, signed) <==> if signed then w < 0x8000 || 0xFFFF_8000 <= w else w < 0x1_0000
  {
    assert w == w / 0x1_0000 * 0x1_0000 + w % 0x1_0000;
  }

  lemma MagnitudeApart(v: Word, w: Word, signed: bool)
    ensures Magnitude(v, signed) == Magnitude(w, signed) && (Negative(v, signed) <==> Negative(w, signed)) <==> v == w
  {
  }

  /** Different numbers are printed differently, whatever the flags and the width. */
  lemma PrintedApart(d: Directive, v: Word, w: Word, text: Word -> Text)
    requires IsNumber(d.conv)
    ensures Render(d, v, text) == Render(d, w, text) <==> v == w
  {
    if Render(d, v, text) == Render(d, w, text) {
      RenderReadsBack(d, v, text);
      RenderReadsBack(d, w, text);
      MagnitudeApart(v, w, IsSigned(d.conv));
    }
  }

  /** So what is printed for a 16-bit number is right exactly for the values a short can hold. */
  lemma ShortPrintedIff(d: Directive, w: Word, text: Word -> Text)
    requires IsNumber(d.conv)
    ensures Render(d, w, text) == Render(d, Short(w, IsSigned(d.conv)), text)
       <==> if IsSigned(d.conv) then w < 0x8000 || 0xFFFF_8000 <= w else w < 0x1_0000
  {
    PrintedApart(d, w, Short(w, IsSigned(d.conv)), text);
    ShortHolds(w, IsSigned(d.conv));
  }

  lemma OneDirective(f: string, d: Directive, args: nat -> Word, text: Word -> Text)
    requires AfterPercent(f) == Conversion(d, "")
    ensures Format("%" + f, args, 0, text) == Output(Render(d, args(0), text), false)
  {
    assert ("%" + f)[1..] == f && ("%" + f)[0] == '%';
    assert Format("%" + f, args, 0, text) == FormatItem(AfterPercent(f), args, 0, text);
    assert Format("", args, Taken(d), text) == Output("", false);
    assert Render(d, args(0), text) + "" == Render(d, args(0), text);
  }

  /** A format that asks for a short prints the short exactly when the argument is one. */
  lemma ShortFormatIff(c: char, args: nat -> Word, shorts: nat -> Word, text: Word -> Text)
    requires IsNumber(c) && shorts(0) == Short(args(0), IsSigned(c))
    ensures Format("%" + ("h" + [c]), args, 0, text) == Format("%" + [c], shorts, 0, text)
       <==> if IsSigned(c) then args(0) < 0x8000 || 0xFFFF_8000 <= args(0) else args(0) < 0x1_0000
  {
    var d := Directive(false, false, 0, false, c);
    assert [c][1..] == "";
    ShortIsNotTruncated(false, false, 0, [c]);
    OneDirective("h" + [c], d, args, text);
    OneDirective([c], d, shorts, text);
    ShortPrintedIff(d, args(0), text);
  }

  lemma ShortDirective(d: Directive)
    requires d == Directive(false, false, 0, false, 'd')
    ensures AfterPercent("hd") == Conversion(d, "")
  {
    assert "hd"[1..] == "d" && "d"[1..] == "";
  }

  /** With %hd the word 70000 is not printed as the short it holds, 4464. */
  lemma ShortOverflows(d: Directive, w: Word, text: Word -> Text)
    requires d == Directive(false, false, 0, false, 'd') && w == 70000
    ensures AfterPercent("hd") == Conversion(d, "") && Short(w, true) == 4464
    ensures Render(d, w, text) != Render(d, Short(w, true), text)
  {
    ShortDirective(d);
    var short := ShortOf70000(w);
    PrintedApart(d, w, short, text);
  }

  lemma ShortOf70000(w: Word) returns (short: Word)
    requires w == 70000
    ensures short == Short(w, true) == 4464
  {
    short := Short(w, true);
  }

  /** A pointer or hexadecimal number ignores the width of the format. Its field is as long as the wider of
      that width and its digits exactly when the width is eight, or smaller with all eight digits in use. */
  lemma HexWidthIff(d: Directive, w: Word, text: Word -> Text)
    requires IsPointer(d.conv)
    ensures var n := |Digits(w, Hexadecimal, d.conv == 'X')|;
            (|Render(d, w, text)| == if n < d.width then d.width else n)
            <==> d.width == 8 || (d.width < 8 && w >= 0x1000_0000)
  {
    var digits := Digits(w, Hexadecimal, d.conv == 'X');
    HexDigits(w, d.conv == 'X');
    FieldLength(d.left, true, "", digits, 8);
    assert Power(Hexadecimal, 7) == 0x1000_0000 by {
      assert Power(Hexadecimal, 2) == 256;
      assert Power(Hexadecimal, 4) == 0x1_0000;
    }
    if w >= 0x1000_0000 {
      DigitsAtLeast(w, Hexadecimal, d.conv == 'X', 7);
    } else {
      DigitsLength(w, Hexadecimal, d.conv == 'X', 7);
    }
  }

  /** With %4x the number 255 is printed in eight characters, and its field should have four. */
  lemma HexWidthIgnored(d: Directive, w: Word, text: Word -> Text)
    requires d == Directive(false, false, 4, false, 'x') && w == 255
    ensures |Render(d, w, text)| == 8 && |Digits(w, Hexadecimal, false)| < 4
  {
    HexDigits(w, false);
    DigitsLength(w, Hexadecimal, false, 2);
    FieldLength(d.left, true, "", Digits(w, Hexadecimal, false), 8);
  }

  // ---------- The end of the format ----------

  /** A directive steps over the end of the format exactly when the format ends right behind the % or
      right behind a zero flag. */
  lemma OverrunsIff(f: string)
    ensures AfterPercent(f).Overrun? <==> f == "" || f == "0" || f == "-0"
  {
    if f != "" && f[0] == '-' && f[1..] == "0" {
      assert f == "-0";
    }
  }

  /** A format that does not end in % or 0 is never overrun. */
  lemma {:induction false} SafeEnding(f: string, args: nat -> Word, k: nat, text: Word -> Text)
    requires f != "" ==> f[|f| - 1] != '%' && f[|f| - 1] != '0'
    ensures !Format(f, args, k, text).overrun
    decreases |f|
  {
    if f == "" {
    } else if f[0] != '%' {
      SafeEnding(f[1..], args, k, text);
    } else {
      OverrunsIff(f[1..]);
      var item := AfterPercent(f[1..]);
      RestIsTail(f[1..]);
      if item.Conversion? {
        SafeEnding(item.rest, args, k + Taken(item.directive), text);
      } else if !item.Overrun? {
        SafeEnding(item.rest, args, k, text);
      }
    }
  }

  predicate Tail(r: string, f: string) {
    |r| <= |f| && r == f[|f| - |r|..]
  }

  lemma {:induction false} ModifiersTail(left: bool, zero: bool, width: Word, wide: bool, f: string)
    ensures Tail(FromModifiers(left, zero, width, wide, f).rest, f)
    decreases |f|
  {
    if f != "" && IsModifier(f[0]) {
      ModifiersTail(left, zero, width, wide || f[0] == 'L', f[1..]);
    }
  }

  lemma {:induction false} WidthTail(left: bool, zero: bool, width: Word, f: string)
    ensures Tail(FromWidth(left, zero, width, f).rest, f)
    decreases |f|
  {
    if f != "" && IsDigit(f[0]) {
      WidthTail(left, zero, (10 * width + DigitValue(f[0])) % 0x1_0000_0000, f[1..]);
    } else {
      ModifiersTail(left, zero, width, false, f);
    }
  }

  lemma TailOfTail(r: string, f: string)
    requires f != "" && Tail(r, f[1..])
    ensures Tail(r, f)
  {
  }

  lemma ZeroTail(left: bool, f: string)
    requires f != "" && !FromZero(left, f).Overrun?
    ensures Tail(FromZero(left, f).rest, f)
  {
    if f[0] != '0' {
      WidthTail(left, false, 0, f);
    } else {
      WidthTail(left, true, 0, f[1..]);
      TailOfTail(FromZero(left, f).rest, f);
    }
  }

  /** What is left after a directive is the end of the format. */
  lemma RestIsTail(f: string)
    ensures !AfterPercent(f).Overrun? ==> Tail(AfterPercent(f).rest, f)
  {
    if f != "" && !AfterPercent(f).Overrun? && f[0] != '%' {
      if f[0] != '-' {
        ZeroTail(false, f);
      } else if f[1..] == "" || f[1] == '%' || f[1] == '-' {
        assert AfterPercent(f).rest == f[if |f| == 1 then 1 else 2..];
      } else {
        ZeroTail(true, f[1..]);
        TailOfTail(AfterPercent(f).rest, f);
      }
    }
  }

  /** Where the machine stands between two characters, whatever it has read. */
  datatype Mode = InText | BehindPercent | BehindDash | BehindZero | InWidth | InModifiers

  function NextMode(m: Mode, c: char): Mode {
    if m.InText? then if c == '%' then BehindPercent else InText
    else if c == '%' then InText
    else if c == '-' && m.BehindPercent? then BehindDash
    else if c == '0' && (m.BehindPercent? || m.BehindDash?) then BehindZero
    else if IsDigit(c) && !m.InModifiers? then InWidth
    else if IsModifier(c) then InModifiers
    else InText
  }

  function ModeAfter(m: Mode, f: string): Mode
    decreases |f|
  {
    if f == "" then m else ModeAfter(NextMode(m, f[0]), f[1..])
  }

  /** This beginning of a format leaves the machine in state 0. */
  predicate Complete(f: string) {
    ModeAfter(InText, f) == InText
  }

  /** In these modes the character behind has been fetched already. */
  predicate Open(m: Mode) {
    m.BehindPercent? || m.BehindZero?
  }

  lemma {:induction false} ModifiersMode(left: bool, zero: bool, width: Word, wide: bool, f: string)
    ensures Open(ModeAfter(InModifiers, f)) <==> Open(ModeAfter(InText, FromModifiers(left, zero, width, wide, f).rest))
    decreases |f|
  {
    if f != "" && IsModifier(f[0]) {
      ModifiersMode(left, zero, width, wide || f[0] == 'L', f[1..]);
    }
  }

  lemma {:induction false} WidthMode(left: bool, zero: bool, width: Word, f: string)
    ensures Open(ModeAfter(InWidth, f)) <==> Open(ModeAfter(InText, FromWidth(left, zero, width, f).rest))
    decreases |f|
  {
    if f != "" && IsDigit(f[0]) {
      WidthMode(left, zero, (10 * width + DigitValue(f[0])) % 0x1_0000_0000, f[1..]);
    } else {
      ModifiersMode(left, zero, width, false, f);
      if f != "" && IsModifier(f[0]) {
        assert ModeAfter(InWidth, f) == ModeAfter(InModifiers, f);
      }
    }
  }

  /** The machine is open at the end exactly when the directive overruns, or the rest of the format does. */
  predicate Agrees(item: Item, m: Mode, f: string) {
    Open(ModeAfter(m, f)) <==> item.Overrun? || Open(ModeAfter(InText, item.rest))
  }

  lemma ZeroMode(left: bool, f: string, m: Mode)
    requires f != "" && f[0] != '%' && f[0] != '-' && (m.BehindPercent? || m.BehindDash?)
    ensures Agrees(FromZero(left, f), m, f)
  {
    if f[0] != '0' {
      WidthMode(left, false, 0, f);
      assert NextMode(m, f[0]) == NextMode(InWidth, f[0]);
    } else if f != "0" {
      WidthMode(left, true, 0, f[1..]);
      assert NextMode(BehindZero, f[1]) == NextMode(InWidth, f[1]);
      assert ModeAfter(BehindZero, f[1..]) == ModeAfter(InWidth, f[1..]);
    }
  }

  lemma DashMode(f: string)
    ensures Agrees(AfterDash(f), BehindDash, f)
  {
    if f != "" && f[0] != '%' && f[0] != '-' {
      ZeroMode(true, f, BehindDash);
    }
  }

  lemma PercentMode(f: string)
    ensures Agrees(AfterPercent(f), BehindPercent, f)
  {
    if f != "" && f[0] == '-' {
      DashMode(f[1..]);
    } else if f != "" && f[0] != '%' {
      ZeroMode(false, f, BehindPercent);
    }
  }

  lemma {:induction false} OverrunMode(f: string, args: nat -> Word, k: nat, text: Word -> Text)
    ensures Format(f, args, k, text).overrun <==> Open(ModeAfter(InText, f))
    decreases |f|
  {
    if f == "" {
    } else if f[0] != '%' {
      OverrunMode(f[1..], args, k, text);
    } else {
      PercentMode(f[1..]);
      var item := AfterPercent(f[1..]);
      if item.Conversion? {
        OverrunMode(item.rest, args, k + Taken(item.directive), text);
      } else if !item.Overrun? {
        OverrunMode(item.rest, args, k, text);
      }
    }
  }

  lemma {:induction false} ModeBehind(m: Mode, f: string, g: string)
    ensures ModeAfter(m, f + g) == ModeAfter(ModeAfter(m, f), g)
    decreases |f|
  {
    if f == "" {
      assert f + g == g;
    } else {
      assert (f + g)[1..] == f[1..] + g;
      ModeBehind(NextMode(m, f[0]), f[1..], g);
    }
  }

  /** From character n on, behind a complete beginning, only an unfinished %, %0 or %-0 is left. */
  predicate OpenFrom(f: string, n: nat) {
    n <= |f| && (f[n..] == "%" || f[n..] == "%0" || f[n..] == "%-0") && Complete(f[..n])
  }

  lemma LastMode(f: string)
    requires f != ""
    ensures ModeAfter(InText, f) == NextMode(ModeAfter(InText, f[..|f| - 1]), f[|f| - 1])
  {
    var front, last := f[..|f| - 1], [f[|f| - 1]];
    assert f == front + last;
    ModeBehind(InText, front, last);
    assert last[1..] == "";
  }

  lemma OpenEnds(f: string) returns (n: nat)
    requires Open(ModeAfter(InText, f))
    ensures OpenFrom(f, n)
  {
    LastMode(f);
    n := |f| - 1;
    if f[n] == '0' {
      LastMode(f[..n]);
      n := n - 1;
      assert f[..n + 1][..n] == f[..n];
      if f[n] == '-' {
        LastMode(f[..n]);
        n := n - 1;
        assert f[..n + 1][..n] == f[..n];
        assert f[n..] == "%-0";
      } else {
        assert f[n..] == "%0";
      }
    } else {
      assert f[n..] == "%";
    }
  }

  /** A format is overrun if and only if it ends with %, %0 or %-0 behind a beginning that leaves the
      machine in state 0. */
  lemma OverrunExactly(f: string, args: nat -> Word, k: nat, text: Word -> Text)
    ensures Format(f, args, k, text).overrun <==> exists n: nat :: OpenFrom(f, n)
  {
    OverrunMode(f, args, k, text);
    if Open(ModeAfter(InText, f)) {
      var n := OpenEnds(f);
      assert OpenFrom(f, n);
    }
    forall n: nat | OpenFrom(f, n)
      ensures Open(ModeAfter(InText, f))
    {
      ModeBehind(InText, f[..n], f[n..]);
      assert f == f[..n] + f[n..];
      EndingsOpen();
    }
  }

  lemma EndingsOpen()
    ensures Open(ModeAfter(InText, "%")) && Open(ModeAfter(InText, "%0")) && Open(ModeAfter(InText, "%-0"))
  {
    assert "%"[1..] == "" && "%0"[1..] == "0" && "0"[1..] == "" && "%-0"[1..] == "-0" && "-0"[1..] == "0";
    assert ModeAfter(BehindPercent, "") == BehindPercent;
    assert ModeAfter(BehindPercent, "0") == ModeAfter(BehindZero, "") == BehindZero;
    assert ModeAfter(BehindDash, "0") == ModeAfter(BehindZero, "");
    assert ModeAfter(BehindPercent, "-0") == ModeAfter(BehindDash, "0");
  }

  /** A whole format that is overrun: a percent sign meant as text. */
  lemma OverrunExample(args: nat -> Word, text: Word -> Text)
    ensures Format("5%", args, 0, text) == Output("5", true)
  {
    assert "5%"[1..] == "%" && "%"[1..] == "";
    assert Format("%", args, 0, text) == Output("", true);
    assert Format("5%", args, 0, text) == Behind(["5%"[0]], Format("%", args, 0, text));
    assert ["5%"[0]] + "" == "5";
  }
}
