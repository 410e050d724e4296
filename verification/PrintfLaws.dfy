/** What the grammar and the rendering of PrintfSpec mean, said without them: numbers in base 8, 10 and 16, the
    order of sign and padding, directives as they are spelled, and which argument each of them prints. */
module PrintfLaws {
  import opened Words
  import opened PrintfSpec

  // ---------- Bases ----------

  /** The number a row of digits stands for in a base. */
  function Value(s: string, base: nat): nat {
    if s == "" then 0 else base * Value(s[..|s| - 1], base) + DigitValue(s[|s| - 1])
  }

  lemma {:induction false} RadixIsBase(s: string)
    ensures ReadBack(s, Octal) == Value(s, 8)
    ensures ReadBack(s, Decimal) == Value(s, 10)
    ensures ReadBack(s, Hexadecimal) == Value(s, 16)
  {
    if s != "" {
      RadixIsBase(s[..|s| - 1]);
    }
  }

  lemma DigitsMean(c: char)
    ensures '0' <= c <= '9' ==> DigitValue(c) == c as int - 48
    ensures 'a' <= c <= 'f' ==> DigitValue(c) == c as int - 87
    ensures 'A' <= c <= 'F' ==> DigitValue(c) == c as int - 55
  {
  }

  /** A number has no leading zero, but for zero itself; its letters are capitals exactly when asked for. */
  lemma {:induction false} DigitsPlain(n: nat, radix: Radix, capitals: bool)
    ensures var s := Digits(n, radix, capitals);
            && (s[0] == '0' <==> n == 0) && (n == 0 ==> s == "0")
            && forall c | c in s :: '0' <= c <= '9' || if capitals then 'A' <= c <= 'F' else 'a' <= c <= 'f'
  {
    var q := Quotient(n, radix);
    if q != 0 {
      DigitsPlain(q, radix, capitals);
    }
  }

  /** The value of a signed word. */
  function Signed(w: Word): int {
    if w < 0x8000_0000 then w else w - 0x1_0000_0000
  }

  /** d and i print the signed value in decimal, with a minus sign exactly below zero. */
  lemma SignedPrinted(d: Directive, w: Word, text: Word -> Text)
    requires d.conv == 'd' || d.conv == 'i'
    ensures var s := Render(d, w, text);
            if Signed(w) < 0 then Value(Strip(s), 10) == -Signed(w) && '-' in s
            else Value(Strip(s), 10) == Signed(w) && '-' !in s
  {
    RenderReadsBack(d, w, text);
    RadixIsBase(Strip(Render(d, w, text)));
  }

  /** u prints the word in decimal, o in octal, n, x, X and p in hexadecimal, none with a sign. */
  lemma UnsignedPrinted(d: Directive, w: Word, text: Word -> Text)
    requires d.conv in {'u', 'o', 'n', 'x', 'X', 'p'}
    ensures var s := Render(d, w, text);
            '-' !in s && Value(Strip(s), if d.conv == 'u' then 10 else if d.conv == 'o' then 8 else 16) == w
  {
    RenderReadsBack(d, w, text);
    RadixIsBase(Strip(Render(d, w, text)));
  }

  // ---------- Sign and padding ----------

  ghost predicate AllOf(s: string, c: char) {
    forall i :: 0 <= i < |s| ==> s[i] == c
  }

  lemma {:induction false} RepeatIs(c: char, n: nat)
    ensures AllOf(Repeat(c, n), c)
  {
    if n > 0 {
      RepeatIs(c, n - 1);
    }
  }

  /** A field in order: blanks, sign, zeros, text, blanks. With the left flag only blanks behind it; with the zero
      flag only zeros, behind the sign; otherwise only blanks in front of it. */
  lemma FieldLaidOut(left: bool, zero: bool, sign: string, body: string, length: nat, width: nat)
    returns (blanks: string, zeros: string, trail: string)
    ensures Field(left, zero, sign, body, length, width) == blanks + sign + zeros + body + trail
    ensures AllOf(blanks, ' ') && AllOf(zeros, '0') && AllOf(trail, ' ')
    ensures if left then blanks == "" && zeros == "" else trail == "" && if zero then blanks == "" else zeros == ""
    ensures |blanks| + |zeros| + |trail| == if |sign| + length < width then width - (|sign| + length) else 0
  {
    var pad := Padding(width, |sign| + length);
    RepeatIs(' ', pad);
    RepeatIs('0', pad);
    blanks, zeros, trail := "", "", "";
    if left {
      trail := Repeat(' ', pad);
      assert "" + sign + "" == sign;
    } else if zero {
      zeros := Repeat('0', pad);
      assert "" + sign + zeros == sign + zeros;
    } else {
      blanks := Repeat(' ', pad);
      assert blanks + sign + "" == blanks + sign;
    }
  }

  lemma NumberDigits(c: char, w: Word) returns (digits: string)
    requires c in {'d', 'i', 'u', 'o', 'n', 'x', 'X', 'p'}
    ensures digits == Digits(Magnitude(w, IsSigned(c)), RadixOf(c), c == 'X')
    ensures digits != "" && (digits[0] == '0' ==> digits == "0")
    ensures forall e | e in digits :: '0' <= e <= '9' || if c == 'X' then 'A' <= e <= 'F' else 'a' <= e <= 'f'
    ensures Value(digits, if c == 'o' then 8 else if c in {'d', 'i', 'u'} then 10 else 16)
         == if (c == 'd' || c == 'i') && Signed(w) < 0 then -Signed(w) else w
  {
    digits := Digits(Magnitude(w, IsSigned(c)), RadixOf(c), c == 'X');
    DigitsPlain(Magnitude(w, IsSigned(c)), RadixOf(c), c == 'X');
    DigitsReadBack(Magnitude(w, IsSigned(c)), RadixOf(c), c == 'X');
    RadixIsBase(digits);
  }

  /** A printed number in order: blanks, the minus sign if it is below zero, zeros, its digits, blanks. x, X and p
      are padded with zeros to eight characters, whatever the format asks for. */
  lemma NumberLaidOut(d: Directive, w: Word, text: Word -> Text)
    returns (blanks: string, zeros: string, digits: string, trail: string)
    requires d.conv in {'d', 'i', 'u', 'o', 'n', 'x', 'X', 'p'}
    ensures var sign := if (d.conv == 'd' || d.conv == 'i') && Signed(w) < 0 then "-" else "";
            var zero, width := d.zero || d.conv in {'x', 'X', 'p'}, if d.conv in {'x', 'X', 'p'} then 8 else d.width;
            && Render(d, w, text) == blanks + sign + zeros + digits + trail
            && AllOf(blanks, ' ') && AllOf(zeros, '0') && AllOf(trail, ' ')
            && (if d.left then blanks == "" && zeros == "" else trail == "" && if zero then blanks == "" else zeros == "")
            && |Render(d, w, text)| == if |sign| + |digits| < width then width else |sign| + |digits|
    ensures digits != "" && (digits[0] == '0' ==> digits == "0")
    ensures forall c | c in digits :: '0' <= c <= '9' || if d.conv == 'X' then 'A' <= c <= 'F' else 'a' <= c <= 'f'
    ensures Value(digits, if d.conv == 'o' then 8 else if d.conv in {'d', 'i', 'u'} then 10 else 16)
         == if (d.conv == 'd' || d.conv == 'i') && Signed(w) < 0 then -Signed(w) else w
  {
    var pointer, signed := IsPointer(d.conv), IsSigned(d.conv);
    digits := NumberDigits(d.conv, w);
    blanks, zeros, trail := FieldLaidOut(d.left, d.zero || pointer, Sign(Negative(w, signed)), digits, |digits|,
                                         if pointer then 8 else d.width);
  }

  /** A string or a character in its field, never padded with zeros. */
  lemma TextLaidOut(d: Directive, w: Word, text: Word -> Text) returns (blanks: string, trail: string)
    requires d.conv == 's' || d.conv == 'c'
    ensures var body := if d.conv == 's' then text(w) else if w % 256 == 0 then "" else [(w % 256) as char];
            var length := if d.conv == 's' then |text(w)| else 1;
            && Render(d, w, text) == blanks + body + trail
            && AllOf(blanks, ' ') && AllOf(trail, ' ') && (if d.left then blanks == "" else trail == "")
            && |blanks| + |trail| == if length < d.width then d.width - length else 0
  {
    var body := if d.conv == 's' then text(w) else CharText(w);
    var length := if d.conv == 's' then |text(w)| else 1;
    var zeros;
    blanks, zeros, trail := FieldLaidOut(d.left, false, "", body, length, d.width);
    assert blanks + "" == blanks;
    if d.left {
      assert zeros == "";
    }
    assert blanks + zeros == blanks;
  }

  // ---------- Directives as they are spelled ----------

  /** A directive behind its %: flags, width, modifiers, conversion. */
  function Spell(d: Directive, modifiers: string): string {
    (if d.left then "-" else "") + ((if d.zero then "0" else "")
      + ((if d.width == 0 then "" else Digits(d.width, Decimal, false)) + (modifiers + [d.conv])))
  }

  /** A character that stands for a conversion wherever it comes. */
  predicate Plain(c: char) {
    !('0' <= c <= '9') && c !in "%-FNzlLh"
  }

  predicate AllModifiers(s: string) {
    forall i :: 0 <= i < |s| ==> s[i] in "FNzlLh"
  }

  lemma {:induction false} ModifiersRead(left: bool, zero: bool, width: Word, wide: bool, modifiers: string, c: char, rest: string)
    requires AllModifiers(modifiers) && Plain(c)
    ensures FromModifiers(left, zero, width, wide, modifiers + ([c] + rest))
         == Conversion(Directive(left, zero, width, wide || 'L' in modifiers, c), rest)
    decreases |modifiers|
  {
    var f := modifiers + ([c] + rest);
    if modifiers == "" {
      assert f == [c] + rest && f[1..] == rest;
    } else {
      assert f[1..] == modifiers[1..] + ([c] + rest) && f[0] == modifiers[0];
      assert modifiers == [modifiers[0]] + modifiers[1..];
      ModifiersRead(left, zero, width, wide || modifiers[0] == 'L', modifiers[1..], c, rest);
    }
  }

  /** The width after the digits of s, in 32 bits. */
  function Width(v: Word, s: string): Word {
    if s == "" then v else (10 * Width(v, s[..|s| - 1]) + DigitValue(s[|s| - 1])) % 0x1_0000_0000
  }

  lemma {:induction false} WidthHead(v: Word, s: string)
    requires s != ""
    ensures Width(v, s) == Width((10 * v + DigitValue(s[0])) % 0x1_0000_0000, s[1..])
    decreases |s|
  {
    if |s| == 1 {
      assert s[..0] == "" && s[1..] == "";
    } else {
      var front := s[..|s| - 1];
      WidthHead(v, front);
      assert s[1..][..|s[1..]| - 1] == front[1..];
    }
  }

  lemma {:induction false} WidthRead(left: bool, zero: bool, v: Word, s: string, rest: string)
    requires forall c | c in s :: '0' <= c <= '9'
    requires rest != "" && !('0' <= rest[0] <= '9')
    ensures FromWidth(left, zero, v, s + rest) == FromModifiers(left, zero, Width(v, s), false, rest)
    decreases |s|
  {
    if s == "" {
      assert s + rest == rest;
    } else {
      assert (s + rest)[1..] == s[1..] + rest && (s + rest)[0] == s[0];
      assert s[0] in s && forall c | c in s[1..] :: c in s;
      WidthRead(left, zero, (10 * v + DigitValue(s[0])) % 0x1_0000_0000, s[1..], rest);
      WidthHead(v, s);
    }
  }

  lemma {:induction false} WidthIsValue(s: string)
    requires Value(s, 10) < 0x1_0000_0000
    ensures Width(0, s) == Value(s, 10)
    decreases |s|
  {
    if s != "" {
      WidthIsValue(s[..|s| - 1]);
    }
  }

  lemma WidthSpelled(width: Word)
    ensures var s := if width == 0 then "" else Digits(width, Decimal, false);
            Width(0, s) == width && (forall c | c in s :: '0' <= c <= '9') && (s != "" ==> s[0] != '0')
  {
    if width != 0 {
      var s := Digits(width, Decimal, false);
      DigitsPlain(width, Decimal, false);
      DecimalDigits(width);
      DigitsReadBack(width, Decimal, false);
      RadixIsBase(s);
      WidthIsValue(s);
    }
  }

  lemma {:induction false} DecimalDigits(n: nat)
    ensures forall c | c in Digits(n, Decimal, false) :: '0' <= c <= '9'
  {
    if Quotient(n, Decimal) != 0 {
      DecimalDigits(Quotient(n, Decimal));
    }
  }

  /** Round trip: a directive that is spelled out is parsed back, with whatever follows it left over. */
  lemma SpelledIsParsed(d: Directive, modifiers: string, rest: string)
    requires Plain(d.conv) && AllModifiers(modifiers) && (d.wide <==> 'L' in modifiers)
    ensures AfterPercent(Spell(d, modifiers) + rest) == Conversion(d, rest)
  {
    var s := if d.width == 0 then "" else Digits(d.width, Decimal, false);
    var tail := modifiers + ([d.conv] + rest);
    TailIsPlain(modifiers, d.conv, rest);
    WidthSpelled(d.width);
    WidthRead(d.left, d.zero, 0, s, tail);
    ModifiersRead(d.left, d.zero, d.width, false, modifiers, d.conv, rest);
    ZeroSpelled(d, s, tail);
    var z := (if d.zero then "0" else "") + (s + tail);
    SpellJoined(d, modifiers, rest, s);
    DashSpelled(d, z);
  }

  lemma TailIsPlain(modifiers: string, c: char, rest: string)
    requires Plain(c) && AllModifiers(modifiers)
    ensures var tail := modifiers + ([c] + rest); tail != "" && tail[0] !in "0%-" && !('0' <= tail[0] <= '9')
  {
    assert (modifiers + ([c] + rest))[0] == if modifiers == "" then c else modifiers[0];
  }

  lemma SpellJoined(d: Directive, modifiers: string, rest: string, s: string)
    requires s == if d.width == 0 then "" else Digits(d.width, Decimal, false)
    ensures Spell(d, modifiers) + rest
         == (if d.left then "-" else "") + ((if d.zero then "0" else "") + (s + (modifiers + ([d.conv] + rest))))
  {
  }

  lemma DashSpelled(d: Directive, z: string)
    requires z != "" && z[0] !in "%-"
    ensures AfterPercent((if d.left then "-" else "") + z) == FromZero(d.left, z)
  {
    assert ("-" + z)[1..] == z && "" + z == z;
  }

  lemma ZeroSpelled(d: Directive, s: string, tail: string)
    requires tail != "" && tail[0] != '0' && (s != "" ==> s[0] != '0')
    ensures var z := (if d.zero then "0" else "") + (s + tail);
            && z != "" && FromZero(d.left, z) == FromWidth(d.left, d.zero, 0, s + tail)
            && z[0] == if d.zero then '0' else if s != "" then s[0] else tail[0]
  {
    assert ("0" + (s + tail))[1..] == s + tail && "" + (s + tail) == s + tail;
    assert |"0" + (s + tail)| > 1;
  }

  // ---------- Whole formats ----------

  /** Text is echoed up to the first %. */
  lemma {:induction false} TextIsEchoed(s: string, f: string, args: nat -> Word, k: nat, text: Word -> Text)
    requires '%' !in s
    ensures Format(s + f, args, k, text) == Behind(s, Format(f, args, k, text))
    decreases |s|
  {
    if s == "" {
      assert s + f == f;
      assert "" + Format(f, args, k, text).out == Format(f, args, k, text).out;
    } else {
      assert (s + f)[1..] == s[1..] + f && (s + f)[0] == s[0];
      TextIsEchoed(s[1..], f, args, k, text);
      assert [s[0]] + (s[1..] + Format(f, args, k, text).out) == s + Format(f, args, k, text).out;
    }
  }

  /** A directive prints the next argument: a number one word, or two with an L; a character or a string one. */
  lemma DirectiveIsPrinted(d: Directive, modifiers: string, f: string, args: nat -> Word, k: nat, text: Word -> Text)
    requires Plain(d.conv) && AllModifiers(modifiers) && (d.wide <==> 'L' in modifiers)
    ensures var words := if d.conv in "diuonxXp" then if d.wide then 2 else 1 else if d.conv in "cs" then 1 else 0;
            Format("%" + (Spell(d, modifiers) + f), args, k, text)
            == Behind(Render(d, args(k), text), Format(f, args, k + words, text))
  {
    SpelledIsParsed(d, modifiers, f);
    assert ("%" + (Spell(d, modifiers) + f))[1..] == Spell(d, modifiers) + f;
  }

  /** %% prints a percent sign and takes no argument. */
  lemma PercentIsPrinted(f: string, args: nat -> Word, k: nat, text: Word -> Text)
    ensures Format("%%" + f, args, k, text) == Behind("%", Format(f, args, k, text))
  {
    assert ("%%" + f)[1..] == "%" + f && ("%" + f)[1..] == f;
  }

  /** A format of one letter prints its number in the base of the letter: d and i in decimal with their sign, u in
      decimal, o in octal, n, x, X and p in hexadecimal. */
  lemma OneLetterFormats(c: char, args: nat -> Word, text: Word -> Text)
    requires c in {'d', 'i', 'u', 'o', 'n', 'x', 'X', 'p'}
    ensures var o := Format("%" + [c], args, 0, text);
            && !o.overrun
            && (c == 'd' || c == 'i' ==>
                  Value(Strip(o.out), 10) == (if Signed(args(0)) < 0 then -Signed(args(0)) else Signed(args(0)))
                  && ('-' in o.out <==> Signed(args(0)) < 0))
            && (c == 'u' ==> Value(Strip(o.out), 10) == args(0))
            && (c == 'o' ==> Value(Strip(o.out), 8) == args(0))
            && (c in {'n', 'x', 'X', 'p'} ==> Value(Strip(o.out), 16) == args(0))
  {
    var d := Directive(false, false, 0, false, c);
    assert [c][1..] == "";
    OneDirective([c], d, args, text);
    if c == 'd' || c == 'i' {
      SignedPrinted(d, args(0), text);
    } else {
      UnsignedPrinted(d, args(0), text);
    }
  }
}
