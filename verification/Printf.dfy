/** `printf_helper` of Kernel/Library/printf.cpp: one pass over the format by a state machine whose states
    fall through into each other, with a digit buffer filled from the back. */
module Printf {
  import opened Words
  import opened PrintfSpec

  const BUFFER: nat := 32

  /** `state`, the flags that outlive a character, and `given_wd`. */
  datatype Control = Control(state: nat, left: bool, zero: bool, width: Word, wide: bool)

  const RESET: Control := Control(0, false, false, 0, false)

  /** What is still to be printed when the machine stands in front of f. */
  function Resume(c: Control, f: string, args: nat -> Word, k: nat, text: Word -> Text): Output {
    if c.state == 0 then Format(f, args, k, text)
    else if c.state == 1 then FormatItem(AfterDash(f), args, k, text)
    else if c.state == 2 then FormatItem(FromWidth(c.left, c.zero, c.width, f), args, k, text)
    else FormatItem(FromModifiers(c.left, c.zero, c.width, c.wide, f), args, k, text)
  }

  /** The states in which the machine can stand between two characters. */
  predicate Standing(c: Control) {
    && c.state <= 3 && (c.state == 0 ==> c == RESET)
    && (c.state == 1 ==> c == BEHIND_DASH) && (c.state == 2 ==> !c.wide)
  }

  const BEHIND_DASH: Control := Control(1, true, false, 0, false)

  /** What is still to be printed, by the state, the position in the format and the number of the next
      argument word. */
  type Meaning = (Control, nat, nat) -> Output

  ghost predicate Means(meaning: Meaning, fmt: string, args: nat -> Word, text: Word -> Text) {
    forall c: Control, i: nat, k: nat {:trigger Resume(c, fmt[i..], args, k, text)} ::
      i <= |fmt| ==> meaning(c, i, k) == Resume(c, fmt[i..], args, k, text)
  }

  /** A character of text is one step of state 0. */
  lemma TextStep(fmt: string, i: nat, args: nat -> Word, k: nat, text: Word -> Text, meaning: Meaning)
    requires i < |fmt| && fmt[i] != '%' && Means(meaning, fmt, args, text)
    ensures meaning(RESET, i, k) == Behind([fmt[i]], meaning(RESET, i + 1, k))
  {
    assert fmt[i..][1..] == fmt[i + 1..];
    assert meaning(RESET, i, k) == Resume(RESET, fmt[i..], args, k, text);
    assert meaning(RESET, i + 1, k) == Resume(RESET, fmt[i + 1..], args, k, text);
  }

  /** What is still to be printed behind a % or behind %-. */
  function Flagged(left: bool, i: nat, k: nat, meaning: Meaning): Output
    requires !left ==> i > 0
  {
    if left then meaning(BEHIND_DASH, i, k) else meaning(RESET, i - 1, k)
  }

  lemma FlagStep(left: bool, fmt: string, i: nat, args: nat -> Word, k: nat, text: Word -> Text, meaning: Meaning)
    requires i <= |fmt| && Means(meaning, fmt, args, text) && (!left ==> i > 0 && fmt[i - 1] == '%')
    ensures Flagged(left, i, k, meaning) == FormatItem(AfterFlag(left, fmt[i..]), args, k, text)
  {
    if left {
      assert meaning(BEHIND_DASH, i, k) == Resume(BEHIND_DASH, fmt[i..], args, k, text);
    } else {
      assert fmt[i - 1..][1..] == fmt[i..];
      assert meaning(RESET, i - 1, k) == Resume(RESET, fmt[i - 1..], args, k, text);
    }
  }

  lemma FlagPercent(left: bool, fmt: string, i: nat, args: nat -> Word, k: nat, text: Word -> Text, meaning: Meaning)
    requires i < |fmt| && Means(meaning, fmt, args, text) && (!left ==> i > 0 && fmt[i - 1] == '%') && fmt[i] == '%'
    ensures Flagged(left, i, k, meaning) == Behind("%", meaning(RESET, i + 1, k))
  {
    FlagStep(left, fmt, i, args, k, text, meaning);
    assert fmt[i..][1..] == fmt[i + 1..];
    assert meaning(RESET, i + 1, k) == Resume(RESET, fmt[i + 1..], args, k, text);
  }

  lemma FlagDash(left: bool, fmt: string, i: nat, args: nat -> Word, k: nat, text: Word -> Text, meaning: Meaning)
    requires i < |fmt| && Means(meaning, fmt, args, text) && (!left ==> i > 0 && fmt[i - 1] == '%') && fmt[i] == '-'
    ensures Flagged(left, i, k, meaning) == Behind("", meaning(if left then RESET else BEHIND_DASH, i + 1, k))
  {
    var ctl := if left then RESET else BEHIND_DASH;
    FlagStep(left, fmt, i, args, k, text, meaning);
    assert fmt[i..][1..] == fmt[i + 1..];
    assert meaning(ctl, i + 1, k) == Resume(ctl, fmt[i + 1..], args, k, text);
    BehindNothing(meaning(ctl, i + 1, k));
  }

  lemma FlagWidth(left: bool, fmt: string, i: nat, zero: bool, last: nat, args: nat -> Word, k: nat, text: Word -> Text,
                  meaning: Meaning)
    requires i <= |fmt| && Means(meaning, fmt, args, text) && if left then i < |fmt| else i > 0 && fmt[i - 1] == '%'
    requires CharAt(fmt, i) != '%' && CharAt(fmt, i) != '-'
    requires zero == (CharAt(fmt, i) == '0') && last == if zero then i + 1 else i
    ensures last <= |fmt|
    ensures Flagged(left, i, k, meaning)
         == if last == |fmt| then Output("", true) else FormatItem(FromWidth(left, zero, 0, fmt[last..]), args, k, text)
  {
    FlagStep(left, fmt, i, args, k, text, meaning);
    if i < |fmt| {
      assert fmt[i..][1..] == fmt[i + 1..];
    }
  }

  /** A conversion character ends its directive. */
  lemma ConversionStep(ctl: Control, c: char, f: string, args: nat -> Word, k: nat, text: Word -> Text)
    requires !IsModifier(c) && c == if f == "" then '\0' else f[0]
    ensures var d := Directive(ctl.left, ctl.zero, ctl.width, ctl.wide, c);
            if f == "" then Render(d, args(k), text) == "" && Taken(d) == 0
            else FormatItem(FromModifiers(ctl.left, ctl.zero, ctl.width, ctl.wide, f), args, k, text)
                 == Behind(Render(d, args(k), text), Resume(RESET, f[1..], args, k + Taken(d), text))
  {
  }

  lemma BehindBehind(s: string, t: string, o: Output)
    ensures Behind(s, Behind(t, o)) == Behind(s + t, o)
  {
    assert s + (t + o.out) == (s + t) + o.out;
  }

  lemma BehindNothing(o: Output)
    ensures Behind("", o) == o
  {
    assert "" + o.out == o.out;
  }

  /** A 32-bit word shrinks to nothing in eleven octal digits. */
  lemma EnoughDigits(n: nat, radix: Radix, k: nat)
    requires n < Power(Octal, k) && k > 0
    ensures Quotient(n, radix) < Power(Octal, k - 1)
    ensures k == 1 ==> Quotient(n, radix) == 0
  {
  }

  lemma OctalPower()
    ensures Power(Octal, 11) > WORD_MAX
  {
    assert Power(Octal, 3) == 512;
    assert Power(Octal, 6) == 0x4_0000;
    assert Power(Octal, 9) == 0x800_0000;
  }

  /** The conversion loop: digits are written from the end of the buffer, in front of the NUL. The
      buffer never runs out. */
  method ConvertDigits(buf: array<char>, value: Word, radix: Radix, capitals: bool) returns (where: nat)
    requires buf.Length == BUFFER
    modifies buf
    ensures BUFFER - 12 <= where < BUFFER - 1
    ensures buf[where..BUFFER - 1] == Digits(value, radix, capitals) && buf[BUFFER - 1] == '\0'
  {
    where := BUFFER - 1;
    buf[where] := '\0';
    var num: nat := value;
    OctalPower();
    ghost var room, done := 11, "";
    var more := true;
    while more
      invariant 0 <= room <= 11 && where == BUFFER - 12 + room
      invariant num < Power(Octal, room)
      invariant more ==> room > 0
      invariant !more ==> room < 11
      invariant buf[BUFFER - 1] == '\0'
      invariant buf[where..BUFFER - 1] == done
      invariant ToGo(value, radix, capitals, num, more, done)
      decreases if more then num + 1 else 0
    {
      EnoughDigits(num, radix, room);
      DigitsFromTheBack(value, radix, capitals, num, done);
      done := [DigitChar(Remainder(num, radix), capitals)] + done;
      where := WriteDigit(buf, where, Remainder(num, radix), capitals);
      room := room - 1;
      num := Quotient(num, radix);
      more := num != 0;
    }
  }

  /** The digits written so far, behind those of what is left of the number. */
  ghost predicate ToGo(value: nat, radix: Radix, capitals: bool, num: nat, more: bool, done: string) {
    Digits(value, radix, capitals) == (if more then Digits(num, radix, capitals) else "") + done
  }

  lemma DigitsFromTheBack(value: nat, radix: Radix, capitals: bool, num: nat, done: string)
    requires ToGo(value, radix, capitals, num, true, done)
    ensures var q, c := Quotient(num, radix), DigitChar(Remainder(num, radix), capitals);
            ToGo(value, radix, capitals, q, q != 0, [c] + done)
  {
  }

  method WriteDigit(buf: array<char>, at: nat, temp: nat, capitals: bool) returns (where: nat)
    requires 0 < at < buf.Length == BUFFER && temp < 16
    modifies buf
    ensures where == at - 1 && buf[BUFFER - 1] == old(buf[BUFFER - 1])
    ensures buf[where..BUFFER - 1] == [DigitChar(temp, capitals)] + old(buf[at..BUFFER - 1])
  {
    where := at - 1;
    buf[where] := if temp < 10 then ('0' as int + temp) as char
                  else if capitals then ('A' as int + temp - 10) as char
                  else ('a' as int + temp - 10) as char;
  }

  lemma Joined(before: string, front: string, text: string, back: string)
    ensures ((before + front) + text) + back == before + (front + text + back)
  {
  }

  class Printer {
    /** What the callback was called with. */
    var out: string
    /** `count`, an unsigned int. */
    var count: Word

    ghost predicate Valid()
      reads this
    {
      count == |out| % 0x1_0000_0000
    }

    constructor ()
      ensures Valid() && out == ""
    {
      out, count := "", 0;
    }

    method Fn(c: char)
      requires Valid()
      modifies this
      ensures Valid() && out == old(out) + [c]
    {
      out := out + [c];
      count := (count + 1) % 0x1_0000_0000;
    }

    /** The output part shared by all conversions; `length` counts the text, which may be less than it. */
    method Emit(left: bool, zero: bool, negative: bool, text: string, length: nat, givenWd: nat)
      requires Valid()
      modifies this
      ensures Valid()
      ensures out == old(out) + Field(left, zero, Sign(negative), text, length, givenWd)
    {
      var actual := length + if negative then 1 else 0;
      ghost var sign, before := Sign(negative), out;
      var given := EmitFront(left, zero, negative, actual, givenWd);
      EmitText(text);
      EmitBack(given, actual);
      Joined(before, Front(left, zero, sign, Padding(givenWd, actual)), text, Repeat(' ', Padding(given, actual)));
    }

    /** Spaces up to the width that is left. */
    method EmitBack(givenWd: nat, actual: nat)
      requires Valid()
      modifies this
      ensures Valid() && out == old(out) + Repeat(' ', Padding(givenWd, actual))
    {
      var given := if givenWd < actual then 0 else givenWd - actual;
      ghost var all := given;
      while given > 0
        invariant Valid() && 0 <= given <= all && out == old(out) + Repeat(' ', all - given)
      {
        Fn(' ');
        given := given - 1;
      }
    }

    /** A minus sign in front of zeros, the padding on the left, a minus sign behind spaces. */
    method EmitFront(left: bool, zero: bool, negative: bool, actual: nat, givenWd: nat) returns (given: nat)
      requires Valid()
      modifies this
      ensures Valid()
      ensures out == old(out) + Front(left, zero, Sign(negative), Padding(givenWd, actual))
      ensures given == if !left && givenWd > actual then actual else givenWd
    {
      given := givenWd;
      if negative && zero {
        Fn('-');
      }
      if !left {
        ghost var before := out;
        while given > actual
          invariant Valid() && out == before + Repeat(if zero then '0' else ' ', givenWd - given)
          invariant given <= givenWd && (given >= actual || given == givenWd)
        {
          Fn(if zero then '0' else ' ');
          given := given - 1;
        }
      }
      if negative && !zero {
        Fn('-');
      }
    }

    method EmitText(text: string)
      requires Valid()
      modifies this
      ensures Valid() && out == old(out) + text
    {
      var i := 0;
      while i < |text|
        invariant Valid() && i <= |text| && out == old(out) + text[..i]
      {
        Fn(text[i]);
        i := i + 1;
      }
    }

    /** State 4: the conversion character. Any other character prints nothing. */
    method AtConversion(ctl: Control, c: char, args: nat -> Word, k: nat, text: Word -> Text) returns (k': nat)
      requires Valid()
      modifies this
      ensures Valid()
      ensures var d := Directive(ctl.left, ctl.zero, ctl.width, ctl.wide, c);
              out == old(out) + Render(d, args(k), text) && k' == k + Taken(d)
    {
      if c == 's' {
        var where := text(args(k));
        Emit(ctl.left, false, false, where, |where|, ctl.width);
        return k + 1;
      }
      if c == 'c' {
        Emit(ctl.left, false, false, CharText(args(k)), 1, ctl.width);
        return k + 1;
      }
      if !IsNumber(c) {
        return k;
      }
      AtNumber(ctl, c, args(k), text);
      return k + if ctl.wide then 2 else 1;
    }

    method AtNumber(ctl: Control, c: char, word: Word, ghost text: Word -> Text)
      requires Valid() && IsNumber(c)
      modifies this
      ensures Valid()
      ensures out == old(out) + Render(Directive(ctl.left, ctl.zero, ctl.width, ctl.wide, c), word, text)
    {
      var givenWd, zero := ctl.width, ctl.zero;
      if c == 'X' || c == 'x' || c == 'p' {
        zero := true;
        givenWd := 8;
      }
      PrintNumber(ctl.left, zero, givenWd, c == 'd' || c == 'i', RadixOf(c), c == 'X', word);
    }

    /** From DO_NUM on. */
    method PrintNumber(left: bool, zero: bool, givenWd: nat, signed: bool, radix: Radix, capitals: bool, word: Word)
      requires Valid()
      modifies this
      ensures Valid()
      ensures var digits := Digits(Magnitude(word, signed), radix, capitals);
              out == old(out) + Field(left, zero, Sign(Negative(word, signed)), digits, |digits|, givenWd)
    {
      var num, negative := word, false;
      if signed && num >= 0x8000_0000 {
        negative := true;
        num := 0x1_0000_0000 - num;
      }
      var buf := new char[BUFFER](_ => '\0');
      var where := ConvertDigits(buf, num, radix, capitals);
      var digits := buf[where..BUFFER - 1];
      Emit(left, zero, negative, digits, |digits|, givenWd);
    }

    /** State 3, falling through to 4. `f` is the format from c on; at its end c is NUL. */
    method AtModifier(ctl: Control, c: char, args: nat -> Word, k: nat, text: Word -> Text, ghost f: string)
      returns (ctl': Control, k': nat, ghost printed: string)
      requires Valid() && Standing(ctl.(state := 3)) && c == if |f| == 0 then '\0' else f[0]
      modifies this
      ensures Valid() && Standing(ctl') && out == old(out) + printed
      ensures |f| == 0 ==> ctl' == RESET && |printed| == 0 && k' == k
      ensures |f| > 0 ==>
                FormatItem(FromModifiers(ctl.left, ctl.zero, ctl.width, ctl.wide, f), args, k, text)
                == Behind(printed, Resume(ctl', f[1..], args, k', text))
    {
      if c == 'F' || c == 'N' || c == 'z' || c == 'l' || c == 'h' {
        return ctl.(state := 3), k, "";
      }
      if c == 'L' {
        return ctl.(state := 3, wide := true), k, "";
      }
      printed := Render(Directive(ctl.left, ctl.zero, ctl.width, ctl.wide, c), args(k), text);
      k' := AtConversion(ctl, c, args, k, text);
      ctl' := RESET;
      ConversionStep(ctl, c, f, args, k, text);
    }

    /** State 2, falling through to 3. */
    method AtWidth(ctl: Control, c: char, args: nat -> Word, k: nat, text: Word -> Text, ghost f: string)
      returns (ctl': Control, k': nat, ghost printed: string)
      requires Valid() && !ctl.wide && c == if |f| == 0 then '\0' else f[0]
      modifies this
      ensures Valid() && Standing(ctl') && out == old(out) + printed
      ensures |f| == 0 ==> ctl' == RESET && |printed| == 0 && k' == k
      ensures |f| > 0 ==>
                FormatItem(FromWidth(ctl.left, ctl.zero, ctl.width, f), args, k, text)
                == Behind(printed, Resume(ctl', f[1..], args, k', text))
    {
      if '0' <= c <= '9' {
        var digit := c as int - '0' as int;
        return ctl.(state := 2, width := (10 * ctl.width + digit) % 0x1_0000_0000), k, "";
      }
      ctl', k', printed := AtModifier(ctl, c, args, k, text, f);
    }

    /** State 2 behind the flags, at character number `last` or at the NUL. */
    method BehindFlags(left: bool, zero: bool, fmt: Text, last: nat, args: nat -> Word, k: nat, text: Word -> Text,
            ghost meaning: Meaning, ghost whole: Output)
      returns (ctl': Control, k': nat, ghost printed: string)
      requires Valid() && last <= |fmt| && Means(meaning, fmt, args, text)
      requires whole == if last == |fmt| then Output("", true)
                        else FormatItem(FromWidth(left, zero, 0, fmt[last..]), args, k, text)
      modifies this
      ensures Valid() && Standing(ctl') && out == old(out) + printed
      ensures if last == |fmt| then |printed| == 0 && whole == Output("", true)
              else whole == Behind(printed, meaning(ctl', last + 1, k'))
    {
      ctl', k', printed := AtWidth(Control(2, left, zero, 0, false), CharAt(fmt, last), args, k, text, fmt[last..]);
      if last < |fmt| {
        assert fmt[last..][1..] == fmt[last + 1..];
        assert meaning(ctl', last + 1, k') == Resume(ctl', fmt[last + 1..], args, k', text);
      }
    }

    /** State 1, falling through to 2: behind a % or, when `left` is set, behind %-. The character is number
        i of the format, or its NUL; `last` is the last one looked at. */
    method AtFlags(left: bool, fmt: Text, i: nat, args: nat -> Word, k: nat, text: Word -> Text, ghost meaning: Meaning)
      returns (ctl': Control, k': nat, last: nat, ghost printed: string)
      requires Valid() && i <= |fmt| && Means(meaning, fmt, args, text)
      requires if left then i < |fmt| else i > 0 && fmt[i - 1] == '%'
      modifies this
      ensures Valid() && Standing(ctl') && out == old(out) + printed && i <= last <= |fmt|
      ensures var whole := Flagged(left, i, k, meaning);
              if last == |fmt| then |printed| == 0 && whole == Output("", true)
              else whole == Behind(printed, meaning(ctl', last + 1, k'))
    {
      var c := CharAt(fmt, i);
      if c == '%' {
        Fn(c);
        FlagPercent(left, fmt, i, args, k, text, meaning);
        return RESET, k, i, "%";
      }
      if c == '-' {
        FlagDash(left, fmt, i, args, k, text, meaning);
        return if left then RESET else BEHIND_DASH, k, i, "";
      }
      last := i;
      var zero := false;
      if c == '0' {
        zero := true;
        last := i + 1;
      }
      FlagWidth(left, fmt, i, zero, last, args, k, text, meaning);
      ctl', k', printed := BehindFlags(left, zero, fmt, last, args, k, text, meaning, Flagged(left, i, k, meaning));
    }

    /** State 0, falling through to 1 behind a %. */
    method AtText(fmt: Text, i: nat, args: nat -> Word, k: nat, text: Word -> Text, ghost meaning: Meaning)
      returns (ctl': Control, k': nat, last: nat, ghost printed: string)
      requires Valid() && i < |fmt| && Means(meaning, fmt, args, text)
      modifies this
      ensures Valid() && Standing(ctl') && out == old(out) + printed && i <= last <= |fmt|
      ensures if last == |fmt| then |printed| == 0 && meaning(RESET, i, k) == Output("", true)
              else meaning(RESET, i, k) == Behind(printed, meaning(ctl', last + 1, k'))
    {
      if fmt[i] != '%' {
        Fn(fmt[i]);
        TextStep(fmt, i, args, k, text, meaning);
        return RESET, k, i, [fmt[i]];
      }
      ctl', k', last, printed := AtFlags(false, fmt, i + 1, args, k, text, meaning);
    }

    /** States 2 and 3. */
    method InDirective(ctl: Control, fmt: Text, i: nat, args: nat -> Word, k: nat, text: Word -> Text,
            ghost meaning: Meaning)
      returns (ctl': Control, k': nat, ghost printed: string)
      requires Valid() && i < |fmt| && Standing(ctl) && ctl.state >= 2 && Means(meaning, fmt, args, text)
      modifies this
      ensures Valid() && Standing(ctl') && out == old(out) + printed
      ensures meaning(ctl, i, k) == Behind(printed, meaning(ctl', i + 1, k'))
    {
      assert fmt[i + 1..] == fmt[i..][1..];
      assert meaning(ctl, i, k) == Resume(ctl, fmt[i..], args, k, text);
      if ctl.state == 2 {
        ctl', k', printed := AtWidth(ctl, fmt[i], args, k, text, fmt[i..]);
      } else {
        ctl', k', printed := AtModifier(ctl, fmt[i], args, k, text, fmt[i..]);
      }
      assert meaning(ctl', i + 1, k') == Resume(ctl', fmt[i + 1..], args, k', text);
    }

    /** One round of the loop: the characters from number i to the one before i'. */
    method Round(ctl: Control, fmt: Text, i: nat, args: nat -> Word, k: nat, text: Word -> Text, ghost meaning: Meaning)
      returns (ctl': Control, i': nat, k': nat, over: bool, ghost printed: string)
      requires Valid() && i < |fmt| && Standing(ctl) && Means(meaning, fmt, args, text)
      modifies this
      ensures Valid() && Standing(ctl') && out == old(out) + printed && i < i'
      ensures over ==> |printed| == 0 && meaning(ctl, i, k) == Output("", true)
      ensures !over ==> i' <= |fmt| && meaning(ctl, i, k) == Behind(printed, meaning(ctl', i', k'))
    {
      var last := i;
      if ctl.state == 0 {
        ctl', k', last, printed := AtText(fmt, i, args, k, text, meaning);
      } else if ctl.state == 1 {
        ctl', k', last, printed := AtFlags(true, fmt, i, args, k, text, meaning);
      } else {
        ctl', k', printed := InDirective(ctl, fmt, i, args, k, text, meaning);
      }
      over := last == |fmt|;
      i' := last + 1;
    }

    /** The whole of `printf_helper`. A format that ends behind a % or behind its zero flag makes the pointer
        step over the NUL; what would be read there is not modelled, and the run ends with `overrun`. */
    method PrintfHelper(fmt: Text, args: nat -> Word, text: Word -> Text) returns (result: Word, overrun: bool)
      requires Valid() && out == ""
      modifies this
      ensures Output(out, overrun) == Format(fmt, args, 0, text)
      ensures result == |out| % 0x1_0000_0000
    {
      var ctl, i, k := RESET, 0, 0;
      ghost var meaning: Meaning := (c: Control, i: nat, k: nat) =>
        if i <= |fmt| then Resume(c, fmt[i..], args, k, text) else Output("", true);
      assert fmt[0..] == fmt && meaning(ctl, 0, 0) == Format(fmt, args, 0, text);
      BehindNothing(meaning(ctl, 0, 0));
      while i < |fmt|
        invariant Valid() && 0 <= i <= |fmt| && Standing(ctl)
        invariant Behind(out, meaning(ctl, i, k)) == Format(fmt, args, 0, text)
      {
        ghost var before := out;
        var over;
        ghost var printed;
        ctl, i, k, over, printed := Round(ctl, fmt, i, args, k, text, meaning);
        if over {
          return count, true;
        }
        BehindBehind(before, printed, meaning(ctl, i, k));
      }
      return count, false;
    }
  }

  /** The character at position i, the NUL behind the last one. */
  function CharAt(fmt: string, i: nat): char
    requires i <= |fmt|
  {
    if i < |fmt| then fmt[i] else '\0'
  }

  /** What follows %- or %. */
  function AfterFlag(left: bool, f: string): Item {
    if left then AfterDash(f) else AfterPercent(f)
  }
}
