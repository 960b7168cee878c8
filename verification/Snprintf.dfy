/**
 The bounded formatter: it writes at most the size of the buffer, terminates it, and returns the
 length the whole output would have had (section 7.19.6.5 of ISO/IEC 9899:1999).
 */
module Snprintf {
  import opened Options
  import opened Basics

  // ---- Machine integers ----

  const TWO32: int := 0x1_0000_0000

  /** The value a short, an int or a long takes when x is stored in it. */
  function Int16(x: int): int { (x + 0x8000) % 0x1_0000 - 0x8000 }
  function Int32(x: int): int { (x + 0x8000_0000) % 0x1_0000_0000 - 0x8000_0000 }
  function Int64(x: int): int { (x + 0x8000_0000_0000_0000) % 0x1_0000_0000_0000_0000 - 0x8000_0000_0000_0000 }

  /** The same for the width a length modifier names. */
  function SignedValue(x: int, modifier: char): int {
    if modifier == 'h' then Int16(x) else if modifier == 'l' then Int64(x) else Int32(x)
  }

  function UnsignedValue(x: int, modifier: char): nat {
    if modifier == 'h' then x % 0x1_0000 else if modifier == 'l' then x % 0x1_0000_0000_0000_0000 else x % 0x1_0000_0000
  }

  lemma Int32Exact(x: int)
    requires -0x8000_0000 <= x < 0x8000_0000
    ensures Int32(x) == x
  {
  }

  // ---- Arguments and digits ----

  datatype Arg = Number(v: int) | Text(s: Option<string>)

  /** va_arg(ap, int): what it gives for a missing or mismatched argument is not defined; here 0. */
  function IntArg(args: seq<Arg>, k: nat): int {
    if k < |args| && args[k].Number? then args[k].v else 0
  }

  /** An int argument, for a width, a precision or a character. */
  function StarArg(args: seq<Arg>, k: nat): int {
    Int32(IntArg(args, k))
  }

  function StrArg(args: seq<Arg>, k: nat): Option<string> {
    if k < |args| && args[k].Text? then args[k].s else None
  }

  /** What sprintf prints for a number: its value in the width of the length modifier, signed for d. */
  function Sprintf(conv: char, modifier: char, v: int): string {
    if conv == 'd' then
      var x := SignedValue(v, modifier);
      if x < 0 then "-" + Digits(-x, 10, LOWER) else Digits(x, 10, LOWER)
    else if conv == 'u' then Digits(UnsignedValue(v, modifier), 10, LOWER)
    else if conv == 'o' then Digits(UnsignedValue(v, modifier), 8, LOWER)
    else if conv == 'X' then Digits(UnsignedValue(v, modifier), 16, UPPER)
    else if conv == 'p' then "0x" + Digits(UnsignedValue(v, 'l'), 16, LOWER)
    else Digits(UnsignedValue(v, modifier), 16, LOWER)
  }

  // ---- Parsing a conversion specification ----

  datatype Spec = Spec(zero: bool, left: bool, sign: bool, space: bool, alt: bool, width: nat,
                       hasPrec: bool, prec: nat, modifier: char, conv: char)

  const PLAIN := Spec(false, false, false, true, false, 0, false, 0, '\0', '\0')

  function At(s: string, i: nat): char {
    if i < |s| then s[i] else '\0'
  }

  predicate IsDigit(c: char) { '0' <= c <= '9' }

  predicate IsFlag(c: char) { c in {'0', '-', '+', ' ', '#', '\''} }

  function SetFlag(sp: Spec, c: char): Spec {
    if c == '0' then sp.(zero := true)
    else if c == '-' then sp.(left := true)
    else if c == '+' then sp.(sign := true, space := false)
    else if c == ' ' then sp.(sign := true)
    else if c == '#' then sp.(alt := true)
    else sp
  }

  function Flags(fmt: string, p: nat, sp: Spec): (r: (Spec, nat))
    ensures p <= r.1 && (p <= |fmt| ==> r.1 <= |fmt|)
    decreases |fmt| - p
  {
    if p < |fmt| && IsFlag(fmt[p]) then Flags(fmt, p + 1, SetFlag(sp, fmt[p])) else (sp, p)
  }

  /** Decimal digits, in an unsigned int. */
  function Decimal(fmt: string, p: nat, acc: nat): (r: (nat, nat))
    ensures p <= r.1 && (p <= |fmt| ==> r.1 <= |fmt|)
    decreases |fmt| - p
  {
    if p < |fmt| && IsDigit(fmt[p]) then Decimal(fmt, p + 1, (10 * acc + (fmt[p] - '0') as nat) % TWO32) else (acc, p)
  }

  /** A place in the format and in the arguments, with the specification so far. */
  datatype Parse = Parse(spec: Spec, p: nat, k: nat)

  function Width(fmt: string, a: Parse, args: seq<Arg>): (r: Parse)
    ensures a.p <= r.p && (a.p <= |fmt| ==> r.p <= |fmt|)
  {
    if At(fmt, a.p) == '*' then
      var j := StarArg(args, a.k);
      Parse(if j >= 0 then a.spec.(width := j) else a.spec.(width := -j, left := true), a.p + 1, a.k + 1)
    else
      var (w, p) := Decimal(fmt, a.p, 0);
      Parse(a.spec.(width := w), p, a.k)
  }

  function Precision(fmt: string, a: Parse, args: seq<Arg>): (r: Parse)
    ensures a.p <= r.p && (a.p <= |fmt| ==> r.p <= |fmt|)
  {
    if At(fmt, a.p) != '.' then a
    else if At(fmt, a.p + 1) == '*' then
      var j := StarArg(args, a.k);
      Parse(if j >= 0 then a.spec.(hasPrec := true, prec := j) else a.spec.(hasPrec := false, prec := 0),
            a.p + 2, a.k + 1)
    else
      var (w, p) := Decimal(fmt, a.p + 1, 0);
      Parse(a.spec.(hasPrec := true, prec := w), p, a.k)
  }

  /** h, l or ll (read as l), then the conversion with its synonyms. */
  function Conversion(fmt: string, a: Parse): (r: Parse)
    ensures a.p <= r.p && (a.p <= |fmt| ==> r.p <= |fmt|)
  {
    var c := At(fmt, a.p);
    var p1 := if c == 'h' || c == 'l' then a.p + 1 else a.p;
    var p2 := if c == 'l' && At(fmt, p1) == 'l' then p1 + 1 else p1;
    var m := if c == 'h' || c == 'l' then c else '\0';
    var f := At(fmt, p2);
    var sp :=
      if f == 'i' then a.spec.(conv := 'd', modifier := m)
      else if f == 'D' then a.spec.(conv := 'd', modifier := 'l')
      else if f == 'U' then a.spec.(conv := 'u', modifier := 'l')
      else if f == 'O' then a.spec.(conv := 'o', modifier := 'l')
      else a.spec.(conv := f, modifier := m);
    Parse(sp, p2, a.k)
  }

  /** The whole specification after the percent sign at p. */
  function ParseSpec(fmt: string, p: nat, args: seq<Arg>, k: nat): (r: Parse)
    ensures p < r.p && (p < |fmt| ==> r.p <= |fmt|)
  {
    var (sp, p1) := Flags(fmt, p + 1, PLAIN);
    Conversion(fmt, Precision(fmt, Width(fmt, Parse(sp, p1, k), args), args))
  }

  // ---- Conversions ----

  /** What a conversion prints: its text, where zeros go in it and how many, and how it is padded. */
  datatype Piece = Piece(text: string, at: nat, zeros: nat, width: nat, left: bool, zeroPad: bool)

  predicate IsNumeric(c: char) { c in {'d', 'u', 'o', 'x', 'X', 'p'} }

  /** The part of a string argument that its precision lets through. */
  function Truncated(s: Option<string>, sp: Spec): string {
    if s.None? then []
    else if sp.hasPrec && sp.prec < |s.value| then s.value[..sp.prec] else s.value
  }

  /** +1, 0 or -1: the sign of the argument as fetched, an int unless it is a long or a pointer. */
  function SignOf(sp: Spec, v: int): int {
    var m := if sp.conv == 'p' || sp.modifier == 'l' then 'l' else '\0';
    if sp.conv == 'd' then
      var x := SignedValue(v, m);
      if x > 0 then 1 else if x < 0 then -1 else 0
    else if UnsignedValue(v, m) != 0 then 1 else 0
  }

  /** A forced sign, or 0x. */
  function Prefix(sp: Spec, sgn: int): string {
    if sp.conv == 'd' then (if sp.sign && sgn >= 0 then (if sp.space then " " else "+") else [])
    else if sp.alt && sgn != 0 && (sp.conv == 'x' || sp.conv == 'X') then ['0', sp.conv]
    else []
  }

  /** Step over a minus sign and over 0x. */
  function PastSign(text: string, i: nat): (r: nat)
    requires i <= |text|
    ensures i <= r <= |text|
  {
    var j := if i < |text| && text[i] == '-' then i + 1 else i;
    if j + 1 < |text| && text[j] == '0' && (text[j + 1] == 'x' || text[j + 1] == 'X') then j + 2 else j
  }

  /** A number with the zeros its precision asks for. */
  function Unpadded(sp0: Spec, v: int): (r: Piece)
    ensures r.at <= |r.text| && r.width == sp0.width && r.left == sp0.left
  {
    var sp := if sp0.conv == 'p' then sp0.(modifier := '\0') else sp0;
    var sgn := SignOf(sp, v);
    var zeroPad := sp.zero && !sp.hasPrec;
    var pre := Prefix(sp, sgn);
    var prec := if sp.hasPrec then sp.prec else 1;
    var empty := prec == 0 && sgn == 0;
    var text := if empty then pre else pre + Sprintf(sp.conv, sp.modifier, v);
    var at := if empty then |pre| else PastSign(text, |pre|);
    var digits := |text| - at;
    var octal := sp.alt && sp.conv == 'o' && !(at < |text| && text[at] == '0');
    var prec' := if octal && (!sp.hasPrec || prec < digits + 1) then digits + 1 else prec;
    var zeros := if digits < prec' then prec' - digits else 0;
    Piece(text, at, zeros, sp.width, sp.left, zeroPad)
  }

  /** The 0 flag fills the field with more zeros, unless the field is justified to the left. */
  function Numeric(sp: Spec, v: int): (r: Piece)
    ensures r.at <= |r.text|
  {
    Filled(Unpadded(sp, v))
  }

  function Filled(u: Piece): Piece {
    var n := Int32(u.width - (|u.text| + u.zeros));
    if !u.left && u.zeroPad && n > 0 then u.(zeros := u.zeros + n) else u
  }

  /** What the specification prints, and the arguments it has used; an unknown conversion prints its character. */
  function Convert(fmt: string, a: Parse, args: seq<Arg>): (r: (Piece, nat))
    ensures r.0.at <= |r.0.text|
  {
    var sp := a.spec;
    if sp.conv == '%' then (Piece("%", 0, 0, sp.width, sp.left, false), a.k)
    else if sp.conv == 'c' then
      (Piece([((IntArg(args, a.k) % 256) as char)], 0, 0, sp.width, sp.left, false), a.k + 1)
    else if sp.conv == 's' then (Piece(Truncated(StrArg(args, a.k), sp), 0, 0, sp.width, sp.left, false), a.k + 1)
    else if IsNumeric(sp.conv) then (Numeric(sp, IntArg(args, a.k)), a.k + 1)
    else (Piece(if a.p < |fmt| then [fmt[a.p]] else [], 0, 0, 0, true, false), a.k)
  }

  function Repeat(c: char, n: int): (r: string)
    ensures |r| == if n > 0 then n else 0
    decreases if n > 0 then n else 0
  {
    if n <= 0 then [] else [c] + Repeat(c, n - 1)
  }

  /** The padding, as the int the code keeps it in. */
  function Padding(x: Piece): int {
    Int32(x.width - (|x.text| + x.zeros))
  }

  /** The first n characters of s from i, or none if n is not positive. */
  function Some0(s: string, i: nat, n: int): string
    requires i + n <= |s|
  {
    if n <= 0 then [] else s[i..i + n]
  }

  lemma Int32AtMost(n: nat)
    ensures Int32(n) <= n
  {
  }

  /** What the write sites of one conversion write: left padding, sign or 0x, zeros, rest of the text, right padding. */
  datatype Writes = Writes(lpad: string, sign: string, zeros: string, rest: string, rpad: string)

  function Sites(x: Piece): Writes
    requires x.at <= |x.text|
  {
    var from := if x.zeros == 0 then 0 else x.at;
    Int32AtMost(from);
    Int32AtMost(|x.text| - from);
    Writes(if x.left then [] else Repeat(if x.zeroPad then '0' else ' ', Padding(x)),
           Some0(x.text, 0, Int32(from)),
           Repeat('0', Int32(x.zeros)),
           Some0(x.text, from, Int32(|x.text| - from)),
           if x.left then Repeat(' ', Padding(x)) else [])
  }

  function Whole(w: Writes): string {
    w.lpad + w.sign + w.zeros + w.rest + w.rpad
  }

  function Emitted(x: Piece): string
    requires x.at <= |x.text|
  {
    Whole(Sites(x))
  }

  function Most(a: nat, b: nat): nat { if a > b then a else b }

  const TWO31: int := 0x8000_0000

  /** The lengths a conversion counts in an int are as they are in an int. */
  ghost predicate Countable(text: nat, zeros: nat, width: nat) {
    text < TWO31 && zeros < TWO31 && -TWO31 <= width - (text + zeros) < TWO31
  }

  /**
   A conversion prints the wider of its field and of its text with its zeros exactly if these lengths
   can be counted in an int; only a text without zeros may be longer than an int can count.
   */
  lemma {:induction false} EmittedLength(x: Piece)
    requires x.at <= |x.text| && x.zeros < TWO32 && x.width < TWO32 && (x.zeros == 0 || |x.text| < TWO31)
    ensures |Emitted(x)| == Most(x.width, |x.text| + x.zeros) <==> Countable(|x.text|, x.zeros, x.width)
  {
    var from := if x.zeros == 0 then 0 else x.at;
    EmittedParts(x, from);
    CountedParts(|x.text|, from, x.zeros, x.width);
  }

  ghost function Positive(n: int): nat { if n > 0 then n else 0 }

  /** What is written of a text, of zeros and of padding whose lengths are stored in an int. */
  ghost function Written(text: nat, from: nat, zeros: nat, width: nat): nat
    requires from <= text
  {
    Positive(Int32(width - (text + zeros))) + Positive(Int32(from)) + Positive(Int32(zeros))
    + Positive(Int32(text - from))
  }

  lemma EmittedParts(x: Piece, from: nat)
    requires x.at <= |x.text| && from == if x.zeros == 0 then 0 else x.at
    ensures |Emitted(x)| == Written(|x.text|, from, x.zeros, x.width)
  {
  }

  /** When the parts, each stored in an int, add up. */
  lemma CountedParts(text: nat, from: nat, zeros: nat, width: nat)
    requires from <= text && zeros < TWO32 && width < TWO32 && (if zeros == 0 then from == 0 else text < TWO31)
    ensures Written(text, from, zeros, width) == Most(width, text + zeros) <==> Countable(text, zeros, width)
  {
    Int32Parts(width - (text + zeros));
    Int32Parts(zeros);
    Int32Parts(from);
    Int32Parts(text - from);
  }

  /** What storing a number in an int makes of it. */
  lemma Int32Parts(x: int)
    ensures -TWO31 <= x < TWO31 ==> Int32(x) == x
    ensures TWO31 <= x < TWO32 ==> Int32(x) < 0
    ensures -TWO32 - TWO31 <= x < -TWO31 ==> Int32(x) == x + TWO32
    ensures -TWO31 <= Int32(x) < TWO31
  {
  }

  // ---- Numbers fit their buffer ----

  ghost function Pow8(n: nat): nat {
    if n == 0 then 1 else 8 * Pow8(n - 1)
  }

  /** Every base is at least 8, so n octal digits are enough for n digits. */
  lemma {:induction false} DigitsShort(n: nat, base: nat, table: string, len: nat)
    requires (base == 8 || base == 10 || base == 16) && |table| == 16 && len > 0 && n < Pow8(len)
    ensures |Digits(n, base, table)| <= len
    decreases len
  {
    if n >= base {
      assert len > 1;
      assert Quotient(n, base) <= n / 8 < Pow8(len - 1);
      DigitsShort(Quotient(n, base), base, table, len - 1);
    }
  }

  lemma OctalRoom()
    ensures Pow8(22) > 0xffff_ffff_ffff_ffff
  {
    assert Pow8(6) == 262144;
    assert Pow8(12) == 0x10_0000_0000;
    assert Pow8(18) == 0x40_0000_0000_0000;
  }

  /** sprintf prints at most 23 characters for a number. */
  lemma SprintfShort(conv: char, modifier: char, v: int)
    ensures |Sprintf(conv, modifier, v)| <= 24
  {
    var x := SignedValue(v, modifier);
    DigitsFit(if x < 0 then -x else x);
    DigitsFit(UnsignedValue(v, modifier));
    DigitsFit(UnsignedValue(v, 'l'));
  }

  lemma DigitsFit(n: nat)
    requires n <= 0xffff_ffff_ffff_ffff
    ensures |Digits(n, 8, LOWER)| <= 22 && |Digits(n, 10, LOWER)| <= 22
    ensures |Digits(n, 16, LOWER)| <= 22 && |Digits(n, 16, UPPER)| <= 22
  {
    OctalRoom();
    DigitsShort(n, 8, LOWER, 22);
    DigitsShort(n, 10, LOWER, 22);
    DigitsShort(n, 16, LOWER, 22);
    DigitsShort(n, 16, UPPER, 22);
  }

  const TMP: nat := 32

  /** The text of a number, with a terminator, fits the buffer it is printed in. */
  lemma {:induction false} NumberFits(sp: Spec, v: int)
    ensures |Unpadded(sp, v).text| + 1 <= TMP
  {
    SprintfShort(sp.conv, if sp.conv == 'p' then '\0' else sp.modifier, v);
  }

  /** The zeros of the precision, and those of a field that the 0 flag fills. */
  ghost function AllZeros(u: Piece): nat {
    if u.zeroPad && !u.left && u.width > |u.text| + u.zeros then u.width - |u.text| else u.zeros
  }

  /**
   A number prints the wider of its field and of its sign, prefix and digits with the zeros of its
   precision, exactly if these lengths can be counted in an int.
   */
  lemma {:induction false} NumericLength(sp: Spec, v: int)
    requires sp.width < TWO32 && sp.prec < TWO32
    ensures var u := Unpadded(sp, v);
            |Emitted(Numeric(sp, v))| == Most(sp.width, |u.text| + u.zeros)
            <==> Countable(|u.text|, AllZeros(u), sp.width)
  {
    NumberFits(sp, v);
    FilledLength(Unpadded(sp, v));
  }

  lemma FilledLength(u: Piece)
    requires u.at <= |u.text| < TMP && u.zeros < TWO32 && u.width < TWO32 && (u.zeroPad ==> u.zeros < TMP)
    ensures |Emitted(Filled(u))| == Most(u.width, |u.text| + u.zeros) <==> Countable(|u.text|, AllZeros(u), u.width)
  {
    Int32Parts(u.width - (|u.text| + u.zeros));
    EmittedLength(Filled(u));
  }

  // ---- The whole output ----

  /** The next percent sign from p on, or the end. */
  function NextPercent(fmt: string, p: nat): (r: nat)
    requires p <= |fmt|
    ensures p <= r <= |fmt|
    decreases |fmt| - p
  {
    if p < |fmt| && fmt[p] != '%' then NextPercent(fmt, p + 1) else p
  }

  /** What one pass of the main loop prints, and where it leaves the format and the arguments. */
  datatype Segment = Segment(text: string, p: nat, k: nat)

  function OrdinaryText(fmt: string, p: nat, k: nat): Segment
    requires p < |fmt|
  {
    var q := NextPercent(fmt, p + 1);
    Segment(fmt[p..q], q, k)
  }

  function ReadDirective(fmt: string, p: nat, args: seq<Arg>, k: nat): Segment
    requires p < |fmt|
  {
    var a := ParseSpec(fmt, p, args, k);
    var (x, k') := Convert(fmt, a, args);
    Segment(Emitted(x), if a.p < |fmt| then a.p + 1 else a.p, k')
  }

  function Pass(fmt: string, p: nat, args: seq<Arg>, k: nat): (r: Segment)
    requires p < |fmt|
    ensures p < r.p <= |fmt|
  {
    if fmt[p] != '%' then OrdinaryText(fmt, p, k) else ReadDirective(fmt, p, args, k)
  }

  /** Everything the format prints from place p and argument k on. */
  function Output(fmt: string, p: nat, args: seq<Arg>, k: nat): string
    decreases |fmt| - p
  {
    if p >= |fmt| then []
    else
      var g := Pass(fmt, p, args, k);
      g.text + Output(fmt, g.p, args, g.k)
  }

  // ---- The buffer ----

  function Least(a: nat, b: nat): nat { if a < b then a else b }

  /** The buffer holds as much of what was printed so far as fits. */
  ghost predicate Holds(str: array<char>, printed: string)
    reads str
  {
    str[..Least(|printed|, str.Length)] == printed[..Least(|printed|, str.Length)]
  }

  /** The bounded copy: what does not fit is counted but not written. */
  method Copy(str: array<char>, len: nat, chunk: string, ghost printed: string) returns (len': nat)
    requires len == |printed| && Holds(str, printed)
    modifies str
    ensures len' == len + |chunk| && Holds(str, printed + chunk)
  {
    len' := len + |chunk|;
    if len < str.Length {
      var avail := str.Length - len;
      var n := if |chunk| > avail then avail else |chunk|;
      var i := 0;
      while i < n
        invariant i <= n
        invariant str[..len + i] == printed + chunk[..i]
      {
        str[len + i] := chunk[i];
        assert str[..len + i + 1] == str[..len + i] + [chunk[i]];
        i := i + 1;
      }
      assert (printed + chunk)[..len + n] == printed + chunk[..n];
    } else {
      assert (printed + chunk)[..str.Length] == printed[..str.Length];
    }
  }

  /** The write sites of one conversion, in order. */
  method Emit(str: array<char>, len: nat, w: Writes, ghost printed: string) returns (len': nat)
    requires len == |printed| && Holds(str, printed)
    modifies str
    ensures len' == len + |Whole(w)| && Holds(str, printed + Whole(w))
  {
    len' := Copy(str, len, w.lpad, printed);
    len' := Copy(str, len', w.sign, printed + w.lpad);
    len' := Copy(str, len', w.zeros, printed + w.lpad + w.sign);
    len' := Copy(str, len', w.rest, printed + w.lpad + w.sign + w.zeros);
    len' := Copy(str, len', w.rpad, printed + w.lpad + w.sign + w.zeros + w.rest);
    Grouped(printed, w);
  }

  lemma Grouped(printed: string, w: Writes)
    ensures printed + w.lpad + w.sign + w.zeros + w.rest + w.rpad == printed + Whole(w)
  {
  }

  // ---- The loops of the parser ----

  method ParseFlags(fmt: string, start: nat) returns (sp: Spec, p: nat)
    ensures (sp, p) == Flags(fmt, start, PLAIN)
  {
    sp, p := PLAIN, start;
    while p < |fmt| && IsFlag(fmt[p])
      invariant Flags(fmt, p, sp) == Flags(fmt, start, PLAIN)
      decreases |fmt| - p
    {
      sp := SetFlag(sp, fmt[p]);
      p := p + 1;
    }
  }

  method ParseDecimal(fmt: string, start: nat) returns (uj: nat, p: nat)
    ensures (uj, p) == Decimal(fmt, start, 0)
  {
    uj, p := 0, start;
    while p < |fmt| && IsDigit(fmt[p])
      invariant Decimal(fmt, p, uj) == Decimal(fmt, start, 0)
      decreases |fmt| - p
    {
      uj := (10 * uj + (fmt[p] - '0') as nat) % TWO32;
      p := p + 1;
    }
  }

  /** From the percent sign to the conversion character. */
  method ParseConversion(fmt: string, p: nat, args: seq<Arg>, k: nat) returns (a: Parse)
    ensures a == ParseSpec(fmt, p, args, k)
  {
    var sp, i := ParseFlags(fmt, p + 1);
    var n := k;
    if At(fmt, i) == '*' {
      var j := StarArg(args, n);
      i, n := i + 1, n + 1;
      if j >= 0 { sp := sp.(width := j); } else { sp := sp.(width := -j, left := true); }
    } else {
      var w;
      w, i := ParseDecimal(fmt, i);
      sp := sp.(width := w);
    }
    if At(fmt, i) == '.' {
      if At(fmt, i + 1) == '*' {
        var j := StarArg(args, n);
        i, n := i + 2, n + 1;
        if j >= 0 { sp := sp.(hasPrec := true, prec := j); } else { sp := sp.(hasPrec := false, prec := 0); }
      } else {
        var w;
        w, i := ParseDecimal(fmt, i + 1);
        sp := sp.(hasPrec := true, prec := w);
      }
    }
    a := Conversion(fmt, Parse(sp, i, n));
  }

  method FindPercent(fmt: string, start: nat) returns (q: nat)
    requires start <= |fmt|
    ensures q == NextPercent(fmt, start)
  {
    q := start;
    while q < |fmt| && fmt[q] != '%'
      invariant start <= q <= |fmt| && NextPercent(fmt, q) == NextPercent(fmt, start)
    {
      q := q + 1;
    }
  }

  /** One pass of the main loop. */
  method PrintPass(str: array<char>, len: nat, fmt: string, p: nat, args: seq<Arg>, k: nat, ghost printed: string)
    returns (len': nat, p': nat, k': nat)
    requires p < |fmt| && len == |printed| && Holds(str, printed)
    modifies str
    ensures var g := Pass(fmt, p, args, k);
            p' == g.p && k' == g.k && len' == len + |g.text| && Holds(str, printed + g.text)
  {
    if fmt[p] != '%' {
      var q := FindPercent(fmt, p + 1);
      len' := Copy(str, len, fmt[p..q], printed);
      p', k' := q, k;
    } else {
      var a := ParseConversion(fmt, p, args, k);
      var c := Convert(fmt, a, args);
      len' := Emit(str, len, Sites(c.0), printed);
      p', k' := if a.p < |fmt| then a.p + 1 else a.p, c.1;
    }
  }

  /**
   portable_vsnprintf: the result is the length of the whole output, whatever the size of the buffer,
   and the buffer holds the part of the output that fits in front of a terminator.
   */
  method Vsnprintf(str: array<char>, fmt: string, args: seq<Arg>) returns (r: int)
    modifies str
    ensures r == Int32(|Output(fmt, 0, args, 0)|)
    ensures str.Length > 0 ==>
              var n := Least(|Output(fmt, 0, args, 0)|, str.Length - 1);
              str[..n] == Output(fmt, 0, args, 0)[..n] && str[n] == '\0'
  {
    var len := PrintAll(str, fmt, args);
    Terminate(str, len, Output(fmt, 0, args, 0));
    return Int32(len);
  }

  /** The terminator goes behind the output, or takes the last place if the output does not fit. */
  method Terminate(str: array<char>, len: nat, ghost printed: string)
    requires len == |printed| && Holds(str, printed)
    modifies str
    ensures str.Length > 0 ==>
              var n := Least(|printed|, str.Length - 1); str[..n] == printed[..n] && str[n] == '\0'
  {
    if str.Length > 0 {
      var n := if len <= str.Length - 1 then len else str.Length - 1;
      ghost var m := Least(len, str.Length);
      assert str[..n] == str[..m][..n] == printed[..m][..n] == printed[..n];
      str[n] := '\0';
    }
  }

  method PrintAll(str: array<char>, fmt: string, args: seq<Arg>) returns (len: nat)
    modifies str
    ensures len == |Output(fmt, 0, args, 0)| && Holds(str, Output(fmt, 0, args, 0))
  {
    var p, k := 0, 0;
    len := 0;
    ghost var printed: string := [];
    ghost var all := Output(fmt, 0, args, 0);
    while p < |fmt|
      invariant p <= |fmt| && len == |printed| && Holds(str, printed)
      invariant printed + Output(fmt, p, args, k) == all
      decreases |fmt| - p
    {
      ghost var g := Pass(fmt, p, args, k);
      len, p, k := PrintPass(str, len, fmt, p, args, k, printed);
      Regroup(printed, g.text, Output(fmt, g.p, args, g.k));
      printed := printed + g.text;
    }
  }
}
