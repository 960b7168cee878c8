/**
 What the number conversions of the formatter print, told without the formatter: a sign or 0x, then
 digits of the right base whose value is the argument, justified in the field.
 */
module NumberText {
  import opened Options
  import opened Basics
  import opened Snprintf

  /** The value of one digit; 16 for anything else. */
  ghost function DigitValue(c: char): nat {
    if '0' <= c <= '9' then (c - '0') as nat
    else if 'a' <= c <= 'f' then (c - 'a') as nat + 10
    else if 'A' <= c <= 'F' then (c - 'A') as nat + 10
    else 16
  }

  /** The value of digits in a base. */
  ghost function Value(s: string, base: nat): nat {
    if s == [] then 0 else Value(s[..|s| - 1], base) * base + DigitValue(s[|s| - 1])
  }

  ghost predicate AllDigits(s: string, base: nat) {
    forall i | 0 <= i < |s| :: DigitValue(s[i]) < base
  }

  ghost predicate GoodBase(base: nat) { base == 8 || base == 10 || base == 16 }

  lemma TableDigit(table: string, d: nat)
    requires (table == LOWER || table == UPPER) && d < 16
    ensures DigitValue(table[d]) == d
  {
  }

  /** X has its letters in upper case, and x in lower case. */
  lemma {:induction false} DigitCase(n: nat, base: nat, table: string)
    requires GoodBase(base) && (table == LOWER || table == UPPER)
    ensures forall c | c in Digits(n, base, table) :: CaseOf(c, table)
    decreases n
  {
    TableCase(table, n % base);
    if n >= base { DigitCase(Quotient(n, base), base, table); }
  }

  ghost predicate CaseOf(c: char, table: string) {
    '0' <= c <= '9' || if table == LOWER then 'a' <= c <= 'f' else 'A' <= c <= 'F'
  }

  lemma TableCase(table: string, d: nat)
    requires (table == LOWER || table == UPPER) && d < 16
    ensures CaseOf(table[d], table)
  {
  }

  lemma DivMod(n: nat, base: nat)
    requires GoodBase(base)
    ensures Quotient(n, base) * base + n % base == n && n % base < base
  {
  }

  /** The digits of a number have its value, and none of them is a leading zero. */
  lemma {:induction false} DigitsRead(n: nat, base: nat, table: string)
    requires GoodBase(base) && (table == LOWER || table == UPPER)
    ensures Value(Digits(n, base, table), base) == n && AllDigits(Digits(n, base, table), base)
    ensures n > 0 ==> Digits(n, base, table)[0] != '0'
    decreases n
  {
    if n < base {
      TableDigit(table, n);
      assert Value([], base) == 0;
      assert [table[n]][..0] == [];
    } else {
      var q := Quotient(n, base);
      DigitsRead(q, base, table);
      DivMod(n, base);
      TableDigit(table, n % base);
      AddsDigit(Digits(q, base, table), table[n % base], base);
    }
  }

  lemma AddsDigit(d: string, c: char, base: nat)
    requires d != [] && AllDigits(d, base) && DigitValue(c) < base
    ensures Value(d + [c], base) == Value(d, base) * base + DigitValue(c)
    ensures AllDigits(d + [c], base) && (d + [c])[0] == d[0]
  {
    assert (d + [c])[..|d|] == d;
  }

  lemma {:induction false} ZeroValue(s: string, base: nat)
    requires forall i | 0 <= i < |s| :: s[i] == '0'
    ensures Value(s, base) == 0
  {
    if s != [] { ZeroValue(s[..|s| - 1], base); }
  }

  lemma {:induction false} Repeats(c: char, n: int)
    ensures forall i | 0 <= i < |Repeat(c, n)| :: Repeat(c, n)[i] == c
    decreases if n > 0 then n else 0
  {
    if n > 0 { Repeats(c, n - 1); }
  }

  /** Leading zeros do not change a value. */
  lemma {:induction false} LeadingZeros(n: nat, s: string, base: nat)
    ensures Value(Repeat('0', n) + s, base) == Value(s, base)
    decreases s
  {
    var z := Repeat('0', n);
    if s == [] {
      Repeats('0', n);
      assert z + s == z;
      ZeroValue(z, base);
    } else {
      assert (z + s)[..|z + s| - 1] == z + s[..|s| - 1];
      LeadingZeros(n, s[..|s| - 1], base);
    }
  }

  /** The text with its zeros put in. */
  ghost function Body(x: Piece): string
    requires x.at <= |x.text|
  {
    x.text[..x.at] + Repeat('0', x.zeros) + x.text[x.at..]
  }

  /** A text justified in a field. */
  ghost function Justified(s: string, width: nat, left: bool): string {
    if left then s + Repeat(' ', width - |s|) else Repeat(' ', width - |s|) + s
  }

  lemma WithZeros(text: string, at: nat, zeros: string)
    requires at <= |text|
    ensures Some0(text, 0, at) + zeros + Some0(text, at, |text| - at) == text[..at] + zeros + text[at..]
    ensures zeros == [] ==> text[..at] + zeros + text[at..] == text
  {
    assert Some0(text, 0, at) == text[..at] && Some0(text, at, |text| - at) == text[at..];
  }

  /** What the write sites write between the paddings is the text with its zeros put in. */
  lemma BetweenPaddings(x: Piece)
    requires x.at <= |x.text| < TWO31 && x.zeros < TWO31
    ensures var w := Sites(x); w.sign + w.zeros + w.rest == Body(x)
  {
    var from := if x.zeros == 0 then 0 else x.at;
    Int32Exact(x.zeros);
    Int32Exact(from);
    Int32Exact(|x.text| - from);
    WithZeros(x.text, from, Repeat('0', x.zeros));
    WithZeros(x.text, x.at, Repeat('0', x.zeros));
  }

  lemma BodyGrouped(a: string, b: string, c: string, d: string, e: string)
    ensures a + b + c + d + e == a + (b + c + d) + e
    ensures a == [] ==> a + (b + c + d) + e == (b + c + d) + e
    ensures e == [] ==> a + (b + c + d) + e == a + (b + c + d)
  {
  }

  /** A conversion prints its text, with its zeros put in, justified in its field. */
  lemma LaidOut(x: Piece)
    requires x.at <= |x.text| && Countable(|x.text|, x.zeros, x.width)
    requires x.zeroPad && !x.left ==> |x.text| + x.zeros >= x.width
    ensures Emitted(x) == Justified(Body(x), x.width, x.left)
  {
    Int32Exact(x.width - (|x.text| + x.zeros));
    BetweenPaddings(x);
    var w := Sites(x);
    BodyGrouped(w.lpad, w.sign, w.zeros, w.rest, w.rpad);
  }

  // ---- Numbers ----

  ghost function Base(conv: char): nat {
    if conv == 'o' then 8 else if conv == 'x' || conv == 'X' then 16 else 10
  }

  /** The number a conversion is to print. */
  ghost function Wanted(sp: Spec, v: int): int {
    if sp.conv == 'd' then SignedValue(v, sp.modifier) else UnsignedValue(v, sp.modifier)
  }

  /** The sign, or the 0x of the alternate form. */
  ghost function SignText(sp: Spec, v: int): string {
    if sp.conv == 'd' then
      if Wanted(sp, v) < 0 then "-" else if sp.sign then (if sp.space then " " else "+") else []
    else if sp.alt && Wanted(sp, v) != 0 && (sp.conv == 'x' || sp.conv == 'X') then ['0', sp.conv]
    else []
  }

  ghost function Magnitude(x: int): nat { if x < 0 then -x else x }

  ghost predicate PrintsNumber(sp: Spec) {
    sp.conv in {'d', 'u', 'o', 'x', 'X'} && sp.width < TWO32 && sp.prec < TWO32
  }

  // The code looks at the argument before it is cut to the short that an `h` names.

  /** The argument as fetched is 0 exactly if what is printed is. */
  ghost predicate ZeroSeen(sp: Spec, v: int) {
    SignOf(sp, v) == 0 <==> Wanted(sp, v) == 0
  }

  /** The argument as fetched is negative exactly if what is printed is. */
  ghost predicate MinusSeen(sp: Spec, v: int) {
    SignOf(sp, v) < 0 <==> Wanted(sp, v) < 0
  }

  ghost predicate NoDigitsForZero(sp: Spec) { sp.hasPrec && sp.prec == 0 }

  ghost predicate HexMarked(sp: Spec) { sp.alt && (sp.conv == 'x' || sp.conv == 'X') }

  /** What the code looks for is as it is in what is printed. */
  ghost predicate Regular(sp: Spec, v: int) {
    && (NoDigitsForZero(sp) || HexMarked(sp) ==> ZeroSeen(sp, v))
    && (sp.conv == 'd' && sp.sign ==> MinusSeen(sp, v))
  }

  /** The digits of the number, none for a zero with precision 0. */
  ghost function BareDigits(sp: Spec, v: int): string {
    if sp.hasPrec && sp.prec == 0 && Wanted(sp, v) == 0 then []
    else Digits(Magnitude(Wanted(sp, v)), Base(sp.conv), if sp.conv == 'X' then UPPER else LOWER)
  }

  /** How many digits the precision, or the alternate octal form, asks for at least. */
  ghost function LeastDigits(sp: Spec, v: int): nat {
    var bare := BareDigits(sp, v);
    var least := if sp.hasPrec then sp.prec else 1;
    if sp.alt && sp.conv == 'o' && (bare == [] || bare[0] != '0') then Most(least, |bare| + 1) else least
  }

  /** The digits with their leading zeros: those asked for, and those of a field that the 0 flag fills. */
  ghost function AllDigitsOf(sp: Spec, v: int): string {
    Repeat('0', LeadingZerosOf(sp, v)) + BareDigits(sp, v)
  }

  ghost function LeadingZerosOf(sp: Spec, v: int): int {
    var fill := if sp.zero && !sp.hasPrec && !sp.left then sp.width - |SignText(sp, v)| else 0;
    Most(LeastDigits(sp, v), if fill > 0 then fill else 0) - |BareDigits(sp, v)|
  }

  /** What the conversion is to print for a number. */
  ghost function NumberMeaning(sp: Spec, v: int): string {
    Justified(SignText(sp, v) + AllDigitsOf(sp, v), sp.width, sp.left)
  }

  lemma BareDigitsRead(sp: Spec, v: int)
    requires PrintsNumber(sp)
    ensures var b := BareDigits(sp, v);
            AllDigits(b, Base(sp.conv)) && Value(b, Base(sp.conv)) == Magnitude(Wanted(sp, v))
  {
    DigitsRead(Magnitude(Wanted(sp, v)), Base(sp.conv), if sp.conv == 'X' then UPPER else LOWER);
  }

  lemma SprintfDigits(sp: Spec, v: int)
    requires PrintsNumber(sp)
    ensures Sprintf(sp.conv, sp.modifier, v)
            == (if Wanted(sp, v) < 0 then "-" else []) +
               Digits(Magnitude(Wanted(sp, v)), Base(sp.conv), if sp.conv == 'X' then UPPER else LOWER)
  {
  }

  /** What the code puts before the digits. */
  ghost function Head(sp: Spec, v: int): string {
    Prefix(sp, SignOf(sp, v)) + if Wanted(sp, v) < 0 then "-" else []
  }

  lemma HeadIsSign(sp: Spec, v: int)
    requires Regular(sp, v) && PrintsNumber(sp)
    ensures Head(sp, v) == SignText(sp, v)
  {
  }

  /** Digits are not mistaken for a sign or 0x. */
  lemma PastSignStops(pre: string, minus: string, digits: string, base: nat)
    requires GoodBase(base) && AllDigits(digits, base) && (minus == [] || minus == "-")
    ensures PastSign(pre + (minus + digits), |pre|) == |pre + minus|
  {
    var s := pre + (minus + digits);
    assert forall i | 0 <= i < |digits| :: s[|pre| + |minus| + i] == digits[i];
  }

  ghost function Text(sp: Spec, v: int): string {
    if sp.hasPrec && sp.prec == 0 && SignOf(sp, v) == 0 then [] else Sprintf(sp.conv, sp.modifier, v)
  }

  lemma UnpaddedText(sp: Spec, v: int)
    requires sp.conv != 'p'
    ensures var u := Unpadded(sp, v); var pre := Prefix(sp, SignOf(sp, v));
            && u.text == pre + Text(sp, v)
            && u.at == if Text(sp, v) == [] then |pre| else PastSign(u.text, |pre|)
  {
  }

  lemma TextSplits(sp: Spec, v: int, minus: string)
    requires PrintsNumber(sp) && (NoDigitsForZero(sp) ==> ZeroSeen(sp, v))
    requires minus == if Wanted(sp, v) < 0 then "-" else []
    ensures Text(sp, v) == minus + BareDigits(sp, v)
  {
    SprintfDigits(sp, v);
  }

  /** The zeros go between the head and the digits. */
  lemma SplitAtZeros(sp: Spec, v: int)
    requires PrintsNumber(sp) && (NoDigitsForZero(sp) ==> ZeroSeen(sp, v))
    ensures var u := Unpadded(sp, v); u.text == Head(sp, v) + BareDigits(sp, v) && u.at == |Head(sp, v)|
  {
    var pre, b, minus := Prefix(sp, SignOf(sp, v)), BareDigits(sp, v), if Wanted(sp, v) < 0 then "-" else [];
    UnpaddedText(sp, v);
    TextSplits(sp, v, minus);
    BareDigitsRead(sp, v);
    PastSignStops(pre, minus, b, Base(sp.conv));
    Regroup(pre, minus, b);
  }

  /** The zeros make up the digits asked for. */
  lemma ZerosEnough(sp: Spec, v: int)
    requires PrintsNumber(sp) && (NoDigitsForZero(sp) ==> ZeroSeen(sp, v))
    ensures var u := Unpadded(sp, v); var bare := |BareDigits(sp, v)|;
            && u.zeroPad == (sp.zero && !sp.hasPrec)
            && u.zeros == (if bare < LeastDigits(sp, v) then LeastDigits(sp, v) - bare else 0)
  {
    SplitAtZeros(sp, v);
  }

  /** The text of a filled number, if its lengths can be counted. */
  lemma FilledText(u: Piece, sign: string, bare: string)
    requires u.at == |sign| && u.text == sign + bare && Countable(|u.text|, AllZeros(u), u.width)
    requires u.zeroPad ==> u.zeros < TMP && |u.text| < TMP
    ensures Emitted(Filled(u)) == Justified(sign + (Repeat('0', AllZeros(u)) + bare), u.width, u.left)
  {
    var x := Filled(u);
    Int32Parts(u.width - (|u.text| + u.zeros));
    assert x.zeros == AllZeros(u);
    LaidOut(x);
    BodySplits(x, sign, bare);
  }

  lemma BodySplits(x: Piece, sign: string, bare: string)
    requires x.at == |sign| && x.text == sign + bare
    ensures Body(x) == sign + (Repeat('0', x.zeros) + bare)
  {
  }

  lemma ZerosRead(zeros: int, bare: string, base: nat)
    requires GoodBase(base) && AllDigits(bare, base)
    ensures AllDigits(Repeat('0', zeros) + bare, base) && Value(Repeat('0', zeros) + bare, base) == Value(bare, base)
    ensures zeros > 0 ==> (Repeat('0', zeros) + bare)[0] == '0'
  {
    if zeros >= 0 {
      LeadingZeros(zeros, bare, base);
      Repeats('0', zeros);
    } else {
      assert Repeat('0', zeros) + bare == bare;
    }
  }

  /** The digits to be printed have the value of the number, and are as many as asked for. */
  lemma {:induction false} DigitsMean(sp: Spec, v: int)
    requires PrintsNumber(sp)
    ensures var d := AllDigitsOf(sp, v);
            && AllDigits(d, Base(sp.conv)) && Value(d, Base(sp.conv)) == Magnitude(Wanted(sp, v))
            && |d| >= LeastDigits(sp, v)
            && (sp.alt && sp.conv == 'o' ==> |d| > 0 && d[0] == '0')
            && (sp.zero && !sp.hasPrec && !sp.left ==> |SignText(sp, v)| + |d| >= sp.width)
  {
    BareDigitsRead(sp, v);
    ZerosRead(LeadingZerosOf(sp, v), BareDigits(sp, v), Base(sp.conv));
  }

  /** The zeros of the code are the leading zeros asked for, if it has the head right. */
  lemma FillIsAllZeros(sp: Spec, v: int)
    requires PrintsNumber(sp) && (NoDigitsForZero(sp) ==> ZeroSeen(sp, v)) && |Head(sp, v)| == |SignText(sp, v)|
    ensures AllDigitsOf(sp, v) == Repeat('0', AllZeros(Unpadded(sp, v))) + BareDigits(sp, v)
  {
    SplitAtZeros(sp, v);
    ZerosEnough(sp, v);
    NumberFits(sp, v);
  }

  lemma FewZeros(sp: Spec, v: int)
    requires PrintsNumber(sp)
    ensures var u := Unpadded(sp, v); (u.zeroPad ==> u.zeros < TMP) && u.zeros < TWO32 && |u.text| < TMP
  {
    NumberFits(sp, v);
  }

  /** The code is right if its text is, and then exactly if the lengths can be counted. */
  lemma RightIfCountable(sp: Spec, v: int, head: string, bare: string)
    requires PrintsNumber(sp)
    requires var u := Unpadded(sp, v); u.at == |head| && u.text == head + bare
    requires var u := Unpadded(sp, v);
             && Justified(head + (Repeat('0', AllZeros(u)) + bare), sp.width, sp.left) == NumberMeaning(sp, v)
             && |NumberMeaning(sp, v)| == Most(sp.width, |u.text| + u.zeros)
    ensures var u := Unpadded(sp, v);
            Emitted(Numeric(sp, v)) == NumberMeaning(sp, v) <==> Countable(|u.text|, AllZeros(u), sp.width)
  {
    var u := Unpadded(sp, v);
    FewZeros(sp, v);
    NumericLength(sp, v);
    if Countable(|u.text|, AllZeros(u), sp.width) { FilledText(u, head, bare); }
  }

  lemma RegularPrinted(sp: Spec, v: int)
    requires PrintsNumber(sp) && Regular(sp, v)
    ensures var u := Unpadded(sp, v);
            Emitted(Numeric(sp, v)) == NumberMeaning(sp, v) <==> Countable(|u.text|, AllZeros(u), sp.width)
  {
    SplitAtZeros(sp, v);
    HeadIsSign(sp, v);
    FillIsAllZeros(sp, v);
    FewZeros(sp, v);
    RightIfCountable(sp, v, SignText(sp, v), BareDigits(sp, v));
  }

  // ---- What a cut argument does ----

  /**
   The blank of a blank flag cannot be told from the padding: the field is padded with blanks on the
   left, and wide enough for the blank.
   */
  ghost predicate BlankHidden(sp: Spec, v: int) {
    && sp.space && !sp.left && !(sp.zero && !sp.hasPrec)
    && sp.width >= |Unpadded(sp, v).text| + Unpadded(sp, v).zeros
    && sp.width >= |SignText(sp, v)| + |AllDigitsOf(sp, v)|
  }

  /** That the code looks at the argument before the cut does not show. */
  ghost predicate CutHarmless(sp: Spec, v: int) {
    && ((NoDigitsForZero(sp) && !(sp.alt && sp.conv == 'o')) || HexMarked(sp) ==> ZeroSeen(sp, v))
    && (sp.conv == 'd' && sp.sign ==> MinusSeen(sp, v) || BlankHidden(sp, v))
  }

  /** Every character of a text this short is written, whatever the paddings. */
  lemma TextWritten(x: Piece, c: char)
    requires x.at <= |x.text| < TMP && c in x.text
    ensures c in Emitted(x)
  {
    var w := Sites(x);
    var from := if x.zeros == 0 then 0 else x.at;
    Int32Exact(from);
    Int32Exact(|x.text| - from);
    InEither(x.text, from, c);
    assert c in w.sign || c in w.rest;
  }

  lemma InEither(s: string, i: nat, c: char)
    requires i <= |s| && c in s
    ensures c in s[..i] || c in s[i..]
  {
    var k :| 0 <= k < |s| && s[k] == c;
    if k < i { assert s[..i][k] == c; } else { assert s[i..][k - i] == c; }
  }

  /** Nothing else is written but blanks and zeros. */
  lemma NothingElseWritten(x: Piece, c: char)
    requires x.at <= |x.text| < TMP && c !in x.text && c != ' ' && c != '0'
    ensures c !in Emitted(x)
  {
    var w := Sites(x);
    Repeats(if x.zeroPad then '0' else ' ', Padding(x));
    Repeats('0', Int32(x.zeros));
    Repeats(' ', Padding(x));
    assert c !in w.lpad && c !in w.sign && c !in w.zeros && c !in w.rest && c !in w.rpad;
  }

  /** What the output may begin with. */
  lemma FirstWritten(x: Piece)
    requires x.at <= |x.text| < TMP && x.text != []
    ensures var e := Emitted(x);
            && |e| > 0
            && (e[0] == x.text[0] || (x.at == 0 && e[0] == '0') || (!x.left && e[0] == if x.zeroPad then '0' else ' '))
  {
    var w := Sites(x);
    var from := if x.zeros == 0 then 0 else x.at;
    Int32Exact(from);
    Int32Exact(|x.text| - from);
    Repeats(if x.zeroPad then '0' else ' ', Padding(x));
    Repeats('0', Int32(x.zeros));
  }

  lemma InJustified(s: string, width: nat, left: bool, c: char)
    requires c != ' '
    ensures c in Justified(s, width, left) <==> c in s
  {
    Repeats(' ', width - |s|);
  }

  /** An int that is not 0 cut to 0: the digit, or the mark, is written that should not be. */
  lemma ZeroShows(sp: Spec, v: int)
    requires PrintsNumber(sp) && !ZeroSeen(sp, v)
    requires (NoDigitsForZero(sp) && !(sp.alt && sp.conv == 'o')) || HexMarked(sp)
    ensures Emitted(Numeric(sp, v)) != NumberMeaning(sp, v)
  {
    var c := if HexMarked(sp) then sp.conv else '0';
    NumberFits(sp, v);
    ZeroText(sp, v);
    TextWritten(Numeric(sp, v), c);
    InJustified(SignText(sp, v) + AllDigitsOf(sp, v), sp.width, sp.left, c);
    ZeroMeant(sp, v, c);
  }

  lemma ZeroMeant(sp: Spec, v: int, c: char)
    requires PrintsNumber(sp) && Wanted(sp, v) == 0
    requires if HexMarked(sp) then c == sp.conv else c == '0' && NoDigitsForZero(sp) && !(sp.alt && sp.conv == 'o')
    ensures c !in SignText(sp, v) + AllDigitsOf(sp, v)
  {
    Repeats('0', LeadingZerosOf(sp, v));
  }

  lemma ZeroText(sp: Spec, v: int)
    requires PrintsNumber(sp) && !ZeroSeen(sp, v)
    ensures Wanted(sp, v) == 0 && SignOf(sp, v) != 0 && Unpadded(sp, v).text == Prefix(sp, SignOf(sp, v)) + "0"
  {
    if SignOf(sp, v) == 0 { ZeroStaysZero(sp, v); }
    UnpaddedText(sp, v);
    ZeroDigits(sp, v);
  }

  lemma ZeroDigits(sp: Spec, v: int)
    requires PrintsNumber(sp) && Wanted(sp, v) == 0
    ensures Sprintf(sp.conv, sp.modifier, v) == "0"
  {
    SprintfDigits(sp, v);
  }

  /** An int that is 0 is a short that is 0. */
  lemma ZeroStaysZero(sp: Spec, v: int)
    requires PrintsNumber(sp) && SignOf(sp, v) == 0
    ensures Wanted(sp, v) == 0
  {
    Int32Zero(v);
    if v % 0x1_0000_0000 == 0 { LowHalfZero(v); }
  }

  lemma Int32Zero(v: int)
    ensures Int32(v) == 0 ==> v % 0x1_0000_0000 == 0
  {
  }

  lemma LowHalfZero(v: int)
    requires v % 0x1_0000_0000 == 0
    ensures v % 0x1_0000 == 0 && Int16(v) == 0
  {
    var k := v / 0x1_0000_0000;
    var m := 0x1_0000 * k;
    assert v == 0x1_0000 * m;
    assert (0x1_0000 * m) % 0x1_0000 == 0;
    assert (0x1_0000 * m + 0x8000) % 0x1_0000 == 0x8000;
  }

  /** The alternate octal form prints the one zero either way. */
  lemma OctalZeroPrinted(sp: Spec, v: int)
    requires PrintsNumber(sp) && !ZeroSeen(sp, v) && NoDigitsForZero(sp) && sp.alt && sp.conv == 'o'
    ensures var u := Unpadded(sp, v);
            Emitted(Numeric(sp, v)) == NumberMeaning(sp, v) <==> Countable(|u.text|, AllZeros(u), sp.width)
  {
    ZeroText(sp, v);
    var u := Unpadded(sp, v);
    assert u.text == "0" && u.at == 0 && u.zeros == 0 && !u.zeroPad;
    assert AllDigitsOf(sp, v) == "0";
    RightIfCountable(sp, v, "", "0");
  }

  lemma BlankInPadding(s: string, width: nat)
    requires width > |s|
    ensures Justified(s, width, false) == Justified(" " + s, width, false)
  {
    BlankLast(width - |s| - 1);
    Regroup(Repeat(' ', width - |s| - 1), " ", s);
  }

  lemma {:induction false} BlankLast(n: nat)
    ensures Repeat(' ', n + 1) == Repeat(' ', n) + " "
  {
    if n > 0 { BlankLast(n - 1); }
  }

  /** A sign is asked for, and the int and the short have different ones. */
  ghost predicate SignCut(sp: Spec, v: int) {
    && PrintsNumber(sp) && sp.conv == 'd' && sp.sign && !MinusSeen(sp, v)
    && (NoDigitsForZero(sp) ==> ZeroSeen(sp, v))
  }

  /** Then the code has a sign too many, or none. */
  lemma CutHeads(sp: Spec, v: int)
    requires SignCut(sp, v)
    ensures var sign := if sp.space then " " else "+";
            && |BareDigits(sp, v)| > 0
            && (Wanted(sp, v) < 0 ==> Head(sp, v) == sign + "-" && SignText(sp, v) == "-")
            && (Wanted(sp, v) >= 0 ==> Head(sp, v) == "" && SignText(sp, v) == sign)
  {
  }

  lemma BlankHiddenPrinted(sp: Spec, v: int)
    requires SignCut(sp, v) && BlankHidden(sp, v)
    ensures var u := Unpadded(sp, v);
            Emitted(Numeric(sp, v)) == NumberMeaning(sp, v) <==> Countable(|u.text|, AllZeros(u), sp.width)
  {
    CutHeads(sp, v);
    SplitAtZeros(sp, v);
    CutZeros(sp, v);
    HiddenBlank(sp, v, AllDigitsOf(sp, v));
    RightIfCountable(sp, v, Head(sp, v), BareDigits(sp, v));
  }

  /** Unless the 0 flag fills the field, the zeros are the leading zeros asked for. */
  lemma CutZeros(sp: Spec, v: int)
    requires SignCut(sp, v) && !(sp.zero && !sp.hasPrec)
    ensures var u := Unpadded(sp, v);
            && AllDigitsOf(sp, v) == Repeat('0', AllZeros(u)) + BareDigits(sp, v) && AllZeros(u) == u.zeros
            && |AllDigitsOf(sp, v)| == |BareDigits(sp, v)| + u.zeros
  {
    ZerosEnough(sp, v);
  }

  lemma HiddenBlank(sp: Spec, v: int, d: string)
    requires SignCut(sp, v) && sp.space && !sp.left
    requires sp.width >= |Head(sp, v)| + |d| && sp.width >= |SignText(sp, v)| + |d|
    ensures Justified(Head(sp, v) + d, sp.width, false) == Justified(SignText(sp, v) + d, sp.width, false)
  {
    CutHeads(sp, v);
    if Wanted(sp, v) < 0 {
      BlankInPadding("-" + d, sp.width);
      Regroup(" ", "-", d);
    } else {
      BlankInPadding(d, sp.width);
      assert "" + d == d;
    }
  }

  lemma PlusShows(sp: Spec, v: int)
    requires SignCut(sp, v) && !sp.space
    ensures Emitted(Numeric(sp, v)) != NumberMeaning(sp, v)
  {
    PlusMeant(sp, v);
    PlusWritten(sp, v);
  }

  lemma PlusMeant(sp: Spec, v: int)
    requires SignCut(sp, v) && !sp.space
    ensures '+' in NumberMeaning(sp, v) <==> Wanted(sp, v) >= 0
  {
    CutHeads(sp, v);
    DigitsMean(sp, v);
    InJustified(SignText(sp, v) + AllDigitsOf(sp, v), sp.width, sp.left, '+');
    NoPlus(AllDigitsOf(sp, v));
  }

  lemma PlusWritten(sp: Spec, v: int)
    requires SignCut(sp, v) && !sp.space
    ensures '+' in Emitted(Numeric(sp, v)) <==> Wanted(sp, v) < 0
  {
    var x := Numeric(sp, v);
    CutHeads(sp, v);
    SplitAtZeros(sp, v);
    NumberFits(sp, v);
    BareDigitsRead(sp, v);
    NoPlus(BareDigits(sp, v));
    if Wanted(sp, v) < 0 { TextWritten(x, '+'); } else { NothingElseWritten(x, '+'); }
  }

  lemma NoPlus(s: string)
    requires AllDigits(s, 10)
    ensures '+' !in s && ' ' !in s && '-' !in s
  {
  }

  /** The field is not padded on the left. */
  ghost predicate NoPadding(sp: Spec, v: int) {
    sp.left || (sp.zero && !sp.hasPrec) || sp.width <= |SignText(sp, v)| + |AllDigitsOf(sp, v)|
  }

  lemma MeaningFirst(sp: Spec, v: int)
    requires SignCut(sp, v) && NoPadding(sp, v)
    ensures |NumberMeaning(sp, v)| > 0 && NumberMeaning(sp, v)[0] == SignText(sp, v)[0]
  {
    CutHeads(sp, v);
    DigitsMean(sp, v);
  }

  lemma CutFirst(sp: Spec, v: int)
    requires SignCut(sp, v) && sp.space
    ensures var e := Emitted(Numeric(sp, v));
            && |e| > 0
            && (Wanted(sp, v) < 0 ==> e[0] != '-')
            && (Wanted(sp, v) >= 0 && (sp.left || (sp.zero && !sp.hasPrec)) ==> e[0] != ' ')
  {
    CutHeads(sp, v);
    SplitAtZeros(sp, v);
    ZerosEnough(sp, v);
    NumberFits(sp, v);
    BareDigitsRead(sp, v);
    NoPlus(BareDigits(sp, v));
    FirstWritten(Numeric(sp, v));
  }

  lemma BlankShows(sp: Spec, v: int)
    requires SignCut(sp, v) && sp.space && !BlankHidden(sp, v)
    ensures Emitted(Numeric(sp, v)) != NumberMeaning(sp, v)
  {
    CutHeads(sp, v);
    CutFirst(sp, v);
    if sp.left || (sp.zero && !sp.hasPrec) {
      MeaningFirst(sp, v);
    } else {
      CutZeros(sp, v);
      SplitAtZeros(sp, v);
      if Wanted(sp, v) < 0 {
        MeaningFirst(sp, v);
      } else {
        FewZeros(sp, v);
        TooNarrow(Unpadded(sp, v));
      }
    }
  }

  /** In a field too narrow for the text and one blank, there is no blank. */
  lemma TooNarrow(u: Piece)
    requires u.at <= |u.text| < TMP && u.zeros < TWO32 && u.width <= |u.text| + u.zeros && !u.zeroPad
    ensures |Emitted(Filled(u))| != |u.text| + u.zeros + 1
  {
    var from := if u.zeros == 0 then 0 else u.at;
    EmittedParts(u, from);
    NarrowCounts(|u.text|, from, u.zeros, u.width);
  }

  lemma NarrowCounts(text: nat, from: nat, zeros: nat, width: nat)
    requires from <= text < TMP && zeros < TWO32 && width <= text + zeros
    ensures Written(text, from, zeros, width) != text + zeros + 1
  {
    Int32Parts(width - (text + zeros));
    Int32Parts(zeros);
    Int32Parts(from);
    Int32Parts(text - from);
  }

  /**
   A number prints as its sign (or 0x) and digits that have its value, justified in its field, exactly
   if the lengths can be counted in an int and a cut to a short does not show.
   */
  lemma {:induction false} NumberPrinted(sp: Spec, v: int)
    requires PrintsNumber(sp)
    ensures var u := Unpadded(sp, v);
            Emitted(Numeric(sp, v)) == NumberMeaning(sp, v)
            <==> Countable(|u.text|, AllZeros(u), sp.width) && CutHarmless(sp, v)
  {
    if Regular(sp, v) {
      RegularPrinted(sp, v);
    } else if !ZeroSeen(sp, v) && (NoDigitsForZero(sp) || HexMarked(sp)) {
      if HexMarked(sp) || !(sp.alt && sp.conv == 'o') { ZeroShows(sp, v); } else { OctalZeroPrinted(sp, v); }
    } else if BlankHidden(sp, v) {
      BlankHiddenPrinted(sp, v);
    } else if sp.space {
      BlankShows(sp, v);
    } else {
      PlusShows(sp, v);
    }
  }

  /** Without an `h` there is no cut, and only the lengths matter. */
  lemma {:induction false} PrintedUnlessShort(sp: Spec, v: int)
    requires PrintsNumber(sp) && sp.modifier != 'h'
    ensures var u := Unpadded(sp, v);
            Emitted(Numeric(sp, v)) == NumberMeaning(sp, v) <==> Countable(|u.text|, AllZeros(u), sp.width)
  {
    NumberPrinted(sp, v);
  }

  /** `%+hd` of 40000 does not print what it means; plain `%hd` of 40000 does. */
  lemma {:induction false} ShortSignExample()
    ensures var sp := PLAIN.(modifier := 'h', conv := 'd'); var plus := sp.(sign := true, space := false);
            && Emitted(Numeric(sp, 40000)) == NumberMeaning(sp, 40000)
            && Emitted(Numeric(plus, 40000)) != NumberMeaning(plus, 40000)
  {
    var sp := PLAIN.(modifier := 'h', conv := 'd');
    var plus := sp.(sign := true, space := false);
    assert Int32(40000) == 40000 && Int16(40000) == -25536;
    PlusShows(plus, 40000);
    ShortPlain(sp, 40000);
  }

  lemma ShortPlain(sp: Spec, v: int)
    requires sp == PLAIN.(modifier := 'h', conv := 'd')
    ensures Emitted(Numeric(sp, v)) == NumberMeaning(sp, v)
  {
    NumberPrinted(sp, v);
    NumberFits(sp, v);
  }

  /** Nor do `%.0hd` and `%#hx` of 65536. */
  lemma {:induction false} ShortZeroExample()
    ensures var sp := PLAIN.(modifier := 'h', conv := 'd');
            var none, hex := sp.(hasPrec := true), sp.(alt := true, conv := 'x');
            && Emitted(Numeric(none, 65536)) != NumberMeaning(none, 65536)
            && Emitted(Numeric(hex, 65536)) != NumberMeaning(hex, 65536)
  {
    var sp := PLAIN.(modifier := 'h', conv := 'd');
    assert Int32(65536) == 65536 && Int16(65536) == 0;
    ZeroShows(sp.(hasPrec := true), 65536);
    ZeroShows(sp.(alt := true, conv := 'x'), 65536);
  }

  /** As much of a string as its precision lets through; nothing for a null string. */
  ghost function Shown(s: Option<string>, sp: Spec): string {
    match s
    case None => ""
    case Some(t) => if sp.hasPrec then t[..if sp.prec < |t| then sp.prec else |t|] else t
  }

  /** A number as it is stored in so many bits: the lower ones are kept, with or without a sign. */
  ghost predicate StoredIn(v: int, x: int, full: int, signed: bool) {
    && (if signed then -full <= 2 * x < full else 0 <= x < full)
    && exists q: int :: v == x + Times(full, q)
  }

  ghost function Times(full: int, q: int): int { full * q }

  /** The modifier names the width: h 16 bits, l 64, none 32. */
  lemma {:induction false} ValueStored(v: int)
    ensures StoredIn(v, SignedValue(v, 'h'), 0x1_0000, true) && StoredIn(v, UnsignedValue(v, 'h'), 0x1_0000, false)
    ensures StoredIn(v, SignedValue(v, '\0'), 0x1_0000_0000, true)
    ensures StoredIn(v, UnsignedValue(v, '\0'), 0x1_0000_0000, false)
    ensures StoredIn(v, SignedValue(v, 'l'), 0x1_0000_0000_0000_0000, true)
    ensures StoredIn(v, UnsignedValue(v, 'l'), 0x1_0000_0000_0000_0000, false)
  {
    assert v == Int16(v) + Times(0x1_0000, (v + 0x8000) / 0x1_0000);
    assert v == v % 0x1_0000 + Times(0x1_0000, v / 0x1_0000);
    assert v == Int32(v) + Times(0x1_0000_0000, (v + 0x8000_0000) / 0x1_0000_0000);
    assert v == v % 0x1_0000_0000 + Times(0x1_0000_0000, v / 0x1_0000_0000);
    Stored64(v);
  }

  lemma Stored64(v: int)
    ensures StoredIn(v, Int64(v), 0x1_0000_0000_0000_0000, true)
    ensures StoredIn(v, v % 0x1_0000_0000_0000_0000, 0x1_0000_0000_0000_0000, false)
  {
    assert v == Int64(v) + Times(0x1_0000_0000_0000_0000, (v + 0x8000_0000_0000_0000) / 0x1_0000_0000_0000_0000);
    assert v == v % 0x1_0000_0000_0000_0000 + Times(0x1_0000_0000_0000_0000, v / 0x1_0000_0000_0000_0000);
  }

  /** Arguments are taken as they are given, an int for a star. */
  lemma {:induction false} ArgumentTaken(args: seq<Arg>, k: nat)
    requires k < |args|
    ensures args[k].Number? ==> IntArg(args, k) == args[k].v && StrArg(args, k) == None
    ensures args[k].Number? && -0x8000_0000 <= args[k].v < 0x8000_0000 ==> StarArg(args, k) == args[k].v
    ensures args[k].Text? ==> StrArg(args, k) == args[k].s && IntArg(args, k) == 0
  {
  }

  /**
   A string prints as much of it as the precision lets through, justified in its field, exactly if the
   lengths can be counted in an int.
   */
  lemma {:induction false} StringPrinted(fmt: string, a: Parse, args: seq<Arg>)
    requires a.spec.conv == 's' && a.spec.width < TWO32
    ensures var text := Shown(StrArg(args, a.k), a.spec);
            Emitted(Convert(fmt, a, args).0) == Justified(text, a.spec.width, a.spec.left)
            <==> Countable(|text|, 0, a.spec.width)
  {
    ShownIsPrinted(StrArg(args, a.k), a.spec);
    PlainPrinted(Convert(fmt, a, args).0);
  }

  lemma ShownIsPrinted(s: Option<string>, sp: Spec)
    ensures Truncated(s, sp) == Shown(s, sp)
  {
    if s.Some? { assert s.value[..|s.value|] == s.value; }
  }

  /** A text without zeros put in is justified in its field exactly if the lengths can be counted in an int. */
  lemma PlainPrinted(x: Piece)
    requires x.at == 0 && x.zeros == 0 && x.width < TWO32 && !x.zeroPad
    ensures Emitted(x) == Justified(x.text, x.width, x.left) <==> Countable(|x.text|, 0, x.width)
  {
    EmittedLength(x);
    if Countable(|x.text|, 0, x.width) {
      LaidOut(x);
      assert Body(x) == x.text;
    }
  }
}
