/**
 Whole formats: a specification means what its text says wherever it stands, and a format of words and
 specifications prints its words and what its specifications mean.
 */
module Formats {
  import opened Options
  import opened Basics
  import opened Snprintf
  import opened NumberText

  // ---- Writing a specification ----

  /** A width or a precision: digits, or an argument. */
  datatype Count = Given(digits: string) | Star

  /** A conversion specification as it is written. */
  datatype Directive = Directive(flags: string, width: Count, prec: Option<Count>, modifier: string, conv: char)

  function CountText(c: Count): string {
    if c.Star? then "*" else c.digits
  }

  function PrecisionText(d: Directive): string {
    if d.prec.Some? then "." + CountText(d.prec.value) else ""
  }

  function ConversionText(d: Directive): string {
    d.modifier + [d.conv]
  }

  function DirectiveText(d: Directive): string {
    "%" + d.flags + CountText(d.width) + PrecisionText(d) + ConversionText(d)
  }

  ghost predicate Decimal10(s: string) { forall i | 0 <= i < |s| :: IsDigit(s[i]) }

  ghost predicate GoodCount(c: Count) { c.Given? ==> Decimal10(c.digits) }

  ghost predicate AllFlags(s: string) { forall i | 0 <= i < |s| :: IsFlag(s[i]) }

  /** A zero in front of the width is a flag, and h and l are modifiers. */
  ghost predicate Writable(d: Directive) {
    && AllFlags(d.flags)
    && GoodCount(d.width) && (d.width.Given? && d.width.digits != [] ==> d.width.digits[0] != '0')
    && (d.prec.Some? ==> GoodCount(d.prec.value))
    && d.modifier in {"", "h", "l", "ll"}
    && !IsFlag(d.conv) && !IsDigit(d.conv) && d.conv !in {'*', '.', 'h', 'l', '\0'}
  }

  // ---- What it says ----

  /** What the flags say on top of a specification. */
  ghost function Flagged(sp: Spec, flags: string): Spec {
    sp.(zero := sp.zero || '0' in flags, left := sp.left || '-' in flags,
        sign := sp.sign || '+' in flags || ' ' in flags, space := sp.space && '+' !in flags,
        alt := sp.alt || '#' in flags)
  }

  /** Flags count by being there: a plus wins over a blank, and the quote means nothing. */
  ghost function FlagsOf(flags: string): Spec {
    Spec('0' in flags, '-' in flags, '+' in flags || ' ' in flags, '+' !in flags, '#' in flags, 0, false, 0, '\0', '\0')
  }

  ghost function Stars(c: Count): nat { if c.Star? then 1 else 0 }

  /** Digits count modulo 2^32; a width from an argument is its size. */
  ghost function WidthOf(c: Count, args: seq<Arg>, k: nat): (r: nat)
    ensures r < TWO32
  {
    match c
    case Given(digits) => Value(digits, 10) % TWO32
    case Star => if StarArg(args, k) >= 0 then StarArg(args, k) else -StarArg(args, k)
  }

  /** A negative width from an argument justifies to the left. */
  ghost predicate TurnsLeft(c: Count, args: seq<Arg>, k: nat) { c.Star? && StarArg(args, k) < 0 }

  /** A negative precision from an argument is none. */
  ghost predicate Counts(c: Count, args: seq<Arg>, k: nat) { c.Star? ==> StarArg(args, k) >= 0 }

  ghost function PrecisionOf(c: Count, args: seq<Arg>, k: nat): (r: nat)
    ensures r < TWO32
  {
    if Counts(c, args, k) then WidthOf(c, args, k) else 0
  }

  /** i is d; D, U and O are ld, lu and lo; ll is l. */
  function ConvOf(conv: char): char {
    if conv == 'D' || conv == 'i' then 'd' else if conv == 'U' then 'u' else if conv == 'O' then 'o' else conv
  }

  function ModifierOf(modifier: string, conv: char): char {
    if conv in "DUO" then 'l' else if modifier == "" then '\0' else modifier[0]
  }

  ghost function WithWidth(sp: Spec, c: Count, args: seq<Arg>, k: nat): Spec {
    sp.(width := WidthOf(c, args, k), left := sp.left || TurnsLeft(c, args, k))
  }

  ghost function WithPrecision(sp: Spec, c: Count, args: seq<Arg>, k: nat): Spec {
    sp.(hasPrec := Counts(c, args, k), prec := PrecisionOf(c, args, k))
  }

  ghost function WithConversion(sp: Spec, modifier: string, conv: char): Spec {
    sp.(conv := ConvOf(conv), modifier := ModifierOf(modifier, conv))
  }

  ghost function SpecOf(d: Directive, args: seq<Arg>, k: nat): Spec {
    var sp := WithWidth(FlagsOf(d.flags), d.width, args, k);
    var sp1 := if d.prec.Some? then WithPrecision(sp, d.prec.value, args, k + Stars(d.width)) else sp;
    WithConversion(sp1, d.modifier, d.conv)
  }

  ghost function StarsOf(d: Directive): nat {
    Stars(d.width) + if d.prec.Some? then Stars(d.prec.value) else 0
  }

  // ---- Reading it ----

  /** The text stands in the format at p. */
  ghost predicate StandsAt(fmt: string, p: nat, text: string) {
    p + |text| <= |fmt| && forall i | 0 <= i < |text| :: fmt[p + i] == text[i]
  }

  lemma StandsSplit(fmt: string, p: nat, a: string, b: string)
    requires StandsAt(fmt, p, a + b)
    ensures StandsAt(fmt, p, a) && StandsAt(fmt, p + |a|, b)
  {
    forall i | 0 <= i < |a| ensures fmt[p + i] == a[i] { assert (a + b)[i] == a[i]; }
    forall i | 0 <= i < |b| ensures fmt[p + |a| + i] == b[i] { assert (a + b)[|a| + i] == b[i]; }
  }

  lemma StandsWhole(fmt: string, p: nat, text: string)
    requires StandsAt(fmt, p, text)
    ensures fmt[p..p + |text|] == text
  {
  }

  lemma StandsChar(fmt: string, p: nat, text: string, i: nat)
    requires StandsAt(fmt, p, text) && i < |text|
    ensures fmt[p + i] == text[i]
  {
  }

  lemma FlagOnTop(sp: Spec, c: char, rest: string, flags: string)
    requires IsFlag(c) && flags == [c] + rest
    ensures Flagged(SetFlag(sp, c), rest) == Flagged(sp, flags)
  {
    assert forall x :: x in flags <==> x == c || x in rest;
  }

  lemma {:induction false} FlagsRead(fmt: string, p: nat, sp: Spec, flags: string)
    requires StandsAt(fmt, p, flags) && AllFlags(flags)
    requires !IsFlag(At(fmt, p + |flags|))
    ensures Flags(fmt, p, sp) == (Flagged(sp, flags), p + |flags|)
    decreases |flags|
  {
    if flags != [] {
      StandsChar(fmt, p, flags, 0);
      assert flags == flags[..1] + flags[1..];
      StandsSplit(fmt, p, flags[..1], flags[1..]);
      FlagsRead(fmt, p + 1, SetFlag(sp, flags[0]), flags[1..]);
      FlagOnTop(sp, flags[0], flags[1..], flags);
    }
  }

  lemma ValueOfOne(t: string, c: char)
    requires IsDigit(c)
    ensures Value(t + [c], 10) == 10 * Value(t, 10) + (c - '0') as nat
  {
    assert (t + [c])[..|t|] == t;
  }

  lemma RestIs(n: nat, q: nat, r: nat)
    requires n == TWO32 * q + r && r < TWO32
    ensures n % TWO32 == r
  {
  }

  lemma WrapsOnce(a: nat, c: nat)
    ensures (10 * (a % TWO32) + c) % TWO32 == (10 * a + c) % TWO32
  {
    var q, x := a / TWO32, a % TWO32;
    var y := 10 * x + c;
    assert 10 * a + c == TWO32 * (10 * q + y / TWO32) + y % TWO32;
    RestIs(10 * a + c, 10 * q + y / TWO32, y % TWO32);
  }

  lemma DecimalStep(fmt: string, p: nat, acc: nat, acc': nat)
    requires p < |fmt| && IsDigit(fmt[p]) && acc' == (10 * acc + (fmt[p] - '0') as nat) % TWO32
    ensures Decimal(fmt, p, acc) == Decimal(fmt, p + 1, acc')
  {
  }

  /** Decimal digits read as their value modulo 2^32, on top of those already read. */
  lemma {:induction false} DecimalRead(fmt: string, p: nat, t: string, s: string)
    requires StandsAt(fmt, p, s) && Decimal10(s) && !IsDigit(At(fmt, p + |s|))
    ensures Decimal(fmt, p, Value(t, 10) % TWO32) == (Value(t + s, 10) % TWO32, p + |s|)
    decreases |s|
  {
    if s == [] {
      assert t + s == t;
    } else {
      var t', rest := t + [s[0]], s[1..];
      assert s == [s[0]] + rest;
      Regroup(t, [s[0]], rest);
      StandsSplit(fmt, p, [s[0]], rest);
      StandsChar(fmt, p, s, 0);
      ValueOfOne(t, s[0]);
      WrapsOnce(Value(t, 10), (s[0] - '0') as nat);
      DecimalStep(fmt, p, Value(t, 10) % TWO32, Value(t', 10) % TWO32);
      DecimalRead(fmt, p + 1, t', rest);
    }
  }

  lemma DigitsReadFrom(fmt: string, p: nat, s: string)
    requires StandsAt(fmt, p, s) && Decimal10(s) && !IsDigit(At(fmt, p + |s|))
    ensures Decimal(fmt, p, 0) == (Value(s, 10) % TWO32, p + |s|)
  {
    var t: string := [];
    assert t + s == s;
    assert Value(t, 10) % TWO32 == 0;
    DecimalRead(fmt, p, t, s);
  }

  /** What may stand behind a part of a specification. */
  ghost predicate Ends(c: char) { !IsFlag(c) && !IsDigit(c) && c != '*' }

  lemma ConversionFirst(d: Directive)
    requires Writable(d)
    ensures Ends(ConversionText(d)[0]) && ConversionText(d)[0] != '.'
  {
  }

  /** The modifier m stands at p, and conv behind it. */
  lemma ConversionAt(fmt: string, p: nat, m: string, conv: char, sp: Spec, k: nat)
    requires conv !in {'h', 'l'} && p + |m| < |fmt| && fmt[p + |m|] == conv
    requires m == "" || (m in {"h", "l"} && fmt[p] == m[0]) || (m == "ll" && fmt[p] == 'l' && fmt[p + 1] == 'l')
    ensures Conversion(fmt, Parse(sp, p, k)) == Parse(WithConversion(sp, m, conv), p + |m|, k)
  {
  }

  lemma ConversionRead(fmt: string, p: nat, d: Directive, t: string, sp: Spec, k: nat)
    requires Writable(d) && t == ConversionText(d) && StandsAt(fmt, p, t)
    ensures Conversion(fmt, Parse(sp, p, k)) == Parse(WithConversion(sp, d.modifier, d.conv), p + |t| - 1, k)
  {
    var m := d.modifier;
    assert t[|m|] == d.conv;
    StandsChar(fmt, p, t, |m|);
    if |m| > 0 { StandsChar(fmt, p, t, 0); }
    if |m| > 1 { StandsChar(fmt, p, t, 1); }
    ConversionAt(fmt, p, m, d.conv, sp, k);
  }

  lemma PrecisionRead(fmt: string, p: nat, c: Count, sp: Spec, args: seq<Arg>, k: nat)
    requires GoodCount(c) && StandsAt(fmt, p, "." + CountText(c)) && Ends(At(fmt, p + 1 + |CountText(c)|))
    ensures Precision(fmt, Parse(sp, p, k), args)
            == Parse(WithPrecision(sp, c, args, k), p + 1 + |CountText(c)|, k + Stars(c))
  {
    StandsSplit(fmt, p, ".", CountText(c));
    StandsChar(fmt, p, ".", 0);
    if CountText(c) != [] { StandsChar(fmt, p + 1, CountText(c), 0); }
    if c.Given? { DigitsReadFrom(fmt, p + 1, c.digits); }
  }

  lemma WidthRead(fmt: string, p: nat, c: Count, sp: Spec, args: seq<Arg>, k: nat)
    requires GoodCount(c) && StandsAt(fmt, p, CountText(c)) && Ends(At(fmt, p + |CountText(c)|))
    ensures Width(fmt, Parse(sp, p, k), args)
            == Parse(WithWidth(sp, c, args, k), p + |CountText(c)|, k + Stars(c))
  {
    if CountText(c) != [] { StandsChar(fmt, p, CountText(c), 0); }
    if c.Given? { DigitsReadFrom(fmt, p, c.digits); }
  }

  /** The precision, if there is one, and the conversion. */
  lemma EndRead(fmt: string, p: nat, d: Directive, sp: Spec, args: seq<Arg>, k: nat)
    requires Writable(d) && StandsAt(fmt, p, PrecisionText(d) + ConversionText(d))
    ensures var sp1 := if d.prec.Some? then WithPrecision(sp, d.prec.value, args, k) else sp;
            Conversion(fmt, Precision(fmt, Parse(sp, p, k), args))
            == Parse(WithConversion(sp1, d.modifier, d.conv), p + |PrecisionText(d) + ConversionText(d)| - 1,
                     k + if d.prec.Some? then Stars(d.prec.value) else 0)
  {
    var t, c := PrecisionText(d), ConversionText(d);
    StandsSplit(fmt, p, t, c);
    ConversionFirst(d);
    StandsChar(fmt, p + |t|, c, 0);
    if d.prec.Some? {
      PrecisionRead(fmt, p, d.prec.value, sp, args, k);
      ConversionRead(fmt, p + |t|, d, c, WithPrecision(sp, d.prec.value, args, k), k + Stars(d.prec.value));
    } else {
      ConversionRead(fmt, p, d, c, sp, k);
    }
  }

  lemma EndFirst(d: Directive)
    requires Writable(d)
    ensures var e := PrecisionText(d) + ConversionText(d); |e| > 0 && Ends(e[0])
    ensures var r := CountText(d.width) + (PrecisionText(d) + ConversionText(d)); |r| > 0 && !IsFlag(r[0])
  {
    ConversionFirst(d);
  }

  lemma FlagTextRead(fmt: string, p: nat, flags: string, rest: string)
    requires AllFlags(flags) && StandsAt(fmt, p, flags + rest)
    requires rest != [] && !IsFlag(rest[0])
    ensures Flags(fmt, p, PLAIN) == (FlagsOf(flags), p + |flags|)
  {
    StandsSplit(fmt, p, flags, rest);
    StandsChar(fmt, p + |flags|, rest, 0);
    FlagsRead(fmt, p, PLAIN, flags);
  }

  lemma RightGrouped(a: string, b: string, c: string, d: string, e: string)
    ensures a + b + c + d + e == a + (b + (c + (d + e)))
  {
  }

  lemma DirectiveSplit(d: Directive, end: string, rest: string)
    requires end == PrecisionText(d) + ConversionText(d) && rest == CountText(d.width) + end
    ensures DirectiveText(d) == "%" + (d.flags + rest)
    ensures |DirectiveText(d)| == 1 + |d.flags| + |CountText(d.width)| + |end|
  {
    RightGrouped("%", d.flags, CountText(d.width), PrecisionText(d), ConversionText(d));
  }

  lemma PartsStand(fmt: string, p: nat, flags: string, count: string, end: string)
    requires StandsAt(fmt, p, "%" + (flags + (count + end)))
    ensures StandsAt(fmt, p + 1, flags + (count + end)) && StandsAt(fmt, p + 1 + |flags|, count + end)
    ensures StandsAt(fmt, p + 1 + |flags|, count) && StandsAt(fmt, p + 1 + |flags| + |count|, end)
  {
    StandsSplit(fmt, p, "%", flags + (count + end));
    StandsSplit(fmt, p + 1, flags, count + end);
    StandsSplit(fmt, p + 1 + |flags|, count, end);
  }

  lemma DirectiveStands(fmt: string, p: nat, d: Directive, end: string, rest: string)
    requires StandsAt(fmt, p, DirectiveText(d))
    requires end == PrecisionText(d) + ConversionText(d) && rest == CountText(d.width) + end
    ensures StandsAt(fmt, p + 1, d.flags + rest) && StandsAt(fmt, p + 1 + |d.flags|, rest)
    ensures StandsAt(fmt, p + 1 + |d.flags|, CountText(d.width))
    ensures StandsAt(fmt, p + 1 + |d.flags| + |CountText(d.width)|, end)
    ensures |DirectiveText(d)| == 1 + |d.flags| + |CountText(d.width)| + |end|
  {
    DirectiveSplit(d, end, rest);
    PartsStand(fmt, p, d.flags, CountText(d.width), end);
  }

  lemma SpecFlagsRead(fmt: string, p: nat, d: Directive)
    requires Writable(d) && StandsAt(fmt, p, DirectiveText(d))
    ensures Flags(fmt, p + 1, PLAIN) == (FlagsOf(d.flags), p + 1 + |d.flags|)
  {
    var end := PrecisionText(d) + ConversionText(d);
    var rest := CountText(d.width) + end;
    EndFirst(d);
    DirectiveStands(fmt, p, d, end, rest);
    FlagTextRead(fmt, p + 1, d.flags, rest);
  }

  lemma SpecWidthRead(fmt: string, p: nat, d: Directive, sp: Spec, args: seq<Arg>, k: nat)
    requires Writable(d) && StandsAt(fmt, p, DirectiveText(d))
    ensures Width(fmt, Parse(sp, p + 1 + |d.flags|, k), args)
            == Parse(WithWidth(sp, d.width, args, k), p + 1 + |d.flags| + |CountText(d.width)|, k + Stars(d.width))
  {
    var end := PrecisionText(d) + ConversionText(d);
    EndFirst(d);
    DirectiveStands(fmt, p, d, end, CountText(d.width) + end);
    StandsChar(fmt, p + 1 + |d.flags| + |CountText(d.width)|, end, 0);
    WidthRead(fmt, p + 1 + |d.flags|, d.width, sp, args, k);
  }

  /** Where the precision begins, if there is one. */
  function EndAt(d: Directive): nat { 1 + |d.flags| + |CountText(d.width)| }

  lemma SpecEndRead(fmt: string, p: nat, d: Directive, sp: Spec, args: seq<Arg>, k: nat)
    requires Writable(d) && StandsAt(fmt, p, DirectiveText(d))
    ensures var sp1 := if d.prec.Some? then WithPrecision(sp, d.prec.value, args, k) else sp;
            Conversion(fmt, Precision(fmt, Parse(sp, p + EndAt(d), k), args))
            == Parse(WithConversion(sp1, d.modifier, d.conv), p + |DirectiveText(d)| - 1,
                     k + if d.prec.Some? then Stars(d.prec.value) else 0)
  {
    var end := PrecisionText(d) + ConversionText(d);
    DirectiveStands(fmt, p, d, end, CountText(d.width) + end);
    EndRead(fmt, p + EndAt(d), d, sp, args, k);
  }

  lemma ParsedBy(fmt: string, p: nat, args: seq<Arg>, k: nat, sp: Spec, p1: nat, w: Parse, e: Parse)
    requires Flags(fmt, p + 1, PLAIN) == (sp, p1) && Width(fmt, Parse(sp, p1, k), args) == w
    requires Conversion(fmt, Precision(fmt, w, args)) == e
    ensures ParseSpec(fmt, p, args, k) == e
  {
  }

  /** A specification means what its text says wherever it stands in a format. */
  lemma {:induction false} SpecReadBack(fmt: string, p: nat, d: Directive, args: seq<Arg>, k: nat)
    requires Writable(d) && StandsAt(fmt, p, DirectiveText(d))
    ensures ParseSpec(fmt, p, args, k) == Parse(SpecOf(d, args, k), p + |DirectiveText(d)| - 1, k + StarsOf(d))
  {
    var sp := FlagsOf(d.flags);
    var w := Parse(WithWidth(sp, d.width, args, k), p + EndAt(d), k + Stars(d.width));
    SpecFlagsRead(fmt, p, d);
    SpecWidthRead(fmt, p, d, sp, args, k);
    SpecEndRead(fmt, p, d, w.spec, args, w.k);
    ParsedBy(fmt, p, args, k, sp, p + 1 + |d.flags|, w,
             Parse(SpecOf(d, args, k), p + |DirectiveText(d)| - 1, k + StarsOf(d)));
  }

  // ---- What a format prints ----

  datatype Item = Words(text: string) | Field(d: Directive)

  function ItemText(i: Item): string {
    match i
    case Words(text) => text
    case Field(d) => DirectiveText(d)
  }

  ghost function AllTexts(items: seq<Item>, text: Item -> string): string {
    if items == [] then [] else text(items[0]) + AllTexts(items[1..], text)
  }

  ghost function TextOf(): Item -> string {
    (i: Item) => ItemText(i)
  }

  ghost function FormatText(items: seq<Item>): string {
    AllTexts(items, TextOf())
  }

  predicate TakesArgument(conv: char) { conv == 'c' || conv == 's' || IsNumeric(conv) }

  /** What a specification means for its argument; an unknown conversion stands for itself. */
  ghost function FieldMeaning(sp: Spec, args: seq<Arg>, k: nat): string {
    if sp.conv == '%' then Justified("%", sp.width, sp.left)
    else if sp.conv == 'c' then Justified([(IntArg(args, k) % 256) as char], sp.width, sp.left)
    else if sp.conv == 's' then Justified(Shown(StrArg(args, k), sp), sp.width, sp.left)
    else if IsNumeric(sp.conv) then NumberMeaning(sp, IntArg(args, k))
    else [sp.conv]
  }

  /** The lengths can be counted in an int, and a cut to a short does not show. */
  ghost predicate FieldSound(sp: Spec, args: seq<Arg>, k: nat) {
    if sp.conv == '%' || sp.conv == 'c' then Countable(1, 0, sp.width)
    else if sp.conv == 's' then Countable(|Shown(StrArg(args, k), sp)|, 0, sp.width)
    else if IsNumeric(sp.conv) then
      var u := Unpadded(sp, IntArg(args, k));
      CutHarmless(sp, IntArg(args, k)) && Countable(|u.text|, AllZeros(u), sp.width)
    else true
  }

  /** How many arguments an item takes: its stars, and what it converts. */
  ghost function Taken(i: Item): nat {
    if i.Words? then 0 else StarsOf(i.d) + if TakesArgument(ConvOf(i.d.conv)) then 1 else 0
  }

  /** What specifications say, what they mean and whether they are sound, for given arguments. */
  datatype Reading = Reading(spec: (Directive, nat) -> Spec, meaning: (Spec, nat) -> string,
                             sound: (Spec, nat) -> bool)

  ghost function With(args: seq<Arg>): Reading {
    Reading((d: Directive, k: nat) => SpecOf(d, args, k),
            (sp: Spec, k: nat) => FieldMeaning(sp, args, k),
            (sp: Spec, k: nat) => FieldSound(sp, args, k))
  }

  /** What an item means, and whether the code gets it right. */
  ghost function ItemMeaning(i: Item, r: Reading, k: nat): string {
    match i
    case Words(text) => text
    case Field(d) => r.meaning(r.spec(d, k), k + StarsOf(d))
  }

  ghost predicate ItemSound(i: Item, r: Reading, k: nat) {
    match i
    case Words(text) => '%' !in text
    case Field(d) => Writable(d) && d.conv != 'p' && r.sound(r.spec(d, k), k + StarsOf(d))
  }

  ghost predicate AllSound(items: seq<Item>, r: Reading, k: nat) {
    items != [] ==> ItemSound(items[0], r, k) && AllSound(items[1..], r, k + Taken(items[0]))
  }

  ghost function AllMeanings(items: seq<Item>, r: Reading, k: nat): string {
    if items == [] then [] else ItemMeaning(items[0], r, k) + AllMeanings(items[1..], r, k + Taken(items[0]))
  }

  ghost predicate Fits(sp: Spec) { sp.width < TWO32 && sp.prec < TWO32 }

  lemma SpecFits(d: Directive, args: seq<Arg>, k: nat)
    ensures Fits(SpecOf(d, args, k)) && SpecOf(d, args, k).conv == ConvOf(d.conv)
  {
  }

  /** A specification, once read, prints what it means exactly if it is sound. */
  lemma FieldConverts(fmt: string, a: Parse, args: seq<Arg>)
    requires Fits(a.spec) && a.spec.conv != 'p' && a.p < |fmt|
    requires !TakesArgument(a.spec.conv) ==> fmt[a.p] == a.spec.conv
    ensures Emitted(Convert(fmt, a, args).0) == FieldMeaning(a.spec, args, a.k) <==> FieldSound(a.spec, args, a.k)
    ensures Convert(fmt, a, args).1 == a.k + if TakesArgument(a.spec.conv) then 1 else 0
  {
    var sp := a.spec;
    if sp.conv == 's' {
      StringPrinted(fmt, a, args);
    } else if IsNumeric(sp.conv) {
      NumberPrinted(sp, IntArg(args, a.k));
    } else {
      CharacterPrinted(Convert(fmt, a, args).0);
    }
  }

  lemma CharacterPrinted(x: Piece)
    requires |x.text| == 1 && x.at == 0 && x.zeros == 0 && x.width < TWO32 && !x.zeroPad
    ensures Emitted(x) == Justified(x.text, x.width, x.left) <==> Countable(1, 0, x.width)
    ensures x.width == 0 ==> Emitted(x) == x.text
  {
    PlainPrinted(x);
  }

  lemma PassOnPercent(fmt: string, p: nat, args: seq<Arg>, k: nat, a: Parse, meaning: string, k': nat)
    requires p < |fmt| && fmt[p] == '%' && ParseSpec(fmt, p, args, k) == a
    requires a.p < |fmt| && Emitted(Convert(fmt, a, args).0) == meaning && Convert(fmt, a, args).1 == k'
    ensures Pass(fmt, p, args, k) == Segment(meaning, a.p + 1, k')
  {
  }

  lemma DirectiveEnds(fmt: string, p: nat, d: Directive)
    requires StandsAt(fmt, p, DirectiveText(d))
    ensures p + |DirectiveText(d)| <= |fmt| && fmt[p] == '%' && fmt[p + |DirectiveText(d)| - 1] == d.conv
  {
    var n := |DirectiveText(d)|;
    assert DirectiveText(d)[0] == '%' && DirectiveText(d)[n - 1] == d.conv;
    StandsChar(fmt, p, DirectiveText(d), 0);
    StandsChar(fmt, p, DirectiveText(d), n - 1);
  }

  /** A conversion that is none of the known ones is the character itself. */
  lemma UnknownStays(conv: char)
    ensures !TakesArgument(ConvOf(conv)) ==> ConvOf(conv) == conv
    ensures conv != 'p' ==> ConvOf(conv) != 'p'
  {
  }

  lemma ReadFieldPrints(fmt: string, p: nat, args: seq<Arg>, k: nat, a: Parse)
    requires ParseSpec(fmt, p, args, k) == a && Readable(fmt, p, a)
    ensures var s := Pass(fmt, p, args, k);
            && (s.text == FieldMeaning(a.spec, args, a.k) <==> FieldSound(a.spec, args, a.k))
            && s.p == a.p + 1 && s.k == a.k + if TakesArgument(a.spec.conv) then 1 else 0
  {
    FieldConverts(fmt, a, args);
    PassOnPercent(fmt, p, args, k, a, Emitted(Convert(fmt, a, args).0), Convert(fmt, a, args).1);
  }

  /** What is read of a specification at p can be printed. */
  ghost predicate Readable(fmt: string, p: nat, a: Parse) {
    && p < |fmt| && fmt[p] == '%' && a.p < |fmt|
    && Fits(a.spec) && a.spec.conv != 'p' && (!TakesArgument(a.spec.conv) ==> fmt[a.p] == a.spec.conv)
  }

  lemma FieldRead(fmt: string, p: nat, d: Directive, args: seq<Arg>, k: nat, a: Parse)
    requires Writable(d) && d.conv != 'p' && StandsAt(fmt, p, DirectiveText(d))
    requires a == Parse(SpecOf(d, args, k), p + |DirectiveText(d)| - 1, k + StarsOf(d))
    ensures Readable(fmt, p, a) && TakesArgument(a.spec.conv) == TakesArgument(ConvOf(d.conv))
  {
    DirectiveEnds(fmt, p, d);
    SpecFits(d, args, k);
    UnknownStays(d.conv);
  }

  /** Up to the next percent sign it does not matter from where one looks for it. */
  lemma {:induction false} NextPercentFrom(fmt: string, p: nat, q: nat)
    requires p <= q <= |fmt| && '%' !in fmt[p..q]
    ensures NextPercent(fmt, p) == NextPercent(fmt, q)
    decreases q - p
  {
    if p < q {
      assert fmt[p..q][0] == fmt[p] && fmt[p + 1..q] == fmt[p..q][1..];
      NextPercentFrom(fmt, p + 1, q);
    }
  }

  /** Words print as they are. */
  lemma WordsPrinted(fmt: string, p: nat, text: string, args: seq<Arg>, k: nat)
    requires StandsAt(fmt, p, text) && '%' !in text
    ensures Output(fmt, p, args, k) == text + Output(fmt, p + |text|, args, k)
  {
    var q := p + |text|;
    StandsWhole(fmt, p, text);
    NextPercentFrom(fmt, p, q);
    var e := NextPercent(fmt, q);
    OutputToPercent(fmt, p, e, args, k);
    OutputToPercent(fmt, q, e, args, k);
    CutBetween(fmt, p, q, e);
    Regroup(text, fmt[q..e], Output(fmt, e, args, k));
  }

  lemma CutBetween<T>(s: seq<T>, p: nat, q: nat, e: nat)
    requires p <= q <= e <= |s|
    ensures s[p..e] == s[p..q] + s[q..e]
  {
  }

  /** Up to the next percent sign the format prints as it is. */
  lemma OutputToPercent(fmt: string, p: nat, e: nat, args: seq<Arg>, k: nat)
    requires p <= e <= |fmt| && e == NextPercent(fmt, p)
    ensures Output(fmt, p, args, k) == fmt[p..e] + Output(fmt, e, args, k)
  {
    if p == e {
      assert fmt[p..e] == [];
    } else {
      NextPercentFrom(fmt, p, p + 1);
    }
  }

  lemma PassAlone(fmt: string, args: seq<Arg>, k: nat)
    requires fmt != [] && Pass(fmt, 0, args, k).p == |fmt|
    ensures Output(fmt, 0, args, k) == Pass(fmt, 0, args, k).text
  {
  }

  // What follows speaks of the output, its passes, the parser and the meanings as plain functions of a
  // place in the format and in the arguments.

  ghost predicate ReadGoes(fmt: string, pass: (nat, nat) -> Segment, parse: (nat, nat) -> Parse, r: Reading,
                           p: nat, k: nat) {
    var s, a := pass(p, k), parse(p, k);
    Readable(fmt, p, a) ==>
      && (s.text == r.meaning(a.spec, a.k) <==> r.sound(a.spec, a.k))
      && s.p == a.p + 1 && s.k == a.k + if TakesArgument(a.spec.conv) then 1 else 0
  }

  lemma AllReadsGo(fmt: string, args: seq<Arg>, pass: (nat, nat) -> Segment, parse: (nat, nat) -> Parse)
    requires forall p: nat, k: nat | p < |fmt| :: pass(p, k) == Pass(fmt, p, args, k)
    requires forall p: nat, k: nat :: parse(p, k) == ParseSpec(fmt, p, args, k)
    ensures forall p, k :: ReadGoes(fmt, pass, parse, With(args), p, k)
  {
    forall p, k ensures ReadGoes(fmt, pass, parse, With(args), p, k) {
      if Readable(fmt, p, parse(p, k)) { ReadFieldPrints(fmt, p, args, k, parse(p, k)); }
    }
  }

  ghost predicate BackGoes(fmt: string, parse: (nat, nat) -> Parse, r: Reading, d: Directive, p: nat, k: nat) {
    Writable(d) && d.conv != 'p' && StandsAt(fmt, p, DirectiveText(d)) ==>
      && parse(p, k) == Parse(r.spec(d, k), p + |DirectiveText(d)| - 1, k + StarsOf(d))
      && Readable(fmt, p, parse(p, k)) && TakesArgument(r.spec(d, k).conv) == TakesArgument(ConvOf(d.conv))
  }

  lemma AllBackGo(fmt: string, args: seq<Arg>, parse: (nat, nat) -> Parse)
    requires forall p: nat, k: nat :: parse(p, k) == ParseSpec(fmt, p, args, k)
    ensures forall d, p, k :: BackGoes(fmt, parse, With(args), d, p, k)
  {
    forall d, p, k ensures BackGoes(fmt, parse, With(args), d, p, k) {
      if Writable(d) && d.conv != 'p' && StandsAt(fmt, p, DirectiveText(d)) {
        SpecReadBack(fmt, p, d, args, k);
        FieldRead(fmt, p, d, args, k, parse(p, k));
      }
    }
  }

  /** Wherever it stands, a specification prints what it means exactly if it is sound. */
  ghost predicate FieldGoes(fmt: string, pass: (nat, nat) -> Segment, r: Reading, d: Directive, p: nat, k: nat) {
    Writable(d) && d.conv != 'p' && StandsAt(fmt, p, DirectiveText(d)) ==>
      var s, i := pass(p, k), Field(d);
      && p < |fmt| && (s.text == ItemMeaning(i, r, k) <==> ItemSound(i, r, k))
      && s.p == p + |DirectiveText(d)| && s.k == k + Taken(i)
  }

  lemma FieldPrinted(fmt: string, pass: (nat, nat) -> Segment, parse: (nat, nat) -> Parse, r: Reading, d: Directive,
                     p: nat, k: nat)
    requires ReadGoes(fmt, pass, parse, r, p, k) && BackGoes(fmt, parse, r, d, p, k)
    ensures FieldGoes(fmt, pass, r, d, p, k)
  {
  }

  lemma AllFieldsGo(fmt: string, args: seq<Arg>, pass: (nat, nat) -> Segment)
    requires forall p: nat, k: nat | p < |fmt| :: pass(p, k) == Pass(fmt, p, args, k)
    ensures forall d, p, k :: FieldGoes(fmt, pass, With(args), d, p, k)
  {
    var parse := (p: nat, k: nat) => ParseSpec(fmt, p, args, k);
    var r := With(args);
    AllReadsGo(fmt, args, pass, parse);
    AllBackGo(fmt, args, parse);
    AllFromParts(fmt, pass, parse, r);
  }

  lemma AllFromParts(fmt: string, pass: (nat, nat) -> Segment, parse: (nat, nat) -> Parse, r: Reading)
    requires forall p, k :: ReadGoes(fmt, pass, parse, r, p, k)
    requires forall d, p, k :: BackGoes(fmt, parse, r, d, p, k)
    ensures forall d, p, k :: FieldGoes(fmt, pass, r, d, p, k)
  {
    forall d, p, k ensures FieldGoes(fmt, pass, r, d, p, k) {
      assert ReadGoes(fmt, pass, parse, r, p, k) && BackGoes(fmt, parse, r, d, p, k);
      FieldPrinted(fmt, pass, parse, r, d, p, k);
    }
  }

  /** The output is the text of one pass and then the output from where the pass stops. */
  ghost predicate PassByPass(out: (nat, nat) -> string, pass: (nat, nat) -> Segment, len: nat) {
    forall p: nat, k: nat {:trigger pass(p, k)} | p < len ::
      out(p, k) == pass(p, k).text + out(pass(p, k).p, pass(p, k).k)
  }

  lemma OutputByPass(fmt: string, args: seq<Arg>, out: (nat, nat) -> string, pass: (nat, nat) -> Segment)
    requires forall p: nat, k: nat :: out(p, k) == Output(fmt, p, args, k)
    requires forall p: nat, k: nat | p < |fmt| :: pass(p, k) == Pass(fmt, p, args, k)
    ensures PassByPass(out, pass, |fmt|)
  {
  }

  /** A text that stands at a place of the format, and takes so many arguments, prints its meaning there. */
  ghost predicate Prints(out: (nat, nat) -> string, text: string, taken: nat, meaning: string, p: nat, k: nat) {
    out(p, k) == meaning + out(p + |text|, k + taken)
  }

  ghost predicate WordsGo(fmt: string, out: (nat, nat) -> string, text: string, p: nat, k: nat) {
    '%' !in text && StandsAt(fmt, p, text) ==> Prints(out, text, 0, text, p, k)
  }

  lemma AllWordsGo(fmt: string, args: seq<Arg>, out: (nat, nat) -> string)
    requires forall p: nat, k: nat :: out(p, k) == Output(fmt, p, args, k)
    ensures forall text, p, k :: WordsGo(fmt, out, text, p, k)
  {
    forall text, p, k ensures WordsGo(fmt, out, text, p, k) {
      if '%' !in text && StandsAt(fmt, p, text) { WordsPrinted(fmt, p, text, args, k); }
    }
  }

  ghost predicate ItemGoes(fmt: string, out: (nat, nat) -> string, text: Item -> string, r: Reading, i: Item,
                           p: nat, k: nat) {
    ItemSound(i, r, k) && StandsAt(fmt, p, text(i)) ==> Prints(out, text(i), Taken(i), ItemMeaning(i, r, k), p, k)
  }

  lemma ItemPrints(fmt: string, out: (nat, nat) -> string, pass: (nat, nat) -> Segment, r: Reading, i: Item,
                   p: nat, k: nat)
    requires forall text, p, k :: WordsGo(fmt, out, text, p, k)
    requires forall d, p, k :: FieldGoes(fmt, pass, r, d, p, k)
    requires PassByPass(out, pass, |fmt|)
    ensures ItemGoes(fmt, out, TextOf(), r, i, p, k)
  {
    match i
    case Words(text) => assert WordsGo(fmt, out, text, p, k);
    case Field(d) => assert FieldGoes(fmt, pass, r, d, p, k);
  }

  /** Items that are printed where they stand make up a format that prints them in order. */
  lemma {:induction false} Stitched(items: seq<Item>, fmt: string,
                                    out: (nat, nat) -> string, text: Item -> string, r: Reading, p: nat, k: nat)
    requires forall i, p, k :: ItemGoes(fmt, out, text, r, i, p, k)
    requires forall k :: out(|fmt|, k) == []
    requires AllSound(items, r, k) && StandsAt(fmt, p, AllTexts(items, text))
    requires p + |AllTexts(items, text)| == |fmt|
    ensures out(p, k) == AllMeanings(items, r, k)
    decreases |items|
  {
    if items != [] {
      var t := text(items[0]);
      StandsSplit(fmt, p, t, AllTexts(items[1..], text));
      assert ItemGoes(fmt, out, text, r, items[0], p, k);
      Stitched(items[1..], fmt, out, text, r, p + |t|, k + Taken(items[0]));
    }
  }

  lemma AllGo(fmt: string, args: seq<Arg>, out: (nat, nat) -> string)
    requires forall p: nat, k: nat :: out(p, k) == Output(fmt, p, args, k)
    ensures forall i, p, k :: ItemGoes(fmt, out, TextOf(), With(args), i, p, k)
  {
    var pass := (p: nat, k: nat) => if p < |fmt| then Pass(fmt, p, args, k) else Segment([], p, k);
    OutputByPass(fmt, args, out, pass);
    AllWordsGo(fmt, args, out);
    AllFieldsGo(fmt, args, pass);
    var r := With(args);
    forall i, p, k ensures ItemGoes(fmt, out, TextOf(), r, i, p, k) {
      ItemPrints(fmt, out, pass, r, i, p, k);
    }
  }

  /** A format of words and specifications prints its words and what its specifications mean, in order. */
  lemma {:induction false} FormatPrinted(items: seq<Item>, args: seq<Arg>)
    requires AllSound(items, With(args), 0)
    ensures Output(FormatText(items), 0, args, 0) == AllMeanings(items, With(args), 0)
  {
    var fmt := FormatText(items);
    var out := (p: nat, k: nat) => Output(fmt, p, args, k);
    AllGo(fmt, args, out);
    Stitched(items, fmt, out, TextOf(), With(args), 0, 0);
  }

  /** A format of one specification prints what it means exactly if it is sound. */
  lemma {:induction false} FieldAlone(d: Directive, args: seq<Arg>, k: nat)
    requires Writable(d) && d.conv != 'p'
    ensures var r := With(args);
            Output(DirectiveText(d), 0, args, k) == ItemMeaning(Field(d), r, k) <==> ItemSound(Field(d), r, k)
  {
    var fmt := DirectiveText(d);
    var pass := (p: nat, k: nat) => if p < |fmt| then Pass(fmt, p, args, k) else Segment([], p, k);
    AllFieldsGo(fmt, args, pass);
    assert FieldGoes(fmt, pass, With(args), d, 0, k);
    PassAlone(fmt, args, k);
  }

  // ---- A width that cannot be counted ----

  const WIDE := Directive("", Given("2147483648"), None, "", 's')

  lemma OneMore(t: string, c: char, s: string, v: nat)
    requires s == t + [c] && IsDigit(c) && Value(t, 10) == v
    ensures Value(s, 10) == 10 * v + (c - '0') as nat
  {
    ValueOfOne(t, c);
  }

  lemma ValueOfWide()
    ensures Value("2147483648", 10) == 0x8000_0000
  {
    OneMore("", '2', "2", 0);
    OneMore("2", '1', "21", 2);
    OneMore("21", '4', "214", 21);
    OneMore("214", '7', "2147", 214);
    OneMore("2147", '4', "21474", 2147);
    OneMore("21474", '8', "214748", 21474);
    OneMore("214748", '3', "2147483", 214748);
    OneMore("2147483", '6', "21474836", 2147483);
    OneMore("21474836", '4', "214748364", 21474836);
    OneMore("214748364", '8', "2147483648", 214748364);
  }

  lemma WideSpec(args: seq<Arg>)
    ensures SpecOf(WIDE, args, 0) == PLAIN.(width := 0x8000_0000, conv := 's')
  {
    ValueOfWide();
  }

  lemma WidePasses(fmt: string, args: seq<Arg>, sp: Spec)
    requires StandsAt(fmt, 0, DirectiveText(WIDE)) && sp == SpecOf(WIDE, args, 0)
    ensures fmt != [] && Pass(fmt, 0, args, 0).p == |DirectiveText(WIDE)|
    ensures Pass(fmt, 0, args, 0).text == Emitted(Convert(fmt, Parse(sp, |DirectiveText(WIDE)| - 1, 0), args).0)
  {
    DirectiveEnds(fmt, 0, WIDE);
    SpecReadBack(fmt, 0, WIDE, args, 0);
    var a := Parse(sp, |DirectiveText(WIDE)| - 1, 0);
    PassOnPercent(fmt, 0, args, 0, a, Emitted(Convert(fmt, a, args).0), Convert(fmt, a, args).1);
  }

  lemma WideConverted(fmt: string, a: Parse, args: seq<Arg>)
    requires a.spec == PLAIN.(width := 0x8000_0000, conv := 's') && a.k == 0 && args == [Text(Some(""))]
    ensures Emitted(Convert(fmt, a, args).0) == ""
    ensures |FieldMeaning(a.spec, args, 0)| == 0x8000_0000
  {
    var x := Convert(fmt, a, args).0;
    assert x.text == [] && x.at == 0 == x.zeros && x.width == 0x8000_0000 && !x.left && !x.zeroPad;
    WideWritten(x);
  }

  lemma WideWritten(x: Piece)
    requires x.text == [] && x.at == 0 == x.zeros && x.width == 0x8000_0000 && !x.left && !x.zeroPad
    ensures Emitted(x) == ""
  {
  }

  lemma WideOutput(fmt: string, args: seq<Arg>)
    requires fmt == DirectiveText(WIDE) && args == [Text(Some(""))]
    ensures Output(fmt, 0, args, 0) == "" && |ItemMeaning(Field(WIDE), With(args), 0)| == 0x8000_0000
  {
    var sp := SpecOf(WIDE, args, 0);
    WideSpec(args);
    WidePasses(fmt, args, sp);
    WideConverted(fmt, Parse(sp, |DirectiveText(WIDE)| - 1, 0), args);
    PassAlone(fmt, args, 0);
  }

  /** A field of 2^31 blanks is printed as nothing at all. */
  lemma {:induction false} WidthExample()
    ensures Output("%2147483648s", 0, [Text(Some(""))], 0) == ""
    ensures |ItemMeaning(Field(WIDE), With([Text(Some(""))]), 0)| == 0x8000_0000
  {
    assert DirectiveText(WIDE) == "%2147483648s";
    WideOutput(DirectiveText(WIDE), [Text(Some(""))]);
  }
}
