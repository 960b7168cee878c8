/**
 The text forms of addresses: dotted quads, and IPv6 addresses as in section 2.2 of RFC 1884 with
 one run of zero words written `::` and IPv4 addresses embedded in the last two words.
 */
module Inet {
  import opened Options
  import opened Basics
  import Glob

  type Word = x: int | 0 <= x < 65536

  // ---- Digits ----

  /** sprintf("%x") */
  function Hex(w: nat): (r: string)
    ensures |r| > 0
  {
    Digits(w, 16, LOWER)
  }

  /** sprintf("%d") of a number that is not negative */
  function Dec(n: nat): (r: string)
    ensures |r| > 0
  {
    Digits(n, 10, LOWER)
  }

  /** strchr(xdigits, c): the value of a hexadecimal digit. */
  function HexDigit(c: char): Option<nat> {
    if '0' <= c <= '9' then Some((c - '0') as nat)
    else if 'a' <= c <= 'f' then Some((c - 'a') as nat + 10)
    else None
  }

  lemma DigitValue(d: nat)
    requires d < 16
    ensures HexDigit(LOWER[d]) == Some(d) && Glob.Lower(LOWER[d]) == LOWER[d]
    ensures d < 10 ==> '0' <= LOWER[d] <= '9' && (LOWER[d] - '0') as nat == d
  {
  }

  // ---- Dotted quads ----

  function Quad(a: Byte, b: Byte, c: Byte, d: Byte): string {
    Dec(a) + "." + Dec(b) + "." + Dec(c) + "." + Dec(d)
  }

  /** inet_pton4 from a place on: the octets so far (the last one growing), and whether it has a digit. */
  function Pton4Loop(s: string, octets: seq<Byte>, cur: Byte, sawDigit: bool): Option<seq<Byte>>
    decreases |s|
  {
    if s == [] then
      if |octets| + (if sawDigit then 1 else 0) < 4 then None else Some((octets + [cur])[..4])
    else if '0' <= s[0] <= '9' then
      var v := cur * 10 + (s[0] - '0') as int;
      if v > 255 || (!sawDigit && |octets| + 1 > 4) then None
      else Pton4Loop(s[1..], octets, v, true)
    else if s[0] == '.' && sawDigit then
      if |octets| + 1 == 4 then None else Pton4Loop(s[1..], octets + [cur], 0, false)
    else None
  }

  function Pton4(s: string): Option<seq<Byte>> {
    Pton4Loop(s, [], 0, false)
  }

  /** Reading a printed octet leaves it as the current one. */
  lemma {:induction false} ReadsDec(n: nat, rest: string, octets: seq<Byte>)
    requires n < 256 && |octets| < 4
    ensures Pton4Loop(Dec(n) + rest, octets, 0, false) == Pton4Loop(rest, octets, n, true)
  {
    if n < 10 {
      DigitValue(n);
      assert (Dec(n) + rest)[1..] == rest;
    } else {
      var d := LOWER[n % 10];
      DigitValue(n % 10);
      assert Dec(n) + rest == Dec(n / 10) + ([d] + rest);
      ReadsDec(n / 10, [d] + rest, octets);
      assert ([d] + rest)[1..] == rest;
    }
  }

  lemma ReadsDot(rest: string, octets: seq<Byte>, n: Byte)
    requires |octets| < 3
    ensures Pton4Loop("." + rest, octets, n, true) == Pton4Loop(rest, octets + [n], 0, false)
  {
    assert ("." + rest)[1..] == rest;
  }

  /** A printed quad reads back. */
  lemma {:induction false} QuadRoundTrip(a: Byte, b: Byte, c: Byte, d: Byte)
    ensures Pton4(Quad(a, b, c, d)) == Some([a, b, c, d])
  {
    var s3 := Dec(d) + [];
    var s2 := Dec(c) + ("." + s3);
    var s1 := Dec(b) + ("." + s2);
    assert Quad(a, b, c, d) == Dec(a) + ("." + s1);
    ReadsDec(a, "." + s1, []);
    ReadsDot(s1, [], a);
    ReadsDec(b, "." + s2, [a]);
    ReadsDot(s2, [a], b);
    ReadsDec(c, "." + s3, [a, b]);
    ReadsDot(s3, [a, b], c);
    ReadsDec(d, [], [a, b, c]);
    assert [] + [a] == [a] && [a] + [b] == [a, b] && [a, b] + [c] == [a, b, c];
    assert ([a, b, c] + [d])[..4] == [a, b, c, d];
  }

  // ---- Reading an IPv6 address ----

  function HiLo(w: Word): seq<Byte> {
    [w / 256, w % 256]
  }

  /** The words of an address as bytes. */
  function Bytes(words: seq<Word>): (r: seq<Byte>)
    ensures |r| == 2 * |words|
  {
    if words == [] then [] else HiLo(words[0]) + Bytes(words[1..])
  }

  function Zeros(n: nat): (r: seq<Byte>)
    ensures |r| == n
  {
    if n == 0 then [] else [0] + Zeros(n - 1)
  }

  /** The end of inet_pton6: a last word, then the zeros the double colon stands for. */
  function Pton6End(bytes: seq<Byte>, colon: Option<nat>, sawDigit: bool, val: Word): Option<seq<Byte>>
    requires colon.Some? ==> colon.value <= |bytes|
  {
    if sawDigit && |bytes| + 2 > 16 then None
    else
      var all := if sawDigit then bytes + HiLo(val) else bytes;
      if colon.Some? then
        if |all| >= 16 then None
        else Some(all[..colon.value] + Zeros(16 - |all|) + all[colon.value..])
      else if |all| != 16 then None
      else Some(all)
  }

  /**
   The loop of inet_pton6: s is what is left to read, token the text since the last colon, bytes what
   was written so far, colon where a double colon was seen. Characters that mean nothing are skipped.
   */
  function Pton6Loop(s: string, token: string, bytes: seq<Byte>, colon: Option<nat>, sawDigit: bool, val: Word)
    : Option<seq<Byte>>
    requires colon.Some? ==> colon.value <= |bytes|
    decreases |s|
  {
    if s == [] then Pton6End(bytes, colon, sawDigit, val)
    else
      var ch, rest := Glob.Lower(s[0]), s[1..];
      if HexDigit(ch).Some? then
        var v := val * 16 + HexDigit(ch).value;
        if v > 0xffff then None else Pton6Loop(rest, token, bytes, colon, true, v)
      else if ch == ':' then
        if !sawDigit then
          if colon.Some? then None else Pton6Loop(rest, rest, bytes, Some(|bytes|), false, val)
        else if rest == [] || |bytes| + 2 > 16 then None
        else Pton6Loop(rest, rest, bytes + HiLo(val), colon, false, 0)
      else if rest != [] && ch == '.' then
        if |bytes| + 4 > 16 || Pton4(token).None? then None
        else Pton6End(bytes + Pton4(token).value, colon, false, val)
      else Pton6Loop(rest, token, bytes, colon, sawDigit, val)
  }

  /** inet_pton6: a leading colon must be the first of two. */
  function Pton6(s: string): Option<seq<Byte>> {
    if s != [] && s[0] == ':' then
      if |s| < 2 || s[1] != ':' then None else Pton6Loop(s[1..], s[1..], [], None, false, 0)
    else Pton6Loop(s, s, [], None, false, 0)
  }

  /** Reading a printed word leaves it as the current value. */
  lemma {:induction false} ReadsHex(w: nat, rest: string, token: string, bytes: seq<Byte>, colon: Option<nat>)
    requires w < 65536 && (colon.Some? ==> colon.value <= |bytes|)
    ensures Pton6Loop(Hex(w) + rest, token, bytes, colon, false, 0) == Pton6Loop(rest, token, bytes, colon, true, w)
  {
    if w < 16 {
      DigitValue(w);
      assert (Hex(w) + rest)[1..] == rest;
    } else {
      var d := LOWER[w % 16];
      DigitValue(w % 16);
      assert Hex(w) + rest == Hex(w / 16) + ([d] + rest);
      ReadsHex(w / 16, [d] + rest, token, bytes, colon);
      assert ([d] + rest)[1..] == rest;
    }
  }

  /** Words with colons between them. */
  function Join(words: seq<Word>): string {
    if words == [] then []
    else if |words| == 1 then Hex(words[0])
    else Hex(words[0]) + ":" + Join(words[1..])
  }

  /** Reading printed words, with a colon and more text behind them, writes their bytes. */
  lemma ReadsWords(words: seq<Word>, rest: string, token: string, bytes: seq<Byte>, colon: Option<nat>)
    requires words != [] && rest != [] && |bytes| + 2 * |words| <= 16
    requires colon.Some? ==> colon.value <= |bytes|
    ensures Pton6Loop(Join(words) + ":" + rest, token, bytes, colon, false, 0)
            == Pton6Loop(rest, rest, bytes + Bytes(words), colon, false, 0)
  {
    var read := (s: string, t: string, b: seq<Byte>) =>
      if |b| <= 16 && (colon.Some? ==> colon.value <= |b|) then Pton6Loop(s, t, b, colon, false, 0) else None;
    var from := if colon.Some? then colon.value else 0;
    forall w, rest, token, bytes ensures ReadsOne(read, from, w, rest, token, bytes) {
      if rest != [] && from <= |bytes| <= 14 { ReadsWord(w, rest, token, bytes, colon); }
    }
    ReadsJoined(words, rest, token, bytes, read, from);
  }

  ghost predicate ReadsOne(read: (string, string, seq<Byte>) -> Option<seq<Byte>>, from: nat, w: Word, rest: string,
                           token: string, bytes: seq<Byte>) {
    rest != [] && from <= |bytes| <= 14 ==>
      read(Hex(w) + (":" + rest), token, bytes) == read(rest, rest, bytes + HiLo(w))
  }

  lemma WordApart(word: string, more: string, rest: string)
    ensures word + ":" + more + ":" + rest == word + (":" + (more + ":" + rest))
  {
  }

  lemma {:induction false} ReadsJoined(words: seq<Word>, rest: string, token: string, bytes: seq<Byte>,
                                       read: (string, string, seq<Byte>) -> Option<seq<Byte>>, from: nat)
    requires words != [] && rest != [] && from <= |bytes| && |bytes| + 2 * |words| <= 16
    requires forall w, rest, token, bytes :: ReadsOne(read, from, w, rest, token, bytes)
    ensures read(Join(words) + ":" + rest, token, bytes) == read(rest, rest, bytes + Bytes(words))
    decreases words
  {
    var w := words[0];
    if |words| == 1 {
      assert ReadsOne(read, from, w, rest, token, bytes);
      assert Bytes(words) == HiLo(w) + Bytes(words[1..]) == HiLo(w);
      Regroup(Hex(w), ":", rest);
    } else {
      var more := Join(words[1..]) + ":" + rest;
      WordApart(Hex(w), Join(words[1..]), rest);
      assert ReadsOne(read, from, w, more, token, bytes);
      ReadsJoined(words[1..], rest, more, bytes + HiLo(w), read, from);
      Regroup(bytes, HiLo(w), Bytes(words[1..]));
    }
  }

  lemma ReadsWord(w: Word, rest: string, token: string, bytes: seq<Byte>, colon: Option<nat>)
    requires rest != [] && |bytes| + 2 <= 16 && (colon.Some? ==> colon.value <= |bytes|)
    ensures Pton6Loop(Hex(w) + (":" + rest), token, bytes, colon, false, 0)
            == Pton6Loop(rest, rest, bytes + HiLo(w), colon, false, 0)
  {
    ReadsHex(w, ":" + rest, token, bytes, colon);
    assert (":" + rest)[1..] == rest;
  }

  /** Reading printed words to the end of the text. */
  lemma ReadsLastWords(words: seq<Word>, token: string, bytes: seq<Byte>, colon: Option<nat>)
    requires |bytes| + 2 * |words| <= 16 && (colon.Some? ==> colon.value <= |bytes|)
    ensures Pton6Loop(Join(words), token, bytes, colon, false, 0) == Pton6End(bytes + Bytes(words), colon, false, 0)
  {
    if words == [] {
      assert bytes + Bytes(words) == bytes;
    } else {
      var n := |words| - 1;
      var last := words[n];
      BytesConcat(words[..n], [last]);
      assert words == words[..n] + [last];
      assert Bytes([last]) == HiLo(last);
      if n == 0 {
        assert Join(words) == Hex(last) + [];
        ReadsHex(last, [], token, bytes, colon);
      } else {
        JoinConcat(words[..n], [last]);
        ReadsWords(words[..n], Hex(last), token, bytes, colon);
        assert Hex(last) == Hex(last) + [];
        ReadsHex(last, [], Hex(last), bytes + Bytes(words[..n]), colon);
        assert bytes + Bytes(words[..n]) + HiLo(last) == bytes + Bytes(words);
      }
    }
  }

  lemma {:induction false} BytesConcat(a: seq<Word>, b: seq<Word>)
    ensures Bytes(a + b) == Bytes(a) + Bytes(b)
  {
    if a == [] {
      assert a + b == b;
    } else {
      assert (a + b)[1..] == a[1..] + b;
      BytesConcat(a[1..], b);
    }
  }

  lemma {:induction false} JoinConcat(a: seq<Word>, b: seq<Word>)
    requires a != [] && b != []
    ensures Join(a + b) == Join(a) + ":" + Join(b)
  {
    if |a| == 1 {
      assert (a + b)[1..] == b;
    } else {
      assert (a + b)[1..] == a[1..] + b;
      JoinConcat(a[1..], b);
    }
  }

  /** Reading a printed quad where a word could stand. */
  lemma ReadsQuad(a: Byte, b: Byte, c: Byte, d: Byte, bytes: seq<Byte>, colon: Option<nat>)
    requires |bytes| + 4 <= 16 && (colon.Some? ==> colon.value <= |bytes|)
    ensures var q := Quad(a, b, c, d);
            Pton6Loop(q, q, bytes, colon, false, 0) == Pton6End(bytes + [a, b, c, d], colon, false, 0)
  {
    var q := Quad(a, b, c, d);
    var more := Dec(b) + "." + Dec(c) + "." + Dec(d);
    var rest := "." + more;
    QuadStarts(Dec(a), Dec(b), Dec(c), Dec(d));
    QuadRoundTrip(a, b, c, d);
    var v := ReadsDecAsHex(a, rest, q, bytes, colon);
    assert rest[1..] == more;
    EndIgnoresValue(bytes + [a, b, c, d], colon, v, 0);
  }

  lemma QuadStarts(a: string, b: string, c: string, d: string)
    ensures a + "." + b + "." + c + "." + d == a + ("." + (b + "." + c + "." + d))
  {
  }

  lemma EndIgnoresValue(bytes: seq<Byte>, colon: Option<nat>, v: Word, v': Word)
    requires colon.Some? ==> colon.value <= |bytes|
    ensures Pton6End(bytes, colon, false, v) == Pton6End(bytes, colon, false, v')
  {
  }

  /** The digits before the first dot are first taken for a word, of at most three digits. */
  lemma {:induction false} ReadsDecAsHex(n: nat, rest: string, token: string, bytes: seq<Byte>, colon: Option<nat>)
    returns (v: Word)
    requires n < 1000 && (colon.Some? ==> colon.value <= |bytes|)
    ensures Pton6Loop(Dec(n) + rest, token, bytes, colon, false, 0) == Pton6Loop(rest, token, bytes, colon, true, v)
    ensures v < 16 || (n >= 10 && v < 256) || (n >= 100 && v < 4096)
  {
    if n < 10 {
      DigitValue(n);
      assert (Dec(n) + rest)[1..] == rest;
      v := n;
    } else {
      var d := LOWER[n % 10];
      DigitValue(n % 10);
      assert Dec(n) + rest == Dec(n / 10) + ([d] + rest);
      var u := ReadsDecAsHex(n / 10, [d] + rest, token, bytes, colon);
      assert ([d] + rest)[1..] == rest;
      v := u * 16 + n % 10;
    }
  }

  // ---- The run of zeros to leave out ----

  /** A run: where it starts (-1 for none) and how many words it has. */
  datatype Run = Run(base: int, len: int)

  const NO_RUN := Run(-1, 0)

  function Better(cur: Run, best: Run): Run {
    if cur.base != -1 && (best.base == -1 || cur.len > best.len) then cur else best
  }

  /** The loop over the words from i on, then the last run, and runs of one word do not count. */
  function BestFrom(words: seq<Word>, i: nat, best: Run, cur: Run): Run
    requires i <= |words|
    decreases |words| - i
  {
    if i == |words| then
      var r := Better(cur, best);
      if r.base != -1 && r.len < 2 then NO_RUN else r
    else if words[i] == 0 then
      BestFrom(words, i + 1, best, if cur.base == -1 then Run(i, 1) else Run(cur.base, cur.len + 1))
    else BestFrom(words, i + 1, Better(cur, best), NO_RUN)
  }

  function Best(words: seq<Word>): Run {
    BestFrom(words, 0, NO_RUN, NO_RUN)
  }

  ghost predicate ZeroRun(words: seq<Word>, base: int, len: int) {
    0 <= base && 1 <= len && base + len <= |words| && forall k | base <= k < base + len :: words[k] == 0
  }

  /** best is longer than any run at b of length l, or as long and no further right. */
  ghost predicate AtLeast(best: Run, b: int, l: int) {
    best.base != -1 && (l < best.len || (l == best.len && best.base <= b))
  }

  /** The leftmost of the longest runs of at least two zero words; none if there is no such run. */
  ghost predicate LeftmostLongest(words: seq<Word>, r: Run) {
    if r.base == -1 then forall b, l | ZeroRun(words, b, l) :: l < 2
    else r.len >= 2 && ZeroRun(words, r.base, r.len) && forall b, l | ZeroRun(words, b, l) :: AtLeast(r, b, l)
  }

  /** Among the first i words: cur is the run that reaches i, best the best of the runs before it. */
  ghost predicate RunsKnown(words: seq<Word>, i: nat, best: Run, cur: Run)
    requires i <= |words|
  {
    && (best.base != -1 ==> ZeroRun(words, best.base, best.len) && best.base + best.len <= i)
    && (cur.base == -1 ==> i == 0 || words[i - 1] != 0)
    && (cur.base != -1 ==>
          && ZeroRun(words, cur.base, cur.len) && cur.base + cur.len == i
          && (cur.base == 0 || words[cur.base - 1] != 0)
          && (best.base != -1 ==> best.base + best.len <= cur.base))
    && forall b, l | ZeroRun(words, b, l) && b + l <= i :: (cur.base != -1 && b >= cur.base) || AtLeast(best, b, l)
  }

  lemma {:induction false} BestFromRight(words: seq<Word>, i: nat, best: Run, cur: Run)
    requires i <= |words| && RunsKnown(words, i, best, cur)
    ensures LeftmostLongest(words, BestFrom(words, i, best, cur))
    decreases |words| - i
  {
    if i < |words| {
      if words[i] == 0 {
        var cur' := if cur.base == -1 then Run(i, 1) else Run(cur.base, cur.len + 1);
        RunGrows(words, i, best, cur, cur');
        BestFromRight(words, i + 1, best, cur');
      } else {
        RunEnds(words, i, best, cur);
        BestFromRight(words, i + 1, Better(cur, best), NO_RUN);
      }
    } else {
      BetterCovers(words, i, best, cur);
    }
  }

  lemma ZeroIn(words: seq<Word>, b: int, l: int, k: int)
    requires ZeroRun(words, b, l) && b <= k < b + l
    ensures words[k] == 0
  {
  }

  lemma RunGrows(words: seq<Word>, i: nat, best: Run, cur: Run, cur': Run)
    requires i < |words| && RunsKnown(words, i, best, cur) && words[i] == 0
    requires cur' == if cur.base == -1 then Run(i, 1) else Run(cur.base, cur.len + 1)
    ensures RunsKnown(words, i + 1, best, cur')
  {
    forall b, l | ZeroRun(words, b, l) && b + l <= i + 1 ensures b >= cur'.base || AtLeast(best, b, l) {
      if b + l == i + 1 && b < cur'.base {
        ZeroIn(words, b, l, cur'.base - 1);
      }
    }
  }

  /** The better of the run that ends and the best before it covers both. */
  lemma BetterCovers(words: seq<Word>, i: nat, best: Run, cur: Run)
    requires i <= |words| && RunsKnown(words, i, best, cur)
    ensures forall b, l | ZeroRun(words, b, l) && b + l <= i :: AtLeast(Better(cur, best), b, l)
    ensures Better(cur, best).base != -1 ==>
              ZeroRun(words, Better(cur, best).base, Better(cur, best).len)
              && Better(cur, best).base + Better(cur, best).len <= i
  {
  }

  lemma RunEnds(words: seq<Word>, i: nat, best: Run, cur: Run)
    requires i < |words| && RunsKnown(words, i, best, cur) && words[i] != 0
    ensures RunsKnown(words, i + 1, Better(cur, best), NO_RUN)
  {
    BetterCovers(words, i, best, cur);
    forall b, l | ZeroRun(words, b, l) && b + l <= i + 1 ensures b + l <= i {
      if b + l == i + 1 { ZeroIn(words, b, l, i); }
    }
  }

  /** The run left out is the leftmost of the longest, and has at least two words. */
  lemma {:induction false} BestIsLeftmostLongest(words: seq<Word>)
    ensures LeftmostLongest(words, Best(words))
  {
    BestFromRight(words, 0, NO_RUN, NO_RUN);
  }

  // ---- Printing an IPv6 address ----

  /** An IPv4 address in the last two words: nothing but zeros before it, or zeros and one word of ones. */
  predicate Embeds(words: seq<Word>, r: Run)
    requires |words| == 8
  {
    r.base == 0 && (r.len == 6 || (r.len == 5 && words[5] == 0xffff))
  }

  /** An IPv4 address is embedded if five zero words come first, and then a zero and no zero word, or 0xffff. */
  lemma {:induction false} EmbedsExactly(words: seq<Word>)
    requires |words| == 8
    ensures Embeds(words, Best(words)) <==>
            words[..5] == [0, 0, 0, 0, 0] && ((words[5] == 0 && words[6] != 0) || words[5] == 0xffff)
  {
    var r := Best(words);
    BestIsLeftmostLongest(words);
    FiveZeros(words);
    if words[..5] == [0, 0, 0, 0, 0] { assert ZeroRun(words, 0, 5); }
    if words[..5] == [0, 0, 0, 0, 0] && words[5] == 0 { assert ZeroRun(words, 0, 6); }
    if words[..5] == [0, 0, 0, 0, 0] && words[5] == 0 && words[6] == 0 { assert ZeroRun(words, 0, 7); }
  }

  lemma FiveZeros(words: seq<Word>)
    requires |words| == 8
    ensures words[..5] == [0, 0, 0, 0, 0] <==> forall k | 0 <= k < 5 :: words[k] == 0
  {
    assert words[..5] == [words[0], words[1], words[2], words[3], words[4]];
  }

  function LastQuad(words: seq<Word>): string
    requires |words| == 8
  {
    Quad(words[6] / 256, words[6] % 256, words[7] / 256, words[7] % 256)
  }

  predicate Inside(r: Run, i: nat) {
    r.base != -1 && r.base <= i < r.base + r.len
  }

  /** The printing loop from word i on. */
  function PrintFrom(words: seq<Word>, r: Run, i: nat): string
    requires |words| == 8
    decreases |words| - i
  {
    if i >= 8 then []
    else if Inside(r, i) then (if i == r.base then ":" else []) + PrintFrom(words, r, i + 1)
    else
      (if i != 0 then ":" else []) +
      if i == 6 && Embeds(words, r) then LastQuad(words) else Hex(words[i]) + PrintFrom(words, r, i + 1)
  }

  function Print(words: seq<Word>, r: Run): string
    requires |words| == 8
  {
    PrintFrom(words, r, 0) + if r.base != -1 && r.base + r.len == 8 then ":" else []
  }

  /** inet_ntop6 */
  function Ntop6(words: seq<Word>): string
    requires |words| == 8
  {
    Print(words, Best(words))
  }

  ghost predicate GoodRun(words: seq<Word>, r: Run) {
    r.base == -1 || (r.len >= 2 && ZeroRun(words, r.base, r.len))
  }

  /** Words up to e, none of them in the run, print with colons between them. */
  lemma PrintsWords(words: seq<Word>, r: Run, i: nat, e: nat)
    requires |words| == 8 && i < e <= 8
    requires forall k | i <= k < e :: !Inside(r, k)
    requires i <= 6 < e ==> !Embeds(words, r)
    ensures PrintFrom(words, r, i) == Colon(i) + Join(words[i..e]) + PrintFrom(words, r, e)
  {
    var text := (k: nat) => PrintFrom(words, r, k);
    forall k: nat | i <= k < e ensures text(k) == Colon(k) + (Hex(words[k]) + text(k + 1)) {
      PrintsWord(words, r, k);
    }
    PrintsJoined(words, text, i, e);
  }

  ghost function Colon(i: nat): string { if i != 0 then ":" else [] }

  lemma {:induction false} PrintsJoined(words: seq<Word>, text: nat -> string, i: nat, e: nat)
    requires i < e <= |words|
    requires forall k: nat | i <= k < e :: text(k) == Colon(k) + (Hex(words[k]) + text(k + 1))
    ensures text(i) == Colon(i) + Join(words[i..e]) + text(e)
    decreases e - i
  {
    assert words[i..e][1..] == words[i + 1..e];
    if i + 1 < e {
      PrintsJoined(words, text, i + 1, e);
      RegroupWord(Colon(i), Hex(words[i]), Join(words[i + 1..e]), text(e));
    }
  }

  lemma PrintsWord(words: seq<Word>, r: Run, i: nat)
    requires |words| == 8 && i < 8 && !Inside(r, i) && (i == 6 ==> !Embeds(words, r))
    ensures PrintFrom(words, r, i) == Colon(i) + (Hex(words[i]) + PrintFrom(words, r, i + 1))
  {
  }

  lemma RegroupWord(colon: string, word: string, more: string, rest: string)
    ensures colon + (word + (":" + more + rest)) == colon + (word + ":" + more) + rest
  {
  }

  /** The run prints as one colon. */
  lemma {:induction false} PrintsRun(words: seq<Word>, r: Run, i: nat)
    requires |words| == 8 && r.base >= 0 && r.base + r.len <= 8 && r.base < i <= r.base + r.len
    ensures PrintFrom(words, r, i) == PrintFrom(words, r, r.base + r.len)
    decreases r.base + r.len - i
  {
    if i < r.base + r.len { PrintsRun(words, r, i + 1); }
  }

  /** What follows the double colon. */
  ghost function AfterRun(words: seq<Word>, r: Run): string
    requires |words| == 8 && r.base >= 0 && r.len >= 0 && r.base + r.len <= 8
  {
    if Embeds(words, r) then (if r.len == 5 then Hex(0xffff) + ":" else []) + LastQuad(words)
    else Join(words[r.base + r.len..])
  }

  lemma PrintsQuad(words: seq<Word>, r: Run, i: nat)
    requires |words| == 8 && Embeds(words, r) && i == 6
    ensures PrintFrom(words, r, i) == ":" + LastQuad(words)
  {
  }

  lemma PrintsMappedQuad(words: seq<Word>, r: Run, i: nat)
    requires |words| == 8 && Embeds(words, r) && i == 5 == r.len
    ensures PrintFrom(words, r, i) == ":" + (Hex(words[i]) + ":" + LastQuad(words))
  {
    PrintsWord(words, r, i);
    PrintsQuad(words, r, i + 1);
    Regroup(Hex(words[i]), ":", LastQuad(words));
  }

  lemma PrintsRest(words: seq<Word>, r: Run, e: nat)
    requires |words| == 8 && 0 < e < 8 && !Embeds(words, r) && r.base + r.len == e
    ensures PrintFrom(words, r, e) == ":" + Join(words[e..])
  {
    PrintsWords(words, r, e, 8);
    assert words[e..8] == words[e..];
    NothingMore(Colon(e) + Join(words[e..]), PrintFrom(words, r, 8));
  }

  lemma NothingMore(s: string, t: string)
    requires t == []
    ensures s + t == s
  {
  }

  lemma PrintsAfterRun(words: seq<Word>, r: Run)
    requires |words| == 8 && GoodRun(words, r) && r.base != -1
    ensures PrintFrom(words, r, r.base + r.len) + (if r.base + r.len == 8 then ":" else []) == ":" + AfterRun(words, r)
  {
    var e := r.base + r.len;
    if e < 8 {
      if Embeds(words, r) {
        if e == 5 { PrintsMappedQuad(words, r, e); } else { PrintsQuad(words, r, e); }
      } else {
        PrintsRest(words, r, e);
      }
    } else {
      assert words[e..] == [];
    }
  }

  /** The printed form: the words with colons, or two groups of words with a double colon between them. */
  lemma {:induction false} PrintedForm(words: seq<Word>, r: Run)
    requires |words| == 8 && GoodRun(words, r)
    ensures Print(words, r) ==
            if r.base == -1 then Join(words) else Join(words[..r.base]) + (":" + (":" + AfterRun(words, r)))
  {
    if r.base == -1 { PrintedPlain(words, r, 0, 8); } else { PrintedAround(words, r); }
  }

  lemma PrintedPlain(words: seq<Word>, r: Run, i: nat, e: nat)
    requires |words| == 8 && r.base == -1 && i == 0 && e == 8
    ensures PrintFrom(words, r, i) == Join(words)
  {
    PrintsWords(words, r, i, e);
    assert words[i..e] == words;
  }

  lemma PrintedAround(words: seq<Word>, r: Run)
    requires |words| == 8 && GoodRun(words, r) && r.base != -1
    ensures Print(words, r) == Join(words[..r.base]) + (":" + (":" + AfterRun(words, r)))
  {
    var e := r.base + r.len;
    PrintsBeforeRun(words, r);
    PrintsAfterRun(words, r);
    Joined(PrintFrom(words, r, 0), Join(words[..r.base]), PrintFrom(words, r, e), if e == 8 then ":" else [],
           AfterRun(words, r));
  }

  lemma Joined(all: string, before: string, after: string, tail: string, rest: string)
    requires all == before + (":" + after) && after + tail == ":" + rest
    ensures all + tail == before + (":" + (":" + rest))
  {
    RegroupEnd(before, after, tail);
  }

  lemma RegroupEnd(before: string, after: string, tail: string)
    ensures (before + (":" + after)) + tail == before + (":" + (after + tail))
  {
  }

  lemma PrintsBeforeRun(words: seq<Word>, r: Run)
    requires |words| == 8 && GoodRun(words, r) && r.base != -1
    ensures PrintFrom(words, r, 0) == Join(words[..r.base]) + (":" + PrintFrom(words, r, r.base + r.len))
  {
    var after := PrintFrom(words, r, r.base + r.len);
    assert PrintFrom(words, r, r.base) == ":" + after by {
      PrintsRun(words, r, r.base + 1);
    }
    if r.base > 0 {
      PrintsWords(words, r, 0, r.base);
      assert words[0..r.base] == words[..r.base];
      assert [] + Join(words[..r.base]) == Join(words[..r.base]);
    } else {
      assert words[..0] == [];
      assert [] + (":" + after) == ":" + after;
    }
  }

  // ---- The round trip ----

  lemma {:induction false} ZeroWords(words: seq<Word>)
    requires forall k | 0 <= k < |words| :: words[k] == 0
    ensures Bytes(words) == Zeros(2 * |words|)
  {
    if words != [] {
      ZeroWords(words[1..]);
      assert Zeros(2 * |words|) == [0] + ([0] + Zeros(2 * |words| - 2));
    }
  }

  /** The bytes of an address are those before the run, zeros, and those after it. */
  lemma BytesAroundRun(words: seq<Word>, r: Run)
    requires |words| == 8 && GoodRun(words, r) && r.base != -1
    ensures Bytes(words) ==
            Bytes(words[..r.base]) + Zeros(2 * r.len) + Bytes(words[r.base + r.len..])
  {
    var e := r.base + r.len;
    var a, zeros, b := words[..r.base], words[r.base..e], words[e..];
    CutTwice(words, r.base, e);
    ZerosOf(words, r.base, e);
    BytesAround(a, zeros, b);
  }

  lemma CutTwice<T>(s: seq<T>, i: nat, e: nat)
    requires i <= e <= |s|
    ensures s == s[..i] + (s[i..e] + s[e..])
  {
  }

  lemma ZerosOf(words: seq<Word>, i: nat, e: nat)
    requires i <= e <= |words| && forall k | i <= k < e :: words[k] == 0
    ensures forall k | 0 <= k < |words[i..e]| :: words[i..e][k] == 0
  {
  }

  lemma BytesAround(a: seq<Word>, zeros: seq<Word>, b: seq<Word>)
    requires forall k | 0 <= k < |zeros| :: zeros[k] == 0
    ensures Bytes(a + (zeros + b)) == Bytes(a) + Zeros(2 * |zeros|) + Bytes(b)
  {
    BytesConcat(a, zeros + b);
    BytesConcat(zeros, b);
    ZeroWords(zeros);
    Regroup(Bytes(a), Bytes(zeros), Bytes(b));
  }

  /** Reading what follows the double colon gives the bytes after the run. */
  lemma ReadsAfterRun(words: seq<Word>, r: Run, bytes: seq<Byte>)
    requires |words| == 8 && GoodRun(words, r) && r.base != -1 && |bytes| == 2 * r.base
    ensures var s := AfterRun(words, r);
            Pton6Loop(s, s, bytes, Some(|bytes|), false, 0)
            == Pton6End(bytes + Bytes(words[r.base + r.len..]), Some(|bytes|), false, 0)
  {
    var e := r.base + r.len;
    if Embeds(words, r) {
      var q := LastQuad(words);
      var four := [words[6] / 256, words[6] % 256, words[7] / 256, words[7] % 256];
      QuadBytes(words);
      if r.len == 5 {
        ReadsMappedQuad(words, words[5], bytes);
      } else {
        assert AfterRun(words, r) == q;
        ReadsQuad(words[6] / 256, words[6] % 256, words[7] / 256, words[7] % 256, bytes, Some(|bytes|));
      }
    } else {
      ReadsLastWords(words[e..], AfterRun(words, r), bytes, Some(|bytes|));
    }
  }

  lemma ReadsMappedQuad(words: seq<Word>, w: Word, bytes: seq<Byte>)
    requires |words| == 8 && words[5] == w && |bytes| + 6 <= 16
    ensures var s := Hex(w) + ":" + LastQuad(words);
            Pton6Loop(s, s, bytes, Some(|bytes|), false, 0)
            == Pton6End(bytes + Bytes(words[5..]), Some(|bytes|), false, 0)
  {
    var q := LastQuad(words);
    Regroup(Hex(w), ":", q);
    ReadsWord(w, q, Hex(w) + (":" + q), bytes, Some(|bytes|));
    ReadsLastQuad(words, bytes + HiLo(w), Some(|bytes|));
    MappedBytes(words, w, bytes);
  }

  lemma MappedBytes(words: seq<Word>, w: Word, bytes: seq<Byte>)
    requires |words| == 8 && words[5] == w
    ensures bytes + HiLo(w) + Bytes(words[6..]) == bytes + Bytes(words[5..])
  {
    assert words[5..] == [w] + words[6..];
    BytesOfFirst(w, words[6..]);
    Regroup(bytes, HiLo(w), Bytes(words[6..]));
  }

  lemma ReadsLastQuad(words: seq<Word>, bytes: seq<Byte>, colon: Option<nat>)
    requires |words| == 8 && |bytes| + 4 <= 16 && (colon.Some? ==> colon.value <= |bytes|)
    ensures var q := LastQuad(words);
            Pton6Loop(q, q, bytes, colon, false, 0) == Pton6End(bytes + Bytes(words[6..]), colon, false, 0)
  {
    QuadBytes(words);
    ReadsQuad(words[6] / 256, words[6] % 256, words[7] / 256, words[7] % 256, bytes, colon);
  }

  lemma QuadBytes(words: seq<Word>)
    requires |words| == 8
    ensures Bytes(words[6..]) == [words[6] / 256, words[6] % 256, words[7] / 256, words[7] % 256]
  {
    assert words[6..][1..] == [words[7]];
    assert [words[7]][1..] == [];
    assert Bytes([words[7]]) == HiLo(words[7]);
    assert Bytes(words[6..]) == HiLo(words[6]) + Bytes([words[7]]);
  }

  /** Reading a double colon and what follows it, once the words before it are written. */
  lemma ReadsFromRun(words: seq<Word>, r: Run)
    requires |words| == 8 && GoodRun(words, r) && r.base != -1
    ensures var s := ":" + AfterRun(words, r); var a := Bytes(words[..r.base]);
            Pton6Loop(s, s, a, None, false, 0) == Some(Bytes(words))
  {
    var s := AfterRun(words, r);
    var a, z := Bytes(words[..r.base]), Bytes(words[r.base + r.len..]);
    ReadsAfterRun(words, r, a);
    BytesAroundRun(words, r);
    assert (":" + s)[1..] == s;
    assert (a + z)[..|a|] == a && (a + z)[|a|..] == z;
  }

  /** A printed address, whichever run of zeros it leaves out, reads back as the same sixteen bytes. */
  lemma {:induction false} PrintReadsBack(words: seq<Word>, r: Run)
    requires |words| == 8 && GoodRun(words, r)
    ensures Pton6(Print(words, r)) == Some(Bytes(words))
  {
    PrintedForm(words, r);
    if r.base == -1 {
      WordsReadBack(words);
    } else if r.base == 0 {
      ReadsFromRun(words, r);
      var s := ":" + AfterRun(words, r);
      assert words[..0] == [];
      assert Print(words, r) == ":" + s && (":" + s)[1..] == s;
    } else {
      ReadsFromRun(words, r);
      GroupReads(words[..r.base], ":" + AfterRun(words, r));
    }
  }

  lemma WordsReadBack(words: seq<Word>)
    requires |words| == 8
    ensures Pton6(Join(words)) == Some(Bytes(words))
  {
    JoinStarts(words, []);
    ReadsLastWords(words, Join(words), [], None);
    assert [] + Bytes(words) == Bytes(words);
    assert Join(words) + [] == Join(words);
  }

  /** Words in front of a double colon are read before it. */
  lemma GroupReads(words: seq<Word>, s: string)
    requires 0 < |words| <= 8 && s != []
    ensures Pton6(Join(words) + (":" + s)) == Pton6Loop(s, s, Bytes(words), None, false, 0)
  {
    JoinStarts(words, ":" + s);
    var t := Join(words) + (":" + s);
    assert t == Join(words) + ":" + s;
    ReadsWords(words, s, t, [], None);
    assert [] + Bytes(words) == Bytes(words);
  }

  /** Printed words start with a digit. */
  lemma JoinStarts(words: seq<Word>, rest: string)
    requires words != []
    ensures (Join(words) + rest)[0] != ':'
  {
    HexStarts(words[0]);
  }

  lemma {:induction false} HexStarts(w: nat)
    ensures Hex(w)[0] != ':'
  {
    if w >= 16 { HexStarts(w / 16); }
  }

  /** inet_pton6(inet_ntop6(a)) == a for every address. */
  lemma {:induction false} RoundTrip(words: seq<Word>)
    requires |words| == 8
    ensures Pton6(Ntop6(words)) == Some(Bytes(words))
  {
    BestIsLeftmostLongest(words);
    PrintReadsBack(words, Best(words));
  }

  // ---- The text fits its buffer ----

  lemma {:induction false} HexLength(w: nat)
    ensures w < 16 ==> |Hex(w)| == 1
    ensures w < 256 ==> |Hex(w)| <= 2
    ensures w < 4096 ==> |Hex(w)| <= 3
    ensures w < 65536 ==> |Hex(w)| <= 4
  {
    if w >= 16 { HexLength(w / 16); }
  }

  lemma DecLength(n: nat)
    requires n < 256
    ensures |Dec(n)| <= 3
  {
    if n >= 100 {
      assert Dec(n) == Dec(n / 10) + [LOWER[n % 10]];
      assert Dec(n / 10) == Dec(n / 100) + [LOWER[n / 10 % 10]];
    } else if n >= 10 {
      assert Dec(n) == Dec(n / 10) + [LOWER[n % 10]];
    }
  }

  lemma {:induction false} PrintLength(words: seq<Word>, r: Run, i: nat)
    requires |words| == 8 && i <= 8 && !Embeds(words, r)
    ensures |PrintFrom(words, r, i)| <= 5 * (8 - i)
    decreases 8 - i
  {
    if i < 8 {
      HexLength(words[i]);
      PrintLength(words, r, i + 1);
    }
  }

  /** The text has at most 45 characters, the most the temporary buffer can hold before its terminator. */
  lemma {:induction false} TextFits(words: seq<Word>)
    requires |words| == 8
    ensures |Ntop6(words)| <= 45
  {
    var r := Best(words);
    BestIsLeftmostLongest(words);
    if Embeds(words, r) {
      PrintedForm(words, r);
      assert words[..0] == [];
      HexLength(0xffff);
      DecLength(words[6] / 256);
      DecLength(words[6] % 256);
      DecLength(words[7] / 256);
      DecLength(words[7] % 256);
    } else {
      PrintLength(words, r, 0);
    }
  }

  // ---- The functions of inet.c ----

  function Pair(hi: Byte, lo: Byte): Word {
    var h: int := hi;
    h * 256 + lo
  }

  ghost function WordsOf(src: seq<Byte>): (r: seq<Word>)
    requires |src| % 2 == 0
    ensures |r| == |src| / 2
  {
    if src == [] then [] else [Pair(src[0], src[1])] + WordsOf(src[2..])
  }

  lemma {:induction false} WordsOfBytes(src: seq<Byte>)
    requires |src| % 2 == 0
    ensures Bytes(WordsOf(src)) == src
  {
    if src != [] {
      var w, rest := Pair(src[0], src[1]), WordsOf(src[2..]);
      WordsOfBytes(src[2..]);
      PairParts(src[0], src[1]);
      BytesOfFirst(w, rest);
      FirstTwo(src);
    }
  }

  lemma BytesOfFirst(w: Word, rest: seq<Word>)
    ensures Bytes([w] + rest) == HiLo(w) + Bytes(rest)
  {
    assert ([w] + rest)[1..] == rest;
  }

  lemma FirstTwo(src: seq<Byte>)
    requires |src| >= 2
    ensures src == [src[0], src[1]] + src[2..]
  {
  }

  lemma PairParts(hi: Byte, lo: Byte)
    ensures HiLo(Pair(hi, lo)) == [hi, lo]
  {
  }

  method ReadWords(src: seq<Byte>) returns (words: seq<Word>)
    requires |src| % 2 == 0
    ensures words == WordsOf(src)
  {
    words := [];
    var i := 0;
    while i < |src|
      invariant i <= |src| && i % 2 == 0
      invariant words + WordsOf(src[i..]) == WordsOf(src)
    {
      assert src[i..][2..] == src[i + 2..];
      words := words + [Pair(src[i], src[i + 1])];
      i := i + 2;
    }
    assert src[i..] == [];
  }

  method LongestRun(words: seq<Word>) returns (best: Run)
    ensures best == Best(words) && LeftmostLongest(words, best)
  {
    BestIsLeftmostLongest(words);
    best := NO_RUN;
    var cur := NO_RUN;
    var i := 0;
    while i < |words|
      invariant i <= |words|
      invariant BestFrom(words, i, best, cur) == Best(words)
    {
      if words[i] == 0 {
        if cur.base == -1 {
          cur := Run(i, 1);
        } else {
          cur := Run(cur.base, cur.len + 1);
        }
      } else if cur.base != -1 {
        if best.base == -1 || cur.len > best.len {
          best := cur;
        }
        cur := NO_RUN;
      } else {
        cur := NO_RUN;
      }
      i := i + 1;
    }
    if cur.base != -1 {
      if best.base == -1 || cur.len > best.len {
        best := cur;
      }
    }
    if best.base != -1 && best.len < 2 {
      best := NO_RUN;
    }
  }

  /** One pass of the printing loop: what it adds, and whether it was the last. */
  method PrintPiece(words: seq<Word>, best: Run, i: nat) returns (piece: string, last: bool)
    requires |words| == 8 && i < 8
    ensures PrintFrom(words, best, i) == piece + if last then [] else PrintFrom(words, best, i + 1)
  {
    piece, last := "", false;
    if Inside(best, i) {
      if i == best.base {
        piece := ":";
      }
      return;
    }
    if i != 0 {
      piece := ":";
    }
    if i == 6 && Embeds(words, best) {
      piece, last := piece + LastQuad(words), true;
      return;
    }
    ghost var colon := piece;
    piece := piece + Hex(words[i]);
    assert colon + (Hex(words[i]) + PrintFrom(words, best, i + 1)) == piece + PrintFrom(words, best, i + 1);
  }

  method PrintWords(words: seq<Word>, best: Run) returns (text: string)
    requires |words| == 8
    ensures text == Print(words, best)
  {
    text := "";
    var i := 0;
    ghost var all := PrintFrom(words, best, 0);
    assert text + all == all;
    while i < 8
      invariant i <= 8
      invariant text + PrintFrom(words, best, i) == all
    {
      var piece, last := PrintPiece(words, best, i);
      ghost var more := if last then [] else PrintFrom(words, best, i + 1);
      assert text + (piece + more) == text + piece + more;
      text := text + piece;
      if last {
        break;
      }
      i := i + 1;
    }
    assert text == all;
    if best.base != -1 && best.base + best.len == 8 {
      text := text + ":";
    }
  }

  /**
   inet_ntop6: a text that reads back as the address and leaves out the leftmost longest run, or nothing
   exactly if the caller has no room for it and its terminator. It always fits the temporary buffer.
   */
  method ToText(src: seq<Byte>, size: nat) returns (text: Option<string>, best: Run)
    requires |src| == 16
    ensures LeftmostLongest(WordsOf(src), best)
    ensures text == None <==> |Print(WordsOf(src), best)| + 1 > size
    ensures text.Some? ==>
              text.value == Print(WordsOf(src), best) && |text.value| <= 45 && Pton6(text.value) == Some(src)
  {
    WordsOfBytes(src);
    var words := ReadWords(src);
    best := LongestRun(words);
    var tmp := PrintWords(words, best);
    TextFits(words);
    RoundTrip(words);
    text := if |tmp| + 1 > size then None else Some(tmp);
  }

  /** inet_pton4 */
  method FromQuad(s: string) returns (r: Option<seq<Byte>>)
    ensures r == Pton4(s)
  {
    var i, cur, saw := 0, 0, false;
    var octets: seq<Byte> := [];
    assert s[0..] == s;
    while i < |s|
      invariant i <= |s| && 0 <= cur < 256
      invariant Pton4Loop(s[i..], octets, cur, saw) == Pton4(s)
    {
      assert s[i..][1..] == s[i + 1..];
      var ch := s[i];
      i := i + 1;
      if '0' <= ch <= '9' {
        var v := cur * 10 + (ch - '0') as int;
        if v > 255 {
          return None;
        }
        cur := v;
        if !saw {
          if |octets| + 1 > 4 {
            return None;
          }
          saw := true;
        }
      } else if ch == '.' && saw {
        if |octets| + 1 == 4 {
          return None;
        }
        octets, cur, saw := octets + [cur], 0, false;
      } else {
        return None;
      }
    }
    assert s[i..] == [];
    if |octets| + (if saw then 1 else 0) < 4 {
      return None;
    }
    return Some((octets + [cur])[..4]);
  }

  /** The shift by hand: what was written from colon on moves to the end, and zeros take its place. */
  method ShiftRight(tmp: array<Byte>, tp: nat, colon: nat)
    requires colon <= tp < tmp.Length
    requires forall k | tp <= k < tmp.Length :: tmp[k] == 0
    modifies tmp
    ensures tmp[..] == old(tmp[..colon]) + Zeros(tmp.Length - tp) + old(tmp[colon..tp])
  {
    var n, end := tp - colon, tmp.Length;
    ghost var o := tmp[..];
    var i := 1;
    while i <= n
      invariant 1 <= i <= n + 1
      invariant forall k | 0 <= k < tp - i + 1 :: tmp[k] == o[k]
      invariant forall k | end - i + 1 <= k < end :: tmp[k] == o[k - (end - tp)]
      invariant forall k | tp - i + 1 <= k < end - i + 1 :: tmp[k] == 0
    {
      tmp[end - i] := tmp[colon + n - i];
      tmp[colon + n - i] := 0;
      i := i + 1;
    }
    Shifted(o, tmp[..], tp, colon);
    assert o[..colon] == old(tmp[..colon]) && o[colon..tp] == old(tmp[colon..tp]);
  }

  lemma Shifted(o: seq<Byte>, t: seq<Byte>, tp: nat, colon: nat)
    requires colon <= tp < |o| == |t| && forall k | 0 <= k < colon :: t[k] == o[k]
    requires forall k | colon <= k < |t| - (tp - colon) :: t[k] == 0
    requires forall k | |t| - (tp - colon) <= k < |t| :: t[k] == o[k - (|t| - tp)]
    ensures t == o[..colon] + Zeros(|t| - tp) + o[colon..tp]
  {
    ZerosAre(|t| - tp);
  }

  lemma {:induction false} ZerosAre(n: nat)
    ensures forall k | 0 <= k < n :: Zeros(n)[k] == 0
  {
    if n > 0 { ZerosAre(n - 1); }
  }

  method Write(tmp: array<Byte>, tp: nat, bytes: seq<Byte>)
    requires tp + |bytes| <= tmp.Length
    modifies tmp
    ensures tmp[..tp + |bytes|] == old(tmp[..tp]) + bytes
    ensures tmp[tp + |bytes|..] == old(tmp[tp + |bytes|..])
  {
    var i := 0;
    while i < |bytes|
      invariant i <= |bytes|
      invariant tmp[..tp] == old(tmp[..tp])
      invariant forall k | 0 <= k < i :: tmp[tp + k] == bytes[k]
      invariant tmp[tp + |bytes|..] == old(tmp[tp + |bytes|..])
    {
      tmp[tp + i] := bytes[i];
      i := i + 1;
    }
    assert tmp[..tp + |bytes|] == tmp[..tp] + bytes;
  }

  /** The variables of inet_pton6 while it reads. */
  datatype Reading = Reading(pos: nat, token: nat, tp: nat, colon: Option<nat>, saw: bool, val: Word)

  /** What is left to do from here gives the goal. */
  ghost predicate OnCourse(s: string, tmp: array<Byte>, v: Reading, goal: Option<seq<Byte>>)
    reads tmp
  {
    && tmp.Length == 16 && v.tp <= 16 && v.pos <= |s| && v.token <= |s|
    && (v.colon.Some? ==> v.colon.value <= v.tp)
    && (forall k | v.tp <= k < 16 :: tmp[k] == 0)
    && Pton6Loop(s[v.pos..], s[v.token..], tmp[..v.tp], v.colon, v.saw, v.val) == goal
  }

  /** A colon: the first of two marks the place of the zeros, any other ends a word. */
  method ReadColon(s: string, tmp: array<Byte>, v: Reading, ghost goal: Option<seq<Byte>>)
    returns (next: Option<Reading>)
    requires OnCourse(s, tmp, v, goal) && v.pos < |s| && Glob.Lower(s[v.pos]) == ':'
    modifies tmp
    ensures next.None? ==> goal == None
    ensures next.Some? ==> OnCourse(s, tmp, next.value, goal) && next.value.pos == v.pos + 1
  {
    assert s[v.pos..][1..] == s[v.pos + 1..];
    if !v.saw {
      if v.colon.Some? {
        return None;
      }
      return Some(v.(pos := v.pos + 1, token := v.pos + 1, colon := Some(v.tp)));
    }
    if v.pos + 1 == |s| || v.tp + 2 > 16 {
      return None;
    }
    Write(tmp, v.tp, HiLo(v.val));
    assert forall k | v.tp + 2 <= k < 16 :: tmp[k] == tmp[v.tp + 2..][k - (v.tp + 2)];
    return Some(v.(pos := v.pos + 1, token := v.pos + 1, tp := v.tp + 2, saw := false, val := 0));
  }

  lemma DigitRead(s: string, tmp: array<Byte>, v: Reading, goal: Option<seq<Byte>>, val: nat)
    requires OnCourse(s, tmp, v, goal) && v.pos < |s| && HexDigit(Glob.Lower(s[v.pos])).Some?
    requires val == v.val * 16 + HexDigit(Glob.Lower(s[v.pos])).value <= 0xffff
    ensures OnCourse(s, tmp, v.(pos := v.pos + 1, saw := true, val := val), goal)
  {
    assert s[v.pos..][1..] == s[v.pos + 1..];
  }

  /** A dot: the text since the last colon is a dotted quad, and ends the address. */
  method ReadQuad(s: string, tmp: array<Byte>, v: Reading, ghost goal: Option<seq<Byte>>) returns (r: Option<seq<Byte>>)
    requires OnCourse(s, tmp, v, goal) && v.pos + 1 < |s| && Glob.Lower(s[v.pos]) == '.'
    modifies tmp
    ensures r == goal
  {
    assert s[v.pos..][1..] == s[v.pos + 1..];
    if v.tp + 4 > 16 {
      return None;
    }
    var quad := FromQuad(s[v.token..]);
    if quad.None? {
      return None;
    }
    Pton4Length(s[v.token..], [], 0, false);
    Write(tmp, v.tp, quad.value);
    assert forall k | v.tp + 4 <= k < 16 :: tmp[k] == tmp[v.tp + 4..][k - (v.tp + 4)];
    r := FinishText(tmp, v.tp + 4, v.colon, false, v.val);
  }

  /** inet_pton6 */
  method FromText(s: string) returns (r: Option<seq<Byte>>)
    ensures r == Pton6(s)
  {
    var tmp := new Byte[16](_ => 0);
    var v := Reading(0, 0, 0, None, false, 0);
    if s != [] && s[0] == ':' {
      if |s| < 2 || s[1] != ':' {
        return None;
      }
      v := Reading(1, 1, 0, None, false, 0);
    }
    assert s[0..] == s && tmp[..0] == [];
    ghost var goal := Pton6(s);
    while v.pos < |s|
      invariant OnCourse(s, tmp, v, goal) && fresh(tmp)
      decreases |s| - v.pos
    {
      var ch := Glob.Lower(s[v.pos]);
      assert s[v.pos..][1..] == s[v.pos + 1..];
      if HexDigit(ch).Some? {
        var val := v.val * 16 + HexDigit(ch).value;
        if val > 0xffff {
          return None;
        }
        DigitRead(s, tmp, v, goal, val);
        v := v.(pos := v.pos + 1, saw := true, val := val);
      } else if ch == ':' {
        var next := ReadColon(s, tmp, v, goal);
        if next.None? {
          return None;
        }
        v := next.value;
      } else if v.pos + 1 < |s| && ch == '.' {
        r := ReadQuad(s, tmp, v, goal);
        return;
      } else {
        v := v.(pos := v.pos + 1);
      }
    }
    assert s[v.pos..] == [];
    r := FinishText(tmp, v.tp, v.colon, v.saw, v.val);
  }

  lemma {:induction false} Pton4Length(s: string, octets: seq<Byte>, cur: Byte, sawDigit: bool)
    ensures var r := Pton4Loop(s, octets, cur, sawDigit); r.Some? ==> |r.value| == 4
    decreases |s|
  {
    if s != [] {
      if '0' <= s[0] <= '9' {
        var v := cur * 10 + (s[0] - '0') as int;
        if v <= 255 { Pton4Length(s[1..], octets, v, true); }
      } else if s[0] == '.' && sawDigit {
        Pton4Length(s[1..], octets + [cur], 0, false);
      }
    }
  }

  /** The end of inet_pton6. */
  method FinishText(tmp: array<Byte>, tp: nat, colon: Option<nat>, saw: bool, val: Word) returns (r: Option<seq<Byte>>)
    requires tmp.Length == 16 && tp <= 16 && (colon.Some? ==> colon.value <= tp)
    requires forall k | tp <= k < 16 :: tmp[k] == 0
    modifies tmp
    ensures r == Pton6End(old(tmp[..tp]), colon, saw, val)
  {
    var end := tp;
    if saw {
      if tp + 2 > 16 {
        return None;
      }
      Write(tmp, tp, HiLo(val));
      assert forall k | tp + 2 <= k < 16 :: tmp[k] == tmp[tp + 2..][k - (tp + 2)];
      end := tp + 2;
    }
    ghost var all := tmp[..end];
    if colon.Some? {
      if end == 16 {
        return None;
      }
      assert all[..colon.value] == tmp[..colon.value] && all[colon.value..] == tmp[colon.value..end];
      ShiftRight(tmp, end, colon.value);
      end := 16;
    }
    if end != 16 {
      return None;
    }
    assert colon.None? ==> tmp[..] == all;
    return Some(tmp[..]);
  }
}
