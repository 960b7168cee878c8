/**
 Wildcard masks: what a mask means, and the iterative matcher with a single backtracking point
 and a budget of 512 iterations that decides it.
 */
module Glob {
  import opened Basics

  const MATCH_MAX_CALLS: nat := 512

  /** A C string: the terminator is not part of it. */
  predicate CString(s: string) {
    '\0' !in s
  }

  type Text = s: string | CString(s)

  /** The ToLower table: ASCII capitals fold, every other byte stands for itself. */
  function Lower(c: char): char {
    if 'A' <= c <= 'Z' then c - 'A' + 'a' else c
  }

  /** The byte at a position, with the terminator at the end. */
  function At(s: string, i: nat): char {
    if i < |s| then s[i] else '\0'
  }

  predicate Fits(m: char, c: char) {
    m == '?' || Lower(m) == Lower(c)
  }

  // ---- The meaning of a mask ----

  /** mask[i..] matches name[j..]: `*` stands for any text, `?` for any one byte, anything else for itself. */
  ghost predicate Matches(mask: string, name: string, i: nat, j: nat)
    requires i <= |mask| && j <= |name|
    decreases |mask| - i + |name| - j
  {
    if i == |mask| then j == |name|
    else if mask[i] == '*' then
      Matches(mask, name, i + 1, j) || (j < |name| && Matches(mask, name, i, j + 1))
    else j < |name| && Fits(mask[i], name[j]) && Matches(mask, name, i + 1, j + 1)
  }

  ghost predicate Meaning(mask: string, name: string) {
    Matches(mask, name, 0, 0)
  }

  /** A byte of a mask fits itself and, if it is a letter, its other form; a question mark fits any. */
  lemma {:induction false} FitsExactly(m: char, c: char)
    ensures Fits(m, c) <==> m == '?' || SameLetter(m, c)
  {
    LowerExactly(m, c);
  }

  lemma {:induction false} CaseIgnoredFrom(mask: string, mask': string, name: string, name': string, i: nat, j: nat)
    requires SameLetters(mask, mask') && SameLetters(name, name') && i <= |mask| && j <= |name|
    ensures Matches(mask, name, i, j) <==> Matches(mask', name', i, j)
    decreases |mask| - i + |name| - j
  {
    if i < |mask| {
      MarksSame(mask[i], mask'[i]);
      if mask[i] == '*' {
        CaseIgnoredFrom(mask, mask', name, name', i + 1, j);
        if j < |name| { CaseIgnoredFrom(mask, mask', name, name', i, j + 1); }
      } else if j < |name| {
        FitsSame(mask[i], mask'[i], name[j], name'[j]);
        CaseIgnoredFrom(mask, mask', name, name', i + 1, j + 1);
      }
    }
  }

  lemma MarksSame(m: char, m': char)
    requires SameLetter(m, m')
    ensures (m == '*' <==> m' == '*') && (m == '?' <==> m' == '?')
  {
    LettersApart(m, m');
  }

  lemma FitsSame(m: char, m': char, c: char, c': char)
    requires SameLetter(m, m') && SameLetter(c, c')
    ensures Fits(m, c) <==> Fits(m', c')
  {
    MarksSame(m, m');
    LowerExactly(m, m');
    LowerExactly(c, c');
  }

  lemma LowerExactly(a: char, b: char)
    ensures Lower(a) == Lower(b) <==> SameLetter(a, b)
  {
    LettersApart(a, b);
  }

  /** Masks and names that differ in the case of letters alone mean the same. */
  lemma {:induction false} CaseIgnored(mask: string, mask': string, name: string, name': string)
    requires SameLetters(mask, mask') && SameLetters(name, name')
    ensures Meaning(mask, name) <==> Meaning(mask', name')
  {
    CaseIgnoredFrom(mask, mask', name, name', 0, 0);
  }

  /** mask[i..] matches some suffix of name[j..], as it must right after a star. */
  ghost predicate MatchesFrom(mask: string, name: string, i: nat, j: nat)
    requires i <= |mask| && j <= |name|
  {
    exists k :: j <= k <= |name| && Matches(mask, name, i, k)
  }

  // ---- The matcher, one iteration at a time ----

  datatype State = State(m: nat, n: nat, ma: nat, na: nat, wild: bool)
  datatype Outcome = Done(result: bool) | Next(state: State)

  const START := State(0, 0, 0, 0, false)

  function SkipStars(mask: string, m: nat): (r: nat)
    ensures m <= r
    decreases |mask| - m
  {
    if At(mask, m) == '*' then SkipStars(mask, m + 1) else m
  }

  /** Step back over trailing question marks, never past the first byte. */
  function BackOverAny(mask: string, m: nat): (r: nat)
    ensures r <= m
  {
    if m > 0 && At(mask, m) == '?' then BackOverAny(mask, m - 1) else m
  }

  /** Move the start of the text taken by the last star one byte on. */
  function Restart(st: State): State {
    st.(m := st.ma, n := st.na + 1, na := st.na + 1)
  }

  function Compare(mask: string, name: string, st: State): Outcome {
    if !Fits(At(mask, st.m), At(name, st.n)) then
      if st.wild then Next(Restart(st)) else Done(false)
    else
      Next(st.(m := if st.m < |mask| then st.m + 1 else st.m, n := if st.n < |name| then st.n + 1 else st.n))
  }

  function TakeStars(mask: string, st: State): State {
    if At(mask, st.m) == '*' then
      var m := SkipStars(mask, st.m);
      State(m, st.n, m, st.n, true)
    else st
  }

  /** The place stepped back to is a star; a star in the first place does not count. */
  predicate EndsInStar(mask: string, k: nat) {
    At(mask, k) == '*' && k > 0
  }

  /**
   One pass of the loop. For an empty mask the code steps back to the byte before it, but whatever is
   there, the place is not behind the first byte, so the step finds nothing.
   */
  function Iteration(mask: string, name: string, st: State): Outcome
  {
    var s := TakeStars(mask, st);
    if s.m >= |mask| then
      if s.n >= |name| then Done(true)
      else
        if |mask| > 0 && EndsInStar(mask, BackOverAny(mask, |mask| - 1)) then Done(true)
        else if !s.wild then Done(false)
        else Compare(mask, name, Restart(s))
    else if s.n >= |name| then Done(SkipStars(mask, s.m) == |mask|)
    else Compare(mask, name, s)
  }

  function Run(mask: string, name: string, st: State, budget: nat): bool
    decreases budget, mask
  {
    if budget == 0 then false
    else
      match Iteration(mask, name, st)
      case Done(r) => r
      case Next(s) => Run(mask, name, s, budget - 1)
  }

  /** match(mask, name) */
  function Result(mask: string, name: string): bool
  {
    Run(mask, name, START, MATCH_MAX_CALLS)
  }

  // ---- Facts about the meaning ----

  ghost predicate StarFree(mask: string, i: nat, e: nat)
    requires i <= e <= |mask|
  {
    forall k | i <= k < e :: mask[k] != '*'
  }

  /** mask[i..e] has no star and fits name byte by byte from j. */
  ghost predicate Segment(mask: string, name: string, i: nat, e: nat, j: nat)
    requires i <= e <= |mask| && j + (e - i) <= |name|
  {
    StarFree(mask, i, e) && forall k | i <= k < e :: Fits(mask[k], name[j + (k - i)])
  }

  /** A fitting segment can be taken off both sides. */
  lemma {:induction false} SegmentConsumed(mask: string, name: string, i: nat, e: nat, j: nat)
    requires i <= e <= |mask| && j + (e - i) <= |name| && Segment(mask, name, i, e, j)
    ensures Matches(mask, name, i, j) <==> Matches(mask, name, e, j + (e - i))
    decreases e - i
  {
    if i < e { SegmentConsumed(mask, name, i + 1, e, j + 1); }
  }

  /** A star-free stretch of the mask takes exactly its length of the name. */
  lemma {:induction false} StretchTaken(mask: string, name: string, i: nat, e: nat, j: nat)
    requires i <= e <= |mask| && j <= |name| && StarFree(mask, i, e)
    requires Matches(mask, name, i, j)
    ensures j + (e - i) <= |name|
    ensures Segment(mask, name, i, e, j)
    ensures Matches(mask, name, e, j + (e - i))
    decreases e - i
  {
    if i < e { StretchTaken(mask, name, i + 1, e, j + 1); }
  }

  /** A star matches what its rest matches at some later place; a run of stars is one star. */
  lemma {:induction false} StarMeans(mask: string, name: string, i: nat, j: nat)
    requires i < |mask| && j <= |name| && mask[i] == '*'
    ensures SkipStars(mask, i) <= |mask|
    ensures Matches(mask, name, i, j) <==> MatchesFrom(mask, name, SkipStars(mask, i), j)
    decreases |mask| - i, |name| - j
  {
    var r := SkipStars(mask, i);
    if At(mask, i + 1) == '*' {
      StarMeans(mask, name, i + 1, j);
    }
    if j < |name| {
      StarMeans(mask, name, i, j + 1);
      if MatchesFrom(mask, name, r, j) && !Matches(mask, name, r, j) {
        var k :| j <= k <= |name| && Matches(mask, name, r, k);
        assert MatchesFrom(mask, name, r, j + 1);
      }
    }
  }

  /**
   Leftmost placement loses nothing: once the segment after a star fits at na, what follows it may
   as well be searched for from the end of that placement.
   */
  lemma {:induction false} LeftmostSuffices(mask: string, name: string, ma: nat, m: nat, na: nat)
    requires ma <= m < |mask| && na + (m - ma) <= |name|
    requires Segment(mask, name, ma, m, na) && mask[m] == '*'
    ensures SkipStars(mask, m) <= |mask|
    ensures MatchesFrom(mask, name, ma, na) <==> MatchesFrom(mask, name, SkipStars(mask, m), na + (m - ma))
  {
    var n := na + (m - ma);
    StarMeans(mask, name, m, n);
    SegmentConsumed(mask, name, ma, m, na);
    if MatchesFrom(mask, name, ma, na) {
      var k :| na <= k <= |name| && Matches(mask, name, ma, k);
      StretchTaken(mask, name, ma, m, k);
      StarMeans(mask, name, m, k + (m - ma));
    }
  }

  // ---- The invariant of the matcher ----

  ghost predicate Invariant(mask: string, name: string, st: State)
  {
    && st.m <= |mask| && st.n <= |name| && st.ma <= st.m && st.na <= st.n
    && st.m - st.ma == st.n - st.na
    && Segment(mask, name, st.ma, st.m, st.na)
    && (!st.wild ==> st.ma == 0 && st.na == 0)
    && (st.wild ==>
          && st.ma > 0 && mask[st.ma - 1] == '*' && At(mask, st.ma) != '*'
          && (Meaning(mask, name) <==> MatchesFrom(mask, name, st.ma, st.na)))
  }

  /** What is left to match, in either phase. */
  lemma Remaining(mask: string, name: string, st: State)
    requires Invariant(mask, name, st)
    ensures !st.wild ==> (Meaning(mask, name) <==> Matches(mask, name, st.m, st.n))
    ensures st.wild && st.na < |name| && !Matches(mask, name, st.m, st.n) ==>
              (Meaning(mask, name) <==> MatchesFrom(mask, name, st.ma, st.na + 1))
  {
    SegmentConsumed(mask, name, st.ma, st.m, st.na);
    if st.wild && !Matches(mask, name, st.m, st.n) && MatchesFrom(mask, name, st.ma, st.na) && st.na < |name| {
      var k :| st.na <= k <= |name| && Matches(mask, name, st.ma, k);
      assert k != st.na;
    }
  }

  lemma TakeStarsKeeps(mask: string, name: string, st: State)
    requires CString(mask) && Invariant(mask, name, st)
    ensures Invariant(mask, name, TakeStars(mask, st))
    ensures At(mask, TakeStars(mask, st).m) != '*'
  {
    if At(mask, st.m) == '*' {
      SkipStarsStops(mask, st.m);
      StarMeans(mask, name, st.m, st.n);
      Remaining(mask, name, st);
      if st.wild { LeftmostSuffices(mask, name, st.ma, st.m, st.na); }
    }
  }

  lemma {:induction false} SkipStarsStops(mask: string, m: nat)
    requires m <= |mask|
    ensures var r := SkipStars(mask, m);
            m <= r <= |mask| && At(mask, r) != '*' && (r > m ==> mask[r - 1] == '*')
    decreases |mask| - m
  {
    if At(mask, m) == '*' { SkipStarsStops(mask, m + 1); }
  }

  lemma {:induction false} BackOverAnyStops(mask: string, m: nat)
    requires m < |mask|
    ensures var k := BackOverAny(mask, m);
            k <= m && (forall i | k < i <= m :: mask[i] == '?') && (k > 0 ==> mask[k] != '?')
  {
    if m > 0 && mask[m] == '?' { BackOverAnyStops(mask, m - 1); }
  }

  /** Question marks to the end of the mask match any name long enough for them, at its end. */
  lemma {:induction false} OnlyAnyLeft(mask: string, name: string, i: nat, j: nat)
    requires i <= |mask| && forall k | i <= k < |mask| :: mask[k] == '?'
    requires j <= |name| && |name| - j == |mask| - i
    ensures Matches(mask, name, i, j)
    decreases |mask| - i
  {
    if i < |mask| { OnlyAnyLeft(mask, name, i + 1, j + 1); }
  }

  /** The trailing-`?` shortcut is right: the mask ends in a star and question marks, and enough name is left. */
  lemma {:induction false} ShortcutRight(mask: string, name: string, st: State)
    requires |mask| > 0 && Invariant(mask, name, st) && st.m == |mask| && st.n < |name|
    requires var k := BackOverAny(mask, |mask| - 1); mask[k] == '*' && k > 0
    ensures Meaning(mask, name)
  {
    BackOverAnyStops(mask, |mask| - 1);
    var k := BackOverAny(mask, |mask| - 1);
    assert st.wild && st.ma == k + 1;
    var j := |name| - (|mask| - st.ma);
    OnlyAnyLeft(mask, name, st.ma, j);
  }

  /** Only the mask `*` itself can leave nothing to compare after a restart. */
  lemma RestartKeeps(mask: string, name: string, st: State)
    requires Invariant(mask, name, st) && st.wild && |mask| > 0
    requires st.m == |mask| && st.n < |name|
    requires var k := BackOverAny(mask, |mask| - 1); !(mask[k] == '*' && k > 0)
    ensures Invariant(mask, name, Restart(st))
    ensures st.ma == |mask| || st.na + 1 < |name|
  {
    Remaining(mask, name, st);
  }

  /** The comparison keeps the invariant, or rightly gives up. */
  lemma CompareKeeps(mask: string, name: string, st: State)
    requires CString(mask) && CString(name) && Invariant(mask, name, st)
    requires At(mask, st.m) != '*'
    requires st.m < |mask| ==> st.n < |name|
    requires st.m == |mask| ==> st.wild && st.ma == |mask|
    ensures match Compare(mask, name, st)
            case Done(r) => !r && !Meaning(mask, name)
            case Next(s) => Invariant(mask, name, s)
  {
    Remaining(mask, name, st);
    if st.m == |mask| {
      assert Matches(mask, name, |mask|, |name|);
      assert MatchesFrom(mask, name, st.ma, st.na);
      if st.na < |name| { assert MatchesFrom(mask, name, st.ma, st.na + 1); }
    }
  }

  /** If the name runs out first, no placement can leave room for the rest of the mask. */
  lemma NameTooShort(mask: string, name: string, st: State)
    requires Invariant(mask, name, st)
    requires st.m < |mask| && mask[st.m] != '*' && st.n == |name|
    ensures !Meaning(mask, name)
  {
    Remaining(mask, name, st);
    if st.wild && Meaning(mask, name) {
      var k :| st.na <= k <= |name| && Matches(mask, name, st.ma, k);
      StretchTaken(mask, name, st.ma, st.m + 1, k);
    }
  }

  /** No stretch of the mask without a star is longer than this. */
  ghost predicate StretchesWithin(mask: string, len: nat) {
    forall i, e | 0 <= i <= e <= |mask| && StarFree(mask, i, e) :: e - i <= len
  }

  /** How far a state has come: first by the start of the last star's text, then by the place in the stretch. */
  ghost function Potential(len: nat, st: State): int {
    st.na * (len + 1) + (st.m - st.ma)
  }

  /** One iteration either decides the meaning, or keeps the invariant and raises the potential. */
  lemma {:induction false} IterationSound(mask: string, name: string, st: State)
    requires CString(mask) && CString(name) && Invariant(mask, name, st)
    ensures match Iteration(mask, name, st)
            case Done(r) => r == Meaning(mask, name)
            case Next(s) =>
              && Invariant(mask, name, s)
              && forall len: nat | StretchesWithin(mask, len) :: Potential(len, s) > Potential(len, st)
  {
    var s := TakeStars(mask, st);
    TakeStarsKeeps(mask, name, st);
    SkipStarsStops(mask, st.m);
    StarsRise(mask, name, st);
    if s.m == |mask| {
      if s.n == |name| {
        Remaining(mask, name, s);
        SegmentConsumed(mask, name, s.ma, s.m, s.na);
      } else {
        if |mask| > 0 && EndsInStar(mask, BackOverAny(mask, |mask| - 1)) {
          ShortcutRight(mask, name, s);
        } else if !s.wild {
          Remaining(mask, name, s);
        } else {
          RestartKeeps(mask, name, s);
          CompareKeeps(mask, name, Restart(s));
          RestartRises(mask, name, s);
          CompareRises(mask, name, Restart(s));
        }
      }
    } else if s.n == |name| {
      NameTooShort(mask, name, s);
      SkipStarsStops(mask, s.m);
    } else {
      CompareKeeps(mask, name, s);
      CompareRises(mask, name, s);
    }
  }

  /** A star is taken at the end of a stretch, and the next text starts behind what the stretch took. */
  lemma StarsRise(mask: string, name: string, st: State)
    requires Invariant(mask, name, st)
    ensures forall len: nat :: Potential(len, TakeStars(mask, st)) >= Potential(len, st)
  {
    forall len: nat ensures Potential(len, TakeStars(mask, st)) >= Potential(len, st) {
      var d := st.m - st.ma;
      if At(mask, st.m) == '*' {
        assert (st.na + d) * (len + 1) == st.na * (len + 1) + d * (len + 1);
        assert d * (len + 1) == d * len + d;
        assert d * len >= 0;
      }
    }
  }

  lemma RestartRises(mask: string, name: string, st: State)
    requires Invariant(mask, name, st)
    ensures forall len: nat | StretchesWithin(mask, len) :: Potential(len, Restart(st)) > Potential(len, st)
  {
    forall len: nat | StretchesWithin(mask, len) ensures Potential(len, Restart(st)) > Potential(len, st) {
      assert StarFree(mask, st.ma, st.m);
      assert (st.na + 1) * (len + 1) == st.na * (len + 1) + len + 1;
    }
  }

  lemma CompareRises(mask: string, name: string, st: State)
    requires Invariant(mask, name, st)
    ensures match Compare(mask, name, st)
            case Done(_) => true
            case Next(s) =>
              forall len: nat | StretchesWithin(mask, len) ::
                Potential(len, s) >= Potential(len, st) && (st.m < |mask| ==> Potential(len, s) > Potential(len, st))
  {
    RestartRises(mask, name, st);
  }

  /** The invariant leaves room for no more than (|name| + 1) * (len + 1) different potentials. */
  lemma PotentialBounded(mask: string, name: string, st: State, len: nat)
    requires Invariant(mask, name, st) && StretchesWithin(mask, len)
    ensures 0 <= Potential(len, st) < (|name| + 1) * (len + 1)
  {
    assert StarFree(mask, st.ma, st.m);
    RoomBelow(st.na, |name|, len + 1, st.m - st.ma);
  }

  lemma RoomBelow(a: nat, b: nat, w: nat, m: nat)
    requires a <= b && m < w
    ensures 0 <= a * w + m < (b + 1) * w
  {
    if a < b {
      RoomBelow(a, b - 1, w, m);
      assert (b + 1) * w == b * w + w;
    } else {
      assert (b + 1) * w == a * w + w;
    }
  }

  /** How many iterations the matcher needs when nothing cuts it short. */
  ghost function Iterations(mask: string, name: string, st: State): nat
    requires CString(mask) && CString(name) && Invariant(mask, name, st)
    decreases (|name| + 1) * (|mask| + 1) - Potential(|mask|, st)
  {
    IterationSound(mask, name, st);
    match Iteration(mask, name, st)
    case Done(_) => 1
    case Next(s) => PotentialBounded(mask, name, s, |mask|); 1 + Iterations(mask, name, s)
  }

  /** With enough iterations the matcher decides the meaning; with too few it says no. */
  lemma {:induction false} RunDecides(mask: string, name: string, st: State, budget: nat)
    requires CString(mask) && CString(name) && Invariant(mask, name, st)
    ensures Run(mask, name, st, budget) <==> Meaning(mask, name) && Iterations(mask, name, st) <= budget
    decreases budget
  {
    IterationSound(mask, name, st);
    if budget > 0 {
      match Iteration(mask, name, st)
      case Done(_) =>
      case Next(s) => RunDecides(mask, name, s, budget - 1);
    }
  }

  lemma {:induction false} IterationsBounded(mask: string, name: string, st: State, len: nat)
    requires CString(mask) && CString(name) && Invariant(mask, name, st) && StretchesWithin(mask, len)
    ensures Iterations(mask, name, st) <= (|name| + 1) * (len + 1) - Potential(len, st)
    decreases (|name| + 1) * (len + 1) - Potential(len, st)
  {
    IterationSound(mask, name, st);
    PotentialBounded(mask, name, st, len);
    match Iteration(mask, name, st)
    case Done(_) =>
    case Next(s) =>
      PotentialBounded(mask, name, s, len);
      IterationsBounded(mask, name, s, len);
  }

  /** A mask without stars is compared byte by byte, and a match takes one iteration more than it has bytes. */
  lemma {:induction false} StarFreeIterations(mask: string, name: string, st: State)
    requires CString(mask) && CString(name) && Invariant(mask, name, st)
    requires StarFree(mask, 0, |mask|) && Meaning(mask, name)
    ensures Iterations(mask, name, st) == |mask| - st.m + 1
    decreases |mask| - st.m
  {
    IterationSound(mask, name, st);
    StretchTaken(mask, name, 0, |mask|, 0);
    match Iteration(mask, name, st)
    case Done(_) =>
    case Next(s) => StarFreeIterations(mask, name, s);
  }

  /**
   The matcher never accepts what the mask does not mean, and it is right about every name exactly
   when it gets through in its budget, which it does whenever (|name| + 1) * (len + 1) <= 512 for the
   longest stretch of the mask without a star (and so whenever (|name| + 1) * (|mask| + 1) <= 512).
   */
  lemma {:induction false} MatchDecides(mask: string, name: string)
    requires CString(mask) && CString(name)
    ensures Result(mask, name) ==> Meaning(mask, name)
    ensures Result(mask, name) != Meaning(mask, name)
            <==> Meaning(mask, name) && Iterations(mask, name, START) > MATCH_MAX_CALLS
    ensures forall len: nat | StretchesWithin(mask, len) && (|name| + 1) * (len + 1) <= MATCH_MAX_CALLS ::
              Result(mask, name) <==> Meaning(mask, name)
    ensures StretchesWithin(mask, |mask|)
  {
    RunDecides(mask, name, START, MATCH_MAX_CALLS);
    forall len: nat | StretchesWithin(mask, len) ensures Iterations(mask, name, START) <= (|name| + 1) * (len + 1) {
      IterationsBounded(mask, name, START, len);
    }
  }

  /** Without stars the budget fails exactly the names of 512 bytes or more that the mask does mean. */
  lemma {:induction false} StarFreeDecides(mask: string, name: string)
    requires CString(mask) && CString(name) && StarFree(mask, 0, |mask|)
    ensures Result(mask, name) <==> Meaning(mask, name) && |mask| < MATCH_MAX_CALLS
  {
    RunDecides(mask, name, START, MATCH_MAX_CALLS);
    if Meaning(mask, name) { StarFreeIterations(mask, name, START); }
  }

  // ---- Names the budget fails ----

  function Letters(n: nat): string {
    seq(n, i => 'a')
  }

  function HostMask(k: nat): string {
    "*" + Letters(k) + "b"
  }

  function HostName(pre: string, n: nat): string {
    pre + Letters(n) + "b"
  }

  /** Passes left once p bytes are given to the star and d bytes behind them are found to fit. */
  ghost function PassesLeft(k: nat, q: nat, n: nat, p: nat, d: nat): int
    requires k <= n && p <= q + n - k
    decreases q + n - k - p
  {
    if p < q then 1 + PassesLeft(k, q, n, p + 1, 0)
    else if p < q + n - k then k + 1 - d + PassesLeft(k, q, n, p + 1, 0)
    else k + 2 - d
  }

  /** The matcher tries every place for the letters and fails at the last byte of each try but the last. */
  lemma {:induction false} TriesAll(mask: string, name: string, k: nat, q: nat, n: nat, p: nat, d: nat, budget: nat)
    requires k <= n && (forall p, d :: TryGoes(mask, name, k, q, n, p, d)) && Trying(k, q, n, p, d)
    ensures Run(mask, name, State(1 + d, p + d, 1, p, true), budget) <==> budget >= PassesLeft(k, q, n, p, d)
    decreases budget
  {
    PassesAtLeast(k, q, n, p, d);
    assert TryGoes(mask, name, k, q, n, p, d);
    if budget > 0 {
      if p < q || (d == k && p < q + n - k) {
        TriesAll(mask, name, k, q, n, p + 1, 0, budget - 1);
      } else if d <= k {
        TriesAll(mask, name, k, q, n, p, d + 1, budget - 1);
      }
    }
  }

  /** The star has p bytes, and d bytes behind them are found to fit. */
  ghost predicate Trying(k: nat, q: nat, n: nat, p: nat, d: nat) {
    p <= q + n - k && d <= if p < q then 0 else if p < q + n - k then k else k + 1
  }

  ghost predicate TryGoes(mask: string, name: string, k: nat, q: nat, n: nat, p: nat, d: nat) {
    var st := State(1 + d, p + d, 1, p, true);
    Trying(k, q, n, p, d) ==>
      Iteration(mask, name, st) ==
      if p < q || (d == k && p < q + n - k) then Next(Restart(st))
      else if d <= k then Next(State(2 + d, p + d + 1, 1, p, true))
      else Done(true)
  }

  lemma AllTriesGo(k: nat, pre: string, n: nat)
    requires 1 <= k <= n && forall i | 0 <= i < |pre| :: Lower(pre[i]) != 'a'
    ensures forall p, d :: TryGoes(HostMask(k), HostName(pre, n), k, |pre|, n, p, d)
  {
    forall p, d ensures TryGoes(HostMask(k), HostName(pre, n), k, |pre|, n, p, d) {
      if Trying(k, |pre|, n, p, d) { OneTry(k, pre, n, p, d); }
    }
  }

  lemma OneTry(k: nat, pre: string, n: nat, p: nat, d: nat)
    requires 1 <= k <= n && p <= |pre| + n - k && forall i | 0 <= i < |pre| :: Lower(pre[i]) != 'a'
    requires d <= if p < |pre| then 0 else if p < |pre| + n - k then k else k + 1
    ensures var st := State(1 + d, p + d, 1, p, true);
            Iteration(HostMask(k), HostName(pre, n), st) ==
            if p < |pre| || (d == k && p < |pre| + n - k) then Next(Restart(st))
            else if d <= k then Next(State(2 + d, p + d + 1, 1, p, true))
            else Done(true)
  {
    var mask, name, q := HostMask(k), HostName(pre, n), |pre|;
    if p < q {
      assert name[p] == pre[p];
    } else if d <= k {
      assert mask[1 + d] == (if d < k then 'a' else 'b') && name[p + d] == if p + d < q + n then 'a' else 'b';
    }
  }

  lemma {:induction false} PassesAtLeast(k: nat, q: nat, n: nat, p: nat, d: nat)
    requires k <= n && p <= q + n - k
    requires d <= if p < q then 0 else if p < q + n - k then k else k + 1
    ensures PassesLeft(k, q, n, p, d) > 0
    decreases q + n - k - p
  {
    if p < q + n - k { PassesAtLeast(k, q, n, p + 1, 0); }
  }

  lemma {:induction false} PassesCounted(k: nat, q: nat, n: nat, p: nat)
    requires k <= n && p <= q + n - k
    ensures PassesLeft(k, q, n, p, 0) ==
            if p < q then q - p + (n - k + 1) * (k + 1) + 1 else (q + n - k - p + 1) * (k + 1) + 1
    decreases q + n - k - p
  {
    if p < q + n - k {
      PassesCounted(k, q, n, p + 1);
      if p >= q { OneMore(q + n - k - p, k + 1); }
    }
  }

  lemma OneMore(r: nat, w: nat)
    ensures (r + 1) * w == r * w + w
  {
  }

  /**
   The mask `*`, k letters and a `b` means every name that ends in k letters or more and a `b`, and the
   matcher accepts such a name exactly if it gets through in its budget.
   */
  lemma {:induction false} BudgetFamily(k: nat, pre: string, n: nat)
    requires 1 <= k <= n && CString(pre) && forall i | 0 <= i < |pre| :: Lower(pre[i]) != 'a'
    ensures Meaning(HostMask(k), HostName(pre, n))
    ensures Result(HostMask(k), HostName(pre, n)) <==> |pre| + (n - k + 1) * (k + 1) + 1 <= MATCH_MAX_CALLS
  {
    var mask, name := HostMask(k), HostName(pre, n);
    var st := State(1, 0, 1, 0, true);
    var enough: nat := |pre| + (n - k + 1) * (k + 1) + 1;
    assert TakeStars(mask, START) == TakeStars(mask, st) == st by {
      assert SkipStars(mask, 0) == SkipStars(mask, 1) == 1;
    }
    SameFromHere(mask, name, START, st, MATCH_MAX_CALLS);
    SameFromHere(mask, name, START, st, enough);
    PassesCounted(k, |pre|, n, 0);
    AllTriesGo(k, pre, n);
    TriesAll(mask, name, k, |pre|, n, 0, 0, MATCH_MAX_CALLS);
    TriesAll(mask, name, k, |pre|, n, 0, 0, enough);
    RunDecides(mask, name, START, enough);
  }

  lemma SameFromHere(mask: string, name: string, st: State, s: State, budget: nat)
    requires TakeStars(mask, st) == TakeStars(mask, s)
    ensures Run(mask, name, st, budget) == Run(mask, name, s, budget)
  {
    assert Iteration(mask, name, st) == Iteration(mask, name, s);
  }

  lemma BudgetMissed(k: nat, pre: string, n: nat, mask: string, name: string)
    requires 1 <= k <= n && CString(pre) && forall i | 0 <= i < |pre| :: Lower(pre[i]) != 'a'
    requires mask == HostMask(k) && name == HostName(pre, n)
    requires |pre| + (n - k + 1) * (k + 1) + 1 > MATCH_MAX_CALLS
    ensures Meaning(mask, name) && !Result(mask, name)
  {
    BudgetFamily(k, pre, n);
  }

  /** A mask of 11 bytes does not match a client of 65 that it means: it would take 525 passes. */
  lemma {:induction false} BudgetExample()
    ensures var mask, name := "*aaaaaaaaab", HostName("n!u@", 60); Meaning(mask, name) && !Result(mask, name)
  {
    assert HostMask(9) == "*aaaaaaaaab";
    BudgetMissed(9, "n!u@", 60, HostMask(9), HostName("n!u@", 60));
  }

  /** One pass through the loop of match. */
  method Iterate(mask: string, name: string, st: State) returns (o: Outcome)
    requires CString(mask) && CString(name) && Invariant(mask, name, st)
    ensures o == Iteration(mask, name, st)
  {
    var m, n, ma, na, wild := st.m, st.n, st.ma, st.na, st.wild;
    TakeStarsKeeps(mask, name, st);
    if At(mask, m) == '*' {
      m := SpinStars(mask, m);
      wild, ma, na := true, m, n;
    }
    if m == |mask| {
      if n == |name| {
        return Done(true);
      }
      if |mask| > 0 {
        var k := StepBack(mask);
        if mask[k] == '*' && k > 0 {
          return Done(true);
        }
      }
      if !wild {
        return Done(false);
      }
      m, na := ma, na + 1;
      n := na;
    } else if n == |name| {
      m := SpinStars(mask, m);
      return Done(m == |mask|);
    }
    o := CompareBytes(mask, name, m, n, ma, na, wild);
  }

  /** The end of a pass: step on, or come back to the last star. */
  method CompareBytes(mask: string, name: string, m: nat, n: nat, ma: nat, na: nat, wild: bool) returns (o: Outcome)
    ensures o == Compare(mask, name, State(m, n, ma, na, wild))
  {
    if !Fits(At(mask, m), At(name, n)) {
      if !wild {
        return Done(false);
      }
      return Next(State(ma, na + 1, ma, na + 1, wild));
    }
    var m', n' := m, n;
    if m < |mask| { m' := m + 1; }
    if n < |name| { n' := n + 1; }
    return Next(State(m', n', ma, na, wild));
  }

  /** match: at most MATCH_MAX_CALLS passes. */
  method Match(mask: string, name: string) returns (r: bool)
    requires CString(mask) && CString(name)
    ensures r <==> Result(mask, name)
    ensures r ==> Meaning(mask, name)
    ensures forall len: nat | StretchesWithin(mask, len) && (|name| + 1) * (len + 1) <= MATCH_MAX_CALLS ::
              r <==> Meaning(mask, name)
  {
    MatchDecides(mask, name);
    r := MatchWithin(mask, name, MATCH_MAX_CALLS);
  }

  method MatchWithin(mask: string, name: string, maxCalls: nat) returns (r: bool)
    requires CString(mask) && CString(name)
    ensures r <==> Run(mask, name, START, maxCalls)
  {
    var st := START;
    var calls := 0;
    while calls < maxCalls
      invariant calls <= maxCalls
      invariant Invariant(mask, name, st)
      invariant Run(mask, name, START, maxCalls) == Run(mask, name, st, maxCalls - calls)
    {
      IterationSound(mask, name, st);
      var o := Iterate(mask, name, st);
      if o.Done? {
        return o.result;
      }
      st, calls := o.state, calls + 1;
    }
    return false;
  }

  method StepBack(mask: string) returns (k: nat)
    requires |mask| > 0
    ensures k == BackOverAny(mask, |mask| - 1) && k < |mask|
  {
    k := |mask| - 1;
    while k > 0 && mask[k] == '?'
      invariant k < |mask| && BackOverAny(mask, k) == BackOverAny(mask, |mask| - 1)
    {
      k := k - 1;
    }
  }

  method SpinStars(mask: string, m: nat) returns (r: nat)
    requires m <= |mask|
    ensures r == SkipStars(mask, m) && r <= |mask|
  {
    r := m;
    while r < |mask| && mask[r] == '*'
      invariant m <= r <= |mask|
      invariant SkipStars(mask, r) == SkipStars(mask, m)
    {
      r := r + 1;
    }
  }

  predicate Exempts(exempt: string, mask: string, ipmask: string)
  {
    Result(exempt, mask) || Result(exempt, ipmask)
  }

  /** scan_checkexempt: some exempt mask matches the host mask or the address mask. */
  method CheckExempt(masks: seq<string>, mask: string, ipmask: string) returns (exempt: bool)
    requires CString(mask) && CString(ipmask)
    requires forall i | 0 <= i < |masks| :: CString(masks[i])
    ensures exempt <==> exists i :: 0 <= i < |masks| && Exempts(masks[i], mask, ipmask)
  {
    for k := 0 to |masks|
      invariant forall i | 0 <= i < k :: !Exempts(masks[i], mask, ipmask)
    {
      var byHost := Match(masks[k], mask);
      if byHost {
        return true;
      }
      var byAddress := Match(masks[k], ipmask);
      if byAddress {
        return true;
      }
    }
    return false;
  }

  /** Nobody is exempt unless some exempt mask really means the client. */
  lemma {:induction false} ExemptionMeant(exempt: string, mask: string, ipmask: string)
    requires CString(exempt) && CString(mask) && CString(ipmask)
    requires Exempts(exempt, mask, ipmask)
    ensures Meaning(exempt, mask) || Meaning(exempt, ipmask)
  {
    MatchDecides(exempt, mask);
    MatchDecides(exempt, ipmask);
  }
}
