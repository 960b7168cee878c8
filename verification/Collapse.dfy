/** Reducing runs of stars in a mask to single stars, in place. */
module Collapse {
  import opened Glob

  function Collapsed(s: string): string {
    if s == [] then []
    else if |s| > 1 && s[0] == '*' && s[1] == '*' then Collapsed(s[1..])
    else [s[0]] + Collapsed(s[1..])
  }

  ghost predicate NoAdjacentStars(s: string) {
    forall i | 0 <= i < |s| - 1 :: !(s[i] == '*' && s[i + 1] == '*')
  }

  /** s is c with some of its stars repeated. */
  ghost predicate Expands(c: string, s: string)
    decreases |s|
  {
    || (c == [] && s == [])
    || (c != [] && s != [] && c[0] == s[0] && Expands(c[1..], s[1..]))
    || (c != [] && |s| > 1 && c[0] == '*' && s[0] == '*' && s[1] == '*' && Expands(c, s[1..]))
  }

  /** Collapsing leaves no two stars side by side and changes nothing but runs of stars. */
  lemma {:induction false} CollapsedReduces(s: string)
    ensures NoAdjacentStars(Collapsed(s))
    ensures Expands(Collapsed(s), s)
    ensures s != [] ==> Collapsed(s) != [] && Collapsed(s)[0] == s[0]
  {
    if s != [] {
      CollapsedReduces(s[1..]);
    }
  }

  /** There is only one way to do that. */
  lemma {:induction false} CollapsedUnique(c: string, s: string)
    requires NoAdjacentStars(c) && Expands(c, s)
    ensures c == Collapsed(s)
    decreases |s|
  {
    if s != [] {
      if |s| > 1 && s[0] == '*' && s[1] == '*' {
        if c[0] == s[0] && Expands(c[1..], s[1..]) {
          ExpandsStart(c[1..], s[1..]);
          assert false;
        } else {
          CollapsedUnique(c, s[1..]);
        }
      } else {
        CollapsedUnique(c[1..], s[1..]);
      }
    }
  }

  lemma ExpandsStart(c: string, s: string)
    requires s != [] && Expands(c, s)
    ensures c != [] && c[0] == s[0]
  {
  }

  lemma {:induction false} ExpandsSelf(s: string)
    ensures Expands(s, s)
  {
    if s != [] { ExpandsSelf(s[1..]); }
  }

  lemma {:induction false} CollapsedIdempotent(s: string)
    ensures Collapsed(Collapsed(s)) == Collapsed(s)
  {
    CollapsedReduces(s);
    ExpandsSelf(Collapsed(s));
    CollapsedUnique(Collapsed(s), Collapsed(s));
  }

  // ---- The mask keeps its meaning ----

  /** The meaning of a mask from place i is that of its tail. */
  lemma {:induction false} MatchesTail(mask: string, tail: string, name: string, i: nat, d: nat, j: nat)
    requires d <= |mask| && tail == mask[d..] && i <= |tail| && j <= |name|
    ensures Matches(mask, name, d + i, j) <==> Matches(tail, name, i, j)
    decreases |tail| - i + |name| - j
  {
    if i < |tail| {
      assert tail[i] == mask[d + i];
      MatchesTail(mask, tail, name, i + 1, d, j);
      if j < |name| {
        MatchesTail(mask, tail, name, i, d, j + 1);
        MatchesTail(mask, tail, name, i + 1, d, j + 1);
      }
    }
  }

  /** Two masks with the same first byte mean the same wherever their tails do. */
  lemma {:induction false} SameHead(c: string, s: string, name: string, j: nat)
    requires c != [] && s != [] && c[0] == s[0] && j <= |name|
    requires forall k | 0 <= k <= |name| :: Matches(c[1..], name, 0, k) <==> Matches(s[1..], name, 0, k)
    ensures Matches(c, name, 0, j) <==> Matches(s, name, 0, j)
    decreases |name| - j
  {
    MatchesTail(c, c[1..], name, 0, 1, j);
    MatchesTail(s, s[1..], name, 0, 1, j);
    if j < |name| {
      SameHead(c, s, name, j + 1);
      MatchesTail(c, c[1..], name, 0, 1, j + 1);
      MatchesTail(s, s[1..], name, 0, 1, j + 1);
    }
  }

  /** A second star in a row adds nothing. */
  lemma {:induction false} DoubleStar(s: string, name: string, j: nat)
    requires |s| > 1 && s[0] == '*' && s[1] == '*' && j <= |name|
    ensures Matches(s, name, 0, j) <==> Matches(s[1..], name, 0, j)
    decreases |name| - j
  {
    MatchesTail(s, s[1..], name, 0, 1, j);
    if j < |name| {
      DoubleStar(s, name, j + 1);
      assert Matches(s[1..], name, 0, j + 1) ==> Matches(s[1..], name, 0, j);
    }
  }

  lemma {:induction false} CollapsedMatches(s: string, name: string, j: nat)
    requires j <= |name|
    ensures Matches(Collapsed(s), name, 0, j) <==> Matches(s, name, 0, j)
    decreases |s|
  {
    if s != [] {
      if |s| > 1 && s[0] == '*' && s[1] == '*' {
        DoubleStar(s, name, j);
        CollapsedMatches(s[1..], name, j);
      } else {
        forall k | 0 <= k <= |name|
          ensures Matches(Collapsed(s[1..]), name, 0, k) <==> Matches(s[1..], name, 0, k)
        {
          CollapsedMatches(s[1..], name, k);
        }
        assert Collapsed(s)[1..] == Collapsed(s[1..]);
        SameHead(Collapsed(s), s, name, j);
      }
    }
  }

  /** A collapsed mask matches exactly the names the mask matches. */
  lemma {:induction false} CollapsedMeansSame(s: string)
    ensures forall name :: Meaning(Collapsed(s), name) <==> Meaning(s, name)
  {
    forall name ensures Meaning(Collapsed(s), name) <==> Meaning(s, name) {
      CollapsedMatches(s, name, 0);
    }
  }

  // ---- In place, in a terminated buffer ----

  /** The buffer holds a string of len bytes and its terminator. */
  ghost predicate Holds(a: array<char>, len: nat)
    reads a
  {
    len < a.Length && a[len] == '\0' && '\0' !in a[..len]
  }

  /** Copy the text from t, terminator included, down to s1. */
  method ShiftDown(a: array<char>, s1: nat, t: nat, ghost len: nat)
    requires Holds(a, len) && s1 <= t <= len
    modifies a
    ensures Holds(a, len - (t - s1))
    ensures a[..s1] == old(a[..s1])
    ensures a[s1..len - (t - s1)] == old(a[t..len])
  {
    ghost var o := a[..];
    assert o[..len] == a[..len];
    assert forall k | 0 <= k < len :: a[k] == o[..len][k];
    CopyDown(a, s1, t, len);
    Shifted(a[..], o, s1, t, len);
  }

  method CopyDown(a: array<char>, s1: nat, t: nat, ghost len: nat)
    requires s1 <= t <= len < a.Length && a[len] == '\0' && forall k | 0 <= k < len :: a[k] != '\0'
    modifies a
    ensures forall k | 0 <= k < s1 :: a[k] == old(a[k])
    ensures forall k | s1 <= k <= len - (t - s1) :: a[k] == old(a[k + (t - s1)])
  {
    ghost var d := t - s1;
    var i, j, copied := s1, t, false;
    while !copied
      invariant s1 <= i && j == i + d && (if copied then j == len + 1 else j <= len)
      invariant forall k | 0 <= k < s1 :: a[k] == old(a[k])
      invariant forall k | s1 <= k < i :: a[k] == old(a[k + d])
      invariant forall k | i <= k < a.Length :: a[k] == old(a[k])
      decreases len + 1 - j
    {
      copied := a[j] == '\0';
      a[i] := a[j];
      i, j := i + 1, j + 1;
    }
  }

  /** What the copy leaves in the buffer, as text. */
  lemma Shifted(now: string, o: string, s1: nat, t: nat, len: nat)
    requires |now| == |o| && s1 <= t <= len < |o| && o[len] == '\0' && '\0' !in o[..len]
    requires forall k | 0 <= k < s1 :: now[k] == o[k]
    requires forall k | s1 <= k <= len - (t - s1) :: now[k] == o[k + (t - s1)]
    ensures var end := len - (t - s1);
            now[end] == '\0' && '\0' !in now[..end] && now[..s1] == o[..s1] && now[s1..end] == o[t..len]
  {
    var end := len - (t - s1);
    assert now[..s1] == o[..s1];
    assert now[s1..end] == o[t..len];
    assert now[..end] == o[..s1] + o[t..len];
    assert o[..len] == o[..s1] + o[s1..t] + o[t..len];
  }

  /** A run of stars collapses to one. */
  lemma {:induction false} CollapsedRun(s: string, r: nat)
    requires 0 < r <= |s| && (forall k | 0 <= k < r :: s[k] == '*') && (r < |s| ==> s[r] != '*')
    ensures Collapsed(s) == ['*'] + Collapsed(s[r..])
  {
    if r > 1 {
      CollapsedRun(s[1..], r - 1);
      assert s[1..][r - 1..] == s[r..];
    }
  }

  /** Squeeze the run of stars that starts at s. */
  method SqueezeRun(a: array<char>, s: nat, ghost len: nat) returns (ghost end: nat)
    requires Holds(a, len) && s < len && a[s] == '*'
    modifies a
    ensures Holds(a, end) && s < end <= len
    ensures a[..s + 1] == old(a[..s + 1])
    ensures old(Collapsed(a[s..len])) == ['*'] + Collapsed(a[s + 1..end])
  {
    var s1 := s + 1;
    var t := s1;
    while a[t] == '*'
      invariant s1 <= t <= len
      invariant forall k | s <= k < t :: a[k] == '*'
      decreases len - t
    {
      t := t + 1;
    }
    CollapsedRun(a[s..len], t - s);
    assert a[s..len][t - s..] == a[t..len];
    end := len;
    if s1 != t {
      ShiftDown(a, s1, t, len);
      end := len - (t - s1);
    }
  }

  /** collapse: the buffer ends up holding the collapsed mask. */
  method CollapseInPlace(a: array<char>, ghost len: nat) returns (ghost end: nat)
    requires Holds(a, len)
    modifies a
    ensures Holds(a, end)
    ensures a[..end] == Collapsed(old(a[..len]))
  {
    var s := 0;
    end := len;
    while a[s] != '\0'
      invariant Holds(a, end) && s <= end
      invariant Collapsed(old(a[..len])) == a[..s] + Collapsed(a[s..end])
      decreases end - s
    {
      assert a[..s + 1] == a[..s] + [a[s]];
      if a[s] == '*' {
        end := SqueezeRun(a, s, end);
      } else {
        assert a[s..end][1..] == a[s + 1..end];
      }
      s := s + 1;
    }
    assert a[s..end] == [];
  }
}
