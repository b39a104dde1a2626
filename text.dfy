/** The Python string operations the bot relies on: substring test (`p in s`),
    `str.replace`, `str.split` and `str.join`, for a non-empty pattern. */
module Text {

  /** `p` occurs in `s` starting at index `i`. */
  predicate OccursAt(s: string, p: string, i: nat) {
    i + |p| <= |s| && s[i..i + |p|] == p
  }

  /** Python's `p in s`. */
  predicate Contains(s: string, p: string) {
    exists i: nat | i <= |s| :: OccursAt(s, p, i)
  }

  /** An occurrence in the tail of `s` is an occurrence in `s`, one index on. */
  lemma ContainsTail(s: string, p: string)
    requires |s| > 0
    ensures Contains(s[1..], p) ==> Contains(s, p)
  {
    if Contains(s[1..], p) {
      var t := s[1..];
      var i: nat :| i <= |t| && OccursAt(t, p, i);
      assert t[i..i + |p|] == s[i + 1..i + 1 + |p|];
      assert OccursAt(s, p, i + 1);
    }
  }

  /** Python's `s.replace(p, r)`: every occurrence of `p`, found left to right
      without overlap, is replaced by `r`. */
  function ReplaceAll(s: string, p: string, r: string): string
    requires p != []
    decreases |s|
  {
    if |s| < |p| then s
    else if s[..|p|] == p then r + ReplaceAll(s[|p|..], p, r)
    else [s[0]] + ReplaceAll(s[1..], p, r)
  }

  /** Text in which `p` does not occur is left unchanged by the replacement. */
  lemma {:induction false} ReplaceAbsent(s: string, p: string, r: string)
    requires p != []
    ensures !Contains(s, p) ==> ReplaceAll(s, p, r) == s
    decreases |s|
  {
    if |s| >= |p| && !Contains(s, p) {
      assert !OccursAt(s, p, 0);
      ContainsTail(s, p);
      ReplaceAbsent(s[1..], p, r);
    }
  }

  /** One step of the replacement, unfolded. */
  lemma ReplaceAllStep(s: string, p: string, r: string)
    requires p != [] && |s| >= |p|
    ensures s[..|p|] == p ==> ReplaceAll(s, p, r) == r + ReplaceAll(s[|p|..], p, r)
    ensures s[..|p|] != p ==> ReplaceAll(s, p, r) == [s[0]] + ReplaceAll(s[1..], p, r)
  {
  }

  /** A non-empty prefix of `[c] + t` is `c` followed by a prefix of `t`. */
  lemma ConsPrefix(c: char, t: string, w: string)
    requires |w| >= 1
    ensures w <= [c] + t <==> w[0] == c && w[1..] <= t
  {
    if w[0] == c && w[1..] <= t {
      assert w == [c] + w[1..];
    }
  }

  /** An occurrence in `b` is one in `a + b`, `|a|` indices on. */
  lemma ContainsAfter(a: string, b: string, p: string)
    ensures Contains(b, p) ==> Contains(a + b, p)
  {
    if Contains(b, p) {
      var i: nat :| i <= |b| && OccursAt(b, p, i);
      assert (a + b)[|a| + i..|a| + i + |p|] == b[i..i + |p|];
      assert OccursAt(a + b, p, |a| + i);
    }
  }

  /** A prefix of `s` in which no occurrence of `p` starts is copied to the
      start of `s.replace(p, r)`. */
  lemma {:induction false} ReplaceKeepsPrefix(s: string, p: string, r: string, w: string)
    requires p != [] && w <= s
    requires forall i: nat | i < |w| :: !OccursAt(s, p, i)
    ensures w <= ReplaceAll(s, p, r)
    decreases |w|
  {
    if w != [] && |s| >= |p| {
      assert !OccursAt(s, p, 0);
      ReplaceAllStep(s, p, r);
      forall i: nat | i < |w| - 1
        ensures !OccursAt(s[1..], p, i)
      {
        assert !OccursAt(s, p, i + 1);
        if i + |p| <= |s| - 1 {
          assert s[1..][i..i + |p|] == s[i + 1..i + 1 + |p|];
        }
      }
      ReplaceKeepsPrefix(s[1..], p, r, w[1..]);
      ConsPrefix(s[0], ReplaceAll(s[1..], p, r), w);
    }
  }

  /** Dropping the first `d` characters keeps an occurrence of `q` at or after
      `d`, and keeps it free of overlapping occurrences of `p`. */
  lemma DropKeepsFreeOccurrence(s: string, p: string, q: string, j: nat, d: nat)
    requires d <= j && OccursAt(s, q, j)
    requires forall i: nat | i < j + |q| && j < i + |p| :: !OccursAt(s, p, i)
    ensures OccursAt(s[d..], q, j - d)
    ensures forall i: nat | i < j - d + |q| && j - d < i + |p| :: !OccursAt(s[d..], p, i)
  {
    var t := s[d..];
    assert t[j - d..j - d + |q|] == s[j..j + |q|];
    forall i: nat | i < j - d + |q| && j - d < i + |p|
      ensures !OccursAt(t, p, i)
    {
      assert !OccursAt(s, p, i + d);
      if i + |p| <= |t| {
        assert t[i..i + |p|] == s[i + d..i + d + |p|];
      }
    }
  }

  /** An occurrence of `q` that no occurrence of `p` overlaps is still there
      after `s.replace(p, r)`. */
  lemma {:induction false} ReplaceKeepsOccurrence(s: string, p: string, r: string, q: string, j: nat)
    requires p != [] && q != [] && OccursAt(s, q, j)
    requires forall i: nat | i < j + |q| && j < i + |p| :: !OccursAt(s, p, i)
    ensures Contains(ReplaceAll(s, p, r), q)
    decreases |s|
  {
    if j == 0 {
      ReplaceKeepsPrefix(s, p, r, q);
      assert OccursAt(ReplaceAll(s, p, r), q, 0);
    } else if |s| < |p| {
      assert OccursAt(ReplaceAll(s, p, r), q, j);
    } else if s[..|p|] == p {
      assert |p| <= j by {
        assert OccursAt(s, p, 0);
      }
      DropKeepsFreeOccurrence(s, p, q, j, |p|);
      ReplaceKeepsOccurrence(s[|p|..], p, r, q, j - |p|);
      ReplaceAllStep(s, p, r);
      ContainsAfter(r, ReplaceAll(s[|p|..], p, r), q);
    } else {
      DropKeepsFreeOccurrence(s, p, q, j, 1);
      ReplaceKeepsOccurrence(s[1..], p, r, q, j - 1);
      ReplaceAllStep(s, p, r);
      ContainsAfter([s[0]], ReplaceAll(s[1..], p, r), q);
    }
  }

  /** Python's `s.split(p)`: the pieces between the occurrences of `p`.
      There is always at least one piece, the first is a prefix of `s`, and no
      piece contains `p`. */
  function Split(s: string, p: string): (pieces: seq<string>)
    requires p != []
    ensures |pieces| >= 1 && pieces[0] <= s
    ensures forall k :: 0 <= k < |pieces| ==> !Contains(pieces[k], p)
    decreases |s|
  {
    if |s| < |p| then [s]
    else if s[..|p|] == p then [[]] + Split(s[|p|..], p)
    else
      var rest := Split(s[1..], p);
      HeadPieceFree(s, p, rest[0]);
      [[s[0]] + rest[0]] + rest[1..]
  }

  /** A piece that starts where `p` does not occur, extended from the tail, stays free of `p`. */
  lemma HeadPieceFree(s: string, p: string, x: string)
    requires p != [] && |s| >= |p| && s[..|p|] != p
    requires x <= s[1..] && !Contains(x, p)
    ensures !Contains([s[0]] + x, p)
  {
    var y := [s[0]] + x;
    assert y <= s;
    forall i: nat
      ensures !OccursAt(y, p, i)
    {
      if i == 0 && |p| <= |y| {
        assert y[..|p|] == s[..|p|];
      } else if 0 < i && i + |p| <= |y| {
        assert y[i..i + |p|] == x[i - 1..i - 1 + |p|];
        assert !OccursAt(x, p, i - 1);
      }
    }
  }

  /** Python's `sep.join(pieces)` for a non-empty list. */
  function Join(pieces: seq<string>, sep: string): string
    requires |pieces| >= 1
    decreases |pieces|
  {
    if |pieces| == 1 then pieces[0] else pieces[0] + sep + Join(pieces[1..], sep)
  }

  /** The first piece starts the joined string. */
  lemma {:induction false} JoinStartsWithFirst(pieces: seq<string>, sep: string)
    requires |pieces| >= 1
    ensures pieces[0] <= Join(pieces, sep)
  {
  }

  /** Joining one more piece appends the separator and the piece. */
  lemma {:induction false} JoinAppend(pieces: seq<string>, x: string, sep: string)
    requires |pieces| >= 1
    ensures Join(pieces + [x], sep) == Join(pieces, sep) + sep + x
    decreases |pieces|
  {
    var q := pieces + [x];
    if |pieces| > 1 {
      assert q[1..] == pieces[1..] + [x];
      JoinAppend(pieces[1..], x, sep);
    }
  }

  lemma JoinHead(c: char, pieces: seq<string>, sep: string)
    requires |pieces| >= 1
    ensures Join([[c] + pieces[0]] + pieces[1..], sep) == [c] + Join(pieces, sep)
  {
    var q := [[c] + pieces[0]] + pieces[1..];
    assert q[1..] == pieces[1..];
  }

  /** `s.replace(p, r) == r.join(s.split(p))`: every occurrence of `p` is replaced. */
  lemma {:induction false} ReplaceIsJoinOfSplit(s: string, p: string, r: string)
    requires p != []
    ensures ReplaceAll(s, p, r) == Join(Split(s, p), r)
    decreases |s|
  {
    if |s| < |p| {
    } else if s[..|p|] == p {
      var rest := Split(s[|p|..], p);
      ReplaceIsJoinOfSplit(s[|p|..], p, r);
      assert ([[]] + rest)[1..] == rest;
    } else {
      ReplaceIsJoinOfSplit(s[1..], p, r);
      JoinHead(s[0], Split(s[1..], p), r);
    }
  }

  /** `p.join(s.split(p)) == s`: the pieces and the occurrences make up `s`. */
  lemma {:induction false} JoinOfSplit(s: string, p: string)
    requires p != []
    ensures Join(Split(s, p), p) == s
    decreases |s|
  {
    if |s| < |p| {
    } else if s[..|p|] == p {
      var rest := Split(s[|p|..], p);
      JoinOfSplit(s[|p|..], p);
      assert ([[]] + rest)[1..] == rest;
      assert s == s[..|p|] + s[|p|..];
    } else {
      JoinOfSplit(s[1..], p);
      JoinHead(s[0], Split(s[1..], p), p);
      assert s == [s[0]] + s[1..];
    }
  }
}
