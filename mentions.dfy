/** User mentions in Slack message text: the tokens `<@U…>` that
    `re.findall(r"<@(U[A-Z0-9]+)>", text)` finds, scanning left to right
    without overlap. */
module Mentions {
  import opened SlackData
  import opened Text

  /** A character of the class `[A-Z0-9]`. */
  predicate IsIdChar(c: char) {
    'A' <= c <= 'Z' || '0' <= c <= '9'
  }

  /** A user id the pattern captures: `U` followed by one or more of `[A-Z0-9]`. */
  predicate ValidId(id: string) {
    |id| >= 2 && id[0] == 'U' && forall k :: 0 <= k < |id| ==> IsIdChar(id[k])
  }

  /** The mention token `<@id>` of a user id. */
  function MentionToken(id: string): string {
    "<@" + id + ">"
  }

  /** The text holds the mention token of some valid user id. */
  ghost predicate HasMention(s: string) {
    exists id: string :: ValidId(id) && Contains(s, MentionToken(id))
  }

  /** The length of the run of `[A-Z0-9]` characters that starts at index `i`:
      every character of the run is in the class, the one after it is not. */
  function RunFrom(s: string, i: nat): (n: nat)
    requires i <= |s|
    ensures i + n <= |s|
    ensures forall k :: i <= k < i + n ==> IsIdChar(s[k])
    ensures i + n == |s| || !IsIdChar(s[i + n])
    decreases |s| - i
  {
    if i < |s| && IsIdChar(s[i]) then 1 + RunFrom(s, i + 1) else 0
  }

  /** A run of class characters ending at the end of the text or at a
      character outside the class has exactly the length `RunFrom` gives. */
  lemma {:induction false} RunFromIs(s: string, i: nat, m: nat)
    requires i + m <= |s|
    requires forall k :: i <= k < i + m ==> IsIdChar(s[k])
    requires i + m == |s| || !IsIdChar(s[i + m])
    ensures RunFrom(s, i) == m
    decreases m
  {
    if m > 0 {
      RunFromIs(s, i + 1, m - 1);
    }
  }

  /** A `<@U` at `i` followed by a run of `n` class characters and a `>`
      is the token of a valid id. */
  lemma MatchedToken(s: string, i: nat, n: nat)
    requires 1 <= n && i + 3 + n < |s| && s[i..i + 3] == "<@U" && s[i + 3 + n] == '>'
    requires forall k :: i + 3 <= k < i + 3 + n ==> IsIdChar(s[k])
    ensures ValidId(s[i + 2..i + 3 + n]) && OccursAt(s, MentionToken(s[i + 2..i + 3 + n]), i)
  {
    var id := s[i + 2..i + 3 + n];
    assert s[i] == '<' && s[i + 1] == '@' && s[i + 2] == 'U' by {
      assert s[i..i + 3][0] == s[i] && s[i..i + 3][1] == s[i + 1] && s[i..i + 3][2] == s[i + 2];
    }
    assert forall k :: 0 <= k < |id| ==> IsIdChar(id[k]) by {
      forall k | 0 <= k < |id| ensures IsIdChar(id[k]) {
        assert id[k] == s[i + 2 + k];
      }
    }
    assert s[i..i + |MentionToken(id)|] == MentionToken(id) by {
      assert |MentionToken(id)| == n + 4;
      forall k | 0 <= k < n + 4 ensures s[i..i + n + 4][k] == MentionToken(id)[k] {
        if 2 <= k < n + 3 {
          assert MentionToken(id)[k] == id[k - 2];
        }
      }
    }
  }

  /** What the pattern matches when the scan tries it at index `i`: the
      greedy `[A-Z0-9]+` run after `<@U` must be followed by `>`. */
  function MatchAt(s: string, i: nat): (m: Option<string>)
    requires i <= |s|
    ensures m.Some? ==> ValidId(m.value) && OccursAt(s, MentionToken(m.value), i)
  {
    if i + 3 <= |s| && s[i..i + 3] == "<@U" then
      var n := RunFrom(s, i + 3);
      if n >= 1 && i + 3 + n < |s| && s[i + 3 + n] == '>' then
        MatchedToken(s, i, n);
        Some(s[i + 2..i + 3 + n])
      else
        None
    else
      None
  }

  /** The pattern matches at `i` exactly when the token of a valid id occurs there. */
  lemma MatchAtComplete(s: string, i: nat, id: string)
    requires i <= |s|
    requires ValidId(id) && OccursAt(s, MentionToken(id), i)
    ensures MatchAt(s, i) == Some(id)
  {
    var tok := MentionToken(id);
    assert forall k :: 0 <= k < |tok| ==> s[i + k] == tok[k] by {
      assert s[i..i + |tok|] == tok;
    }
    assert s[i..i + 3] == "<@U" by {
      assert s[i..i + 3] == tok[..3];
    }
    assert forall k :: i + 3 <= k < i + 2 + |id| ==> IsIdChar(s[k]) by {
      forall k | i + 3 <= k < i + 2 + |id| ensures IsIdChar(s[k]) {
        assert s[k] == tok[k - i] == id[k - i - 2];
      }
    }
    assert s[i + 2 + |id|] == tok[2 + |id|] == '>';
    RunFromIs(s, i + 3, |id| - 1);
    assert s[i + 2..i + 3 + (|id| - 1)] == tok[2..2 + |id|] == id;
  }

  /** Two mention tokens never overlap: a token has no `<` after its first character. */
  lemma NoOverlap(s: string, i: nat, id: string, j: nat)
    requires ValidId(id) && OccursAt(s, MentionToken(id), i)
    requires i < j < |s| && s[j] == '<'
    ensures i + |MentionToken(id)| <= j
  {
    var tok := MentionToken(id);
    assert forall k :: 1 <= k < |tok| ==> tok[k] != '<';
    assert forall k :: 0 <= k < |tok| ==> s[i + k] == tok[k] by {
      assert s[i..i + |tok|] == tok;
    }
  }

  /** The token of a valid id and the token `<@x>` of a text `x` without
      angle brackets that the pattern does not capture never overlap: each
      starts with its only `<` and ends at its first `>`. */
  lemma TokensApart(s: string, id: string, x: string, i: nat, j: nat)
    requires ValidId(id) && !ValidId(x)
    requires forall k :: 0 <= k < |x| ==> x[k] != '<' && x[k] != '>'
    ensures OccursAt(s, MentionToken(id), i) && OccursAt(s, MentionToken(x), j) ==>
      i + |MentionToken(id)| <= j || j + |MentionToken(x)| <= i
  {
    var p, q := MentionToken(id), MentionToken(x);
    assert forall k :: 1 <= k < |p| ==> p[k] != '<';
    assert forall k :: 1 <= k < |q| ==> q[k] != '<';
    assert forall k :: 0 <= k < |p| - 1 ==> p[k] != '>';
    assert forall k :: 0 <= k < |q| - 1 ==> q[k] != '>';
    assert p[0] == q[0] == '<' && p[|p| - 1] == q[|q| - 1] == '>';
    assert p[2..|p| - 1] == id && q[2..|q| - 1] == x;
    if OccursAt(s, p, i) && OccursAt(s, q, j) {
      assert forall k :: 0 <= k < |p| ==> s[i + k] == p[k] by {
        assert s[i..i + |p|] == p;
      }
      assert forall k :: 0 <= k < |q| ==> s[j + k] == q[k] by {
        assert s[j..j + |q|] == q;
      }
      assert s[i] == s[j] == '<' && s[i + |p| - 1] == s[j + |q| - 1] == '>';
      assert forall m :: i < m < i + |p| ==> s[m] != '<' by {
        assert forall m :: i < m < i + |p| ==> s[m] == p[m - i];
      }
      assert forall m :: j < m < j + |q| ==> s[m] != '<' by {
        assert forall m :: j < m < j + |q| ==> s[m] == q[m - j];
      }
      assert forall m :: i <= m < i + |p| - 1 ==> s[m] != '>' by {
        assert forall m :: i <= m < i + |p| - 1 ==> s[m] == p[m - i];
      }
      assert forall m :: j <= m < j + |q| - 1 ==> s[m] != '>' by {
        assert forall m :: j <= m < j + |q| - 1 ==> s[m] == q[m - j];
      }
    }
  }

  /** `re.findall` from index `i` on: the ids of the matches, left to right. */
  function FindFrom(s: string, i: nat): seq<string>
    requires i <= |s|
    decreases |s| - i
  {
    if i == |s| then []
    else
      match MatchAt(s, i)
      case Some(id) => [id] + FindFrom(s, i + |MentionToken(id)|)
      case None => FindFrom(s, i + 1)
  }

  /** Every id the scan finds is valid and its token occurs in the text. */
  lemma {:induction false} FindFromSound(s: string, i: nat)
    requires i <= |s|
    ensures forall k :: 0 <= k < |FindFrom(s, i)| ==>
      ValidId(FindFrom(s, i)[k]) && Contains(s, MentionToken(FindFrom(s, i)[k]))
    decreases |s| - i
  {
    if i < |s| {
      FindFromStep(s, i);
      var m := MatchAt(s, i);
      if m.Some? {
        FindFromSound(s, i + |MentionToken(m.value)|);
      } else {
        FindFromSound(s, i + 1);
      }
    }
  }

  /** `re.findall(r"<@(U[A-Z0-9]+)>", s)`: the captured ids, in order, with repetitions. */
  function FindMentions(s: string): seq<string> {
    FindFrom(s, 0)
  }

  /** One step of the scan: a match at `i` is taken and the scan resumes after its token. */
  lemma FindFromStep(s: string, i: nat)
    requires i < |s|
    ensures MatchAt(s, i).Some? ==> FindFrom(s, i) == [MatchAt(s, i).value] + FindFrom(s, i + |MentionToken(MatchAt(s, i).value)|)
    ensures MatchAt(s, i).None? ==> FindFrom(s, i) == FindFrom(s, i + 1)
  {
  }

  /** A match taken before a token's start ends at or before that start. */
  lemma MatchEndsBefore(s: string, i: nat, j: nat, id: string)
    requires i < j && ValidId(id) && OccursAt(s, MentionToken(id), j)
    ensures MatchAt(s, i).Some? ==> i + |MentionToken(MatchAt(s, i).value)| <= j
  {
    var m := MatchAt(s, i);
    if m.Some? {
      var tok := MentionToken(id);
      assert s[j] == tok[0] by {
        assert s[j..j + |tok|] == tok;
      }
      NoOverlap(s, i, m.value, j);
    }
  }

  /** The scan from `i` finds every valid token that occurs at or after `i`. */
  lemma {:induction false} FindFromComplete(s: string, i: nat, j: nat, id: string)
    requires i <= j && ValidId(id) && OccursAt(s, MentionToken(id), j)
    ensures id in FindFrom(s, i)
    decreases |s| - i
  {
    var m := MatchAt(s, i);
    FindFromKeeps(s, i, id);
    if i == j {
      assert m == Some(id) by {
        MatchAtComplete(s, i, id);
      }
    } else if m.Some? {
      var next := i + |MentionToken(m.value)|;
      assert next <= j by {
        MatchEndsBefore(s, i, j, id);
      }
      FindFromComplete(s, next, j, id);
    } else {
      FindFromComplete(s, i + 1, j, id);
    }
  }

  /** What one step of the scan keeps: the id matched at `i`, and every id
      the scan finds from where it resumes. */
  lemma FindFromKeeps(s: string, i: nat, id: string)
    requires i < |s|
    ensures MatchAt(s, i) == Some(id) ==> id in FindFrom(s, i)
    ensures MatchAt(s, i).Some? && id in FindFrom(s, i + |MentionToken(MatchAt(s, i).value)|) ==> id in FindFrom(s, i)
    ensures MatchAt(s, i).None? && id in FindFrom(s, i + 1) ==> id in FindFrom(s, i)
  {
    FindFromStep(s, i);
  }

  /** An id is among the matches exactly when it is a valid id whose mention
      token occurs in the text: the scan is sound and misses nothing. */
  lemma FoundIff(s: string, id: string)
    ensures id in FindMentions(s) <==> ValidId(id) && Contains(s, MentionToken(id))
  {
    FindFromSound(s, 0);
    if ValidId(id) && Contains(s, MentionToken(id)) {
      var tok := MentionToken(id);
      var j: nat :| j <= |s| && OccursAt(s, tok, j);
      FindFromComplete(s, 0, j, id);
    }
  }

  /** Text without any mention token gives no matches, and conversely. */
  lemma NoMatchesIff(s: string)
    ensures FindMentions(s) == [] <==> !HasMention(s)
  {
    var ids := FindMentions(s);
    FindFromSound(s, 0);
    if ids != [] {
      assert ValidId(ids[0]) && Contains(s, MentionToken(ids[0]));
    }
    forall id: string | ValidId(id) && Contains(s, MentionToken(id))
      ensures ids != []
    {
      FoundIff(s, id);
    }
  }
}
