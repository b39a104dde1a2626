/** `translate_mentions_to_names`: every mention token `<@U…>` found in the
    original text is replaced, everywhere, by `@` and the user's real name. */
module Translation {
  import opened SlackData
  import opened Text
  import opened Mentions
  import opened Identity

  /** The loop of `translate_mentions_to_names` over the matched ids `ids`,
      from the current `text` and `cache`: each id is resolved through the
      cache (an exception ends the loop) and, when the name is not `None`,
      every occurrence of its token in the current text is replaced. A
      coherent cache stays coherent. */
  function TranslateFrom(users: Directory, cache: map<string, UserInfo>, text: string, ids: seq<string>): (s: Step<string>)
    ensures Coherent(users, cache) ==> Coherent(users, s.cache)
    decreases |ids|
  {
    if ids == [] then Step(Ok(text), cache, [])
    else
      var n := NameLookup(users, cache, ids[0]);
      match n.result
      case Err(e) => Step(Err(e), n.cache, n.fetched)
      case Ok(name) =>
        var rest := TranslateFrom(users, n.cache, Resolve(text, ids[0], name), ids[1..]);
        Step(rest.result, rest.cache, n.fetched + rest.fetched)
  }

  /** What the loop does to the cache and which `users.info` calls it makes:
      cached entries never change; only matched ids that were not cached are
      asked about, each at most once; on success every matched id is cached. */
  lemma {:induction false} TranslateFromCalls(users: Directory, cache: map<string, UserInfo>, text: string, ids: seq<string>)
    ensures var s := TranslateFrom(users, cache, text, ids);
      && (forall k :: k in cache ==> k in s.cache && s.cache[k] == cache[k])
      && (forall k :: 0 <= k < |s.fetched| ==> s.fetched[k] in ids && s.fetched[k] !in cache)
      && (forall j, k :: 0 <= j < k < |s.fetched| ==> s.fetched[j] != s.fetched[k])
      && (s.result.Ok? ==> forall k :: 0 <= k < |ids| ==> ids[k] in s.cache)
    decreases |ids|
  {
    if ids != [] {
      var n := NameLookup(users, cache, ids[0]);
      if n.result.Ok? {
        var text' := Resolve(text, ids[0], n.result.value);
        var rest := TranslateFrom(users, n.cache, text', ids[1..]);
        TranslateFromCalls(users, n.cache, text', ids[1..]);
        assert forall k :: 0 <= k < |rest.fetched| ==> rest.fetched[k] != ids[0];
        assert forall k :: 0 <= k < |rest.fetched| ==> rest.fetched[k] in ids by {
          forall k | 0 <= k < |rest.fetched| ensures rest.fetched[k] in ids {
            assert rest.fetched[k] in ids[1..];
          }
        }
        assert rest.result.Ok? ==> forall k :: 0 <= k < |ids| ==> ids[k] in rest.cache by {
          if rest.result.Ok? {
            forall k | 0 <= k < |ids| ensures ids[k] in rest.cache {
              if k > 0 { assert ids[k] == ids[1..][k - 1]; }
            }
          }
        }
      }
    }
  }

  /** One replacement of the loop: a name that is not `None` replaces every
      occurrence of the id's token. */
  function Resolve(text: string, id: string, name: Option<string>): string {
    if name.Some? then ReplaceAll(text, MentionToken(id), "@" + name.value) else text
  }

  /** One turn of the loop, after the calls `log`: the lookup of the first
      id either ends the translation with its exception or leaves the rest of
      the ids to translate from the resolved text. */
  lemma TranslateFromStep(users: Directory, cache: map<string, UserInfo>, text: string, ids: seq<string>, log: seq<string>)
    requires ids != []
    ensures var n := NameLookup(users, cache, ids[0]);
      var goal := After(log, TranslateFrom(users, cache, text, ids));
      && (n.result.Err? ==> goal == Step(Err(n.result.error), n.cache, log + n.fetched))
      && (n.result.Ok? ==> goal == After(log + n.fetched, TranslateFrom(users, n.cache, Resolve(text, ids[0], n.result.value), ids[1..])))
  {
    var n := NameLookup(users, cache, ids[0]);
    if n.result.Ok? {
      AfterAfter(log, n.fetched, TranslateFrom(users, n.cache, Resolve(text, ids[0], n.result.value), ids[1..]));
    }
  }

  /** `translate_mentions_to_names(text)` from the given cache: the ids are
      those `re.findall` captures in the original text. */
  function Translate(users: Directory, cache: map<string, UserInfo>, text: string): Step<string> {
    TranslateFrom(users, cache, text, FindMentions(text))
  }

  /** The translation of a text with no cache involved: what the directory alone determines. */
  function TranslateText(users: Directory, text: string): Result<string> {
    Translate(users, map[], text).result
  }

  /** Text without any mention token is returned unchanged, with no lookup and no cache change. */
  lemma MentionFreeUnchanged(users: Directory, cache: map<string, UserInfo>, text: string)
    requires !HasMention(text)
    ensures Translate(users, cache, text) == Step(Ok(text), cache, [])
  {
    NoMatchesIff(text);
  }

  /** Translation looks up only the ids the pattern matches, each once, and
      only when it is not cached: an id that is not of the form `U[A-Z0-9]+`
      (a lowercase id, or one not starting with `U`) is never looked up. */
  lemma TranslateCalls(users: Directory, cache: map<string, UserInfo>, text: string)
    ensures var s := Translate(users, cache, text);
      && (forall k :: 0 <= k < |s.fetched| ==> ValidId(s.fetched[k]) && s.fetched[k] !in cache)
      && (forall j, k :: 0 <= j < k < |s.fetched| ==> s.fetched[j] != s.fetched[k])
  {
    var ids := FindMentions(text);
    TranslateFromCalls(users, cache, text, ids);
    forall k | 0 <= k < |Translate(users, cache, text).fetched|
      ensures ValidId(Translate(users, cache, text).fetched[k])
    {
      FoundIff(text, Translate(users, cache, text).fetched[k]);
    }
  }

  /** One resolution step keeps the token `<@x>` of a text `x` without angle
      brackets that the pattern does not capture: no occurrence of the
      replaced token overlaps it. */
  lemma ResolveKeepsToken(text: string, id: string, name: Option<string>, x: string)
    requires ValidId(id) && !ValidId(x)
    requires forall k :: 0 <= k < |x| ==> x[k] != '<' && x[k] != '>'
    requires Contains(text, MentionToken(x))
    ensures Contains(Resolve(text, id, name), MentionToken(x))
  {
    if name.Some? {
      var p, q := MentionToken(id), MentionToken(x);
      var j: nat :| j <= |text| && OccursAt(text, q, j);
      forall i: nat | i < j + |q| && j < i + |p|
        ensures !OccursAt(text, p, i)
      {
        TokensApart(text, id, x, i, j);
      }
      ReplaceKeepsOccurrence(text, p, "@" + name.value, q, j);
    }
  }

  /** The loop keeps such a token through every resolution. */
  lemma {:induction false} TranslateFromKeepsToken(users: Directory, cache: map<string, UserInfo>, text: string,
                                                   ids: seq<string>, x: string)
    requires forall k :: 0 <= k < |ids| ==> ValidId(ids[k])
    requires !ValidId(x) && forall k :: 0 <= k < |x| ==> x[k] != '<' && x[k] != '>'
    requires Contains(text, MentionToken(x))
    ensures var s := TranslateFrom(users, cache, text, ids); s.result.Ok? ==> Contains(s.result.value, MentionToken(x))
    decreases |ids|
  {
    if ids != [] {
      var n := NameLookup(users, cache, ids[0]);
      if n.result.Ok? {
        ResolveKeepsToken(text, ids[0], n.result.value, x);
        TranslateFromKeepsToken(users, n.cache, Resolve(text, ids[0], n.result.value), ids[1..], x);
      }
    }
  }

  /** A token the pattern does not capture, such as `<@u1>` (lowercase) or
      `<@W1>` (not starting with `U`), comes out of a successful translation
      still in place, whatever names the matched users have. */
  lemma NonMatchingTokenKept(users: Directory, cache: map<string, UserInfo>, text: string, x: string)
    requires !ValidId(x) && forall k :: 0 <= k < |x| ==> x[k] != '<' && x[k] != '>'
    requires Contains(text, MentionToken(x))
    ensures var s := Translate(users, cache, text); s.result.Ok? ==> Contains(s.result.value, MentionToken(x))
  {
    FindFromSound(text, 0);
    TranslateFromKeepsToken(users, cache, text, FindMentions(text), x);
  }

  /** The cache never changes what a translation answers: from any two
      coherent caches the loop gives the same result. */
  lemma {:induction false} TranslateFromTransparent(users: Directory, c1: map<string, UserInfo>, c2: map<string, UserInfo>, text: string, ids: seq<string>)
    requires Coherent(users, c1) && Coherent(users, c2)
    ensures TranslateFrom(users, c1, text, ids).result == TranslateFrom(users, c2, text, ids).result
    decreases |ids|
  {
    if ids != [] {
      var n1 := NameLookup(users, c1, ids[0]);
      var n2 := NameLookup(users, c2, ids[0]);
      assert n1.result == n2.result == DirectoryName(users, ids[0]);
      if n1.result.Ok? {
        var name := n1.result.value;
        var text' := Resolve(text, ids[0], name);
        TranslateFromTransparent(users, n1.cache, n2.cache, text', ids[1..]);
      }
    }
  }

  /** From a coherent cache, translation answers what the directory alone determines. */
  lemma TranslateTransparent(users: Directory, cache: map<string, UserInfo>, text: string)
    ensures Coherent(users, cache) ==> Translate(users, cache, text).result == TranslateText(users, text)
  {
    if Coherent(users, cache) {
      TranslateFromTransparent(users, cache, map[], text, FindMentions(text));
    }
  }

  /** A display name that cannot rebuild a mention token next to its `@`:
      no angle brackets, not empty, and not itself of the form `U[A-Z0-9]*`
      (it starts with another character, or holds one outside `[A-Z0-9]`). */
  predicate SafeName(n: string) {
    && (forall k :: 0 <= k < |n| ==> n[k] != '<' && n[k] != '>')
    && |n| > 0
    && (n[0] != 'U' || exists k :: 0 <= k < |n| && !IsIdChar(n[k]))
  }

  /** A prefix without `@` of a replaced text was already a prefix of the
      original: every replacement starts with `@`. */
  lemma {:induction false} PrefixSurvives(u: string, p: string, rep: string, w: string)
    requires p != [] && rep != [] && rep[0] == '@'
    requires w <= ReplaceAll(u, p, rep)
    ensures (forall k :: 0 <= k < |w| ==> w[k] != '@') ==> w <= u
    decreases |u|
  {
    if |u| < |p| {
    } else if u[..|p|] == p {
      assert ReplaceAll(u, p, rep) == rep + ReplaceAll(u[|p|..], p, rep);
      assert |w| > 0 ==> w[0] == '@';
    } else if |w| > 0 {
      assert w[1..] <= ReplaceAll(u[1..], p, rep);
      PrefixSurvives(u[1..], p, rep, w[1..]);
    }
  }

  /** `@` and a safe name never start the tail `@id>` of a mention token. */
  lemma ReplacementNotTokenTail(n: string, rest: string, id: string)
    requires SafeName(n) && ValidId(id)
    ensures !(("@" + id + ">") <= "@" + n + rest)
  {
    var w := "@" + id + ">";
    var v := "@" + n + rest;
    if |w| <= |v| {
      if |n| > |id| {
        assert v[|id| + 1] == n[|id|] != '>' == w[|id| + 1];
      } else if n[0] != 'U' {
        assert v[1] == n[0] && w[1] == id[0] == 'U';
      } else {
        var k :| 0 <= k < |n| && !IsIdChar(n[k]);
        assert v[k + 1] == n[k];
        assert w[k + 1] == id[k];
      }
    }
  }

  /** A mention token at the start of `[c] + r` leaves its tail `@id>` at the start of `r`. */
  lemma TokenTailAfterHead(c: char, r: string, id: string)
    ensures OccursAt([c] + r, MentionToken(id), 0) ==> ("@" + id + ">") <= r
  {
    var p := MentionToken(id);
    if OccursAt([c] + r, p, 0) {
      assert r[..|p| - 1] == ([c] + r)[1..|p|] == p[1..];
    }
  }

  /** When the tail of a text does not start with the replaced token, the
      tail `@id>` of a mention token at the start of its replacement was there already. */
  lemma CopiedTokenTail(u: string, p2: string, rep: string, id: string)
    requires p2 != [] && rep != [] && rep[0] == '@' && ValidId(id)
    requires |u| >= |p2| && u[..|p2|] != p2
    requires ("@" + id + ">") <= ReplaceAll(u, p2, rep)
    ensures ("@" + id + ">") <= u
  {
    var w := "@" + id + ">";
    var v := id + ">";
    var r' := ReplaceAll(u[1..], p2, rep);
    assert u[0] == '@' && v <= r' by {
      ReplaceAllStep(u, p2, rep);
      ConsPrefix(u[0], r', w);
      assert w[1..] == v;
    }
    assert v <= u[1..] by {
      PrefixSurvives(u[1..], p2, rep, v);
    }
    assert w <= [u[0]] + u[1..] by {
      ConsPrefix(u[0], u[1..], w);
      assert w[1..] == v;
    }
    assert [u[0]] + u[1..] == u;
  }

  /** Where a mention token would start a replaced text at its first
      character, that token already started the original. */
  lemma HeadOccurrence(t: string, p2: string, n: string, id: string)
    requires |t| >= 1 && ValidId(id) && SafeName(n) && p2 != []
    ensures OccursAt([t[0]] + ReplaceAll(t[1..], p2, "@" + n), MentionToken(id), 0) ==> OccursAt(t, MentionToken(id), 0)
  {
    var p := MentionToken(id);
    var rep := "@" + n;
    var u := t[1..];
    var r := ReplaceAll(u, p2, rep);
    var w := "@" + id + ">";
    TokenTailAfterHead(t[0], r, id);
    if |u| >= |p2| && u[..|p2|] == p2 {
      assert r == rep + ReplaceAll(u[|p2|..], p2, rep);
      ReplacementNotTokenTail(n, ReplaceAll(u[|p2|..], p2, rep), id);
    } else if w <= r {
      if |u| >= |p2| {
        CopiedTokenTail(u, p2, rep, id);
      }
      assert w <= u;
      assert t[..|p|] == [t[0]] + u[..|w|];
    }
  }

  /** Text without `<` put in front cannot hold a token that starts with `<`. */
  lemma ReplacedHeadFree(rep: string, r: string, id: string)
    requires forall k :: 0 <= k < |rep| ==> rep[k] != '<'
    requires !Contains(r, MentionToken(id))
    ensures !Contains(rep + r, MentionToken(id))
  {
    var p := MentionToken(id);
    forall i: nat ensures !OccursAt(rep + r, p, i) {
      if i < |rep| && i + |p| <= |rep + r| {
        assert (rep + r)[i..i + |p|][0] == rep[i];
      } else if |rep| <= i && i + |p| <= |rep + r| {
        assert (rep + r)[i..i + |p|] == r[i - |rep|..i - |rep| + |p|];
        assert !OccursAt(r, p, i - |rep|);
      }
    }
  }

  /** One character in front adds no occurrence except possibly at index 0. */
  lemma CopiedHeadFree(c: char, r: string, p: string)
    requires !Contains(r, p) && !OccursAt([c] + r, p, 0)
    ensures !Contains([c] + r, p)
  {
    forall i: nat | 0 < i && i + |p| <= |[c] + r| ensures !OccursAt([c] + r, p, i) {
      assert ([c] + r)[i..i + |p|] == r[i - 1..i - 1 + |p|];
      assert !OccursAt(r, p, i - 1);
    }
  }

  /** A text free of `p` has suffixes free of `p`. */
  lemma SuffixFree(t: string, k: nat, p: string)
    requires k <= |t| && !Contains(t, p)
    ensures !Contains(t[k..], p)
  {
    forall i: nat | i + |p| <= |t[k..]| ensures !OccursAt(t[k..], p, i) {
      assert t[k..][i..i + |p|] == t[i + k..i + k + |p|];
      assert !OccursAt(t, p, i + k);
    }
  }

  /** Replacing the token `p2` by `@` and a safe name never creates an
      occurrence of a mention token `p`: if `p` was absent it stays absent,
      and when `p2` is `p` itself no occurrence of it is left. */
  lemma {:induction false} ReplaceLeavesNoToken(t: string, p2: string, n: string, id: string)
    requires ValidId(id) && SafeName(n) && p2 != []
    requires !Contains(t, MentionToken(id)) || p2 == MentionToken(id)
    ensures !Contains(ReplaceAll(t, p2, "@" + n), MentionToken(id))
    decreases |t|
  {
    var p := MentionToken(id);
    var rep := "@" + n;
    if |t| < |p2| {
      if p2 == p {
        forall i: nat ensures !OccursAt(t, p, i) {}
      }
    } else if t[..|p2|] == p2 {
      var u := t[|p2|..];
      if !Contains(t, p) {
        SuffixFree(t, |p2|, p);
      }
      ReplaceLeavesNoToken(u, p2, n, id);
      ReplacedHeadFree(rep, ReplaceAll(u, p2, rep), id);
    } else {
      ContainsTail(t, p);
      ReplaceLeavesNoToken(t[1..], p2, n, id);
      HeadOccurrence(t, p2, n, id);
      assert !OccursAt(t, p, 0);
      CopiedHeadFree(t[0], ReplaceAll(t[1..], p2, rep), p);
    }
  }

  /** Every name the directory gives to one of `ids` is safe (or `None`). */
  predicate SafeNames(users: Directory, ids: seq<string>) {
    forall k :: 0 <= k < |ids| ==> match DirectoryName(users, ids[k])
      case Ok(Some(n)) => SafeName(n)
      case _ => true
  }

  /** Later steps of the loop keep a token out of the text. */
  lemma {:induction false} AbsenceKept(users: Directory, cache: map<string, UserInfo>, text: string, ids: seq<string>, id: string)
    requires Coherent(users, cache) && SafeNames(users, ids) && ValidId(id)
    requires forall k :: 0 <= k < |ids| ==> ValidId(ids[k])
    requires !Contains(text, MentionToken(id))
    ensures var s := TranslateFrom(users, cache, text, ids); s.result.Ok? ==> !Contains(s.result.value, MentionToken(id))
    decreases |ids|
  {
    if ids != [] {
      var n := NameLookup(users, cache, ids[0]);
      if n.result.Ok? {
        var name := n.result.value;
        var text' := Resolve(text, ids[0], name);
        if name.Some? {
          assert DirectoryName(users, ids[0]) == Ok(Some(name.value));
          assert SafeName(name.value) by { assert ids[0] == ids[0]; }
          ReplaceLeavesNoToken(text, MentionToken(ids[0]), name.value, id);
        }
        AbsenceKept(users, n.cache, text', ids[1..], id);
      }
    }
  }

  /** When every matched id resolves to a safe name or `None`, no mention token
      of an id that resolved to a name is left in the translated text. */
  lemma {:induction false} ResolvedTokensGone(users: Directory, cache: map<string, UserInfo>, text: string, ids: seq<string>, id: string, name: string)
    requires Coherent(users, cache) && SafeNames(users, ids)
    requires forall k :: 0 <= k < |ids| ==> ValidId(ids[k])
    requires id in ids && DirectoryName(users, id) == Ok(Some(name))
    ensures var s := TranslateFrom(users, cache, text, ids); s.result.Ok? ==> !Contains(s.result.value, MentionToken(id))
    decreases |ids|
  {
    var n := NameLookup(users, cache, ids[0]);
    if n.result.Ok? {
      var nm := n.result.value;
      var text' := Resolve(text, ids[0], nm);
      if ids[0] == id {
        assert nm == Some(name);
        assert SafeName(name) by { assert DirectoryName(users, ids[0]) == Ok(Some(name)); }
        ReplaceLeavesNoToken(text, MentionToken(id), name, id);
        AbsenceKept(users, n.cache, text', ids[1..], id);
      } else {
        assert id in ids[1..];
        ResolvedTokensGone(users, n.cache, text', ids[1..], id, name);
      }
    }
  }

  /** Replace-all translation: every mention of a user whose name resolves
      (to a safe name, as every matched user's is) is gone from the result. */
  lemma TranslatedTextHasNoResolvedToken(users: Directory, cache: map<string, UserInfo>, text: string, id: string, name: string)
    requires Coherent(users, cache) && SafeNames(users, FindMentions(text))
    requires ValidId(id) && Contains(text, MentionToken(id)) && DirectoryName(users, id) == Ok(Some(name))
    ensures var s := Translate(users, cache, text); s.result.Ok? ==> !Contains(s.result.value, MentionToken(id))
  {
    FoundIff(text, id);
    FindFromSound(text, 0);
    ResolvedTokensGone(users, cache, text, FindMentions(text), id, name);
  }
}
