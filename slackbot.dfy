/** The `SlackBot` object: its user-info cache is a field the methods update in
    place, and each method is proved against the function of the same step. */
module Bot {
  import opened SlackData
  import opened Mentions
  import opened Text
  import opened Identity
  import opened Translation
  import opened History
  import opened Policy

  class SlackBot {
    /** What `users.info` answers for each user id. */
    const users: Directory
    /** The bot's own user id, as `auth.test` reports it. */
    const botUserId: string
    /** `SLACK_BOT_TOKEN`, forwarded in every payload. */
    const botToken: Option<string>
    /** `user_id_to_info_cache`. */
    var cache: map<string, UserInfo>
    /** The user ids `users.info` has been asked about, in order. */
    ghost var Fetched: seq<string>

    /** Every cached entry is what `users.info` answers for its id. */
    ghost predicate Valid()
      reads this
    {
      Coherent(users, cache)
    }

    constructor(users: Directory, botUserId: string, botToken: Option<string>)
      ensures Valid()
      ensures this.users == users && this.botUserId == botUserId && this.botToken == botToken
      ensures cache == map[] && Fetched == []
    {
      this.users := users;
      this.botUserId := botUserId;
      this.botToken := botToken;
      cache := map[];
      Fetched := [];
    }

    /** `get_user_info_for_user_id`: a hit returns the stored info and calls
        nothing; a miss calls `users.info` once and stores a successful answer
        under exactly that id, leaving every other entry as it was. */
    method GetUserInfoForUserId(userId: string) returns (r: Result<UserInfo>)
      requires Valid()
      modifies this
      ensures Valid()
      ensures userId in old(cache) ==> r == Ok(old(cache)[userId]) && cache == old(cache) && Fetched == old(Fetched)
      ensures userId !in old(cache) ==>
        && r == users(userId) && Fetched == old(Fetched) + [userId]
        && cache == (if r.Ok? then old(cache)[userId := r.value] else old(cache))
      ensures var s := Lookup(users, old(cache), userId);
        r == s.result && cache == s.cache && Fetched == old(Fetched) + s.fetched
    {
      if userId in cache {
        return Ok(cache[userId]);
      }
      Fetched := Fetched + [userId];
      r := users(userId);
      if r.Ok? {
        cache := cache[userId := r.value];
      }
    }

    /** `get_username_for_user_id`: the real name of the cached or fetched
        profile, which is what the directory says for that id. */
    method GetUsernameForUserId(userId: string) returns (r: Result<Option<string>>)
      requires Valid()
      modifies this
      ensures Valid()
      ensures r == DirectoryName(users, userId)
      ensures var s := NameLookup(users, old(cache), userId);
        r == s.result && cache == s.cache && Fetched == old(Fetched) + s.fetched
    {
      var info := GetUserInfoForUserId(userId);
      match info
      case Err(e) =>
        r := Err(e);
      case Ok(i) =>
        r := RealNameOf(i);
    }

    /** `translate_mentions_to_names`: the ids `re.findall` captures in the
        original text, each resolved in turn and, when the name is not `None`,
        every occurrence of its token replaced. */
    method TranslateMentionsToNames(text: string) returns (r: Result<string>)
      requires Valid()
      modifies this
      ensures Valid()
      ensures r == TranslateText(users, text)
      ensures var s := Translate(users, old(cache), text);
        r == s.result && cache == s.cache && Fetched == old(Fetched) + s.fetched
    {
      TranslateTransparent(users, cache, text);
      var matches := FindMentions(text);
      ghost var goal := TranslateFrom(users, cache, text, matches);
      var t := text;
      ghost var log: seq<string> := [];
      for i := 0 to |matches|
        invariant Valid()
        invariant Fetched == old(Fetched) + log
        invariant goal == After(log, TranslateFrom(users, cache, t, matches[i..]))
      {
        TranslateFromStep(users, cache, t, matches[i..], log);
        assert matches[i..][0] == matches[i] && matches[i..][1..] == matches[i + 1..];
        ghost var n := NameLookup(users, cache, matches[i]);
        var name := GetUsernameForUserId(matches[i]);
        AppendAssoc(old(Fetched), log, n.fetched);
        log := log + n.fetched;
        match name
        case Err(e) =>
          return Err(e);
        case Ok(v) =>
          if v.Some? {
            t := ReplaceAll(t, MentionToken(matches[i]), "@" + v.value);
          }
      }
      r := Ok(t);
    }

    /** `get_thread_history_and_bot_response`: `replies` is what
        `conversations.replies` answers for the thread, or the exception it
        raises. Nothing is consulted for the first message of a thread;
        otherwise the scan stops at the first of the bot's messages before the
        last one. */
    method GetThreadHistoryAndBotResponse(channelId: Option<string>, messageTs: string, threadTs: string,
                                          replies: Result<seq<Message>>) returns (r: Result<ThreadScan>)
      ensures r == ScanThread(botUserId, messageTs, threadTs, replies)
    {
      if messageTs == threadTs {
        return Ok(ThreadScan(None, false));
      }
      if replies.Err? {
        return Err(replies.error);
      }
      var history := DropLast(replies.value);
      var responded := false;
      var i := 0;
      while i < |history|
        invariant 0 <= i <= |history|
        invariant !responded
        invariant ScanReplies(botUserId, history) == ScanReplies(botUserId, history[i..])
      {
        assert history[i..][1..] == history[i + 1..];
        if history[i].user.None? {
          return Err(KeyError("user"));
        }
        if history[i].user.value == botUserId {
          responded := true;
          break;
        }
        i := i + 1;
      }
      r := Ok(ThreadScan(Some(replies.value), responded));
    }

    /** `process_thread_history(thread_history)`: the fetched replies but the
        last, each with its text translated and its author labelled `bot` or by
        name, in order, as `FormatHistory` describes. */
    method ProcessThreadHistory(history: seq<Message>) returns (r: Result<seq<Entry>>)
      requires Valid()
      modifies this
      ensures Valid()
      ensures var s := FormatHistory(users, botUserId, old(cache), history);
        r == s.result && cache == s.cache && Fetched == old(Fetched) + s.fetched
    {
      var messages := DropLast(history);
      ghost var goal := FormatFrom(users, botUserId, cache, messages);
      var processed: seq<Entry> := [];
      ghost var log: seq<string> := [];
      assert messages[0..] == messages;
      assert goal == Shifted(log, processed, goal) by {
        if goal.result.Ok? {
          assert [] + goal.result.value == goal.result.value;
        }
      }
      for i := 0 to |messages|
        invariant Valid()
        invariant Fetched == old(Fetched) + log
        invariant goal == Shifted(log, processed, FormatFrom(users, botUserId, cache, messages[i..]))
      {
        ghost var c0, log0, done0, rest0 := cache, log, processed, messages[i..];
        assert rest0[0] == messages[i] && rest0[1..] == messages[i + 1..];
        var m := messages[i];
        if m.text.None? {
          assert goal == Step(Err(KeyError("text")), cache, log) by {
            FormatFromStep(users, botUserId, c0, rest0, log0, done0);
          }
          return Err(KeyError("text"));
        }
        ghost var ts := Translate(users, cache, m.text.value);
        var text := TranslateMentionsToNames(m.text.value);
        AppendAssoc(old(Fetched), log, ts.fetched);
        log := log + ts.fetched;
        if text.Err? {
          assert goal == Step(Err(text.error), cache, log) by {
            FormatFromStep(users, botUserId, c0, rest0, log0, done0);
          }
          return Err(text.error);
        }
        if m.user.None? {
          assert goal == Step(Err(KeyError("user")), cache, log) by {
            FormatFromStep(users, botUserId, c0, rest0, log0, done0);
          }
          return Err(KeyError("user"));
        }
        var userId := m.user.value;
        ghost var ns := NameLookup(users, cache, userId);
        var name := GetUsernameForUserId(userId);
        AppendAssoc(old(Fetched), log, ns.fetched);
        log := log + ns.fetched;
        if name.Err? {
          assert goal == Step(Err(name.error), cache, log) by {
            FormatFromStep(users, botUserId, c0, rest0, log0, done0);
          }
          return Err(name.error);
        }
        var speaker := Speaker(botUserId, userId, name.value);
        processed := processed + [Entry(speaker, text.value)];
        assert goal == Shifted(log, processed, FormatFrom(users, botUserId, cache, messages[i + 1..])) by {
          FormatFromStep(users, botUserId, c0, rest0, log0, done0);
        }
      }
      assert processed + [] == processed && log + [] == log;
      r := Ok(processed);
    }

    /** `respond_to_message`: the payload built from the translated text and
        the rendered history, or the error report posted in the thread; `post`
        is the exception the POST to Langflow raises, if any. */
    method RespondToMessage(channelId: Option<string>, threadTs: string, messageTs: string, userId: Option<string>,
                            messageText: string, threadHistory: Option<seq<Message>>, messageFiles: Option<seq<File>>,
                            post: Option<Error>) returns (o: Outcome)
      requires Valid()
      modifies this
      ensures Valid()
      ensures var s := Respond(users, botUserId, botToken, old(cache), channelId, threadTs, messageText, threadHistory, messageFiles, post);
        s.result == Ok(o) && cache == s.cache && Fetched == old(Fetched) + s.fetched
    {
      ghost var t := Translate(users, cache, messageText);
      var text := TranslateMentionsToNames(messageText);
      if text.Err? {
        return ErrorPosted(channelId, threadTs, ErrorReport(text.error));
      }
      ghost var h := HistoryField(users, botUserId, cache, threadHistory);
      ghost var mid := Fetched;
      var history := "";
      if threadHistory.Some? {
        var entries := ProcessThreadHistory(threadHistory.value);
        if entries.Err? {
          AppendAssoc(old(Fetched), t.fetched, h.fetched);
          return ErrorPosted(channelId, threadTs, ErrorReport(entries.error));
        }
        history := HistoryText(entries.value);
      }
      assert Fetched == mid + h.fetched && history == h.result.value;
      AppendAssoc(old(Fetched), t.fetched, h.fetched);
      var payload := Payload(text.value, history, FilesFieldOf(messageFiles), botToken, channelId, threadTs);
      if post.Some? {
        return ErrorPosted(channelId, threadTs, ErrorReport(post.value));
      }
      o := Forwarded(payload);
    }

    /** `on_message`: read the event, scan the thread, decide, and respond.
        `replies` and `post` are what the Slack and Langflow calls answer. */
    method OnMessage(e: Event, replies: Result<seq<Message>>, post: Option<Error>) returns (r: Result<Outcome>)
      requires Valid()
      modifies this
      ensures Valid()
      ensures e.user == Some(botUserId) ==> r.Err? || r == Ok(Ignored(OwnMessage))
      ensures var s := Handle(users, botUserId, botToken, old(cache), e, replies, post);
        r == s.result && cache == s.cache && Fetched == old(Fetched) + s.fetched
    {
      var messageTs := e.ts;
      var threadTs := ThreadTsOf(e);
      if e.text.None? {
        return Err(NoneText);
      }
      var messageText := e.text.value;
      var mentioned := IsMentioned(botUserId, messageText);
      var scan := GetThreadHistoryAndBotResponse(e.channel, messageTs, threadTs, replies);
      if scan.Err? {
        return Err(scan.error);
      }
      var decision := Decide(botUserId, e, mentioned, scan.value.responded);
      if decision.Skip? {
        return Ok(Ignored(decision.reason));
      }
      var o := RespondToMessage(e.channel, threadTs, messageTs, e.user, messageText, scan.value.history, e.files, post);
      r := Ok(o);
    }
  }
}
