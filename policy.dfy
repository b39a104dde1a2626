/** Handling one `message` event: the participation decision of `on_message`
    and the payload `respond_to_message` builds for Langflow. */
module Policy {
  import opened SlackData
  import opened Text
  import opened Mentions
  import opened Identity
  import opened Translation
  import opened History

  /** `event.get('thread_ts', message_ts)`: an event outside a thread starts its own. */
  function ThreadTsOf(e: Event): string {
    match e.threadTs
    case None => e.ts
    case Some(t) => t
  }

  /** `f"<@{bot_user_id}>" in message_text`. */
  predicate IsMentioned(bot: string, text: string) {
    Contains(text, MentionToken(bot))
  }

  /** `subtype and not subtype in ['message', 'file_share']`: a present,
      non-empty subtype other than the two the bot answers. */
  predicate SubtypeFiltered(subtype: Option<string>) {
    subtype.Some? && subtype.value != "" && subtype.value != "message" && subtype.value != "file_share"
  }

  /** The checks of `on_message`, in order: the bot's own message, a filtered
      subtype, then a direct message, a mention or an earlier reply of the bot. */
  function Decide(bot: string, e: Event, mentioned: bool, responded: bool): Decision {
    if e.user == Some(bot) then Skip(OwnMessage)
    else if SubtypeFiltered(e.subtype) then Skip(FilteredSubtype)
    else if e.channelType == Some("im") || mentioned || responded then Engage
    else Skip(NotAddressed)
  }

  /** The bot engages exactly when the message is not its own, its subtype is
      not filtered, and it is a direct message, mentions the bot, or is in a
      thread the bot has replied in; its own message is always skipped as such. */
  lemma DecideIff(bot: string, e: Event, mentioned: bool, responded: bool)
    ensures Decide(bot, e, mentioned, responded) == Engage <==>
      e.user != Some(bot) && !SubtypeFiltered(e.subtype) && (e.channelType == Some("im") || mentioned || responded)
    ensures e.user == Some(bot) ==> Decide(bot, e, mentioned, responded) == Skip(OwnMessage)
    ensures e.user != Some(bot) && SubtypeFiltered(e.subtype) ==> Decide(bot, e, mentioned, responded) == Skip(FilteredSubtype)
  {
  }

  /** The text posted in the thread when responding fails: `f":exclamation:… Error: {e}"`. */
  const ErrorPrefix: string := ":exclamation::exclamation::exclamation: Error: "

  function ErrorReport(e: Error): (t: string)
    ensures ErrorPrefix <= t && t[|ErrorPrefix|..] == Describe(e)
  {
    ErrorPrefix + Describe(e)
  }

  /** The `files` field: "" without files, their JSON encoding otherwise. */
  function FilesFieldOf(files: Option<seq<File>>): FilesField {
    match files
    case None => NoFiles
    case Some(fs) => JsonOf(fs)
  }

  /** The `thread_history` field: "" when no replies were fetched, else the
      rendered transcript of the fetched replies. Without replies it touches
      nothing; with them it never yields "" (an empty transcript renders as the
      sentinel), and from a coherent cache it yields the reference transcript. */
  function HistoryField(users: Directory, bot: string, cache: map<string, UserInfo>, history: Option<seq<Message>>): (s: Step<string>)
    ensures history.None? ==> s == Step(Ok(""), cache, [])
    ensures history.Some? && s.result.Ok? ==> s.result.value != ""
    ensures Coherent(users, cache) ==> Coherent(users, s.cache)
    ensures Coherent(users, cache) && history.Some? ==>
      var ref := FormatEach(users, bot, DropLast(history.value));
      (s.result.Ok? <==> ref.Ok?) && (ref.Ok? ==> s.result.value == HistoryText(ref.value))
  {
    match history
    case None => Step(Ok(""), cache, [])
    case Some(ms) =>
      var f := FormatHistory(users, bot, cache, ms);
      FormatHistoryShape(users, bot, cache, ms);
      match f.result
      case Err(e) => Step(Err(e), f.cache, f.fetched)
      case Ok(es) => Step(Ok(HistoryText(es)), f.cache, f.fetched)
  }

  /** `respond_to_message`: translate the text, render the history, build the
      payload and POST it; `post` is the exception the POST raises, if any.
      Every exception inside is caught and reported in the thread. */
  function Respond(users: Directory, bot: string, token: Option<string>, cache: map<string, UserInfo>,
                   channel: Option<string>, threadTs: string, text: string,
                   history: Option<seq<Message>>, files: Option<seq<File>>, post: Option<Error>): Step<Outcome>
  {
    var t := Translate(users, cache, text);
    match t.result
    case Err(e) => Step(Ok(ErrorPosted(channel, threadTs, ErrorReport(e))), t.cache, t.fetched)
    case Ok(msg) =>
      var h := HistoryField(users, bot, t.cache, history);
      match h.result
      case Err(e) => Step(Ok(ErrorPosted(channel, threadTs, ErrorReport(e))), h.cache, t.fetched + h.fetched)
      case Ok(hist) =>
        match post
        case Some(e) => Step(Ok(ErrorPosted(channel, threadTs, ErrorReport(e))), h.cache, t.fetched + h.fetched)
        case None => Step(Ok(Forwarded(Payload(msg, hist, FilesFieldOf(files), token, channel, threadTs))), h.cache, t.fetched + h.fetched)
  }

  /** Responding always ends in an outcome, never an escaping exception: the
      payload is forwarded, or the error report posted to the message's
      channel and thread when translation, history rendering or the POST
      fails. A coherent cache stays coherent. A
      forwarded payload carries "" as its history exactly when there was no
      history, the given files, token, channel and thread, and, from a
      coherent cache, the translated text and the rendered reference
      transcript. */
  lemma RespondFacts(users: Directory, bot: string, token: Option<string>, cache: map<string, UserInfo>,
                     channel: Option<string>, threadTs: string, text: string,
                     history: Option<seq<Message>>, files: Option<seq<File>>, post: Option<Error>)
    ensures var s := Respond(users, bot, token, cache, channel, threadTs, text, history, files, post);
      && s.result.Ok? && !s.result.value.Ignored?
      && (Coherent(users, cache) ==> Coherent(users, s.cache))
      && (s.result.value.ErrorPosted? ==>
            && ErrorPrefix <= s.result.value.text
            && s.result.value.channel == channel && s.result.value.threadTs == threadTs)
      && (post.Some? ==> s.result.value.ErrorPosted?)
      && (s.result.value.Forwarded? ==>
            var p := s.result.value.payload;
            && (p.threadHistory == "" <==> history.None?)
            && p.files == FilesFieldOf(files) && p.slackBotToken == token
            && p.channelId == channel && p.threadTs == threadTs)
      && (Coherent(users, cache) && s.result.value.Forwarded? ==>
            var p := s.result.value.payload;
            && TranslateText(users, text) == Ok(p.userMessage)
            && (history.Some? ==>
                  && FormatEach(users, bot, DropLast(history.value)).Ok?
                  && p.threadHistory == HistoryText(FormatEach(users, bot, DropLast(history.value)).value)))
  {
    TranslateTransparent(users, cache, text);
  }

  /** The exception that cuts responding short, as the directory alone
      decides it: the translation's, else the history rendering's, else the
      POST's; `None` when nothing fails. */
  function RespondError(users: Directory, bot: string, text: string,
                        history: Option<seq<Message>>, post: Option<Error>): Option<Error>
  {
    var tr := TranslateText(users, text);
    if tr.Err? then Some(tr.error)
    else if history.Some? && FormatEach(users, bot, DropLast(history.value)).Err? then
      Some(FormatEach(users, bot, DropLast(history.value)).error)
    else post
  }

  /** From a coherent cache, responding forwards exactly when the translation,
      the history rendering (if there are replies) and the POST all succeed,
      and then forwards the payload built from the translated text and the
      rendered transcript; otherwise it posts, to the message's channel and
      thread, the report of the first exception met. */
  lemma RespondOutcome(users: Directory, bot: string, token: Option<string>, cache: map<string, UserInfo>,
                       channel: Option<string>, threadTs: string, text: string,
                       history: Option<seq<Message>>, files: Option<seq<File>>, post: Option<Error>)
    ensures Coherent(users, cache) ==>
      var o := Respond(users, bot, token, cache, channel, threadTs, text, history, files, post).result;
      var err := RespondError(users, bot, text, history, post);
      && (o.Ok? && o.value.Forwarded? <==>
            && TranslateText(users, text).Ok?
            && (history.None? || FormatEach(users, bot, DropLast(history.value)).Ok?)
            && post.None?)
      && (err.Some? ==> o == Ok(ErrorPosted(channel, threadTs, ErrorReport(err.value))))
      && (err.None? ==>
            o == Ok(Forwarded(Payload(TranslateText(users, text).value,
                                      if history.None? then "" else HistoryText(FormatEach(users, bot, DropLast(history.value)).value),
                                      FilesFieldOf(files), token, channel, threadTs))))
  {
    if Coherent(users, cache) {
      TranslateTransparent(users, cache, text);
      var t := Translate(users, cache, text);
      if history.Some? {
        FormatHistoryShape(users, bot, t.cache, history.value);
      }
    }
  }

  /** From a coherent cache, an event is forwarded exactly when it has text,
      the thread scan succeeds, the bot engages, and nothing fails while
      responding. */
  lemma ForwardedIff(users: Directory, bot: string, token: Option<string>, cache: map<string, UserInfo>,
                     e: Event, replies: Result<seq<Message>>, post: Option<Error>)
    ensures Coherent(users, cache) ==>
      var r := Handle(users, bot, token, cache, e, replies, post).result;
      var scan := ScanThread(bot, e.ts, ThreadTsOf(e), replies);
      (r.Ok? && r.value.Forwarded? <==>
        && e.text.Some? && scan.Ok?
        && Decide(bot, e, IsMentioned(bot, e.text.value), scan.value.responded) == Engage
        && RespondError(users, bot, e.text.value, scan.value.history, post).None?)
  {
    var scan := ScanThread(bot, e.ts, ThreadTsOf(e), replies);
    if e.text.Some? && scan.Ok? {
      RespondOutcome(users, bot, token, cache, e.channel, ThreadTsOf(e), e.text.value, scan.value.history, e.files, post);
    }
  }

  /** The exception `p in None` raises. */
  const NoneText: Error := TypeError("argument of type 'NoneType' is not iterable")

  /** `on_message` for one event: `replies` is what `conversations.replies`
      answers (or raises), `post` what the Langflow POST raises. A missing text
      and a failing thread scan escape the handler as exceptions. */
  function Handle(users: Directory, bot: string, token: Option<string>, cache: map<string, UserInfo>,
                  e: Event, replies: Result<seq<Message>>, post: Option<Error>): (s: Step<Outcome>)
    ensures Coherent(users, cache) ==> Coherent(users, s.cache)
    ensures e.text.None? ==> s == Step(Err(NoneText), cache, [])
  {
    match e.text
    case None => Step(Err(NoneText), cache, [])
    case Some(text) =>
      var threadTs := ThreadTsOf(e);
      match ScanThread(bot, e.ts, threadTs, replies)
      case Err(err) => Step(Err(err), cache, [])
      case Ok(scan) =>
        match Decide(bot, e, IsMentioned(bot, text), scan.responded)
        case Skip(reason) => Step(Ok(Ignored(reason)), cache, [])
        case Engage =>
          RespondFacts(users, bot, token, cache, e.channel, threadTs, text, scan.history, e.files, post);
          Respond(users, bot, token, cache, e.channel, threadTs, text, scan.history, e.files, post)
  }

  /** The bot never answers its own message, whatever the channel or the
      mentions: the event is ignored (or the thread scan, which runs first,
      raises), and no user is looked up. */
  lemma OwnMessageNeverAnswered(users: Directory, bot: string, token: Option<string>, cache: map<string, UserInfo>,
                                e: Event, replies: Result<seq<Message>>, post: Option<Error>)
    requires e.user == Some(bot)
    ensures var s := Handle(users, bot, token, cache, e, replies, post);
      s.cache == cache && s.fetched == [] && (s.result.Err? || s.result.value == Ignored(OwnMessage))
  {
  }

  /** A message from another user with a filtered subtype is never answered either. */
  lemma FilteredSubtypeNeverAnswered(users: Directory, bot: string, token: Option<string>, cache: map<string, UserInfo>,
                                     e: Event, replies: Result<seq<Message>>, post: Option<Error>)
    requires e.user != Some(bot) && SubtypeFiltered(e.subtype)
    ensures var s := Handle(users, bot, token, cache, e, replies, post);
      s.cache == cache && s.fetched == [] && (s.result.Err? || s.result.value == Ignored(FilteredSubtype))
  {
  }

  /** Once the text is present and the scan succeeds, the event is answered
      (forwarded or an error posted) exactly when the bot engages, and ignored
      otherwise. */
  lemma AnsweredIff(users: Directory, bot: string, token: Option<string>, cache: map<string, UserInfo>,
                    e: Event, replies: Result<seq<Message>>, post: Option<Error>)
    requires e.text.Some?
    requires ScanThread(bot, e.ts, ThreadTsOf(e), replies).Ok?
    ensures var s := Handle(users, bot, token, cache, e, replies, post);
      var responded := ScanThread(bot, e.ts, ThreadTsOf(e), replies).value.responded;
      s.result.Ok? &&
      (!s.result.value.Ignored? <==>
        e.user != Some(bot) && !SubtypeFiltered(e.subtype) &&
        (e.channelType == Some("im") || IsMentioned(bot, e.text.value) || responded))
  {
  }

  /** A message that is not in a thread starts one: the replies are never
      consulted, and a forwarded payload carries "" as its history and the
      message's own timestamp as its thread. */
  lemma UnthreadedMessage(users: Directory, bot: string, token: Option<string>, cache: map<string, UserInfo>,
                          e: Event, r1: Result<seq<Message>>, r2: Result<seq<Message>>, post: Option<Error>)
    requires e.threadTs.None?
    ensures Handle(users, bot, token, cache, e, r1, post) == Handle(users, bot, token, cache, e, r2, post)
    ensures var s := Handle(users, bot, token, cache, e, r1, post);
      s.result.Ok? && s.result.value.Forwarded? ==>
        s.result.value.payload.threadHistory == "" && s.result.value.payload.threadTs == e.ts
  {
  }

  /** A direct message from another user, without a subtype and with text,
      is always answered once the scan succeeds. */
  lemma DirectMessageAnswered(users: Directory, bot: string, token: Option<string>, cache: map<string, UserInfo>,
                              e: Event, replies: Result<seq<Message>>, post: Option<Error>)
    requires e.channelType == Some("im") && e.user != Some(bot) && e.subtype.None? && e.text.Some?
    requires ScanThread(bot, e.ts, ThreadTsOf(e), replies).Ok?
    ensures var s := Handle(users, bot, token, cache, e, replies, post);
      s.result.Ok? && (s.result.value.Forwarded? || s.result.value.ErrorPosted?)
  {
  }

  /** What a forwarded payload holds, from a coherent cache: the translated
      text, the rendered history of the replies before the message ("" for
      the first message of a thread), the event's files and channel, and the
      thread it belongs to. */
  lemma ForwardedPayload(users: Directory, bot: string, token: Option<string>, cache: map<string, UserInfo>,
                         e: Event, replies: Result<seq<Message>>, post: Option<Error>)
    requires Coherent(users, cache)
    ensures var s := Handle(users, bot, token, cache, e, replies, post);
      s.result.Ok? && s.result.value.Forwarded? ==>
        var p := s.result.value.payload;
        && post.None? && e.text.Some?
        && TranslateText(users, e.text.value) == Ok(p.userMessage)
        && p.threadTs == ThreadTsOf(e) && p.channelId == e.channel
        && p.files == FilesFieldOf(e.files) && p.slackBotToken == token
        && (p.threadHistory == "" <==> e.ts == ThreadTsOf(e))
        && (e.ts != ThreadTsOf(e) ==>
              && replies.Ok?
              && FormatEach(users, bot, DropLast(replies.value)).Ok?
              && p.threadHistory == HistoryText(FormatEach(users, bot, DropLast(replies.value)).value))
  {
    if e.text.Some? {
      var scan := ScanThread(bot, e.ts, ThreadTsOf(e), replies);
      if scan.Ok? {
        RespondFacts(users, bot, token, cache, e.channel, ThreadTsOf(e), e.text.value, scan.value.history, e.files, post);
      }
    }
  }

  /** The only mention `re.findall` captures in "Hi <@U1>" is `U1`. */
  lemma ScenarioMentions()
    ensures FindMentions("Hi <@U1>") == ["U1"]
  {
    var text := "Hi <@U1>";
    assert MatchAt(text, 3) == Some("U1") by {
      assert text[3..6] == "<@U" && IsIdChar(text[6]) && !IsIdChar(text[7]) && text[7] == '>';
      RunFromIs(text, 6, 1);
      assert text[5..7] == "U1";
    }
    assert MatchAt(text, 0).None? && MatchAt(text, 1).None? && MatchAt(text, 2).None? by {
      assert text[0..3][0] != '<' && text[1..4][0] != '<' && text[2..5][0] != '<';
    }
    assert FindFrom(text, 8) == [];
    FindFromStep(text, 0);
    FindFromStep(text, 1);
    FindFromStep(text, 2);
    FindFromStep(text, 3);
  }

  /** Replacing the token of `U1` by `@Alice` in "Hi <@U1>". */
  lemma ScenarioReplace()
    ensures ReplaceAll("Hi <@U1>", MentionToken("U1"), "@Alice") == "Hi @Alice"
  {
    var p := MentionToken("U1");
    assert p == "<@U1>";
    var t0, t1, t2, t3 := "Hi <@U1>", "i <@U1>", " <@U1>", "<@U1>";
    assert t3[..5] == p && t3[5..] == [];
    ReplaceAllStep(t3, p, "@Alice");
    assert t2[..5][0] != p[0] && t2[1..] == t3;
    ReplaceAllStep(t2, p, "@Alice");
    assert t1[..5][0] != p[0] && t1[1..] == t2;
    ReplaceAllStep(t1, p, "@Alice");
    assert t0[..5][0] != p[0] && t0[1..] == t1;
    ReplaceAllStep(t0, p, "@Alice");
  }

  /** Translating "Hi <@U1>" from an empty cache, with U1 known as Alice,
      looks U1 up once, caches it, and gives "Hi @Alice". */
  lemma ScenarioTranslate(users: Directory)
    requires users("U1") == Ok(UserInfo(Some(Profile(Name("Alice")))))
    ensures Translate(users, map[], "Hi <@U1>") ==
      Step(Ok("Hi @Alice"), map["U1" := UserInfo(Some(Profile(Name("Alice"))))], ["U1"])
  {
    var text, alice := "Hi <@U1>", UserInfo(Some(Profile(Name("Alice"))));
    var n := NameLookup(users, map[], "U1");
    assert n == Step(Ok(Some("Alice")), map["U1" := alice], ["U1"]);
    assert Resolve(text, "U1", Some("Alice")) == "Hi @Alice" by {
      assert "@" + "Alice" == "@Alice";
      ScenarioReplace();
    }
    assert TranslateFrom(users, n.cache, "Hi @Alice", []) == Step(Ok("Hi @Alice"), n.cache, []);
    var ids := ["U1"];
    assert ids[0] == "U1" && ids[1..] == [];
    var rest := TranslateFrom(users, n.cache, Resolve(text, ids[0], n.result.value), ids[1..]);
    assert rest == Step(Ok("Hi @Alice"), n.cache, []);
    assert n.fetched + rest.fetched == ["U1"];
    assert TranslateFrom(users, map[], text, ids) == Step(rest.result, rest.cache, n.fetched + rest.fetched);
    assert Translate(users, map[], text) == TranslateFrom(users, map[], text, ids) by {
      ScenarioMentions();
    }
  }

  /** A direct message "Hi <@U1>" from U2, outside any thread, with U1 known
      as Alice: the payload carries the translated text, an empty history and
      the message's own timestamp as its thread, and U1 is looked up once and
      cached; `conversations.replies` is not consulted. */
  lemma DirectMessageScenario(users: Directory, replies: Result<seq<Message>>)
    requires users("U1") == Ok(UserInfo(Some(Profile(Name("Alice")))))
    ensures
      var e := Event("100", None, Some("im"), Some("D1"), Some("Hi <@U1>"), None, Some("U2"), None);
      Handle(users, "UBOT", Some("xoxb"), map[], e, replies, None) ==
        Step(Ok(Forwarded(Payload("Hi @Alice", "", NoFiles, Some("xoxb"), Some("D1"), "100"))),
             map["U1" := UserInfo(Some(Profile(Name("Alice"))))], ["U1"])
  {
    var e := Event("100", None, Some("im"), Some("D1"), Some("Hi <@U1>"), None, Some("U2"), None);
    ScenarioTranslate(users);
    assert ThreadTsOf(e) == "100";
    assert ScanThread("UBOT", "100", "100", replies) == Ok(ThreadScan(None, false));
    assert Decide("UBOT", e, IsMentioned("UBOT", "Hi <@U1>"), false) == Engage;
    var t := Translate(users, map[], "Hi <@U1>");
    assert HistoryField(users, "UBOT", t.cache, None) == Step(Ok(""), t.cache, []);
    assert t.fetched + [] == ["U1"];
  }
}
