/** Thread history: the scan of a thread's replies for the bot's own messages
    (`get_thread_history_and_bot_response`) and the transcript built from them
    (`process_thread_history`). */
module History {
  import opened SlackData
  import opened Text
  import opened Identity
  import opened Translation

  /** Python's `xs[:-1]`: everything but the last element; empty stays empty. */
  function DropLast<T>(xs: seq<T>): (ys: seq<T>)
    ensures |ys| == if |xs| == 0 then 0 else |xs| - 1
    ensures ys <= xs
  {
    if |xs| == 0 then [] else xs[..|xs| - 1]
  }

  /** The outcome of the thread scan: the fetched replies (absent for the
      first message of a thread) and whether the bot has already replied. */
  datatype ThreadScan = ThreadScan(history: Option<seq<Message>>, responded: bool)

  /** The scan loop over the replies that precede the triggering message:
      `message['user'] == bot` for each in turn, stopping at the first match;
      a message without a `user` key raises `KeyError`. */
  function ScanReplies(bot: string, msgs: seq<Message>): Result<bool>
    decreases |msgs|
  {
    if msgs == [] then Ok(false)
    else
      match msgs[0].user
      case None => Err(KeyError("user"))
      case Some(u) => if u == bot then Ok(true) else ScanReplies(bot, msgs[1..])
  }

  /** The scan finds the bot exactly when some message is the bot's and every
      message before it has an author; it fails exactly when a message without
      an author comes before any of the bot's. */
  lemma {:induction false} ScanRepliesIff(bot: string, msgs: seq<Message>)
    ensures ScanReplies(bot, msgs) == Ok(true) <==>
      exists i :: 0 <= i < |msgs| && msgs[i].user == Some(bot) && forall j :: 0 <= j < i ==> msgs[j].user.Some?
    ensures ScanReplies(bot, msgs).Err? <==>
      exists i :: 0 <= i < |msgs| && msgs[i].user.None? && forall j :: 0 <= j < i ==> msgs[j].user.Some? && msgs[j].user != Some(bot)
    ensures ScanReplies(bot, msgs).Err? ==> ScanReplies(bot, msgs) == Err(KeyError("user"))
    decreases |msgs|
  {
    if msgs != [] {
      ScanRepliesIff(bot, msgs[1..]);
      var t := msgs[1..];
      if msgs[0].user.Some? && msgs[0].user != Some(bot) {
        if ScanReplies(bot, t) == Ok(true) {
          var i :| 0 <= i < |t| && t[i].user == Some(bot) && forall j :: 0 <= j < i ==> t[j].user.Some?;
          assert msgs[i + 1].user == Some(bot);
          assert forall j :: 0 <= j < i + 1 ==> msgs[j].user.Some? by {
            forall j | 0 <= j < i + 1 ensures msgs[j].user.Some? {
              if j > 0 { assert msgs[j] == t[j - 1]; }
            }
          }
        }
        forall i | 0 < i < |msgs| && msgs[i].user == Some(bot) && (forall j :: 0 <= j < i ==> msgs[j].user.Some?)
          ensures ScanReplies(bot, t) == Ok(true)
        {
          assert t[i - 1].user == Some(bot);
          assert forall j :: 0 <= j < i - 1 ==> t[j].user.Some? by {
            forall j | 0 <= j < i - 1 ensures t[j].user.Some? {
              assert t[j] == msgs[j + 1];
            }
          }
        }
        if ScanReplies(bot, t).Err? {
          var i :| 0 <= i < |t| && t[i].user.None? && forall j :: 0 <= j < i ==> t[j].user.Some? && t[j].user != Some(bot);
          assert msgs[i + 1].user.None?;
          assert forall j :: 0 <= j < i + 1 ==> msgs[j].user.Some? && msgs[j].user != Some(bot) by {
            forall j | 0 <= j < i + 1 ensures msgs[j].user.Some? && msgs[j].user != Some(bot) {
              if j > 0 { assert msgs[j] == t[j - 1]; }
            }
          }
        }
        forall i | 0 < i < |msgs| && msgs[i].user.None? && (forall j :: 0 <= j < i ==> msgs[j].user.Some? && msgs[j].user != Some(bot))
          ensures ScanReplies(bot, t).Err?
        {
          assert t[i - 1].user.None?;
          assert forall j :: 0 <= j < i - 1 ==> t[j].user.Some? && t[j].user != Some(bot) by {
            forall j | 0 <= j < i - 1 ensures t[j].user.Some? && t[j].user != Some(bot) {
              assert t[j] == msgs[j + 1];
            }
          }
        }
      }
    }
  }

  /** When every message has an author, the scan answers whether any of them is the bot. */
  lemma AuthoredScan(bot: string, msgs: seq<Message>)
    requires forall i :: 0 <= i < |msgs| ==> msgs[i].user.Some?
    ensures ScanReplies(bot, msgs) == Ok(exists i :: 0 <= i < |msgs| && msgs[i].user == Some(bot))
  {
    ScanRepliesIff(bot, msgs);
  }

  /** `get_thread_history_and_bot_response`: for the first message of a thread
      (`message_ts == thread_ts`) nothing is fetched and the bot has not
      replied; otherwise the fetched replies (or the exception fetching them
      raised), with the scan run over all but the last of them. */
  function ScanThread(bot: string, messageTs: string, threadTs: string, replies: Result<seq<Message>>): Result<ThreadScan> {
    if messageTs == threadTs then Ok(ThreadScan(None, false))
    else
      match replies
      case Err(e) => Err(e)
      case Ok(ms) =>
        match ScanReplies(bot, DropLast(ms))
        case Err(e) => Err(e)
        case Ok(b) => Ok(ThreadScan(Some(ms), b))
  }

  /** The first message of a thread fetches nothing: the answer does not
      depend on what `conversations.replies` would have said. */
  lemma ThreadStartFetchesNothing(bot: string, ts: string, r1: Result<seq<Message>>, r2: Result<seq<Message>>)
    ensures ScanThread(bot, ts, ts, r1) == ScanThread(bot, ts, ts, r2) == Ok(ThreadScan(None, false))
  {
  }

  /** Outside the first message, with every reply authored, the bot has
      responded exactly when some reply other than the last is its own. */
  lemma RespondedIff(bot: string, messageTs: string, threadTs: string, ms: seq<Message>)
    requires messageTs != threadTs
    requires forall i :: 0 <= i < |ms| ==> ms[i].user.Some?
    ensures ScanThread(bot, messageTs, threadTs, Ok(ms)) ==
      Ok(ThreadScan(Some(ms), exists i :: 0 <= i < |ms| - 1 && ms[i].user == Some(bot)))
  {
    var prior := DropLast(ms);
    assert forall i :: 0 <= i < |prior| ==> prior[i] == ms[i];
    AuthoredScan(bot, prior);
    assert (exists i :: 0 <= i < |prior| && prior[i].user == Some(bot)) ==
           (exists i :: 0 <= i < |ms| - 1 && ms[i].user == Some(bot));
  }

  /** `f"{user_name}"`: a `None` name prints as `None`. */
  function Show(name: Option<string>): string {
    match name
    case None => "None"
    case Some(n) => n
  }

  /** The speaker label: `bot` for the bot's own messages, else the author's name. */
  function Speaker(bot: string, user: string, name: Option<string>): string {
    if user == bot then "bot" else Show(name)
  }

  /** The transcript entry of one message as the directory alone determines it:
      `message['text']` translated, then `message['user']` and its name. */
  function EntryOf(users: Directory, bot: string, m: Message): Result<Entry> {
    match m.text
    case None => Err(KeyError("text"))
    case Some(raw) =>
      match TranslateText(users, raw)
      case Err(e) => Err(e)
      case Ok(t) =>
        match m.user
        case None => Err(KeyError("user"))
        case Some(u) =>
          match DirectoryName(users, u)
          case Err(e) => Err(e)
          case Ok(name) => Ok(Entry(Speaker(bot, u, name), t))
  }

  /** The transcript of `msgs` as a reference: each message formatted on its
      own, in order, the first failure ending it. It succeeds exactly when
      every message can be formatted; then it has one entry per message, whose
      text is the message's translated text and whose speaker is `bot` for
      the bot's messages and the author's name otherwise. */
  function FormatEach(users: Directory, bot: string, msgs: seq<Message>): (r: Result<seq<Entry>>)
    ensures r.Ok? <==> forall i :: 0 <= i < |msgs| ==> EntryOf(users, bot, msgs[i]).Ok?
    ensures r.Ok? ==> |r.value| == |msgs| && forall i :: 0 <= i < |msgs| ==>
      && msgs[i].text.Some? && msgs[i].user.Some?
      && TranslateText(users, msgs[i].text.value) == Ok(r.value[i].text)
      && DirectoryName(users, msgs[i].user.value).Ok?
      && r.value[i].speaker == Speaker(bot, msgs[i].user.value, DirectoryName(users, msgs[i].user.value).value)
    decreases |msgs|
  {
    if msgs == [] then Ok([])
    else
      match EntryOf(users, bot, msgs[0])
      case Err(e) => Err(e)
      case Ok(en) =>
        var rest := FormatEach(users, bot, msgs[1..]);
        assert forall i :: 0 < i < |msgs| ==> msgs[i] == msgs[1..][i - 1];
        match rest
        case Err(e) => Err(e)
        case Ok(es) => Ok([en] + es)
  }

  /** A transcript step preceded by the entries `done` already built and the
      directory calls `log` already made. */
  function Shifted(log: seq<string>, done: seq<Entry>, s: Step<seq<Entry>>): Step<seq<Entry>> {
    var result := match s.result
      case Err(e) => Err(e)
      case Ok(es) => Ok(done + es);
    Step(result, s.cache, log + s.fetched)
  }

  lemma ShiftedShifted(log: seq<string>, done: seq<Entry>, log2: seq<string>, done2: seq<Entry>, s: Step<seq<Entry>>)
    ensures Shifted(log, done, Shifted(log2, done2, s)) == Shifted(log + log2, done + done2, s)
  {
    AppendAssoc(log, log2, s.fetched);
    if s.result.Ok? {
      AppendAssoc(done, done2, s.result.value);
    }
  }

  /** The loop of `process_thread_history` over `msgs` from the current cache:
      for each message its text is read and translated, then its author is
      read and looked up (even the bot's own), and the entry appended. */
  function FormatFrom(users: Directory, bot: string, cache: map<string, UserInfo>, msgs: seq<Message>): (s: Step<seq<Entry>>)
    ensures Coherent(users, cache) ==> Coherent(users, s.cache)
    decreases |msgs|
  {
    if msgs == [] then Step(Ok([]), cache, [])
    else
      var m := msgs[0];
      match m.text
      case None => Step(Err(KeyError("text")), cache, [])
      case Some(raw) =>
        var t := Translate(users, cache, raw);
        match t.result
        case Err(e) => Step(Err(e), t.cache, t.fetched)
        case Ok(text) =>
          match m.user
          case None => Step(Err(KeyError("user")), t.cache, t.fetched)
          case Some(u) =>
            var n := NameLookup(users, t.cache, u);
            match n.result
            case Err(e) => Step(Err(e), n.cache, t.fetched + n.fetched)
            case Ok(name) =>
              Shifted(t.fetched + n.fetched, [Entry(Speaker(bot, u, name), text)], FormatFrom(users, bot, n.cache, msgs[1..]))
  }

  /** One turn of the loop after the entries `done` and the calls `log`,
      unfolded: the message's text is read and translated, its author read and
      looked up, and the entry appended; each of these can end the loop with
      its exception. */
  lemma FormatFromStep(users: Directory, bot: string, cache: map<string, UserInfo>, msgs: seq<Message>,
                       log: seq<string>, done: seq<Entry>)
    requires msgs != []
    ensures var goal := Shifted(log, done, FormatFrom(users, bot, cache, msgs));
      var m := msgs[0];
      && (m.text.None? ==> goal == Step(Err(KeyError("text")), cache, log))
      && (m.text.Some? ==>
            var t := Translate(users, cache, m.text.value);
            && (t.result.Err? ==> goal == Step(Err(t.result.error), t.cache, log + t.fetched))
            && (t.result.Ok? && m.user.None? ==> goal == Step(Err(KeyError("user")), t.cache, log + t.fetched))
            && (t.result.Ok? && m.user.Some? ==>
                  var n := NameLookup(users, t.cache, m.user.value);
                  && (n.result.Err? ==> goal == Step(Err(n.result.error), n.cache, log + t.fetched + n.fetched))
                  && (n.result.Ok? ==>
                        goal == Shifted(log + t.fetched + n.fetched,
                                        done + [Entry(Speaker(bot, m.user.value, n.result.value), t.result.value)],
                                        FormatFrom(users, bot, n.cache, msgs[1..])))))
  {
    var m := msgs[0];
    if m.text.Some? {
      var t := Translate(users, cache, m.text.value);
      if t.result.Ok? && m.user.Some? {
        var n := NameLookup(users, t.cache, m.user.value);
        AppendAssoc(log, t.fetched, n.fetched);
        if n.result.Ok? {
          var e := Entry(Speaker(bot, m.user.value, n.result.value), t.result.value);
          ShiftedShifted(log, done, t.fetched + n.fetched, [e], FormatFrom(users, bot, n.cache, msgs[1..]));
        }
      }
    }
  }

  /** From a coherent cache the loop builds exactly the reference transcript. */
  lemma {:induction false} FormatFromIsFormatEach(users: Directory, bot: string, cache: map<string, UserInfo>, msgs: seq<Message>)
    requires Coherent(users, cache)
    ensures FormatFrom(users, bot, cache, msgs).result == FormatEach(users, bot, msgs)
    decreases |msgs|
  {
    if msgs != [] {
      var m := msgs[0];
      if m.text.Some? {
        var t := Translate(users, cache, m.text.value);
        TranslateTransparent(users, cache, m.text.value);
        if t.result.Ok? && m.user.Some? {
          var n := NameLookup(users, t.cache, m.user.value);
          if n.result.Ok? {
            FormatFromIsFormatEach(users, bot, n.cache, msgs[1..]);
          }
        }
      }
    }
  }

  /** `process_thread_history(thread_history)`: the fetched replies without the
      last one (the message being answered), formatted in order. */
  function FormatHistory(users: Directory, bot: string, cache: map<string, UserInfo>, fetched: seq<Message>): Step<seq<Entry>> {
    FormatFrom(users, bot, cache, DropLast(fetched))
  }

  /** From a coherent cache, a formatted history has one entry per fetched
      message but the last, in order, each labelled and translated as the
      reference says. */
  lemma FormatHistoryShape(users: Directory, bot: string, cache: map<string, UserInfo>, fetched: seq<Message>)
    ensures var r := FormatHistory(users, bot, cache, fetched).result;
      Coherent(users, cache) ==>
        r == FormatEach(users, bot, DropLast(fetched)) &&
        (r.Ok? ==> |r.value| == if |fetched| == 0 then 0 else |fetched| - 1)
  {
    if Coherent(users, cache) {
      FormatFromIsFormatEach(users, bot, cache, DropLast(fetched));
    }
  }

  /** The sentinel that stands for an empty transcript. */
  const NoHistory: string := "No thread history found"

  /** One transcript line, `"{}: {}".format(speaker, text)`. */
  function Line(e: Entry): string {
    e.speaker + ": " + e.text
  }

  function Lines(es: seq<Entry>): (ls: seq<string>)
    ensures |ls| == |es| && forall i :: 0 <= i < |es| ==> ls[i] == Line(es[i])
    decreases |es|
  {
    if es == [] then [] else [Line(es[0])] + Lines(es[1..])
  }

  /** The `as_text` rendering: the lines joined by newlines, or the sentinel
      for an empty transcript. The sentinel appears exactly when the
      transcript is empty, and the rendering is never the empty string. */
  function HistoryText(es: seq<Entry>): (r: string)
    ensures r == NoHistory <==> es == []
    ensures r != ""
  {
    if es == [] then NoHistory
    else
      var ls := Lines(es);
      JoinStartsWithFirst(ls, "\n");
      var sp := es[0].speaker;
      assert Join(ls, "\n")[|sp|] == ':' by {
        assert Line(es[0])[|sp|] == ':';
      }
      assert forall k :: 0 <= k < |NoHistory| ==> NoHistory[k] != ':';
      Join(ls, "\n")
  }

  /** Each further entry adds a newline and its line: the rendering keeps the
      transcript's order. */
  lemma HistoryTextAppend(es: seq<Entry>, e: Entry)
    requires es != []
    ensures HistoryText(es + [e]) == HistoryText(es) + "\n" + Line(e)
  {
    assert Lines(es + [e]) == Lines(es) + [Line(e)];
    JoinAppend(Lines(es), Line(e), "\n");
  }
}
