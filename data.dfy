/** The values the Slack relay bot works with: Slack events and messages as the
    bot reads them, user-info records from `users.info`, the payload sent to the
    Langflow endpoint, and the exceptions the Python code can raise. */
module SlackData {

  datatype Option<+T> = None | Some(value: T)

  /** The exceptions the bot's code can raise, as far as the model tells them apart. */
  datatype Error =
    | ApiError(message: string)      // a Slack Web API call failed (SlackApiError)
    | KeyError(key: string)          // a dictionary lookup of a missing key
    | TypeError(message: string)     // an operation applied to None
    | RequestError(message: string)  // the HTTP POST to Langflow raised

  /** A value, or the exception raised while computing it. */
  datatype Result<+T> = Ok(value: T) | Err(error: Error)

  /** `str(e)` of an exception: Python renders a KeyError as its quoted key. */
  function Describe(e: Error): string {
    match e
    case ApiError(m) => m
    case KeyError(k) => "'" + k + "'"
    case TypeError(m) => m
    case RequestError(m) => m
  }

  /** The `real_name` entry of a Slack profile: absent, JSON null, or a string. */
  datatype RealName = Missing | Null | Name(text: string)

  datatype Profile = Profile(realName: RealName)

  /** The `user` object of a `users.info` answer; `profile` may be absent. */
  datatype UserInfo = UserInfo(profile: Option<Profile>)

  /** A message of a thread as `conversations.replies` lists it; either key may be absent. */
  datatype Message = Message(user: Option<string>, text: Option<string>)

  /** A file attached to a message event. */
  datatype File = File(id: string)

  /** A `message` event. `ts` is always present; every other key may be absent. */
  datatype Event = Event(
    ts: string,
    threadTs: Option<string>,
    channelType: Option<string>,
    channel: Option<string>,
    text: Option<string>,
    files: Option<seq<File>>,
    user: Option<string>,
    subtype: Option<string>)

  /** One line of the formatted thread history: who spoke, and what they said. */
  datatype Entry = Entry(speaker: string, text: string)

  /** The `files` field of the payload: "" when the event has no files, else
      `json.dumps` of the list (the JSON encoding itself is not modelled). */
  datatype FilesField = NoFiles | JsonOf(files: seq<File>)

  /** The dictionary sent, JSON-encoded, as the Langflow `input_value`. */
  datatype Payload = Payload(
    userMessage: string,
    threadHistory: string,
    files: FilesField,
    slackBotToken: Option<string>,
    channelId: Option<string>,
    threadTs: string)

  /** Why `on_message` returned without responding. */
  datatype SkipReason = OwnMessage | FilteredSubtype | NotAddressed

  /** The participation decision for one event. */
  datatype Decision = Engage | Skip(reason: SkipReason)

  /** What handling one event ends in, when nothing escapes the handler:
      ignored, forwarded to Langflow, or an error message posted with
      `chat_postMessage` to a channel and thread. */
  datatype Outcome =
    | Ignored(reason: SkipReason)
    | Forwarded(payload: Payload)
    | ErrorPosted(channel: Option<string>, threadTs: string, text: string)

  /** The result of a step that may consult the user-info cache: its value or
      exception, the cache afterwards, and the user ids it asked `users.info` for. */
  datatype Step<+T> = Step(result: Result<T>, cache: map<string, UserInfo>, fetched: seq<string>)

  /** A step preceded by the directory calls `log` already made. */
  function After<T>(log: seq<string>, s: Step<T>): Step<T> {
    Step(s.result, s.cache, log + s.fetched)
  }

  lemma AfterAfter<T>(a: seq<string>, b: seq<string>, s: Step<T>)
    ensures After(a, After(b, s)) == After(a + b, s)
  {
    assert a + (b + s.fetched) == (a + b) + s.fetched;
  }

  lemma AppendAssoc<T>(a: seq<T>, b: seq<T>, c: seq<T>)
    ensures (a + b) + c == a + (b + c)
  {
  }
}
