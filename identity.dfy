/** The user-info cache of the bot, as functions of the cache map: what one
    lookup answers, how the cache changes, and which `users.info` calls it makes. */
module Identity {
  import opened SlackData

  /** What `users.info` answers for each user id: the `user` object, or the
      exception the call (or reading its `user` key) raises. */
  type Directory = string -> Result<UserInfo>

  /** Every cached entry is what the directory gives for its key. */
  predicate Coherent(users: Directory, cache: map<string, UserInfo>) {
    forall id :: id in cache ==> users(id) == Ok(cache[id])
  }

  /** One cached lookup of a user id: a hit answers from the cache and calls
      nothing; a miss calls `users.info` once, for that id, and stores a
      successful answer under exactly that id. Existing entries never change,
      and a coherent cache stays coherent and answers what the directory says. */
  function Lookup(users: Directory, cache: map<string, UserInfo>, id: string): (s: Step<UserInfo>)
    ensures s.fetched == [] <==> id in cache
    ensures s.fetched != [] ==> s.fetched == [id]
    ensures id in cache ==> s.result == Ok(cache[id]) && s.cache == cache
    ensures id !in cache ==> s.result == users(id)
    ensures s.result.Ok? ==> id in s.cache && s.cache[id] == s.result.value
    ensures s.result.Err? ==> s.cache == cache
    ensures s.cache.Keys <= cache.Keys + {id}
    ensures forall k :: k in cache ==> k in s.cache && s.cache[k] == cache[k]
    ensures Coherent(users, cache) ==> Coherent(users, s.cache) && s.result == users(id)
  {
    if id in cache then Step(Ok(cache[id]), cache, [])
    else
      match users(id)
      case Ok(info) => Step(Ok(info), cache[id := info], [id])
      case Err(e) => Step(Err(e), cache, [id])
  }

  /** A second lookup of an id the first one found is a hit with the same answer. */
  lemma LookupTwice(users: Directory, cache: map<string, UserInfo>, id: string)
    ensures var s := Lookup(users, cache, id);
            s.result.Ok? ==> Lookup(users, s.cache, id) == Step(s.result, s.cache, [])
  {
  }

  /** `user_info['profile']['real_name']`: a missing key raises, a JSON null is `None`. */
  function RealNameOf(info: UserInfo): Result<Option<string>> {
    match info.profile
    case None => Err(KeyError("profile"))
    case Some(p) =>
      match p.realName
      case Missing => Err(KeyError("real_name"))
      case Null => Ok(None)
      case Name(n) => Ok(Some(n))
  }

  /** The name the directory itself gives for a user id, with no cache involved. */
  function DirectoryName(users: Directory, id: string): Result<Option<string>> {
    match users(id)
    case Ok(info) => RealNameOf(info)
    case Err(e) => Err(e)
  }

  /** `get_username_for_user_id`: a cached lookup, then the profile's real name.
      It changes the cache and calls the directory as the lookup does; a
      successful answer leaves the id cached; from a coherent cache the answer
      is the directory's own. */
  function NameLookup(users: Directory, cache: map<string, UserInfo>, id: string): (s: Step<Option<string>>)
    ensures var l := Lookup(users, cache, id); s.cache == l.cache && s.fetched == l.fetched
    ensures s.result.Ok? ==> id in s.cache
    ensures Coherent(users, cache) ==> Coherent(users, s.cache) && s.result == DirectoryName(users, id)
  {
    var l := Lookup(users, cache, id);
    match l.result
    case Ok(info) => Step(RealNameOf(info), l.cache, l.fetched)
    case Err(e) => Step(Err(e), l.cache, l.fetched)
  }
}
