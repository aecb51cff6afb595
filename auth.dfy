/**
 * The `VerdaccioGithubAuth` plugin class: configuration defaults, the
 * negative-result list `badUsers`, the per-user team cache with its expiry,
 * the dispatch on the authentication mode, and the two entry points the host
 * calls, `authenticate` and `adduser`.
 *
 * The GitHub client is not modelled: what the probe `users.get` answers is a
 * boolean parameter, what the team listing answers is a sequence of responses,
 * the credential the client is configured with is the ghost field
 * `credential`, and the ghost field `requests` counts the remote calls.
 * The clock is read through parameters, in minutes: `now` when a call
 * starts and `doneAt` once the team pages have arrived.
 */
module Auth {
  import opened Wrappers
  import opened Teams

  /** Status of the error `authenticate` reports for a listed user. */
  const Forbidden := 403
  /** Status of the error `adduser` reports when the probe fails. */
  const Conflict := 409

  /** The authentication modes the plugin knows. */
  const ValidMethods: seq<string> := ["token", "basic"]

  /** The plugin configuration as the host hands it over; a missing option is `None`. */
  datatype Config = Config(org: Option<string>, mode: Option<string>, cachettl: Option<int>, orgmode: Option<bool>)

  /** The settings the plugin runs with. */
  datatype Settings = Settings(org: string, mode: string, cachettl: int, orgmode: bool)

  /**
   * The settings chosen by the constructor: an option that is missing or falsy
   * (`''`, `0`, `false`) falls back to its default, `''`, `'token'`, `5` and
   * `false`; any other value is taken as given.
   */
  function Defaults(config: Config): (s: Settings)
    ensures config == Config(None, None, None, None) ==> s == Settings("", "token", 5, false)
    ensures config.org.Some? ==> s.org == config.org.value
    ensures config.org.None? ==> s.org == ""
    ensures s.mode == (if config.mode.Some? && config.mode.value != "" then config.mode.value else "token")
    ensures s.cachettl == (if config.cachettl.Some? && config.cachettl.value != 0 then config.cachettl.value else 5)
    ensures s.orgmode <==> config.orgmode == Some(true)
    ensures s.mode != "" && s.cachettl != 0
  {
    Settings(
      if config.org.Some? && config.org.value != "" then config.org.value else "",
      if config.mode.Some? && config.mode.value != "" then config.mode.value else "token",
      if config.cachettl.Some? && config.cachettl.value != 0 then config.cachettl.value else 5,
      if config.orgmode.Some? && config.orgmode.value then true else false)
  }

  /** The credential the GitHub client is configured with. */
  datatype Credential = Token(token: string) | Basic(username: string, password: string)

  /** `validateMode`: the mode is one of the known ones. */
  predicate ValidateMode(mode: string) {
    mode in ValidMethods
  }

  lemma ValidateModeExactly(mode: string)
    ensures ValidateMode(mode) <==> mode == "token" || mode == "basic"
  {
  }

  /**
   * The credential `githubAuth` configures for `mode`, or `None` where it throws:
   * a token equal to the password (the username plays no part) in `token` mode,
   * both in `basic` mode. It configures one exactly when `validateMode` accepts the mode.
   */
  function Configure(mode: string, username: string, password: string): (c: Option<Credential>)
    ensures c.Some? <==> ValidateMode(mode)
    ensures mode == "token" ==> c == Some(Token(password))
    ensures mode == "basic" ==> c == Some(Basic(username, password))
  {
    if mode == "token" then Some(Token(password))
    else if mode == "basic" then Some(Basic(username, password))
    else None
  }

  /** The `badUsers.filter(u => u != username)` of `adduser`. */
  function Without(s: seq<string>, x: string): (r: seq<string>)
    ensures x !in r
    ensures forall y :: y != x ==> multiset(r)[y] == multiset(s)[y]
    decreases |s|
  {
    if s == [] then []
    else
      assert s == [s[0]] + s[1..];
      (if s[0] == x then [] else [s[0]]) + Without(s[1..], x)
  }

  /** Removal distributes over concatenation, so the remaining users keep their order. */
  lemma {:induction false} WithoutAppend(a: seq<string>, b: seq<string>, x: string)
    ensures Without(a + b, x) == Without(a, x) + Without(b, x)
    decreases |a|
  {
    if a == [] {
      assert a + b == b;
    } else {
      var head := if a[0] == x then [] else [a[0]];
      assert (a + b)[0] == a[0];
      assert (a + b)[1..] == a[1..] + b;
      assert Without(a + b, x) == head + Without(a[1..] + b, x);
      WithoutAppend(a[1..], b, x);
      assert Without(a, x) == head + Without(a[1..], x);
    }
  }

  /** A team cache entry: the groups and the instant after which they are stale. */
  datatype CacheEntry = CacheEntry(teams: seq<string>, ttl: int)

  /** The cache holds an entry for `user` whose expiry is strictly after `now`. */
  predicate CacheHit(cache: map<string, CacheEntry>, user: string, now: int) {
    user in cache && now < cache[user].ttl
  }

  /** The second argument the host's callback receives. */
  datatype Value = Absent | Flag(flag: bool) | Groups(teams: seq<string>)

  /**
   * How a call ends: the callback is called with an error status (or none) and a
   * value, or the call throws before calling back.
   */
  datatype Reply = Done(error: Option<int>, value: Value) | Threw

  /** The value `authenticate` passes on for what `getUserTeams` returned: the groups, or `false`. */
  function Delivered(teams: Option<seq<string>>): Value {
    if teams.Some? then Groups(teams.value) else Flag(false)
  }

  class VerdaccioGithubAuth {
    const org: string
    const mode: string
    const cachettl: int
    const orgmode: bool

    /** Users whose last `adduser` probe failed, in the order of the failures; duplicates allowed. */
    var badUsers: seq<string>
    /** The resolved groups per user. Entries are overwritten, never removed. */
    var teamCache: map<string, CacheEntry>

    /** The credential the GitHub client was last configured with. */
    ghost var credential: Option<Credential>
    /** The number of calls made to GitHub so far. */
    ghost var requests: nat

    constructor (config: Config)
      ensures Settings(org, mode, cachettl, orgmode) == Defaults(config)
      ensures badUsers == [] && teamCache == map[]
      ensures credential == None && requests == 0
    {
      var s := Defaults(config);
      org := s.org;
      mode := s.mode;
      cachettl := s.cachettl;
      orgmode := s.orgmode;
      badUsers := [];
      teamCache := map[];
      credential := None;
      requests := 0;
    }

    /** `githubAuth`: configure the client for the mode, or throw for an unknown one. */
    method GithubAuth(username: string, password: string) returns (threw: bool)
      modifies this`credential
      ensures threw <==> !ValidateMode(mode)
      ensures credential == if threw then old(credential) else Configure(mode, username, password)
    {
      if mode == "token" {
        credential := Some(Token(password));
        return false;
      } else if mode == "basic" {
        credential := Some(Basic(username, password));
        return false;
      }
      threw := true;
    }

    /**
     * `getUserTeams`: a live cache entry is returned as it is, without a remote
     * call; otherwise the teams are fetched, and on success turned into the
     * group list, which replaces the user's cache entry with a fresh expiry.
     * A failed fetch yields `None` and leaves the cache as it was. The clock is
     * read twice: `now` when the cache is consulted, `doneAt` once the pages
     * are in, and the expiry counts from `doneAt`.
     */
    method GetUserTeams(forUser: string, bypassCache: bool, now: int, doneAt: int, rs: seq<Response>) returns (teams: Option<seq<string>>)
      modifies this`teamCache, this`requests
      ensures !bypassCache && CacheHit(old(teamCache), forUser, now) ==>
        teams == Some(old(teamCache)[forUser].teams) && teamCache == old(teamCache) && requests == old(requests)
      ensures (bypassCache || !CacheHit(old(teamCache), forUser, now)) && Gather(rs).None? ==>
        teams == None && teamCache == old(teamCache) && requests > old(requests)
      ensures (bypassCache || !CacheHit(old(teamCache), forUser, now)) && Gather(rs).Some? ==>
        && teams == Some(TeamList(Gather(rs).value, forUser, org, orgmode))
        && teamCache == old(teamCache)[forUser := CacheEntry(teams.value, doneAt + cachettl)]
        && requests > old(requests)
    {
      if !bypassCache && forUser in teamCache && now < teamCache[forUser].ttl {
        return Some(teamCache[forUser].teams);
      }
      var data, count := FetchAll(rs);
      requests := requests + count;
      if data.None? {
        return None;
      }
      var list := Slugs(data.value, org) + [forUser];
      if orgmode {
        list := list + OrgGroups(data.value);
      }
      assert list == TeamList(data.value, forUser, org, orgmode);
      teamCache := teamCache[forUser := CacheEntry(list, doneAt + cachettl)];
      teams := Some(teamCache[forUser].teams);
    }

    /**
     * `authenticate`: a listed user is refused with 403 before anything else
     * happens; otherwise the client is configured and the user's groups are
     * resolved and handed back, `false` standing for a failed resolution.
     * `now` and `doneAt` are the clock before and after the fetch.
     */
    method Authenticate(username: string, password: string, now: int, doneAt: int, rs: seq<Response>) returns (reply: Reply)
      modifies this`teamCache, this`credential, this`requests
      ensures username in old(badUsers) ==> reply == Done(Some(Forbidden), Absent) && unchanged(this)
      ensures username !in old(badUsers) && !ValidateMode(mode) ==> reply == Threw && unchanged(this)
      ensures username !in old(badUsers) && ValidateMode(mode) ==> credential == Configure(mode, username, password)
      ensures username !in old(badUsers) && ValidateMode(mode) && CacheHit(old(teamCache), username, now) ==>
        && reply == Done(None, Groups(old(teamCache)[username].teams))
        && teamCache == old(teamCache) && requests == old(requests)
      ensures username !in old(badUsers) && ValidateMode(mode) && !CacheHit(old(teamCache), username, now) ==>
        && reply == Done(None, Delivered(if Gather(rs).Some? then Some(TeamList(Gather(rs).value, username, org, orgmode)) else None))
        && teamCache == (if Gather(rs).Some? then old(teamCache)[username := CacheEntry(reply.value.teams, doneAt + cachettl)] else old(teamCache))
        && requests > old(requests)
    {
      if username in badUsers {
        return Done(Some(Forbidden), Absent);
      }
      var threw := GithubAuth(username, password);
      if threw {
        return Threw;
      }
      var teams := GetUserTeams(username, false, now, doneAt, rs);
      reply := Done(None, Delivered(teams));
    }

    /**
     * `adduser`: configure the client and probe it. On success every copy of
     * the user leaves `badUsers`; on failure the user is appended and the
     * reply is a 409 error with `false`.
     */
    method AddUser(username: string, password: string, probeOk: bool) returns (reply: Reply)
      modifies this`badUsers, this`credential, this`requests
      ensures !ValidateMode(mode) ==> reply == Threw && unchanged(this)
      ensures ValidateMode(mode) ==> credential == Configure(mode, username, password) && requests == old(requests) + 1
      ensures ValidateMode(mode) && probeOk ==>
        reply == Done(None, Flag(true)) && badUsers == Without(old(badUsers), username)
      ensures ValidateMode(mode) && !probeOk ==>
        reply == Done(Some(Conflict), Flag(false)) && badUsers == old(badUsers) + [username]
    {
      var threw := GithubAuth(username, password);
      if threw {
        return Threw;
      }
      requests := requests + 1;
      if probeOk {
        badUsers := Without(badUsers, username);
        reply := Done(None, Flag(true));
      } else {
        badUsers := badUsers + [username];
        reply := Done(Some(Conflict), Flag(false));
      }
    }
  }

  // ---------------------------------------------------------------------------
  // Runs of a fresh plugin, as the host would drive it
  // ---------------------------------------------------------------------------

  /** A failed probe lists the user, and the next login of that user is refused with 403 whatever GitHub would answer. */
  method FailedProbeRefusesLogin(config: Config, username: string, probePassword: string, password: string,
                                 now: int, doneAt: int, rs: seq<Response>) returns (probe: Reply, login: Reply)
    requires ValidateMode(Defaults(config).mode)
    ensures probe == Done(Some(Conflict), Flag(false))
    ensures login == Done(Some(Forbidden), Absent)
  {
    var auth := new VerdaccioGithubAuth(config);
    probe := auth.AddUser(username, probePassword, false);
    login := auth.Authenticate(username, password, now, doneAt, rs);
  }

  /** After failed probes, one successful probe lifts the refusal: the next login resolves the user's groups. */
  method SuccessfulProbeLiftsRefusal(config: Config, username: string, password: string, failures: nat,
                                     now: int, doneAt: int, rs: seq<Response>) returns (login: Reply)
    requires ValidateMode(Defaults(config).mode)
    requires Gather(rs).Some?
    ensures login == Done(None, Groups(TeamList(Gather(rs).value, username, Defaults(config).org, Defaults(config).orgmode)))
  {
    var auth := new VerdaccioGithubAuth(config);
    var i := 0;
    while i < failures
      invariant auth.badUsers == seq(i, _ => username)
      invariant auth.teamCache == map[]
      invariant Settings(auth.org, auth.mode, auth.cachettl, auth.orgmode) == Defaults(config)
    {
      var _ := auth.AddUser(username, password, false);
      i := i + 1;
    }
    var _ := auth.AddUser(username, password, true);
    login := auth.Authenticate(username, password, now, doneAt, rs);
  }

  /**
   * A second login before the expiry, `cachettl` minutes after the first
   * login's fetch completed, is answered from the cache: the same groups,
   * whatever GitHub would answer now.
   */
  method LoginWithinTtlUsesCache(config: Config, username: string, password: string,
                                 now: int, doneAt: int, later: int, laterDone: int,
                                 rs1: seq<Response>, rs2: seq<Response>) returns (first: Reply, second: Reply)
    requires ValidateMode(Defaults(config).mode)
    requires Gather(rs1).Some?
    requires later < doneAt + Defaults(config).cachettl
    ensures first == Done(None, Groups(TeamList(Gather(rs1).value, username, Defaults(config).org, Defaults(config).orgmode)))
    ensures second == first
  {
    var auth := new VerdaccioGithubAuth(config);
    first := auth.Authenticate(username, password, now, doneAt, rs1);
    second := auth.Authenticate(username, password, later, laterDone, rs2);
  }

  /**
   * Once the expiry has passed (`cachettl` minutes after the first login's
   * fetch completed), a login fetches the teams again and answers with what
   * GitHub lists now.
   */
  method LoginAfterTtlRefetches(config: Config, username: string, password: string,
                                now: int, doneAt: int, later: int, laterDone: int,
                                rs1: seq<Response>, rs2: seq<Response>) returns (second: Reply)
    requires ValidateMode(Defaults(config).mode)
    requires Gather(rs1).Some? && Gather(rs2).Some?
    requires doneAt + Defaults(config).cachettl <= later
    ensures second == Done(None, Groups(TeamList(Gather(rs2).value, username, Defaults(config).org, Defaults(config).orgmode)))
  {
    var auth := new VerdaccioGithubAuth(config);
    var _ := auth.Authenticate(username, password, now, doneAt, rs1);
    second := auth.Authenticate(username, password, later, laterDone, rs2);
  }

  /** With a mode other than `token` or `basic`, both entry points throw. */
  method UnsupportedModeThrows(config: Config, username: string, password: string,
                               now: int, doneAt: int, rs: seq<Response>) returns (probe: Reply, login: Reply)
    requires !ValidateMode(Defaults(config).mode)
    ensures probe == Threw && login == Threw
  {
    var auth := new VerdaccioGithubAuth(config);
    probe := auth.AddUser(username, password, true);
    login := auth.Authenticate(username, password, now, doneAt, rs);
  }
}
