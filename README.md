# verdaccio-github-auth, modelled in Dafny

A model of `VerdaccioGithubAuth`, the Verdaccio plugin that authenticates npm
users against GitHub and turns their GitHub team memberships into Verdaccio
groups. The GitHub client is abstracted away. The model covers:

- the constructor's configuration defaults (`org`, `mode`, `cachettl`, `orgmode`);
- `githubAuth`, the dispatch on the authentication mode, and `validateMode`;
- `adduser`, which probes the credential and keeps the `badUsers` list up to date;
- `authenticate`, which refuses listed users with 403 and otherwise resolves groups;
- `getUserTeams`, which consults the per-user team cache, pages through
  `users.getTeams`, filters by organization, maps to slugs, appends the user,
  adds the distinct `org:<login>` pseudo-groups in organization mode, and
  stores the result with an expiry `cachettl` minutes after the fetch completed.

Files:

- `wrappers.dfy`: the `Option` type.
- `teams.dfy` (module `Teams`): the pure part of team resolution. `Gather` specifies
  what the paging loop accumulates, and `FetchAll` is that loop. `Slugs` is the
  organization filter followed by the map to slugs. `DedupFold` is the `reduce`
  that builds the pseudo-groups. `TeamList` is the final group list.
- `auth.dfy` (module `Auth`): the class `VerdaccioGithubAuth`. Its fields
  `badUsers` (a `seq`) and `teamCache` (a `map`) are updated in place. A ghost
  field `credential` records the client configuration left by the last
  `githubAuth` call. A ghost field `requests` counts calls to GitHub, which
  makes "no remote call" checkable. The module ends with client methods that
  drive a fresh plugin the way the host does.

How the outside world appears in the model:

- The answer of the `users.get` probe is a boolean parameter.
- The answers of `users.getTeams` and `getNextPage` are a sequence of responses.
  Each response is a page with a "has next page" flag, or a failure. A request
  for which the sequence holds no answer counts as a failed request.
- The clock is read twice, as in the code: `now` when the cache is consulted, and `doneAt` once the pages are in. The expiry of a new cache entry is `doneAt + cachettl`. Both are integers, in minutes.
- Errors are their HTTP status codes, 403 and 409.
- A call ends either by calling back with an error status (or none) and a value
  (`Done`), or by throwing before it calls back (`Threw`).

Points about the code's behaviour that the model keeps as they are:

- `badUsers` is a list, not a set. A failed probe appends the user even if it is
  already listed. A successful probe removes every copy.
- An unsupported mode is not rejected at construction. `validateMode` is never
  called. The first `authenticate` or `adduser` throws from `githubAuth`.
- `authenticate` does not check that the username is non-empty.
- The guards `teams !== false` and `if (orgs)` are always true, because both values
  are arrays. The user is therefore always appended, and in organization mode the
  pseudo-group list (possibly empty) is always concatenated.
- A failed resolution is passed to the host as `callback(null, false)`, not as an
  error. The cache is left unchanged in that case.

## Model

| member | source | states |
|---|---|---|
| Auth.Defaults | src/index.ts:37-43 | a missing or falsy option falls back to `''`, `'token'`, `5`, `false`; any other value is kept; the empty configuration gives exactly those defaults; mode and TTL are never falsy afterwards |
| Auth.VerdaccioGithubAuth.constructor | src/index.ts:37-46 | the plugin runs with the defaulted settings, an empty `badUsers`, an empty team cache and an unconfigured client |
| Auth.ValidateModeExactly | src/index.ts:178-185 | `validateMode(m)` holds exactly when `m` is `token` or `basic` |
| Auth.Configure | src/index.ts:91-108 | a credential is configured exactly when `validateMode` accepts the mode; `token` gives a token equal to the password whatever the username; `basic` gives username and password |
| Auth.VerdaccioGithubAuth.GithubAuth | src/index.ts:91-108 | throws exactly for a mode other than `token`/`basic`, leaving the client as it was; otherwise the client holds the credential `Configure` gives |
| Auth.Without | src/index.ts:81 | the filtered list holds no copy of the user, and every other user as many times as before |
| Auth.WithoutAppend | src/index.ts:81 | the filter distributes over concatenation, so the users that remain keep their order |
| Auth.VerdaccioGithubAuth.AddUser | src/index.ts:75-89 | an unknown mode throws with nothing changed; otherwise one probe is made; a successful probe removes every copy of the user and replies `(null, true)`; a failed one appends the user and replies 409 with `false` |
| Auth.VerdaccioGithubAuth.Authenticate | src/index.ts:56-66 | a listed user gets 403 and nothing changes: no client configuration, no remote call, caches untouched; an unknown mode throws with nothing changed; otherwise the client is configured and the reply is the cached groups on a hit at `now`, or the fresh groups (stored until `doneAt + cachettl`, `doneAt` being the clock after the fetch), or `false` after a failed fetch with the cache untouched |
| Auth.VerdaccioGithubAuth.GetUserTeams | src/index.ts:115-171 | a live entry (expiry strictly after `now`, cache not bypassed) is returned unchanged with no remote call; otherwise a failed fetch yields nothing and leaves the cache; a successful one returns `TeamList` of the gathered data and replaces only this user's entry, with expiry `doneAt + cachettl`, `doneAt` being the clock read after the pages arrived |
| Teams.FetchAll | src/index.ts:122-134 | the loop's result is `Gather` of the answers; the number of requests is one past the index of the first answer that fails or has no next page, or one past the last answer when every answer has a next page |
| Teams.GatherStopsAt | src/index.ts:125-131 | when the first answer without a next page is a page, the data are all pages up to it concatenated in order; when it is a failure, the result is a failure |
| Teams.GatherNeverStops | src/index.ts:128-131 | if every available answer reports a next page, the request beyond them fails and so does the whole fetch |
| Teams.SlugsAppend | src/index.ts:136-142 | filter-then-map distributes over concatenation: slugs come out in data order |
| Teams.SlugsMembers | src/index.ts:136-142 | a slug is listed exactly when some team that passes the organization filter (empty `org`, or matching login) carries it |
| Teams.SlugsUnfiltered | src/index.ts:137-139 | with no organization configured, the slugs are those of every team, position by position |
| Teams.OrgLabels | src/index.ts:150-151 | the `org:<login>` label of every team, unfiltered, in data order |
| Teams.DedupFoldElements | src/index.ts:152-158 | the `reduce` keeps its accumulator as a prefix, never pushes a duplicate, and ends holding exactly the values of the accumulator and the input |
| Teams.DedupFoldOrder | src/index.ts:152-158 | the `reduce` lists its values in the order of their first occurrence |
| Teams.OrgGroupsSpec | src/index.ts:149-158 | the pseudo-groups are distinct, are exactly the labels of the unfiltered data, and come in first-seen order |
| Teams.TeamListMembers | src/index.ts:136-163 | the user directly follows the slugs, and is last without organization mode; a group is present exactly when it is the user, the slug of a team that passes the filter, or, in organization mode only, the label of any team's organization |
| Auth.FailedProbeRefusesLogin | src/index.ts:56-89 | after a failed probe the reply is 409 with `false`, and the next login of that user is refused with 403 whatever GitHub would answer |
| Auth.SuccessfulProbeLiftsRefusal | src/index.ts:56-89 | after any number of failed probes, one successful probe lets the next login resolve the user's groups |
| Auth.LoginWithinTtlUsesCache | src/index.ts:115-121 | a second login before the expiry (`cachettl` minutes after the first login's fetch completed) answers with the first login's groups, whatever GitHub would answer now |
| Auth.LoginAfterTtlRefetches | src/index.ts:115-170 | a login at or after the expiry (`cachettl` minutes after the first login's fetch completed) answers with the groups GitHub lists now |
| Auth.UnsupportedModeThrows | src/index.ts:91-108 | with a mode other than `token` or `basic`, both `adduser` and `authenticate` throw |

## Left out

- The GitHub client (`users.get`, `users.getTeams`, `hasNextPage`, `getNextPage`, `authenticate`) is left out. Its answers are parameters. Its credential is a ghost field.
- The client options (`config.octokit`, src/index.ts:43-45) are passed to the client unchanged and play no part in the logic.
- `moment` is replaced by integer minutes: `ttl.isAfter()` is `now < ttl`, and `moment().add(cachettl, 'minutes')` is `doneAt + cachettl`. No order between `now` and `doneAt` is assumed.
- Promises, `async`/`await` and callbacks are left out. Each call runs to completion before the next, so the race on the shared client credential and duplicate concurrent fetches are not modelled.
- The `http-errors` objects are reduced to their status codes; the error messages are not modelled.
- The module wrapper `VerdaccioGithubAuthWrapper`, its export and the unused `fs` import are left out.
- A remote that reports a next page forever cannot be represented: the answers are a finite sequence, and a request beyond them counts as failed.
- `teamCache` is a plain JavaScript object. A username such as `constructor` finds an inherited property instead of an entry. The model's `map` has no such keys.
- Configuration values of other JavaScript types are not modelled: a non-string `org`, `NaN` or fractional `cachettl`, a truthy non-boolean `orgmode`.
- The cached array is the same object that is handed to the host, so a host that mutates it would change the cache. Values in the model are immutable.
- Auth.VerdaccioGithubAuth.GetUserTeams: states only that the request count grows on a remote fetch, not by how much. The exact count is stated on `Teams.FetchAll`.
- Auth.VerdaccioGithubAuth.AddUser: the case where the host's callback throws is not modelled. The `.catch` at src/index.ts:84-88 also catches an exception thrown by `callback(null, true)` at src/index.ts:82. In that case the user just removed at src/index.ts:81 is appended again, and the callback runs a second time with 409 and `false`. The contract covers only callbacks that return normally.
