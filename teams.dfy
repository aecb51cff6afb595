/**
 * Team resolution for the GitHub authentication plugin, with the remote listing
 * abstracted away: the pages the remote would answer are an input, and what
 * remains is list transformation.
 *
 *   - gathering the pages of `users.getTeams` while the remote reports a next page,
 *   - keeping the teams of the configured organization and mapping them to slugs,
 *   - the distinct `org:<login>` pseudo-groups, in first-seen order,
 *   - the group list handed to the host.
 */
module Teams {
  import opened Wrappers

  /** One membership item of a `users.getTeams` page: the team slug and its organization's login. */
  datatype Team = Team(slug: string, orgLogin: string)

  /** One answer of the remote listing: a page and whether the remote reports a next one, or an error. */
  datatype Response = Page(items: seq<Team>, hasNext: bool) | Failed

  /** A response after which the loop asks for nothing more. */
  predicate Ends(resp: Response) {
    resp.Failed? || !resp.hasNext
  }

  // ---------------------------------------------------------------------------
  // Pagination
  // ---------------------------------------------------------------------------

  function Prepend(items: seq<Team>, rest: Option<seq<Team>>): Option<seq<Team>> {
    match rest
    case None => None
    case Some(more) => Some(items + more)
  }

  lemma PrependTwice(a: seq<Team>, b: seq<Team>, rest: Option<seq<Team>>)
    ensures Prepend(a, Prepend(b, rest)) == Prepend(a + b, rest)
  {
    if rest.Some? {
      assert a + (b + rest.value) == (a + b) + rest.value;
    }
  }

  /**
   * What the fetch loop accumulates from the answers `rs`, asked for in order:
   * the concatenation of the pages up to the first one without a next page, or
   * `None` when a request fails. A request for which `rs` holds no answer fails.
   */
  function Gather(rs: seq<Response>): Option<seq<Team>>
    decreases |rs|
  {
    if rs == [] then None
    else match rs[0]
      case Failed => None
      case Page(items, hasNext) => if hasNext then Prepend(items, Gather(rs[1..])) else Some(items)
  }

  function Items(resp: Response): seq<Team> {
    if resp.Page? then resp.items else []
  }

  /** The items of all pages in `rs`, in order; written from the last page back, independently of Gather. */
  function Concat(rs: seq<Response>): seq<Team>
    decreases |rs|
  {
    if rs == [] then [] else Concat(rs[..|rs| - 1]) + Items(rs[|rs| - 1])
  }

  /** `k` is the first answer after which the loop stops asking. */
  ghost predicate StopsAt(rs: seq<Response>, k: int) {
    0 <= k < |rs| && Ends(rs[k]) && forall j :: 0 <= j < k ==> !Ends(rs[j])
  }

  lemma {:induction false} ConcatCons(rs: seq<Response>)
    requires rs != []
    ensures Concat(rs) == Items(rs[0]) + Concat(rs[1..])
    decreases |rs|
  {
    var n := |rs|;
    if n == 1 {
      assert rs[..0] == [];
      assert rs[1..] == [];
      assert Concat(rs) == Concat([]) + Items(rs[0]);
    } else {
      var init := rs[..n - 1];
      var tail := rs[1..];
      assert Concat(rs) == Concat(init) + Items(rs[n - 1]);
      ConcatCons(init);
      assert init[0] == rs[0];
      assert init[1..] == tail[..|tail| - 1];
      assert tail[|tail| - 1] == rs[n - 1];
      assert Concat(tail) == Concat(init[1..]) + Items(rs[n - 1]);
    }
  }

  /** When the loop stops at answer `k`, the result is the concatenation of pages 0..k, or a failure if answer `k` is one. */
  lemma {:induction false} GatherStopsAt(rs: seq<Response>, k: int)
    requires StopsAt(rs, k)
    ensures Gather(rs) == if rs[k].Failed? then None else Some(Concat(rs[..k + 1]))
    decreases k
  {
    if k == 0 {
      var first := rs[..1];
      assert first[..0] == [] && first[0] == rs[0];
      assert Concat(first) == Concat([]) + Items(rs[0]) == Items(rs[0]);
      assert rs != [] && Ends(rs[0]);
      if rs[0].Page? {
        assert Gather(rs) == Some(rs[0].items);
      }
    } else {
      forall j | 0 <= j < k - 1 ensures !Ends(rs[1..][j]) {
        assert rs[1..][j] == rs[j + 1];
      }
      assert rs[1..][k - 1] == rs[k];
      GatherStopsAt(rs[1..], k - 1);
      ConcatCons(rs[..k + 1]);
      assert rs[..k + 1][1..] == rs[1..][..k];
    }
  }

  /** When every answer reports a next page, the loop eventually asks for one that is not there, and fails. */
  lemma {:induction false} GatherNeverStops(rs: seq<Response>)
    requires forall j :: 0 <= j < |rs| ==> !Ends(rs[j])
    ensures Gather(rs) == None
    decreases |rs|
  {
    if rs != [] {
      forall j | 0 <= j < |rs| - 1 ensures !Ends(rs[1..][j]) {
        assert rs[1..][j] == rs[j + 1];
      }
      GatherNeverStops(rs[1..]);
    }
  }

  /**
   * The fetch loop of `getUserTeams`: the first page, then the next page while
   * the remote reports one, concatenating as it goes. `requests` is the number of
   * remote calls made.
   */
  method FetchAll(rs: seq<Response>) returns (data: Option<seq<Team>>, requests: nat)
    ensures data == Gather(rs)
    ensures 1 <= requests <= |rs| + 1
    ensures forall k :: StopsAt(rs, k) ==> requests == k + 1
    ensures (forall j :: 0 <= j < |rs| ==> !Ends(rs[j])) ==> requests == |rs| + 1
  {
    requests := 1;
    if rs == [] || rs[0].Failed? {
      data := None;
      return;
    }
    var resp := rs[0];
    var acc := resp.items;
    while resp.hasNext
      invariant 1 <= requests <= |rs|
      invariant resp == rs[requests - 1] && resp.Page?
      invariant forall j :: 0 <= j < requests - 1 ==> !Ends(rs[j])
      invariant resp.hasNext ==> Gather(rs) == Prepend(acc, Gather(rs[requests..]))
      invariant !resp.hasNext ==> Gather(rs) == Some(acc)
      decreases |rs| - requests
    {
      if requests == |rs| || rs[requests].Failed? {
        assert requests < |rs| ==> rs[requests..][0] == rs[requests];
        data, requests := None, requests + 1;
        return;
      }
      assert rs[requests..][0] == rs[requests];
      assert rs[requests..][1..] == rs[requests + 1..];
      PrependTwice(acc, rs[requests].items, Gather(rs[requests + 1..]));
      resp := rs[requests];
      acc := acc + resp.items;
      requests := requests + 1;
    }
    data := Some(acc);
  }

  // ---------------------------------------------------------------------------
  // Organization filter and slugs
  // ---------------------------------------------------------------------------

  /** A team passes the filter when no organization is configured or it belongs to that organization. */
  predicate Kept(org: string, t: Team) {
    org == "" || t.orgLogin == org
  }

  /** The slugs of the teams that pass the organization filter, in order. */
  function Slugs(data: seq<Team>, org: string): seq<string>
    decreases |data|
  {
    if data == [] then []
    else (if Kept(org, data[0]) then [data[0].slug] else []) + Slugs(data[1..], org)
  }

  /** Filtering and mapping distribute over concatenation: the slug order follows the data order. */
  lemma {:induction false} SlugsAppend(a: seq<Team>, b: seq<Team>, org: string)
    ensures Slugs(a + b, org) == Slugs(a, org) + Slugs(b, org)
    decreases |a|
  {
    if a == [] {
      assert a + b == b;
    } else {
      var head := if Kept(org, a[0]) then [a[0].slug] else [];
      assert (a + b)[0] == a[0];
      assert (a + b)[1..] == a[1..] + b;
      assert Slugs(a + b, org) == head + Slugs(a[1..] + b, org);
      SlugsAppend(a[1..], b, org);
      assert Slugs(a, org) == head + Slugs(a[1..], org);
    }
  }

  /** A slug is listed exactly when some team that passes the filter carries it. */
  lemma {:induction false} SlugsMembers(data: seq<Team>, org: string, s: string)
    ensures s in Slugs(data, org) <==> exists i :: 0 <= i < |data| && Kept(org, data[i]) && data[i].slug == s
    decreases |data|
  {
    if data != [] {
      SlugsMembers(data[1..], org, s);
      if exists i :: 0 <= i < |data| && Kept(org, data[i]) && data[i].slug == s {
        var i :| 0 <= i < |data| && Kept(org, data[i]) && data[i].slug == s;
        if i > 0 {
          assert data[1..][i - 1] == data[i];
        }
      }
      if exists i :: 0 <= i < |data| - 1 && Kept(org, data[1..][i]) && data[1..][i].slug == s {
        var i :| 0 <= i < |data| - 1 && Kept(org, data[1..][i]) && data[1..][i].slug == s;
        assert data[i + 1] == data[1..][i];
      }
    }
  }

  /** With no organization configured, every team contributes its slug, position by position. */
  lemma {:induction false} SlugsUnfiltered(data: seq<Team>)
    ensures |Slugs(data, "")| == |data|
    ensures forall i :: 0 <= i < |data| ==> Slugs(data, "")[i] == data[i].slug
    decreases |data|
  {
    if data != [] {
      SlugsUnfiltered(data[1..]);
      forall i | 0 < i < |data| ensures Slugs(data, "")[i] == data[i].slug {
        assert data[1..][i - 1] == data[i];
      }
    }
  }

  // ---------------------------------------------------------------------------
  // Organization pseudo-groups
  // ---------------------------------------------------------------------------

  function OrgLabel(login: string): string {
    "org:" + login
  }

  /** The `org:<login>` label of every team, unfiltered, in order. */
  function OrgLabels(data: seq<Team>): (r: seq<string>)
    ensures |r| == |data|
    ensures forall i :: 0 <= i < |data| ==> r[i] == OrgLabel(data[i].orgLogin)
    decreases |data|
  {
    if data == [] then [] else [OrgLabel(data[0].orgLogin)] + OrgLabels(data[1..])
  }

  predicate Distinct<T(==)>(s: seq<T>) {
    forall i, j :: 0 <= i < j < |s| ==> s[i] != s[j]
  }

  /** The position of the first occurrence of `x` in `s`. */
  function FirstIndex<T(==)>(s: seq<T>, x: T): (k: nat)
    requires x in s
    ensures k < |s| && s[k] == x && x !in s[..k]
    decreases |s|
  {
    if s[0] == x then 0
    else
      var k := FirstIndex(s[1..], x);
      assert s[..k + 1] == [s[0]] + s[1..][..k];
      k + 1
  }

  /** Every element of `r` occurs in `s`, and `r` lists them in the order of their first occurrence in `s`. */
  ghost predicate InFirstSeenOrder<T>(r: seq<T>, s: seq<T>) {
    && (forall x :: x in r ==> x in s)
    && forall i, j :: 0 <= i < j < |r| && r[i] in s && r[j] in s ==> FirstIndex(s, r[i]) < FirstIndex(s, r[j])
  }

  /**
   * The `reduce` of `getUserTeams`: walk `vs` left to right and push each value
   * the accumulator does not already hold.
   */
  function DedupFold(acc: seq<string>, vs: seq<string>): seq<string>
    decreases |vs|
  {
    if vs == [] then acc
    else DedupFold(if vs[0] in acc then acc else acc + [vs[0]], vs[1..])
  }

  /** The pseudo-groups appended in organization mode. */
  function OrgGroups(data: seq<Team>): seq<string> {
    DedupFold([], OrgLabels(data))
  }

  lemma {:induction false} FirstIndexAppend<T>(a: seq<T>, b: seq<T>, x: T)
    requires x in a + b
    ensures FirstIndex(a + b, x) == if x in a then FirstIndex(a, x) else |a| + FirstIndex(b, x)
    decreases |a|
  {
    if a == [] {
      assert a + b == b;
    } else if a[0] != x {
      assert (a + b)[1..] == a[1..] + b;
      FirstIndexAppend(a[1..], b, x);
    }
  }

  /** The fold keeps its accumulator as a prefix, never repeats a value, and ends up holding every value seen. */
  lemma {:induction false} DedupFoldElements(acc: seq<string>, vs: seq<string>)
    requires Distinct(acc)
    ensures |acc| <= |DedupFold(acc, vs)| && DedupFold(acc, vs)[..|acc|] == acc
    ensures Distinct(DedupFold(acc, vs))
    ensures forall x :: x in DedupFold(acc, vs) <==> x in acc || x in vs
    decreases |vs|
  {
    if vs != [] {
      var acc' := if vs[0] in acc then acc else acc + [vs[0]];
      DedupFoldElements(acc', vs[1..]);
      var r := DedupFold(acc, vs);
      assert acc'[..|acc|] == acc;
      assert r[..|acc|] == r[..|acc'|][..|acc|];
      assert vs == [vs[0]] + vs[1..];
    }
  }

  lemma FirstIndexDistinct<T>(s: seq<T>, i: int)
    requires Distinct(s) && 0 <= i < |s|
    ensures FirstIndex(s, s[i]) == i
  {
    var k := FirstIndex(s, s[i]);
    assert s[k] == s[i];
  }

  /** Dropping a value that already occurs in `acc` shifts the first occurrences after `acc` by one. */
  lemma FirstIndexSkip(acc: seq<string>, vs: seq<string>, x: string)
    requires vs != [] && vs[0] in acc && x in acc + vs[1..]
    ensures x in acc + vs
    ensures FirstIndex(acc + vs, x) ==
      if FirstIndex(acc + vs[1..], x) < |acc| then FirstIndex(acc + vs[1..], x) else FirstIndex(acc + vs[1..], x) + 1
  {
    FirstIndexAppend(acc, vs, x);
    FirstIndexAppend(acc, vs[1..], x);
    if x !in acc {
      assert vs[0] != x;
    }
  }

  /** The fold lists its values in the order in which they first occur in `acc + vs`. */
  lemma {:induction false} DedupFoldOrder(acc: seq<string>, vs: seq<string>)
    requires Distinct(acc)
    ensures InFirstSeenOrder(DedupFold(acc, vs), acc + vs)
    decreases |vs|
  {
    if vs == [] {
      assert acc + vs == acc;
      forall i | 0 <= i < |acc| ensures FirstIndex(acc, acc[i]) == i {
        FirstIndexDistinct(acc, i);
      }
    } else if vs[0] !in acc {
      var acc' := acc + [vs[0]];
      assert acc' + vs[1..] == acc + vs;
      DedupFoldOrder(acc', vs[1..]);
    } else {
      var r := DedupFold(acc, vs[1..]);
      assert DedupFold(acc, vs) == r;
      var t := acc + vs;
      var t' := acc + vs[1..];
      DedupFoldElements(acc, vs[1..]);
      DedupFoldOrder(acc, vs[1..]);
      forall x | x in r ensures x in t {
        FirstIndexSkip(acc, vs, x);
      }
      forall i, j | 0 <= i < j < |r| && r[i] in t && r[j] in t
        ensures FirstIndex(t, r[i]) < FirstIndex(t, r[j])
      {
        assert r[i] in t' && r[j] in t';
        assert FirstIndex(t', r[i]) < FirstIndex(t', r[j]);
        FirstIndexSkip(acc, vs, r[i]);
        FirstIndexSkip(acc, vs, r[j]);
      }
    }
  }

  lemma OrgLabelsMembers(data: seq<Team>, g: string)
    ensures g in OrgLabels(data) <==> exists i :: 0 <= i < |data| && g == OrgLabel(data[i].orgLogin)
  {
    var labels := OrgLabels(data);
    if g in labels {
      var i :| 0 <= i < |labels| && labels[i] == g;
    }
  }

  lemma OrgGroupsSpec(data: seq<Team>)
    ensures Distinct(OrgGroups(data))
    ensures forall g :: g in OrgGroups(data) <==> exists i :: 0 <= i < |data| && g == OrgLabel(data[i].orgLogin)
    ensures InFirstSeenOrder(OrgGroups(data), OrgLabels(data))
  {
    var labels := OrgLabels(data);
    DedupFoldElements([], labels);
    assert [] + labels == labels;
    DedupFoldOrder([], labels);
    forall g ensures g in OrgGroups(data) <==> exists i :: 0 <= i < |data| && g == OrgLabel(data[i].orgLogin) {
      assert g in OrgGroups(data) <==> g in labels;
      OrgLabelsMembers(data, g);
    }
  }

  // ---------------------------------------------------------------------------
  // The group list
  // ---------------------------------------------------------------------------

  /** The groups of a fresh resolution: the filtered slugs, the user, then (in organization mode) the pseudo-groups. */
  function TeamList(data: seq<Team>, forUser: string, org: string, orgmode: bool): seq<string> {
    Slugs(data, org) + [forUser] + (if orgmode then OrgGroups(data) else [])
  }

  /**
   * What a fresh resolution yields: the user itself always, the slugs of the teams
   * that pass the filter, and, only in organization mode, the labels of every
   * organization in the unfiltered data. The user directly follows the slugs,
   * and without organization mode it is the last entry.
   */
  lemma TeamListMembers(data: seq<Team>, forUser: string, org: string, orgmode: bool, g: string)
    ensures TeamList(data, forUser, org, orgmode)[|Slugs(data, org)|] == forUser
    ensures !orgmode ==> TeamList(data, forUser, org, orgmode)[|TeamList(data, forUser, org, orgmode)| - 1] == forUser
    ensures g in TeamList(data, forUser, org, orgmode) <==>
      || g == forUser
      || (exists i :: 0 <= i < |data| && Kept(org, data[i]) && data[i].slug == g)
      || (orgmode && exists i :: 0 <= i < |data| && g == OrgLabel(data[i].orgLogin))
  {
    SlugsMembers(data, org, g);
    if orgmode {
      OrgGroupsSpec(data);
    }
  }
}
