/** The Jenkins plugin: reading the owner and branch out of a build's parameters, and the
    poll that announces builds failing since the last poll and remembers the current
    failures. */
module Jenkins {
  import opened Wrappers

  /** A build parameter as decoded from JSON: a dictionary of strings. */
  type Param = map<string, string>

  /** The only failure `parse_params` raises: a missing `name` or `value` (`KeyError`). */
  datatype Fault = KeyError

  const OWNER := "GITHUB_OWNER"
  const BRANCH := "GITHUB_BRANCH"

  /** The pair `parse_params` returns. */
  datatype Found = Found(owner: Option<string>, branch: Option<string>)

  /** The parameter is named `key`. */
  predicate Named(p: Param, key: string) {
    "name" in p && p["name"] == key
  }

  /** Looking at the parameter raises `KeyError`: it has no `name`, or it is the owner
      or the branch and has no `value`. */
  predicate Faulty(p: Param) {
    "name" !in p || ((p["name"] == OWNER || p["name"] == BRANCH) && "value" !in p)
  }

  /** One turn of the loop in `parse_params`. */
  function Step(f: Found, p: Param): (r: Result<Found, Fault>)
    ensures r.Err? <==> Faulty(p)
  {
    if "name" !in p then Err(KeyError)
    else if p["name"] == OWNER then
      if "value" in p then Ok(Found(Some(p["value"]), f.branch)) else Err(KeyError)
    else if p["name"] == BRANCH then
      if "value" in p then Ok(Found(f.owner, Some(p["value"]))) else Err(KeyError)
    else Ok(f)
  }

  /** The loop run over the first `n` parameters. */
  function ParsePrefix(params: seq<Param>, n: nat): Result<Found, Fault>
    requires n <= |params|
  {
    if n == 0 then Ok(Found(None, None))
    else match ParsePrefix(params, n - 1)
      case Err(_) => Err(KeyError)
      case Ok(f) => Step(f, params[n - 1])
  }

  /** What `parse_params` returns or raises. */
  function Parse(params: seq<Param>): Result<Found, Fault> {
    ParsePrefix(params, |params|)
  }

  /** `v` is what the first `n` parameters say of `key`: nothing when none of them is named
      `key`, else the `value` of the last one that is. */
  ghost predicate LastOf(params: seq<Param>, n: nat, key: string, v: Option<string>)
    requires n <= |params|
  {
    && (v.None? <==> forall i :: 0 <= i < n ==> !Named(params[i], key))
    && (v.Some? ==> exists i :: (0 <= i < n && Named(params[i], key) && "value" in params[i] &&
          params[i]["value"] == v.value && forall j :: i < j < n ==> !Named(params[j], key)))
  }

  lemma LastOfStep(params: seq<Param>, n: nat, key: string, v: Option<string>)
    requires n < |params| && LastOf(params, n, key, v)
    ensures !Named(params[n], key) ==> LastOf(params, n + 1, key, v)
    ensures Named(params[n], key) && "value" in params[n] ==>
      LastOf(params, n + 1, key, Some(params[n]["value"]))
  {
  }

  /** `parse_params` raises exactly when some parameter lacks a `name`, or is the owner or
      the branch and lacks a `value`. */
  lemma {:induction false} ParseFaults(params: seq<Param>, n: nat)
    requires n <= |params|
    ensures ParsePrefix(params, n).Err? <==> exists i :: 0 <= i < n && Faulty(params[i])
  {
    if n > 0 {
      ParseFaults(params, n - 1);
      assert forall i :: 0 <= i < n && Faulty(params[i]) ==> i < n - 1 || i == n - 1;
    }
  }

  /** A loop that has not raised ran one more step on a prefix that had not raised. */
  lemma PrefixOk(params: seq<Param>, n: nat)
    requires 0 < n <= |params| && ParsePrefix(params, n).Ok?
    ensures ParsePrefix(params, n - 1).Ok?
    ensures Step(ParsePrefix(params, n - 1).value, params[n - 1]) == ParsePrefix(params, n)
  {
    match ParsePrefix(params, n - 1)
    case Err(_) =>
    case Ok(f) =>
  }

  /** When it does not raise, the owner is the `value` of the last parameter named
      `GITHUB_OWNER`, `None` when there is none; parameters of any other name are ignored. */
  lemma {:induction false} ParseOwner(params: seq<Param>, n: nat)
    requires n <= |params| && ParsePrefix(params, n).Ok?
    ensures LastOf(params, n, OWNER, ParsePrefix(params, n).value.owner)
  {
    if n > 0 {
      var p := params[n - 1];
      PrefixOk(params, n);
      ParseOwner(params, n - 1);
      var f := ParsePrefix(params, n - 1).value;
      var g := ParsePrefix(params, n).value;
      if Named(p, OWNER) {
        assert g.owner == Some(p["value"]);
      } else {
        assert g.owner == f.owner;
      }
      LastOfStep(params, n - 1, OWNER, f.owner);
    }
  }

  /** Likewise the branch, from the parameters named `GITHUB_BRANCH`. */
  lemma {:induction false} ParseBranch(params: seq<Param>, n: nat)
    requires n <= |params| && ParsePrefix(params, n).Ok?
    ensures LastOf(params, n, BRANCH, ParsePrefix(params, n).value.branch)
  {
    if n > 0 {
      var p := params[n - 1];
      PrefixOk(params, n);
      ParseBranch(params, n - 1);
      var f := ParsePrefix(params, n - 1).value;
      var g := ParsePrefix(params, n).value;
      if Named(p, BRANCH) {
        assert g.branch == Some(p["value"]);
      } else {
        assert g.branch == f.branch;
      }
      LastOfStep(params, n - 1, BRANCH, f.branch);
    }
  }

  /** Once the loop has raised, the call raises. */
  lemma {:induction false} ParseFaultSticks(params: seq<Param>, n: nat)
    requires n <= |params| && ParsePrefix(params, n).Err?
    ensures Parse(params) == Err(KeyError)
    decreases |params| - n
  {
    if n < |params| {
      assert ParsePrefix(params, n + 1).Err?;
      ParseFaultSticks(params, n + 1);
    }
  }

  /** With no parameter named for the owner or the branch, the pair is `(None, None)`. */
  lemma ParseNeither(params: seq<Param>)
    requires forall i :: 0 <= i < |params| ==> "name" in params[i]
    requires forall i :: 0 <= i < |params| ==> !Named(params[i], OWNER) && !Named(params[i], BRANCH)
    ensures Parse(params) == Ok(Found(None, None))
  {
    ParseFaults(params, |params|);
    ParseOwner(params, |params|);
    ParseBranch(params, |params|);
  }

  /** `parse_params`: scan the parameters, keeping the latest owner and branch seen. */
  method ParseParams(params: seq<Param>) returns (r: Result<Found, Fault>)
    ensures r == Parse(params)
  {
    var owner: Option<string> := None;
    var branch: Option<string> := None;
    for i := 0 to |params|
      invariant ParsePrefix(params, i) == Ok(Found(owner, branch))
    {
      var p := params[i];
      if Faulty(p) {
        ParseFaultSticks(params, i + 1);
        return Err(KeyError);
      }
      if p["name"] == OWNER {
        owner := Some(p["value"]);
      } else if p["name"] == BRANCH {
        branch := Some(p["value"]);
      }
    }
    r := Ok(Found(owner, branch));
  }

  // ---------------------------------------------------------------------------
  // The poll

  /** One `<entry>` of the failed-builds feed: its title, its link, and the parameters of
      the build's first action, or `None` when fetching or decoding them failed. */
  datatype FeedEntry = FeedEntry(title: string, url: string, details: Option<seq<Param>>)

  /** `"%s" % x` for an owner or branch that may be `None`. */
  function Show(v: Option<string>): string {
    match v
    case None => "None"
    case Some(s) => s
  }

  /** The entry survives the `try`: its parameters were fetched and parsed. */
  predicate Kept(e: FeedEntry) {
    e.details.Some? && Parse(e.details.value).Ok?
  }

  /** The key a kept entry is filed under: its title, then owner and branch. */
  function Key(e: FeedEntry): string
    requires Kept(e)
  {
    var f := Parse(e.details.value).value;
    e.title + " - " + Show(f.owner) + "/" + Show(f.branch)
  }

  /** `new_failures` after the loop has seen the first `n` entries. */
  function FailuresPrefix(entries: seq<FeedEntry>, n: nat): map<string, string>
    requires n <= |entries|
  {
    if n == 0 then map[]
    else
      var m := FailuresPrefix(entries, n - 1);
      var e := entries[n - 1];
      if Kept(e) then m[Key(e) := e.url] else m
  }

  /** `new_failures` after the whole feed. */
  function NewFailures(entries: seq<FeedEntry>): map<string, string> {
    FailuresPrefix(entries, |entries|)
  }

  /** The `i`th entry is kept and filed under `k`. */
  predicate FiledAt(entries: seq<FeedEntry>, i: nat, k: string)
    requires i < |entries|
  {
    Kept(entries[i]) && Key(entries[i]) == k
  }

  /** The failures are keyed by the kept entries and nothing else. */
  lemma {:induction false} FailuresKeys(entries: seq<FeedEntry>, n: nat)
    requires n <= |entries|
    ensures forall k :: k in FailuresPrefix(entries, n) <==> exists i :: 0 <= i < n && FiledAt(entries, i, k)
  {
    if n > 0 {
      FailuresKeys(entries, n - 1);
      forall k | exists i :: 0 <= i < n && FiledAt(entries, i, k)
        ensures k in FailuresPrefix(entries, n)
      {
        var i :| 0 <= i < n && FiledAt(entries, i, k);
        if i < n - 1 {
          assert k in FailuresPrefix(entries, n - 1);
        }
      }
      forall k | k in FailuresPrefix(entries, n)
        ensures exists i :: 0 <= i < n && FiledAt(entries, i, k)
      {
        if !FiledAt(entries, n - 1, k) {
          assert k in FailuresPrefix(entries, n - 1);
        }
      }
    }
  }

  /** Each failure maps to the link of the last kept entry filed under it. */
  lemma {:induction false} FailuresLastWins(entries: seq<FeedEntry>, n: nat)
    requires n <= |entries|
    ensures forall k :: k in FailuresPrefix(entries, n) ==>
      exists i :: (0 <= i < n && FiledAt(entries, i, k) && FailuresPrefix(entries, n)[k] == entries[i].url &&
        forall j :: i < j < n ==> !FiledAt(entries, j, k))
  {
    if n > 0 {
      FailuresLastWins(entries, n - 1);
      var m := FailuresPrefix(entries, n - 1);
      var m' := FailuresPrefix(entries, n);
      forall k | k in m'
        ensures exists i :: (0 <= i < n && FiledAt(entries, i, k) && m'[k] == entries[i].url &&
          forall j :: i < j < n ==> !FiledAt(entries, j, k))
      {
        if FiledAt(entries, n - 1, k) {
          assert m'[k] == entries[n - 1].url;
        } else {
          assert k in m && m'[k] == m[k];
          var i :| 0 <= i < n - 1 && FiledAt(entries, i, k) && m[k] == entries[i].url &&
            forall j :: i < j < n - 1 ==> !FiledAt(entries, j, k);
          assert forall j :: i < j < n ==> !FiledAt(entries, j, k);
        }
      }
    }
  }

  /** The loop of `poll_bad_builds` that fills `new_failures`. */
  method CollectFailures(entries: seq<FeedEntry>) returns (failures: map<string, string>)
    ensures failures == NewFailures(entries)
  {
    failures := map[];
    for i := 0 to |entries|
      invariant failures == FailuresPrefix(entries, i)
    {
      var e := entries[i];
      if e.details.Some? {
        var parsed := ParseParams(e.details.value);
        if parsed.Ok? {
          var title := e.title + " - " + Show(parsed.value.owner) + "/" + Show(parsed.value.branch);
          failures := failures[title := e.url];
        }
      }
    }
  }

  /** `"[BUILD FAILED] %s: %s" % (title, url)`. */
  function Notice(title: string, url: string): string {
    "[BUILD FAILED] " + title + ": " + url
  }

  /** `notices` announces each failure of `current` that `cached` lacks, once, and nothing
      else, in some order. */
  ghost predicate Announces(notices: seq<string>, current: map<string, string>, cached: map<string, string>) {
    && |notices| == |current.Keys - cached.Keys|
    && (forall t :: t in current && t !in cached ==> Notice(t, current[t]) in notices)
    && (forall x :: x in notices ==> exists t :: t in current && t !in cached && x == Notice(t, current[t]))
  }

  /** The loop over `set(new_failures) - set(old_failures)`; its order is the set's. */
  method Announce(current: map<string, string>, cached: map<string, string>) returns (notices: seq<string>)
    ensures Announces(notices, current, cached)
  {
    var todo := current.Keys - cached.Keys;
    ghost var unseen := todo;
    notices := [];
    while todo != {}
      invariant todo <= unseen == current.Keys - cached.Keys
      invariant |notices| + |todo| == |unseen|
      invariant forall u :: u in unseen && u !in todo ==> Notice(u, current[u]) in notices
      invariant forall x :: x in notices ==> exists u :: u in unseen && u !in todo && x == Notice(u, current[u])
      decreases |todo|
    {
      var t :| t in todo;
      notices := notices + [Notice(t, current[t])];
      todo := todo - {t};
    }
  }

  /** Announcing against a cache that already holds every failure says nothing. */
  lemma AnnouncesNothingTwice(notices: seq<string>, current: map<string, string>, cached: map<string, string>)
    requires current.Keys <= cached.Keys && Announces(notices, current, cached)
    ensures notices == []
  {
    assert current.Keys - cached.Keys == {};
  }

  /** The plugin and its `rss_cache` file. */
  class Poller {
    /** The decoded cache; `None` when the file is missing or does not decode. */
    var cache: Option<map<string, string>>

    constructor (stored: Option<map<string, string>>)
      ensures cache == stored
    {
      cache := stored;
    }

    /** `poll_bad_builds`, given the feed already fetched and parsed (`None` when the XML
        is malformed). */
    method PollBadBuilds(feed: Option<seq<FeedEntry>>) returns (notices: seq<string>)
      modifies this`cache
      // an unreadable feed changes nothing
      ensures feed.None? ==> notices == [] && cache == old(cache)
      // otherwise the cache becomes the current failures, old ones dropped
      ensures feed.Some? ==> cache == Some(NewFailures(feed.value))
      // with no readable cache it is only written
      ensures feed.Some? && old(cache).None? ==> notices == []
      // with one, the failures it lacked are announced
      ensures feed.Some? && old(cache).Some? ==>
        Announces(notices, NewFailures(feed.value), old(cache).value)
    {
      notices := [];
      if feed.None? {
        return;
      }
      var current := CollectFailures(feed.value);
      if cache.None? {
        cache := Some(current);
        return;
      }
      notices := Announce(current, cache.value);
      cache := Some(current);
    }
  }
}
