/**
 * The JWKS cache and the discovery document it depends on: what every run of
 * validations may hand out, against the key sets the issuer publishes over time.
 */
module KeyCache {
  import opened Prelude
  import opened Jwks

  // ----- The cache -----

  const JWKS_TTL := 300_000_000_000
  const CLIENT_TIMEOUT := 5_000_000_000

  datatype Discovery = Discovery(issuer: string, jwksURI: string)

  /** What a fetch of the key set met: an error, or the document the server sent at `servedAt`. */
  datatype Fetch = FetchFailed | Fetched(servedAt: int, doneAt: int)

  /**
   * One validation asking for a key. `discovered` is what a discovery request
   * returns and `fetch` how a fetch goes, should the call come to make one.
   */
  datatype Call = Call(kid: string, now: int, discovered: Option<Discovery>, fetch: Fetch)

  datatype Answer = Found(key: PublicKey, at: int) | NotFound(at: int) | Failed

  /** The keys of the set published at each URI at each instant. */
  type KeySets = (string, int) -> map<string, PublicKey>

  datatype Provider = Provider(
    issuer: string, discovery: Option<Discovery>, keys: map<string, PublicKey>, expiresAt: int)

  /** The first discovery whose issuer matches is kept for good. */
  function Discovered(p: Provider, call: Call): Option<Discovery> {
    if p.discovery.Some? then p.discovery
    else if call.discovered.Some? && call.discovered.value.issuer == p.issuer then call.discovered
    else None
  }

  /** getDiscovery, then key, which refreshes at most once. */
  function Validate(sets: KeySets, p: Provider, call: Call): (Provider, Answer) {
    match Discovered(p, call)
    case None => (p, Failed)
    case Some(d) =>
      var q := p.(discovery := Some(d));
      if call.now < p.expiresAt && call.kid in p.keys then (q, Found(p.keys[call.kid], call.now))
      else
        match call.fetch
        case FetchFailed => (q, Failed)
        case Fetched(servedAt, doneAt) =>
          var keys := sets(d.jwksURI, servedAt);
          (q.(keys := keys, expiresAt := doneAt + JWKS_TTL),
           if call.kid in keys then Found(keys[call.kid], doneAt) else NotFound(doneAt))
  }

  /** The JWKS endpoint: the document it serves at a URI at an instant. */
  type Server = (string, int) -> seq<JWK>

  function SetsOf(server: Server): KeySets { (uri, s) => KeyMap(server(uri, s)) }

  class Validator {
    const issuer: string
    var discovery: Option<Discovery>
    var keys: map<string, PublicKey>
    var expiresAt: int

    ghost function State(): Provider
      reads this
    {
      Provider(issuer, discovery, keys, expiresAt)
    }

    constructor (issuer: string)
      ensures State() == Start(issuer)
    {
      this.issuer := issuer;
      discovery, keys, expiresAt := None, map[], 0;
    }

    /** Fetched once, on the first success; a document of another issuer is refused and forgotten. */
    method GetDiscovery(discovered: Option<Discovery>) returns (found: Option<Discovery>)
      modifies this`discovery
      ensures discovery == found
      ensures old(discovery).Some? ==> found == old(discovery)
      ensures old(discovery).None? ==>
                found == if discovered.Some? && discovered.value.issuer == issuer then discovered else None
    {
      if discovery.Some? {
        return discovery;
      }
      if discovered.None? || discovered.value.issuer != issuer {
        return None;
      }
      discovery := discovered;
      found := discovered;
    }

    /** A fetch that fails changes nothing. */
    method Refresh(uri: string, fetch: Fetch, server: Server) returns (ok: bool)
      modifies this`keys, this`expiresAt
      ensures ok == fetch.Fetched?
      ensures ok ==> keys == KeyMap(server(uri, fetch.servedAt)) && expiresAt == fetch.doneAt + JWKS_TTL
      ensures !ok ==> keys == old(keys) && expiresAt == old(expiresAt)
    {
      if fetch.FetchFailed? {
        return false;
      }
      var fetched := CollectKeys(server(uri, fetch.servedAt));
      keys := fetched;
      expiresAt := fetch.doneAt + JWKS_TTL;
      ok := true;
    }

    /** Discovery, then the cached key while it is fresh, else a refresh and another look. */
    method ResolveKey(call: Call, server: Server) returns (answer: Answer)
      modifies this
      ensures (State(), answer) == Validate(SetsOf(server), old(State()), call)
    {
      var found := GetDiscovery(call.discovered);
      if found.None? {
        return Failed;
      }
      if call.now < expiresAt && call.kid in keys {
        return Found(keys[call.kid], call.now);
      }
      var ok := Refresh(found.value.jwksURI, call.fetch, server);
      if !ok {
        return Failed;
      }
      if call.kid !in keys {
        return NotFound(call.fetch.doneAt);
      }
      answer := Found(keys[call.kid], call.fetch.doneAt);
    }
  }

  // ----- Runs of the cache -----

  function After(sets: KeySets, p: Provider, calls: seq<Call>): Provider
    decreases |calls|
  {
    if calls == [] then p else After(sets, Validate(sets, p, calls[0]).0, calls[1..])
  }

  function Replies(sets: KeySets, p: Provider, calls: seq<Call>): (replies: seq<Answer>)
    ensures |replies| == |calls|
    decreases |calls|
  {
    if calls == [] then []
    else
      var (after, answer) := Validate(sets, p, calls[0]);
      [answer] + Replies(sets, after, calls[1..])
  }

  function Start(issuer: string): Provider { Provider(issuer, None, map[], 0) }

  // ----- Exactly what each call is answered -----

  /** Where the cache stands when call `i` of a run comes. */
  function Before(sets: KeySets, p: Provider, calls: seq<Call>, i: nat): Provider
    requires i <= |calls|
  {
    After(sets, p, calls[..i])
  }

  /** Call `i` fetches the key set, and the fetch succeeds. */
  ghost predicate Refreshes(sets: KeySets, p: Provider, calls: seq<Call>, i: nat)
    requires i < |calls|
  {
    var q := Before(sets, p, calls, i);
    && Discovered(q, calls[i]).Some? && calls[i].fetch.Fetched?
    && !(calls[i].kid in q.keys && calls[i].now < q.expiresAt)
  }

  /** The set that call `i` fetched. */
  function FetchedSet(sets: KeySets, p: Provider, calls: seq<Call>, i: nat): map<string, PublicKey>
    requires i < |calls| && Refreshes(sets, p, calls, i)
  {
    sets(Discovered(Before(sets, p, calls, i), calls[i]).value.jwksURI, calls[i].fetch.servedAt)
  }

  ghost predicate LastRefresh(sets: KeySets, p: Provider, calls: seq<Call>, i: nat, k: nat)
    requires k <= |calls|
  {
    i < k && Refreshes(sets, p, calls, i) && forall j :: i < j < k ==> !Refreshes(sets, p, calls, j)
  }

  lemma {:induction false} AfterSnoc(sets: KeySets, p: Provider, calls: seq<Call>, call: Call)
    ensures After(sets, p, calls + [call]) == Validate(sets, After(sets, p, calls), call).0
    decreases |calls|
  {
    if calls == [] {
      assert [] + [call] == [call] && [call][1..] == [];
    } else {
      assert (calls + [call])[1..] == calls[1..] + [call];
      AfterSnoc(sets, Validate(sets, p, calls[0]).0, calls[1..], call);
    }
  }

  lemma NextCall(sets: KeySets, p: Provider, calls: seq<Call>, k: nat)
    requires k < |calls|
    ensures Before(sets, p, calls, k + 1) == Validate(sets, Before(sets, p, calls, k), calls[k]).0
  {
    assert calls[..k + 1] == calls[..k] + [calls[k]];
    AfterSnoc(sets, p, calls[..k], calls[k]);
  }

  lemma {:induction false} ReplyAt(sets: KeySets, p: Provider, calls: seq<Call>, k: nat)
    requires k < |calls|
    ensures Replies(sets, p, calls)[k] == Validate(sets, Before(sets, p, calls, k), calls[k]).1
    decreases k
  {
    if k > 0 {
      assert calls[1..][..k - 1] == calls[..k][1..];
      ReplyAt(sets, Validate(sets, p, calls[0]).0, calls[1..], k - 1);
    }
  }

  /** Between refreshes the cache holds what the last one fetched, until the TTL after it was done. */
  lemma {:induction false} CacheIsLastRefresh(sets: KeySets, p: Provider, calls: seq<Call>, i: nat, k: nat)
    requires k <= |calls| && LastRefresh(sets, p, calls, i, k)
    ensures Before(sets, p, calls, k).keys == FetchedSet(sets, p, calls, i)
    ensures Before(sets, p, calls, k).expiresAt == calls[i].fetch.doneAt + 300_000_000_000
    decreases k
  {
    var last := k - 1;
    NextCall(sets, p, calls, last);
    if i < last {
      CacheIsLastRefresh(sets, p, calls, i, last);
      assert !Refreshes(sets, p, calls, last);
    }
  }

  /** Before the first refresh it holds what it began with. */
  lemma {:induction false} CacheIsAsItBegan(sets: KeySets, p: Provider, calls: seq<Call>, k: nat)
    requires k <= |calls| && forall j :: 0 <= j < k ==> !Refreshes(sets, p, calls, j)
    ensures Before(sets, p, calls, k).keys == p.keys && Before(sets, p, calls, k).expiresAt == p.expiresAt
    decreases k
  {
    if k > 0 {
      var last := k - 1;
      NextCall(sets, p, calls, last);
      CacheIsAsItBegan(sets, p, calls, last);
      assert !Refreshes(sets, p, calls, last);
    } else {
      assert calls[..0] == [];
    }
  }

  /**
   * A key of the last set fetched is served from the cache until the TTL after
   * that fetch was done, whatever a fetch would meet, and the cache stays as it is.
   */
  lemma FreshKeyIsServed(sets: KeySets, p: Provider, calls: seq<Call>, i: nat, k: nat)
    requires k < |calls| && LastRefresh(sets, p, calls, i, k)
    requires calls[k].kid in FetchedSet(sets, p, calls, i)
    requires calls[k].now < calls[i].fetch.doneAt + 300_000_000_000
    ensures Replies(sets, p, calls)[k] == Found(FetchedSet(sets, p, calls, i)[calls[k].kid], calls[k].now)
    ensures Before(sets, p, calls, k + 1).keys == Before(sets, p, calls, k).keys
    ensures Before(sets, p, calls, k + 1).expiresAt == Before(sets, p, calls, k).expiresAt
  {
    DiscoveryOutlives(sets, p, calls, i, k);
    CacheIsLastRefresh(sets, p, calls, i, k);
    ReplyAt(sets, p, calls, k);
    NextCall(sets, p, calls, k);
  }

  /** The cache has a fresh key for the call: one of the last set fetched, within the TTL. */
  ghost predicate Cached(sets: KeySets, p: Provider, calls: seq<Call>, k: nat)
    requires k < |calls|
  {
    exists i: nat :: LastRefresh(sets, p, calls, i, k) && calls[k].kid in FetchedSet(sets, p, calls, i)
                && calls[k].now < calls[i].fetch.doneAt + 300_000_000_000
  }

  /** Where the cache has no fresh key, a call is answered from the set it fetches, and fails if it fetches none. */
  lemma UncachedCallFetches(sets: KeySets, issuer: string, calls: seq<Call>, k: nat)
    requires k < |calls| && !Cached(sets, Start(issuer), calls, k)
    ensures var p, reply := Start(issuer), Replies(sets, Start(issuer), calls)[k];
            && (reply.Failed? <==> !Refreshes(sets, p, calls, k))
            && (Refreshes(sets, p, calls, k) ==>
                  var keys := FetchedSet(sets, p, calls, k);
                  reply == if calls[k].kid in keys then Found(keys[calls[k].kid], calls[k].fetch.doneAt)
                           else NotFound(calls[k].fetch.doneAt))
            && (Refreshes(sets, p, calls, k)
                <==> Discovered(Before(sets, p, calls, k), calls[k]).Some? && calls[k].fetch.Fetched?)
  {
    var p := Start(issuer);
    ReplyAt(sets, p, calls, k);
    if forall j :: 0 <= j < k ==> !Refreshes(sets, p, calls, j) {
      CacheIsAsItBegan(sets, p, calls, k);
    } else {
      var i := LastOf(sets, p, calls, k);
      CacheIsLastRefresh(sets, p, calls, i, k);
      assert LastRefresh(sets, p, calls, i, k);
    }
  }

  lemma {:induction false} LastOf(sets: KeySets, p: Provider, calls: seq<Call>, k: nat) returns (i: nat)
    requires k <= |calls| && exists j :: 0 <= j < k && Refreshes(sets, p, calls, j)
    ensures LastRefresh(sets, p, calls, i, k)
    decreases k
  {
    i := k - 1;
    if !Refreshes(sets, p, calls, k - 1) { i := LastOf(sets, p, calls, k - 1); }
  }

  /** Discovery is there from the first call on that a matching document answers, and is that document. */
  lemma {:induction false} DiscoveryIsFirstMatch(sets: KeySets, issuer: string, calls: seq<Call>, k: nat)
    requires k <= |calls|
    ensures var found := Before(sets, Start(issuer), calls, k).discovery;
            && (found.Some? ==> exists j: nat :: FirstMatch(calls, issuer, j) && j < k && found == calls[j].discovered)
            && (found.None? ==> forall j :: 0 <= j < k ==> !Matches(calls[j], issuer))
    ensures Before(sets, Start(issuer), calls, k).issuer == issuer
    decreases k
  {
    if k > 0 {
      DiscoveryIsFirstMatch(sets, issuer, calls, k - 1);
      NextCall(sets, Start(issuer), calls, k - 1);
      if Before(sets, Start(issuer), calls, k - 1).discovery.None? && Matches(calls[k - 1], issuer) {
        assert FirstMatch(calls, issuer, k - 1);
      }
    }
  }

  ghost predicate Matches(call: Call, issuer: string) {
    call.discovered.Some? && call.discovered.value.issuer == issuer
  }

  ghost predicate FirstMatch(calls: seq<Call>, issuer: string, j: nat) {
    j < |calls| && Matches(calls[j], issuer) && forall i :: 0 <= i < j ==> !Matches(calls[i], issuer)
  }

  lemma {:induction false} DiscoveryOutlives(sets: KeySets, p: Provider, calls: seq<Call>, i: nat, k: nat)
    requires i < k <= |calls| && Discovered(Before(sets, p, calls, i), calls[i]).Some?
    ensures Before(sets, p, calls, k).discovery.Some?
    decreases k
  {
    NextCall(sets, p, calls, k - 1);
    if i < k - 1 { DiscoveryOutlives(sets, p, calls, i, k - 1); }
  }

  // ----- Honesty -----

  /** When the lock is free again: the end of the fetch if one was made in time, else at once. */
  function EndOf(call: Call): int {
    if call.fetch.Fetched? then call.fetch.doneAt else call.now
  }

  /**
   * The mutex admits one call at a time, and the client gives up on a fetch after
   * its timeout, so the server answered somewhere within it.
   */
  ghost predicate Timed(calls: seq<Call>, from: int)
    decreases |calls|
  {
    calls == [] || (
      && from <= calls[0].now
      && (calls[0].fetch.Fetched? ==>
            calls[0].now <= calls[0].fetch.servedAt <= calls[0].fetch.doneAt <= calls[0].now + CLIENT_TIMEOUT)
      && Timed(calls[1..], EndOf(calls[0])))
  }

  /** The cached set was published at `uri` at some moment not too long before it expires. */
  ghost predicate Current(sets: KeySets, uri: string, p: Provider, now: int) {
    p.keys == map[] || exists s :: s <= now && p.expiresAt <= s + CLIENT_TIMEOUT + JWKS_TTL
                                   && p.keys == sets(uri, s)
  }

  /** What a reply of a run promises about the sets the issuer published. */
  ghost predicate Honest(sets: KeySets, uri: string, call: Call, reply: Answer) {
    match reply
    case Found(key, at) =>
      exists s :: s <= at < s + 305_000_000_000 && call.kid in sets(uri, s) && sets(uri, s)[call.kid] == key
    case NotFound(at) =>
      exists s :: call.now <= s <= at <= call.now + 5_000_000_000 && call.kid !in sets(uri, s)
    case Failed => true
  }

  lemma CachedReplyIsHonest(sets: KeySets, uri: string, p: Provider, call: Call, from: int)
    requires Current(sets, uri, p, from) && from <= call.now < p.expiresAt && call.kid in p.keys
    ensures Honest(sets, uri, call, Found(p.keys[call.kid], call.now))
  {
    var s :| s <= from && p.expiresAt <= s + CLIENT_TIMEOUT + JWKS_TTL && p.keys == sets(uri, s);
  }

  lemma FetchedReplyIsHonest(sets: KeySets, uri: string, call: Call, from: int)
    requires Timed([call], from) && call.fetch.Fetched?
    ensures var keys := sets(uri, call.fetch.servedAt);
            Honest(sets, uri, call,
                   if call.kid in keys then Found(keys[call.kid], call.fetch.doneAt) else NotFound(call.fetch.doneAt))
  {
  }

  lemma ValidateStaysCurrent(sets: KeySets, uri: string, p: Provider, call: Call, from: int)
    requires Timed([call], from) && Current(sets, uri, p, from)
    requires Discovered(p, call).Some? ==> Discovered(p, call).value.jwksURI == uri
    ensures Current(sets, uri, Validate(sets, p, call).0, EndOf(call))
  {
    if p.keys != map[] {
      var s :| s <= from && p.expiresAt <= s + CLIENT_TIMEOUT + JWKS_TTL && p.keys == sets(uri, s);
      assert s <= EndOf(call);
    }
  }

  lemma ValidateIsHonest(sets: KeySets, uri: string, p: Provider, call: Call, from: int)
    requires Timed([call], from) && Current(sets, uri, p, from)
    requires Discovered(p, call).Some? ==> Discovered(p, call).value.jwksURI == uri
    ensures Honest(sets, uri, call, Validate(sets, p, call).1)
  {
    if Discovered(p, call).Some? {
      if call.now < p.expiresAt && call.kid in p.keys {
        CachedReplyIsHonest(sets, uri, p, call, from);
      } else if call.fetch.Fetched? {
        FetchedReplyIsHonest(sets, uri, call, from);
      }
    }
  }

  /**
   * A call that fails after discovery leaves no trace: without it, the run ends in
   * the same state and gives every other call the same reply.
   */
  lemma {:induction false} FailedCallLeavesNoTrace(
    sets: KeySets, p: Provider, before: seq<Call>, call: Call, after: seq<Call>)
    requires After(sets, p, before).discovery.Some? && Validate(sets, After(sets, p, before), call).1.Failed?
    ensures After(sets, p, before + [call] + after) == After(sets, p, before + after)
    ensures var replies := Replies(sets, p, before + after);
            Replies(sets, p, before + [call] + after) == replies[..|before|] + [Failed] + replies[|before|..]
    decreases |before|
  {
    if before == [] {
      assert before + [call] + after == [call] + after && before + after == after;
      assert ([call] + after)[1..] == after;
    } else {
      var rest := before[1..];
      assert (before + [call] + after)[1..] == rest + [call] + after;
      assert (before + after)[1..] == rest + after;
      FailedCallLeavesNoTrace(sets, Validate(sets, p, before[0]).0, rest, call, after);
    }
  }

  lemma {:induction false} DiscoveryIsFinal(sets: KeySets, p: Provider, calls: seq<Call>)
    requires p.discovery.Some?
    ensures After(sets, p, calls).discovery == p.discovery
    decreases |calls|
  {
    if calls != [] {
      DiscoveryIsFinal(sets, Validate(sets, p, calls[0]).0, calls[1..]);
    }
  }

  lemma {:induction false} RepliesAreHonest(
    sets: KeySets, uri: string, p: Provider, calls: seq<Call>, from: int, k: nat)
    requires Timed(calls, from) && Current(sets, uri, p, from) && k < |calls|
    requires After(sets, p, calls).discovery.Some? ==> After(sets, p, calls).discovery.value.jwksURI == uri
    ensures Honest(sets, uri, calls[k], Replies(sets, p, calls)[k])
    decreases |calls|
  {
    var call := calls[0];
    var after := Validate(sets, p, call).0;
    if Discovered(p, call).Some? {
      DiscoveryIsFinal(sets, after, calls[1..]);
    }
    assert Timed([call], from) by { assert [call][1..] == []; }
    ValidateIsHonest(sets, uri, p, call, from);
    ValidateStaysCurrent(sets, uri, p, call, from);
    if k > 0 {
      RepliesAreHonest(sets, uri, after, calls[1..], EndOf(call), k - 1);
    }
  }

  lemma {:induction false} UndiscoveredFails(sets: KeySets, p: Provider, calls: seq<Call>, k: nat)
    requires After(sets, p, calls).discovery.None? && k < |calls|
    ensures Replies(sets, p, calls)[k].Failed?
    decreases |calls|
  {
    var after := Validate(sets, p, calls[0]).0;
    if after.discovery.Some? {
      DiscoveryIsFinal(sets, after, calls[1..]);
    }
    if k > 0 {
      UndiscoveredFails(sets, after, calls[1..], k - 1);
    }
  }

  /**
   * Over every run: each key handed out was in the issuer's published set less
   * than the TTL plus one fetch before, each "not found" is about a set fetched
   * during that very call, and all of it concerns one JWKS URI, that of the
   * first discovery whose issuer matched.
   */
  lemma CacheIsHonest(sets: KeySets, issuer: string, calls: seq<Call>, k: nat)
    requires Timed(calls, 0) && k < |calls|
    ensures var end, reply := After(sets, Start(issuer), calls), Replies(sets, Start(issuer), calls)[k];
            if end.discovery.None? then reply.Failed? else Honest(sets, end.discovery.value.jwksURI, calls[k], reply)
  {
    var end := After(sets, Start(issuer), calls);
    if end.discovery.Some? {
      RepliesAreHonest(sets, end.discovery.value.jwksURI, Start(issuer), calls, 0, k);
    } else {
      UndiscoveredFails(sets, Start(issuer), calls, k);
    }
  }

  /** In terms of the documents themselves: the key is the last usable one listed under its kid. */
  lemma CachedKeyWasPublished(server: Server, issuer: string, calls: seq<Call>, k: nat)
    requires Timed(calls, 0) && k < |calls|
    ensures var end := After(SetsOf(server), Start(issuer), calls);
            var reply := Replies(SetsOf(server), Start(issuer), calls)[k];
            reply.Found? ==>
              end.discovery.Some?
              && exists s :: s <= reply.at < s + 305_000_000_000
                             && LastValid(server(end.discovery.value.jwksURI, s), calls[k].kid, reply.key)
  {
    var sets := SetsOf(server);
    CacheIsHonest(sets, issuer, calls, k);
    var end, reply := After(sets, Start(issuer), calls), Replies(sets, Start(issuer), calls)[k];
    if reply.Found? {
      var uri := end.discovery.value.jwksURI;
      var s :| s <= reply.at < s + 305_000_000_000
               && calls[k].kid in sets(uri, s) && sets(uri, s)[calls[k].kid] == reply.key;
      KeyMapIsLastValid(server(uri, s));
      assert LastValid(server(uri, s), calls[k].kid, reply.key);
    }
  }
}
