/**
 * Web sessions, shopping carts and page caching. The hash "login:" maps tokens to users, the
 * sorted set "recent:" scores tokens by their last-seen time, "viewed:<token>" keeps a token's
 * most recently viewed items and "viewed:" scores every item by minus its view count. Cleanup
 * passes delete the oldest sessions once there are more than a limit; carts are the hashes
 * "cart:<session>" and cached pages the strings "cache:<digest>".
 */
module Sessions {
  import opened Common
  import opened Text
  import opened ZSets
  import Lists

  /** A session cleanup pass deletes at most this many sessions. */
  const CLEAN_BATCH: int := 100
  /** update_token keeps this many viewed items per token. */
  const VIEWED_KEPT: int := 25
  /** can_cache accepts items ranked below this in "viewed:". */
  const CACHE_RANK_LIMIT: int := 10000

  /**
   * The keys the session functions read and write. Sorted sets, hashes and strings are held in
   * separate maps, keyed by their Redis key.
   */
  datatype Store = Store(
    login: map<string, string>,                // "login:": token -> user
    zsets: map<string, ZSet>,                  // "recent:", "viewed:" and "viewed:<token>"
    carts: map<string, map<string, string>>,   // "cart:<session>": item -> count
    pages: map<string, string>)                // "cache:<digest>": page content

  /**
   * A request as the page cache sees it: its text (what the page callback receives), the item
   * id its query names, whether its query has a "_" parameter, and the digest of the request
   * that names its cache key. URL parsing and Python's `hash` are outside the model.
   */
  datatype Request = Request(text: string, itemId: Option<string>, dynamic: bool, digest: string)

  function ViewedKey(token: string): string {
    "viewed:" + token
  }

  function CartKey(session: string): string {
    "cart:" + session
  }

  // ---------------------------------------------------------------------------------------------
  // check_token and update_token

  /** check_token: HGET login: token. */
  function CheckToken(S: Store, token: string): Option<string> {
    if token in S.login then Some(S.login[token]) else None
  }

  /** The view bookkeeping of update_token: record the view, keep the newest 25, count it in "viewed:". */
  function ViewEffect(zsets: map<string, ZSet>, token: string, item: string, now: int): map<string, ZSet> {
    var key := ViewedKey(token);
    var added := zsets[key := Add(ZGet(zsets, key), item, now)];
    var trimmed := ZPut(added, key, RemRangeByRank(ZGet(added, key), 0, -(VIEWED_KEPT + 1)));
    trimmed["viewed:" := IncrBy(ZGet(trimmed, "viewed:"), item, -1)]
  }

  /** update_token(token, user, item) at time `now`; an absent or empty item records no view. */
  function UpdateEffect(S: Store, token: string, user: string, item: Option<string>, now: int): Store {
    var seen := S.(login := S.login[token := user],
                   zsets := S.zsets["recent:" := Add(ZGet(S.zsets, "recent:"), token, now)]);
    if item.Some? && item.value != "" then seen.(zsets := ViewEffect(seen.zsets, token, item.value, now))
    else seen
  }

  /** The view bookkeeping touches only the token's viewed set and "viewed:". */
  lemma ViewEffectFrame(zsets: map<string, ZSet>, token: string, item: string, now: int)
    ensures forall k :: k != ViewedKey(token) && k != "viewed:" ==>
      ZGet(ViewEffect(zsets, token, item, now), k) == ZGet(zsets, k)
  {
  }

  /** A non-empty token's viewed set is not the global "viewed:" set. */
  lemma ViewedKeyDistinct(token: string)
    requires token != ""
    ensures ViewedKey(token) != "viewed:"
  {
    assert |ViewedKey(token)| != |"viewed:"|;
  }

  /** The two sorted sets a view writes: the token's trimmed viewed set and the counted "viewed:". */
  lemma ViewEffectUnfold(zsets: map<string, ZSet>, token: string, item: string, now: int)
    requires token != ""
    ensures var key := ViewedKey(token);
      var after := ViewEffect(zsets, token, item, now);
      && ZGet(after, key) == RemRangeByRank(Add(ZGet(zsets, key), item, now), 0, -(VIEWED_KEPT + 1))
      && ZGet(after, "viewed:") == IncrBy(ZGet(zsets, "viewed:"), item, -1)
  {
    var key := ViewedKey(token);
    ViewedKeyDistinct(token);
    var added := Add(ZGet(zsets, key), item, now);
    var trimmed := ZPut(zsets[key := added], key, RemRangeByRank(added, 0, -(VIEWED_KEPT + 1)));
    assert ZGet(trimmed, "viewed:") == ZGet(zsets, "viewed:");
  }

  /** A view keeps the newest 25 entries of the token's viewed set with the view added. */
  lemma ViewKeepsNewest(zsets: map<string, ZSet>, token: string, item: string, now: int)
    requires token != ""
    ensures var added := Add(ZGet(zsets, ViewedKey(token)), item, now);
      ZGet(ViewEffect(zsets, token, item, now), ViewedKey(token)) ==
        (if |added| <= VIEWED_KEPT then added else added[|added| - VIEWED_KEPT..])
  {
    var added := Add(ZGet(zsets, ViewedKey(token)), item, now);
    ViewEffectUnfold(zsets, token, item, now);
    Lists.RemoveRangeKeepsLast(added, VIEWED_KEPT);
  }

  /** A view lowers the item's "viewed:" score by one. */
  lemma ViewCounts(zsets: map<string, ZSet>, token: string, item: string, now: int)
    requires token != ""
    ensures Score(ZGet(ViewEffect(zsets, token, item, now), "viewed:"), item) ==
      Some(Score(ZGet(zsets, "viewed:"), item).GetOr(0) - 1)
  {
    ViewEffectUnfold(zsets, token, item, now);
    IncrByAt(ZGet(zsets, "viewed:"), item, -1, item);
  }

  /**
   * A view keeps the newest 25 entries of the token's viewed set with the view added, and
   * lowers the item's "viewed:" score by one.
   */
  lemma ViewEffectSpec(zsets: map<string, ZSet>, token: string, item: string, now: int)
    requires token != ""
    ensures var added := Add(ZGet(zsets, ViewedKey(token)), item, now);
      var after := ViewEffect(zsets, token, item, now);
      && ZGet(after, ViewedKey(token)) == (if |added| <= VIEWED_KEPT then added else added[|added| - VIEWED_KEPT..])
      && Score(ZGet(after, "viewed:"), item) == Some(Score(ZGet(zsets, "viewed:"), item).GetOr(0) - 1)
  {
    ViewKeepsNewest(zsets, token, item, now);
    ViewCounts(zsets, token, item, now);
  }

  /**
   * After update_token, check_token finds the user, the token's last-seen time is `now`, and no
   * other token's login or last-seen time changes.
   */
  lemma UpdateSpec(S: Store, token: string, user: string, item: Option<string>, now: int)
    ensures var S' := UpdateEffect(S, token, user, item, now);
      && CheckToken(S', token) == Some(user)
      && (forall t :: t != token ==> CheckToken(S', t) == CheckToken(S, t))
      && Score(ZGet(S'.zsets, "recent:"), token) == Some(now)
      && (forall t :: t != token ==> Score(ZGet(S'.zsets, "recent:"), t) == Score(ZGet(S.zsets, "recent:"), t))
  {
    AddSpec(ZGet(S.zsets, "recent:"), token, now);
    if item.Some? && item.value != "" {
      var seen := S.zsets["recent:" := Add(ZGet(S.zsets, "recent:"), token, now)];
      ViewEffectFrame(seen, token, item.value, now);
      assert ViewedKey(token)[0] != "recent:"[0];
    }
  }

  /**
   * update_token with an item (for a non-empty token, whose viewed set is not "viewed:" itself)
   * records the view as ViewEffectSpec states.
   */
  lemma UpdateViewSpec(S: Store, token: string, user: string, item: string, now: int)
    requires item != "" && token != ""
    ensures var S' := UpdateEffect(S, token, user, Some(item), now);
      var added := Add(ZGet(S.zsets, ViewedKey(token)), item, now);
      && ZGet(S'.zsets, ViewedKey(token)) == (if |added| <= VIEWED_KEPT then added else added[|added| - VIEWED_KEPT..])
      && Score(ZGet(S'.zsets, "viewed:"), item) == Some(Score(ZGet(S.zsets, "viewed:"), item).GetOr(0) - 1)
  {
    UpdateKeepsNewest(S, token, user, item, now);
    UpdateCounts(S, token, user, item, now);
  }

  /** update_token with an item keeps the newest 25 entries of the token's viewed set with the view added. */
  lemma UpdateKeepsNewest(S: Store, token: string, user: string, item: string, now: int)
    requires item != "" && token != ""
    ensures var added := Add(ZGet(S.zsets, ViewedKey(token)), item, now);
      ZGet(UpdateEffect(S, token, user, Some(item), now).zsets, ViewedKey(token)) ==
        (if |added| <= VIEWED_KEPT then added else added[|added| - VIEWED_KEPT..])
  {
    var seen := S.zsets["recent:" := Add(ZGet(S.zsets, "recent:"), token, now)];
    UpdateViewInputs(S, token, user, item, now);
    ViewKeepsNewest(seen, token, item, now);
    assert Add(ZGet(seen, ViewedKey(token)), item, now) == Add(ZGet(S.zsets, ViewedKey(token)), item, now);
  }

  /** update_token with an item lowers the item's "viewed:" score by one. */
  lemma UpdateCounts(S: Store, token: string, user: string, item: string, now: int)
    requires item != "" && token != ""
    ensures Score(ZGet(UpdateEffect(S, token, user, Some(item), now).zsets, "viewed:"), item) ==
      Some(Score(ZGet(S.zsets, "viewed:"), item).GetOr(0) - 1)
  {
    var seen := S.zsets["recent:" := Add(ZGet(S.zsets, "recent:"), token, now)];
    UpdateViewInputs(S, token, user, item, now);
    ViewCounts(seen, token, item, now);
  }

  /** update_token records the view on the store with the token's last-seen time updated, which leaves both viewed sets as they were. */
  lemma UpdateViewInputs(S: Store, token: string, user: string, item: string, now: int)
    requires item != ""
    ensures var seen := S.zsets["recent:" := Add(ZGet(S.zsets, "recent:"), token, now)];
      && UpdateEffect(S, token, user, Some(item), now).zsets == ViewEffect(seen, token, item, now)
      && ZGet(seen, ViewedKey(token)) == ZGet(S.zsets, ViewedKey(token))
      && ZGet(seen, "viewed:") == ZGet(S.zsets, "viewed:")
  {
    assert ViewedKey(token)[0] != "recent:"[0];
  }

  // ---------------------------------------------------------------------------------------------
  // clean_sessions and clean_full_sessions

  /** ZREM of several members, one after the other. */
  function RemAll(z: ZSet, ms: seq<string>): ZSet
    decreases |ms|
  {
    if ms == [] then z else RemAll(Rem(z, ms[0]), ms[1..])
  }

  /** The distinct strings of a list. */
  function Elements(s: seq<string>): set<string> {
    set x | x in s
  }

  /** The keys a pass deletes for its sessions: "viewed:<t>", and "cart:<t>" in a full cleanup. */
  function SessionKeys(tokens: seq<string>, full: bool): seq<string>
    decreases |tokens|
  {
    if tokens == [] then []
    else
      var t := tokens[|tokens| - 1];
      SessionKeys(tokens[..|tokens| - 1], full) + (if full then [ViewedKey(t), CartKey(t)] else [ViewedKey(t)])
  }

  /** How many sessions a pass deletes when the sorted set `sizeKey` holds `size` entries. */
  function Excess(size: nat, limit: nat): nat {
    if size <= limit then 0 else Min(size - limit, CLEAN_BATCH)
  }

  /**
   * One pass of a cleanup loop: ZCARD of `sizeKey`; at or below the limit nothing happens;
   * otherwise the oldest min(size - limit, 100) tokens of "recent:" lose their session keys,
   * their login entries and their place in "recent:".
   */
  function CleanPass(S: Store, limit: nat, sizeKey: string, full: bool): Store {
    var size := |ZGet(S.zsets, sizeKey)|;
    if size <= limit then S
    else
      var tokens := RangeByRank(ZGet(S.zsets, "recent:"), 0, Excess(size, limit) - 1);
      var keys := Elements(SessionKeys(tokens, full));
      var zsets := S.zsets - keys;
      S.(login := S.login - Elements(tokens),
         zsets := ZPut(zsets, "recent:", RemAll(ZGet(zsets, "recent:"), tokens)),
         carts := S.carts - keys)
  }

  /** `n` passes of a cleanup loop. */
  function CleanPasses(S: Store, limit: nat, sizeKey: string, full: bool, n: nat): Store
    decreases n
  {
    if n == 0 then S else CleanPass(CleanPasses(S, limit, sizeKey, full, n - 1), limit, sizeKey, full)
  }

  /** A consistent session store: sorted sets in Redis order, the logged-in tokens are those in "recent:". */
  ghost predicate WellFormed(S: Store) {
    && (forall k :: k in S.zsets ==> ZSets.Valid(S.zsets[k]))
    && S.login.Keys == Members(ZGet(S.zsets, "recent:"))
  }

  lemma SessionKeysSpec(tokens: seq<string>, full: bool)
    ensures forall k :: k in SessionKeys(tokens, full) <==>
      exists t :: t in tokens && (k == ViewedKey(t) || (full && k == CartKey(t)))
    decreases |tokens|
  {
    if tokens != [] {
      SessionKeysSpec(tokens[..|tokens| - 1], full);
      assert tokens == tokens[..|tokens| - 1] + [tokens[|tokens| - 1]];
    }
  }

  /** No session key is "recent:". */
  lemma SessionKeysAvoidRecent(tokens: seq<string>, full: bool)
    ensures "recent:" !in SessionKeys(tokens, full)
  {
    SessionKeysSpec(tokens, full);
    forall t ensures ViewedKey(t) != "recent:" && CartKey(t) != "recent:" {
      assert ViewedKey(t)[0] != "recent:"[0];
      assert CartKey(t)[0] != "recent:"[0];
    }
  }

  lemma ValidSuffix(z: ZSet, k: nat)
    requires ZSets.Valid(z) && k <= |z|
    ensures ZSets.Valid(z[k..])
  {
    forall i, j | 0 <= i < j < |z[k..]|
      ensures Precedes(z[k..][i], z[k..][j]) && z[k..][i].member != z[k..][j].member
    {
      assert z[k..][i] == z[k + i] && z[k..][j] == z[k + j];
    }
  }

  /** ZREM of the first k members of a valid sorted set leaves its entries from k on. */
  lemma {:induction false} RemAllPrefix(z: ZSet, k: nat)
    requires ZSets.Valid(z) && k <= |z|
    ensures RemAll(z, MemberList(z[..k])) == z[k..]
    decreases k
  {
    if k > 0 {
      var ms := MemberList(z[..k]);
      RemHead(z);
      assert ms[0] == z[0].member;
      assert RemAll(z, ms) == RemAll(z[1..], ms[1..]);
      ValidTail(z);
      RemAllPrefix(z[1..], k - 1);
      assert ms[1..] == MemberList(z[1..][..k - 1]);
      assert z[1..][k - 1..] == z[k..];
    }
  }

  /** Removing the first member of a valid sorted set leaves the rest. */
  lemma RemHead(z: ZSet)
    requires ZSets.Valid(z) && z != []
    ensures Rem(z, z[0].member) == z[1..]
  {
    assert z[0].member !in Members(z[1..]);
    assert Members([]) == {};
    RemAt([], z[0], z[1..]);
    assert [] + [z[0]] + z[1..] == z;
    assert [] + z[1..] == z[1..];
  }

  /** The members of a valid sorted set from k on are all members but the first k. */
  lemma MembersSuffix(z: ZSet, k: nat)
    requires ZSets.Valid(z) && k <= |z|
    ensures Members(z[k..]) == Members(z) - Elements(MemberList(z[..k]))
  {
    var front := Elements(MemberList(z[..k]));
    forall m | m in Members(z[k..]) ensures m in Members(z) && m !in front {
      var i :| 0 <= i < |z[k..]| && z[k..][i].member == m;
      assert z[k + i].member == m;
    }
    forall m | m in Members(z) && m !in front ensures m in Members(z[k..]) {
      var i :| 0 <= i < |z| && z[i].member == m;
      assert z[k..][i - k].member == m;
    }
  }

  /** The tokens a pass over "recent:" removes are the members of its k oldest entries. */
  lemma PassTokens(recent: ZSet, k: nat)
    requires 0 < k <= |recent|
    ensures RangeByRank(recent, 0, k - 1) == MemberList(recent[..k])
  {
    Lists.RangeFromHead(recent, k - 1);
  }

  /** A pass above the limit leaves the entries of "recent:" from k on. */
  lemma CleanPassRecent(S: Store, limit: nat, full: bool)
    requires WellFormed(S) && |ZGet(S.zsets, "recent:")| > limit
    ensures var recent := ZGet(S.zsets, "recent:");
      ZGet(CleanPass(S, limit, "recent:", full).zsets, "recent:") == recent[Excess(|recent|, limit)..]
  {
    var recent := ZGet(S.zsets, "recent:");
    var k := Excess(|recent|, limit);
    var tokens := RangeByRank(recent, 0, k - 1);
    PassTokens(recent, k);
    SessionKeysAvoidRecent(tokens, full);
    var keys := Elements(SessionKeys(tokens, full));
    assert ZGet(S.zsets - keys, "recent:") == recent;
    RemAllPrefix(recent, k);
  }

  /** A pass above the limit logs its tokens out and deletes their session keys. */
  lemma CleanPassRemoves(S: Store, limit: nat, full: bool)
    requires WellFormed(S) && |ZGet(S.zsets, "recent:")| > limit
    ensures var recent := ZGet(S.zsets, "recent:");
      var S' := CleanPass(S, limit, "recent:", full);
      forall t :: t in MemberList(recent[..Excess(|recent|, limit)]) ==>
        t !in S'.login && ViewedKey(t) !in S'.zsets && (full ==> CartKey(t) !in S'.carts)
  {
    var recent := ZGet(S.zsets, "recent:");
    var k := Excess(|recent|, limit);
    var tokens := RangeByRank(recent, 0, k - 1);
    PassTokens(recent, k);
    SessionKeysSpec(tokens, full);
    var keys := Elements(SessionKeys(tokens, full));
    var S' := CleanPass(S, limit, "recent:", full);
    forall t | t in tokens ensures ViewedKey(t) !in S'.zsets && (full ==> CartKey(t) !in S'.carts) {
      assert ViewedKey(t) in keys;
      assert ViewedKey(t) != "recent:" by {
        assert ViewedKey(t)[0] != "recent:"[0];
      }
      if full {
        assert CartKey(t) in keys;
      }
    }
  }

  /** A pass above the limit keeps every other login as it was. */
  lemma CleanPassKeepsLogins(S: Store, limit: nat, full: bool)
    requires WellFormed(S) && |ZGet(S.zsets, "recent:")| > limit
    ensures var recent := ZGet(S.zsets, "recent:");
      var S' := CleanPass(S, limit, "recent:", full);
      forall t :: t in S.login && t !in MemberList(recent[..Excess(|recent|, limit)]) ==>
        t in S'.login && S'.login[t] == S.login[t]
  {
    var recent := ZGet(S.zsets, "recent:");
    PassTokens(recent, Excess(|recent|, limit));
  }

  /**
   * A pass above the limit deletes no other key: sorted sets other than "recent:" and carts that
   * are not session keys of a removed token keep their contents, and so does the page cache.
   */
  lemma CleanPassKeepsOthers(S: Store, limit: nat, full: bool)
    requires WellFormed(S) && |ZGet(S.zsets, "recent:")| > limit
    ensures var recent := ZGet(S.zsets, "recent:");
      var keys := SessionKeys(MemberList(recent[..Excess(|recent|, limit)]), full);
      var S' := CleanPass(S, limit, "recent:", full);
      && (forall key :: key in S.zsets && key != "recent:" && key !in keys ==> key in S'.zsets && S'.zsets[key] == S.zsets[key])
      && (forall key :: key in S.carts && key !in keys ==> key in S'.carts && S'.carts[key] == S.carts[key])
      && S'.pages == S.pages
  {
    var recent := ZGet(S.zsets, "recent:");
    PassTokens(recent, Excess(|recent|, limit));
  }

  /** The session keys of a token that a pass keeps are not among those it deletes. */
  lemma SurvivorKeysKept(gone: seq<string>, full: bool, t: string)
    requires t !in gone
    ensures ViewedKey(t) !in SessionKeys(gone, full) && CartKey(t) !in SessionKeys(gone, full)
  {
    SessionKeysSpec(gone, full);
    forall u | u in gone
      ensures ViewedKey(t) != ViewedKey(u) && ViewedKey(t) != CartKey(u)
      ensures CartKey(t) != ViewedKey(u) && CartKey(t) != CartKey(u)
    {
      assert ViewedKey(t)[0] != CartKey(u)[0];
      assert CartKey(t)[0] != ViewedKey(u)[0];
      assert ViewedKey(t)[7..] == t && CartKey(t)[5..] == t;
    }
  }

  /** A pass above the limit keeps the store consistent. */
  lemma CleanPassWellFormed(S: Store, limit: nat, full: bool)
    requires WellFormed(S) && |ZGet(S.zsets, "recent:")| > limit
    ensures WellFormed(CleanPass(S, limit, "recent:", full))
  {
    var recent := ZGet(S.zsets, "recent:");
    var k := Excess(|recent|, limit);
    var S' := CleanPass(S, limit, "recent:", full);
    PassTokens(recent, k);
    CleanPassRecent(S, limit, full);
    MembersSuffix(recent, k);
    ValidSuffix(recent, k);
    assert S'.login.Keys == S.login.Keys - Elements(MemberList(recent[..k]));
    forall x | x in S'.zsets ensures ZSets.Valid(S'.zsets[x]) {
      if x != "recent:" {
        assert x in S.zsets;
      }
    }
  }

  /**
   * A cleanup pass on "recent:" removes nothing while there are at most `limit` tokens; otherwise
   * exactly the k = min(size - limit, 100) oldest tokens go: "recent:" keeps its entries from k
   * on, and each removed token loses its login entry and its session keys; other logins stay.
   */
  lemma CleanPassSpec(S: Store, limit: nat, full: bool)
    requires WellFormed(S)
    ensures var recent := ZGet(S.zsets, "recent:");
      var k := Excess(|recent|, limit);
      var S' := CleanPass(S, limit, "recent:", full);
      && ZGet(S'.zsets, "recent:") == recent[k..]
      && |ZGet(S'.zsets, "recent:")| == (if |recent| <= limit then |recent| else Max(limit, |recent| - CLEAN_BATCH))
      && (forall t :: t in MemberList(recent[..k]) ==>
            t !in S'.login && ViewedKey(t) !in S'.zsets && (full ==> CartKey(t) !in S'.carts))
      && (forall t :: t in S.login && t !in MemberList(recent[..k]) ==> t in S'.login && S'.login[t] == S.login[t])
      && (forall t :: t in S.login && t !in MemberList(recent[..k]) ==>
            && (ViewedKey(t) in S.zsets ==> ViewedKey(t) in S'.zsets && S'.zsets[ViewedKey(t)] == S.zsets[ViewedKey(t)])
            && (CartKey(t) in S.carts ==> CartKey(t) in S'.carts && S'.carts[CartKey(t)] == S.carts[CartKey(t)]))
      && (forall key :: key in S.zsets && key != "recent:" && key !in SessionKeys(MemberList(recent[..k]), full) ==>
            key in S'.zsets && S'.zsets[key] == S.zsets[key])
      && S'.pages == S.pages
      && WellFormed(S')
  {
    if |ZGet(S.zsets, "recent:")| > limit {
      var recent := ZGet(S.zsets, "recent:");
      var gone := MemberList(recent[..Excess(|recent|, limit)]);
      CleanPassRecent(S, limit, full);
      CleanPassRemoves(S, limit, full);
      CleanPassKeepsLogins(S, limit, full);
      CleanPassKeepsOthers(S, limit, full);
      forall t | t in S.login && t !in gone
        ensures ViewedKey(t) !in SessionKeys(gone, full) && CartKey(t) !in SessionKeys(gone, full)
        ensures ViewedKey(t) != "recent:"
      {
        SurvivorKeysKept(gone, full, t);
        assert ViewedKey(t)[0] != "recent:"[0];
      }
      CleanPassWellFormed(S, limit, full);
    } else {
      assert ZGet(S.zsets, "recent:")[..0] == [];
    }
  }

  /** Passes of clean_sessions shrink "recent:" by up to 100 tokens each, never below the limit. */
  lemma {:induction false} CleanPassesSize(S: Store, limit: nat, full: bool, n: nat)
    requires WellFormed(S)
    ensures WellFormed(CleanPasses(S, limit, "recent:", full, n))
    ensures var size := |ZGet(S.zsets, "recent:")|;
      |ZGet(CleanPasses(S, limit, "recent:", full, n).zsets, "recent:")| ==
        if size <= limit then size else Max(limit, size - n * CLEAN_BATCH)
    decreases n
  {
    if n > 0 {
      CleanPassesSize(S, limit, full, n - 1);
      var P := CleanPasses(S, limit, "recent:", full, n - 1);
      CleanPassSize(P, limit, full);
      var size, before := |ZGet(S.zsets, "recent:")|, |ZGet(P.zsets, "recent:")|;
      assert size > limit ==> before == Max(limit, size - (n - 1) * CLEAN_BATCH);
      assert (n - 1) * CLEAN_BATCH + CLEAN_BATCH == n * CLEAN_BATCH;
    }
  }

  /** One pass in numbers: "recent:" loses up to 100 tokens, never going below the limit. */
  lemma CleanPassSize(S: Store, limit: nat, full: bool)
    requires WellFormed(S)
    ensures WellFormed(CleanPass(S, limit, "recent:", full))
    ensures var size := |ZGet(S.zsets, "recent:")|;
      |ZGet(CleanPass(S, limit, "recent:", full).zsets, "recent:")| ==
        if size <= limit then size else Max(limit, size - CLEAN_BATCH)
  {
    CleanPassSpec(S, limit, full);
  }

  /**
   * With the limit at 0, as the session test sets it, enough passes log every session out: after
   * n passes with at most 100n sessions, "recent:" and "login:" are empty.
   */
  lemma CleanSessionsEmpties(S: Store, full: bool, n: nat)
    requires WellFormed(S) && |ZGet(S.zsets, "recent:")| <= n * CLEAN_BATCH
    ensures ZGet(CleanPasses(S, 0, "recent:", full, n).zsets, "recent:") == []
    ensures CleanPasses(S, 0, "recent:", full, n).login == map[]
  {
    CleanPassesSize(S, 0, full, n);
    var S' := CleanPasses(S, 0, "recent:", full, n);
    assert Members(ZGet(S'.zsets, "recent:")) == {};
    assert S'.login.Keys == {};
  }

  /**
   * clean_full_sessions as written reads ZCARD "recent", a key nothing writes: while that key is
   * absent a pass never deletes anything.
   */
  lemma CleanFullAsWrittenIdle(S: Store, limit: nat)
    requires "recent" !in S.zsets
    ensures CleanPass(S, limit, "recent", true) == S
  {
  }

  /** No session operation creates the key "recent". */
  lemma UpdateKeepsRecentAbsent(S: Store, token: string, user: string, item: Option<string>, now: int)
    requires "recent" !in S.zsets
    ensures "recent" !in UpdateEffect(S, token, user, item, now).zsets
  {
    assert |ViewedKey(token)| != |"recent"|;
    assert |"viewed:"| != |"recent"|;
  }

  /**
   * The test's scenario: one logged-in session with a cart and the limit at 0. The pass as
   * written leaves the cart; the pass reading "recent:" deletes it.
   */
  lemma CleanFullCounterexample(token: string, user: string, cart: map<string, string>)
    ensures var S := Store(map[token := user], map["recent:" := [Entry(token, 0)]], map[CartKey(token) := cart], map[]);
      && WellFormed(S)
      && CartKey(token) in CleanPass(S, 0, "recent", true).carts
      && CartKey(token) !in CleanPass(S, 0, "recent:", true).carts
  {
    var S := Store(map[token := user], map["recent:" := [Entry(token, 0)]], map[CartKey(token) := cart], map[]);
    ValidSmall(Entry(token, 0));
    MembersCons([Entry(token, 0)]);
    assert Members([Entry(token, 0)][1..]) == {};
    assert "recent" != "recent:";
    CleanPassSpec(S, 0, true);
  }

  // ---------------------------------------------------------------------------------------------
  // add_to_cart

  /** add_to_cart: HDEL the item for a count of 0 or less (an emptied cart disappears), else HSET the count. */
  function CartEffect(carts: map<string, map<string, string>>, session: string, item: string, count: int): map<string, map<string, string>> {
    var key := CartKey(session);
    var cart := if key in carts then carts[key] else map[];
    if count <= 0 then
      var rest := cart - {item};
      if rest == map[] then carts - {key} else carts[key := rest]
    else carts[key := cart[item := IntToString(count)]]
  }

  /** HGET cart:<session> item. */
  function CartCount(carts: map<string, map<string, string>>, session: string, item: string): Option<string> {
    var key := CartKey(session);
    if key in carts && item in carts[key] then Some(carts[key][item]) else None
  }

  /**
   * After add_to_cart the item is absent for a count of 0 or less and otherwise holds the count,
   * which reads back as that number; no other item of any cart changes.
   */
  lemma CartSpec(carts: map<string, map<string, string>>, session: string, item: string, count: int)
    ensures var after := CartEffect(carts, session, item, count);
      && (count <= 0 ==> CartCount(after, session, item).None?)
      && (count > 0 ==> CartCount(after, session, item) == Some(IntToString(count))
                        && ParseInt(CartCount(after, session, item).value) == Some(count))
      && (forall s, i :: (s, i) != (session, item) ==> CartCount(after, s, i) == CartCount(carts, s, i))
  {
    if count > 0 {
      DecRoundTrip(count);
    }
    forall s, i | (s, i) != (session, item)
      ensures CartCount(CartEffect(carts, session, item, count), s, i) == CartCount(carts, s, i)
    {
      if CartKey(s) == CartKey(session) {
        assert s == CartKey(s)[5..] && session == CartKey(session)[5..];
      }
    }
  }

  // ---------------------------------------------------------------------------------------------
  // can_cache and cache_request

  /** can_cache: an item page without a "_" parameter whose item ranks below 10000 in "viewed:". */
  function CanCache(S: Store, req: Request): bool {
    if req.itemId.None? || req.itemId.value == "" || req.dynamic then false
    else
      match Rank(ZGet(S.zsets, "viewed:"), req.itemId.value)
      case None => false
      case Some(r) => r < CACHE_RANK_LIMIT
  }

  /**
   * A request is cacheable exactly when it names an item, has no "_" parameter, and fewer than
   * 10000 items precede that item in "viewed:" (the most viewed first, as scores are minus the views).
   */
  lemma CanCacheSpec(S: Store, req: Request)
    requires ZSets.Valid(ZGet(S.zsets, "viewed:"))
    ensures CanCache(S, req) <==>
      && req.itemId.Some? && req.itemId.value != "" && !req.dynamic
      && exists i :: 0 <= i < CACHE_RANK_LIMIT && i < |ZGet(S.zsets, "viewed:")| && ZGet(S.zsets, "viewed:")[i].member == req.itemId.value
  {
    var z := ZGet(S.zsets, "viewed:");
    if req.itemId.Some? && req.itemId.value != "" && !req.dynamic {
      var item := req.itemId.value;
      RankSpec(z, item);
      if i :| 0 <= i < CACHE_RANK_LIMIT && i < |z| && z[i].member == item {
        assert item in Members(z);
        assert Rank(z, item).value <= i;
      }
    }
  }

  /**
   * cache_request: an uncacheable request is rendered and nothing is stored; a cacheable one
   * returns the stored page when there is a non-empty one, and otherwise renders the page and
   * stores it. The flag says whether the callback ran.
   */
  function CacheEffect(S: Store, req: Request, render: string -> string): (Store, string, bool) {
    if !CanCache(S, req) then (S, render(req.text), true)
    else
      var key := "cache:" + req.digest;
      if key in S.pages && S.pages[key] != "" then (S, S.pages[key], false)
      else
        var content := render(req.text);
        (S.(pages := S.pages[key := content]), content, true)
  }

  /**
   * A cacheable request answered once with a non-empty page is answered the second time from
   * the cache, with the same page and without calling the (possibly different) callback.
   */
  lemma CacheRequestTwice(S: Store, req: Request, render: string -> string, other: string -> string)
    requires CanCache(S, req)
    ensures var (S1, page1, _) := CacheEffect(S, req, render);
      page1 != "" ==> CacheEffect(S1, req, other) == (S1, page1, false)
  {
    var (S1, page1, _) := CacheEffect(S, req, render);
    assert S1.zsets == S.zsets;
  }

  /** An uncacheable request leaves the store as it is and calls the callback. */
  lemma CacheRequestUncacheable(S: Store, req: Request, render: string -> string)
    requires !CanCache(S, req)
    ensures CacheEffect(S, req, render) == (S, render(req.text), true)
  {
  }

  // ---------------------------------------------------------------------------------------------
  // The store

  class SessionStore {
    var login: map<string, string>
    var zsets: map<string, ZSet>
    var carts: map<string, map<string, string>>
    var pages: map<string, string>

    function State(): Store
      reads this
    {
      Store(login, zsets, carts, pages)
    }

    constructor ()
      ensures State() == Store(map[], map[], map[], map[])
      ensures WellFormed(State())
    {
      login, zsets, carts, pages := map[], map[], map[], map[];
    }

    /** check_token(token). */
    method CheckTokenOf(token: string) returns (user: Option<string>)
      ensures user == CheckToken(State(), token)
    {
      user := if token in login then Some(login[token]) else None;
    }

    /** update_token(token, user, item) at time `now`. */
    method UpdateToken(token: string, user: string, item: Option<string>, now: int)
      modifies this
      ensures State() == UpdateEffect(old(State()), token, user, item, now)
    {
      login := login[token := user];
      zsets := zsets["recent:" := Add(ZGet(zsets, "recent:"), token, now)];
      if item.Some? && item.value != "" {
        var key := ViewedKey(token);
        zsets := zsets[key := Add(ZGet(zsets, key), item.value, now)];
        zsets := ZPut(zsets, key, RemRangeByRank(ZGet(zsets, key), 0, -(VIEWED_KEPT + 1)));
        zsets := zsets["viewed:" := IncrBy(ZGet(zsets, "viewed:"), item.value, -1)];
      }
    }

    /** The loop that gathers "viewed:<t>" (and "cart:<t>") for each token of a pass. */
    method CollectSessionKeys(tokens: seq<string>, full: bool) returns (sessionKeys: seq<string>)
      ensures sessionKeys == SessionKeys(tokens, full)
    {
      sessionKeys := [];
      for i := 0 to |tokens|
        invariant sessionKeys == SessionKeys(tokens[..i], full)
      {
        assert tokens[..i + 1][..i] == tokens[..i];
        sessionKeys := sessionKeys + [ViewedKey(tokens[i])];
        if full {
          sessionKeys := sessionKeys + [CartKey(tokens[i])];
        }
      }
      assert tokens[..|tokens|] == tokens;
    }

    /** One pass of a cleanup loop's body, reading the session count from `sizeKey`. */
    method CleanOnce(limit: nat, sizeKey: string, full: bool)
      modifies this
      ensures State() == CleanPass(old(State()), limit, sizeKey, full)
    {
      var size := |ZGet(zsets, sizeKey)|;
      if size <= limit {
        // time.sleep(1)
        return;
      }
      var endIndex := Min(size - limit, CLEAN_BATCH);
      assert endIndex == Excess(size, limit);
      var tokens := RangeByRank(ZGet(zsets, "recent:"), 0, endIndex - 1);
      var sessionKeys := CollectSessionKeys(tokens, full);
      var keys := Elements(sessionKeys);
      var kept := zsets - keys;
      login, zsets, carts := login - Elements(tokens), ZPut(kept, "recent:", RemAll(ZGet(kept, "recent:"), tokens)), carts - keys;
    }

    /** clean_sessions, stopped by QUIT after `passes` passes of its loop. */
    method CleanSessions(limit: nat, passes: nat)
      modifies this
      ensures State() == CleanPasses(old(State()), limit, "recent:", false, passes)
    {
      for n := 0 to passes
        invariant State() == CleanPasses(old(State()), limit, "recent:", false, n)
      {
        CleanOnce(limit, "recent:", false);
      }
    }

    /** clean_full_sessions as written: it counts the sessions with ZCARD "recent". */
    method CleanFullSessionsAsWritten(limit: nat, passes: nat)
      modifies this
      ensures State() == CleanPasses(old(State()), limit, "recent", true, passes)
    {
      for n := 0 to passes
        invariant State() == CleanPasses(old(State()), limit, "recent", true, n)
      {
        CleanOnce(limit, "recent", true);
      }
    }

    /** clean_full_sessions counting the sessions in "recent:", as clean_sessions does. */
    method CleanFullSessions(limit: nat, passes: nat)
      modifies this
      ensures State() == CleanPasses(old(State()), limit, "recent:", true, passes)
    {
      for n := 0 to passes
        invariant State() == CleanPasses(old(State()), limit, "recent:", true, n)
      {
        CleanOnce(limit, "recent:", true);
      }
    }

    /** add_to_cart(session, item, count). */
    method AddToCart(session: string, item: string, count: int)
      modifies this
      ensures State() == old(State()).(carts := CartEffect(old(carts), session, item, count))
    {
      var key := CartKey(session);
      var cart := if key in carts then carts[key] else map[];
      if count <= 0 {
        var rest := cart - {item};
        carts := if rest == map[] then carts - {key} else carts[key := rest];
      } else {
        carts := carts[key := cart[item := IntToString(count)]];
      }
    }

    /** cache_request(request, callback): the page, and whether the callback ran. */
    method CacheRequest(req: Request, render: string -> string) returns (content: string, rendered: bool)
      modifies this
      ensures (State(), content, rendered) == CacheEffect(old(State()), req, render)
    {
      if !CanCache(State(), req) {
        return render(req.text), true;
      }
      var pageKey := "cache:" + req.digest;
      content := if pageKey in pages then pages[pageKey] else "";
      rendered := false;
      if content == "" {
        content := render(req.text);
        rendered := true;
        pages := pages[pageKey := content];
      }
    }
  }
}
