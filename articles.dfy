/**
 * Article voting. Each article is a hash "article:<id>" (title, link, poster, time, votes); the
 * sorted sets "time:" and "score:" rank articles by post time and by score; "voted:<id>" is the set
 * of users who voted for an article; "group:<name>" sets hold article keys, and get_group_articles
 * caches the group's ranking under "<order><name>". A vote counts once per user, adds VOTE_SCORE
 * to the score and 1 to the votes, and is refused once the article is a week old.
 */
module Articles {
  import opened Common
  import opened Text
  import opened ZSets
  import Lists

  const ONE_WEEK_IN_SECONDS: int := 7 * 86400
  const VOTE_SCORE: int := 432
  const ARTICLES_PER_PAGE: int := 25

  /** The fields of an "article:<id>" hash. Times are whole seconds. */
  datatype Article = Article(title: string, link: string, poster: string, time: int, votes: int)

  /** The keys the article functions read and write, as one value. */
  datatype Board = Board(
    counter: nat,                       // "article:", the INCR counter of article ids
    articles: map<string, Article>,     // "article:<id>" hashes
    voted: map<string, set<string>>,    // "voted:<id>" sets
    zsets: map<string, ZSet>,           // "score:", "time:" and the cached group rankings
    groups: map<string, set<string>>)   // "group:<name>" sets

  /** What article_vote did. */
  datatype Vote =
    | Counted       // the user's first vote: score and votes raised
    | Repeated      // SADD found the user already in voted:<id>
    | Closed        // the article is more than a week old
    | NoPostTime    // no "time:" score: comparing None with the cutoff raises TypeError

  /** One listed article: its key and the fields HGETALL found (None for a missing hash). */
  datatype Listed = Listed(id: string, data: Option<Article>)

  function SetGet(sets: map<string, set<string>>, key: string): set<string> {
    if key in sets then sets[key] else {}
  }

  function HashGet(articles: map<string, Article>, key: string): Option<Article> {
    if key in articles then Some(articles[key]) else None
  }

  /** `article.partition(':')[-1]`: the id in an "article:<id>" key. */
  function ArticleId(article: string): string {
    After(article, ':')
  }

  function ArticleKey(id: string): string {
    "article:" + id
  }

  function GroupKey(group: string): string {
    "group:" + group
  }

  // ---------------------------------------------------------------------------------------------
  // article_vote and post_article

  /** article_vote at time `now`. */
  function VoteEffect(B: Board, user: string, article: string, now: int): (Board, Vote) {
    match Score(ZGet(B.zsets, "time:"), article)
    case None => (B, NoPostTime)
    case Some(posted) =>
      if posted < now - ONE_WEEK_IN_SECONDS then (B, Closed)
      else
        var key := "voted:" + ArticleId(article);
        if user in SetGet(B.voted, key) then (B, Repeated)
        else
          (B.(voted := B.voted[key := SetGet(B.voted, key) + {user}],
              zsets := B.zsets["score:" := IncrBy(ZGet(B.zsets, "score:"), article, VOTE_SCORE)],
              articles := if article in B.articles
                          then B.articles[article := B.articles[article].(votes := B.articles[article].votes + 1)]
                          else B.articles),
           Counted)
  }

  /** post_article at time `now`: the new id is the incremented counter, in decimal. */
  function PostEffect(B: Board, user: string, title: string, link: string, now: int): (Board, string) {
    var id := Dec(B.counter + 1);
    var article := ArticleKey(id);
    var voted := "voted:" + id;
    (B.(counter := B.counter + 1,
        voted := B.voted[voted := SetGet(B.voted, voted) + {user}],
        articles := B.articles[article := Article(title, link, user, now, 1)],
        zsets := B.zsets["score:" := Add(ZGet(B.zsets, "score:"), article, now + VOTE_SCORE)]
                        ["time:" := Add(ZGet(B.zsets, "time:"), article, now)]),
     id)
  }

  /**
   * The board is well formed: every sorted set is in Redis order, "score:" and "time:" rank the
   * same articles, each of which has its hash, and no id above the counter is in use yet.
   */
  ghost predicate WellFormed(B: Board) {
    && (forall k :: k in B.zsets ==> ZSets.Valid(B.zsets[k]))
    && Members(ZGet(B.zsets, "score:")) == Members(ZGet(B.zsets, "time:"))
    && Members(ZGet(B.zsets, "time:")) <= B.articles.Keys
    && (forall n: nat :: n > B.counter ==> ArticleKey(Dec(n)) !in B.articles)
  }

  /** The id is the text after the first ':' of the key, whatever the id holds. */
  lemma ArticleIdOfKey(id: string)
    ensures ArticleId(ArticleKey(id)) == id
  {
    assert ArticleKey(id) == "article" + [':'] + id;
    PartitionJoin("article", ':', id);
  }

  lemma ArticleKeyInjective(a: string, b: string)
    requires ArticleKey(a) == ArticleKey(b)
    ensures a == b
  {
    ArticleIdOfKey(a);
    ArticleIdOfKey(b);
  }

  /**
   * A vote is refused once the post time is before now minus a week, and an unknown article
   * raises; otherwise it counts exactly when the user is not yet in voted:<id>, and then adds
   * VOTE_SCORE to the score, 1 to the votes and the user to the voters, and nothing else.
   */
  lemma VoteSpec(B: Board, user: string, article: string, now: int)
    requires WellFormed(B)
    ensures var (B', r) := VoteEffect(B, user, article, now);
      var posted := Score(ZGet(B.zsets, "time:"), article);
      && (r == NoPostTime <==> posted.None?)
      && (r == Closed <==> posted.Some? && posted.value < now - ONE_WEEK_IN_SECONDS)
      && (r == Repeated <==> posted.Some? && posted.value >= now - ONE_WEEK_IN_SECONDS
                              && user in SetGet(B.voted, "voted:" + ArticleId(article)))
      && (r != Counted ==> B' == B)
      && (r == Counted ==>
            && Score(ZGet(B.zsets, "score:"), article).Some?
            && Score(ZGet(B'.zsets, "score:"), article) == Some(Score(ZGet(B.zsets, "score:"), article).GetOr(0) + VOTE_SCORE)
            && (forall m :: m != article ==> Score(ZGet(B'.zsets, "score:"), m) == Score(ZGet(B.zsets, "score:"), m))
            && article in B.articles && B'.articles == B.articles[article := B.articles[article].(votes := B.articles[article].votes + 1)]
            && SetGet(B'.voted, "voted:" + ArticleId(article)) == SetGet(B.voted, "voted:" + ArticleId(article)) + {user}
            && B'.zsets == B.zsets["score:" := IncrBy(ZGet(B.zsets, "score:"), article, VOTE_SCORE)]
            && B'.voted == B.voted["voted:" + ArticleId(article) := SetGet(B.voted, "voted:" + ArticleId(article)) + {user}]
            && B'.counter == B.counter && B'.groups == B.groups)
  {
    var posted := Score(ZGet(B.zsets, "time:"), article);
    ScoreIffMember(ZGet(B.zsets, "time:"), article);
    ScoreIffMember(ZGet(B.zsets, "score:"), article);
    IncrBySpec(ZGet(B.zsets, "score:"), article, VOTE_SCORE);
  }

  /** A second vote by the same user, at the same time or later, changes nothing. */
  lemma VoteIdempotent(B: Board, user: string, article: string, now: int, later: int)
    requires now <= later
    ensures var B1 := VoteEffect(B, user, article, now).0;
      VoteEffect(B1, user, article, later).0 == B1
  {
    var (B1, r) := VoteEffect(B, user, article, now);
    if r == Counted {
      assert ZGet(B1.zsets, "time:") == ZGet(B.zsets, "time:");
      assert user in SetGet(B1.voted, "voted:" + ArticleId(article));
    }
  }

  /** Voting keeps the board well formed. */
  lemma VoteKeepsValid(B: Board, user: string, article: string, now: int)
    requires WellFormed(B)
    ensures WellFormed(VoteEffect(B, user, article, now).0)
  {
    var (B', r) := VoteEffect(B, user, article, now);
    if r == Counted {
      var scores := ZGet(B.zsets, "score:");
      IncrBySpec(scores, article, VOTE_SCORE);
      ScoreIffMember(ZGet(B.zsets, "time:"), article);
      assert ZGet(B'.zsets, "time:") == ZGet(B.zsets, "time:");
      assert B'.articles.Keys == B.articles.Keys;
      if "score:" !in B.zsets {
        ValidSmall(Entry(article, 0));
      }
    }
  }

  /**
   * post_article takes a fresh id, makes the poster the article's first voter, stores the hash
   * with votes 1 and the post time, and ranks the article at time and time + VOTE_SCORE.
   */
  lemma PostSpec(B: Board, user: string, title: string, link: string, now: int)
    requires WellFormed(B)
    ensures var (B', id) := PostEffect(B, user, title, link, now);
      && ParseInt(id) == Some(B.counter + 1)
      && ArticleKey(id) !in B.articles
      && B'.articles == B.articles[ArticleKey(id) := Article(title, link, user, now, 1)]
      && user in SetGet(B'.voted, "voted:" + id)
      && Score(ZGet(B'.zsets, "time:"), ArticleKey(id)) == Some(now)
      && Score(ZGet(B'.zsets, "score:"), ArticleKey(id)) == Some(now + VOTE_SCORE)
      && (forall m :: m != ArticleKey(id) ==> Score(ZGet(B'.zsets, "score:"), m) == Score(ZGet(B.zsets, "score:"), m))
      && (forall m :: m != ArticleKey(id) ==> Score(ZGet(B'.zsets, "time:"), m) == Score(ZGet(B.zsets, "time:"), m))
      && WellFormed(B')
  {
    var (B', id) := PostEffect(B, user, title, link, now);
    var article := ArticleKey(id);
    DecRoundTrip(B.counter + 1);
    var scores, times := ZGet(B.zsets, "score:"), ZGet(B.zsets, "time:");
    AddSpec(scores, article, now + VOTE_SCORE);
    AddSpec(times, article, now);
    assert ZGet(B'.zsets, "score:") == Add(scores, article, now + VOTE_SCORE);
    assert ZGet(B'.zsets, "time:") == Add(times, article, now);
    forall n: nat | n > B'.counter ensures ArticleKey(Dec(n)) !in B'.articles {
      if ArticleKey(Dec(n)) == article {
        ArticleKeyInjective(Dec(n), id);
        DecInjective(n, B.counter + 1);
      }
    }
    forall k | k in B'.zsets ensures ZSets.Valid(B'.zsets[k]) {
      if k !in B.zsets {
        ValidSmall(Entry(article, 0));
      }
    }
  }

  // ---------------------------------------------------------------------------------------------
  // get_articles

  /** ZREVRANGE order (page-1)*25 (page-1)*25+24: the keys on a page, highest score first. */
  function PageIds(z: ZSet, page: int): seq<string> {
    var start := (page - 1) * ARTICLES_PER_PAGE;
    RevRangeByRank(z, start, start + ARTICLES_PER_PAGE - 1)
  }

  /** A page holds at most 25 articles, whatever the page number. */
  lemma PageSize(z: ZSet, page: int)
    ensures |PageIds(z, page)| <= ARTICLES_PER_PAGE
    ensures forall m :: m in PageIds(z, page) ==> m in Members(z)
  {
    var start := (page - 1) * ARTICLES_PER_PAGE;
    var r := Reverse(z);
    var window := Lists.Range(r, start, start + ARTICLES_PER_PAGE - 1);
    forall m | m in PageIds(z, page) ensures m in Members(z) {
      var i :| 0 <= i < |window| && window[i].member == m;
      assert window[i] in r;
      var k :| 0 <= k < |r| && r[k] == window[i];
      assert z[|z| - 1 - k].member == m;
    }
  }

  /** Page p (p >= 1) is the slice of the ranking from 25(p-1) up to 25p, highest score first. */
  lemma PageWindow(z: ZSet, page: int)
    requires page >= 1
    ensures var ranking := MemberList(Reverse(z));
      PageIds(z, page) == ranking[Min((page - 1) * ARTICLES_PER_PAGE, |z|)..Min(page * ARTICLES_PER_PAGE, |z|)]
  {
  }

  /** All pages up to `n`, one after another. */
  function Pages(z: ZSet, n: nat): seq<string>
    decreases n
  {
    if n == 0 then [] else Pages(z, n - 1) + PageIds(z, n)
  }

  /** Reading pages 1 to n in turn lists the top 25n articles, each once, in ranking order. */
  lemma {:induction false} PagesTile(z: ZSet, n: nat)
    ensures Pages(z, n) == MemberList(Reverse(z))[..Min(n * ARTICLES_PER_PAGE, |z|)]
    decreases n
  {
    if n > 0 {
      PagesTile(z, n - 1);
      PageWindow(z, n);
      var ranking := MemberList(Reverse(z));
      var a, b := Min((n - 1) * ARTICLES_PER_PAGE, |z|), Min(n * ARTICLES_PER_PAGE, |z|);
      assert ranking[..a] + ranking[a..b] == ranking[..b];
    }
  }

  // ---------------------------------------------------------------------------------------------
  // add_remove_groups and get_group_articles

  /** SADD group:<g> article for every g of `groups`, in order. */
  function AddToGroups(sets: map<string, set<string>>, groups: seq<string>, article: string): map<string, set<string>>
    decreases |groups|
  {
    if groups == [] then sets
    else
      var before := AddToGroups(sets, groups[..|groups| - 1], article);
      var key := GroupKey(groups[|groups| - 1]);
      before[key := SetGet(before, key) + {article}]
  }

  /** SREM group:<g> article for every g of `groups`, in order; Redis drops a set that becomes empty. */
  function RemoveFromGroups(sets: map<string, set<string>>, groups: seq<string>, article: string): map<string, set<string>>
    decreases |groups|
  {
    if groups == [] then sets
    else
      var before := RemoveFromGroups(sets, groups[..|groups| - 1], article);
      var key := GroupKey(groups[|groups| - 1]);
      var rest := SetGet(before, key) - {article};
      if rest == {} then before - {key} else before[key := rest]
  }

  lemma GroupKeyInjective(g: string, h: string)
    requires GroupKey(g) == GroupKey(h)
    ensures g == h
  {
    assert g == GroupKey(g)[6..] && h == GroupKey(h)[6..];
  }

  lemma {:induction false} AddToGroupsSpec(sets: map<string, set<string>>, groups: seq<string>, article: string, g: string)
    ensures SetGet(AddToGroups(sets, groups, article), GroupKey(g)) ==
      SetGet(sets, GroupKey(g)) + (if g in groups then {article} else {})
    decreases |groups|
  {
    if groups != [] {
      var init := groups[..|groups| - 1];
      AddToGroupsSpec(sets, init, article, g);
      assert groups == init + [groups[|groups| - 1]];
      if GroupKey(groups[|groups| - 1]) == GroupKey(g) {
        GroupKeyInjective(groups[|groups| - 1], g);
      }
    }
  }

  lemma {:induction false} RemoveFromGroupsSpec(sets: map<string, set<string>>, groups: seq<string>, article: string, g: string)
    ensures SetGet(RemoveFromGroups(sets, groups, article), GroupKey(g)) ==
      SetGet(sets, GroupKey(g)) - (if g in groups then {article} else {})
    ensures forall k :: k in RemoveFromGroups(sets, groups, article) ==> RemoveFromGroups(sets, groups, article)[k] != {} || k in sets
    decreases |groups|
  {
    if groups != [] {
      var init := groups[..|groups| - 1];
      RemoveFromGroupsSpec(sets, init, article, g);
      assert groups == init + [groups[|groups| - 1]];
      if GroupKey(groups[|groups| - 1]) == GroupKey(g) {
        GroupKeyInjective(groups[|groups| - 1], g);
      }
    }
  }

  /**
   * add_remove_groups: afterwards a group holds the article when it was listed to add and not to
   * remove, lacks it when listed to remove (even if also listed to add), and is otherwise as before.
   */
  lemma GroupsSpec(sets: map<string, set<string>>, article: string, toAdd: seq<string>, toRemove: seq<string>, g: string)
    ensures var after := RemoveFromGroups(AddToGroups(sets, toAdd, article), toRemove, article);
      SetGet(after, GroupKey(g)) ==
        if g in toRemove then SetGet(sets, GroupKey(g)) - {article}
        else SetGet(sets, GroupKey(g)) + (if g in toAdd then {article} else {})
  {
    AddToGroupsSpec(sets, toAdd, article, g);
    RemoveFromGroupsSpec(AddToGroups(sets, toAdd, article), toRemove, article, g);
  }

  /**
   * ZINTERSTORE of a group set (each member scores 1) with an ordering, AGGREGATE MAX: the
   * group's members that the ordering ranks, each scored the larger of 1 and its rank score.
   */
  function GroupRanking(order: ZSet, members: set<string>): ZSet
    decreases |order|
  {
    if order == [] then []
    else
      var rest := GroupRanking(order[1..], members);
      var e := order[0];
      if e.member in members then Add(rest, e.member, Max(1, e.score)) else rest
  }

  lemma {:induction false} GroupRankingSpec(order: ZSet, members: set<string>)
    ensures forall m :: Score(GroupRanking(order, members), m) == (
              if m in members && Score(order, m).Some? then Some(Max(1, Score(order, m).value)) else None)
    ensures ZSets.Valid(GroupRanking(order, members))
    decreases |order|
  {
    if order != [] {
      GroupRankingSpec(order[1..], members);
      var e := order[0];
      AddSpec(GroupRanking(order[1..], members), e.member, Max(1, e.score));
    }
  }

  /**
   * get_group_articles' cache step: the ranking is built under "<order><group>" only when that key
   * does not exist; an empty intersection stores no key.
   */
  function CacheGroup(zsets: map<string, ZSet>, groups: map<string, set<string>>, group: string, order: string): map<string, ZSet> {
    var key := order + group;
    if key in zsets then zsets
    else
      var ranking := GroupRanking(ZGet(zsets, order), SetGet(groups, GroupKey(group)));
      if ranking == [] then zsets else zsets[key := ranking]
  }

  /**
   * An existing cached ranking is used as it is, even if the group changed since; a new one ranks
   * exactly the group's articles that the ordering ranks, with their ordering scores when those
   * are at least 1, and no other key changes.
   */
  lemma CacheGroupSpec(zsets: map<string, ZSet>, groups: map<string, set<string>>, group: string, order: string)
    ensures order + group in zsets ==> CacheGroup(zsets, groups, group, order) == zsets
    ensures forall k :: k != order + group ==> ZGet(CacheGroup(zsets, groups, group, order), k) == ZGet(zsets, k)
    ensures order + group !in zsets ==>
      forall m :: Score(ZGet(CacheGroup(zsets, groups, group, order), order + group), m) == (
                    if m in SetGet(groups, GroupKey(group)) && Score(ZGet(zsets, order), m).Some?
                    then Some(Max(1, Score(ZGet(zsets, order), m).value)) else None)
    ensures forall k :: k in zsets && ZSets.Valid(zsets[k]) ==> ZSets.Valid(ZGet(CacheGroup(zsets, groups, group, order), k))
  {
    GroupRankingSpec(ZGet(zsets, order), SetGet(groups, GroupKey(group)));
  }

  // ---------------------------------------------------------------------------------------------
  // The store

  class ArticleStore {
    var counter: nat
    var articles: map<string, Article>
    var voted: map<string, set<string>>
    var zsets: map<string, ZSet>
    var groups: map<string, set<string>>

    function State(): Board
      reads this
    {
      Board(counter, articles, voted, zsets, groups)
    }

    constructor ()
      ensures State() == Board(0, map[], map[], map[], map[])
      ensures WellFormed(State())
    {
      counter, articles, voted, zsets, groups := 0, map[], map[], map[], map[];
    }

    /** article_vote(user, article) at time `now`. */
    method ArticleVote(user: string, article: string, now: int) returns (r: Vote)
      modifies this
      ensures (State(), r) == VoteEffect(old(State()), user, article, now)
    {
      var posted := Score(ZGet(zsets, "time:"), article);
      if posted.None? {
        return NoPostTime;
      }
      if posted.value < now - ONE_WEEK_IN_SECONDS {
        return Closed;
      }
      var key := "voted:" + ArticleId(article);
      var voters := SetGet(voted, key);
      if user in voters {
        return Repeated;
      }
      voted := voted[key := voters + {user}];
      zsets := zsets["score:" := IncrBy(ZGet(zsets, "score:"), article, VOTE_SCORE)];
      if article in articles {
        articles := articles[article := articles[article].(votes := articles[article].votes + 1)];
      }
      return Counted;
    }

    /** post_article(user, title, link) at time `now`: returns the new id. */
    method PostArticle(user: string, title: string, link: string, now: int) returns (id: string)
      modifies this
      ensures (State(), id) == PostEffect(old(State()), user, title, link, now)
    {
      counter := counter + 1;
      id := Dec(counter);
      var votedKey := "voted:" + id;
      voted := voted[votedKey := SetGet(voted, votedKey) + {user}];
      var article := ArticleKey(id);
      articles := articles[article := Article(title, link, user, now, 1)];
      zsets := zsets["score:" := Add(ZGet(zsets, "score:"), article, now + VOTE_SCORE)];
      zsets := zsets["time:" := Add(ZGet(zsets, "time:"), article, now)];
    }

    /** get_articles(page, order): the page's keys, each with the fields of its hash. */
    method GetArticles(page: int, order: string) returns (listed: seq<Listed>)
      ensures var ids := PageIds(ZGet(zsets, order), page);
        |listed| == |ids| && forall i :: 0 <= i < |ids| ==> listed[i] == Listed(ids[i], HashGet(articles, ids[i]))
    {
      var ids := PageIds(ZGet(zsets, order), page);
      listed := [];
      for i := 0 to |ids|
        invariant |listed| == i
        invariant forall j :: 0 <= j < i ==> listed[j] == Listed(ids[j], HashGet(articles, ids[j]))
      {
        listed := listed + [Listed(ids[i], HashGet(articles, ids[i]))];
      }
    }

    /** add_remove_groups(article_id, to_add, to_remove): the SADDs, then the SREMs. */
    method AddRemoveGroups(articleId: string, toAdd: seq<string>, toRemove: seq<string>)
      modifies this
      ensures groups == RemoveFromGroups(AddToGroups(old(groups), toAdd, ArticleKey(articleId)), toRemove, ArticleKey(articleId))
      ensures counter == old(counter) && articles == old(articles) && voted == old(voted) && zsets == old(zsets)
    {
      var article := ArticleKey(articleId);
      ghost var start := groups;
      for i := 0 to |toAdd|
        invariant groups == AddToGroups(start, toAdd[..i], article)
        invariant counter == old(counter) && articles == old(articles) && voted == old(voted) && zsets == old(zsets)
      {
        assert toAdd[..i + 1][..i] == toAdd[..i];
        var key := GroupKey(toAdd[i]);
        groups := groups[key := SetGet(groups, key) + {article}];
      }
      assert toAdd[..|toAdd|] == toAdd;
      ghost var added := groups;
      for i := 0 to |toRemove|
        invariant groups == RemoveFromGroups(added, toRemove[..i], article)
        invariant counter == old(counter) && articles == old(articles) && voted == old(voted) && zsets == old(zsets)
      {
        assert toRemove[..i + 1][..i] == toRemove[..i];
        var key := GroupKey(toRemove[i]);
        var rest := SetGet(groups, key) - {article};
        if rest == {} {
          groups := groups - {key};
        } else {
          groups := groups[key := rest];
        }
      }
      assert toRemove[..|toRemove|] == toRemove;
    }

    /** get_group_articles(group, page, order): builds the cached ranking if needed, then reads a page of it. */
    method GetGroupArticles(group: string, page: int, order: string) returns (listed: seq<Listed>)
      modifies this
      ensures zsets == CacheGroup(old(zsets), groups, group, order)
      ensures counter == old(counter) && articles == old(articles) && voted == old(voted) && groups == old(groups)
      ensures var ids := PageIds(ZGet(zsets, order + group), page);
        |listed| == |ids| && forall i :: 0 <= i < |ids| ==> listed[i] == Listed(ids[i], HashGet(articles, ids[i]))
    {
      var key := order + group;
      if key !in zsets {
        var ranking := GroupRanking(ZGet(zsets, order), SetGet(groups, GroupKey(group)));
        if ranking != [] {
          zsets := zsets[key := ranking];
        }
      }
      listed := GetArticles(page, key);
    }
  }
}
