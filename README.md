# Redis in Action, chapters 1, 2, 5, 6 and 7: a verified model

This project models the application logic of the Redis-in-Action example scripts in Dafny.
The logic runs against an abstract Redis store. Each kind of Redis value is a Dafny value:

- hashes and sets are maps and sets;
- lists are sequences;
- sorted sets are sequences of entries kept in Redis order, by score and then by member.

Functions that update keys one command at a time become methods of a class holding those keys.
Each method's postcondition ties the new state to a specification function. The properties the
scripts promise are then proved as lemmas about those functions.

The modules, one per script, plus shared modules:

- `Marketplace` (python/chapter-6.py): `list_item` and `purchase_item`, optimistic transactions with
  a 5- and a 10-second retry window.
- `Autocomplete` (python/chapter6-1.py): the capped recent-contacts list, the prefix filter,
  `find_prefix_range`, guild membership and the sentinel-based `autocomplete_on_prefix`.
- `GeoIp` (python/chapter-5-3.py): `ip_to_score`, the CSV row rules of both importers, and
  `find_city_by_ip`.
- `Search` (python/chapter7-1.py): `tokenize` and `index_document`.
- `Jobs` (python/chapter-7-3.py): `add_job`, `is_qualified`, `index_job` and `find_jobs`.
- `Articles` (python/chapter-1.py): voting, posting, pages, groups and the cached group ranking.
- `Sessions` (python/chapter-2.py): login tokens, viewed items, session cleanup, carts, the page
  cache and `can_cache`.
- `Logs` (python/chapter-5-1.py): severity names, `log_recent` and `log_common` with its hourly archive.
- `Stats` (python/chapter-5-2.py): `update_stats` with its ZUNIONSTORE MIN/MAX aggregation and
  hourly archive.
- `Maintenance` (python/chapter-5-4.py): the one-second cached maintenance flag.
- Shared modules:
  - `Optimistic`: the WATCH / validate / MULTI-EXEC / retry-on-WatchError pattern all four
    transactional scripts use.
  - `ZSets`: sorted-set commands.
  - `Lists`: list and rank index arithmetic.
  - `Text`: string order, lower-casing, decimal text, split and partition.
  - `Common`: Option, min and max.

The environment is given as values:

- Time is an integer: milliseconds for the retry windows and the maintenance cache, seconds in
  chapter 1.
- A retry loop receives a sequence of `Tick(now, conflict)`. Each tick gives the clock at one
  loop head and says whether another client touches a watched key before that attempt's EXEC.
- The loop stops at the first tick at or past the deadline.

## Model

| member | source | states |
|---|---|---|
| Marketplace.Market.ListItemAttempt | python/chapter-6.py:11-26 | one pass of the loop: a conflict changes nothing; a seller without the item gets a rejection and no writes; otherwise the listing and the inventory removal commit together |
| Marketplace.Market.ListItem | python/chapter-6.py:4-30 | the retry loop ends exactly as the attempt sequence over the 5-second window does (committed, rejected or timed out) and leaves the matching store |
| Marketplace.Market.PurchaseItemAttempt | python/chapter-6.py:41-63 | one pass of the loop: a conflict changes nothing; a rejected price or funds check stages no writes; otherwise the whole batch commits |
| Marketplace.Market.PurchaseItem | python/chapter-6.py:33-70 | the retry loop ends exactly as the attempt sequence over the 10-second window does and leaves the matching store |
| Marketplace.ListEffect | python/chapter-6.py:15-26 | list_item rejects if and only if the seller does not hold the item; a commit lists "item.seller" at the price, removes the item from the seller and changes nothing else |
| Marketplace.ListItemOutcome | python/chapter-6.py:7-30 | the result is None for a missing item, True when an unconflicted attempt falls inside the window, False otherwise; only True changes the store |
| Marketplace.PurchaseEffect | python/chapter-6.py:48-63 | purchase_item rejects if and only if the listed price differs from lprice (an absent listing included) or exceeds the buyer's funds; a commit credits the seller, debits the buyer, delists the item and adds it to the buyer's inventory |
| Marketplace.PurchaseKeepsBuyerSolvent | python/chapter-6.py:49-59 | after a committed purchase from another user the buyer's funds are not negative |
| Marketplace.PurchaseConservesFunds | python/chapter-6.py:58-59 | a committed purchase leaves the total of all accounts unchanged |
| Marketplace.PurchaseItemConservesFunds | python/chapter-6.py:38-70 | whatever the outcome of the retry loop, the total of all funds is unchanged |
| Marketplace.ListingMemberInjective | python/chapter-6.py:36 | item and seller ids without '.' give distinct listing members |
| Marketplace.InventoryKeyInjective | python/chapter-6.py:5 | distinct sellers have distinct inventory keys |
| Marketplace.ListKeepsSingleOwner | python/chapter-6.py:23-24 | a committed listing keeps every item in exactly one place, either an inventory or the market |
| Marketplace.PurchaseKeepsSingleOwner | python/chapter-6.py:60-61 | a committed purchase keeps every item in exactly one place |
| Marketplace.NoDoubleSale | python/chapter-6.py:48-52 | once a purchase of a listing commits, every later purchase of it is rejected |
| Marketplace.PurchaseThenRelist | python/chapter-6.py:57-63 | a buyer can list what they bought, because the item lands in the inventory list_item checks |
| Marketplace.PurchaseAsWrittenLosesItem | python/chapter-6.py:37 | with the key spelt "invnetory:" the bought item is delisted and in no inventory list_item can read |
| Marketplace.ListThenBuyScenario | python/chapter-6.py:4-63 | listing X at 10 and buying it with 15 leaves the seller 10, the buyer 5 and X in the buyer's inventory |
| Autocomplete.AddUpdateSpec | python/chapter6-1.py:13-24 | after add_update_contact the contact is at the head and occurs once; at most 100 entries remain; the others keep their order and are cut after 99 |
| Autocomplete.AddressBook.AddUpdateContact | python/chapter6-1.py:13-24 | the user's list becomes AddUpdate of the old list; every other user's list is unchanged |
| Autocomplete.AddressBook.RemoveContact | python/chapter6-1.py:26-27 | the user's list loses every copy of the contact; other lists are unchanged |
| Autocomplete.MatchingSpec | python/chapter6-1.py:29-39 | a contact is returned if and only if it is in the list and its lower-cased form starts with the prefix, as many times as it is listed; results keep list order |
| Autocomplete.MatchingAll | python/chapter6-1.py:34-37 | when every contact matches, the whole list comes back |
| Autocomplete.MatchingUpperCasePrefix | python/chapter6-1.py:35 | a prefix holding an upper-case letter matches no contact, because only the contact is lower-cased |
| Autocomplete.AddressBook.FetchAutocompleteList | python/chapter6-1.py:29-39 | the filtering loop returns exactly Matching of the stored list |
| Autocomplete.ValidCharactersAreConsecutive | python/chapter6-1.py:42 | the known characters are the 28 consecutive code points from '`' to '{' |
| Autocomplete.BisectLeft | python/chapter6-1.py:46 | bisect_left returns an index between lo and the length |
| Autocomplete.BisectLeftIndex | python/chapter6-1.py:46 | in a strictly increasing string, bisect_left finds a character at its own index |
| Autocomplete.PrefixRangeOfWord | python/chapter6-1.py:44-50 | for a lower-case prefix the bounds are the prefix with its last letter decremented plus '{', and the prefix plus '{' |
| Autocomplete.FindPrefixRangeExample | python/chapter6-1.py:44-50 | the range of "abc" is ("abb{", "abc{") |
| Autocomplete.InsideBounds | python/chapter6-1.py:44-50 | a lower-case name with the prefix lies strictly between the bounds |
| Autocomplete.OutsideBounds | python/chapter6-1.py:44-50 | a lower-case name without the prefix does not lie strictly between the bounds |
| Autocomplete.SentinelBounds | python/chapter6-1.py:54-57 | the sentinels with the unique identifier appended still have the bounds' shape |
| Autocomplete.PrefixRangeBounds | python/chapter6-1.py:54-57 | a lower-case name lies strictly between the two sentinels if and only if it starts with the prefix |
| Autocomplete.AddKeepsGuildSet | python/chapter6-1.py:85-86 | ZADD at score 0 keeps a guild set ordered with all scores 0 and adds exactly the user |
| Autocomplete.RemKeepsGuildSet | python/chapter6-1.py:88-89 | ZREM keeps a guild set a guild set |
| Autocomplete.Guilds.JoinGuild | python/chapter6-1.py:85-86 | the guild's set becomes the old set with the user added at score 0 |
| Autocomplete.Guilds.LeaveGuild | python/chapter6-1.py:88-89 | the guild's set becomes the old set without the user |
| Autocomplete.WithSentinels | python/chapter6-1.py:61-62 | after the two ZADDs both sentinels are members |
| Autocomplete.SentinelLayout | python/chapter6-1.py:61-69 | the sentinels land around exactly the names with the prefix |
| Autocomplete.ScanOfLayout | python/chapter6-1.py:68-74 | an attempt reads the two sentinel ranks and removing both restores the original set |
| Autocomplete.RangeLayout | python/chapter6-1.py:70-75 | with the corrected end rank the range is the first 10 names between the sentinels |
| Autocomplete.WordsKeepAll | python/chapter6-1.py:83 | the final filter keeps every lower-case name |
| Autocomplete.AutocompleteBounded | python/chapter6-1.py:70-83 | with the corrected end rank, a call returns at most 10 names and none containing '{' |
| Autocomplete.AutocompleteFinds | python/chapter6-1.py:52-83 | with lower-case names and prefix, a call returns the first 10 names with the prefix in order, and the guild set ends as it started |
| Autocomplete.AutocompleteAsWrittenReturnsAll | python/chapter6-1.py:70 | as written, when no name has the prefix and none sorts before it, erange is -1 and the whole guild is returned |
| Autocomplete.AutocompleteZedExample | python/chapter6-1.py:70 | guild {"zed"} with prefix "a": as written ["zed"], corrected [] |
| Autocomplete.Guilds.AutocompleteOnPrefix | python/chapter6-1.py:52-83 | with the corrected end rank: the sentinels go in, then the watch loop ends as the attempt sequence does; on commit it returns the filtered range and removes the sentinels |
| Autocomplete.Guilds.AddSentinels | python/chapter6-1.py:61-62 | the guild set becomes the old one with both sentinels added at score 0, and stays a valid guild set |
| Autocomplete.Guilds.WatchLoop | python/chapter6-1.py:64-80 | with the corrected end rank: the loop ends as the attempt sequence runs the plan: the guild set is what that run leaves, and on commit the names are the range read without sentinels |
| Autocomplete.Guilds.CommitAttempt | python/chapter6-1.py:68-83 | the committing attempt finds both sentinels ranked, leaves the guild set without them, and returns the corrected range with sentinel-like names filtered out |
| Autocomplete.Guilds.RunBatch | python/chapter6-1.py:74-76 | the batch leaves the guild set without both sentinels and returns its ranks sindex to erange, or nothing when erange < sindex |
| Autocomplete.CommitOutcome | python/chapter6-1.py:66-77 | an attempt without conflict commits: both sentinels have ranks, and the run returns the corrected range of the set with both removed |
| Autocomplete.AutocompleteOnPrefixCommits | python/chapter6-1.py:64-83 | when the loop commits on lower-case names it returns AutocompleteNames and restores the guild set |
| GeoIp.IpToScore | python/chapter-5-3.py:2-6 | the accumulator loop returns IpScore: the left fold of score*256+part, or None when a part is not decimal |
| GeoIp.ParseAllFails | python/chapter-5-3.py:5 | one part that is not decimal makes the conversion fail |
| GeoIp.SplitQuad | python/chapter-5-3.py:4 | a dotted quad splits into its four decimal texts |
| GeoIp.QuadScore | python/chapter-5-3.py:2-6 | ip_to_score("a.b.c.d") is a*2^24 + b*2^16 + c*2^8 + d |
| GeoIp.QuadOrder | python/chapter-5-3.py:2-6 | for octets the score is in [0, 2^32); equal scores mean equal octets and scores order addresses as their octets do |
| GeoIp.RowClassification | python/chapter-5-3.py:13-26 | a first field with 'i' or neither dotted nor all digits is skipped; a dotted one is converted, an all-digit one parsed; the member is row[2] + '_' + the row number |
| GeoIp.DottedRow | python/chapter-5-3.py:16-26 | a row starting with a dotted quad adds its block at the quad's score |
| GeoIp.BlockMemberDistinct | python/chapter-5-3.py:25 | rows with different numbers get different members |
| GeoIp.CityIdRoundTrip | python/chapter-5-3.py:55 | partition('_')[0] recovers a city id that holds no '_' |
| GeoIp.ImportBlocksValid | python/chapter-5-3.py:11-26 | importing keeps the set in Redis order |
| GeoIp.ImportBlocksKeeps | python/chapter-5-3.py:11-26 | later rows never touch a member tagged with an earlier row number |
| GeoIp.ImportBlocksScores | python/chapter-5-3.py:11-26 | a completed import holds every block row at its own score |
| GeoIp.ImportBlocksStops | python/chapter-5-3.py:17-19 | a row that raises ends the import with only the earlier rows applied |
| GeoIp.GeoDb.ImportIps | python/chapter-5-3.py:9-26 | the loop leaves ImportBlocks of the rows and does not touch the cities |
| GeoIp.ImportCityRowsSpec | python/chapter-5-3.py:29-40 | the ids are the old ones plus those of qualifying rows; each holds its last qualifying row as [city, region, country]; other ids keep their record |
| GeoIp.ImportCityRowsKeys | python/chapter-5-3.py:29-40 | an id is in the hash exactly when it was there before or some qualifying row names it |
| GeoIp.ImportCityRowsLast | python/chapter-5-3.py:29-40 | an id holds the record of the last qualifying row that names it |
| GeoIp.ImportCityRowsUntouched | python/chapter-5-3.py:29-40 | an id that no qualifying row names keeps its old record |
| GeoIp.GeoDb.ImportCities | python/chapter-5-3.py:29-40 | the loop leaves ImportCityRows of the rows and does not touch the blocks |
| GeoIp.WindowLast | python/chapter-5-3.py:48-49 | the last entry of a score window comes after every other entry in it |
| GeoIp.FoundBlockSpec | python/chapter-5-3.py:48-52 | nothing is found if and only if no block starts in [0, score]; otherwise the found block has the greatest start at or below the score |
| GeoIp.LocateSpec | python/chapter-5-3.py:42-57 | a bad address raises; None if and only if no block is at or below it; otherwise the record of the city id before the first '_' |
| GeoIp.LocateNoBlock | python/chapter-5-3.py:49-53 | nothing is found exactly when no block starts at or below the score |
| GeoIp.LocateFound | python/chapter-5-3.py:49-57 | a found block is the greatest at or below the score, and the answer is its city id's record, or a missing-id error |
| GeoIp.FoundEntry | python/chapter-5-3.py:49-50 | the member ZREVRANGEBYSCORE returns belongs to the greatest entry scored at or below the score |
| GeoIp.ImportThenLocate | python/chapter-5-3.py:9-57 | importing a block and its city, then looking up the same address, finds that city |
| Search.LeadingRun | python/chapter7-1.py:20 | the run at the start of the text is made of word characters and stops at the first other character |
| Search.RunsAreMaximal | python/chapter7-1.py:20-25 | every run found is a maximal run of `[a-z']` somewhere in the text |
| Search.MatchesAreRuns | python/chapter7-1.py:20-25 | each finditer match is a maximal run of at least two word characters |
| Search.StripSpec | python/chapter7-1.py:27 | strip("'") keeps a contiguous piece of the word and removes only apostrophes, leaving none at either end |
| Search.StrippedSpec | python/chapter7-1.py:25-30 | the loop adds a word if and only if it is the stripped form of some match and at least two characters long |
| Search.Tokenize | python/chapter7-1.py:22-32 | the loop returns exactly Tokens of the content |
| Search.TokenFromMatch | python/chapter7-1.py:25-32 | every token is at least two characters, not a stop word, and the stripped form of some match |
| Search.TokensSpec | python/chapter7-1.py:20-32 | every token has two or more `[a-z']` characters, no apostrophe at either end, is no stop word, and comes from a maximal run in the lower-cased text |
| Search.TokensIgnoreCase | python/chapter7-1.py:25 | tokenize(c) equals tokenize(c.lower()) |
| Search.StopWordsDropped | python/chapter7-1.py:9-32 | stop words such as "the" and "would" are never tokens |
| Search.AddToWordsSpec | python/chapter7-1.py:40-41 | after indexing, the document is in a word's set if and only if the word is a token or it was there before; other documents are untouched; the keys grow by exactly the tokens |
| Search.Index.AddToAll | python/chapter7-1.py:40-43 | the pipeline loop adds the document to every word's set and gets one reply per word |
| Search.Index.IndexDocument | python/chapter7-1.py:34-43 | the index becomes AddToWords of the tokens and the result is the number of distinct tokens |
| Jobs.DistinctSpec | python/chapter-7-3.py:58 | set(...) holds exactly the listed elements |
| Jobs.IsQualifiedSpec | python/chapter-7-3.py:40-49 | with at least one candidate skill the answer is defined, and it is True if and only if the candidate holds every skill the job requires |
| Jobs.UnknownJobQualifies | python/chapter-7-3.py:48-49 | a job nobody added requires nothing, so every candidate with skills qualifies |
| Jobs.JobBoard.AddJob | python/chapter-7-3.py:36-38 | SADD adds the distinct skills to job:<id>; without skills it is refused and nothing changes |
| Jobs.AddedJobQualification | python/chapter-7-3.py:36-49 | for a job just added, a candidate qualifies if and only if they hold every listed skill |
| Jobs.IndexSkillsSpec | python/chapter-7-3.py:54-56 | each skill's set gains exactly the job if the skill is listed; no other set changes; the keys grow by the listed skills |
| Jobs.IndexSkillsNeeded | python/chapter-7-3.py:54-56 | afterwards the skills listing the job are exactly its distinct skills; other jobs are unaffected |
| Jobs.IndexJobConsistent | python/chapter-7-3.py:52-59 | indexing a new job keeps every requirement count equal to the number of skill sets listing the job |
| Jobs.JobBoard.IndexJob | python/chapter-7-3.py:52-59 | the skill sets and idx:jobs:req change as one batch: IndexSkills and a ZADD of len(set(skills)) |
| Jobs.UnionScoreNeeded | python/chapter-7-3.py:64-69 | a job's union score is the number of the candidate's distinct skills that it requires |
| Jobs.ShortfallSpec | python/chapter-7-3.py:71-72 | the weighted intersection holds exactly the jobs in both inputs, scored requirement count minus union score |
| Jobs.FindJobsSpec | python/chapter-7-3.py:62-76 | the result holds exactly the jobs of idx:jobs:req in the union whose count equals their score, in member order |
| Jobs.FindJobsQualified | python/chapter-7-3.py:62-76 | on an index built by index_job, a job is found if and only if it requires at least one skill and the candidate holds all of them |
| Articles.ArticleIdOfKey | python/chapter-1.py:18 | partition(':')[-1] of "article:<id>" gives back the id |
| Articles.ArticleKeyInjective | python/chapter-1.py:35 | distinct ids give distinct article keys |
| Articles.VoteSpec | python/chapter-1.py:8-22 | a vote is refused once the post time is before now minus a week; an unknown article raises; otherwise it counts if and only if the user is new to voted:<id>, adding 432 to the score, 1 to the votes and the user to the voters; every other sorted set, every other voted: set, the counter and the groups stay as they were |
| Articles.VoteIdempotent | python/chapter-1.py:20-22 | a second vote by the same user changes nothing |
| Articles.VoteKeepsValid | python/chapter-1.py:8-22 | voting keeps the board well formed: ordered sets, the same articles in "score:" and "time:", each with its hash |
| Articles.ArticleStore.ArticleVote | python/chapter-1.py:8-22 | the store and the reply become VoteEffect of the old store |
| Articles.PostSpec | python/chapter-1.py:24-48 | post_article takes the incremented counter as a fresh id, makes the poster the first voter, stores votes 1 and the time, and ranks the article at time + 432 and at time |
| Articles.ArticleStore.PostArticle | python/chapter-1.py:24-48 | the store and the returned id become PostEffect of the old store |
| Articles.PageSize | python/chapter-1.py:52-58 | a page holds at most 25 articles, all of them ranked |
| Articles.PageWindow | python/chapter-1.py:54-58 | page p is the slice of the descending ranking from 25(p-1) up to 25p |
| Articles.PagesTile | python/chapter-1.py:52-58 | reading pages 1 to n in turn lists the top 25n articles once each, in ranking order |
| Articles.ArticleStore.GetArticles | python/chapter-1.py:52-65 | the loop returns the page's keys in order, each with its hash's fields and its id |
| Articles.GroupKeyInjective | python/chapter-1.py:72 | distinct groups have distinct keys |
| Articles.AddToGroupsSpec | python/chapter-1.py:71-72 | a group's set gains the article exactly when the group is listed |
| Articles.RemoveFromGroupsSpec | python/chapter-1.py:73-75 | a group's set loses the article exactly when the group is listed; an emptied set is dropped |
| Articles.GroupsSpec | python/chapter-1.py:67-75 | afterwards a group holds the article if it was to be added and not removed, lacks it if it was to be removed, and is otherwise unchanged |
| Articles.ArticleStore.AddRemoveGroups | python/chapter-1.py:67-75 | the group sets become the adds followed by the removes; nothing else changes |
| Articles.GroupRankingSpec | python/chapter-1.py:82-85 | the intersection with AGGREGATE MAX scores each ranked group member by the larger of 1 and its ordering score, and holds no one else |
| Articles.CacheGroupSpec | python/chapter-1.py:79-87 | an existing cached key is used as it is; a missing one is built from the intersection; no other key changes |
| Articles.ArticleStore.GetGroupArticles | python/chapter-1.py:77-89 | the cache step is CacheGroup, then a page of the cached ranking is read |
| Sessions.SessionStore.CheckTokenOf | python/chapter-2.py:10-11 | returns the user "login:" holds for the token, or None |
| Sessions.ViewEffectFrame | python/chapter-2.py:21-26 | recording a view touches only the token's viewed set and "viewed:" |
| Sessions.ViewEffectSpec | python/chapter-2.py:23-26 | a view keeps the newest 25 entries of the token's viewed set with the view added, and lowers the item's "viewed:" score by one |
| Sessions.UpdateSpec | python/chapter-2.py:14-20 | after update_token check_token finds the user and the token's last-seen time is now; no other token's login or time changes |
| Sessions.UpdateViewSpec | python/chapter-2.py:21-26 | update_token with an item records the view as ViewEffectSpec states |
| Sessions.SessionStore.UpdateToken | python/chapter-2.py:14-26 | the store becomes UpdateEffect of the old store |
| Sessions.SessionKeysSpec | python/chapter-2.py:44-47 | the session keys are exactly "viewed:<t>" for each token, plus "cart:<t>" in a full cleanup |
| Sessions.RemAllPrefix | python/chapter-2.py:52 | ZREM of the first k members of an ordered set leaves its entries from k on |
| Sessions.CleanPassSpec | python/chapter-2.py:31-52 | at or below the limit nothing changes; otherwise the k = min(size - limit, 100) oldest tokens go from "recent:", lose their login entry and their session keys (carts in a full cleanup); other logins stay, and so do the viewed and cart keys of the tokens that stay, every other sorted set ("viewed:" among them unless the empty token is removed) and the page cache; the store stays well formed |
| Sessions.SessionStore.CleanOnce | python/chapter-2.py:32-52 | one pass of the loop body, building the session keys in a loop, leaves CleanPass of the old store |
| Sessions.SessionStore.CollectSessionKeys | python/chapter-2.py:44-47 | the loop builds exactly the session keys of the tokens, in order |
| Sessions.CleanPassesSize | python/chapter-2.py:31-52 | each pass shrinks "recent:" by up to 100 tokens, never below the limit |
| Sessions.CleanPassSize | python/chapter-2.py:34-52 | one pass keeps the store well formed and leaves "recent:" with max(limit, size - 100) tokens when over the limit |
| Sessions.CleanSessionsEmpties | python/chapter-2.py:31-52 | with the limit at 0 and at most 100n sessions, n passes empty "recent:" and "login:" |
| Sessions.SessionStore.CleanSessions | python/chapter-2.py:31-52 | the loop stopped after a number of passes leaves CleanPasses of the old store |
| Sessions.CleanFullAsWrittenIdle | python/chapter-2.py:65 | while the key "recent" is absent, a pass of clean_full_sessions as written deletes nothing |
| Sessions.UpdateKeepsRecentAbsent | python/chapter-2.py:14-26 | update_token never creates the key "recent" |
| Sessions.CleanFullCounterexample | python/chapter-2.py:63-79 | one session with a cart and limit 0: the pass as written keeps the cart; the pass reading "recent:" deletes it |
| Sessions.SessionStore.CleanFullSessionsAsWritten | python/chapter-2.py:63-79 | the loop as written, counting with ZCARD "recent", leaves CleanPasses on that key |
| Sessions.SessionStore.CleanFullSessions | python/chapter-2.py:63-79 | the loop counting "recent:" leaves CleanPasses of a full cleanup |
| Sessions.CartSpec | python/chapter-2.py:55-61 | for a count of 0 or less the item is absent afterwards; otherwise it holds the count, which reads back as that number; no other item of any cart changes |
| Sessions.SessionStore.AddToCart | python/chapter-2.py:55-61 | the carts become CartEffect of the old carts; nothing else changes |
| Sessions.CanCacheSpec | python/chapter-2.py:141-150 | a request is cacheable if and only if it names an item, has no "_" parameter, and the item's rank in "viewed:" exists and is below 10000 |
| Sessions.CacheRequestTwice | python/chapter-2.py:81-97 | a cacheable request answered once with a non-empty page is answered again from the cache, without calling the callback |
| Sessions.CacheRequestUncacheable | python/chapter-2.py:83-84 | an uncacheable request calls the callback and stores nothing |
| Sessions.SessionStore.CacheRequest | python/chapter-2.py:81-97 | the store, page and callback flag become CacheEffect of the old store |
| Logs.SeverityNameSpec | python/chapter-5-1.py:29-34 | a numeric level reads as its decimal text (INFO as "20"), and normalising twice changes nothing |
| Logs.RecentSpec | python/chapter-5-1.py:33-47 | after log_recent the list starts with the timestamped message and holds at most the 100 newest messages, newest first; no other key changes |
| Logs.LogStore.LogRecent | python/chapter-5-1.py:33-47 | the store becomes RecentEffect of the old store |
| Logs.RotateSpec | python/chapter-5-1.py:72-80 | reading a missing start as empty: the counts are archived exactly when a stored start is earlier than the hour, the old start goes to ":plast" and the old counts to ":last"; afterwards the start is the hour if it was missing or earlier, and is otherwise unchanged |
| Logs.CommonStepSpec | python/chapter-5-1.py:70-84 | one attempt's batch makes the message's count one more than before (from zero after an archive) and puts the message in the recent log |
| Logs.CommonStepCount | python/chapter-5-1.py:72-82 | the message's count becomes one more than before, or one after an archive |
| Logs.CommonStepStart | python/chapter-5-1.py:72-80 | reading a missing start as empty: the start key becomes the hour when it was missing, empty or older, and otherwise stays |
| Logs.CommonStepRecent | python/chapter-5-1.py:82-84 | the recent log becomes the timestamped message in front of the old one, cut to its most recent entries |
| Logs.CommonStepArchived | python/chapter-5-1.py:72-82 | every attempt leaves the log's counts in place, so a stored start always has its counts |
| Logs.CommonAsWrittenNeverStarts | python/chapter-5-1.py:68-80 | as written a missing start reads as "None", so neither branch records the start and the log never rotates |
| Logs.CommonStarts | python/chapter-5-1.py:79-80 | reading a missing start as empty, the first attempt records the current hour as the start |
| Logs.LogCommonSpec | python/chapter-5-1.py:49-88 | reading a missing start as empty: log_common commits at the first unconflicted attempt before the 5-second deadline and otherwise changes nothing; the committing attempt counts the message once, at its own hour |
| Logs.LogStore.LogCommonAttempt | python/chapter-5-1.py:59-85 | one pass of the loop, reading a missing start either as written ("None") or as empty: a conflict changes nothing; otherwise the batch commits |
| Logs.LogStore.RunLogCommon | python/chapter-5-1.py:49-88 | the retry loop leaves the store the attempt sequence over the 5-second window gives, under either reading of a missing start |
| Logs.LogStore.LogCommonAsWritten | python/chapter-5-1.py:49-88 | as written (a missing start reads as "None"): the store becomes the run of the as-written attempts over the 5-second window |
| Logs.LogCommonAsWrittenNeverStarts | python/chapter-5-1.py:68-80 | as written, whichever attempt commits, a log without a start still has none after log_common, so it never rotates |
| Logs.LogStore.LogCommon | python/chapter-5-1.py:49-88 | reading a missing start as empty: the store becomes the run of the attempts over the 5-second window |
| Optimistic.WindowSpec | python/chapter-6.py:10 | the attempts the loop can make are the ticks before the first one past the deadline |
| Optimistic.RunSpec | python/chapter-6.py:10-30 | the retry loop times out if and only if no attempt fits or every one in the window conflicts; it rejects if and only if the plan rejects; it succeeds if and only if the plan validates and some attempt in the window is unconflicted, taking the plan's state; otherwise the state is unchanged |
| Optimistic.RunPreserves | python/chapter-6.py:10-30 | a property every validated plan keeps holds after the retry loop |
| Optimistic.FirstSettledSpec | python/chapter-5-1.py:58-88 | the loop ends at the first attempt in the window whose plan rejects or that is unconflicted; with none, every attempt in the window conflicted |
| Optimistic.RunAtSpec | python/chapter-5-1.py:58-88 | a loop whose attempts plan from their own clock reading returns the settling attempt's outcome, or times out and changes nothing |
| Stats.UnionStoreSpec | python/chapter-5-2.py:46-47 | ZUNIONSTORE with AGGREGATE MIN or MAX gives a member of both inputs the minimum or maximum of its scores and every other member its own; it keeps Redis order |
| Stats.BoundsAt | python/chapter-5-2.py:42-47 | after the two unions "min" is the least and "max" the greatest of the old bound and the value (the value alone when none existed); other members keep their scores |
| Stats.RecordAt | python/chapter-5-2.py:42-55 | after recording, each member has the score Recorded gives: min and max updated, count + 1, sum + value, sumsq + value squared, others unchanged |
| Stats.RecordValid | python/chapter-5-2.py:42-55 | recording keeps the set in Redis order |
| Stats.RecordSpec | python/chapter-5-2.py:42-58 | recording keeps Redis order, every member takes its Recorded score, and the reply is the new count, sum and sum of squares |
| Stats.StatsUnionsBounds | python/chapter-5-2.py:38-50 | with fresh temporary keys the ZADDs, unions and DEL change only the statistics key, and no temporary key remains |
| Stats.RecordFirst | python/chapter-5-2.py:42-55 | the first value recorded on no statistics is the min, the max and the sum, with count 1 |
| Stats.RecordNext | python/chapter-5-2.py:42-55 | a further value is folded into min, max, count, sum and sumsq |
| Stats.RecordAllSpec | python/chapter-5-2.py:42-55 | recording a non-empty sequence from nothing leaves exactly its minimum, maximum, length, sum and sum of squares |
| Stats.StatsPlanSpec | python/chapter-5-2.py:27-58 | one attempt archives when a stored non-empty start is earlier than the hour, then every member takes its Recorded score from the (possibly emptied) statistics and the reply is [count, sum, sumsq]; the old statistics go to ":last"; a missing start stays missing |
| Stats.UpdateStatsSpec | python/chapter-5-2.py:17-61 | update_stats replies at the first unconflicted attempt before the 5-second deadline; otherwise it returns None and every attempt conflicted |
| Stats.StatsStore.RecordValue | python/chapter-5-2.py:38-55 | the recording steps leave the statistics key holding Record of its old contents, reply Replies, and leave the strings unchanged |
| Stats.StatsStore.StoreBounds | python/chapter-5-2.py:38-49 | the statistics key gets Bounds of its old contents with the value, and nothing else changes |
| Stats.StatsStore.IncrementStats | python/chapter-5-2.py:53-55 | the three ZINCRBYs add 1, value and value squared and reply with the new scores |
| Stats.StatsStore.UpdateStatsAttempt | python/chapter-5-2.py:26-58 | one pass of the loop: a conflict changes nothing; otherwise the store and reply are the plan's |
| Stats.StatsStore.UpdateStats | python/chapter-5-2.py:17-61 | the retry loop leaves the store and result the attempt sequence over the 5-second window gives |
| Maintenance.CheckSpec | python/chapter-5-4.py:19-33 | a call re-reads the key exactly when the cache is more than a second old, then records now and answers whether the key holds a non-empty value; otherwise it answers the cached value and changes nothing |
| Maintenance.RefreshesSpaced | python/chapter-5-4.py:25-27 | two reads of the key are more than a second apart |
| Maintenance.CheckAll | python/chapter-5-4.py:19-33 | a sequence of calls gives one answer per call |
| Maintenance.CachedWithinWindow | python/chapter-5-4.py:25-33 | within a second of the last read every call answers the cached value, whatever the key holds, and the cache is unchanged |
| Maintenance.MaintenanceScenario | python/chapter-5-4.py:53-62 | the test's calls answer False, False (cached), True after a second, then False after the key is deleted |
| Maintenance.MaintenanceFlag.IsUnderMaintenance | python/chapter-5-4.py:19-33 | the two globals and the answer become Check of the old globals |
| Lists.RemoveAllSpec | python/chapter6-1.py:27 | LREM with count 0 removes every copy of the contact, keeps every other value's count and their order |
| Lists.FilterSpec | python/chapter6-1.py:34-37 | the filtering loop keeps exactly the elements that pass, each as many times as it occurs, in order |
| Lists.RemoveRangeKeepsLast | python/chapter-2.py:25 | ZREMRANGEBYRANK 0 -26 keeps exactly the last 25 entries |
| Text.LowerIdempotent | python/chapter7-1.py:25 | lower-casing twice is lower-casing once and leaves no upper-case letter |
| Text.DecRoundTrip | python/chapter-1.py:26 | str(n) of the counter is digits that int() reads back as n |
| Text.SplitJoin | python/chapter-5-3.py:4 | split('.') of x + '.' + y, with no '.' in x, is x followed by the pieces of y |
| Text.PartitionJoin | python/chapter-1.py:18 | partition(':') of x + ':' + y, with no ':' in x, recovers x and y |
| ZSets.AddSpec | python/chapter-1.py:46-47 | ZADD gives the member its score, keeps every other score, adds exactly that member and keeps Redis order |
| ZSets.IncrBySpec | python/chapter-1.py:21 | ZINCRBY adds delta to the member's score (0 when absent) and changes no other score |
| ZSets.RemSpec | python/chapter6-1.py:89 | ZREM removes exactly the member and keeps every other score and Redis order |
| ZSets.RankSpec | python/chapter-2.py:148 | ZRANK is defined if and only if the member is present, and is then its first index |
| ZSets.RangeByScoreSpec | python/chapter-7-3.py:76 | ZRANGEBYSCORE lo hi lists exactly the members whose score lies in [lo, hi] |
| ZSets.RangeByScoreTies | python/chapter-7-3.py:76 | members sharing one score come out in lexicographic order |

## Left out

- Floating-point scores: Redis scores and the stats values are doubles, and prices, votes and timestamps are Python floats. The model uses integers throughout, so rounding and `inf` are not modelled.
- `get_stats` (python/chapter-5-2.py): it computes a mean and a standard deviation in floating point, so it is not modelled.
- Byte replies: under Python 3, redis-py returns bytes, and several comparisons with `str` (`existing < hour_start`, `startswith(prefix)`) would raise TypeError. The model treats every reply as text, as the scripts evidently intend.
- Clocks, `uuid4()` identifiers and temporary keys, and `time.sleep` are parameters (ticks, identifiers, fresh distinct keys). The `QUIT` flag of the cleanup daemons is modelled as a number of passes.
- Logs.LogStore.LogCommon: reads a missing start as empty, the evident intent, so a new log records its hour; Logs.LogStore.LogCommonAttempt (with `asWritten` false), Logs.LogCommonSpec and Logs.CommonStepStart follow the same reading. Logs.LogStore.LogCommonAsWritten runs `str(None)` as written at python/chapter-5-1.py:68.
- Autocomplete.Guilds.AutocompleteOnPrefix: reads the range with the corrected end rank (nothing when the end falls before the start), as do Autocomplete.Guilds.WatchLoop and Autocomplete.AutocompleteBounded, so the bound of 10 names is not promised for python/chapter6-1.py:70 as written, where `erange` of -1 returns the whole guild (Autocomplete.AutocompleteAsWrittenReturnsAll).
- Stats.StatsStore.UpdateStats: the start key is set only when one already exists (python/chapter-5-2.py:33-36), so a new statistic is never rotated. The model follows the code as written; the initialisation the authors probably intended is not modelled.
- Maintenance.MaintenanceFlag.IsUnderMaintenance: `time.time()` is read twice in python/chapter-5-4.py, once for the comparison and once for the stored time. The model uses one reading `now` for both.
- Key expiry: EXPIRE, SETEX and TTL are left out. This covers the week-long expiry of an article's `voted:` set, the 60-second expiry of the cached group ranking, the 300-second page cache, and the job-index temporaries. Cached entries therefore never expire in the model.
- Logs: a RENAME whose source key is missing is a per-command error inside MULTI/EXEC, and the other queued commands still run. The model leaves the keys as they are, which is what Redis ends up doing.
- Sessions: DEL with an empty key list is an error in Redis. Only the as-written pass can issue it (size read from `recent` while `recent:` is empty), and the model treats it as doing nothing.
- Sessions: `extract_item_id`, `is_dynamic` and `hash_request` come from the web framework, which is not part of this model. They are fields of the `Request` value; the page callback is a function parameter.
- Sessions: `add_to_cart` calls `hrem`, which redis-py does not have. It is modelled as HDEL, the evident intent.
- Sessions.UpdateViewSpec: requires a non-empty token, because `viewed:` plus the empty token is the global `viewed:` sorted set, and the two would collide.
- Sessions: `rescale_viewed`, `cache_rows`, `schedule_row_cache` and `access_time` are not named as part of the core and are not modelled.
- Marketplace: the script does not parse as written. There are missing colons, typos (`sellereid`, `inventroy`), `"market:". item`, and `purchase_item` is nested inside `list_item`. The model follows the evident intent: top-level functions, the seller's id, the inventory key, and ZREM of the listing. The `zadd` argument order of redis-py 2 is read as member then score.
- Marketplace.Market.PurchaseItem: requires that the buyer's `funds` field exists. In the source, `int(None)` raises TypeError there, and the exception path is not modelled.
- Marketplace.PurchaseKeepsBuyerSolvent: proved only for a buyer who is not the seller.
- Autocomplete: `lrem` with the redis-py 2 argument order removes every occurrence of the contact, and is modelled that way.
- Text.Lower: `lower()` is modelled for ASCII letters only, so Autocomplete, Search and Logs.SeverityName leave other letters as they are.
- Autocomplete.AutocompleteFinds: proved for prefixes and guild names made of the lower-case letters `a`-`z`. `find_prefix_range` relies on the character order of exactly these letters.
- Autocomplete: the `while 1` retry loops run over a finite sequence of ticks. A run whose conflicts outlast the ticks returns `done` false.
- GeoIp: opening and reading the CSV files, `decode('latin-1')` and `json.loads` are left out. A row is a sequence of fields and a city record is a triple.
- Text.ParseInt: Python's `int()` also accepts surrounding whitespace and `_` between digits. The model accepts only an optional sign followed by decimal digits.
- GeoIp.QuadOrder: the order of scores is proved for octets in 0..255.
- Search: `_set_common`, `intersect`, `union` and `difference` (python/chapter7-1.py) are not modelled, because they do not parse as written. Regular-expression tokenising is modelled by scanning runs of word characters with ASCII case folding.
- Jobs: `_zset_common` in python/chapter-7-3.py changes a dict while iterating over its keys, which raises RuntimeError in Python 3. The model applies the key prefix once to each key, the evident intent. The demo `print`s are left out.
- Jobs.FindJobsQualified: requires an index built only by `index_job`, so that each job's required count matches its skills.
- Articles: `zscore` of an unknown article is None, and `None < cutoff` raises TypeError under Python 3. The model reports that case as an error.
- Chapters 3, 4, 5, 5-5 and 7-2 are not modelled: they are command demos, thread experiments and timing loops.
- Concurrency is modelled only through the conflict flag of each optimistic attempt (WatchError). Interleavings of other clients are not modelled.

## Findings

| source | as written | input that shows it | evidently intended | confidence | as-written member | corrected member |
|---|---|---|---|---|---|---|
| python/chapter-6.py:37 | the bought item is pushed to `invnetory:<buyer>` | any successful purchase; the buyer then cannot list the item | the buyer's `inventory:` set, which `list_item` checks | not executed | Marketplace.PurchaseAsWrittenLosesItem | Marketplace.PurchaseThenRelist |
| python/chapter6-1.py:70 | `erange = min(sindex + 9, eindex - 2)` becomes -1 when both sentinels land at ranks 0 and 1, and ZRANGE 0 -1 returns the whole guild | guild {"zed"}, prefix "a" | no names, since none starts with "a" | not executed | Autocomplete.AutocompleteAsWrittenReturnsAll | Autocomplete.AutocompleteFinds |
| python/chapter-5-1.py:68 | `str(None)` is "None", which is non-empty and not earlier than an ISO hour, so the start key is never set and the common log never rotates | a first call on a new log | a missing start counts as absent, and the current hour is recorded | not executed | Logs.CommonAsWrittenNeverStarts | Logs.CommonStarts |
| python/chapter-2.py:65 | the size is read from `recent`, but tokens live in `recent:` | one logged-in session, limit 0: the session is never cleaned | the size of `recent:` | not executed | Sessions.CleanFullCounterexample | Sessions.CleanPassSpec |
