/**
 * python/chapter6-1.py: the capped list of a user's recent contacts ("recent:<user>") with a
 * client-side prefix filter, and autocompletion over a guild's members ("members:<guild>", a
 * sorted set whose scores are all 0, so its order is the lexicographic order of the names) by
 * inserting two sentinel members around the prefix and reading the ranks between them.
 */
module Autocomplete {
  import opened Common
  import opened Text
  import opened Lists
  import ZSets
  import opened Optimistic

  // ---------------------------------------------------------------------------------------------
  // Recent contacts

  /** `ltrim(ac_list, 0, 99)` keeps this many contacts. */
  const RECENT_LIMIT: nat := 100

  /** The list add_update_contact leaves: old copies removed (LREM), the contact pushed (LPUSH), trimmed (LTRIM 0 99). */
  function AddUpdate(list: seq<string>, contact: string): seq<string> {
    Range([contact] + RemoveAll(list, contact), 0, RECENT_LIMIT - 1)
  }

  /**
   * After add_update_contact the contact is at the head and occurs once, the list holds at most 100
   * entries, and behind the head come the other contacts in their old order, cut after 99 of them.
   */
  lemma AddUpdateSpec(list: seq<string>, contact: string)
    ensures var r := AddUpdate(list, contact);
      && |r| >= 1 && r[0] == contact
      && Count(r, contact) == 1
      && |r| == Min(|list| - Count(list, contact) + 1, RECENT_LIMIT)
      && r[1..] == Take(RemoveAll(list, contact), RECENT_LIMIT - 1)
  {
    var rest := RemoveAll(list, contact);
    RemoveAllSpec(list, contact);
    RangeFromHead([contact] + rest, RECENT_LIMIT - 1);
    var r := AddUpdate(list, contact);
    var tail := Take(rest, RECENT_LIMIT - 1);
    assert r == [contact] + tail;
    assert contact !in tail;
    CountZero(tail, contact);
    assert r[1..] == tail;
  }

  /** The contacts whose lower-cased form starts with `prefix` (the prefix itself is not lower-cased), in list order. */
  function Matching(list: seq<string>, prefix: string): seq<string> {
    Filter(list, (x: string) => IsPrefix(prefix, Lower(x)))
  }

  /** fetch_autocomplete_list keeps exactly the matching contacts, each as often as listed, in list order. */
  lemma MatchingSpec(list: seq<string>, prefix: string)
    ensures forall x :: x in Matching(list, prefix) <==> x in list && IsPrefix(prefix, Lower(x))
    ensures forall x :: multiset(Matching(list, prefix))[x] == if IsPrefix(prefix, Lower(x)) then multiset(list)[x] else 0
    ensures Subsequence(Matching(list, prefix), list)
  {
    FilterSpec(list, (x: string) => IsPrefix(prefix, Lower(x)));
  }

  /** When every contact matches (prefix "c" on contacts named "contact-..."), the whole list comes back. */
  lemma MatchingAll(list: seq<string>, prefix: string)
    requires forall i :: 0 <= i < |list| ==> IsPrefix(prefix, Lower(list[i]))
    ensures Matching(list, prefix) == list
  {
    FilterAll(list, (x: string) => IsPrefix(prefix, Lower(x)));
  }

  /** The prefix is compared as given: one holding an upper-case letter matches no contact. */
  lemma MatchingUpperCasePrefix(list: seq<string>, prefix: string, k: nat)
    requires k < |prefix| && 'A' <= prefix[k] <= 'Z'
    ensures Matching(list, prefix) == []
  {
    var f := (x: string) => IsPrefix(prefix, Lower(x));
    forall i | 0 <= i < |list| ensures !f(list[i]) {
      var l := Lower(list[i]);
      if k < |l| {
        assert l[k] == LowerChar(list[i][k]);
      }
    }
    FilterNone(list, f);
  }

  class AddressBook {
    /** The "recent:<user>" lists, by user. */
    var recent: map<string, seq<string>>

    /** LRANGE on a missing list reads as empty. */
    function Contacts(user: string): seq<string>
      reads this
    {
      if user in recent then recent[user] else []
    }

    constructor ()
      ensures recent == map[]
    {
      recent := map[];
    }

    /** add_update_contact: the three list commands in one transaction. */
    method AddUpdateContact(user: string, contact: string)
      modifies this
      ensures Contacts(user) == AddUpdate(old(Contacts(user)), contact)
      ensures forall u :: u != user ==> Contacts(u) == old(Contacts(u))
    {
      var list := Contacts(user);
      list := RemoveAll(list, contact);
      list := [contact] + list;
      list := Range(list, 0, RECENT_LIMIT - 1);
      recent := recent[user := list];
    }

    /** remove_contact: LREM of every copy. */
    method RemoveContact(user: string, contact: string)
      modifies this
      ensures Contacts(user) == RemoveAll(old(Contacts(user)), contact)
      ensures forall u :: u != user ==> Contacts(u) == old(Contacts(u))
    {
      if user in recent {
        recent := recent[user := RemoveAll(recent[user], contact)];
      }
    }

    /** fetch_autocomplete_list: LRANGE 0 -1, then a filtering loop. */
    method FetchAutocompleteList(user: string, prefix: string) returns (matches: seq<string>)
      ensures matches == Matching(Contacts(user), prefix)
    {
      var candidates := Range(Contacts(user), 0, -1);
      RangeWhole(Contacts(user));
      matches := [];
      for i := 0 to |candidates|
        invariant matches == Matching(candidates[..i], prefix)
      {
        var f := (x: string) => IsPrefix(prefix, Lower(x));
        assert candidates[..i + 1] == candidates[..i] + [candidates[i]];
        FilterAppend(candidates[..i], [candidates[i]], f);
        if IsPrefix(prefix, Lower(candidates[i])) {
          matches := matches + [candidates[i]];
        }
      }
      assert candidates[..|candidates|] == candidates;
    }
  }

  // ---------------------------------------------------------------------------------------------
  // The prefix range

  /** The characters the range computation knows: the letters with their two neighbours '`' and '{'. */
  const VALID_CHARACTERS: string := "`abcdefghijklmnopqrstuvwxyz{"

  /**
   * `bisect.bisect_left(a, x, lo)` on a sorted string: the first index from `lo` on whose
   * one-character string is not below `x`.
   */
  function BisectLeft(a: string, x: string, lo: nat): (i: nat)
    requires lo <= |a|
    ensures lo <= i <= |a|
    decreases |a| - lo
  {
    if lo == |a| || !Less([a[lo]], x) then lo else BisectLeft(a, x, lo + 1)
  }

  /** `prefix[:-1]`. */
  function Init(s: string): string {
    if s == [] then [] else s[..|s| - 1]
  }

  /** find_prefix_range: the last character is replaced by its predecessor in VALID_CHARACTERS. */
  function FindPrefixRange(prefix: string): (string, string) {
    var last := if prefix == [] then [] else [prefix[|prefix| - 1]];
    var posn := BisectLeft(VALID_CHARACTERS, last, 0);
    var suffix := VALID_CHARACTERS[(if posn == 0 then 1 else posn) - 1];
    (Init(prefix) + [suffix] + "{", prefix + "{")
  }

  predicate LowerWord(s: string) {
    forall i :: 0 <= i < |s| ==> IsLowerLetter(s[i])
  }

  lemma ValidCharactersAreConsecutive()
    ensures |VALID_CHARACTERS| == 28
    ensures forall i :: 0 <= i < 28 ==> VALID_CHARACTERS[i] as int == 96 + i
  {
  }

  /** In a strictly increasing string, bisect_left finds a character at its own index. */
  lemma {:induction false} BisectLeftIndex(a: string, i: nat, lo: nat)
    requires forall j, k :: 0 <= j < k < |a| ==> a[j] < a[k]
    requires lo <= i < |a|
    ensures BisectLeft(a, [a[i]], lo) == i
    decreases i - lo
  {
    if lo == i {
      LessIrreflexive([a[i]]);
    } else {
      assert Less([a[lo]], [a[i]]);
      BisectLeftIndex(a, i, lo + 1);
    }
  }

  /** For a lower-case prefix, the start bound ends in the letter before the last one ('`' before 'a'). */
  lemma PrefixRangeOfWord(p: string)
    requires p != [] && LowerWord(p)
    ensures FindPrefixRange(p) == (p[..|p| - 1] + [(p[|p| - 1] as int - 1) as char] + "{", p + "{")
  {
    var c := p[|p| - 1];
    assert IsLowerLetter(c);
    ValidCharactersAreConsecutive();
    var i := c as int - 96;
    assert VALID_CHARACTERS[i] == c;
    BisectLeftIndex(VALID_CHARACTERS, i, 0);
  }

  /** The range of "abc" is ("abb{", "abc{"). */
  lemma FindPrefixRangeExample()
    ensures FindPrefixRange("abc") == ("abb{", "abc{")
  {
    var p := "abc";
    assert LowerWord(p) by {
      assert p[0] == 'a' && p[1] == 'b' && p[2] == 'c';
    }
    PrefixRangeOfWord(p);
    ExampleBounds();
  }

  /** The two bounds of "abc" spelled out. */
  lemma ExampleBounds()
    ensures "abc"[..2] + [("abc"[2] as int - 1) as char] + "{" == "abb{"
    ensures "abc" + "{" == "abc{"
  {
    var start := "abc"[..2] + [("abc"[2] as int - 1) as char] + "{";
    assert |start| == 4 && start[0] == 'a' && start[1] == 'b' && start[2] == 'b' && start[3] == '{';
  }

  /** The two sentinels of one call: the prefix range with the call's unique identifier appended. */
  function Sentinels(prefix: string, id: string): (string, string) {
    var (s, e) := FindPrefixRange(prefix);
    (s + id, e + id)
  }

  /** The shape of the two bounds for a prefix of length n: they agree with it before n - 1 and continue with '{'. */
  ghost predicate Bounds(p: string, start: string, end: string) {
    var n := |p|;
    && n > 0 && |start| > n && |end| > n
    && start[..n - 1] == p[..n - 1] && start[n - 1] as int + 1 == p[n - 1] as int && start[n] == '{'
    && end[..n] == p && end[n] == '{'
  }

  /** A lower-case name with the prefix lies strictly between the bounds. */
  lemma InsideBounds(p: string, start: string, end: string, m: string)
    requires Bounds(p, start, end) && LowerWord(m) && IsPrefix(p, m)
    ensures Less(start, m) && Less(m, end)
  {
    var n := |p|;
    assert m[..n - 1] == p[..n - 1] && m[n - 1] == p[n - 1];
    LessAtFirstDifference(start, m, n - 1);
    if |m| == n {
      assert m == end[..n];
      PrefixLess(m, end);
    } else {
      assert m[..n] == end[..n] && IsLowerLetter(m[n]);
      LessAtFirstDifference(m, end, n);
    }
  }

  /** A lower-case name that is a proper prefix of the prefix, or first differs from it, lies outside the bounds. */
  lemma OutsideBounds(p: string, start: string, end: string, m: string)
    requires Bounds(p, start, end) && LowerWord(m) && !IsPrefix(p, m)
    ensures !(Less(start, m) && Less(m, end))
  {
    var n := |p|;
    var k := CommonPrefixLength(m, p);
    assert k < n;
    if k == |m| {
      assert m == start[..k];
      PrefixLess(m, start);
      LessAsymmetric(m, start);
    } else if k < n - 1 {
      assert start[..k] == m[..k] && start[k] == p[k];
      assert end[..k] == m[..k] && end[k] == p[k];
      if m[k] < p[k] {
        LessAtFirstDifference(m, start, k);
        LessAsymmetric(m, start);
      } else {
        LessAtFirstDifference(end, m, k);
        LessAsymmetric(end, m);
      }
    } else {
      OutsideBoundsAtLast(p, start, end, m);
    }
  }

  /** The case of OutsideBounds where the name first differs from the prefix at its last character. */
  lemma OutsideBoundsAtLast(p: string, start: string, end: string, m: string)
    requires Bounds(p, start, end) && LowerWord(m)
    requires |m| >= |p| && m[..|p| - 1] == p[..|p| - 1] && m[|p| - 1] != p[|p| - 1]
    ensures !(Less(start, m) && Less(m, end))
  {
    var n := |p|;
    var k := n - 1;
    assert start[..k] == m[..k] && end[..k] == m[..k];
    assert end[k] == p[k];
    if m[k] > p[k] {
      LessAtFirstDifference(end, m, k);
      LessAsymmetric(end, m);
    } else if m[k] != start[k] {
      assert m[k] < start[k];
      LessAtFirstDifference(m, start, k);
      LessAsymmetric(m, start);
    } else {
      assert m[..n] == start[..n];
      if |m| == n {
        assert m == start[..n];
        PrefixLess(m, start);
      } else {
        assert IsLowerLetter(m[n]);
        LessAtFirstDifference(m, start, n);
      }
      LessAsymmetric(m, start);
    }
  }

  /** For a non-empty lower-case prefix, the sentinels, whatever the identifier, have the shape of Bounds. */
  lemma SentinelBounds(p: string, id: string)
    requires p != [] && LowerWord(p)
    ensures Bounds(p, Sentinels(p, id).0, Sentinels(p, id).1)
  {
    PrefixRangeOfWord(p);
    var n := |p|;
    var start := p[..n - 1] + [(p[n - 1] as int - 1) as char] + "{" + id;
    var end := p + "{" + id;
    assert Sentinels(p, id) == (start, end);
    assert start[..n - 1] == p[..n - 1] && start[n] == '{';
    assert end[..n] == p && end[n] == '{';
  }

  /**
   * For a lower-case prefix and lower-case names, a name lies strictly between the two sentinels
   * exactly when it starts with the prefix, whatever the identifier.
   */
  lemma PrefixRangeBounds(p: string, m: string, id: string)
    requires p != [] && LowerWord(p) && LowerWord(m)
    ensures Less(Sentinels(p, id).0, m) && Less(m, Sentinels(p, id).1) <==> IsPrefix(p, m)
  {
    SentinelBounds(p, id);
    if IsPrefix(p, m) {
      InsideBounds(p, Sentinels(p, id).0, Sentinels(p, id).1, m);
    } else {
      OutsideBounds(p, Sentinels(p, id).0, Sentinels(p, id).1, m);
    }
  }

  // ---------------------------------------------------------------------------------------------
  // Guild autocompletion

  /** A guild set: a valid sorted set whose scores are all 0. */
  ghost predicate GuildSet(z: ZSets.ZSet) {
    ZSets.Valid(z) && forall i :: 0 <= i < |z| ==> z[i].score == 0
  }

  /** ZADD name 0 keeps a guild set a guild set. */
  lemma AddKeepsGuildSet(z: ZSets.ZSet, name: string)
    requires GuildSet(z)
    ensures GuildSet(ZSets.Add(z, name, 0))
    ensures ZSets.Members(ZSets.Add(z, name, 0)) == ZSets.Members(z) + {name}
  {
    ZSets.AddSpec(z, name, 0);
    ZSets.RemSpec(z, name);
    ZSets.InsertSpec(ZSets.Rem(z, name), ZSets.Entry(name, 0));
    var r := ZSets.Add(z, name, 0);
    forall i | 0 <= i < |r| ensures r[i].score == 0 {
      assert r[i] in r;
      if r[i] != ZSets.Entry(name, 0) {
        assert r[i] in z;
      }
    }
  }

  /** ZREM keeps a guild set a guild set. */
  lemma RemKeepsGuildSet(z: ZSets.ZSet, name: string)
    requires GuildSet(z)
    ensures GuildSet(ZSets.Rem(z, name))
  {
    ZSets.RemSpec(z, name);
    var r := ZSets.Rem(z, name);
    forall i | 0 <= i < |r| ensures r[i].score == 0 {
      assert r[i] in r;
    }
  }

  /** The guild set after the two ZADDs that run before the transaction. */
  function WithSentinels(z: ZSets.ZSet, prefix: string, id: string): (z1: ZSets.ZSet)
    ensures Sentinels(prefix, id).0 in ZSets.Members(z1) && Sentinels(prefix, id).1 in ZSets.Members(z1)
  {
    var (start, end) := Sentinels(prefix, id);
    ZSets.AddSpec(z, start, 0);
    ZSets.AddSpec(ZSets.Add(z, start, 0), end, 0);
    ZSets.Add(ZSets.Add(z, start, 0), end, 0)
  }

  /** What one attempt reads and stages: the ranks of both sentinels, and the set once both are removed. */
  function Scan(z1: ZSets.ZSet, prefix: string, id: string): (ZSets.ZSet, nat, nat)
    requires Sentinels(prefix, id).0 in ZSets.Members(z1) && Sentinels(prefix, id).1 in ZSets.Members(z1)
  {
    var (start, end) := Sentinels(prefix, id);
    ScanBetween(z1, start, end)
  }

  /** The same, for the sentinels `start` and `end`. */
  function ScanBetween(z1: ZSets.ZSet, start: string, end: string): (ZSets.ZSet, nat, nat)
    requires start in ZSets.Members(z1) && end in ZSets.Members(z1)
  {
    ZSets.RankSpec(z1, start);
    ZSets.RankSpec(z1, end);
    (ZSets.Rem(ZSets.Rem(z1, start), end), ZSets.Rank(z1, start).value, ZSets.Rank(z1, end).value)
  }

  /** ZRANGE sindex erange with erange = min(sindex + 9, eindex - 2), as written. */
  function RangeAsWritten(rest: ZSets.ZSet, sindex: nat, eindex: nat): seq<string> {
    ZSets.RangeByRank(rest, sindex, Min(sindex + 9, eindex - 2))
  }

  /** The same range, but empty when erange falls below sindex (no name between the sentinels). */
  function RangeCorrected(rest: ZSets.ZSet, sindex: nat, eindex: nat): seq<string> {
    if Min(sindex + 9, eindex - 2) < sindex then [] else RangeAsWritten(rest, sindex, eindex)
  }

  /** One attempt of the watch loop: it never rejects; its batch removes the sentinels and reads the range. */
  function AutocompletePlan(z1: ZSets.ZSet, prefix: string, id: string): Option<(ZSets.ZSet, seq<string>)>
    requires Sentinels(prefix, id).0 in ZSets.Members(z1) && Sentinels(prefix, id).1 in ZSets.Members(z1)
  {
    var (rest, sindex, eindex) := Scan(z1, prefix, id);
    Some((rest, RangeCorrected(rest, sindex, eindex)))
  }

  predicate NoBrace(name: string) {
    '{' !in name
  }

  /** The final filter, which drops the sentinels of concurrent calls. */
  function WithoutSentinels(items: seq<string>): seq<string> {
    Filter(items, NoBrace)
  }

  /** The names autocomplete_on_prefix returns when an attempt commits. */
  function AutocompleteNames(z: ZSets.ZSet, prefix: string, id: string): seq<string> {
    var z1 := WithSentinels(z, prefix, id);
    WithoutSentinels(AutocompletePlan(z1, prefix, id).value.1)
  }

  /** The same, with the range as written. */
  function AutocompleteNamesAsWritten(z: ZSets.ZSet, prefix: string, id: string): seq<string> {
    var (rest, sindex, eindex) := Scan(WithSentinels(z, prefix, id), prefix, id);
    WithoutSentinels(RangeAsWritten(rest, sindex, eindex))
  }

  /** Whatever the guild holds, a call returns at most 10 names and none containing '{'. */
  lemma AutocompleteBounded(z: ZSets.ZSet, prefix: string, id: string)
    ensures |AutocompleteNames(z, prefix, id)| <= 10
    ensures forall x :: x in AutocompleteNames(z, prefix, id) ==> '{' !in x
  {
    var z1 := WithSentinels(z, prefix, id);
    var (rest, sindex, eindex) := Scan(z1, prefix, id);
    var items := RangeCorrected(rest, sindex, eindex);
    if Min(sindex + 9, eindex - 2) >= sindex {
      var stop: nat := Min(sindex + 9, eindex - 2);
      RangeLength(rest, sindex, stop);
    }
    FilterSpec(items, NoBrace);
  }

  /** Every name in the guild is a lower-case word. */
  ghost predicate AllWords(z: ZSets.ZSet) {
    forall i :: 0 <= i < |z| ==> LowerWord(z[i].member)
  }

  /**
   * Where the sentinels land: with a lower-case prefix and lower-case names, the start sentinel sits
   * at `a`, the end sentinel after `b` names, and the names between them are exactly those with the prefix.
   */
  lemma SentinelLayout(z: ZSets.ZSet, p: string, id: string) returns (a: nat, b: nat)
    requires GuildSet(z) && AllWords(z) && p != [] && LowerWord(p)
    ensures a <= b <= |z|
    ensures WithSentinels(z, p, id) ==
      z[..a] + [ZSets.Entry(Sentinels(p, id).0, 0)] + z[a..b] + [ZSets.Entry(Sentinels(p, id).1, 0)] + z[b..]
    ensures Sentinels(p, id).0 !in ZSets.Members(z) && Sentinels(p, id).1 !in ZSets.Members(z)
    ensures Sentinels(p, id).0 != Sentinels(p, id).1
    ensures forall i :: 0 <= i < |z| ==> (IsPrefix(p, z[i].member) <==> a <= i < b)
  {
    var (start, end) := Sentinels(p, id);
    SentinelsApart(z, p, id);
    var S, E := ZSets.Entry(start, 0), ZSets.Entry(end, 0);
    ZSets.RemAbsent(z, start);
    var z1 := ZSets.Insert(z, S);
    ZSets.MembersInsert(z, S);
    ZSets.RemAbsent(z1, end);
    assert WithSentinels(z, p, id) == ZSets.Insert(z1, E);
    ZSets.InsertTwo(z, S, E);
    a, b := ZSets.InsertPos(z, S), ZSets.InsertPos(z, E);
    SentinelsSplit(z, p, id);
  }

  /** Both sentinels are new to a set of lower-case names, and the start one sorts first. */
  lemma SentinelsApart(z: ZSets.ZSet, p: string, id: string)
    requires AllWords(z) && p != [] && LowerWord(p)
    ensures Sentinels(p, id).0 !in ZSets.Members(z) && Sentinels(p, id).1 !in ZSets.Members(z)
    ensures Sentinels(p, id).0 != Sentinels(p, id).1 && Less(Sentinels(p, id).0, Sentinels(p, id).1)
  {
    PrefixRangeOfWord(p);
    var (start, end) := Sentinels(p, id);
    var n := |p|;
    assert start[n] == '{' && end[n] == '{';
    forall i | 0 <= i < |z| ensures z[i].member != start && z[i].member != end {
      assert LowerWord(z[i].member);
      assert !IsLowerLetter(start[n]);
    }
    assert start[..n - 1] == end[..n - 1] && start[n - 1] < end[n - 1];
    LessAtFirstDifference(start, end, n - 1);
  }

  /** The names with the prefix are exactly those between the two sentinels' insertion points. */
  lemma SentinelsSplit(z: ZSets.ZSet, p: string, id: string)
    requires GuildSet(z) && AllWords(z) && p != [] && LowerWord(p)
    requires Sentinels(p, id).0 !in ZSets.Members(z) && Sentinels(p, id).1 !in ZSets.Members(z)
    ensures var a := ZSets.InsertPos(z, ZSets.Entry(Sentinels(p, id).0, 0));
      var b := ZSets.InsertPos(z, ZSets.Entry(Sentinels(p, id).1, 0));
      forall i :: 0 <= i < |z| ==> (IsPrefix(p, z[i].member) <==> a <= i < b)
  {
    var (start, end) := Sentinels(p, id);
    var S, E := ZSets.Entry(start, 0), ZSets.Entry(end, 0);
    var a, b := ZSets.InsertPos(z, S), ZSets.InsertPos(z, E);
    ZSets.InsertPosSpec(z, S);
    ZSets.InsertPosSpec(z, E);
    forall i | 0 <= i < |z| ensures IsPrefix(p, z[i].member) <==> a <= i < b {
      var m := z[i].member;
      PrefixRangeBounds(p, m, id);
      if i < a {
        LessAsymmetric(m, start);
      }
      if i >= b {
        LessAsymmetric(end, m);
      }
    }
  }

  /** A member absent from two pieces and different from an entry is absent from the three joined. */
  lemma NotInPieces(m: string, x: ZSets.ZSet, e: ZSets.Entry, y: ZSets.ZSet)
    requires m !in ZSets.Members(x) && m != e.member && m !in ZSets.Members(y)
    ensures m !in ZSets.Members(x + [e] + y)
  {
    ZSets.MembersAppend(x, [e]);
    ZSets.MembersAppend(x + [e], y);
    ZSets.MembersCons([e]);
    assert [e][1..] == [];
  }

  /** Ranks and removal of two entries laid out as x S y E w, each member occurring once. */
  lemma TwoEntries(x: ZSets.ZSet, S: ZSets.Entry, y: ZSets.ZSet, E: ZSets.Entry, w: ZSets.ZSet)
    requires S.member != E.member
    requires S.member !in ZSets.Members(x) && S.member !in ZSets.Members(y) && S.member !in ZSets.Members(w)
    requires E.member !in ZSets.Members(x) && E.member !in ZSets.Members(y) && E.member !in ZSets.Members(w)
    ensures ZSets.Rank(x + [S] + y + [E] + w, S.member) == Some(|x|)
    ensures ZSets.Rank(x + [S] + y + [E] + w, E.member) == Some(|x| + |y| + 1)
    ensures ZSets.Rem(ZSets.Rem(x + [S] + y + [E] + w, S.member), E.member) == x + y + w
  {
    RankFirst(x, S, y, E, w);
    RankSecond(x, S, y, E, w);
    RemoveBoth(x, S, y, E, w);
  }

  lemma Regroup(x: ZSets.ZSet, S: ZSets.Entry, y: ZSets.ZSet, E: ZSets.Entry, w: ZSets.ZSet)
    ensures x + [S] + (y + [E] + w) == x + [S] + y + [E] + w
    ensures x + (y + [E] + w) == x + y + [E] + w
  {
  }

  lemma RankFirst(x: ZSets.ZSet, S: ZSets.Entry, y: ZSets.ZSet, E: ZSets.Entry, w: ZSets.ZSet)
    requires S.member !in ZSets.Members(x)
    ensures ZSets.Rank(x + [S] + y + [E] + w, S.member) == Some(|x|)
  {
    ZSets.RankAt(x, S, y + [E] + w);
    Regroup(x, S, y, E, w);
  }

  lemma RankSecond(x: ZSets.ZSet, S: ZSets.Entry, y: ZSets.ZSet, E: ZSets.Entry, w: ZSets.ZSet)
    requires E.member != S.member && E.member !in ZSets.Members(x) && E.member !in ZSets.Members(y)
    ensures ZSets.Rank(x + [S] + y + [E] + w, E.member) == Some(|x| + |y| + 1)
  {
    NotInPieces(E.member, x, S, y);
    ZSets.RankAt(x + [S] + y, E, w);
  }

  lemma RemoveBoth(x: ZSets.ZSet, S: ZSets.Entry, y: ZSets.ZSet, E: ZSets.Entry, w: ZSets.ZSet)
    requires S.member != E.member
    requires S.member !in ZSets.Members(x) && S.member !in ZSets.Members(y) && S.member !in ZSets.Members(w)
    requires E.member !in ZSets.Members(x) && E.member !in ZSets.Members(y) && E.member !in ZSets.Members(w)
    ensures ZSets.Rem(ZSets.Rem(x + [S] + y + [E] + w, S.member), E.member) == x + y + w
  {
    NotInPieces(S.member, y, E, w);
    ZSets.RemAt(x, S, y + [E] + w);
    Regroup(x, S, y, E, w);
    ZSets.MembersAppend(x, y);
    ZSets.RemAt(x + y, E, w);
  }

  /** The attempt on the laid-out set reads ranks a and b + 1 and leaves the original set. */
  lemma ScanOfLayout(z: ZSets.ZSet, p: string, id: string, a: nat, b: nat)
    requires a <= b <= |z|
    requires Sentinels(p, id).0 !in ZSets.Members(z) && Sentinels(p, id).1 !in ZSets.Members(z)
    requires Sentinels(p, id).0 != Sentinels(p, id).1
    requires WithSentinels(z, p, id) ==
      z[..a] + [ZSets.Entry(Sentinels(p, id).0, 0)] + z[a..b] + [ZSets.Entry(Sentinels(p, id).1, 0)] + z[b..]
    ensures Scan(WithSentinels(z, p, id), p, id) == (z, a, b + 1)
  {
    var (start, end) := Sentinels(p, id);
    LayoutScan(z, start, end, a, b, WithSentinels(z, p, id));
  }

  /** The same for any two sentinels absent from the set. */
  lemma LayoutScan(z: ZSets.ZSet, start: string, end: string, a: nat, b: nat, z1: ZSets.ZSet)
    requires a <= b <= |z|
    requires start !in ZSets.Members(z) && end !in ZSets.Members(z) && start != end
    requires z1 == z[..a] + [ZSets.Entry(start, 0)] + z[a..b] + [ZSets.Entry(end, 0)] + z[b..]
    requires start in ZSets.Members(z1) && end in ZSets.Members(z1)
    ensures ScanBetween(z1, start, end) == (z, a, b + 1)
  {
    var x, y, w := z[..a], z[a..b], z[b..];
    ThreeSlices(z, a, b);
    ZSets.MembersAppend(x, y + w);
    ZSets.MembersAppend(y, w);
    var S, E := ZSets.Entry(start, 0), ZSets.Entry(end, 0);
    assert z1 == x + [S] + y + [E] + w;
    ScanBetweenParts(x, S, y, E, w);
    assert S.member == start && E.member == end;
  }

  /** A sequence cut at a and b joins back together either way. */
  lemma ThreeSlices<T>(s: seq<T>, a: nat, b: nat)
    requires a <= b <= |s|
    ensures s[..a] + s[a..b] + s[b..] == s
    ensures s[..a] + (s[a..b] + s[b..]) == s
  {
    assert s[..a] + s[a..b] == s[..b];
    assert s[..b] + s[b..] == s;
  }

  /** The attempt on x S y E w, with both sentinels absent from x, y and w. */
  lemma ScanBetweenParts(x: ZSets.ZSet, S: ZSets.Entry, y: ZSets.ZSet, E: ZSets.Entry, w: ZSets.ZSet)
    requires S.member != E.member
    requires S.member !in ZSets.Members(x) && S.member !in ZSets.Members(y) && S.member !in ZSets.Members(w)
    requires E.member !in ZSets.Members(x) && E.member !in ZSets.Members(y) && E.member !in ZSets.Members(w)
    ensures S.member in ZSets.Members(x + [S] + y + [E] + w) && E.member in ZSets.Members(x + [S] + y + [E] + w)
    ensures ScanBetween(x + [S] + y + [E] + w, S.member, E.member) == (x + y + w, |x|, |x| + |y| + 1)
  {
    var z1 := x + [S] + y + [E] + w;
    assert z1[|x|] == S && z1[|x| + |y| + 1] == E;
    TwoEntries(x, S, y, E, w);
  }

  lemma MemberListAppend(x: ZSets.ZSet, y: ZSets.ZSet)
    ensures ZSets.MemberList(x + y) == ZSets.MemberList(x) + ZSets.MemberList(y)
  {
  }

  /** The names that start with `p`. */
  function StartsWith(p: string): string -> bool {
    (m: string) => IsPrefix(p, m)
  }

  /** When the names with the prefix are exactly those at a .. b, filtering the member list keeps those. */
  lemma FilterLayout(z: ZSets.ZSet, p: string, a: nat, b: nat)
    requires a <= b <= |z|
    requires forall i :: 0 <= i < |z| ==> (IsPrefix(p, z[i].member) <==> a <= i < b)
    ensures Filter(ZSets.MemberList(z), StartsWith(p)) == ZSets.MemberList(z[a..b])
  {
    var f := StartsWith(p);
    var x, y, w := z[..a], z[a..b], z[b..];
    assert z == x + y + w;
    MemberListAppend(x + y, w);
    MemberListAppend(x, y);
    FilterAppend(ZSets.MemberList(x) + ZSets.MemberList(y), ZSets.MemberList(w), f);
    FilterAppend(ZSets.MemberList(x), ZSets.MemberList(y), f);
    FilterNone(ZSets.MemberList(x), f);
    FilterAll(ZSets.MemberList(y), f);
    FilterNone(ZSets.MemberList(w), f);
  }

  /** The corrected range between sentinels at ranks a and b + 1 is the first 10 names between them. */
  lemma RangeLayout(z: ZSets.ZSet, a: nat, b: nat)
    requires a <= b <= |z|
    ensures RangeCorrected(z, a, b + 1) == Take(ZSets.MemberList(z[a..b]), 10)
  {
    if b > a {
      var c := Min(a + 10, b);
      assert RangeCorrected(z, a, b + 1) == ZSets.MemberList(z[a..c]);
    }
  }

  /** Lower-case names carry no '{', so the final filter keeps them all. */
  lemma WordsKeepAll(z: ZSets.ZSet, a: nat, b: nat)
    requires a <= b <= |z| && AllWords(z)
    ensures WithoutSentinels(Take(ZSets.MemberList(z[a..b]), 10)) == Take(ZSets.MemberList(z[a..b]), 10)
  {
    var items := Take(ZSets.MemberList(z[a..b]), 10);
    forall i | 0 <= i < |items| ensures NoBrace(items[i]) {
      assert items[i] == z[a + i].member;
      assert LowerWord(z[a + i].member);
    }
    FilterAll(items, NoBrace);
  }

  /**
   * With lower-case names and a non-empty lower-case prefix, a committed call returns the first 10,
   * in lexicographic order, of the guild's names that start with the prefix, and the transaction
   * leaves the guild set as it was before the sentinels went in.
   */
  lemma AutocompleteFinds(z: ZSets.ZSet, p: string, id: string)
    requires GuildSet(z) && AllWords(z) && p != [] && LowerWord(p)
    ensures AutocompleteNames(z, p, id) == Take(Filter(ZSets.MemberList(z), StartsWith(p)), 10)
    ensures AutocompletePlan(WithSentinels(z, p, id), p, id).value.0 == z
  {
    var a, b := SentinelLayout(z, p, id);
    ScanOfLayout(z, p, id, a, b);
    FilterLayout(z, p, a, b);
    RangeLayout(z, a, b);
    WordsKeepAll(z, a, b);
  }

  /**
   * As written, when no name starts with the prefix and none sorts before it, erange is -1 and
   * ZRANGE 0 -1 returns the whole guild.
   */
  lemma AutocompleteAsWrittenReturnsAll(z: ZSets.ZSet, p: string, id: string)
    requires GuildSet(z) && AllWords(z) && p != [] && LowerWord(p)
    requires forall i :: 0 <= i < |z| ==> Less(Sentinels(p, id).1, z[i].member)
    ensures AutocompleteNamesAsWritten(z, p, id) == ZSets.MemberList(z)
    ensures AutocompleteNames(z, p, id) == []
  {
    var a, b := SentinelLayout(z, p, id);
    ScanOfLayout(z, p, id, a, b);
    var (start, end) := Sentinels(p, id);
    if b > 0 {
      var m := z[0].member;
      PrefixRangeBounds(p, m, id);
      LessAsymmetric(end, m);
    }
    assert a == 0 && b == 0;
    assert RangeAsWritten(z, 0, 1) == ZSets.MemberList(z) by {
      RangeWhole(z);
    }
    var items := ZSets.MemberList(z);
    forall i | 0 <= i < |items| ensures NoBrace(items[i]) {
      assert LowerWord(items[i]);
    }
    FilterAll(items, NoBrace);
  }

  /** The guild {"zed"} and prefix "a": as written the call returns ["zed"], corrected it returns []. */
  lemma AutocompleteZedExample()
    ensures AutocompleteNamesAsWritten([ZSets.Entry("zed", 0)], "a", "") == ["zed"]
    ensures AutocompleteNames([ZSets.Entry("zed", 0)], "a", "") == []
  {
    var z := [ZSets.Entry("zed", 0)];
    ZSets.ValidSmall(ZSets.Entry("zed", 0));
    PrefixRangeOfWord("a");
    assert Sentinels("a", "").1 == "a{";
    assert Less("a{", "zed");
    assert LowerWord("zed");
    AutocompleteAsWrittenReturnsAll(z, "a", "");
  }

  /** The guilds' member sets ("members:<guild>"). */
  class Guilds {
    var members: map<string, ZSets.ZSet>

    ghost predicate Valid()
      reads this
    {
      forall g :: g in members ==> GuildSet(members[g])
    }

    /** ZRANGE on a missing key reads as empty. */
    function Members(guild: string): ZSets.ZSet
      reads this
    {
      if guild in members then members[guild] else []
    }

    constructor ()
      ensures Valid() && members == map[]
    {
      members := map[];
    }

    /** join_guild: ZADD members:<guild> user 0. */
    method JoinGuild(guild: string, user: string)
      requires Valid()
      modifies this
      ensures Valid()
      ensures members == old(members)[guild := ZSets.Add(old(Members(guild)), user, 0)]
    {
      ZSets.ValidSmall(ZSets.Entry(user, 0));
      AddKeepsGuildSet(Members(guild), user);
      members := members[guild := ZSets.Add(Members(guild), user, 0)];
    }

    /** leave_guild: ZREM members:<guild> user. */
    method LeaveGuild(guild: string, user: string)
      requires Valid()
      modifies this
      ensures Valid()
      ensures members == old(members)[guild := ZSets.Rem(old(Members(guild)), user)]
    {
      RemKeepsGuildSet(Members(guild), user);
      members := members[guild := ZSets.Rem(Members(guild), user)];
    }

    /**
     * autocomplete_on_prefix: the sentinels are added outside the transaction, then the watch
     * loop (`while 1`, so no deadline) retries until an attempt commits; `done` is false when the
     * given conflicts outlast the modelled attempts, and then the sentinels stay in the set.
     */
    method AutocompleteOnPrefix(guild: string, prefix: string, id: string, ticks: seq<Tick>)
      returns (done: bool, names: seq<string>)
      requires Valid()
      modifies this
      ensures Valid()
      ensures var z1 := WithSentinels(old(Members(guild)), prefix, id);
        var run := Run(z1, AutocompletePlan(z1, prefix, id), None, ticks);
        && members == old(members)[guild := run.0]
        && done == run.1.Success?
        && (done ==> names == WithoutSentinels(run.1.value))
    {
      var z := AddSentinels(guild, prefix, id);
      done, names := WatchLoop(guild, z, prefix, id, ticks);
      assert old(members)[guild := z][guild := members[guild]] == old(members)[guild := members[guild]];
    }

    /** The two ZADDs of the sentinels, before the watch loop. */
    method AddSentinels(guild: string, prefix: string, id: string) returns (z: ZSets.ZSet)
      requires Valid()
      modifies this
      ensures Valid()
      ensures z == WithSentinels(old(Members(guild)), prefix, id)
      ensures members == old(members)[guild := z]
    {
      var (start, end) := Sentinels(prefix, id);
      z := Members(guild);
      AddKeepsGuildSet(z, start);
      AddKeepsGuildSet(ZSets.Add(z, start, 0), end);
      z := ZSets.Add(z, start, 0);
      z := ZSets.Add(z, end, 0);
      members := members[guild := z];
    }

    /** The watch loop on the guild set `z`, which holds both sentinels. */
    method WatchLoop(guild: string, z: ZSets.ZSet, prefix: string, id: string, ticks: seq<Tick>)
      returns (done: bool, names: seq<string>)
      requires Valid() && guild in members && members[guild] == z
      requires Sentinels(prefix, id).0 in ZSets.Members(z) && Sentinels(prefix, id).1 in ZSets.Members(z)
      modifies this
      ensures Valid()
      ensures var run := Run(z, AutocompletePlan(z, prefix, id), None, ticks);
        && members == old(members)[guild := run.0]
        && done == run.1.Success?
        && (done ==> names == WithoutSentinels(run.1.value))
    {
      ghost var plan := AutocompletePlan(z, prefix, id);
      // Attempts whose EXEC fails on a conflict retry; what they read is discarded.
      var i := 0;
      while i < |ticks| && ticks[i].conflict
        invariant 0 <= i <= |ticks|
        invariant members == old(members)
        invariant Run(z, plan, None, ticks) == Run(z, plan, None, ticks[i..])
      {
        RunStep(z, plan, None, ticks, i);
        i := i + 1;
      }
      if i == |ticks| {
        assert ticks[i..] == [];
        assert old(members)[guild := z] == old(members);
        return false, [];
      }
      CommitOutcome(z, prefix, id, ticks, i);
      names := CommitAttempt(guild, z, prefix, id);
      done := true;
    }

    /** The attempt whose EXEC succeeds: the ranks are read, the batch runs, and the names are filtered. */
    method CommitAttempt(guild: string, z: ZSets.ZSet, prefix: string, id: string) returns (names: seq<string>)
      requires Valid() && guild in members && members[guild] == z
      requires Sentinels(prefix, id).0 in ZSets.Members(z) && Sentinels(prefix, id).1 in ZSets.Members(z)
      modifies this
      ensures Valid()
      ensures var (start, end) := Sentinels(prefix, id);
        var rest := ZSets.Rem(ZSets.Rem(z, start), end);
        && ZSets.Rank(z, start).Some? && ZSets.Rank(z, end).Some?
        && members == old(members)[guild := rest]
        && names == WithoutSentinels(RangeCorrected(rest, ZSets.Rank(z, start).value, ZSets.Rank(z, end).value))
    {
      var (start, end) := Sentinels(prefix, id);
      ZSets.RankPresent(z, start);
      ZSets.RankPresent(z, end);
      var sindex := ZSets.Rank(z, start).value;
      var eindex := ZSets.Rank(z, end).value;
      var erange := Min(sindex + 9, eindex as int - 2);
      ghost var rest := ZSets.Rem(ZSets.Rem(z, start), end);
      var items := RunBatch(guild, z, start, end, sindex, erange);
      assert items == RangeCorrected(rest, sindex, eindex);
      names := WithoutSentinels(items);
    }

    /** The committed batch: ZREM of both sentinels, then ZRANGE sindex erange. */
    method RunBatch(guild: string, z: ZSets.ZSet, start: string, end: string, sindex: nat, erange: int)
      returns (items: seq<string>)
      requires Valid() && guild in members && members[guild] == z
      modifies this
      ensures Valid()
      ensures var rest := ZSets.Rem(ZSets.Rem(z, start), end);
        && members == old(members)[guild := rest]
        && items == if erange < sindex then [] else ZSets.RangeByRank(rest, sindex, erange)
    {
      var rest := ZSets.Rem(ZSets.Rem(z, start), end);
      RemKeepsGuildSet(z, start);
      RemKeepsGuildSet(ZSets.Rem(z, start), end);
      members := members[guild := rest];
      items := if erange < sindex then [] else ZSets.RangeByRank(rest, sindex, erange);
    }
  }

  /** An attempt without conflict commits the batch on the set with both sentinels. */
  lemma CommitOutcome(z: ZSets.ZSet, prefix: string, id: string, ticks: seq<Tick>, i: nat)
    requires Sentinels(prefix, id).0 in ZSets.Members(z) && Sentinels(prefix, id).1 in ZSets.Members(z)
    requires i < |ticks| && !ticks[i].conflict
    ensures var (start, end) := Sentinels(prefix, id);
      && ZSets.Rank(z, start).Some? && ZSets.Rank(z, end).Some?
      && var rest := ZSets.Rem(ZSets.Rem(z, start), end);
      Run(z, AutocompletePlan(z, prefix, id), None, ticks[i..])
        == (rest, Success(RangeCorrected(rest, ZSets.Rank(z, start).value, ZSets.Rank(z, end).value)))
  {
    var (start, end) := Sentinels(prefix, id);
    ZSets.RankSpec(z, start);
    ZSets.RankSpec(z, end);
    assert Scan(z, prefix, id) == ScanBetween(z, start, end);
    assert ticks[i..][0] == ticks[i];
  }

  /** When the loop commits on a guild of lower-case names, it returns AutocompleteNames and restores the set. */
  lemma {:induction false} AutocompleteOnPrefixCommits(z: ZSets.ZSet, p: string, id: string, ticks: seq<Tick>)
    requires GuildSet(z) && AllWords(z) && p != [] && LowerWord(p)
    requires exists i :: 0 <= i < |ticks| && !ticks[i].conflict
    ensures var z1 := WithSentinels(z, p, id);
      Run(z1, AutocompletePlan(z1, p, id), None, ticks) == (z, Success(AutocompletePlan(z1, p, id).value.1))
    ensures WithoutSentinels(AutocompletePlan(WithSentinels(z, p, id), p, id).value.1)
      == Take(Filter(ZSets.MemberList(z), StartsWith(p)), 10)
  {
    var z1 := WithSentinels(z, p, id);
    var plan := AutocompletePlan(z1, p, id);
    RunSpec(z1, plan, None, ticks);
    assert Window(None, ticks) == |ticks| by {
      WindowSpec(None, ticks);
    }
    AutocompleteFinds(z, p, id);
  }
}
