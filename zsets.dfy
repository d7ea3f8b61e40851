/**
 * Redis sorted sets. A sorted set is held as the sequence of its entries in Redis order: ascending
 * score, ties broken by the lexicographic order of the members. ZADD, ZREM, ZINCRBY, ZSCORE, ZRANK,
 * ZRANGE, ZREVRANGE, ZRANGEBYSCORE and ZREMRANGEBYRANK are functions on that sequence.
 * Scores are integers here; Redis keeps doubles.
 */
module ZSets {
  import opened Common
  import opened Text
  import Lists

  datatype Entry = Entry(member: string, score: int)

  type ZSet = seq<Entry>

  /** The order Redis keeps a sorted set in. */
  predicate Precedes(a: Entry, b: Entry) {
    a.score < b.score || (a.score == b.score && Less(a.member, b.member))
  }

  /** Entries are in Redis order and every member occurs once. */
  ghost predicate Valid(z: ZSet) {
    forall i, j :: 0 <= i < j < |z| ==> Precedes(z[i], z[j]) && z[i].member != z[j].member
  }

  function Members(z: ZSet): set<string> {
    set i | 0 <= i < |z| :: z[i].member
  }

  /** ZSCORE: the score of `m`, or None when it is not a member. */
  function Score(z: ZSet, m: string): Option<int>
    decreases |z|
  {
    if z == [] then None else if z[0].member == m then Some(z[0].score) else Score(z[1..], m)
  }

  /** ZREM. */
  function Rem(z: ZSet, m: string): ZSet
    decreases |z|
  {
    if z == [] then [] else if z[0].member == m then Rem(z[1..], m) else [z[0]] + Rem(z[1..], m)
  }

  /** Places an entry before the first entry it precedes. */
  function Insert(z: ZSet, e: Entry): ZSet
    decreases |z|
  {
    if z == [] || Precedes(e, z[0]) then [e] + z else [z[0]] + Insert(z[1..], e)
  }

  /** ZADD: adds `m` with score `s`, or moves it to score `s` when it is already a member. */
  function Add(z: ZSet, m: string, s: int): ZSet {
    Insert(Rem(z, m), Entry(m, s))
  }

  /** ZINCRBY: a missing member counts as score 0. */
  function IncrBy(z: ZSet, m: string, delta: int): ZSet {
    Add(z, m, Score(z, m).GetOr(0) + delta)
  }

  /** ZRANK: the 0-based position of `m` in ascending order. */
  function Rank(z: ZSet, m: string): Option<nat>
    decreases |z|
  {
    if z == [] then None
    else if z[0].member == m then Some(0)
    else match Rank(z[1..], m)
      case None => None
      case Some(k) => Some(k + 1)
  }

  function MemberList(z: ZSet): (ms: seq<string>)
    ensures |ms| == |z| && forall i :: 0 <= i < |z| ==> ms[i] == z[i].member
  {
    seq(|z|, i requires 0 <= i < |z| => z[i].member)
  }

  function Reverse<T>(s: seq<T>): (r: seq<T>)
    ensures |r| == |s| && forall i :: 0 <= i < |s| ==> r[i] == s[|s| - 1 - i]
  {
    seq(|s|, i requires 0 <= i < |s| => s[|s| - 1 - i])
  }

  /** ZRANGE start stop. */
  function RangeByRank(z: ZSet, start: int, stop: int): seq<string> {
    MemberList(Lists.Range(z, start, stop))
  }

  /** ZREVRANGE start stop: ranks counted from the highest score. */
  function RevRangeByRank(z: ZSet, start: int, stop: int): seq<string> {
    MemberList(Lists.Range(Reverse(z), start, stop))
  }

  /** ZREMRANGEBYRANK start stop. */
  function RemRangeByRank(z: ZSet, start: int, stop: int): ZSet {
    Lists.RemoveRange(z, start, stop)
  }

  /** The sorted set stored at `key`; a missing key reads as the empty set. */
  function ZGet(zsets: map<string, ZSet>, key: string): ZSet {
    if key in zsets then zsets[key] else []
  }

  /** Stores a sorted set at `key`; Redis deletes a key whose sorted set becomes empty. */
  function ZPut(zsets: map<string, ZSet>, key: string, z: ZSet): map<string, ZSet> {
    if z == [] then zsets - {key} else zsets[key := z]
  }

  /** The entries whose score lies in [lo, hi], in Redis order (ZRANGEBYSCORE lo hi WITHSCORES). */
  function ScoreWindow(z: ZSet, lo: int, hi: int): ZSet
    decreases |z|
  {
    if z == [] then []
    else if lo <= z[0].score <= hi then [z[0]] + ScoreWindow(z[1..], lo, hi)
    else ScoreWindow(z[1..], lo, hi)
  }

  /** ZRANGEBYSCORE lo hi. */
  function RangeByScore(z: ZSet, lo: int, hi: int): seq<string> {
    MemberList(ScoreWindow(z, lo, hi))
  }

  // ---------------------------------------------------------------------------------------------
  // What the commands do to membership and scores

  /** A member has a score exactly when it is a member. */
  lemma {:induction false} ScoreIffMember(z: ZSet, m: string)
    ensures Score(z, m).Some? <==> m in Members(z)
    decreases |z|
  {
    if z != [] {
      ScoreIffMember(z[1..], m);
      MembersCons(z);
    }
  }

  lemma MembersCons(z: ZSet)
    requires z != []
    ensures Members(z) == {z[0].member} + Members(z[1..])
  {
    forall x | x in Members(z) ensures x in {z[0].member} + Members(z[1..]) {
      var i :| 0 <= i < |z| && z[i].member == x;
      if i > 0 {
        assert z[1..][i - 1].member == x;
      }
    }
    forall x | x in Members(z[1..]) ensures x in Members(z) {
      var i :| 0 <= i < |z| - 1 && z[1..][i].member == x;
      assert z[i + 1].member == x;
    }
  }

  /** ZREM removes `m`, keeps every other member's score and keeps the order valid. */
  lemma {:induction false} RemSpec(z: ZSet, m: string)
    ensures forall x :: Score(Rem(z, m), x) == if x == m then None else Score(z, x)
    ensures Members(Rem(z, m)) == Members(z) - {m}
    ensures Valid(z) ==> Valid(Rem(z, m))
    ensures |Rem(z, m)| <= |z|
    ensures forall e :: e in Rem(z, m) ==> e in z
    decreases |z|
  {
    if z != [] {
      RemSpec(z[1..], m);
      var r := Rem(z[1..], m);
      MembersCons(z);
      if z[0].member != m {
        MembersCons([z[0]] + r);
        assert ([z[0]] + r)[1..] == r;
        if Valid(z) {
          forall j | 0 < j < |[z[0]] + r|
            ensures Precedes(z[0], ([z[0]] + r)[j]) && z[0].member != ([z[0]] + r)[j].member
          {
            var e := r[j - 1];
            assert e in z[1..];
            var k :| 0 <= k < |z[1..]| && z[1..][k] == e;
            assert z[k + 1] == e;
          }
          assert Valid(z[1..]) by {
            forall i, j | 0 <= i < j < |z[1..]|
              ensures Precedes(z[1..][i], z[1..][j]) && z[1..][i].member != z[1..][j].member
            {
              assert z[1..][i] == z[i + 1] && z[1..][j] == z[j + 1];
            }
          }
        }
      } else {
        if Valid(z) {
          assert Valid(z[1..]) by {
            forall i, j | 0 <= i < j < |z[1..]|
              ensures Precedes(z[1..][i], z[1..][j]) && z[1..][i].member != z[1..][j].member
            {
              assert z[1..][i] == z[i + 1] && z[1..][j] == z[j + 1];
            }
          }
        }
      }
    }
  }

  lemma PrecedesTransitive(a: Entry, b: Entry, c: Entry)
    requires Precedes(a, b) && Precedes(b, c)
    ensures Precedes(a, c)
  {
    if a.score == b.score == c.score {
      LessTransitive(a.member, b.member, c.member);
    }
  }

  /** Entries with different members are always ordered one way or the other. */
  lemma PrecedesTotal(a: Entry, b: Entry)
    requires a.member != b.member
    ensures Precedes(a, b) || Precedes(b, a)
  {
    LessTotal(a.member, b.member);
  }

  lemma PrecedesIrreflexive(a: Entry)
    ensures !Precedes(a, a)
  {
    LessIrreflexive(a.member);
  }

  /** Inserting an entry for a new member keeps the order valid and adds exactly that entry. */
  lemma {:induction false} InsertSpec(z: ZSet, e: Entry)
    requires Valid(z) && e.member !in Members(z)
    ensures Valid(Insert(z, e))
    ensures forall x :: x in Insert(z, e) <==> x in z || x == e
    ensures |Insert(z, e)| == |z| + 1
    decreases |z|
  {
    if z != [] {
      MembersCons(z);
      if Precedes(e, z[0]) {
        var r := [e] + z;
        forall i, j | 0 <= i < j < |r| ensures Precedes(r[i], r[j]) && r[i].member != r[j].member {
          if i == 0 {
            assert r[j] == z[j - 1];
            assert r[j].member in Members(z);
            if j > 1 {
              PrecedesTransitive(e, z[0], z[j - 1]);
            }
          } else {
            assert r[i] == z[i - 1] && r[j] == z[j - 1];
          }
        }
      } else {
        PrecedesTotal(e, z[0]);
        assert Valid(z[1..]) by {
          forall i, j | 0 <= i < j < |z[1..]|
            ensures Precedes(z[1..][i], z[1..][j]) && z[1..][i].member != z[1..][j].member
          {
            assert z[1..][i] == z[i + 1] && z[1..][j] == z[j + 1];
          }
        }
        InsertSpec(z[1..], e);
        var t := Insert(z[1..], e);
        var r := [z[0]] + t;
        forall i, j | 0 <= i < j < |r| ensures Precedes(r[i], r[j]) && r[i].member != r[j].member {
          if i == 0 {
            assert r[j] == t[j - 1];
            assert r[j] in t;
            if r[j] != e {
              assert r[j] in z[1..];
              var k :| 0 <= k < |z[1..]| && z[1..][k] == r[j];
              assert z[k + 1] == r[j];
            }
          } else {
            assert r[i] == t[i - 1] && r[j] == t[j - 1];
          }
        }
        forall x ensures x in r <==> x in z || x == e {
          assert x in r <==> x == z[0] || x in t;
          assert x in z <==> x == z[0] || x in z[1..] by {
            assert z == [z[0]] + z[1..];
          }
        }
      }
    }
  }

  /** Score lookup after an insertion of a new member. */
  lemma {:induction false} ScoreInsert(z: ZSet, e: Entry, x: string)
    requires e.member !in Members(z)
    ensures Score(Insert(z, e), x) == if x == e.member then Some(e.score) else Score(z, x)
    decreases |z|
  {
    if z != [] {
      MembersCons(z);
      if !Precedes(e, z[0]) {
        ScoreInsert(z[1..], e, x);
      } else if x != e.member {
        assert ([e] + z)[1..] == z;
      }
    }
  }

  lemma {:induction false} MembersInsert(z: ZSet, e: Entry)
    ensures Members(Insert(z, e)) == Members(z) + {e.member}
    decreases |z|
  {
    if z == [] {
      assert Members([e]) == {e.member} by { MembersCons([e]); }
    } else {
      MembersCons(z);
      if Precedes(e, z[0]) {
        MembersCons([e] + z);
        assert ([e] + z)[1..] == z;
      } else {
        MembersInsert(z[1..], e);
        MembersCons([z[0]] + Insert(z[1..], e));
        assert ([z[0]] + Insert(z[1..], e))[1..] == Insert(z[1..], e);
      }
    }
  }

  /** ZADD: `m` gets score `s`, every other member keeps its score, and the order stays valid. */
  lemma AddSpec(z: ZSet, m: string, s: int)
    ensures forall x :: Score(Add(z, m, s), x) == if x == m then Some(s) else Score(z, x)
    ensures Members(Add(z, m, s)) == Members(z) + {m}
    ensures Valid(z) ==> Valid(Add(z, m, s))
  {
    RemSpec(z, m);
    MembersInsert(Rem(z, m), Entry(m, s));
    forall x ensures Score(Add(z, m, s), x) == if x == m then Some(s) else Score(z, x) {
      ScoreInsert(Rem(z, m), Entry(m, s), x);
    }
    if Valid(z) {
      InsertSpec(Rem(z, m), Entry(m, s));
    }
  }

  /** ZINCRBY adds `delta` to the member's score (0 when absent) and changes nothing else. */
  lemma IncrBySpec(z: ZSet, m: string, delta: int)
    ensures Score(IncrBy(z, m, delta), m) == Some(Score(z, m).GetOr(0) + delta)
    ensures forall x :: x != m ==> Score(IncrBy(z, m, delta), x) == Score(z, x)
    ensures Members(IncrBy(z, m, delta)) == Members(z) + {m}
    ensures Valid(z) ==> Valid(IncrBy(z, m, delta))
  {
    AddSpec(z, m, Score(z, m).GetOr(0) + delta);
  }

  /** ZADD seen from one member: `x` has score `s` if it is `m`, and its old score otherwise. */
  lemma AddAt(z: ZSet, m: string, s: int, x: string)
    ensures Score(Add(z, m, s), x) == if x == m then Some(s) else Score(z, x)
  {
    AddSpec(z, m, s);
  }

  /** ZINCRBY seen from one member. */
  lemma IncrByAt(z: ZSet, m: string, delta: int, x: string)
    ensures Score(IncrBy(z, m, delta), x) == if x == m then Some(Score(z, m).GetOr(0) + delta) else Score(z, x)
  {
    IncrBySpec(z, m, delta);
  }

  /** A member has a rank. */
  lemma RankPresent(z: ZSet, m: string)
    requires m in Members(z)
    ensures Rank(z, m).Some?
  {
    RankSpec(z, m);
  }

  lemma {:induction false} RankSpec(z: ZSet, m: string)
    ensures Rank(z, m).Some? <==> m in Members(z)
    ensures Rank(z, m).Some? ==> Rank(z, m).value < |z| && z[Rank(z, m).value].member == m
    ensures Rank(z, m).Some? ==> forall i :: 0 <= i < Rank(z, m).value ==> z[i].member != m
    decreases |z|
  {
    if z != [] {
      MembersCons(z);
      RankSpec(z[1..], m);
    }
  }

  /** The window of a score range keeps the order and only holds entries in range. */
  lemma {:induction false} ScoreWindowSpec(z: ZSet, lo: int, hi: int)
    ensures forall e :: e in ScoreWindow(z, lo, hi) <==> e in z && lo <= e.score <= hi
    ensures Lists.Subsequence(ScoreWindow(z, lo, hi), z)
    decreases |z|
  {
    if z != [] {
      ScoreWindowSpec(z[1..], lo, hi);
      var w := ScoreWindow(z[1..], lo, hi);
      assert z == [z[0]] + z[1..];
      if lo <= z[0].score <= hi {
        assert ([z[0]] + w)[1..] == w;
      } else {
        Lists.SubsequenceDrop(w, z);
      }
    }
  }

  lemma PrecedesAsymmetric(a: Entry, b: Entry)
    requires Precedes(a, b)
    ensures !Precedes(b, a)
  {
    if Precedes(b, a) {
      PrecedesTransitive(a, b, a);
      PrecedesIrreflexive(a);
    }
  }

  lemma ValidTail(z: ZSet)
    requires Valid(z) && z != []
    ensures Valid(z[1..])
  {
    forall i, j | 0 <= i < j < |z[1..]|
      ensures Precedes(z[1..][i], z[1..][j]) && z[1..][i].member != z[1..][j].member
    {
      assert z[1..][i] == z[i + 1] && z[1..][j] == z[j + 1];
    }
  }

  /** The number of entries that precede `e`: the index at which Insert places it. */
  function InsertPos(z: ZSet, e: Entry): (k: nat)
    ensures k <= |z|
    decreases |z|
  {
    if z == [] || Precedes(e, z[0]) then 0 else 1 + InsertPos(z[1..], e)
  }

  /** Inserting a new member splits the set in two: the entries before it precede it, the rest follow it. */
  lemma {:induction false} InsertPosSpec(z: ZSet, e: Entry)
    requires Valid(z) && e.member !in Members(z)
    ensures Insert(z, e) == z[..InsertPos(z, e)] + [e] + z[InsertPos(z, e)..]
    ensures forall i :: 0 <= i < InsertPos(z, e) ==> Precedes(z[i], e)
    ensures forall i :: InsertPos(z, e) <= i < |z| ==> Precedes(e, z[i])
    decreases |z|
  {
    if z != [] {
      MembersCons(z);
      if Precedes(e, z[0]) {
        forall i | 0 < i < |z| ensures Precedes(e, z[i]) {
          PrecedesTransitive(e, z[0], z[i]);
        }
      } else {
        PrecedesTotal(e, z[0]);
        ValidTail(z);
        InsertPosSpec(z[1..], e);
        var k := InsertPos(z[1..], e);
        assert z[..k + 1] == [z[0]] + z[1..][..k];
        assert z[k + 1..] == z[1..][k..];
        forall i | 0 < i < k + 1 ensures Precedes(z[i], e) {
          assert z[i] == z[1..][i - 1];
        }
        forall i | k + 1 <= i < |z| ensures Precedes(e, z[i]) {
          assert z[i] == z[1..][i - 1];
        }
      }
    }
  }

  /** Inserting two new members, the first preceding the second, places them at their own split points. */
  lemma {:induction false} InsertTwo(z: ZSet, s: Entry, e: Entry)
    requires Valid(z) && s.member !in Members(z) && e.member !in Members(z)
    requires Precedes(s, e)
    ensures InsertPos(z, s) <= InsertPos(z, e)
    ensures Insert(Insert(z, s), e) ==
      z[..InsertPos(z, s)] + [s] + z[InsertPos(z, s)..InsertPos(z, e)] + [e] + z[InsertPos(z, e)..]
    decreases |z|
  {
    PrecedesAsymmetric(s, e);
    if z == [] {
      assert Insert([s], e) == [s] + Insert([], e);
    } else if Precedes(s, z[0]) {
      InsertTwoFront(z, s, e);
    } else {
      MembersCons(z);
      ValidTail(z);
      InsertTwo(z[1..], s, e);
      InsertTwoBehind(z, s, e);
    }
  }

  /** InsertTwo when both new entries go behind the head, given InsertTwo on the tail. */
  lemma InsertTwoBehind(z: ZSet, s: Entry, e: Entry)
    requires z != [] && Precedes(s, e) && !Precedes(s, z[0])
    requires s.member != z[0].member && e.member != z[0].member
    requires var t := z[1..];
      && InsertPos(t, s) <= InsertPos(t, e)
      && Insert(Insert(t, s), e) == t[..InsertPos(t, s)] + [s] + t[InsertPos(t, s)..InsertPos(t, e)] + [e] + t[InsertPos(t, e)..]
    ensures InsertPos(z, s) <= InsertPos(z, e)
    ensures Insert(Insert(z, s), e) ==
      z[..InsertPos(z, s)] + [s] + z[InsertPos(z, s)..InsertPos(z, e)] + [e] + z[InsertPos(z, e)..]
  {
    PrecedesAsymmetric(s, e);
    PrecedesTotal(s, z[0]);
    PrecedesTransitive(z[0], s, e);
    PrecedesAsymmetric(z[0], e);
    var t := z[1..];
    var a, b := InsertPos(t, s), InsertPos(t, e);
    var u := Insert(t, s);
    assert InsertPos(z, s) == a + 1 && InsertPos(z, e) == b + 1;
    assert Insert(z, s) == [z[0]] + u;
    assert Insert([z[0]] + u, e) == [z[0]] + Insert(u, e) by {
      assert ([z[0]] + u)[0] == z[0] && ([z[0]] + u)[1..] == u;
    }
    SplitTwiceCons(z, s, e, a, b);
  }

  /** InsertTwo when the first new entry goes in front. */
  lemma InsertTwoFront(z: ZSet, s: Entry, e: Entry)
    requires Valid(z) && e.member !in Members(z) && z != [] && Precedes(s, z[0]) && !Precedes(e, s)
    ensures InsertPos(z, s) == 0
    ensures Insert(Insert(z, s), e) == [s] + z[..InsertPos(z, e)] + [e] + z[InsertPos(z, e)..]
  {
    InsertPosSpec(z, e);
    assert Insert([s] + z, e) == [s] + Insert(z, e);
  }

  /** Putting the head back in front of a split tail shifts both split points by one. */
  lemma SplitTwiceCons(z: ZSet, s: Entry, e: Entry, a: nat, b: nat)
    requires z != [] && a <= b <= |z| - 1
    ensures [z[0]] + (z[1..][..a] + [s] + z[1..][a..b] + [e] + z[1..][b..]) ==
      z[..a + 1] + [s] + z[a + 1..b + 1] + [e] + z[b + 1..]
  {
    assert z[..a + 1] == [z[0]] + z[1..][..a];
    assert z[a + 1..b + 1] == z[1..][a..b] by {
      forall k | 0 <= k < b - a ensures z[a + 1..b + 1][k] == z[1..][a..b][k] {
        assert z[1..][a..b][k] == z[1..][a + k] == z[a + 1 + k];
      }
    }
    assert z[b + 1..] == z[1..][b..];
  }

  /** The rank of a member occurring once is its index. */
  lemma {:induction false} RankAt(x: ZSet, e: Entry, y: ZSet)
    requires e.member !in Members(x)
    ensures Rank(x + [e] + y, e.member) == Some(|x|)
    decreases |x|
  {
    if x == [] {
      assert (x + [e] + y)[0] == e;
    } else {
      MembersCons(x);
      assert (x + [e] + y)[0] == x[0];
      assert (x + [e] + y)[1..] == x[1..] + [e] + y;
      RankAt(x[1..], e, y);
    }
  }

  /** ZREM of a non-member changes nothing. */
  lemma {:induction false} RemAbsent(z: ZSet, m: string)
    requires m !in Members(z)
    ensures Rem(z, m) == z
    decreases |z|
  {
    if z != [] {
      MembersCons(z);
      RemAbsent(z[1..], m);
      assert z == [z[0]] + z[1..];
    }
  }

  /** ZREM of a member occurring once cuts out exactly its entry. */
  lemma {:induction false} RemAt(x: ZSet, e: Entry, y: ZSet)
    requires e.member !in Members(x) && e.member !in Members(y)
    ensures Rem(x + [e] + y, e.member) == x + y
    decreases |x|
  {
    if x == [] {
      assert x + [e] + y == [e] + y && x + y == y;
      assert ([e] + y)[1..] == y;
      RemAbsent(y, e.member);
    } else {
      MembersCons(x);
      assert (x + [e] + y)[0] == x[0];
      assert (x + [e] + y)[1..] == x[1..] + [e] + y;
      RemAt(x[1..], e, y);
      assert x + y == [x[0]] + (x[1..] + y);
    }
  }

  /** The members of a concatenation. */
  lemma MembersAppend(x: ZSet, y: ZSet)
    ensures Members(x + y) == Members(x) + Members(y)
  {
    forall m | m in Members(x + y) ensures m in Members(x) + Members(y) {
      var i :| 0 <= i < |x + y| && (x + y)[i].member == m;
      if i >= |x| {
        assert y[i - |x|].member == m;
      }
    }
    forall m | m in Members(x) + Members(y) ensures m in Members(x + y) {
      if m in Members(x) {
        var i :| 0 <= i < |x| && x[i].member == m;
        assert (x + y)[i].member == m;
      } else {
        var i :| 0 <= i < |y| && y[i].member == m;
        assert (x + y)[|x| + i].member == m;
      }
    }
  }

  /** The empty sorted set, and a one-entry set, are valid. */
  lemma ValidSmall(e: Entry)
    ensures Valid([]) && Valid([e])
  {
  }

  /** In a valid sorted set ZSCORE finds the score stored with the member. */
  lemma {:induction false} ScoreAt(z: ZSet, i: nat)
    requires Valid(z) && i < |z|
    ensures Score(z, z[i].member) == Some(z[i].score)
    decreases |z|
  {
    if i > 0 {
      ValidTail(z);
      assert z[1..][i - 1] == z[i];
      ScoreAt(z[1..], i - 1);
    }
  }

  /** A score window of a valid sorted set is itself valid. */
  lemma {:induction false} ScoreWindowValid(z: ZSet, lo: int, hi: int)
    requires Valid(z)
    ensures Valid(ScoreWindow(z, lo, hi))
    decreases |z|
  {
    if z != [] {
      ValidTail(z);
      ScoreWindowValid(z[1..], lo, hi);
      if lo <= z[0].score <= hi {
        var w := ScoreWindow(z[1..], lo, hi);
        ScoreWindowSpec(z[1..], lo, hi);
        var r := [z[0]] + w;
        forall i, j | 0 <= i < j < |r| ensures Precedes(r[i], r[j]) && r[i].member != r[j].member {
          assert r[j] == w[j - 1];
          if i == 0 {
            assert r[j] in z[1..];
            var k :| 0 <= k < |z[1..]| && z[1..][k] == r[j];
            assert z[k + 1] == r[j];
          } else {
            assert r[i] == w[i - 1];
          }
        }
      }
    }
  }

  /** ZRANGEBYSCORE lo hi lists exactly the members whose score lies in [lo, hi]. */
  lemma RangeByScoreSpec(z: ZSet, lo: int, hi: int)
    requires Valid(z)
    ensures forall m :: m in RangeByScore(z, lo, hi) <==> Score(z, m).Some? && lo <= Score(z, m).value <= hi
  {
    ScoreWindowSpec(z, lo, hi);
    var w := ScoreWindow(z, lo, hi);
    var found := RangeByScore(z, lo, hi);
    forall m | m in found ensures Score(z, m).Some? && lo <= Score(z, m).value <= hi {
      var i :| 0 <= i < |found| && found[i] == m;
      assert w[i] in z;
      var k :| 0 <= k < |z| && z[k] == w[i];
      ScoreAt(z, k);
    }
    forall m | Score(z, m).Some? && lo <= Score(z, m).value <= hi ensures m in found {
      ScoreIffMember(z, m);
      var k :| 0 <= k < |z| && z[k].member == m;
      ScoreAt(z, k);
      assert z[k] in w;
      var i :| 0 <= i < |w| && w[i] == z[k];
      assert found[i] == m;
    }
  }

  /** Members sharing one score come out of ZRANGEBYSCORE in lexicographic order. */
  lemma RangeByScoreTies(z: ZSet, s: int)
    requires Valid(z)
    ensures forall i, k :: 0 <= i < k < |RangeByScore(z, s, s)| ==> Less(RangeByScore(z, s, s)[i], RangeByScore(z, s, s)[k])
  {
    ScoreWindowSpec(z, s, s);
    ScoreWindowValid(z, s, s);
    var w := ScoreWindow(z, s, s);
    forall i, k | 0 <= i < k < |w| ensures Less(w[i].member, w[k].member) {
      assert w[i] in w && w[k] in w;
    }
  }
}
