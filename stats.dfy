/**
 * Running statistics in Redis. update_stats keeps, in the sorted set "stats:<context>:<type>",
 * the members "min", "max", "count", "sum" and "sumsq" of the values recorded this hour, using
 * two temporary sorted sets and ZUNIONSTORE with AGGREGATE MIN and MAX. The set is archived
 * when the hour in "stats:<context>:<type>:start" has passed; each update is one optimistic
 * transaction retried for five seconds, replying with the new count, sum and sum of squares.
 */
module Stats {
  import opened Common
  import opened Text
  import opened ZSets
  import opened Optimistic

  /** update_stats retries for 5 seconds (times are in milliseconds). */
  const STATS_WINDOW: int := 5000

  /** The keys update_stats uses: sorted sets and strings kept apart. */
  datatype Store = Store(zsets: map<string, ZSet>, strings: map<string, string>)

  function StatsKey(context: string, kind: string): string {
    "stats:" + context + ":" + kind
  }

  function StringGet(strings: map<string, string>, key: string): Option<string> {
    if key in strings then Some(strings[key]) else None
  }

  /** RENAME src dst; a missing source leaves the keys as they are. */
  function Rename<V>(m: map<string, V>, src: string, dst: string): map<string, V> {
    if src in m then (m - {src})[dst := m[src]] else m
  }

  function Aggregate(a: int, b: int, takeMin: bool): int {
    if takeMin then Min(a, b) else Max(a, b)
  }

  /**
   * ZUNIONSTORE of `a` and `b` with AGGREGATE MIN (or MAX): a member of both gets the minimum
   * (maximum) of its scores, every other member keeps its own.
   */
  function UnionStore(a: ZSet, b: ZSet, takeMin: bool): ZSet
    decreases |b|
  {
    if b == [] then a
    else
      var e := b[0];
      var s := Score(a, e.member);
      UnionStore(Add(a, e.member, if s.None? then e.score else Aggregate(s.value, e.score, takeMin)), b[1..], takeMin)
  }

  /** The statistics after the two unions with the one-entry sets {min: value} and {max: value}. */
  function Bounds(z: ZSet, value: int): ZSet {
    UnionStore(UnionStore(z, [Entry("min", value)], true), [Entry("max", value)], false)
  }

  /** The statistics after recording `value`: the unions, then the three ZINCRBYs. */
  function Record(z: ZSet, value: int): ZSet {
    IncrBy(IncrBy(IncrBy(Bounds(z, value), "count", 1), "sum", value), "sumsq", value * value)
  }

  /** The replies of the three ZINCRBYs: the new count, sum and sum of squares. */
  function Replies(z: ZSet, value: int): seq<int> {
    var b := Bounds(z, value);
    [Score(b, "count").GetOr(0) + 1, Score(b, "sum").GetOr(0) + value, Score(b, "sumsq").GetOr(0) + value * value]
  }

  /**
   * The first part of the batch, temporary keys included: ZADD of the one-entry sets, the two
   * ZUNIONSTOREs into `dest`, and DEL of the temporary keys.
   */
  function StatsUnions(zsets: map<string, ZSet>, dest: string, tkey1: string, tkey2: string, value: int): map<string, ZSet> {
    var z1 := zsets[tkey1 := Add(ZGet(zsets, tkey1), "min", value)];
    var z2 := z1[tkey2 := Add(ZGet(z1, tkey2), "max", value)];
    var z3 := z2[dest := UnionStore(ZGet(z2, dest), ZGet(z2, tkey1), true)];
    var z4 := z3[dest := UnionStore(ZGet(z3, dest), ZGet(z3, tkey2), false)];
    z4 - {tkey1, tkey2}
  }

  /**
   * The archive step: a stored, non-empty start earlier than the hour moves the statistics to
   * ":last" and the start to ":pstart" and records the hour. Nothing records a missing start.
   */
  function Rotate(S: Store, dest: string, hourStart: string): Store {
    var startKey := dest + ":start";
    var existing := StringGet(S.strings, startKey);
    if existing.Some? && existing.value != "" && Less(existing.value, hourStart) then
      S.(zsets := Rename(S.zsets, dest, dest + ":last"),
         strings := Rename(S.strings, startKey, dest + ":pstart")[startKey := hourStart])
    else S
  }

  /** One attempt at the time of tick `t`: the new state and the reply [count, sum, sumsq]. */
  function StatsPlan(S: Store, context: string, kind: string, value: int, hourStart: int -> string): Tick -> Option<(Store, seq<int>)> {
    (t: Tick) =>
      var dest := StatsKey(context, kind);
      var R := Rotate(S, dest, hourStart(t.now));
      Some((R.(zsets := R.zsets[dest := Record(ZGet(R.zsets, dest), value)]), Replies(ZGet(R.zsets, dest), value)))
  }

  // ---------------------------------------------------------------------------------------------
  // What recording a value does

  lemma {:induction false} UnionStoreSpec(a: ZSet, b: ZSet, takeMin: bool)
    requires ZSets.Valid(b)
    ensures forall x ::
      Score(UnionStore(a, b, takeMin), x) ==
        if Score(b, x).None? then Score(a, x)
        else if Score(a, x).None? then Score(b, x)
        else Some(Aggregate(Score(a, x).value, Score(b, x).value, takeMin))
    ensures ZSets.Valid(a) ==> ZSets.Valid(UnionStore(a, b, takeMin))
    decreases |b|
  {
    if b != [] {
      var e := b[0];
      var s := Score(a, e.member);
      var a' := Add(a, e.member, if s.None? then e.score else Aggregate(s.value, e.score, takeMin));
      AddSpec(a, e.member, if s.None? then e.score else Aggregate(s.value, e.score, takeMin));
      ValidTail(b);
      UnionStoreSpec(a', b[1..], takeMin);
      MembersCons(b);
      ScoreIffMember(b[1..], e.member);
      assert Score(b[1..], e.member).None?;
    }
  }

  /** A union with a one-entry set is a ZADD of its member at the aggregate score. */
  lemma UnionOne(a: ZSet, m: string, v: int, takeMin: bool)
    ensures UnionStore(a, [Entry(m, v)], takeMin) ==
      Add(a, m, if Score(a, m).None? then v else Aggregate(Score(a, m).value, v, takeMin))
  {
    assert [Entry(m, v)][1..] == [];
  }

  /** The expected score of `x` after recording `value` on `z`. */
  function Recorded(z: ZSet, value: int, x: string): Option<int> {
    if x == "min" then Some(if Score(z, "min").None? then value else Min(Score(z, "min").value, value))
    else if x == "max" then Some(if Score(z, "max").None? then value else Max(Score(z, "max").value, value))
    else if x == "count" then Some(Score(z, "count").GetOr(0) + 1)
    else if x == "sum" then Some(Score(z, "sum").GetOr(0) + value)
    else if x == "sumsq" then Some(Score(z, "sumsq").GetOr(0) + value * value)
    else Score(z, x)
  }

  /**
   * The two unions, seen from one member: "min" becomes the least and "max" the greatest of the
   * old bound and the value (the value alone when there was none); every other member keeps
   * its score.
   */
  lemma BoundsAt(z: ZSet, value: int, x: string)
    ensures Score(Bounds(z, value), x) ==
      if x == "min" || x == "max" then Recorded(z, value, x) else Score(z, x)
  {
    UnionOne(z, "min", value, true);
    var lo := UnionStore(z, [Entry("min", value)], true);
    AddAt(z, "min", if Score(z, "min").None? then value else Min(Score(z, "min").value, value), x);
    AddAt(z, "min", if Score(z, "min").None? then value else Min(Score(z, "min").value, value), "max");
    UnionOne(lo, "max", value, false);
    AddAt(lo, "max", if Score(lo, "max").None? then value else Max(Score(lo, "max").value, value), x);
  }

  /** Recording a value, seen from one member: the score Recorded gives. */
  lemma RecordAt(z: ZSet, value: int, x: string)
    ensures Score(Record(z, value), x) == Recorded(z, value, x)
  {
    var b := Bounds(z, value);
    BoundsAt(z, value, x);
    BoundsAt(z, value, "count");
    BoundsAt(z, value, "sum");
    BoundsAt(z, value, "sumsq");
    IncrByAt(b, "count", 1, x);
    var c := IncrBy(b, "count", 1);
    IncrByAt(b, "count", 1, "sum");
    IncrByAt(b, "count", 1, "sumsq");
    IncrByAt(c, "sum", value, x);
    var s := IncrBy(c, "sum", value);
    IncrByAt(c, "sum", value, "sumsq");
    IncrByAt(s, "sumsq", value * value, x);
  }

  /** Recording keeps a sorted set in Redis order. */
  lemma RecordValid(z: ZSet, value: int)
    requires ZSets.Valid(z)
    ensures ZSets.Valid(Record(z, value))
  {
    var lo := UnionStore(z, [Entry("min", value)], true);
    UnionOne(z, "min", value, true);
    AddSpec(z, "min", if Score(z, "min").None? then value else Min(Score(z, "min").value, value));
    UnionOne(lo, "max", value, false);
    AddSpec(lo, "max", if Score(lo, "max").None? then value else Max(Score(lo, "max").value, value));
    var b := Bounds(z, value);
    IncrBySpec(b, "count", 1);
    IncrBySpec(IncrBy(b, "count", 1), "sum", value);
    IncrBySpec(IncrBy(IncrBy(b, "count", 1), "sum", value), "sumsq", value * value);
  }

  /**
   * Recording a value: every member takes the score Recorded gives ("min" the least and "max"
   * the greatest of the old bound and the value, "count" one more, "sum" the value more,
   * "sumsq" its square more, every other member its old score); the order stays valid, and the
   * reply is the new count, sum and sum of squares.
   */
  lemma RecordSpec(z: ZSet, value: int)
    requires ZSets.Valid(z)
    ensures ZSets.Valid(Record(z, value))
    ensures forall x :: Score(Record(z, value), x) == Recorded(z, value, x)
    ensures Replies(z, value) ==
      [Recorded(z, value, "count").GetOr(0), Recorded(z, value, "sum").GetOr(0), Recorded(z, value, "sumsq").GetOr(0)]
  {
    RecordValid(z, value);
    forall x ensures Score(Record(z, value), x) == Recorded(z, value, x) {
      RecordAt(z, value, x);
    }
    BoundsAt(z, value, "count");
    BoundsAt(z, value, "sum");
    BoundsAt(z, value, "sumsq");
  }

  /** With fresh temporary keys the unions change only `dest`, and both temporary keys are gone again. */
  lemma StatsUnionsBounds(zsets: map<string, ZSet>, dest: string, tkey1: string, tkey2: string, value: int)
    requires tkey1 !in zsets && tkey2 !in zsets
    requires tkey1 != tkey2 && tkey1 != dest && tkey2 != dest
    ensures StatsUnions(zsets, dest, tkey1, tkey2, value) == zsets[dest := Bounds(ZGet(zsets, dest), value)]
  {
    var z1 := zsets[tkey1 := Add(ZGet(zsets, tkey1), "min", value)];
    assert ZGet(z1, tkey1) == [Entry("min", value)];
    var z2 := z1[tkey2 := Add(ZGet(z1, tkey2), "max", value)];
    assert ZGet(z2, tkey2) == [Entry("max", value)];
    var z4 := z2[dest := Bounds(ZGet(zsets, dest), value)];
    assert z4 - {tkey1, tkey2} == zsets[dest := Bounds(ZGet(zsets, dest), value)];
  }

  // ---------------------------------------------------------------------------------------------
  // Recording a sequence of values

  function SeqMin(vs: seq<int>): int
    requires vs != []
    decreases |vs|
  {
    if |vs| == 1 then vs[0] else Min(SeqMin(vs[..|vs| - 1]), vs[|vs| - 1])
  }

  function SeqMax(vs: seq<int>): int
    requires vs != []
    decreases |vs|
  {
    if |vs| == 1 then vs[0] else Max(SeqMax(vs[..|vs| - 1]), vs[|vs| - 1])
  }

  function Sum(vs: seq<int>): int
    decreases |vs|
  {
    if vs == [] then 0 else Sum(vs[..|vs| - 1]) + vs[|vs| - 1]
  }

  function SumSquares(vs: seq<int>): int
    decreases |vs|
  {
    if vs == [] then 0 else SumSquares(vs[..|vs| - 1]) + vs[|vs| - 1] * vs[|vs| - 1]
  }

  /** The statistics after recording each value in turn, within one hour. */
  function RecordAll(z: ZSet, vs: seq<int>): ZSet
    decreases |vs|
  {
    if vs == [] then z else Record(RecordAll(z, vs[..|vs| - 1]), vs[|vs| - 1])
  }

  /** `r` holds the five statistics with these values, in Redis order. */
  ghost predicate Summarises(r: ZSet, lo: int, hi: int, n: int, sum: int, sumsq: int) {
    && ZSets.Valid(r)
    && Score(r, "min") == Some(lo) && Score(r, "max") == Some(hi) && Score(r, "count") == Some(n)
    && Score(r, "sum") == Some(sum) && Score(r, "sumsq") == Some(sumsq)
  }

  /** The first value recorded on no statistics is the minimum, the maximum and the sum. */
  lemma RecordFirst(v: int)
    ensures Summarises(Record([], v), v, v, 1, v, v * v)
  {
    ValidSmall(Entry("", 0));
    RecordValid([], v);
    RecordAt([], v, "min");
    RecordAt([], v, "max");
    RecordAt([], v, "count");
    RecordAt([], v, "sum");
    RecordAt([], v, "sumsq");
  }

  /** Recording a further value folds it into each statistic. */
  lemma RecordNext(z: ZSet, v: int, lo: int, hi: int, n: int, sum: int, sumsq: int)
    requires Summarises(z, lo, hi, n, sum, sumsq)
    ensures Summarises(Record(z, v), Min(lo, v), Max(hi, v), n + 1, sum + v, sumsq + v * v)
  {
    RecordValid(z, v);
    RecordAt(z, v, "min");
    RecordAt(z, v, "max");
    RecordAt(z, v, "count");
    RecordAt(z, v, "sum");
    RecordAt(z, v, "sumsq");
  }

  /**
   * Starting from no statistics, recording a non-empty sequence of values leaves exactly the
   * least value, the greatest, how many there were, their sum and the sum of their squares.
   */
  lemma {:induction false} RecordAllSpec(vs: seq<int>)
    requires vs != []
    ensures Summarises(RecordAll([], vs), SeqMin(vs), SeqMax(vs), |vs|, Sum(vs), SumSquares(vs))
    decreases |vs|
  {
    var init := vs[..|vs| - 1];
    var v := vs[|vs| - 1];
    var before := RecordAll([], init);
    assert RecordAll([], vs) == Record(before, v);
    if init == [] {
      assert before == [];
      assert Sum(init) == 0 && SumSquares(init) == 0;
      RecordFirst(v);
    } else {
      RecordAllSpec(init);
      RecordNext(before, v, SeqMin(init), SeqMax(init), |init|, Sum(init), SumSquares(init));
    }
  }

  // ---------------------------------------------------------------------------------------------
  // The transaction

  /**
   * One update_stats attempt: archive if due, then record the value. As written no branch
   * records a missing start, so a statistic whose start is missing is never archived.
   */
  lemma StatsPlanSpec(S: Store, context: string, kind: string, value: int, hourStart: int -> string, t: Tick)
    requires ZSets.Valid(ZGet(S.zsets, StatsKey(context, kind)))
    ensures var dest := StatsKey(context, kind);
      var startKey := dest + ":start";
      var existing := StringGet(S.strings, startKey);
      var rotates := existing.Some? && existing.value != "" && Less(existing.value, hourStart(t.now));
      var before := if rotates then [] else ZGet(S.zsets, dest);
      var p := StatsPlan(S, context, kind, value, hourStart)(t).value;
      && (forall x :: Score(ZGet(p.0.zsets, dest), x) == Recorded(before, value, x))
      && p.1 == [Recorded(before, value, "count").GetOr(0), Recorded(before, value, "sum").GetOr(0), Recorded(before, value, "sumsq").GetOr(0)]
      && (rotates && dest in S.zsets ==> ZGet(p.0.zsets, dest + ":last") == S.zsets[dest])
      && (existing.None? ==> startKey !in p.0.strings)
  {
    var dest := StatsKey(context, kind);
    var R := Rotate(S, dest, hourStart(t.now));
    assert |dest + ":last"| != |dest|;
    ValidSmall(Entry("", 0));
    RecordSpec(ZGet(R.zsets, dest), value);
  }

  /**
   * update_stats: it replies at the first attempt before the 5-second deadline that no other
   * client disturbs, and otherwise returns None and changes nothing.
   */
  lemma UpdateStatsSpec(S: Store, context: string, kind: string, value: int, hourStart: int -> string, start: int, ticks: seq<Tick>)
    ensures var plan := StatsPlan(S, context, kind, value, hourStart);
      var k := FirstSettled(plan, Some(start + STATS_WINDOW), ticks);
      var r := RunAt(S, plan, Some(start + STATS_WINDOW), ticks);
      && (k.None? ==> r == (S, Timeout) && forall i :: 0 <= i < Window(Some(start + STATS_WINDOW), ticks) ==> ticks[i].conflict)
      && (k.Some? ==> !ticks[k.value].conflict && r.1.Success? && r == Settle(S, plan(ticks[k.value])))
  {
    var plan := StatsPlan(S, context, kind, value, hourStart);
    var deadline := Some(start + STATS_WINDOW);
    RunAtSpec(S, plan, deadline, ticks);
    FirstSettledSpec(plan, deadline, ticks);
    var k := FirstSettled(plan, deadline, ticks);
    if k.None? {
      forall i | 0 <= i < Window(deadline, ticks) ensures ticks[i].conflict {
        assert !Settles(plan, ticks[i]);
      }
    } else {
      assert plan(ticks[k.value]).Some?;
    }
  }

  class StatsStore {
    var zsets: map<string, ZSet>
    var strings: map<string, string>

    function State(): Store
      reads this
    {
      Store(zsets, strings)
    }

    constructor ()
      ensures State() == Store(map[], map[])
    {
      zsets, strings := map[], map[];
    }

    /**
     * One pass of update_stats' loop body at tick `t`, with the two temporary keys the attempt
     * draws (uuid4 names: fresh, distinct, and not statistics keys).
     */
    method UpdateStatsAttempt(context: string, kind: string, value: int, hourStart: int -> string, t: Tick,
                              tkey1: string, tkey2: string) returns (a: Attempt<seq<int>>)
      requires tkey1 !in zsets && tkey2 !in zsets && tkey1 != tkey2
      requires tkey1 !in {StatsKey(context, kind), StatsKey(context, kind) + ":last"}
      requires tkey2 !in {StatsKey(context, kind), StatsKey(context, kind) + ":last"}
      modifies this
      ensures (State(), a) == Try(old(State()), StatsPlan(old(State()), context, kind, value, hourStart)(t), t.conflict)
    {
      var destination := StatsKey(context, kind);
      var startKey := destination + ":start";
      var hour := hourStart(t.now);
      var existing := StringGet(strings, startKey);
      if t.conflict {
        return Conflicted;
      }
      if existing.Some? && existing.value != "" && Less(existing.value, hour) {
        zsets := Rename(zsets, destination, destination + ":last");
        strings := Rename(strings, startKey, destination + ":pstart");
        strings := strings[startKey := hour];
      }
      var replies := RecordValue(destination, tkey1, tkey2, value);
      return Committed(replies);
    }

    /**
     * The recording part of an attempt: ZADD of the two temporary sets, the two ZUNIONSTOREs,
     * DEL of the temporary keys and the three ZINCRBYs, whose replies are returned.
     */
    method RecordValue(destination: string, tkey1: string, tkey2: string, value: int) returns (replies: seq<int>)
      requires tkey1 !in zsets && tkey2 !in zsets
      requires tkey1 != tkey2 && tkey1 != destination && tkey2 != destination
      modifies this
      ensures zsets == old(zsets)[destination := Record(ZGet(old(zsets), destination), value)]
      ensures replies == Replies(ZGet(old(zsets), destination), value)
      ensures strings == old(strings)
    {
      ghost var before := ZGet(zsets, destination);
      StoreBounds(destination, tkey1, tkey2, value);
      assert ZGet(zsets, destination) == Bounds(before, value);
      replies := IncrementStats(destination, value);
    }

    /** The ZADDs of the one-entry sets, the two ZUNIONSTOREs into `destination` and the DEL. */
    method StoreBounds(destination: string, tkey1: string, tkey2: string, value: int)
      requires tkey1 !in zsets && tkey2 !in zsets
      requires tkey1 != tkey2 && tkey1 != destination && tkey2 != destination
      modifies this
      ensures zsets == old(zsets)[destination := Bounds(ZGet(old(zsets), destination), value)]
      ensures strings == old(strings)
    {
      StatsUnionsBounds(zsets, destination, tkey1, tkey2, value);
      zsets := zsets[tkey1 := Add(ZGet(zsets, tkey1), "min", value)];
      zsets := zsets[tkey2 := Add(ZGet(zsets, tkey2), "max", value)];
      zsets := zsets[destination := UnionStore(ZGet(zsets, destination), ZGet(zsets, tkey1), true)];
      zsets := zsets[destination := UnionStore(ZGet(zsets, destination), ZGet(zsets, tkey2), false)];
      zsets := zsets - {tkey1, tkey2};
    }

    method IncrementStats(destination: string, value: int) returns (replies: seq<int>)
      modifies this
      ensures var b := ZGet(old(zsets), destination);
        && zsets == old(zsets)[destination := IncrBy(IncrBy(IncrBy(b, "count", 1), "sum", value), "sumsq", value * value)]
        && replies == [Score(b, "count").GetOr(0) + 1, Score(b, "sum").GetOr(0) + value, Score(b, "sumsq").GetOr(0) + value * value]
      ensures strings == old(strings)
    {
      var b := ZGet(zsets, destination);
      var count := Score(b, "count").GetOr(0) + 1;
      var z1 := IncrBy(b, "count", 1);
      IncrByAt(b, "count", 1, "sum");
      var sum := Score(z1, "sum").GetOr(0) + value;
      var z2 := IncrBy(z1, "sum", value);
      IncrByAt(b, "count", 1, "sumsq");
      IncrByAt(z1, "sum", value, "sumsq");
      var sumsq := Score(z2, "sumsq").GetOr(0) + value * value;
      zsets := zsets[destination := IncrBy(z2, "sumsq", value * value)];
      replies := [count, sum, sumsq];
    }

    /**
     * update_stats(context, type, value) started at `start`: attempts until one commits (the
     * reply) or 5 seconds pass (None). `temps` holds the temporary keys of each attempt.
     */
    method UpdateStats(context: string, kind: string, value: int, hourStart: int -> string, start: int,
                       ticks: seq<Tick>, temps: seq<(string, string)>) returns (o: Outcome<seq<int>>)
      requires |temps| == |ticks|
      requires forall i :: 0 <= i < |temps| ==>
        && temps[i].0 !in zsets && temps[i].1 !in zsets && temps[i].0 != temps[i].1
        && temps[i].0 !in {StatsKey(context, kind), StatsKey(context, kind) + ":last"}
        && temps[i].1 !in {StatsKey(context, kind), StatsKey(context, kind) + ":last"}
      modifies this
      ensures (State(), o) == RunAt(old(State()), StatsPlan(old(State()), context, kind, value, hourStart),
                                    Some(start + STATS_WINDOW), ticks)
    {
      var end := start + STATS_WINDOW;
      ghost var s0 := State();
      ghost var plan := StatsPlan(s0, context, kind, value, hourStart);
      var i := 0;
      while i < |ticks| && ticks[i].now < end
        invariant 0 <= i <= |ticks|
        invariant State() == s0
        invariant RunAt(s0, plan, Some(end), ticks) == RunAt(s0, plan, Some(end), ticks[i..])
      {
        assert ticks[i..][0] == ticks[i];
        var a := UpdateStatsAttempt(context, kind, value, hourStart, ticks[i], temps[i].0, temps[i].1);
        if a.Committed? {
          return Success(a.value);
        }
        RunAtStep(s0, plan, Some(end), ticks, i);
        i := i + 1;
      }
      assert ticks[i..] == [] || !Open(Some(end), ticks[i..][0]);
      return Timeout;
    }
  }
}
