/**
 * Logging to Redis. log_recent keeps the 100 newest timestamped messages of a name and severity
 * in the list "recent:<name>:<severity>". log_common counts each message in the sorted set
 * "common:<name>:<severity>" and archives the counts when the hour recorded in
 * "common:<name>:<severity>:start" has passed, all in one optimistic transaction retried for
 * five seconds.
 */
module Logs {
  import opened Common
  import opened Text
  import opened ZSets
  import opened Optimistic
  import Lists

  /** The numeric levels of Python's logging module. */
  const DEBUG: int := 10
  const INFO: int := 20
  const WARNING: int := 30
  const ERROR: int := 40
  const CRITICAL: int := 50

  /** log_recent keeps this many messages. */
  const RECENT_KEPT: int := 100
  /** log_common retries for 5 seconds (times are in milliseconds). */
  const COMMON_WINDOW: int := 5000

  /** A severity as callers pass it: a numeric logging level or a name. */
  datatype Severity = Level(level: int) | Named(name: string)

  /**
   * The clock and calendar: the ISO text "YYYY-MM-DDTHH:00:00" of the UTC hour containing a
   * time, and the `time.asctime()` text of a time.
   */
  datatype Clock = Clock(hourStart: int -> string, asctime: int -> string)

  /** The keys log_recent and log_common use: lists, sorted sets and strings kept apart. */
  datatype Store = Store(lists: map<string, seq<string>>, zsets: map<string, ZSet>, strings: map<string, string>)

  /**
   * `str(SEVERITY.get(severity, severity)).lower()`. SEVERITY maps each of the five level names
   * to itself and holds no number, so a name passes through and a numeric level becomes its
   * decimal text.
   */
  function SeverityName(sev: Severity): string {
    Lower(match sev
      case Level(n) => IntToString(n)
      case Named(s) => s)
  }

  /** Decimal text has no upper-case letter, so lower-casing leaves it alone. */
  lemma LowerOfDecimal(n: int)
    ensures Lower(IntToString(n)) == IntToString(n)
  {
    var m := if n < 0 then -n else n;
    DecRoundTrip(m);
    var s := IntToString(n);
    forall i | 0 <= i < |s| ensures LowerChar(s[i]) == s[i] {
      if n >= 0 {
        assert IsDigit(Dec(m)[i]);
      } else if i > 0 {
        assert s[i] == Dec(m)[i - 1];
        assert IsDigit(Dec(m)[i - 1]);
      }
    }
  }

  /** A numeric level reads as its decimal text (INFO as "20"), and normalising twice changes nothing. */
  lemma SeverityNameSpec(sev: Severity)
    ensures sev.Level? ==> SeverityName(sev) == IntToString(sev.level)
    ensures SeverityName(Named(SeverityName(sev))) == SeverityName(sev)
    ensures SeverityName(Level(INFO)) == "20"
  {
    var text := match sev case Level(n) => IntToString(n) case Named(s) => s;
    LowerIdempotent(text);
    if sev.Level? {
      LowerOfDecimal(sev.level);
    }
    LowerOfDecimal(INFO);
    assert IntToString(INFO) == "20" by {
      assert Dec(20) == Dec(2) + [DigitChar(0)];
    }
  }

  function RecentKey(name: string, severity: string): string {
    "recent:" + name + ":" + severity
  }

  function CommonKey(name: string, severity: string): string {
    "common:" + name + ":" + severity
  }

  function ListGet(lists: map<string, seq<string>>, key: string): seq<string> {
    if key in lists then lists[key] else []
  }

  /** The value of a string key, None when it is missing (GET). */
  function StringGet(strings: map<string, string>, key: string): Option<string> {
    if key in strings then Some(strings[key]) else None
  }

  /** RENAME src dst; a missing source leaves the keys as they are. */
  function Rename<V>(m: map<string, V>, src: string, dst: string): map<string, V> {
    if src in m then (m - {src})[dst := m[src]] else m
  }

  // ---------------------------------------------------------------------------------------------
  // log_recent

  /** log_recent: LPUSH the timestamped message, then LTRIM 0 99. */
  function RecentEffect(S: Store, name: string, sev: Severity, message: string, asctime: string): Store {
    var dest := RecentKey(name, SeverityName(sev));
    var pushed := [asctime + " " + message] + ListGet(S.lists, dest);
    S.(lists := S.lists[dest := Lists.Range(pushed, 0, RECENT_KEPT - 1)])
  }

  /**
   * After log_recent the list starts with the timestamped message and holds the newest
   * messages, at most 100 of them, in newest-first order; no other key changes.
   */
  lemma RecentSpec(S: Store, name: string, sev: Severity, message: string, asctime: string)
    ensures var dest := RecentKey(name, SeverityName(sev));
      var S' := RecentEffect(S, name, sev, message, asctime);
      var pushed := [asctime + " " + message] + ListGet(S.lists, dest);
      && ListGet(S'.lists, dest) == pushed[..Min(|pushed|, RECENT_KEPT)]
      && 0 < |ListGet(S'.lists, dest)| <= RECENT_KEPT
      && ListGet(S'.lists, dest)[0] == asctime + " " + message
      && (forall k :: k != dest ==> ListGet(S'.lists, k) == ListGet(S.lists, k))
      && S'.zsets == S.zsets && S'.strings == S.strings
  {
    var dest := RecentKey(name, SeverityName(sev));
    Lists.RangeFromHead([asctime + " " + message] + ListGet(S.lists, dest), RECENT_KEPT - 1);
  }

  // ---------------------------------------------------------------------------------------------
  // log_common

  /**
   * The archive step of a log_common batch, given `existing`, the text the attempt compares
   * with the current hour. A start earlier than the hour moves the counts to ":last" and the
   * start to ":plast" and records the hour; an empty `existing` records the hour.
   */
  function Rotate(S: Store, dest: string, existing: string, hourStart: string): Store {
    var startKey := dest + ":start";
    if existing != "" && Less(existing, hourStart) then
      S.(zsets := Rename(S.zsets, dest, dest + ":last"),
         strings := Rename(S.strings, startKey, dest + ":plast")[startKey := hourStart])
    else if existing == "" then S.(strings := S.strings[startKey := hourStart])
    else S
  }

  /** ZINCRBY dest message 1. */
  function CountMessage(S: Store, dest: string, message: string): Store {
    S.(zsets := S.zsets[dest := IncrBy(ZGet(S.zsets, dest), message, 1)])
  }

  /** The batch of one log_common attempt: archive if due, count the message, log it as recent. */
  function CommonStep(S: Store, name: string, sev: Severity, message: string, existing: string,
                      hourStart: string, asctime: string): Store
  {
    var severity := SeverityName(sev);
    var dest := CommonKey(name, severity);
    RecentEffect(CountMessage(Rotate(S, dest, existing, hourStart), dest, message), name, Named(severity), message, asctime)
  }

  function StartKey(name: string, sev: Severity): string {
    CommonKey(name, SeverityName(sev)) + ":start"
  }

  /** `str(pipe.get(start_key))` as written: a missing start reads as the text "None". */
  function ExistingAsWritten(stored: Option<string>): string {
    match stored
    case None => "None"
    case Some(v) => v
  }

  /** The reading the two branches are written for: a missing start reads as empty. */
  function Existing(stored: Option<string>): string {
    stored.GetOr("")
  }

  /** One attempt as written, at the time of tick `t`. */
  function CommonPlanAsWritten(S: Store, name: string, sev: Severity, message: string, clock: Clock): Tick -> Option<(Store, ())> {
    (t: Tick) => Some((CommonStep(S, name, sev, message, ExistingAsWritten(StringGet(S.strings, StartKey(name, sev))),
                          clock.hourStart(t.now), clock.asctime(t.now)), ()))
  }

  /** One attempt reading a missing start as empty, at the time of tick `t`. */
  function CommonPlan(S: Store, name: string, sev: Severity, message: string, clock: Clock): Tick -> Option<(Store, ())> {
    (t: Tick) => Some((CommonStep(S, name, sev, message, Existing(StringGet(S.strings, StartKey(name, sev))),
                          clock.hourStart(t.now), clock.asctime(t.now)), ()))
  }

  /** One attempt at tick `t`, reading a missing start as written (`asWritten`) or as empty. */
  function CommonPlanOf(asWritten: bool, S: Store, name: string, sev: Severity, message: string, clock: Clock): Tick -> Option<(Store, ())> {
    if asWritten then CommonPlanAsWritten(S, name, sev, message, clock) else CommonPlan(S, name, sev, message, clock)
  }

  /**
   * The archive step reading a missing start as empty: it archives exactly when a stored start
   * is earlier than the hour, leaving the counts empty; the old start goes to ":plast" and the
   * old counts, which exist while Archived holds, to ":last". Afterwards the start is the hour
   * whenever it was missing or earlier, and is left alone otherwise.
   */
  lemma RotateSpec(S: Store, dest: string, hourStart: string)
    ensures var stored := StringGet(S.strings, dest + ":start");
      var rotates := stored.Some? && stored.value != "" && Less(stored.value, hourStart);
      var R := Rotate(S, dest, Existing(stored), hourStart);
      && ZGet(R.zsets, dest) == (if rotates then [] else ZGet(S.zsets, dest))
      && (rotates ==> StringGet(R.strings, dest + ":plast") == stored)
      && (rotates && dest in S.zsets ==> ZGet(R.zsets, dest + ":last") == S.zsets[dest])
      && StringGet(R.strings, dest + ":start") ==
           (if stored.None? || stored.value == "" || rotates then Some(hourStart) else stored)
      && R.lists == S.lists
  {
    assert |dest + ":last"| != |dest|;
    assert (dest + ":start")[|dest| + 1] != (dest + ":plast")[|dest| + 1];
  }

  /**
   * One log_common attempt: the message's count becomes one more than before, counting from
   * zero after an archive, and the recent log receives the message.
   */
  lemma CommonStepSpec(S: Store, name: string, sev: Severity, message: string, hourStart: string, asctime: string)
    ensures var severity := SeverityName(sev);
      var dest := CommonKey(name, severity);
      var stored := StringGet(S.strings, dest + ":start");
      var rotates := stored.Some? && stored.value != "" && Less(stored.value, hourStart);
      var S' := CommonStep(S, name, sev, message, Existing(stored), hourStart, asctime);
      && Score(ZGet(S'.zsets, dest), message) ==
           Some((if rotates then 0 else Score(ZGet(S.zsets, dest), message).GetOr(0)) + 1)
      && StringGet(S'.strings, dest + ":start") ==
           (if stored.None? || stored.value == "" || rotates then Some(hourStart) else stored)
      && ListGet(S'.lists, RecentKey(name, severity)) ==
           Lists.Range([asctime + " " + message] + ListGet(S.lists, RecentKey(name, severity)), 0, RECENT_KEPT - 1)
  {
    CommonStepCount(S, name, sev, message, hourStart, asctime);
    CommonStepStart(S, name, sev, message, hourStart, asctime);
    CommonStepRecent(S, name, sev, message, hourStart, asctime);
  }

  /** The count part of CommonStepSpec. */
  lemma CommonStepCount(S: Store, name: string, sev: Severity, message: string, hourStart: string, asctime: string)
    ensures var dest := CommonKey(name, SeverityName(sev));
      var stored := StringGet(S.strings, dest + ":start");
      var rotates := stored.Some? && stored.value != "" && Less(stored.value, hourStart);
      var S' := CommonStep(S, name, sev, message, Existing(stored), hourStart, asctime);
      Score(ZGet(S'.zsets, dest), message) == Some((if rotates then 0 else Score(ZGet(S.zsets, dest), message).GetOr(0)) + 1)
  {
    var severity := SeverityName(sev);
    var dest := CommonKey(name, severity);
    var existing := Existing(StringGet(S.strings, dest + ":start"));
    RotateCount(S, dest, existing, hourStart, message);
    var C := CountMessage(Rotate(S, dest, existing, hourStart), dest, message);
    assert RecentEffect(C, name, Named(severity), message, asctime).zsets == C.zsets;
  }

  /** The count after the archive step and ZINCRBY: one more than before, or one after an archive. */
  lemma RotateCount(S: Store, dest: string, existing: string, hourStart: string, message: string)
    ensures Score(ZGet(CountMessage(Rotate(S, dest, existing, hourStart), dest, message).zsets, dest), message) ==
      Some((if existing != "" && Less(existing, hourStart) then 0 else Score(ZGet(S.zsets, dest), message).GetOr(0)) + 1)
  {
    assert |dest + ":last"| != |dest|;
    var R := Rotate(S, dest, existing, hourStart);
    IncrBySpec(ZGet(R.zsets, dest), message, 1);
  }

  /** The start part of CommonStepSpec. */
  lemma CommonStepStart(S: Store, name: string, sev: Severity, message: string, hourStart: string, asctime: string)
    ensures var dest := CommonKey(name, SeverityName(sev));
      var stored := StringGet(S.strings, dest + ":start");
      var rotates := stored.Some? && stored.value != "" && Less(stored.value, hourStart);
      var S' := CommonStep(S, name, sev, message, Existing(stored), hourStart, asctime);
      StringGet(S'.strings, dest + ":start") == (if stored.None? || stored.value == "" || rotates then Some(hourStart) else stored)
  {
    var severity := SeverityName(sev);
    var dest := CommonKey(name, severity);
    var stored := StringGet(S.strings, dest + ":start");
    RotateSpec(S, dest, hourStart);
    var C := CountMessage(Rotate(S, dest, Existing(stored), hourStart), dest, message);
    RecentSpec(C, name, Named(severity), message, asctime);
  }

  /** The recent-log part of CommonStepSpec. */
  lemma CommonStepRecent(S: Store, name: string, sev: Severity, message: string, hourStart: string, asctime: string)
    ensures var severity := SeverityName(sev);
      var stored := StringGet(S.strings, CommonKey(name, severity) + ":start");
      var S' := CommonStep(S, name, sev, message, Existing(stored), hourStart, asctime);
      ListGet(S'.lists, RecentKey(name, severity)) ==
        Lists.Range([asctime + " " + message] + ListGet(S.lists, RecentKey(name, severity)), 0, RECENT_KEPT - 1)
  {
    var severity := SeverityName(sev);
    var dest := CommonKey(name, severity);
    var stored := StringGet(S.strings, dest + ":start");
    SeverityNameSpec(sev);
    RotateSpec(S, dest, hourStart);
    var C := CountMessage(Rotate(S, dest, Existing(stored), hourStart), dest, message);
    RecentSpec(C, name, Named(severity), message, asctime);
    Lists.RangeFromHead([asctime + " " + message] + ListGet(S.lists, RecentKey(name, severity)), RECENT_KEPT - 1);
  }

  /** Counts and start are created together: while the start of a log exists, so do its counts. */
  ghost predicate Archived(S: Store, name: string, severity: string) {
    CommonKey(name, severity) + ":start" in S.strings ==> CommonKey(name, severity) in S.zsets
  }

  /** Every attempt leaves the counts of its log in place, so it keeps Archived. */
  lemma CommonStepArchived(S: Store, name: string, sev: Severity, message: string, existing: string, hourStart: string, asctime: string)
    ensures Archived(CommonStep(S, name, sev, message, existing, hourStart, asctime), name, SeverityName(sev))
  {
  }

  /**
   * As written, a missing start is read as "None", which is not empty and, next to an ISO hour
   * starting with a digit, not earlier: the start is never recorded, so the log never rotates.
   */
  lemma CommonAsWrittenNeverStarts(S: Store, name: string, sev: Severity, message: string, clock: Clock, t: Tick)
    requires StartKey(name, sev) !in S.strings
    requires clock.hourStart(t.now) != "" && IsDigit(clock.hourStart(t.now)[0])
    ensures StartKey(name, sev) !in CommonPlanAsWritten(S, name, sev, message, clock)(t).value.0.strings
  {
    var hour := clock.hourStart(t.now);
    assert !Less("None", hour) by {
      assert "None"[..0] == hour[..0];
      LessAtFirstDifference("None", hour, 0);
    }
  }

  /** Read as intended, the first attempt on a log records the current hour as its start. */
  lemma CommonStarts(S: Store, name: string, sev: Severity, message: string, clock: Clock, t: Tick)
    requires StartKey(name, sev) !in S.strings
    ensures StringGet(CommonPlan(S, name, sev, message, clock)(t).value.0.strings, StartKey(name, sev)) ==
      Some(clock.hourStart(t.now))
  {
    CommonStepSpec(S, name, sev, message, clock.hourStart(t.now), clock.asctime(t.now));
  }

  /**
   * The whole log_common loop as written: whichever attempt commits, a log without a start still
   * has none afterwards, so it never rotates.
   */
  lemma LogCommonAsWrittenNeverStarts(S: Store, name: string, sev: Severity, message: string, clock: Clock,
                                      start: int, ticks: seq<Tick>)
    requires StartKey(name, sev) !in S.strings
    requires forall n :: clock.hourStart(n) != "" && IsDigit(clock.hourStart(n)[0])
    ensures StartKey(name, sev) !in
      RunAt(S, CommonPlanAsWritten(S, name, sev, message, clock), Some(start + COMMON_WINDOW), ticks).0.strings
  {
    var plan := CommonPlanAsWritten(S, name, sev, message, clock);
    RunAtSpec(S, plan, Some(start + COMMON_WINDOW), ticks);
    match FirstSettled(plan, Some(start + COMMON_WINDOW), ticks)
    case None =>
    case Some(k) =>
      CommonAsWrittenNeverStarts(S, name, sev, message, clock, ticks[k]);
  }

  /**
   * log_common: it commits at the first attempt before the 5-second deadline that no other
   * client disturbs, and otherwise changes nothing. The attempt that commits counts the message
   * once, at its own hour.
   */
  lemma LogCommonSpec(S: Store, name: string, sev: Severity, message: string, clock: Clock, start: int, ticks: seq<Tick>)
    ensures var plan := CommonPlan(S, name, sev, message, clock);
      var k := FirstSettled(plan, Some(start + COMMON_WINDOW), ticks);
      var S' := RunAt(S, plan, Some(start + COMMON_WINDOW), ticks).0;
      && (k.None? ==> S' == S && forall i :: 0 <= i < Window(Some(start + COMMON_WINDOW), ticks) ==> ticks[i].conflict)
      && (k.Some? ==> !ticks[k.value].conflict && ticks[k.value].now < start + COMMON_WINDOW
                      && S' == CommonStep(S, name, sev, message, Existing(StringGet(S.strings, StartKey(name, sev))),
                                          clock.hourStart(ticks[k.value].now), clock.asctime(ticks[k.value].now)))
  {
    var plan := CommonPlan(S, name, sev, message, clock);
    var deadline := Some(start + COMMON_WINDOW);
    RunAtSpec(S, plan, deadline, ticks);
    FirstSettledSpec(plan, deadline, ticks);
    var k := FirstSettled(plan, deadline, ticks);
    if k.None? {
      forall i | 0 <= i < Window(deadline, ticks) ensures ticks[i].conflict {
        assert !Settles(plan, ticks[i]);
      }
    } else {
      WindowSpec(deadline, ticks);
      assert Settles(plan, ticks[k.value]);
      assert plan(ticks[k.value]).Some?;
    }
  }

  class LogStore {
    var lists: map<string, seq<string>>
    var zsets: map<string, ZSet>
    var strings: map<string, string>

    function State(): Store
      reads this
    {
      Store(lists, zsets, strings)
    }

    constructor ()
      ensures State() == Store(map[], map[], map[])
    {
      lists, zsets, strings := map[], map[], map[];
    }

    /** log_recent(name, message, severity), stamped with `asctime`. */
    method LogRecent(name: string, message: string, sev: Severity, asctime: string)
      modifies this
      ensures State() == RecentEffect(old(State()), name, sev, message, asctime)
    {
      var destination := RecentKey(name, SeverityName(sev));
      var stamped := asctime + " " + message;
      lists := lists[destination := Lists.Range([stamped] + ListGet(lists, destination), 0, RECENT_KEPT - 1)];
    }

    /**
     * One pass of log_common's loop body at tick `t`: WATCH, GET the start, then the batch. With
     * `asWritten` a missing start reads as "None", as `str(None)` gives; otherwise as empty.
     */
    method LogCommonAttempt(name: string, sev: Severity, message: string, clock: Clock, t: Tick, asWritten: bool) returns (a: Attempt<()>)
      modifies this
      ensures (State(), a) == Try(old(State()), CommonPlanOf(asWritten, old(State()), name, sev, message, clock)(t), t.conflict)
    {
      var severity := SeverityName(sev);
      var destination := CommonKey(name, severity);
      var startKey := destination + ":start";
      var hourStart := clock.hourStart(t.now);
      var stored := StringGet(strings, startKey);
      var existing := if asWritten then ExistingAsWritten(stored) else Existing(stored);
      if t.conflict {
        return Conflicted;
      }
      if existing != "" && Less(existing, hourStart) {
        zsets := Rename(zsets, destination, destination + ":last");
        strings := Rename(strings, startKey, destination + ":plast");
        strings := strings[startKey := hourStart];
      } else if existing == "" {
        strings := strings[startKey := hourStart];
      }
      zsets := zsets[destination := IncrBy(ZGet(zsets, destination), message, 1)];
      LogRecent(name, message, Named(severity), clock.asctime(t.now));
      return Committed(());
    }

    /**
     * The retry loop of log_common(name, message, severity) started at `start`: attempts until one
     * commits or 5 seconds pass, reading a missing start as written or as empty.
     */
    method RunLogCommon(name: string, message: string, sev: Severity, clock: Clock, start: int, ticks: seq<Tick>, asWritten: bool)
      modifies this
      ensures State() == RunAt(old(State()), CommonPlanOf(asWritten, old(State()), name, sev, message, clock),
                               Some(start + COMMON_WINDOW), ticks).0
    {
      var end := start + COMMON_WINDOW;
      ghost var s0 := State();
      ghost var plan := CommonPlanOf(asWritten, s0, name, sev, message, clock);
      var i := 0;
      while i < |ticks| && ticks[i].now < end
        invariant 0 <= i <= |ticks|
        invariant State() == s0
        invariant RunAt(s0, plan, Some(end), ticks) == RunAt(s0, plan, Some(end), ticks[i..])
      {
        assert ticks[i..][0] == ticks[i];
        var a := LogCommonAttempt(name, sev, message, clock, ticks[i], asWritten);
        if a.Committed? {
          return;
        }
        RunAtStep(s0, plan, Some(end), ticks, i);
        i := i + 1;
      }
      assert ticks[i..] == [] || !Open(Some(end), ticks[i..][0]);
    }

    /** log_common as written: a missing start reads as "None" (python/chapter-5-1.py:68). */
    method LogCommonAsWritten(name: string, message: string, sev: Severity, clock: Clock, start: int, ticks: seq<Tick>)
      modifies this
      ensures State() == RunAt(old(State()), CommonPlanAsWritten(old(State()), name, sev, message, clock),
                               Some(start + COMMON_WINDOW), ticks).0
    {
      RunLogCommon(name, message, sev, clock, start, ticks, true);
    }

    /** log_common reading a missing start as empty, so that a new log records its hour. */
    method LogCommon(name: string, message: string, sev: Severity, clock: Clock, start: int, ticks: seq<Tick>)
      modifies this
      ensures State() == RunAt(old(State()), CommonPlan(old(State()), name, sev, message, clock),
                               Some(start + COMMON_WINDOW), ticks).0
    {
      RunLogCommon(name, message, sev, clock, start, ticks, false);
    }
  }
}
