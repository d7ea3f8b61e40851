/**
 * The maintenance flag: is_under_maintenance caches, in two process-wide variables, whether the
 * string key "is-under-maintenance" holds a value, and re-reads the key only when the cached
 * answer is more than one second old. Times are milliseconds; the key's value is a parameter.
 */
module Maintenance {
  import opened Common

  /** The cached answer is trusted for one second. */
  const REFRESH_MS: int := 1000

  /** The two globals: when the key was last read, and what it said. */
  datatype Cache = Cache(lastChecked: int, underMaintenance: bool)

  /** Both globals start out as 0 and False. */
  const INITIAL: Cache := Cache(0, false)

  /** Python's bool() of a GET reply: a missing key and an empty string are false. */
  predicate Truthy(stored: Option<string>) {
    stored.Some? && stored.value != ""
  }

  /** The cache is too old to answer at `now`. */
  predicate Stale(c: Cache, now: int) {
    c.lastChecked < now - REFRESH_MS
  }

  /** One call at `now`, with the key holding `stored`: the new globals and the answer. */
  function Check(c: Cache, now: int, stored: Option<string>): (Cache, bool) {
    var c' := if Stale(c, now) then Cache(now, Truthy(stored)) else c;
    (c', c'.underMaintenance)
  }

  /**
   * A call answers from the cache unless the cache is more than a second old; then it reads
   * the key, remembers the time, and answers what the key says.
   */
  lemma CheckSpec(c: Cache, now: int, stored: Option<string>)
    ensures var (c', answer) := Check(c, now, stored);
      && answer == c'.underMaintenance
      && (Stale(c, now) ==> c' == Cache(now, Truthy(stored)) && (answer <==> Truthy(stored)))
      && (!Stale(c, now) ==> c' == c && answer == c.underMaintenance)
  {
  }

  /** The key is read at most once a second: two reads are more than a second apart. */
  lemma RefreshesSpaced(c: Cache, now: int, stored: Option<string>)
    requires Stale(c, now)
    ensures Check(c, now, stored).0.lastChecked > c.lastChecked + REFRESH_MS
  {
  }

  /** The answers to a sequence of calls, each a time and the key's value at that time. */
  function CheckAll(c: Cache, calls: seq<(int, Option<string>)>): (r: (Cache, seq<bool>))
    ensures |r.1| == |calls|
    decreases |calls|
  {
    if calls == [] then (c, [])
    else
      var (c1, answer) := Check(c, calls[0].0, calls[0].1);
      var (c2, answers) := CheckAll(c1, calls[1..]);
      (c2, [answer] + answers)
  }

  /**
   * Within a second of the last read every call answers the cached value, whatever the key
   * holds meanwhile, and the cache stays as it is.
   */
  lemma {:induction false} CachedWithinWindow(c: Cache, calls: seq<(int, Option<string>)>)
    requires forall i :: 0 <= i < |calls| ==> calls[i].0 <= c.lastChecked + REFRESH_MS
    ensures CheckAll(c, calls).0 == c
    ensures forall i :: 0 <= i < |calls| ==> CheckAll(c, calls).1[i] == c.underMaintenance
    decreases |calls|
  {
    if calls != [] {
      assert !Stale(c, calls[0].0);
      CachedWithinWindow(c, calls[1..]);
      var answers := CheckAll(c, calls[1..]).1;
      assert CheckAll(c, calls).1 == [c.underMaintenance] + answers;
      forall i | 0 <= i < |calls| ensures CheckAll(c, calls).1[i] == c.underMaintenance {
        if i > 0 {
          assert CheckAll(c, calls).1[i] == answers[i - 1];
        }
      }
    }
  }

  /**
   * The unit test's scenario: the key is absent and the first call answers False; the key is
   * set to "yes" and a call within the second still answers False; after more than a second a
   * call answers True; the key is deleted and, after another second, a call answers False.
   */
  lemma MaintenanceScenario(t0: int, t1: int, t2: int, t3: int)
    requires t0 > REFRESH_MS && t0 <= t1 <= t0 + REFRESH_MS && t2 > t0 + REFRESH_MS && t3 > t2 + REFRESH_MS
    ensures CheckAll(INITIAL, [(t0, None), (t1, Some("yes")), (t2, Some("yes")), (t3, None)]).1
      == [false, false, true, false]
  {
    var calls := [(t0, None), (t1, Some("yes")), (t2, Some("yes")), (t3, None)];
    assert calls[1..] == [(t1, Some("yes")), (t2, Some("yes")), (t3, None)];
    assert calls[1..][1..] == [(t2, Some("yes")), (t3, None)];
    assert calls[1..][1..][1..] == [(t3, None)];
    var c1 := Cache(t0, false);
    var c3 := Cache(t2, true);
    var last: seq<(int, Option<string>)> := [(t3, None)];
    assert last[1..] == [];
    assert Check(c3, t3, None) == (Cache(t3, false), false);
    assert CheckAll(Cache(t3, false), []) == (Cache(t3, false), []);
    assert last[0] == (t3, None);
    assert CheckAll(c3, last).0 == Cache(t3, false);
    assert CheckAll(c3, last).1 == [false] + [];
    assert CheckAll(c1, [(t2, Some("yes")), (t3, None)]).1 == [true, false];
    assert CheckAll(c1, calls[1..]).1 == [false, true, false];
  }

  /** The module's two globals and is_under_maintenance. */
  class MaintenanceFlag {
    var lastChecked: int
    var underMaintenance: bool

    function State(): Cache
      reads this
    {
      Cache(lastChecked, underMaintenance)
    }

    constructor ()
      ensures State() == INITIAL
    {
      lastChecked, underMaintenance := 0, false;
    }

    /** is_under_maintenance at `now`, with the key holding `stored`. */
    method IsUnderMaintenance(now: int, stored: Option<string>) returns (answer: bool)
      modifies this
      ensures (State(), answer) == Check(old(State()), now, stored)
    {
      if lastChecked < now - REFRESH_MS {
        lastChecked := now;
        underMaintenance := stored.Some? && stored.value != "";
      }
      answer := underMaintenance;
    }
  }
}
