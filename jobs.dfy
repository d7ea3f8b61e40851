/**
 * Job search by skill. A job's required skills are kept in the set "job:<id>"; the skill index
 * keeps, for every skill, the set "idx:skill:<skill>" of the jobs requiring it, and the sorted set
 * "idx:jobs:req" holds every indexed job scored by the number of its distinct required skills.
 * A candidate fits a job when the job's skills minus the candidate's are empty; find_jobs finds
 * those jobs with one weighted ZUNIONSTORE and one weighted ZINTERSTORE.
 */
module Jobs {
  import opened Common
  import opened ZSets

  /** The distinct elements of a list of arguments, as Python's `set(...)` builds them. */
  function Distinct(s: seq<string>): set<string> {
    set i | 0 <= i < |s| :: s[i]
  }

  /** SMEMBERS on a key of a map of sets: a missing key reads as the empty set. */
  function Holders(sets: map<string, set<string>>, key: string): set<string> {
    if key in sets then sets[key] else {}
  }

  lemma DistinctSpec(s: seq<string>)
    ensures forall x :: x in Distinct(s) <==> x in s
  {
    forall x | x in s ensures x in Distinct(s) {
      var i :| 0 <= i < |s| && s[i] == x;
    }
  }

  // ---------------------------------------------------------------------------------------------
  // is_qualified

  /**
   * is_qualified: SADD of the candidate's skills to a temporary set, then SDIFF job:<id> minus it.
   * Redis refuses an SADD without members, which aborts the transaction: None.
   */
  function IsQualified(jobs: map<string, set<string>>, id: string, candidate: seq<string>): Option<bool> {
    if candidate == [] then None else Some(Holders(jobs, id) - Distinct(candidate) == {})
  }

  /** A candidate is qualified exactly when they hold every skill the job requires. */
  lemma IsQualifiedSpec(jobs: map<string, set<string>>, id: string, candidate: seq<string>)
    requires candidate != []
    ensures IsQualified(jobs, id, candidate).Some?
    ensures IsQualified(jobs, id, candidate).value <==> forall s :: s in Holders(jobs, id) ==> s in candidate
  {
    DistinctSpec(candidate);
    var missing := Holders(jobs, id) - Distinct(candidate);
    if missing != {} {
      var s :| s in missing;
      assert s !in candidate;
    } else {
      forall s | s in Holders(jobs, id) ensures s in candidate {
        assert s !in missing;
      }
    }
  }

  /** A job nobody added requires nothing, so every candidate qualifies for it. */
  lemma UnknownJobQualifies(jobs: map<string, set<string>>, id: string, candidate: seq<string>)
    requires id !in jobs && candidate != []
    ensures IsQualified(jobs, id, candidate) == Some(true)
  {
  }

  // ---------------------------------------------------------------------------------------------
  // index_job

  /** The skill index after SADD idx:skill:<s> id for every s of `skills`, in order. */
  function IndexSkills(index: map<string, set<string>>, skills: seq<string>, id: string): map<string, set<string>>
    decreases |skills|
  {
    if skills == [] then index
    else
      var before := IndexSkills(index, skills[..|skills| - 1], id);
      var s := skills[|skills| - 1];
      before[s := Holders(before, s) + {id}]
  }

  /** Indexing adds the job to the set of each of its skills and touches no other set. */
  lemma {:induction false} IndexSkillsSpec(index: map<string, set<string>>, skills: seq<string>, id: string)
    ensures forall s :: Holders(IndexSkills(index, skills, id), s) == Holders(index, s) + (if s in skills then {id} else {})
    ensures IndexSkills(index, skills, id).Keys == index.Keys + Distinct(skills)
    decreases |skills|
  {
    if skills != [] {
      var init := skills[..|skills| - 1];
      IndexSkillsSpec(index, init, id);
      DistinctSpec(skills);
      DistinctSpec(init);
      assert skills == init + [skills[|skills| - 1]];
    }
  }

  /** The skills that list `job` in the index: what the index says the job requires. */
  function Needed(index: map<string, set<string>>, job: string): set<string> {
    set s | s in index.Keys && job in index[s]
  }

  /** Every indexed job's requirement count is the number of skill sets that list it. */
  ghost predicate Consistent(index: map<string, set<string>>, required: ZSet) {
    forall j :: Score(required, j).Some? ==> Score(required, j).value == |Needed(index, j)|
  }

  /** What index_job leaves the index needing for its own job and for every other one. */
  lemma IndexSkillsNeeded(index: map<string, set<string>>, skills: seq<string>, id: string, j: string)
    requires forall s :: id !in Holders(index, s)
    ensures Needed(IndexSkills(index, skills, id), j) == if j == id then Distinct(skills) else Needed(index, j)
  {
    IndexSkillsSpec(index, skills, id);
    DistinctSpec(skills);
    var after := IndexSkills(index, skills, id);
    forall s ensures s in Needed(after, j) <==> s in (if j == id then Distinct(skills) else Needed(index, j)) {
      assert s in after.Keys ==> after[s] == Holders(after, s);
      assert s in index.Keys ==> index[s] == Holders(index, s);
    }
  }

  /** Indexing a job that no skill set lists yet keeps every requirement count right. */
  lemma IndexJobConsistent(index: map<string, set<string>>, required: ZSet, skills: seq<string>, id: string)
    requires Consistent(index, required)
    requires forall s :: id !in Holders(index, s)
    ensures Consistent(IndexSkills(index, skills, id), Add(required, id, |Distinct(skills)|))
  {
    AddSpec(required, id, |Distinct(skills)|);
    forall j | Score(Add(required, id, |Distinct(skills)|), j).Some?
      ensures Score(Add(required, id, |Distinct(skills)|), j).value == |Needed(IndexSkills(index, skills, id), j)|
    {
      IndexSkillsNeeded(index, skills, id, j);
    }
  }

  // ---------------------------------------------------------------------------------------------
  // find_jobs

  /**
   * The score ZUNIONSTORE gives `job` over the sets idx:skill:<s>, one for each distinct skill of
   * the candidate, each with weight 1: a set member counts 1, so the score is the number of the
   * candidate's skills whose set lists the job. The job is in the union when the score is positive.
   */
  function UnionScore(index: map<string, set<string>>, candidate: set<string>, job: string): nat {
    |set s | s in candidate && job in Holders(index, s)|
  }

  /**
   * ZINTERSTORE of the union (weight -1) with idx:jobs:req (weight 1): a job in both gets its
   * requirement count minus its union score.
   */
  function Shortfall(index: map<string, set<string>>, candidate: set<string>, required: ZSet): ZSet
    decreases |required|
  {
    if required == [] then []
    else
      var rest := Shortfall(index, candidate, required[1..]);
      var e := required[0];
      var u := UnionScore(index, candidate, e.member);
      if u > 0 then Add(rest, e.member, e.score - u) else rest
  }

  /** find_jobs: ZRANGEBYSCORE 0 0 of the intersection. Without skills the union has no key: None. */
  function FindJobs(index: map<string, set<string>>, required: ZSet, candidate: seq<string>): Option<seq<string>> {
    if candidate == [] then None
    else Some(RangeByScore(Shortfall(index, Distinct(candidate), required), 0, 0))
  }

  /** The intersection holds exactly the jobs in both inputs, with the weighted sum of their scores. */
  lemma {:induction false} ShortfallSpec(index: map<string, set<string>>, candidate: set<string>, required: ZSet)
    ensures forall j ::
              Score(Shortfall(index, candidate, required), j) ==
                if Score(required, j).Some? && UnionScore(index, candidate, j) > 0
                then Some(Score(required, j).value - UnionScore(index, candidate, j))
                else None
    ensures Valid(Shortfall(index, candidate, required))
    decreases |required|
  {
    if required != [] {
      ShortfallSpec(index, candidate, required[1..]);
      var rest := Shortfall(index, candidate, required[1..]);
      var e := required[0];
      AddSpec(rest, e.member, e.score - UnionScore(index, candidate, e.member));
    }
  }

  /**
   * find_jobs returns, in member order, exactly the jobs in idx:jobs:req that are in the union and
   * whose requirement count equals their union score.
   */
  lemma FindJobsSpec(index: map<string, set<string>>, required: ZSet, candidate: seq<string>)
    requires candidate != []
    ensures forall j :: j in FindJobs(index, required, candidate).value <==>
      (Score(required, j).Some? && UnionScore(index, Distinct(candidate), j) > 0 &&
       Score(required, j).value == UnionScore(index, Distinct(candidate), j))
    ensures forall i, k :: 0 <= i < k < |FindJobs(index, required, candidate).value| ==>
      Text.Less(FindJobs(index, required, candidate).value[i], FindJobs(index, required, candidate).value[k])
  {
    var z := Shortfall(index, Distinct(candidate), required);
    ShortfallSpec(index, Distinct(candidate), required);
    RangeByScoreSpec(z, 0, 0);
    RangeByScoreTies(z, 0);
  }

  /** The candidate's skills that a job needs: the union score of a job. */
  lemma UnionScoreNeeded(index: map<string, set<string>>, candidate: set<string>, job: string)
    ensures UnionScore(index, candidate, job) == |candidate * Needed(index, job)|
  {
    var a := set s | s in candidate && job in Holders(index, s);
    assert a == candidate * Needed(index, job);
  }

  /** A set and its intersection with another have the same size exactly when it is a subset. */
  lemma IntersectionCard(a: set<string>, b: set<string>)
    ensures |a * b| == |b| <==> b <= a
  {
    if !(b <= a) {
      var x :| x in b && x !in a;
      assert b == (a * b) + (b - a);
      assert (a * b) * (b - a) == {};
      assert x in b - a;
    } else {
      assert a * b == b;
    }
  }

  /**
   * On an index built by index_job, find_jobs returns exactly the indexed jobs that require at
   * least one skill and whose every required skill the candidate holds.
   */
  lemma FindJobsQualified(index: map<string, set<string>>, required: ZSet, candidate: seq<string>, j: string)
    requires Consistent(index, required) && candidate != []
    ensures j in FindJobs(index, required, candidate).value <==>
      j in Members(required) && Needed(index, j) != {} && Needed(index, j) <= Distinct(candidate)
  {
    FindJobsSpec(index, required, candidate);
    ScoreIffMember(required, j);
    UnionScoreNeeded(index, Distinct(candidate), j);
    IntersectionCard(Distinct(candidate), Needed(index, j));
    if Needed(index, j) != {} && Needed(index, j) <= Distinct(candidate) {
      assert Distinct(candidate) * Needed(index, j) == Needed(index, j);
    }
  }

  // ---------------------------------------------------------------------------------------------
  // The store

  class JobBoard {
    /** job:<id>: the skills each job requires. */
    var jobs: map<string, set<string>>
    /** idx:skill:<skill>: the jobs requiring each skill. */
    var index: map<string, set<string>>
    /** idx:jobs:req: each indexed job scored by its number of distinct required skills. */
    var required: ZSet

    ghost predicate Valid()
      reads this
    {
      ZSets.Valid(required)
    }

    constructor ()
      ensures jobs == map[] && index == map[] && required == []
      ensures Valid()
    {
      jobs, index, required := map[], map[], [];
    }

    /** add_job: SADD job:<id> with every required skill; an SADD without members is refused. */
    method AddJob(id: string, skills: seq<string>) returns (ok: bool)
      modifies this
      ensures ok == (skills != [])
      ensures jobs == if ok then old(jobs)[id := Holders(old(jobs), id) + Distinct(skills)] else old(jobs)
      ensures index == old(index) && required == old(required)
    {
      ok := skills != [];
      if ok {
        jobs := jobs[id := Holders(jobs, id) + Distinct(skills)];
      }
    }

    /**
     * index_job: one SADD idx:skill:<s> per listed skill, then ZADD idx:jobs:req with the number
     * of distinct skills, all in one MULTI/EXEC pipeline that takes effect at once.
     */
    method IndexJob(id: string, skills: seq<string>)
      requires Valid()
      modifies this
      ensures index == IndexSkills(old(index), skills, id)
      ensures required == Add(old(required), id, |Distinct(skills)|)
      ensures jobs == old(jobs)
      ensures Valid()
    {
      var staged := index;
      var i := 0;
      while i < |skills|
        invariant 0 <= i <= |skills|
        invariant staged == IndexSkills(index, skills[..i], id)
      {
        assert skills[..i + 1][..i] == skills[..i];
        staged := staged[skills[i] := Holders(staged, skills[i]) + {id}];
        i := i + 1;
      }
      assert skills[..|skills|] == skills;
      AddSpec(required, id, |Distinct(skills)|);
      index, required := staged, Add(required, id, |Distinct(skills)|);
    }
  }

  /** A job added with its skills is one a candidate qualifies for exactly when they hold them all. */
  lemma AddedJobQualification(jobs: map<string, set<string>>, id: string, skills: seq<string>, candidate: seq<string>)
    requires id !in jobs && skills != [] && candidate != []
    ensures IsQualified(jobs[id := Distinct(skills)], id, candidate).Some?
    ensures IsQualified(jobs[id := Distinct(skills)], id, candidate).value <==> forall s :: s in skills ==> s in candidate
  {
    IsQualifiedSpec(jobs[id := Distinct(skills)], id, candidate);
    DistinctSpec(skills);
  }
}
