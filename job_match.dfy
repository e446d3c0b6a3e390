/**
 * `calculateJobMatches` (backend/services/jobMatchService.js): every job is
 * scored against the user's preferences and the résumé analysis, the scored
 * jobs are sorted by descending score (stable for ties), and the first ten are
 * returned.
 */
module JobMatch {
  import opened Wrappers
  import opened Strings
  import opened Sequences
  import opened Json
  import opened SalaryMatch

  /** A catalog entry. Missing text fields are the empty string; `other` holds the fields the matcher passes through. */
  datatype Job = Job(title: string, description: string, requirements: string, location: string, salary: string,
                     other: map<string, JsonValue>)

  datatype SalaryRange = SalaryRange(min: int, max: int)

  /** What the user asked for; a missing role or location is the empty string. */
  datatype Preferences = Preferences(preferredRole: string, location: string, salaryRange: Option<SalaryRange>)

  /** The fields of the stored résumé analysis the matcher reads; a missing analysis has no skills and an empty title. */
  datatype Profile = Profile(skills: seq<string>, suggestedTitle: string)

  /** The job with its score and the reasons for it (`{...job, matchScore, matchReasons}`). */
  datatype MatchedJob = MatchedJob(job: Job, matchScore: nat, matchReasons: seq<string>)

  /** One scoring contribution. */
  datatype Reason = TitlePreferred | TitleSuggested | SkillMatch(skill: string) | LocationMatch | SalaryInRange

  const MaxResults := 10
  const SkillPrefix := "Skill match: "

  function Text(r: Reason): string
  {
    match r
    case TitlePreferred => "Title matches preferred role"
    case TitleSuggested => "Title matches AI-suggested role"
    case SkillMatch(skill) => SkillPrefix + skill
    case LocationMatch => "Location match"
    case SalaryInRange => "Salary in range"
  }

  function Weight(r: Reason): nat
  {
    match r
    case TitlePreferred => 3
    case TitleSuggested => 3
    case SkillMatch(_) => 2
    case LocationMatch => 2
    case SalaryInRange => 1
  }

  /** The order in which the rules are evaluated. */
  function Stage(r: Reason): nat
  {
    match r
    case TitlePreferred => 0
    case TitleSuggested => 0
    case SkillMatch(_) => 1
    case LocationMatch => 2
    case SalaryInRange => 3
  }

  function TotalWeight(rs: seq<Reason>): nat
    decreases |rs|
  {
    if rs == [] then 0 else TotalWeight(rs[..|rs| - 1]) + Weight(rs[|rs| - 1])
  }

  function Texts(rs: seq<Reason>): (r: seq<string>)
    ensures |r| == |rs|
  {
    seq(|rs|, i requires 0 <= i < |rs| => Text(rs[i]))
  }

  predicate IsTitleReason(r: Reason)
  {
    r == TitlePreferred || r == TitleSuggested
  }

  // ---------------------------------------------------------------------------
  // The rules

  /** The preferred role takes priority over the suggested title; an empty one never matches. */
  function TitleReasons(job: Job, prefs: Preferences, profile: Profile): seq<Reason>
  {
    var title := Lower(job.title);
    var role := Lower(prefs.preferredRole);
    var suggested := Lower(profile.suggestedTitle);
    if role != [] && Contains(title, role) then [TitlePreferred]
    else if suggested != [] && Contains(title, suggested) then [TitleSuggested]
    else []
  }

  /** The text the skills are looked up in: description, a space, requirements, all lower-cased. */
  function JobText(job: Job): string
  {
    Lower(job.description) + " " + Lower(job.requirements)
  }

  predicate SkillMatches(text: string, skill: string)
  {
    skill != [] && Contains(text, Lower(skill))
  }

  function SkillReasons(text: string, skills: seq<string>): seq<Reason>
    decreases |skills|
  {
    if skills == [] then []
    else
      SkillReasons(text, skills[..|skills| - 1])
        + (if SkillMatches(text, skills[|skills| - 1]) then [SkillMatch(skills[|skills| - 1])] else [])
  }

  predicate LocationMatches(job: Job, prefs: Preferences)
  {
    var jobLocation := Lower(job.location);
    var preferred := Lower(prefs.location);
    preferred != [] && (Contains(jobLocation, preferred) || jobLocation == "remote" || preferred == "remote")
  }

  function LocationReasons(job: Job, prefs: Preferences): seq<Reason>
  {
    if LocationMatches(job, prefs) then [LocationMatch] else []
  }

  /** Both bounds must be truthy, so a bound of 0 disables the rule. */
  predicate SalaryMatches(job: Job, prefs: Preferences)
  {
    match prefs.salaryRange
    case None => false
    case Some(range) => range.min != 0 && range.max != 0 && CheckSalaryMatch(job.salary, range.min, range.max)
  }

  function SalaryReasons(job: Job, prefs: Preferences): seq<Reason>
  {
    if SalaryMatches(job, prefs) then [SalaryInRange] else []
  }

  /** Every contribution for one job, in evaluation order. */
  function Reasons(job: Job, prefs: Preferences, profile: Profile): seq<Reason>
  {
    TitleReasons(job, prefs, profile) + SkillReasons(JobText(job), profile.skills)
      + LocationReasons(job, prefs) + SalaryReasons(job, prefs)
  }

  /** The scored job: the original record, the sum of the weights of its reasons, and their texts. */
  function Score(job: Job, prefs: Preferences, profile: Profile): MatchedJob
  {
    var reasons := Reasons(job, prefs, profile);
    MatchedJob(job, TotalWeight(reasons), Texts(reasons))
  }

  // ---------------------------------------------------------------------------
  // Scoring one job

  /**
   * The body of the `jobs.map` callback: the score and the reasons are
   * accumulated rule by rule, in the order title, skills, location, salary.
   */
  method ScoreJob(job: Job, prefs: Preferences, profile: Profile) returns (m: MatchedJob)
    ensures m == Score(job, prefs, profile)
  {
    var score, reasons := MatchTitle(job, prefs, profile);
    ghost var done := TitleReasons(job, prefs, profile);
    score, reasons := MatchSkills(JobText(job), profile.skills, score, reasons, done);
    done := done + SkillReasons(JobText(job), profile.skills);
    score, reasons := MatchLocation(job, prefs, score, reasons, done);
    done := done + LocationReasons(job, prefs);
    score, reasons := MatchSalary(job, prefs, score, reasons, done);
    done := done + SalaryReasons(job, prefs);
    assert done == Reasons(job, prefs, profile);
    m := MatchedJob(job, score, reasons);
  }

  /** The title rule: three points if the title names the preferred role, else the suggested one. */
  method MatchTitle(job: Job, prefs: Preferences, profile: Profile) returns (score: nat, reasons: seq<string>)
    ensures score == TotalWeight(TitleReasons(job, prefs, profile))
    ensures reasons == Texts(TitleReasons(job, prefs, profile))
  {
    score, reasons := 0, [];
    var jobTitle := Lower(job.title);
    var preferredRole := Lower(prefs.preferredRole);
    var suggestedTitle := Lower(profile.suggestedTitle);
    if preferredRole != [] && Contains(jobTitle, preferredRole) {
      score := score + 3;
      reasons := reasons + [Text(TitlePreferred)];
    } else if suggestedTitle != [] && Contains(jobTitle, suggestedTitle) {
      score := score + 3;
      reasons := reasons + [Text(TitleSuggested)];
    }
  }

  /** The location rule: two points when the locations overlap or either side is remote. */
  method MatchLocation(job: Job, prefs: Preferences, score0: nat, reasons0: seq<string>, ghost done: seq<Reason>)
    returns (score: nat, reasons: seq<string>)
    requires score0 == TotalWeight(done) && reasons0 == Texts(done)
    ensures score == TotalWeight(done + LocationReasons(job, prefs))
    ensures reasons == Texts(done + LocationReasons(job, prefs))
  {
    score, reasons := score0, reasons0;
    var jobLocation := Lower(job.location);
    var preferredLocation := Lower(prefs.location);
    if preferredLocation != [] && (Contains(jobLocation, preferredLocation) || jobLocation == "remote" || preferredLocation == "remote") {
      score := score + 2;
      reasons := reasons + [Text(LocationMatch)];
    }
    Extend(done, LocationReasons(job, prefs));
  }

  /** The salary rule: one point when both bounds are set (non-zero) and the posted figures fit. */
  method MatchSalary(job: Job, prefs: Preferences, score0: nat, reasons0: seq<string>, ghost done: seq<Reason>)
    returns (score: nat, reasons: seq<string>)
    requires score0 == TotalWeight(done) && reasons0 == Texts(done)
    ensures score == TotalWeight(done + SalaryReasons(job, prefs))
    ensures reasons == Texts(done + SalaryReasons(job, prefs))
  {
    score, reasons := score0, reasons0;
    if prefs.salaryRange.Some? && prefs.salaryRange.value.min != 0 && prefs.salaryRange.value.max != 0 {
      var salaryMatch := CheckSalaryMatch(job.salary, prefs.salaryRange.value.min, prefs.salaryRange.value.max);
      if salaryMatch {
        score := score + 1;
        reasons := reasons + [Text(SalaryInRange)];
      }
    }
    Extend(done, SalaryReasons(job, prefs));
  }

  /**
   * The skills loop: every non-empty skill found in the job text adds two
   * points and a reason to what has been accumulated so far.
   */
  method MatchSkills(fullJobText: string, skills: seq<string>, score0: nat, reasons0: seq<string>,
                     ghost done: seq<Reason>) returns (score: nat, reasons: seq<string>)
    requires score0 == TotalWeight(done) && reasons0 == Texts(done)
    ensures score == TotalWeight(done + SkillReasons(fullJobText, skills))
    ensures reasons == Texts(done + SkillReasons(fullJobText, skills))
  {
    score, reasons := score0, reasons0;
    assert done + SkillReasons(fullJobText, skills[..0]) == done;
    for i := 0 to |skills|
      invariant score == TotalWeight(done + SkillReasons(fullJobText, skills[..i]))
      invariant reasons == Texts(done + SkillReasons(fullJobText, skills[..i]))
    {
      var skill := skills[i];
      SkillStep(fullJobText, skills, i, done);
      if skill != [] && Contains(fullJobText, Lower(skill)) {
        score := score + 2;
        reasons := reasons + [Text(SkillMatch(skill))];
      }
    }
    assert skills[..|skills|] == skills;
  }

  /** A rule that contributes at most one reason adds its weight and its text, if any. */
  lemma Extend(acc: seq<Reason>, rule: seq<Reason>)
    requires |rule| <= 1
    ensures rule == [] ==> acc + rule == acc
    ensures rule != [] ==> TotalWeight(acc + rule) == TotalWeight(acc) + Weight(rule[0])
    ensures rule != [] ==> Texts(acc + rule) == Texts(acc) + [Text(rule[0])]
  {
    if rule != [] {
      assert rule == [rule[0]];
      AppendReason(acc, rule[0]);
    }
  }

  /** One iteration of the skills loop, on the accumulated reasons. */
  lemma SkillStep(text: string, skills: seq<string>, i: nat, done: seq<Reason>)
    requires i < |skills|
    ensures var before := done + SkillReasons(text, skills[..i]);
      var after := done + SkillReasons(text, skills[..i + 1]);
      if SkillMatches(text, skills[i])
      then TotalWeight(after) == TotalWeight(before) + 2 && Texts(after) == Texts(before) + [Text(SkillMatch(skills[i]))]
      else after == before
  {
    assert skills[..i + 1][..i] == skills[..i];
    var before := done + SkillReasons(text, skills[..i]);
    if SkillMatches(text, skills[i]) {
      assert done + SkillReasons(text, skills[..i + 1]) == before + [SkillMatch(skills[i])];
      AppendReason(before, SkillMatch(skills[i]));
    } else {
      assert done + SkillReasons(text, skills[..i + 1]) == before;
    }
  }

  lemma {:induction false} TotalWeightConcat(a: seq<Reason>, b: seq<Reason>)
    ensures TotalWeight(a + b) == TotalWeight(a) + TotalWeight(b)
    decreases |b|
  {
    if b == [] {
      assert a + b == a;
    } else {
      assert (a + b)[..|a + b| - 1] == a + b[..|b| - 1];
      TotalWeightConcat(a, b[..|b| - 1]);
    }
  }

  /** One more rule fires: its weight and its text are appended. */
  lemma AppendReason(a: seq<Reason>, x: Reason)
    ensures TotalWeight(a + [x]) == TotalWeight(a) + Weight(x)
    ensures Texts(a + [x]) == Texts(a) + [Text(x)]
  {
    assert (a + [x])[..|a|] == a;
  }

  // ---------------------------------------------------------------------------
  // Sorting by descending score

  predicate SortedByScore(s: seq<MatchedJob>)
  {
    forall i, j :: 0 <= i < j < |s| ==> s[i].matchScore >= s[j].matchScore
  }

  /** The jobs of `s` with score `k`, in their order in `s`. */
  function Tier(s: seq<MatchedJob>, k: nat): seq<MatchedJob>
  {
    Filter((m: MatchedJob) => m.matchScore == k, s)
  }

  /** Places `x` after the last element whose score is at least its own. */
  function Insert(t: seq<MatchedJob>, x: MatchedJob): (r: seq<MatchedJob>)
    ensures |r| == |t| + 1
    decreases |t|
  {
    if t == [] || t[|t| - 1].matchScore >= x.matchScore then t + [x]
    else Insert(t[..|t| - 1], x) + [t[|t| - 1]]
  }

  /**
   * A stable sort by descending score (the comparator `b.matchScore -
   * a.matchScore`): each element is inserted into the sorted prefix before it.
   */
  function SortByScore(s: seq<MatchedJob>): (r: seq<MatchedJob>)
    ensures |r| == |s|
    ensures SortedByScore(r)
    ensures multiset(r) == multiset(s)
    decreases |s|
  {
    if s == [] then []
    else
      var init, last := s[..|s| - 1], s[|s| - 1];
      var sorted := SortByScore(init);
      InsertSorted(sorted, last);
      InsertMultiset(sorted, last);
      assert s == init + [last];
      Insert(sorted, last)
  }

  lemma {:induction false} InsertSorted(t: seq<MatchedJob>, x: MatchedJob)
    requires SortedByScore(t)
    ensures SortedByScore(Insert(t, x))
    decreases |t|
  {
    if t == [] || t[|t| - 1].matchScore >= x.matchScore {
    } else {
      var init, last := t[..|t| - 1], t[|t| - 1];
      InsertSorted(init, x);
      InsertLowerBound(init, x, last.matchScore);
    }
  }

  /** Inserting never brings in a score below those of `t` and `x`. */
  lemma {:induction false} InsertLowerBound(t: seq<MatchedJob>, x: MatchedJob, m: nat)
    requires forall i :: 0 <= i < |t| ==> t[i].matchScore >= m
    requires x.matchScore >= m
    ensures forall i :: 0 <= i < |t| + 1 ==> Insert(t, x)[i].matchScore >= m
    decreases |t|
  {
    if t != [] && t[|t| - 1].matchScore < x.matchScore {
      InsertLowerBound(t[..|t| - 1], x, m);
    }
  }

  lemma {:induction false} InsertMultiset(t: seq<MatchedJob>, x: MatchedJob)
    ensures multiset(Insert(t, x)) == multiset(t) + multiset{x}
    decreases |t|
  {
    if t == [] || t[|t| - 1].matchScore >= x.matchScore {
    } else {
      InsertMultiset(t[..|t| - 1], x);
      assert t == t[..|t| - 1] + [t[|t| - 1]];
    }
  }

  /** Appending one job adds it to its own tier and to no other. */
  lemma TierSnoc(s: seq<MatchedJob>, x: MatchedJob, k: nat)
    ensures Tier(s + [x], k) == Tier(s, k) + (if x.matchScore == k then [x] else [])
  {
    FilterConcat((m: MatchedJob) => m.matchScore == k, s, [x]);
    assert [x][1..] == [];
  }

  lemma {:induction false} InsertTier(t: seq<MatchedJob>, x: MatchedJob, k: nat)
    ensures Tier(Insert(t, x), k) == Tier(t + [x], k)
    decreases |t|
  {
    if t != [] && t[|t| - 1].matchScore < x.matchScore {
      var init, last := t[..|t| - 1], t[|t| - 1];
      InsertTier(init, x, k);
      TierSnoc(Insert(init, x), last, k);
      TierSnoc(init, x, k);
      TierSnoc(init, last, k);
      assert t == init + [last];
      TierSnoc(t, x, k);
    }
  }

  /** Jobs with equal scores keep their relative order. */
  lemma {:induction false} SortStable(s: seq<MatchedJob>, k: nat)
    ensures Tier(SortByScore(s), k) == Tier(s, k)
    decreases |s|
  {
    if s != [] {
      var init, last := s[..|s| - 1], s[|s| - 1];
      SortStable(init, k);
      InitLast(s);
      StableStep(SortByScore(init), init, last, k);
    }
  }

  /** Inserting into a sorted prefix with the same tier appends to the tier, as appending would. */
  lemma StableStep(sorted: seq<MatchedJob>, init: seq<MatchedJob>, last: MatchedJob, k: nat)
    requires Tier(sorted, k) == Tier(init, k)
    ensures Tier(Insert(sorted, last), k) == Tier(init + [last], k)
  {
    InsertTier(sorted, last, k);
    TierSnoc(sorted, last, k);
    TierSnoc(init, last, k);
  }

  lemma TierOfLast(s: seq<MatchedJob>)
    ensures s != [] ==> s[|s| - 1] in Tier(s, s[|s| - 1].matchScore)
  {
    if s != [] {
      assert s[|s| - 1] in s;
    }
  }

  /** The last job of a sorted sequence has the lowest score, hence a member of `s` scores at least as much. */
  lemma LastIsLowest(s: seq<MatchedJob>, x: MatchedJob)
    requires SortedByScore(s) && s != [] && x in s
    ensures x.matchScore >= s[|s| - 1].matchScore
  {
  }

  lemma SortedInit(s: seq<MatchedJob>)
    requires SortedByScore(s) && s != []
    ensures SortedByScore(s[..|s| - 1])
  {
  }

  /** Only the empty sequence has no job in any tier. */
  lemma EmptyTiers(a: seq<MatchedJob>, b: seq<MatchedJob>)
    requires a == [] || b == []
    requires forall k :: Tier(a, k) == Tier(b, k)
    ensures a == b
  {
    TierOfLast(a);
    TierOfLast(b);
    if a != [] || b != [] {
      assert false;
    }
  }

  /** Sorted sequences with the same tiers end with the same job. */
  lemma SameLast(a: seq<MatchedJob>, b: seq<MatchedJob>)
    requires SortedByScore(a) && SortedByScore(b) && a != [] && b != []
    requires forall k :: Tier(a, k) == Tier(b, k)
    ensures a[|a| - 1].matchScore == b[|b| - 1].matchScore
  {
    var x, y := a[|a| - 1], b[|b| - 1];
    TierOfLast(a);
    TierOfLast(b);
    assert x in Tier(b, x.matchScore);
    assert y in Tier(a, y.matchScore);
    LastIsLowest(b, x);
    LastIsLowest(a, y);
  }

  /** Removing the last job, of the same score, from two sequences with the same tiers leaves the same tiers. */
  lemma SameTiersOfInit(a: seq<MatchedJob>, x: MatchedJob, b: seq<MatchedJob>, y: MatchedJob)
    requires x.matchScore == y.matchScore
    requires forall k :: Tier(a + [x], k) == Tier(b + [y], k)
    ensures x == y
    ensures forall k :: Tier(a, k) == Tier(b, k)
  {
    forall k
      ensures Tier(a, k) == Tier(b, k)
    {
      TierSnoc(a, x, k);
      TierSnoc(b, y, k);
      if k == x.matchScore {
        var ta, tb := Tier(a, k), Tier(b, k);
        assert ta + [x] == tb + [y];
        assert ta == (ta + [x])[..|ta|] && tb == (tb + [y])[..|tb|];
      } else {
        assert Tier(a, k) + [] == Tier(a, k) && Tier(b, k) + [] == Tier(b, k);
      }
    }
    var k := x.matchScore;
    TierSnoc(a, x, k);
    TierSnoc(b, y, k);
    var ta, tb := Tier(a, k), Tier(b, k);
    assert ta + [x] == tb + [y];
    assert x == (ta + [x])[|ta|] && y == (tb + [y])[|tb|];
  }

  /**
   * A sequence sorted by descending score is determined by its tiers: two
   * stable sorts of the same jobs agree, so any stable sort (the one the
   * runtime provides included) gives `SortByScore`'s result.
   */
  lemma {:induction false} SortUnique(a: seq<MatchedJob>, b: seq<MatchedJob>)
    requires SortedByScore(a) && SortedByScore(b)
    requires forall k :: Tier(a, k) == Tier(b, k)
    ensures a == b
    decreases |a| + |b|
  {
    if a == [] || b == [] {
      EmptyTiers(a, b);
    } else {
      SameLast(a, b);
      var a', b' := a[..|a| - 1], b[..|b| - 1];
      SortedInit(a);
      SortedInit(b);
      InitLast(a);
      InitLast(b);
      SameTiersOfInit(a', a[|a| - 1], b', b[|b| - 1]);
      SortUnique(a', b');
    }
  }

  /** Sorted, and every tier in its original order: exactly `SortByScore`. */
  lemma StableSortIsSortByScore(s: seq<MatchedJob>, r: seq<MatchedJob>)
    requires SortedByScore(r)
    requires forall k :: Tier(r, k) == Tier(s, k)
    ensures r == SortByScore(s)
  {
    forall k
      ensures Tier(r, k) == Tier(SortByScore(s), k)
    {
      SortStable(s, k);
    }
    SortUnique(r, SortByScore(s));
  }

  /**
   * `matchedJobs.sort((a, b) => b.matchScore - a.matchScore)`, in place: a
   * stable insertion sort, each job moved left past the lower-scored ones.
   */
  method SortInPlace(a: array<MatchedJob>)
    modifies a
    ensures a[..] == SortByScore(old(a[..]))
  {
    ghost var input := a[..];
    for i := 0 to a.Length
      invariant a[..i] == SortByScore(input[..i])
      invariant a[i..] == input[i..]
    {
      InsertAt(a, i);
      assert input[..i + 1][..i] == input[..i];
      assert a[i + 1..] == input[i + 1..];
    }
    assert input[..a.Length] == input;
  }

  /** Inserts `a[i]` into the prefix `a[..i]`, moving lower-scored jobs one place right. */
  method InsertAt(a: array<MatchedJob>, i: nat)
    requires i < a.Length
    modifies a
    ensures a[..i + 1] == Insert(old(a[..i]), old(a[i]))
    ensures a[i + 1..] == old(a[i + 1..])
  {
    var x := a[i];
    ghost var sorted := a[..i];
    var j := i;
    while j > 0 && a[j - 1].matchScore < x.matchScore
      invariant 0 <= j <= i
      invariant forall k :: 0 <= k < j ==> a[k] == sorted[k]
      invariant forall k :: j < k <= i ==> a[k] == sorted[k - 1]
      invariant forall k :: i < k < a.Length ==> a[k] == old(a[k])
      invariant forall k :: j <= k < i ==> sorted[k].matchScore < x.matchScore
    {
      a[j] := a[j - 1];
      j := j - 1;
    }
    a[j] := x;
    InsertSplit(sorted, x, j);
    Shifted(a[..i + 1], sorted, x, j);
  }

  /** The array prefix after the shifting loop, element by element, is `sorted` with `x` placed at `j`. */
  lemma Shifted(b: seq<MatchedJob>, sorted: seq<MatchedJob>, x: MatchedJob, j: nat)
    requires |b| == |sorted| + 1 && j <= |sorted|
    requires forall k :: 0 <= k < j ==> b[k] == sorted[k]
    requires b[j] == x
    requires forall k :: j < k < |b| ==> b[k] == sorted[k - 1]
    ensures b == sorted[..j] + [x] + sorted[j..]
  {
  }

  /**
   * Where the insertion stops: after the jobs scoring at least `x`, before a
   * run of lower-scored ones.
   */
  lemma {:induction false} InsertSplit(sorted: seq<MatchedJob>, x: MatchedJob, j: nat)
    requires j <= |sorted| && (j == 0 || sorted[j - 1].matchScore >= x.matchScore)
    requires forall k :: j <= k < |sorted| ==> sorted[k].matchScore < x.matchScore
    ensures Insert(sorted, x) == sorted[..j] + [x] + sorted[j..]
    decreases |sorted|
  {
    if j == |sorted| {
      assert sorted[..j] == sorted && sorted[j..] == [];
    } else {
      var init, last := sorted[..|sorted| - 1], sorted[|sorted| - 1];
      InsertSplit(init, x, j);
      assert init[..j] == sorted[..j];
      assert init[j..] + [last] == sorted[j..];
    }
  }

  // ---------------------------------------------------------------------------
  // The service entry point

  /** `jobs.map(...)`: every job scored, in catalog order. */
  function ScoreAll(jobs: seq<Job>, prefs: Preferences, profile: Profile): (r: seq<MatchedJob>)
    ensures |r| == |jobs|
    ensures forall i :: 0 <= i < |jobs| ==> r[i] == Score(jobs[i], prefs, profile)
  {
    seq(|jobs|, i requires 0 <= i < |jobs| => Score(jobs[i], prefs, profile))
  }

  /** The first `MaxResults` of the scored jobs after the stable sort. */
  function TopMatches(jobs: seq<Job>, prefs: Preferences, profile: Profile): seq<MatchedJob>
  {
    var sorted := SortByScore(ScoreAll(jobs, prefs, profile));
    sorted[..Min(MaxResults, |sorted|)]
  }

  /**
   * `calculateJobMatches`: a value that is not an array (`None`) gives the
   * empty list; otherwise the scored jobs, sorted, cut to ten.
   */
  method CalculateJobMatches(jobs: Option<seq<Job>>, prefs: Preferences, profile: Profile)
    returns (r: seq<MatchedJob>)
    ensures jobs.None? ==> r == []
    ensures jobs.Some? ==> r == TopMatches(jobs.value, prefs, profile)
  {
    if jobs.None? {
      return [];
    }
    var matchedJobs := ScoreJobs(jobs.value, prefs, profile);
    SortInPlace(matchedJobs);
    r := matchedJobs[..Min(MaxResults, matchedJobs.Length)];
  }

  /** `jobs.map(job => ...)`, into a fresh array for the in-place sort. */
  method ScoreJobs(jobs: seq<Job>, prefs: Preferences, profile: Profile) returns (matchedJobs: array<MatchedJob>)
    ensures fresh(matchedJobs)
    ensures matchedJobs[..] == ScoreAll(jobs, prefs, profile)
  {
    var scored: seq<MatchedJob> := [];
    for i := 0 to |jobs|
      invariant |scored| == i
      invariant forall k :: 0 <= k < i ==> scored[k] == Score(jobs[k], prefs, profile)
    {
      var m := ScoreJob(jobs[i], prefs, profile);
      scored := scored + [m];
    }
    matchedJobs := new MatchedJob[|scored|](k requires 0 <= k < |scored| => scored[k]);
  }
}
