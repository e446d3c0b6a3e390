/**
 * What `calculateJobMatches` (backend/services/jobMatchService.js) promises
 * about a scored job and about the list it returns: the reason texts account
 * for the score, they come in rule order, each rule fires exactly when its
 * condition holds, and the result is the ten best jobs in a stable order.
 */
module JobMatchProperties {
  import opened Strings
  import opened Sequences
  import opened SalaryMatch
  import opened JobMatch

  // ---------------------------------------------------------------------------
  // Reading the reasons back

  /** The first two characters of a reason text name its rule; the fifteenth tells the two title rules apart. */
  lemma TextTag(r: Reason)
    ensures |Text(r)| >= 2
    ensures Text(r)[0] == (if IsTitleReason(r) then 'T' else if r.LocationMatch? then 'L' else 'S')
    ensures Text(r)[1] == (if IsTitleReason(r) then 'i' else if r.LocationMatch? then 'o' else if r.SkillMatch? then 'k' else 'a')
    ensures IsTitleReason(r) ==> |Text(r)| > 14 && Text(r)[14] == (if r == TitlePreferred then 'p' else 'A')
  {
  }

  /** Different reasons have different texts, so the reason list can be read back from `matchReasons`. */
  lemma TextInjective(a: Reason, b: Reason)
    ensures Text(a) == Text(b) <==> a == b
  {
    if Text(a) == Text(b) {
      TextTag(a);
      TextTag(b);
      if a.SkillMatch? && b.SkillMatch? {
        assert a.skill == Text(a)[|SkillPrefix|..];
        assert b.skill == Text(b)[|SkillPrefix|..];
      }
    }
  }

  /** The points a reason text stands for, read off the text alone. */
  function TextWeight(t: string): nat
  {
    if t == "Title matches preferred role" || t == "Title matches AI-suggested role" then 3
    else if StartsWith(t, "Skill match: ") || t == "Location match" then 2
    else if t == "Salary in range" then 1
    else 0
  }

  function SumWeights(ts: seq<string>): nat
    decreases |ts|
  {
    if ts == [] then 0 else SumWeights(ts[..|ts| - 1]) + TextWeight(ts[|ts| - 1])
  }

  lemma TextWeightOfReason(r: Reason)
    ensures TextWeight(Text(r)) == Weight(r)
  {
    TextTag(r);
    if r.SkillMatch? {
      assert Text(r)[..|SkillPrefix|] == SkillPrefix;
    }
  }

  lemma {:induction false} SumWeightsOfTexts(rs: seq<Reason>)
    ensures SumWeights(Texts(rs)) == TotalWeight(rs)
    decreases |rs|
  {
    if rs != [] {
      var init := rs[..|rs| - 1];
      SumWeightsOfTexts(init);
      assert Texts(rs)[..|rs| - 1] == Texts(init);
      TextWeightOfReason(rs[|rs| - 1]);
    }
  }

  /** The score is the sum of the points of the reasons given for it, and the job record is passed through unchanged. */
  lemma ScoreIsSumOfReasons(job: Job, prefs: Preferences, profile: Profile)
    ensures var m := Score(job, prefs, profile);
      m.matchScore == SumWeights(m.matchReasons) && m.job == job
  {
    SumWeightsOfTexts(Reasons(job, prefs, profile));
  }

  // ---------------------------------------------------------------------------
  // The order of the reasons

  lemma {:induction false} SkillReasonsAreSkills(text: string, skills: seq<string>)
    ensures forall i :: 0 <= i < |SkillReasons(text, skills)| ==> SkillReasons(text, skills)[i].SkillMatch?
    decreases |skills|
  {
    if skills != [] {
      SkillReasonsAreSkills(text, skills[..|skills| - 1]);
    }
  }

  /** Where each rule's reasons sit in the list: the title reason first, then skills, location and salary. */
  lemma ReasonStages(job: Job, prefs: Preferences, profile: Profile)
    ensures var t, s, l := |TitleReasons(job, prefs, profile)|, |SkillReasons(JobText(job), profile.skills)|,
        |LocationReasons(job, prefs)|;
      var rs := Reasons(job, prefs, profile);
      t <= 1 && forall i :: 0 <= i < |rs| ==>
        Stage(rs[i]) == (if i < t then 0 else if i < t + s then 1 else if i < t + s + l then 2 else 3)
  {
    var title, skills := TitleReasons(job, prefs, profile), SkillReasons(JobText(job), profile.skills);
    var location, salary := LocationReasons(job, prefs), SalaryReasons(job, prefs);
    var rs := Reasons(job, prefs, profile);
    SkillReasonsAreSkills(JobText(job), profile.skills);
    forall i | 0 <= i < |rs|
      ensures Stage(rs[i]) == (if i < |title| then 0 else if i < |title| + |skills| then 1
        else if i < |title| + |skills| + |location| then 2 else 3)
    {
      if i < |title| {
        assert rs[i] == title[i];
      } else if i < |title| + |skills| {
        assert rs[i] == skills[i - |title|];
      } else if i < |title| + |skills| + |location| {
        assert rs[i] == location[i - |title| - |skills|];
      } else {
        assert rs[i] == salary[i - |title| - |skills| - |location|];
      }
    }
  }

  /** Reasons are listed in the order the rules run: title, skills, location, salary. */
  lemma ReasonsInOrder(job: Job, prefs: Preferences, profile: Profile)
    ensures var rs := Reasons(job, prefs, profile);
      forall i, j :: 0 <= i < j < |rs| ==> Stage(rs[i]) <= Stage(rs[j])
  {
    ReasonStages(job, prefs, profile);
  }

  // ---------------------------------------------------------------------------
  // The title rule

  predicate IsTitleText(t: string)
  {
    t == "Title matches preferred role" || t == "Title matches AI-suggested role"
  }

  lemma TitleTextOfReason(r: Reason)
    ensures IsTitleText(Text(r)) <==> IsTitleReason(r)
    ensures Text(r) == "Title matches preferred role" <==> r == TitlePreferred
    ensures Text(r) == "Title matches AI-suggested role" <==> r == TitleSuggested
  {
    TextInjective(r, TitlePreferred);
    TextInjective(r, TitleSuggested);
  }

  /** A title reason can only be the first reason, and only when the title rule fired. */
  lemma TitleReasonFirst(job: Job, prefs: Preferences, profile: Profile, i: nat)
    requires i < |Reasons(job, prefs, profile)| && IsTitleReason(Reasons(job, prefs, profile)[i])
    ensures i == 0 && TitleReasons(job, prefs, profile) == [Reasons(job, prefs, profile)[0]]
  {
    ReasonStages(job, prefs, profile);
    assert Reasons(job, prefs, profile)[0] == TitleReasons(job, prefs, profile)[0];
  }

  /**
   * At most one title reason is given. The preferred role wins when the title
   * names both; an empty role or suggested title never matches, and a
   * suggested-title reason means the preferred role did not match.
   */
  lemma TitleRules(job: Job, prefs: Preferences, profile: Profile)
    ensures var texts := Score(job, prefs, profile).matchReasons;
      var title, role, suggested := Lower(job.title), Lower(prefs.preferredRole), Lower(profile.suggestedTitle);
      && (forall i, j :: 0 <= i < j < |texts| ==> !(IsTitleText(texts[i]) && IsTitleText(texts[j])))
      && (prefs.preferredRole != [] && Contains(title, role) ==>
            texts != [] && texts[0] == "Title matches preferred role" && "Title matches AI-suggested role" !in texts)
      && ("Title matches preferred role" in texts ==> prefs.preferredRole != [] && Contains(title, role))
      && ("Title matches AI-suggested role" in texts ==>
            profile.suggestedTitle != [] && Contains(title, suggested) && !(prefs.preferredRole != [] && Contains(title, role)))
      && (!(prefs.preferredRole != [] && Contains(title, role)) && profile.suggestedTitle != [] && Contains(title, suggested) ==>
            texts != [] && texts[0] == "Title matches AI-suggested role")
  {
    var rs := Reasons(job, prefs, profile);
    var texts := Texts(rs);
    forall i | 0 <= i < |texts| && IsTitleText(texts[i])
      ensures i == 0 && TitleReasons(job, prefs, profile) == [rs[0]] && texts[0] == Text(rs[0])
    {
      TitleTextOfReason(rs[i]);
      TitleReasonFirst(job, prefs, profile, i);
    }
    TitleTextOfReason(TitlePreferred);
    TitleTextOfReason(TitleSuggested);
    if prefs.preferredRole != [] && Contains(Lower(job.title), Lower(prefs.preferredRole)) {
      assert rs[0] == TitlePreferred;
    } else if profile.suggestedTitle != [] && Contains(Lower(job.title), Lower(profile.suggestedTitle)) {
      assert rs[0] == TitleSuggested;
    }
  }

  // ---------------------------------------------------------------------------
  // The skills rule

  /** The skills of `skills` the rule sees in the job text, in order, duplicates included. */
  function MatchingSkills(text: string, skills: seq<string>): seq<string>
  {
    Filter((s: string) => SkillMatches(text, s), skills)
  }

  function SkillMatchesOf(ss: seq<string>): (r: seq<Reason>)
    ensures |r| == |ss|
  {
    seq(|ss|, i requires 0 <= i < |ss| => SkillMatch(ss[i]))
  }

  /** One "Skill match" reason per non-empty skill found in the text, in the order of `skills`, with no cap. */
  lemma {:induction false} SkillReasonsOfMatching(text: string, skills: seq<string>)
    ensures SkillReasons(text, skills) == SkillMatchesOf(MatchingSkills(text, skills))
    decreases |skills|
  {
    if skills != [] {
      var init, last := skills[..|skills| - 1], skills[|skills| - 1];
      SkillReasonsOfMatching(text, init);
      InitLast(skills);
      FilterConcat((s: string) => SkillMatches(text, s), init, [last]);
      MatchingSkillsOfOne(text, last);
      SkillMatchesOfConcat(MatchingSkills(text, init), MatchingSkills(text, [last]));
    }
  }

  lemma MatchingSkillsOfOne(text: string, skill: string)
    ensures MatchingSkills(text, [skill]) == if SkillMatches(text, skill) then [skill] else []
  {
    assert [skill][1..] == [];
  }

  lemma SkillMatchesOfConcat(a: seq<string>, b: seq<string>)
    ensures SkillMatchesOf(a + b) == SkillMatchesOf(a) + SkillMatchesOf(b)
  {
  }

  lemma {:induction false} SkillWeights(ss: seq<string>)
    ensures TotalWeight(SkillMatchesOf(ss)) == 2 * |ss|
    decreases |ss|
  {
    if ss != [] {
      SkillWeights(ss[..|ss| - 1]);
      assert SkillMatchesOf(ss)[..|ss| - 1] == SkillMatchesOf(ss[..|ss| - 1]);
    }
  }

  /**
   * The score is three for a title match, two per matching skill, two for the
   * location and one for the salary; so it never exceeds 6 + 2 |skills|.
   */
  lemma ScoreBreakdown(job: Job, prefs: Preferences, profile: Profile)
    ensures var m := Score(job, prefs, profile);
      && m.matchScore == 3 * |TitleReasons(job, prefs, profile)| + 2 * |MatchingSkills(JobText(job), profile.skills)|
           + 2 * |LocationReasons(job, prefs)| + |SalaryReasons(job, prefs)|
      && m.matchScore <= 6 + 2 * |profile.skills|
  {
    var title, skills := TitleReasons(job, prefs, profile), SkillReasons(JobText(job), profile.skills);
    var location, salary := LocationReasons(job, prefs), SalaryReasons(job, prefs);
    TotalWeightConcat(title + skills + location, salary);
    TotalWeightConcat(title + skills, location);
    TotalWeightConcat(title, skills);
    SkillReasonsOfMatching(JobText(job), profile.skills);
    SkillWeights(MatchingSkills(JobText(job), profile.skills));
    RuleWeights(job, prefs, profile);
  }

  /** The title, location and salary rules each add at most one reason, of weight 3, 2 and 1. */
  lemma RuleWeights(job: Job, prefs: Preferences, profile: Profile)
    ensures TotalWeight(TitleReasons(job, prefs, profile)) == 3 * |TitleReasons(job, prefs, profile)| <= 3
    ensures TotalWeight(LocationReasons(job, prefs)) == 2 * |LocationReasons(job, prefs)| <= 2
    ensures TotalWeight(SalaryReasons(job, prefs)) == |SalaryReasons(job, prefs)| <= 1
  {
    OneReasonWeight(TitleReasons(job, prefs, profile), TitlePreferred, TitleSuggested);
    OneReasonWeight(LocationReasons(job, prefs), LocationMatch, LocationMatch);
    OneReasonWeight(SalaryReasons(job, prefs), SalaryInRange, SalaryInRange);
  }

  /** A rule that gives at most one of two reasons of one weight weighs that weight for each. */
  lemma OneReasonWeight(rs: seq<Reason>, a: Reason, b: Reason)
    requires Weight(a) == Weight(b)
    requires rs == [] || rs == [a] || rs == [b]
    ensures TotalWeight(rs) == Weight(a) * |rs| && |rs| <= 1
  {
    if rs != [] { assert rs[..0] == []; }
  }


  // ---------------------------------------------------------------------------
  // The location and salary rules

  /**
   * The location rule never fires without a preferred location; it fires when
   * the job location contains the preferred one (in particular when the two
   * agree), when the job is remote and when the preference is remote, ignoring
   * case, and in no other case.
   */
  lemma LocationRules(job: Job, prefs: Preferences)
    ensures prefs.location == [] ==> LocationReasons(job, prefs) == []
    ensures prefs.location != [] && Contains(Lower(job.location), Lower(prefs.location)) ==>
      LocationReasons(job, prefs) == [LocationMatch]
    ensures LocationReasons(job, prefs) != [] ==>
      && prefs.location != []
      && (Contains(Lower(job.location), Lower(prefs.location)) || Lower(job.location) == "remote" || Lower(prefs.location) == "remote")
    ensures prefs.location != [] && Lower(job.location) == "remote" ==> LocationReasons(job, prefs) == [LocationMatch]
    ensures Lower(prefs.location) == "remote" ==> LocationReasons(job, prefs) == [LocationMatch]
    ensures prefs.location != [] && Lower(job.location) == Lower(prefs.location) ==>
      LocationReasons(job, prefs) == [LocationMatch]
  {
    var l := Lower(job.location);
    assert l[..|l|] == l;
  }

  /**
   * The salary rule needs a range with both bounds non-zero and a salary with
   * a figure in it; for a well-formed range it fires exactly when some amount
   * lies in the range and between the smallest and largest figure posted.
   */
  lemma SalaryRules(job: Job, prefs: Preferences)
    ensures prefs.salaryRange.None? ==> SalaryReasons(job, prefs) == []
    ensures prefs.salaryRange.Some? && (prefs.salaryRange.value.min == 0 || prefs.salaryRange.value.max == 0) ==>
      SalaryReasons(job, prefs) == []
    ensures NoDigit(job.salary) ==> SalaryReasons(job, prefs) == []
    ensures prefs.salaryRange.Some? ==>
      var range, values := prefs.salaryRange.value, SalaryValues(job.salary);
      range.min != 0 && range.max != 0 && range.min <= range.max ==>
        (SalaryReasons(job, prefs) == [SalaryInRange] <==>
           values != [] && exists x :: InRange(x, range.min, range.max) && InRange(x, SeqMin(values), SeqMax(values)))
  {
    if prefs.salaryRange.Some? && prefs.salaryRange.value.min <= prefs.salaryRange.value.max {
      SalaryMatchIsOverlap(job.salary, prefs.salaryRange.value.min, prefs.salaryRange.value.max);
    }
  }

  // ---------------------------------------------------------------------------
  // The returned list

  /** The first `MaxResults` jobs of a sequence after the stable sort. */
  function Top(s: seq<MatchedJob>): (r: seq<MatchedJob>)
  {
    SortByScore(s)[..Min(MaxResults, |s|)]
  }

  lemma TopIsTopMatches(jobs: seq<Job>, prefs: Preferences, profile: Profile)
    ensures TopMatches(jobs, prefs, profile) == Top(ScoreAll(jobs, prefs, profile))
  {
  }

  /** Ten jobs, or all of them if fewer; sorted by descending score; each one taken from `s`. */
  lemma TopShape(s: seq<MatchedJob>)
    ensures |Top(s)| == Min(MaxResults, |s|)
    ensures SortedByScore(Top(s))
    ensures multiset(Top(s)) <= multiset(s)
  {
    var sorted := SortByScore(s);
    var n := Min(MaxResults, |sorted|);
    assert sorted == sorted[..n] + sorted[n..];
  }

  /** No job left out of the ten scores more than a job kept. */
  lemma TopIsBest(s: seq<MatchedJob>)
    ensures forall x, y :: x in Top(s) && y in multiset(s) - multiset(Top(s)) ==> x.matchScore >= y.matchScore
  {
    var sorted := SortByScore(s);
    var n := Min(MaxResults, |sorted|);
    SplitBest(sorted, n);
    SplitMultiset(sorted, n);
  }

  lemma SplitBest(sorted: seq<MatchedJob>, n: nat)
    requires SortedByScore(sorted) && n <= |sorted|
    ensures forall x, y :: x in sorted[..n] && y in sorted[n..] ==> x.matchScore >= y.matchScore
  {
    forall x, y | x in sorted[..n] && y in sorted[n..]
      ensures x.matchScore >= y.matchScore
    {
      var i :| 0 <= i < n && sorted[..n][i] == x;
      var j :| 0 <= j < |sorted| - n && sorted[n..][j] == y;
      assert sorted[i] == x && sorted[n + j] == y;
    }
  }

  lemma SplitMultiset(s: seq<MatchedJob>, n: nat)
    requires n <= |s|
    ensures multiset(s) - multiset(s[..n]) == multiset(s[n..])
  {
    assert s == s[..n] + s[n..];
  }

  /** Jobs with equal scores keep their order: each score's jobs in the result begin that score's jobs in `s`. */
  lemma TopIsStable(s: seq<MatchedJob>)
    ensures forall k :: IsPrefix(Tier(Top(s), k), Tier(s, k))
  {
    var sorted := SortByScore(s);
    var n := Min(MaxResults, |sorted|);
    assert sorted == sorted[..n] + sorted[n..];
    forall k
      ensures IsPrefix(Tier(sorted[..n], k), Tier(s, k))
    {
      SortStable(s, k);
      FilterConcat((m: MatchedJob) => m.matchScore == k, sorted[..n], sorted[n..]);
    }
  }

  /**
   * The list `calculateJobMatches` returns for a catalog: at most ten scored
   * catalog jobs, sorted by descending score, none scoring less than a job
   * left out, and equal scores in catalog order.
   */
  lemma TopMatchesProperties(jobs: seq<Job>, prefs: Preferences, profile: Profile)
    ensures var top, all := TopMatches(jobs, prefs, profile), ScoreAll(jobs, prefs, profile);
      && |top| == Min(MaxResults, |jobs|)
      && SortedByScore(top)
      && multiset(top) <= multiset(all)
      && (forall x, y :: x in top && y in multiset(all) - multiset(top) ==> x.matchScore >= y.matchScore)
      && (forall k :: IsPrefix(Tier(top, k), Tier(all, k)))
  {
    var all := ScoreAll(jobs, prefs, profile);
    TopIsTopMatches(jobs, prefs, profile);
    TopShape(all);
    TopIsBest(all);
    TopIsStable(all);
  }
}
