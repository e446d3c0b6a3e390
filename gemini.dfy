/**
 * Normalisation of the AI résumé analysis (backend/services/geminiService.js):
 * the response text is stripped of Markdown fences, parsed, and every field is
 * checked and defaulted, so that callers always get a complete analysis. The
 * HTTP call and `JSON.parse` are parameters.
 */
module Gemini {
  import opened Wrappers
  import opened Strings
  import opened Sequences
  import opened Json

  datatype Seniority = Junior | Mid | Senior | Lead | Executive

  function SeniorityName(s: Seniority): string
  {
    match s
    case Junior => "junior"
    case Mid => "mid"
    case Senior => "senior"
    case Lead => "lead"
    case Executive => "executive"
  }

  /** The validated analysis. */
  datatype ResumeAnalysis = ResumeAnalysis(skills: seq<string>, suggestedTitle: string, seniority: Seniority, summary: string)

  const MaxSkills := 5
  const DefaultTitle := "Professional"
  const DefaultSeniority := "mid"
  /** Summary of the record built when the response is not valid JSON. */
  const ParseFailureSummary := "Experienced professional with diverse skill set and strong background."
  /** Summary substituted by validation when the parsed `summary` is not a string. */
  const MissingSummary := "Experienced professional with strong technical background."
  /** Summary of the record returned when the service could not be used at all. */
  const ServiceFailureSummary := "Experienced professional with diverse technical skills and strong background in their field."

  const Fence := "```"
  const JsonFence := "```json"

  /** The reference vocabulary of the keyword fallback, in its order. */
  const CommonSkills: seq<string> := [
    "JavaScript", "Python", "Java", "React", "Node.js", "HTML", "CSS", "SQL",
    "MongoDB", "Express", "Angular", "Vue", "TypeScript", "AWS", "Docker",
    "Git", "REST API", "GraphQL", "Redux", "Spring Boot", "Django", "Flask"
  ]

  /** The shape every analysis handed downstream has. */
  predicate WellFormed(a: ResumeAnalysis)
  {
    |a.skills| <= MaxSkills && forall s :: s in a.skills ==> s != []
  }

  predicate MentionedIn(text: string, skill: string)
  {
    Contains(Upper(text), Upper(skill))
  }

  /** `extractSkillsFallback`: the first (at most five) vocabulary entries the text mentions, ignoring case. */
  function ExtractSkillsFallback(text: string): (r: seq<string>)
    ensures |r| <= MaxSkills
    ensures IsSubsequence(r, CommonSkills)
    ensures forall s :: s in r ==> s in CommonSkills && MentionedIn(text, s)
    ensures |r| < MaxSkills ==> forall s :: s in CommonSkills && MentionedIn(text, s) ==> s in r
    ensures forall i, j :: 0 <= i < j < |CommonSkills| && MentionedIn(text, CommonSkills[i]) && CommonSkills[j] in r ==>
              CommonSkills[i] in r
  {
    var keep := s => MentionedIn(text, s);
    var found := Filter(keep, CommonSkills);
    var r := found[..Min(MaxSkills, |found|)];
    SubsequencePrefix(found, CommonSkills, |r|);
    FilterPrefixOrder(keep, |r|);
    assert forall s :: s in r ==> s in found;
    r
  }

  /** No vocabulary entry is listed twice. */
  lemma CommonSkillsDistinct()
    ensures forall j :: 0 <= j < |CommonSkills| ==> CommonSkills[j] !in CommonSkills[..j]
  {
  }

  /** A prefix of the filtered vocabulary holds every passing entry listed before one it holds. */
  lemma FilterPrefixOrder(keep: string -> bool, k: nat)
    requires k <= |Filter(keep, CommonSkills)|
    ensures var r := Filter(keep, CommonSkills)[..k];
      forall i, j :: 0 <= i < j < |CommonSkills| && keep(CommonSkills[i]) && CommonSkills[j] in r ==> CommonSkills[i] in r
  {
    CommonSkillsDistinct();
    forall i, j | 0 <= i < j < |CommonSkills| && keep(CommonSkills[i]) && CommonSkills[j] in Filter(keep, CommonSkills)[..k]
      ensures CommonSkills[i] in Filter(keep, CommonSkills)[..k]
    {
      FilterPrefixKeepsEarlier(keep, CommonSkills, k, i, j);
    }
  }

  /** `s.replace(/p/g, '')` for a literal `p`: occurrences are removed left to right, without overlap. */
  function RemoveAll(s: string, p: string): (r: string)
    requires p != []
    ensures |r| <= |s|
    ensures forall i :: 0 <= i < |r| ==> r[i] in s
    decreases |s|
  {
    if |s| < |p| then s
    else if s[..|p|] == p then RemoveAll(s[|p|..], p)
    else [s[0]] + RemoveAll(s[1..], p)
  }

  /** The response text after the fence markers and the surrounding whitespace are removed. */
  function CleanResponse(raw: string): (r: string)
    ensures !Contains(r, Fence)
    ensures IsTrimmed(r)
  {
    var unfenced := RemoveAll(RemoveAll(raw, JsonFence), Fence);
    NoFenceLeft(RemoveAll(raw, JsonFence));
    NotContainsOfTrim(unfenced, Fence);
    Trim(unfenced)
  }

  /** Every character that does not occur in `p` is kept, in order. */
  lemma {:induction false} RemoveAllKeepsOthers(s: string, p: string)
    requires p != []
    ensures Outside(RemoveAll(s, p), p) == Outside(s, p)
    decreases |s|
  {
    if |s| >= |p| {
      if s[..|p|] == p {
        RemoveAllKeepsOthers(s[|p|..], p);
        assert forall i :: 0 <= i < |p| ==> s[i] == p[i];
        OutsideSkip(s, |p|, p);
      } else {
        RemoveAllKeepsOthers(s[1..], p);
        assert s == [s[0]] + s[1..];
        OutsideCons(s[0], s[1..], p);
        OutsideCons(s[0], RemoveAll(s[1..], p), p);
      }
    }
  }

  /** A response without any fence is only trimmed. */
  lemma CleanResponseOfUnfenced(raw: string)
    requires !Contains(raw, Fence)
    ensures CleanResponse(raw) == Trim(raw)
  {
    if Contains(raw, JsonFence) { FenceInJsonFence(raw); }
    RemoveAllAbsent(raw, JsonFence);
    RemoveAllAbsent(raw, Fence);
  }

  /**
   * The first occurrence of `p` is dropped and what comes before it is kept:
   * with `RemoveAllAbsent`, this fixes `RemoveAll` on every input.
   */
  lemma {:induction false} RemoveAllFirst(a: string, p: string, b: string)
    requires p != [] && !Contains(a + p[..|p| - 1], p)
    ensures RemoveAll(a + p + b, p) == a + RemoveAll(b, p)
    decreases |a|
  {
    if a == [] {
      RemoveAllAtFront(p, b);
      assert a + p + b == p + b;
    } else {
      RemoveAllFirstStep(a, p, b);
      RemoveAllFirst(a[1..], p, b);
      ConsTail(a, RemoveAll(b, p));
    }
  }

  lemma ConsTail(a: string, t: string)
    requires a != []
    ensures [a[0]] + (a[1..] + t) == a + t
  {
    assert a == [a[0]] + a[1..];
  }

  lemma RemoveAllAtFront(p: string, b: string)
    requires p != []
    ensures RemoveAll(p + b, p) == RemoveAll(b, p)
  {
    assert (p + b)[..|p|] == p && (p + b)[|p|..] == b;
  }

  /** Before the first occurrence, `RemoveAll` keeps the first character and carries on with the rest. */
  lemma RemoveAllFirstStep(a: string, p: string, b: string)
    requires p != [] && a != [] && !Contains(a + p[..|p| - 1], p)
    ensures !Contains(a[1..] + p[..|p| - 1], p)
    ensures RemoveAll(a + p + b, p) == [a[0]] + RemoveAll(a[1..] + p + b, p)
  {
    var s, q := a + p + b, a + p[..|p| - 1];
    assert s[..|p|] == q[..|p|];
    assert q[1..] == a[1..] + p[..|p| - 1];
    assert s[1..] == a[1..] + p + b;
  }

  /** A pattern starting with a backtick cannot occur in a backtick-free text followed by fewer characters than it has. */
  lemma NoTickOccurrence(body: string, t: string, p: string)
    requires '`' !in body && p != [] && p[0] == '`' && |t| < |p|
    ensures !Contains(body + t, p)
  {
    var u := body + t;
    forall k | 0 <= k <= |u| - |p|
      ensures !OccursAt(u, p, k)
    {
      assert u[k] == body[k];
      assert u[k..k + |p|][0] == u[k];
    }
  }

  /** Removing "```json" from a reply that opens with it and has no other backtick leaves the body and the closing fence. */
  lemma DropOpeningFence(body: string)
    requires '`' !in body
    ensures RemoveAll(JsonFence + body + Fence, JsonFence) == body + Fence
  {
    NotContainsLonger(JsonFence[..|JsonFence| - 1], JsonFence);
    assert [] + JsonFence[..|JsonFence| - 1] == JsonFence[..|JsonFence| - 1];
    RemoveAllFirst([], JsonFence, body + Fence);
    assert [] + JsonFence + (body + Fence) == JsonFence + body + Fence;
    NoTickOccurrence(body, Fence, JsonFence);
    RemoveAllAbsent(body + Fence, JsonFence);
  }

  /** Removing "```" from the body followed by the closing fence leaves the body. */
  lemma DropClosingFence(body: string)
    requires '`' !in body
    ensures RemoveAll(body + Fence, Fence) == body
  {
    NoTickOccurrence(body, Fence[..|Fence| - 1], Fence);
    RemoveAllFirst(body, Fence, []);
    assert body + Fence + [] == body + Fence;
  }

  /** A reply fenced as "```json ... ```", with no other backtick, is cleaned to its trimmed body. */
  lemma CleanResponseOfFenced(body: string)
    requires '`' !in body
    ensures CleanResponse(JsonFence + body + Fence) == Trim(body)
  {
    DropOpeningFence(body);
    DropClosingFence(body);
  }

  lemma FirstOfRemoveAll(s: string, p: string)
    requires p != [] && s != [] && !StartsWith(s, p)
    ensures var r := RemoveAll(s, p); r != [] && r[0] == s[0]
  {
  }

  /** Removing every fence leaves none behind: a removal never joins backticks into a new fence. */
  lemma {:induction false} NoFenceLeft(s: string)
    ensures !Contains(RemoveAll(s, Fence), Fence)
    decreases |s|
  {
    var r := RemoveAll(s, Fence);
    if |s| < |Fence| {
      NotContainsLonger(s, Fence);
    } else if s[..|Fence|] == Fence {
      NoFenceLeft(s[|Fence|..]);
    } else {
      var rest := RemoveAll(s[1..], Fence);
      NoFenceLeft(s[1..]);
      assert r == [s[0]] + rest;
      assert r[1..] == rest;
      if s[0] == '`' {
        if s[1] != '`' {
          FirstOfRemoveAll(s[1..], Fence);
          assert r[1] == s[1];
        } else {
          assert s[2] != '`';
          FirstOfRemoveAll(s[1..], Fence);
          if |s| == 3 {
            assert rest == s[1..];
          } else {
            assert rest == [s[1]] + RemoveAll(s[2..], Fence);
            FirstOfRemoveAll(s[2..], Fence);
          }
          assert r[2] == s[2];
        }
      }
      assert !StartsWith(r, Fence);
    }
  }

  /** Removal changes nothing in a string without an occurrence. */
  lemma {:induction false} RemoveAllAbsent(s: string, p: string)
    requires p != [] && !Contains(s, p)
    ensures RemoveAll(s, p) == s
    decreases |s|
  {
    if |s| >= |p| {
      RemoveAllAbsent(s[1..], p);
    }
  }

  lemma {:induction false} FenceInJsonFence(s: string)
    requires Contains(s, JsonFence)
    ensures Contains(s, Fence)
    decreases |s|
  {
    if StartsWith(s, JsonFence) {
      assert s[..|Fence|] == s[..|JsonFence|][..|Fence|];
    } else {
      FenceInJsonFence(s[1..]);
    }
  }

  /** Cleaning is idempotent: a cleaned text is left as it is. */
  lemma CleanResponseIdempotent(raw: string)
    ensures CleanResponse(CleanResponse(raw)) == CleanResponse(raw)
  {
    var c := CleanResponse(raw);
    if Contains(c, JsonFence) { FenceInJsonFence(c); }
    RemoveAllAbsent(c, JsonFence);
    RemoveAllAbsent(c, Fence);
    TrimOfTrimmed(c);
  }

  /** `data?.candidates?.[0]?.content?.parts?.[0]?.text`, when it is a non-empty string; anything else makes the call fail. */
  function ResponseText(data: Option<JsonValue>): (r: Option<string>)
    ensures r.Some? ==> r.value != [] && CandidateText(data) == Some(JString(r.value))
    ensures r.None? ==> !(CandidateText(data).Some? && IsNonEmptyString(CandidateText(data).value))
  {
    match CandidateText(data)
    case Some(JString(s)) => if s != [] then Some(s) else None
    case _ => None
  }

  /** `data?.candidates?.[0]?.content?.parts?.[0]?.text`. */
  function CandidateText(data: Option<JsonValue>): Option<JsonValue>
  {
    Member(First(Member(Member(First(Member(data, "candidates")), "content"), "parts")), "text")
  }

  predicate IsNonEmptyString(v: JsonValue)
  {
    v.JString? && v.str != []
  }

  /** The body the service answers with when it produces text `s`. */
  function Reply(s: string): JsonValue
  {
    var part := JObject(map["text" := JString(s)]);
    var content := JObject(map["parts" := JArray([part])]);
    JObject(map["candidates" := JArray([JObject(map["content" := content])])])
  }

  /** The text of a reply shaped as the service answers is read back exactly. */
  lemma ResponseTextOfReply(s: string)
    requires s != []
    ensures ResponseText(Some(Reply(s))) == Some(s)
  {
    var part := JObject(map["text" := JString(s)]);
    var content := JObject(map["parts" := JArray([part])]);
    var candidate := JObject(map["content" := content]);
    assert Member(Some(Reply(s)), "candidates") == Some(JArray([candidate]));
    assert First(Some(JArray([candidate]))) == Some(candidate);
    assert Member(Some(candidate), "content") == Some(content);
    assert Member(Some(content), "parts") == Some(JArray([part]));
    assert First(Some(JArray([part]))) == Some(part);
    assert Member(Some(part), "text") == Some(JString(s));
  }

  function AsJson(ss: seq<string>): (r: seq<JsonValue>)
    ensures |r| == |ss| && forall i :: 0 <= i < |ss| ==> r[i] == JString(ss[i])
  {
    seq(|ss|, i requires 0 <= i < |ss| => JString(ss[i]))
  }

  function StringsOf(vs: seq<JsonValue>): (r: seq<string>)
    requires forall i :: 0 <= i < |vs| ==> vs[i].JString?
    ensures AsJson(r) == vs
  {
    seq(|vs|, i requires 0 <= i < |vs| => vs[i].str)
  }

  /**
   * `skills.slice(0, 5).filter(skill => skill && typeof skill === 'string')`: among the
   * first five entries, every non-empty string is kept, as often as it occurs and in
   * its order, and nothing else.
   */
  function ValidSkills(items: seq<JsonValue>): (r: seq<string>)
    ensures |r| <= MaxSkills
    ensures forall s :: s in r ==> s != []
    ensures IsSubsequence(AsJson(r), items[..Min(MaxSkills, |items|)])
    ensures forall i :: 0 <= i < Min(MaxSkills, |items|) && IsNonEmptyString(items[i]) ==> items[i].str in r
    ensures forall x :: multiset(AsJson(r))[x]
                     == if IsNonEmptyString(x) then multiset(items[..Min(MaxSkills, |items|)])[x] else 0
  {
    var first := items[..Min(MaxSkills, |items|)];
    var kept := Filter(IsNonEmptyString, first);
    KeptCounts(first);
    assert forall i :: 0 <= i < |kept| ==> kept[i] in kept;
    var r := StringsOf(kept);
    KeptStrings(first, r);
    r
  }

  lemma KeptCounts(first: seq<JsonValue>)
    ensures forall x :: multiset(Filter(IsNonEmptyString, first))[x]
                     == if IsNonEmptyString(x) then multiset(first)[x] else 0
  {
    forall x {
      FilterMultiplicity(IsNonEmptyString, first, x);
    }
  }

  /** The strings of the kept entries are non-empty, and each non-empty string entry is among them. */
  lemma KeptStrings(first: seq<JsonValue>, r: seq<string>)
    requires AsJson(r) == Filter(IsNonEmptyString, first)
    ensures forall s :: s in r ==> s != []
    ensures forall i :: 0 <= i < |first| && IsNonEmptyString(first[i]) ==> first[i].str in r
  {
    var kept := Filter(IsNonEmptyString, first);
    forall s | s in r ensures s != [] {
      var i :| 0 <= i < |r| && r[i] == s;
      assert kept[i] == JString(s) && kept[i] in kept;
    }
    forall i | 0 <= i < |first| && IsNonEmptyString(first[i]) ensures first[i].str in r {
      assert first[i] in kept;
      var j :| 0 <= j < |kept| && kept[j] == first[i];
      assert r[j] == first[i].str;
    }
  }

  const SeniorityNames: seq<string> := ["junior", "mid", "senior", "lead", "executive"]

  /** No vocabulary entry is empty, so neither is any fallback skill. */
  lemma FallbackSkillsNonEmpty(text: string)
    ensures forall s :: s in ExtractSkillsFallback(text) ==> s != []
  {
    assert forall i :: 0 <= i < |CommonSkills| ==> |CommonSkills[i]| > 0;
  }

  /** An array is validated item by item; anything else is replaced by the keyword fallback. */
  function ValidateSkills(v: Option<JsonValue>, resumeText: string): (r: seq<string>)
    ensures |r| <= MaxSkills && forall s :: s in r ==> s != []
    ensures v.Some? && v.value.JArray? ==> r == ValidSkills(v.value.items)
    ensures !(v.Some? && v.value.JArray?) ==> r == ExtractSkillsFallback(resumeText)
  {
    match v
    case Some(JArray(items)) => ValidSkills(items)
    case _ => FallbackSkillsNonEmpty(resumeText); ExtractSkillsFallback(resumeText)
  }

  /** `SeniorityNames.includes(v) ? v : 'mid'`: a member of the list passes through, anything else is "mid". */
  function ValidSeniority(v: Option<JsonValue>): (r: Seniority)
    ensures v.Some? && v.value.JString? && v.value.str in SeniorityNames ==> SeniorityName(r) == v.value.str
    ensures !(v.Some? && v.value.JString? && v.value.str in SeniorityNames) ==> r == Mid
  {
    match v
    case Some(JString(name)) =>
      if name == "junior" then Junior
      else if name == "senior" then Senior
      else if name == "lead" then Lead
      else if name == "executive" then Executive
      else Mid
    case _ => Mid
  }

  /** The default title and summaries carry no surrounding whitespace. */
  lemma DefaultsTrimmed()
    ensures IsTrimmed(DefaultTitle) && IsTrimmed(MissingSummary) && IsTrimmed(ParseFailureSummary)
  {
    DefaultTitleTrimmed();
    MissingSummaryTrimmed();
    ParseFailureSummaryTrimmed();
  }

  lemma DefaultTitleTrimmed()
    ensures IsTrimmed(DefaultTitle)
  {
    assert DefaultTitle[0] == 'P' && DefaultTitle[|DefaultTitle| - 1] == 'l';
  }

  lemma MissingSummaryTrimmed()
    ensures IsTrimmed(MissingSummary)
  {
    assert MissingSummary[..30] == "Experienced professional with ";
    assert MissingSummary[..30][0] == 'E';
    assert MissingSummary[|MissingSummary| - 1] == '.';
  }

  lemma ParseFailureSummaryTrimmed()
    ensures IsTrimmed(ParseFailureSummary)
  {
    assert ParseFailureSummary[..45] == "Experienced professional with diverse skill s";
    assert ParseFailureSummary[..45][..20] == "Experienced professi";
    assert ParseFailureSummary[..45][..20][0] == 'E';
    assert ParseFailureSummary[|ParseFailureSummary| - 1] == '.';
  }

  /** A string field is trimmed; anything else is replaced by `default`. */
  function ValidText(v: Option<JsonValue>, default: string): (r: string)
    ensures IsTrimmed(default) ==> IsTrimmed(r)
    ensures v.Some? && v.value.JString? ==> r == Trim(v.value.str)
    ensures !(v.Some? && v.value.JString?) ==> r == default
  {
    match v
    case Some(JString(s)) => Trim(s)
    case _ => default
  }

  /**
   * The validation step. `None` when the parsed value is `null`: reading `.skills`
   * from it throws, and the error is handled by the caller's fallback.
   */
  function Validate(parsed: JsonValue, resumeText: string): (r: Option<ResumeAnalysis>)
    ensures r.None? <==> parsed.JNull?
    ensures r.Some? ==> WellFormed(r.value)
    ensures r.Some? ==> IsTrimmed(r.value.suggestedTitle) && IsTrimmed(r.value.summary)
  {
    if parsed.JNull? then None
    else
      var v := Some(parsed);
      DefaultsTrimmed();
      Some(ResumeAnalysis(
        ValidateSkills(Member(v, "skills"), resumeText),
        ValidText(Member(v, "suggestedTitle"), DefaultTitle),
        ValidSeniority(Member(v, "seniority")),
        ValidText(Member(v, "summary"), MissingSummary)))
  }

  /** The object substituted for the parse result when the text is not valid JSON. */
  function ParseFailureObject(resumeText: string): JsonValue
  {
    FallbackObject(ExtractSkillsFallback(resumeText))
  }

  function FallbackObject(skills: seq<string>): JsonValue
  {
    JObject(map[
      "skills" := JArray(AsJson(skills)),
      "suggestedTitle" := JString(DefaultTitle),
      "seniority" := JString(DefaultSeniority),
      "summary" := JString(ParseFailureSummary)])
  }

  /** The record returned when the key is missing, the text is blank, the response is unusable or anything throws. */
  function ServiceFailure(resumeText: string): ResumeAnalysis
  {
    ResumeAnalysis(ExtractSkillsFallback(resumeText), DefaultTitle, Mid, ServiceFailureSummary)
  }

  /**
   * `analyzeResumeWithGemini(resumeText)`. `apiKeyConfigured` says whether the key is set,
   * `response` is the body the service answered with (`None` if the request failed), and
   * `parse` is `JSON.parse` (`None` when it throws).
   */
  function AnalyzeResume(apiKeyConfigured: bool, resumeText: string, response: Option<JsonValue>,
                         parse: string -> Option<JsonValue>): (r: ResumeAnalysis)
    ensures WellFormed(r)
    ensures !apiKeyConfigured || AllSpace(resumeText) || ResponseText(response).None? ==> r == ServiceFailure(resumeText)
  {
    FallbackSkillsNonEmpty(resumeText);
    if !apiKeyConfigured || Trim(resumeText) == [] then ServiceFailure(resumeText)
    else
      match ResponseText(response)
      case None => ServiceFailure(resumeText)
      case Some(raw) =>
        var parsed := match parse(CleanResponse(raw))
          case Some(v) => v
          case None => ParseFailureObject(resumeText);
        match Validate(parsed, resumeText)
        case None => ServiceFailure(resumeText)
        case Some(a) => a
  }

  lemma AsJsonInjective(a: seq<string>, b: seq<string>)
    requires AsJson(a) == AsJson(b)
    ensures a == b
  {
    assert |a| == |AsJson(a)|;
    forall i | 0 <= i < |a| ensures a[i] == b[i] {
      assert AsJson(a)[i] == AsJson(b)[i];
    }
  }

  /** The record built on a parse failure passes validation unchanged. */
  lemma ParseFailureObjectIsValid(resumeText: string)
    ensures Validate(ParseFailureObject(resumeText), resumeText)
         == Some(ResumeAnalysis(ExtractSkillsFallback(resumeText), DefaultTitle, Mid, ParseFailureSummary))
  {
    var skills := ExtractSkillsFallback(resumeText);
    FallbackSkillsNonEmpty(resumeText);
    FallbackObjectIsValid(skills, resumeText);
  }

  lemma ValidTextOfTrimmed(t: string, default: string)
    requires IsTrimmed(t)
    ensures ValidText(Some(JString(t)), default) == t
  {
    var v := Some(JString(t));
    assert v.Some? && v.value.JString? && v.value.str == t;
    TrimOfTrimmed(t);
  }

  lemma FallbackObjectIsValid(skills: seq<string>, resumeText: string)
    requires |skills| <= MaxSkills && forall s :: s in skills ==> s != []
    ensures Validate(FallbackObject(skills), resumeText)
         == Some(ResumeAnalysis(skills, DefaultTitle, Mid, ParseFailureSummary))
  {
    var obj := Some(FallbackObject(skills));
    FallbackFields(skills);
    FallbackSkillsValid(skills, resumeText);
    DefaultsTrimmed();
    ValidTextOfTrimmed(DefaultTitle, DefaultTitle);
    ValidTextOfTrimmed(ParseFailureSummary, MissingSummary);
    assert ValidSeniority(Some(JString(DefaultSeniority))) == Mid;
  }

  /** The four properties of the fallback record. */
  lemma FallbackFields(skills: seq<string>)
    ensures var obj := Some(FallbackObject(skills));
      && Member(obj, "skills") == Some(JArray(AsJson(skills)))
      && Member(obj, "suggestedTitle") == Some(JString(DefaultTitle))
      && Member(obj, "seniority") == Some(JString(DefaultSeniority))
      && Member(obj, "summary") == Some(JString(ParseFailureSummary))
  {
  }

  /** The fallback skills, written as an array of strings, are read back unchanged. */
  lemma FallbackSkillsValid(skills: seq<string>, resumeText: string)
    requires |skills| <= MaxSkills && forall s :: s in skills ==> s != []
    ensures ValidateSkills(Some(JArray(AsJson(skills))), resumeText) == skills
  {
    assert forall i :: 0 <= i < |skills| ==> skills[i] in skills;
    ValidSkillsOfStrings(AsJson(skills));
    AsJsonInjective(ValidSkills(AsJson(skills)), skills);
  }

  /** When every entry is a non-empty string, exactly the first five are kept, in order. */
  lemma ValidSkillsOfStrings(items: seq<JsonValue>)
    requires forall i :: 0 <= i < |items| ==> IsNonEmptyString(items[i])
    ensures AsJson(ValidSkills(items)) == items[..Min(MaxSkills, |items|)]
    ensures |items| >= MaxSkills ==> |ValidSkills(items)| == MaxSkills
  {
    FilterOfAll(IsNonEmptyString, items[..Min(MaxSkills, |items|)]);
  }

  /** A string title made only of whitespace is trimmed to the empty string: validation does not restore the default. */
  lemma BlankTitleBecomesEmpty(t: string)
    requires AllSpace(t)
    ensures ValidText(Some(JString(t)), DefaultTitle) == ""
  {
  }

  /**
   * The first five entries are taken before the non-strings and empty strings are
   * dropped: after an empty first entry at most four skills remain, however many
   * usable ones follow.
   */
  lemma SliceBeforeFilter(rest: seq<JsonValue>)
    requires forall i :: 0 <= i < |rest| ==> IsNonEmptyString(rest[i])
    ensures AsJson(ValidSkills([JString("")] + rest)) == rest[..Min(MaxSkills - 1, |rest|)]
  {
    var items := [JString("")] + rest;
    var first := items[..Min(MaxSkills, |items|)];
    var tail := rest[..Min(MaxSkills - 1, |rest|)];
    assert first[1..] == tail;
    FilterOfAll(IsNonEmptyString, tail);
    assert Filter(IsNonEmptyString, first) == tail;
  }

  /** The three fallback summaries are distinct. */
  lemma FallbackSummariesDistinct()
    ensures ParseFailureSummary != MissingSummary
    ensures ParseFailureSummary != ServiceFailureSummary
    ensures MissingSummary != ServiceFailureSummary
  {
  }

  /** A missing key, a blank résumé or an unusable response yields the service fallback record. */
  lemma {:induction false} AnalyzeUnusable(apiKeyConfigured: bool, resumeText: string, response: Option<JsonValue>,
                                           parse: string -> Option<JsonValue>)
    requires !apiKeyConfigured || AllSpace(resumeText) || ResponseText(response).None?
    ensures AnalyzeResume(apiKeyConfigured, resumeText, response, parse)
         == ResumeAnalysis(ExtractSkillsFallback(resumeText), "Professional", Mid, ServiceFailureSummary)
  {
  }

  /** Text that does not parse yields the parse-failure record, with its own summary. */
  lemma AnalyzeParseFailure(resumeText: string, response: Option<JsonValue>, parse: string -> Option<JsonValue>)
    requires !AllSpace(resumeText) && ResponseText(response).Some?
    requires parse(CleanResponse(ResponseText(response).value)).None?
    ensures AnalyzeResume(true, resumeText, response, parse)
         == ResumeAnalysis(ExtractSkillsFallback(resumeText), "Professional", Mid, ParseFailureSummary)
  {
    ParseFailureObjectIsValid(resumeText);
  }

  /** Text that parses to `null` makes validation throw, so the service fallback record is returned. */
  lemma AnalyzeParsedNull(resumeText: string, response: Option<JsonValue>, parse: string -> Option<JsonValue>)
    requires !AllSpace(resumeText) && ResponseText(response).Some?
    requires parse(CleanResponse(ResponseText(response).value)) == Some(JNull)
    ensures AnalyzeResume(true, resumeText, response, parse) == ServiceFailure(resumeText)
  {
  }

  /** Text that parses to any other value yields what validation makes of that value. */
  lemma AnalyzeParsedValue(resumeText: string, response: Option<JsonValue>, parse: string -> Option<JsonValue>, v: JsonValue)
    requires !AllSpace(resumeText) && ResponseText(response).Some?
    requires parse(CleanResponse(ResponseText(response).value)) == Some(v) && !v.JNull?
    ensures Validate(v, resumeText).Some?
    ensures AnalyzeResume(true, resumeText, response, parse) == Validate(v, resumeText).value
  {
    assert Trim(resumeText) != [];
    var a := Validate(v, resumeText);
    assert a.Some?;
  }

  /**
   * Validation, field by field: the skills are the non-empty strings among the first
   * five array entries, or the keyword fallback; a string title or summary is trimmed;
   * the seniority is kept only if it is one of the five levels.
   */
  lemma ValidateFields(v: JsonValue, resumeText: string)
    requires !v.JNull?
    ensures var r := Validate(v, resumeText).value;
      var skills := Member(Some(v), "skills");
      && (skills.Some? && skills.value.JArray? ==> r.skills == ValidSkills(skills.value.items))
      && (skills.Some? && skills.value.JArray? ==> IsSubsequence(AsJson(r.skills), skills.value.items))
      && (!(skills.Some? && skills.value.JArray?) ==> r.skills == ExtractSkillsFallback(resumeText))
      && r.suggestedTitle == ValidText(Member(Some(v), "suggestedTitle"), DefaultTitle)
      && r.seniority == ValidSeniority(Member(Some(v), "seniority"))
      && r.summary == ValidText(Member(Some(v), "summary"), MissingSummary)
  {
    var m := Member(Some(v), "skills");
    if m.Some? && m.value.JArray? {
      var items := m.value.items;
      SubsequenceOfPrefix(AsJson(ValidSkills(items)), items, Min(MaxSkills, |items|));
    }
  }
}
