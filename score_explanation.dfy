/** The explanation of a match score (backend/services/scoreExplanationService.js): four
    sub-scores out of 50, 20, 10 and 20 points, their sum, and a narrative assembled from
    fixed sentences. */
module ScoreExplanationService {
  import opened Outcomes
  import opened Text
  import opened Rounding
  import opened Sequences
  import Records
  import AiSkillMatcher

  // ---------------------------------------------------------------------------
  // Skills: 50 points

  datatype SkillsBreakdown = SkillsBreakdown(
    score: int, max: int, matched: seq<string>, missing: seq<string>, matchPercentage: int)

  /** `calculateSkillsScore`: the share of required skills that were matched, as points
      out of 50 and as a percentage, each rounded to the nearest integer. */
  function CalculateSkillsScore(matched: seq<string>, missing: seq<string>, required: seq<string>)
    : (b: SkillsBreakdown)
    ensures b.max == 50 && b.matched == matched && b.missing == missing
    ensures b.score >= 0 && b.matchPercentage >= 0
    ensures required == [] ==> b.score == 0 && b.matchPercentage == 0
    ensures required != [] ==>
      |required| * (2 * b.score - 1) <= 100 * |matched| < |required| * (2 * b.score + 1)
    ensures required != [] ==>
      |required| * (2 * b.matchPercentage - 1) <= 200 * |matched| < |required| * (2 * b.matchPercentage + 1)
  {
    if |required| > 0 then
      SkillsBreakdown(Round(50 * |matched|, |required|), 50, matched, missing, Round(100 * |matched|, |required|))
    else
      SkillsBreakdown(0, 50, matched, missing, 0)
  }

  /** No more skills matched than required keeps the score within its 50 points and the
      percentage within 0..100. */
  lemma SkillsScoreRange(matched: seq<string>, missing: seq<string>, required: seq<string>)
    requires |matched| <= |required|
    ensures var b := CalculateSkillsScore(matched, missing, required);
      0 <= b.score <= 50 && 0 <= b.matchPercentage <= 100
  {
    if |required| > 0 {
      RoundBetween(50 * |matched|, |required|, 0, 50);
      RoundBetween(100 * |matched|, |required|, 0, 100);
    }
  }

  /** Every required skill matched earns the full 50 points and 100 percent. */
  lemma SkillsScoreFull(matched: seq<string>, missing: seq<string>, required: seq<string>)
    requires |matched| == |required| > 0
    ensures CalculateSkillsScore(matched, missing, required).score == 50
    ensures CalculateSkillsScore(matched, missing, required).matchPercentage == 100
  {
    RoundWhole(50, |required|);
    RoundWhole(100, |required|);
  }

  /** Matching more skills never lowers the points or the percentage. */
  lemma SkillsScoreMonotone(m1: seq<string>, m2: seq<string>, missing: seq<string>, required: seq<string>)
    requires |m1| <= |m2|
    ensures CalculateSkillsScore(m1, missing, required).score <= CalculateSkillsScore(m2, missing, required).score
    ensures CalculateSkillsScore(m1, missing, required).matchPercentage
      <= CalculateSkillsScore(m2, missing, required).matchPercentage
  {
    if |required| > 0 {
      RoundMonotone(50 * |m1|, 50 * |m2|, |required|);
      RoundMonotone(100 * |m1|, 100 * |m2|, |required|);
    }
  }

  /** The points and the percentage are two roundings of the same share, so the percentage
      is within one of twice the points. */
  lemma SkillsScoreAgree(matched: seq<string>, missing: seq<string>, required: seq<string>)
    ensures var b := CalculateSkillsScore(matched, missing, required);
      2 * b.score - 1 <= b.matchPercentage <= 2 * b.score + 1
  {
    if |required| > 0 {
      RoundDouble(50 * |matched|, |required|);
    }
  }

  // ---------------------------------------------------------------------------
  // Experience: 20 points

  /** The first run of digits in s from index i on, read as a number: what the pattern
      `(\d+)` without the global flag finds, passed to `parseInt`. */
  function FirstNumberFrom(s: string, i: nat): Option<nat>
    requires i <= |s|
    decreases |s| - i
  {
    if i == |s| then None
    else if IsDigit(s[i]) then Some(DigitsValue(s[i..RunEnd(s, i)]))
    else FirstNumberFrom(s, i + 1)
  }

  /** The years a job asks for, e.g. 2 for "2-5 years", or 0 when no number appears. */
  function RequiredYears(experience: string): nat
  {
    match FirstNumberFrom(experience, 0)
    case None => 0
    case Some(n) => n
  }

  /** The search finds nothing exactly when no digit follows index i. */
  lemma {:induction false} FirstNumberNone(s: string, i: nat)
    requires i <= |s|
    ensures FirstNumberFrom(s, i).None? <==> forall k :: i <= k < |s| ==> !IsDigit(s[k])
    decreases |s| - i
  {
    if i < |s| && !IsDigit(s[i]) {
      FirstNumberNone(s, i + 1);
    }
  }

  /** When the first digit at or after index i is at index k, the search reads the run of
      digits that starts there. */
  lemma {:induction false} FirstNumberAt(s: string, i: nat, k: nat)
    requires i <= k < |s| && IsDigit(s[k])
    requires forall m :: i <= m < k ==> !IsDigit(s[m])
    ensures FirstNumberFrom(s, i) == Some(DigitsValue(s[k..RunEnd(s, k)]))
    decreases k - i
  {
    if i < k {
      FirstNumberAt(s, i + 1, k);
    }
  }

  /** `\s*\+?\s*(years?|yrs?)` with the `i` flag matches t from index j: blanks, at most
      one plus sign, blanks, then "year" or "yr" in any case (the optional "s" changes
      neither whether nor where a match starts). */
  predicate UnitFollows(t: string, j: nat)
    requires j <= |t|
  {
    var k1 := SpacesEnd(t, j);
    var k2 := if k1 < |t| && t[k1] == '+' then SpacesEnd(t, k1 + 1) else k1;
    SpelledAt(t, k2, "year") || SpelledAt(t, k2, "yr")
  }

  /** A maximal run of digits starts at index k. */
  predicate RunStart(t: string, k: nat)
  {
    k < |t| && IsDigit(t[k]) && (k == 0 || !IsDigit(t[k - 1]))
  }

  /** The pattern `(\d+)\s*\+?\s*(years?|yrs?)` has a match at index k whose number is n.
      Since `\d+` is greedy and what follows it cannot start with a digit, a match takes a
      whole run of digits, and the global scan only starts matches at the start of a run. */
  ghost predicate YearsMatchAt(t: string, k: nat, n: nat)
  {
    RunStart(t, k) && UnitFollows(t, RunEnd(t, k)) && n == DigitsValue(t[k..RunEnd(t, k)])
  }

  /** The numbers of the matches of the years pattern from index i on, in text order: the
      global scan, with each match's leading digits read by `parseInt`.  The scan skips
      from a run of digits to its end; the unit a match consumes holds no digit, so
      resuming after the unit instead finds the same matches. */
  function YearMentions(t: string, i: nat): seq<nat>
    requires i <= |t|
    decreases |t| - i
  {
    if i == |t| then []
    else if IsDigit(t[i]) then
      var j := RunEnd(t, i);
      (if UnitFollows(t, j) then [DigitsValue(t[i..j])] else []) + YearMentions(t, j)
    else YearMentions(t, i + 1)
  }

  /** No run of digits starts strictly inside another. */
  lemma NoRunStartInside(t: string, i: nat, k: nat)
    requires i <= |t| && i < k < RunEnd(t, i)
    ensures !RunStart(t, k)
  {
    var j := RunEnd(t, i);
    assert t[i..j][k - 1 - i] == t[k - 1];
  }

  /** Every number mentioned from index i on is carried by a match at or after i. */
  lemma {:induction false} YearMentionsSound(t: string, i: nat, n: nat)
    requires i <= |t| && n in YearMentions(t, i)
    requires i == 0 || i == |t| || !IsDigit(t[i - 1]) || !IsDigit(t[i])
    ensures exists k :: i <= k && YearsMatchAt(t, k, n)
    decreases |t| - i
  {
    if IsDigit(t[i]) {
      var j := RunEnd(t, i);
      var head := if UnitFollows(t, j) then [DigitsValue(t[i..j])] else [];
      assert YearMentions(t, i) == head + YearMentions(t, j);
      if n in head {
        assert RunStart(t, i);
        assert YearsMatchAt(t, i, n);
      } else {
        YearMentionsSound(t, j, n);
      }
    } else {
      YearMentionsSound(t, i + 1, n);
    }
  }

  /** Every match at or after index i has its number mentioned from i on, as long as i
      does not sit inside a run of digits. */
  lemma {:induction false} YearMentionsComplete(t: string, i: nat, k: nat, n: nat)
    requires i <= k && YearsMatchAt(t, k, n)
    requires i == 0 || !IsDigit(t[i - 1]) || !IsDigit(t[i])
    ensures n in YearMentions(t, i)
    decreases |t| - i
  {
    if IsDigit(t[i]) {
      var j := RunEnd(t, i);
      var head := if UnitFollows(t, j) then [DigitsValue(t[i..j])] else [];
      assert YearMentions(t, i) == head + YearMentions(t, j);
      if k == i {
        assert n in head;
      } else if k < j {
        NoRunStartInside(t, i, k);
      } else {
        YearMentionsComplete(t, j, k, n);
      }
    } else {
      assert k != i;
      YearMentionsComplete(t, i + 1, k, n);
    }
  }

  /** `Math.max(...years)`, taken as 0 when nothing matched. */
  function MaxOf(s: seq<nat>): (m: nat)
    ensures forall x :: x in s ==> x <= m
    ensures s == [] ==> m == 0
    ensures s != [] ==> m in s
  {
    if s == [] then 0
    else
      var rest := MaxOf(s[1..]);
      assert forall x :: x in s ==> x == s[0] || x in s[1..];
      if s[0] > rest then s[0] else rest
  }

  /** The years of experience a resume states: the largest number before a year unit. */
  function CandidateYears(resumeText: string): nat
  {
    MaxOf(YearMentions(resumeText, 0))
  }

  /** The candidate's years are the largest number that any match of the years pattern
      carries, and 0 when there is no match. */
  lemma CandidateYearsSpec(t: string)
    ensures forall k: nat, n: nat :: YearsMatchAt(t, k, n) ==> n <= CandidateYears(t)
    ensures CandidateYears(t) > 0 ==> exists k :: YearsMatchAt(t, k, CandidateYears(t))
    ensures (forall k: nat, n: nat :: !YearsMatchAt(t, k, n)) ==> CandidateYears(t) == 0
  {
    var c := CandidateYears(t);
    forall k: nat, n: nat | YearsMatchAt(t, k, n)
      ensures n <= c
    {
      YearMentionsComplete(t, 0, k, n);
    }
    if YearMentions(t, 0) != [] {
      YearMentionsSound(t, 0, c);
    }
  }

  /** The band test `candidateYears >= requiredYears * 0.7`, in exact arithmetic, is the
      integer comparison 10c >= 7r. */
  lemma CloseToRequirement(c: nat, r: nat)
    ensures (c as real >= r as real * 0.7) <==> 10 * c >= 7 * r
  {
  }

  /** The experience points for c years against a requirement of r years. */
  function ExperiencePoints(c: nat, r: nat): (p: int)
    ensures p == 5 || p == 10 || p == 15 || p == 20
    ensures p == 20 <==> c >= r
    ensures p == 5 <==> c == 0 && r > 0
  {
    if c >= r then 20
    else if c as real >= r as real * 0.7 then 15
    else if c > 0 then 10
    else 5
  }

  /** More years never earn fewer points, and a higher requirement never earns more. */
  lemma {:induction false} ExperiencePointsMonotone(c1: nat, c2: nat, r1: nat, r2: nat)
    requires c1 <= c2 && r2 <= r1
    ensures ExperiencePoints(c1, r1) <= ExperiencePoints(c2, r2)
  {
    CloseToRequirement(c1, r1);
    CloseToRequirement(c2, r2);
  }

  /** The close band is exactly 70 percent of the requirement or more but short of it. */
  lemma ExperienceClose(c: nat, r: nat)
    ensures ExperiencePoints(c, r) == 15 <==> c < r && 10 * c >= 7 * r
    ensures ExperiencePoints(c, r) == 10 <==> 0 < c && 10 * c < 7 * r
  {
    CloseToRequirement(c, r);
  }

  datatype ExperienceBreakdown = ExperienceBreakdown(
    score: int, max: int, candidateExperience: string, requiredExperience: string, status: string)

  /** The status sentence of each band. */
  function ExperienceStatus(points: int): string
  {
    if points == 20 then "Meets or exceeds requirement"
    else if points == 15 then "Close to requirement"
    else if points == 10 then "Below requirement"
    else "Experience not clearly stated"
  }

  /** The breakdown `calculateExperienceScore` returns for a resume text and a job's
      experience text: the band points of the stated against the required years, the band's
      status, a maximum of 20, the stated years as "N years" or "Not specified", and the
      job's text as it is. */
  predicate ExperienceDescribed(b: ExperienceBreakdown, resumeText: string, jobExperience: string)
  {
    && b.score == ExperiencePoints(CandidateYears(resumeText), RequiredYears(jobExperience))
    && b.status == ExperienceStatus(b.score)
    && b.max == 20 && b.requiredExperience == jobExperience
    && (CandidateYears(resumeText) > 0 ==>
         b.candidateExperience == NatToString(CandidateYears(resumeText)) + " years")
    && (CandidateYears(resumeText) == 0 ==> b.candidateExperience == "Not specified")
  }

  /** `calculateExperienceScore`: reads the required and the stated years, then picks the
      band by the first test that holds. */
  method CalculateExperienceScore(resumeText: string, jobExperience: string) returns (b: ExperienceBreakdown)
    ensures ExperienceDescribed(b, resumeText, jobExperience)
  {
    var requiredYears := RequiredYears(jobExperience);
    var candidateYears := CandidateYears(resumeText);
    var score: int;
    var status: string;
    if candidateYears >= requiredYears {
      score := 20;
      status := "Meets or exceeds requirement";
    } else if candidateYears as real >= requiredYears as real * 0.7 {
      score := 15;
      status := "Close to requirement";
    } else if candidateYears > 0 {
      score := 10;
      status := "Below requirement";
    } else {
      score := 5;
      status := "Experience not clearly stated";
    }
    var candidateExperience := if candidateYears > 0 then NatToString(candidateYears) + " years" else "Not specified";
    b := ExperienceBreakdown(score, 20, candidateExperience, jobExperience, status);
  }

  // ---------------------------------------------------------------------------
  // Department: 10 points

  /** The department and domain words looked for in both texts. */
  const Departments: seq<string> := [
    "engineering", "software", "development", "frontend", "backend",
    "fullstack", "data", "analytics", "marketing", "sales", "hr",
    "finance", "operations", "design", "product", "devops"
  ]

  /** `words.filter(w => text.includes(w))`. */
  function FilterContained(words: seq<string>, text: string): (r: seq<string>)
    ensures |r| <= |words|
    ensures forall w :: w in r <==> w in words && Contains(text, w)
    ensures (forall w :: w in words ==> Contains(text, w)) ==> r == words
  {
    if words == [] then []
    else
      var last := words[|words| - 1];
      assert words == words[..|words| - 1] + [last];
      FilterContained(words[..|words| - 1], text) + (if Contains(text, last) then [last] else [])
  }

  /** The words `filter` drops, in their order in `words`. */
  function FilterRejected(words: seq<string>, text: string): (r: seq<string>)
    ensures forall w :: w in r ==> w in words && !Contains(text, w)
  {
    if words == [] then []
    else
      var last := words[|words| - 1];
      assert words == words[..|words| - 1] + [last];
      FilterRejected(words[..|words| - 1], text) + (if Contains(text, last) then [] else [last])
  }

  /** The kept words are in their order in `words`: `words` is an order-preserving merge
      of them and the rejected ones. */
  lemma {:induction false} FilterContainedInOrder(words: seq<string>, text: string)
    ensures Interleaves(words, FilterContained(words, text), FilterRejected(words, text))
  {
    if words != [] {
      var n := |words| - 1;
      var front, last := words[..n], words[n];
      var kept := FilterContained(front, text);
      var dropped := FilterRejected(front, text);
      FilterContainedInOrder(front, text);
      assert words == front + [last];
      if Contains(text, last) {
        InterleavesKeep(front, kept, dropped, last);
        assert FilterContained(words, text) == kept + [last];
        assert FilterRejected(words, text) == dropped;
      } else {
        InterleavesDrop(front, kept, dropped, last);
        assert FilterContained(words, text) == kept;
        assert FilterRejected(words, text) == dropped + [last];
      }
    }
  }

  /** Each contained word is kept as often as `words` lists it; the others never. */
  lemma {:induction false} FilterContainedCounts(words: seq<string>, text: string, w: string)
    ensures multiset(FilterContained(words, text))[w] == if Contains(text, w) then multiset(words)[w] else 0
  {
    if words != [] {
      var n := |words| - 1;
      FilterContainedCounts(words[..n], text, w);
      assert words == words[..n] + [words[n]];
    }
  }

  /** Filtering keeps the words listed in increasing position in `keys`. */
  lemma {:induction false} FilterContainedRanked(words: seq<string>, text: string, keys: seq<string>)
    requires RankedIn(words, keys)
    ensures RankedIn(FilterContained(words, text), keys)
  {
    if words != [] {
      var n := |words| - 1;
      var last := words[n];
      var front := FilterContained(words[..n], text);
      FilterContainedRanked(words[..n], text, keys);
      forall w | w in front ensures RankIn(keys, w) < RankIn(keys, last) {
        var i :| 0 <= i < n && words[..n][i] == w;
      }
      if Contains(text, last) {
        var r := front + [last];
        forall i, j | 0 <= i < j < |r| ensures RankIn(keys, r[i]) < RankIn(keys, r[j]) {
          if j < |front| {
            assert r[i] == front[i] && r[j] == front[j];
          } else {
            assert r[i] == front[i] && front[i] in front;
          }
        }
      } else {
        assert FilterContained(words, text) == front;
      }
    }
  }

  /** The department words are distinct, so each one's position is its index. */
  lemma DepartmentsRanked()
    ensures RankedIn(Departments, Departments)
  {
    forall p | 0 <= p < |Departments| ensures RankIn(Departments, Departments[p]) == p {
      RankInDistinct(Departments, p);
    }
  }

  datatype DepartmentBreakdown =
    | DepartmentUnspecified(score: int, max: int, status: string, matched: bool)
    | DepartmentCompared(
        score: int, max: int, jobDepartments: seq<string>, candidateDepartments: seq<string>,
        status: string, matched: bool)

  /** `calculateDepartmentScore`: the department words of the job description, and the
      share of them the resume mentions as points out of 10; a neutral 7 when the
      description names no department. */
  function CalculateDepartmentScore(resumeText: string, jobDescription: string): (b: DepartmentBreakdown)
    ensures b.max == 10
    ensures b.DepartmentUnspecified? <==> forall d :: d in Departments ==> !Contains(Lower(jobDescription), d)
    ensures b.DepartmentUnspecified? ==> b.score == 7 && !b.matched && b.status == "Department not specified in job"
    ensures b.DepartmentCompared? ==>
      && (forall d :: d in b.jobDepartments <==> d in Departments && Contains(Lower(jobDescription), d))
      && (forall d :: d in b.candidateDepartments <==> d in b.jobDepartments && Contains(Lower(resumeText), d))
      && RankedIn(b.jobDepartments, Departments) && RankedIn(b.candidateDepartments, Departments)
      && 0 < |b.jobDepartments| && |b.candidateDepartments| <= |b.jobDepartments|
      && b.score == Share(|b.candidateDepartments|, |b.jobDepartments|, 10)
      && 0 <= b.score <= 10
      && b.status == (if b.matched then "Matched" else "Not matched")
    ensures b.matched <==>
      exists d :: d in Departments && Contains(Lower(jobDescription), d) && Contains(Lower(resumeText), d)
  {
    var resumeLower := Lower(resumeText);
    var jobLower := Lower(jobDescription);
    var jobDepartments := FilterContained(Departments, jobLower);
    DepartmentsRanked();
    FilterContainedRanked(Departments, jobLower, Departments);
    FilterContainedRanked(jobDepartments, resumeLower, Departments);
    if |jobDepartments| == 0 then
      assert forall d :: d in Departments ==> d !in jobDepartments;
      DepartmentUnspecified(7, 10, "Department not specified in job", false)
    else
      assert jobDepartments[0] in jobDepartments;
      var matchedDepartments := FilterContained(jobDepartments, resumeLower);
      assert |matchedDepartments| > 0 ==> matchedDepartments[0] in matchedDepartments;
      DepartmentCompared(
        Share(|matchedDepartments|, |jobDepartments|, 10), 10, jobDepartments, matchedDepartments,
        if |matchedDepartments| > 0 then "Matched" else "Not matched", |matchedDepartments| > 0)
  }

  /** A resume that mentions every department the job description names earns the full
      10 points. */
  lemma DepartmentAllMentioned(resumeText: string, jobDescription: string)
    requires exists d :: d in Departments && Contains(Lower(jobDescription), d)
    requires forall d :: d in Departments && Contains(Lower(jobDescription), d) ==> Contains(Lower(resumeText), d)
    ensures CalculateDepartmentScore(resumeText, jobDescription).score == 10
  {
    var b := CalculateDepartmentScore(resumeText, jobDescription);
    var d :| d in Departments && Contains(Lower(jobDescription), d);
    assert b.DepartmentCompared?;
    assert b.candidateDepartments == b.jobDepartments by {
      assert forall d :: d in b.jobDepartments ==> Contains(Lower(resumeText), d);
      assert b.candidateDepartments == FilterContained(b.jobDepartments, Lower(resumeText));
    }
    RoundWhole(10, |b.jobDepartments|);
  }

  /** A resume that mentions none of them earns nothing. */
  lemma DepartmentNoneMentioned(resumeText: string, jobDescription: string)
    requires exists d :: d in Departments && Contains(Lower(jobDescription), d)
    requires forall d :: d in Departments ==> !Contains(Lower(resumeText), d)
    ensures CalculateDepartmentScore(resumeText, jobDescription).score == 0
  {
    var jobDepartments := FilterContained(Departments, Lower(jobDescription));
    var d :| d in Departments && Contains(Lower(jobDescription), d);
    assert d in jobDepartments;
    var matchedDepartments := FilterContained(jobDepartments, Lower(resumeText));
    if matchedDepartments != [] {
      assert matchedDepartments[0] in matchedDepartments;
    }
    RoundWhole(0, |jobDepartments|);
  }

  // ---------------------------------------------------------------------------
  // Description: 20 points

  datatype DescriptionBreakdown =
    | NoKeywords(score: int, max: int, keywordMatches: nat, totalKeywords: nat, status: string)
    | KeywordsCompared(
        score: int, max: int, keywordMatches: nat, totalKeywords: nat, matchPercentage: int,
        status: string)

  /** `calculateDescriptionScore`: the skills the extractor finds in the job description,
      and the share of them the candidate's skills include, as points out of 20 and as a
      percentage; a neutral 15 when the description yields no skill. */
  function CalculateDescriptionScore(candidateSkills: seq<string>, jobDescription: string)
    : (b: DescriptionBreakdown)
    ensures b.max == 20
    ensures b.NoKeywords? <==> AiSkillMatcher.ExtractSpec(jobDescription) == []
    ensures b.NoKeywords? ==>
      && b.score == 15 && b.keywordMatches == 0 && b.totalKeywords == 0
      && b.status == "No specific keywords in description"
    ensures b.KeywordsCompared? ==>
      var descriptionSkills := AiSkillMatcher.ExtractSpec(jobDescription);
      && b.totalKeywords == |descriptionSkills| > 0
      && b.keywordMatches == |AiSkillMatcher.Present(descriptionSkills, candidateSkills)|
      && b.keywordMatches <= b.totalKeywords
      && b.score == Share(b.keywordMatches, b.totalKeywords, 20)
      && b.matchPercentage == Share(b.keywordMatches, b.totalKeywords, 100)
      && 0 <= b.score <= 20 && 0 <= b.matchPercentage <= 100
      && b.status == NatToString(b.keywordMatches) + " of " + NatToString(b.totalKeywords) + " keywords matched"
  {
    var descriptionSkills := AiSkillMatcher.ExtractSpec(jobDescription);
    if |descriptionSkills| == 0 then
      NoKeywords(15, 20, 0, 0, "No specific keywords in description")
    else
      var matches := AiSkillMatcher.Present(descriptionSkills, candidateSkills);
      var n := |descriptionSkills|;
      KeywordsCompared(
        Share(|matches|, n, 20), 20, |matches|, n, Share(|matches|, n, 100),
        NatToString(|matches|) + " of " + NatToString(n) + " keywords matched")
  }

  /** A candidate listing every skill of the description earns the full 20 points and 100
      percent. */
  lemma DescriptionAllListed(candidateSkills: seq<string>, jobDescription: string)
    requires AiSkillMatcher.ExtractSpec(jobDescription) != []
    requires forall s :: s in AiSkillMatcher.ExtractSpec(jobDescription) ==> s in candidateSkills
    ensures CalculateDescriptionScore(candidateSkills, jobDescription).score == 20
    ensures CalculateDescriptionScore(candidateSkills, jobDescription).matchPercentage == 100
  {
    var descriptionSkills := AiSkillMatcher.ExtractSpec(jobDescription);
    AiSkillMatcher.PresentAll(descriptionSkills, candidateSkills);
    RoundWhole(20, |descriptionSkills|);
    RoundWhole(100, |descriptionSkills|);
  }

  /** A candidate listing none of them earns nothing. */
  lemma DescriptionNoneListed(candidateSkills: seq<string>, jobDescription: string)
    requires AiSkillMatcher.ExtractSpec(jobDescription) != []
    requires forall s :: s in AiSkillMatcher.ExtractSpec(jobDescription) ==> s !in candidateSkills
    ensures CalculateDescriptionScore(candidateSkills, jobDescription).score == 0
    ensures CalculateDescriptionScore(candidateSkills, jobDescription).matchPercentage == 0
  {
    var descriptionSkills := AiSkillMatcher.ExtractSpec(jobDescription);
    AiSkillMatcher.PresentNone(descriptionSkills, candidateSkills);
    RoundWhole(0, |descriptionSkills|);
  }

  // ---------------------------------------------------------------------------
  // Narrative

  /** The overall verdict the narrative opens with. */
  datatype Verdict = Excellent | Good | Moderate | NotBestFit

  function VerdictOf(totalScore: int): Verdict
  {
    if totalScore >= 80 then Excellent
    else if totalScore >= 60 then Good
    else if totalScore >= 40 then Moderate
    else NotBestFit
  }

  const ExcellentMatch := "This candidate is an excellent match for the role. "
  const GoodMatch := "This candidate is a good match for the role. "
  const ModerateMatch := "This candidate is a moderate match for the role. "
  const NotBestFitMatch := "This candidate may not be the best fit for the role. "

  function VerdictSentence(v: Verdict): string
  {
    match v
    case Excellent => ExcellentMatch
    case Good => GoodMatch
    case Moderate => ModerateMatch
    case NotBestFit => NotBestFitMatch
  }

  const MostSkills := "They possess most of the required technical skills. "
  const SomeSkills := "They have some of the required skills but are missing key competencies. "
  const FewSkills := "They are missing several critical skills. "

  function SkillsSentence(matchPercentage: int): string
  {
    if matchPercentage >= 80 then MostSkills
    else if matchPercentage >= 50 then SomeSkills
    else FewSkills
  }

  const AlignsWell := "Their experience level aligns well with the requirements. "
  const CloseToNeeded := "Their experience is close to what is needed. "
  const NeedsMore := "They may need more experience for this role. "

  function ExperienceSentence(score: int): string
  {
    if score >= 18 then AlignsWell
    else if score >= 12 then CloseToNeeded
    else NeedsMore
  }

  const DomainSentence := "They have relevant domain experience. "

  const StronglyAligns := "Their background strongly aligns with the job description."
  const PartiallyAligns := "Their background partially aligns with the job description."

  /** The closing sentence, if any; a description that yielded no skill has no
      percentage, and comparing the missing value with a threshold is false. */
  function DescriptionSentence(description: DescriptionBreakdown): Option<string>
  {
    if description.KeywordsCompared? && description.matchPercentage >= 70 then Some(StronglyAligns)
    else if description.KeywordsCompared? && description.matchPercentage >= 40 then Some(PartiallyAligns)
    else None
  }

  /** The narrative: overall verdict, skills, experience, domain (only when a department
      matched) and description (only when enough of it matched), in that order. */
  function Narrative(
    totalScore: int, skills: SkillsBreakdown, experience: ExperienceBreakdown,
    department: DepartmentBreakdown, description: DescriptionBreakdown): string
  {
    var assessed := VerdictSentence(VerdictOf(totalScore)) + SkillsSentence(skills.matchPercentage)
      + ExperienceSentence(experience.score);
    var withDomain := if department.matched then assessed + DomainSentence else assessed;
    match DescriptionSentence(description)
    case None => withDomain
    case Some(closing) => withDomain + closing
  }

  /** `generateHumanExplanation`: appends one sentence per factor to the overall verdict. */
  method GenerateHumanExplanation(
    totalScore: int, skills: SkillsBreakdown, experience: ExperienceBreakdown,
    department: DepartmentBreakdown, description: DescriptionBreakdown)
    returns (explanation: string)
    ensures explanation == Narrative(totalScore, skills, experience, department, description)
  {
    if totalScore >= 80 {
      explanation := ExcellentMatch;
    } else if totalScore >= 60 {
      explanation := GoodMatch;
    } else if totalScore >= 40 {
      explanation := ModerateMatch;
    } else {
      explanation := NotBestFitMatch;
    }
    assert explanation == VerdictSentence(VerdictOf(totalScore));

    if skills.matchPercentage >= 80 {
      explanation := explanation + MostSkills;
    } else if skills.matchPercentage >= 50 {
      explanation := explanation + SomeSkills;
    } else {
      explanation := explanation + FewSkills;
    }
    assert explanation == VerdictSentence(VerdictOf(totalScore)) + SkillsSentence(skills.matchPercentage);

    if experience.score >= 18 {
      explanation := explanation + AlignsWell;
    } else if experience.score >= 12 {
      explanation := explanation + CloseToNeeded;
    } else {
      explanation := explanation + NeedsMore;
    }
    ghost var assessed := explanation;
    assert assessed == VerdictSentence(VerdictOf(totalScore)) + SkillsSentence(skills.matchPercentage)
      + ExperienceSentence(experience.score);

    if department.matched {
      explanation := explanation + DomainSentence;
    }
    assert explanation == if department.matched then assessed + DomainSentence else assessed;

    if description.KeywordsCompared? && description.matchPercentage >= 70 {
      explanation := explanation + StronglyAligns;
    } else if description.KeywordsCompared? && description.matchPercentage >= 40 {
      explanation := explanation + PartiallyAligns;
    }
  }

  /** An explanation opens with at most one verdict: the four opening sentences disagree
      at one of the letters 15, 19 and 20. */
  lemma OpeningDeterminesVerdict(e: string, v: Verdict, w: Verdict)
    requires VerdictSentence(v) <= e && VerdictSentence(w) <= e
    ensures v == w
  {
    var s, t := VerdictSentence(v), VerdictSentence(w);
    assert |s| > 20 && |t| > 20;
    assert s[15] == e[15] == t[15] && s[19] == e[19] == t[19] && s[20] == e[20] == t[20];
  }

  /** The narrative opens with the verdict of its total. */
  lemma NarrativeVerdict(
    totalScore: int, skills: SkillsBreakdown, experience: ExperienceBreakdown,
    department: DepartmentBreakdown, description: DescriptionBreakdown)
    ensures VerdictSentence(VerdictOf(totalScore)) <= Narrative(totalScore, skills, experience, department, description)
  {
    var opening := VerdictSentence(VerdictOf(totalScore));
    var narrative := Narrative(totalScore, skills, experience, department, description);
    var rest := narrative[|opening|..];
    assert narrative == opening + rest;
  }

  /** The three experience sentences differ from one another. */
  lemma ExperienceSentencesDistinct()
    ensures AlignsWell != CloseToNeeded && AlignsWell != NeedsMore && CloseToNeeded != NeedsMore
  {
    assert |AlignsWell| == 58 && |CloseToNeeded| == 45 && |NeedsMore| == 45;
    assert CloseToNeeded[4] == 'r' && NeedsMore[4] == ' ';
  }

  /** Over an experience score the narrative says the experience aligns well exactly when
      the candidate meets the requirement, and that it is close exactly in the close band. */
  lemma ExperienceSentenceOfPoints(c: nat, r: nat)
    ensures ExperienceSentence(ExperiencePoints(c, r)) == AlignsWell <==> c >= r
    ensures ExperienceSentence(ExperiencePoints(c, r)) == CloseToNeeded <==> c < r && 10 * c >= 7 * r
    ensures ExperienceSentence(ExperiencePoints(c, r)) == NeedsMore <==> 10 * c < 7 * r
  {
    ExperienceClose(c, r);
    ExperienceSentencesDistinct();
  }

  // ---------------------------------------------------------------------------
  // The explanation of one application

  datatype ScoreExplanation = ScoreExplanation(
    totalScore: int, skills: SkillsBreakdown, experience: ExperienceBreakdown,
    department: DepartmentBreakdown, description: DescriptionBreakdown, explanation: string)

  /** `Application.findOne({ job, candidate })`: the first application, in store order, of
      the candidate to the job. */
  function FindApplication(applications: seq<Records.Application>, jobId: Records.JobId, candidateId: Records.CandidateId)
    : (r: Option<Records.Application>)
    ensures r.None? <==> forall a :: a in applications ==> !(a.job == jobId && a.candidate == candidateId)
    ensures r.Some? ==> r.value in applications && r.value.job == jobId && r.value.candidate == candidateId
  {
    if applications == [] then None
    else if applications[0].job == jobId && applications[0].candidate == candidateId then Some(applications[0])
    else
      assert forall a :: a in applications ==> a == applications[0] || a in applications[1..];
      FindApplication(applications[1..], jobId, candidateId)
  }

  /** The error JavaScript raises when the years pattern is applied to a missing resume text. */
  const MissingTextError := "Cannot read properties of undefined (reading 'match')"

  /** The text the department words are looked for in: the stored resume's text, or the
      application's text when there is no resume or its text is empty. */
  function DepartmentText(resumes: map<Records.CandidateId, Records.Resume>, candidateId: Records.CandidateId, applicationText: string)
    : string
  {
    if candidateId in resumes && resumes[candidateId].extractedText != [] then resumes[candidateId].extractedText
    else applicationText
  }

  /** The candidate skills the description is compared with: the stored resume's skills, or
      none without a resume. */
  function ResumeSkills(resumes: map<Records.CandidateId, Records.Resume>, candidateId: Records.CandidateId): seq<string>
  {
    if candidateId in resumes then resumes[candidateId].extractedSkills else []
  }

  /** The sum of the four sub-scores is at least 5, as the experience points are, and at
      most 100 when no more skills were matched than required. */
  lemma TotalScoreRange(
    skills: SkillsBreakdown, matched: seq<string>, missing: seq<string>, required: seq<string>,
    c: nat, r: nat, department: DepartmentBreakdown, description: DescriptionBreakdown)
    requires skills == CalculateSkillsScore(matched, missing, required)
    requires 0 <= department.score <= 10 && 0 <= description.score <= 20
    ensures skills.score + ExperiencePoints(c, r) + department.score + description.score >= 5
    ensures |matched| <= |required| ==>
      skills.score + ExperiencePoints(c, r) + department.score + description.score <= 100
  {
    if |matched| <= |required| {
      SkillsScoreRange(matched, missing, required);
    }
  }

  /** The breakdown and narrative of an application to a job whose resume text is known. */
  method Explain(
    application: Records.Application, resumeText: string, job: Records.Job,
    resumes: map<Records.CandidateId, Records.Resume>, candidateId: Records.CandidateId)
    returns (x: ScoreExplanation)
    ensures x.skills == CalculateSkillsScore(application.matchedSkills, application.missingSkills, job.requiredSkills)
    ensures ExperienceDescribed(x.experience, resumeText, job.experience)
    ensures x.department == CalculateDepartmentScore(DepartmentText(resumes, candidateId, resumeText), job.description)
    ensures x.description == CalculateDescriptionScore(ResumeSkills(resumes, candidateId), job.description)
    ensures x.totalScore == x.skills.score + x.experience.score + x.department.score + x.description.score
    ensures x.explanation == Narrative(x.totalScore, x.skills, x.experience, x.department, x.description)
  {
    var skillsBreakdown := CalculateSkillsScore(application.matchedSkills, application.missingSkills, job.requiredSkills);
    var experienceBreakdown := CalculateExperienceScore(resumeText, job.experience);
    var departmentBreakdown := CalculateDepartmentScore(DepartmentText(resumes, candidateId, resumeText), job.description);
    var descriptionBreakdown := CalculateDescriptionScore(ResumeSkills(resumes, candidateId), job.description);
    var totalScore := skillsBreakdown.score + experienceBreakdown.score + departmentBreakdown.score
      + descriptionBreakdown.score;
    var explanation := GenerateHumanExplanation(
      totalScore, skillsBreakdown, experienceBreakdown, departmentBreakdown, descriptionBreakdown);
    x := ScoreExplanation(
      totalScore, skillsBreakdown, experienceBreakdown, departmentBreakdown, descriptionBreakdown, explanation);
  }

  /** `generateScoreExplanation`: looks up the application and the job, then explains the
      match; the sum lies in 5..100 when the application matched no more skills than the
      job requires, and the narrative opens with the verdict of that sum. */
  method GenerateScoreExplanation(
    applications: seq<Records.Application>, jobs: map<Records.JobId, Records.Job>,
    resumes: map<Records.CandidateId, Records.Resume>, jobId: Records.JobId, candidateId: Records.CandidateId)
    returns (r: Result<ScoreExplanation>)
    ensures FindApplication(applications, jobId, candidateId).None? ==> r == Err("Application not found")
    ensures FindApplication(applications, jobId, candidateId).Some? && jobId !in jobs ==> r == Err("Job not found")
    ensures
      && FindApplication(applications, jobId, candidateId).Some? && jobId in jobs
      && FindApplication(applications, jobId, candidateId).value.resumeText.None?
      ==> r == Err(MissingTextError)
    ensures
      && FindApplication(applications, jobId, candidateId).Some? && jobId in jobs
      && FindApplication(applications, jobId, candidateId).value.resumeText.Some?
      ==> r.Ok?
    ensures r.Ok? ==>
      && FindApplication(applications, jobId, candidateId).Some? && jobId in jobs
      && var app := FindApplication(applications, jobId, candidateId).value;
      && app.resumeText.Some?
      && r.value.totalScore >= 5
      && (|app.matchedSkills| <= |jobs[jobId].requiredSkills| ==> r.value.totalScore <= 100)
      && VerdictSentence(VerdictOf(r.value.totalScore)) <= r.value.explanation
      && r.value.skills == CalculateSkillsScore(app.matchedSkills, app.missingSkills, jobs[jobId].requiredSkills)
      && ExperienceDescribed(r.value.experience, app.resumeText.value, jobs[jobId].experience)
      && r.value.department
        == CalculateDepartmentScore(DepartmentText(resumes, candidateId, app.resumeText.value), jobs[jobId].description)
      && r.value.description == CalculateDescriptionScore(ResumeSkills(resumes, candidateId), jobs[jobId].description)
      && r.value.totalScore
        == r.value.skills.score + r.value.experience.score + r.value.department.score + r.value.description.score
      && r.value.explanation
        == Narrative(r.value.totalScore, r.value.skills, r.value.experience, r.value.department, r.value.description)
  {
    var found := FindApplication(applications, jobId, candidateId);
    if found.None? {
      return Err("Application not found");
    }
    var application := found.value;
    if jobId !in jobs {
      return Err("Job not found");
    }
    var job := jobs[jobId];
    if application.resumeText.None? {
      return Err(MissingTextError);
    }
    var x := Explain(application, application.resumeText.value, job, resumes, candidateId);
    TotalScoreRange(
      x.skills, application.matchedSkills, application.missingSkills, job.requiredSkills,
      CandidateYears(application.resumeText.value), RequiredYears(job.experience), x.department, x.description);
    NarrativeVerdict(x.totalScore, x.skills, x.experience, x.department, x.description);
    r := Ok(x);
  }
}
