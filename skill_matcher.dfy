/** The legacy scorer (backend/utils/skillMatcher.js): the share of required skills whose
    lowercase form occurs anywhere in the lowercased resume text, as a rounded percentage.
    An absent text or skill list is the empty one here; both score 0 like an empty one. */
module SkillMatcher {
  import opened Text
  import opened Rounding

  /** The skill's lowercase form occurs in the lowercased text, with no word boundary. */
  predicate Mentions(text: string, skill: string)
  {
    Contains(Lower(text), Lower(skill))
  }

  /** How many of the skills the text mentions. */
  function MentionCount(text: string, skills: seq<string>): (n: nat)
    ensures n <= |skills|
    ensures n == |skills| <==> forall i :: 0 <= i < |skills| ==> Mentions(text, skills[i])
    ensures n == 0 <==> forall i :: 0 <= i < |skills| ==> !Mentions(text, skills[i])
  {
    if skills == [] then 0
    else MentionCount(text, skills[..|skills| - 1]) + (if Mentions(text, skills[|skills| - 1]) then 1 else 0)
  }

  /** What `calculateMatchScore(resumeText, requiredSkills)` returns. */
  function LegacyScore(resumeText: string, requiredSkills: seq<string>): int
  {
    if resumeText == [] || requiredSkills == [] then 0
    else Round(100 * MentionCount(resumeText, requiredSkills), |requiredSkills|)
  }

  /** `calculateMatchScore`: counts the required skills the lowercased text contains, then
      rounds their percentage. */
  method CalculateMatchScore(resumeText: string, requiredSkills: seq<string>) returns (score: int)
    ensures score == LegacyScore(resumeText, requiredSkills)
  {
    if resumeText == [] || |requiredSkills| == 0 {
      return 0;
    }
    var lowerCaseText := Lower(resumeText);
    var matchCount := 0;
    for i := 0 to |requiredSkills|
      invariant matchCount == MentionCount(resumeText, requiredSkills[..i])
    {
      if Contains(lowerCaseText, Lower(requiredSkills[i])) {
        matchCount := matchCount + 1;
      }
      assert requiredSkills[..i + 1][..i] == requiredSkills[..i];
    }
    assert requiredSkills[..|requiredSkills|] == requiredSkills;
    score := Round(100 * matchCount, |requiredSkills|);
  }

  /** The score is a percentage. */
  lemma LegacyScoreRange(resumeText: string, requiredSkills: seq<string>)
    ensures 0 <= LegacyScore(resumeText, requiredSkills) <= 100
  {
    if resumeText != [] && requiredSkills != [] {
      RoundBetween(100 * MentionCount(resumeText, requiredSkills), |requiredSkills|, 0, 100);
    }
  }

  /** A non-empty text mentioning every required skill scores 100. */
  lemma LegacyScoreAll(resumeText: string, requiredSkills: seq<string>)
    requires resumeText != [] && requiredSkills != []
    requires forall i :: 0 <= i < |requiredSkills| ==> Mentions(resumeText, requiredSkills[i])
    ensures LegacyScore(resumeText, requiredSkills) == 100
  {
    RoundWhole(100, |requiredSkills|);
  }

  /** A text mentioning none of them scores 0. */
  lemma LegacyScoreNone(resumeText: string, requiredSkills: seq<string>)
    requires forall i :: 0 <= i < |requiredSkills| ==> !Mentions(resumeText, requiredSkills[i])
    ensures LegacyScore(resumeText, requiredSkills) == 0
  {
    if resumeText != [] && requiredSkills != [] {
      RoundWhole(0, |requiredSkills|);
    }
  }

  /** Matching more required skills never lowers the score. */
  lemma LegacyScoreMonotone(t1: string, t2: string, requiredSkills: seq<string>)
    requires t1 != [] && t2 != []
    requires MentionCount(t1, requiredSkills) <= MentionCount(t2, requiredSkills)
    ensures LegacyScore(t1, requiredSkills) <= LegacyScore(t2, requiredSkills)
  {
    if requiredSkills != [] {
      RoundMonotone(100 * MentionCount(t1, requiredSkills), 100 * MentionCount(t2, requiredSkills), |requiredSkills|);
    }
  }

  /** Two skill lists that agree letter for letter once lowercased. */
  predicate SameIgnoringCase(s1: seq<string>, s2: seq<string>)
  {
    |s1| == |s2| && forall i :: 0 <= i < |s1| ==> Lower(s1[i]) == Lower(s2[i])
  }

  lemma {:induction false} MentionCountIgnoresCase(t1: string, t2: string, s1: seq<string>, s2: seq<string>)
    requires Lower(t1) == Lower(t2) && SameIgnoringCase(s1, s2)
    ensures MentionCount(t1, s1) == MentionCount(t2, s2)
  {
    if s1 != [] {
      var n := |s1| - 1;
      assert SameIgnoringCase(s1[..n], s2[..n]);
      MentionCountIgnoresCase(t1, t2, s1[..n], s2[..n]);
    }
  }

  /** Changing the case of the text or of any skill does not change the score. */
  lemma LegacyScoreIgnoresCase(t1: string, t2: string, s1: seq<string>, s2: seq<string>)
    requires Lower(t1) == Lower(t2) && SameIgnoringCase(s1, s2)
    ensures LegacyScore(t1, s1) == LegacyScore(t2, s2)
  {
    MentionCountIgnoresCase(t1, t2, s1, s2);
    assert |t1| == |Lower(t1)|;
  }

  /** A skill is found inside a longer word: "Java" counts in a resume that says
      "javascript", unlike the whole-word matching of the ontology matcher. */
  lemma JavaInsideJavascript()
    ensures LegacyScore("javascript", ["Java"]) == 100
  {
    assert Lower("Java") == "java";
    assert Lower("javascript") == "javascript";
    assert OccursAt("javascript", "java", 0);
    ContainsIff("javascript", "java");
    LegacyScoreAll("javascript", ["Java"]);
  }
}
