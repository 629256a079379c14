/** Ontology-based skill extraction, weighted core/secondary match scoring and candidate
    ranking (backend/utils/aiSkillMatcher.js). */
module AiSkillMatcher {
  import opened Outcomes
  import opened Text
  import opened Rounding
  import opened Sequences
  import Ranking
  import Records

  /** One ontology entry: a canonical skill and the spellings that stand for it. */
  type Entry = (string, seq<string>)

  /** The fixed skill ontology, in the order of its keys. */
  const Ontology: seq<Entry> := [
    ("javascript", ["js", "javascript", "ecmascript", "es6"]),
    ("react", ["react", "reactjs", "react.js", "react.native"]),
    ("node", ["node", "nodejs", "node.js"]),
    ("mongodb", ["mongo", "mongodb", "mongoose", "nosql"]),
    ("express", ["express", "expressjs", "express.js"]),
    ("python", ["python", "py", "pandas", "numpy"]),
    ("java", ["java", "spring", "springboot"]),
    ("html", ["html", "html5"]),
    ("css", ["css", "css3", "scss", "sass", "tailwind", "bootstrap"]),
    ("sql", ["sql", "mysql", "postgresql", "postgres"]),
    ("git", ["git", "github", "gitlab"]),
    ("aws", ["aws", "amazon web services", "ec2", "s3", "lambda"]),
    ("docker", ["docker", "kubernetes", "k8s"])
  ]

  /** The canonical skills, in ontology order (`Object.keys(skillOntology)`). */
  function Keys(): (keys: seq<string>)
    ensures |keys| == |Ontology|
    ensures forall p :: 0 <= p < |Ontology| ==> keys[p] == Ontology[p].0
  {
    KeysOf(Ontology)
  }

  /** The canonical skills are pairwise different. */
  lemma KeysDistinct()
    ensures DistinctKeys(Ontology)
  {
  }

  /** The position of k among the ontology keys (their number when k is not a key). */
  function KeyRank(k: string): nat
  {
    RankIn(Keys(), k)
  }

  /** The rank of the p-th key is p. */
  lemma KeyRankOf(p: nat)
    requires p < |Ontology|
    ensures KeyRank(Ontology[p].0) == p
  {
    KeysDistinct();
    RankInDistinct(Keys(), p);
  }

  // ---------------------------------------------------------------------------
  // Normalisation: lowercase, /[^a-z0-9\s.+]/g -> ' ', /\s+/g -> ' '

  /** The character class the first replacement keeps. */
  predicate Kept(c: char)
  {
    'a' <= c <= 'z' || IsDigit(c) || IsSpace(c) || c == '.' || c == '+'
  }

  /** `.replace(/[^a-z0-9\s.+]/g, ' ')` on one character. */
  function Scrub(c: char): (r: char)
    ensures Kept(r)
    ensures Kept(c) ==> r == c
  {
    if Kept(c) then c else ' '
  }

  /** Lowercasing followed by the first replacement. */
  function Clean(s: string): (r: string)
    ensures |r| == |s|
    ensures forall i :: 0 <= i < |s| ==> r[i] == Scrub(LowerChar(s[i]))
  {
    seq(|s|, i requires 0 <= i < |s| => Scrub(LowerChar(s[i])))
  }

  /** Drops the run of whitespace at the front of s. */
  function SkipSpaces(s: string): (r: string)
    ensures |r| <= |s| && r == s[|s| - |r|..]
    ensures forall i :: 0 <= i < |s| - |r| ==> IsSpace(s[i])
    ensures r == [] || !IsSpace(r[0])
  {
    if s != [] && IsSpace(s[0]) then SkipSpaces(s[1..]) else s
  }

  /** `.replace(/\s+/g, ' ')`: every maximal run of whitespace becomes one space. */
  function Collapse(s: string): (r: string)
    decreases |s|
  {
    if s == [] then []
    else if IsSpace(s[0]) then [' '] + Collapse(SkipSpaces(s[1..]))
    else [s[0]] + Collapse(s[1..])
  }

  /** The normalised text the whole-word tests run on. */
  function Normalize(text: string): string
  {
    Collapse(Clean(text))
  }

  /** The characters a normalised text is made of. */
  predicate NormalChar(c: char)
  {
    'a' <= c <= 'z' || IsDigit(c) || c == '.' || c == '+' || c == ' '
  }

  /** A normalised text: only lowercase letters, digits, '.', '+' and single spaces. */
  predicate IsNormalized(u: string)
  {
    forall i :: 0 <= i < |u| ==> NormalChar(u[i]) && (u[i] == ' ' && i + 1 < |u| ==> u[i + 1] != ' ')
  }

  lemma ConsNormalized(x: char, u: string)
    requires NormalChar(x) && IsNormalized(u)
    requires x == ' ' && u != [] ==> u[0] != ' '
    ensures IsNormalized([x] + u)
  {
    var v := [x] + u;
    forall i | 0 <= i < |v|
      ensures NormalChar(v[i]) && (v[i] == ' ' && i + 1 < |v| ==> v[i + 1] != ' ')
    {
      if i > 0 {
        assert v[i] == u[i - 1];
      }
      if i + 1 < |v| {
        assert v[i + 1] == u[i];
      }
    }
  }

  lemma {:induction false} CollapseNormalized(s: string)
    requires forall i :: 0 <= i < |s| ==> Kept(s[i])
    ensures IsNormalized(Collapse(s))
    ensures s != [] ==> Collapse(s) != [] && Collapse(s)[0] == (if IsSpace(s[0]) then ' ' else s[0])
    decreases |s|
  {
    if s != [] {
      var tail := s[1..];
      assert forall i :: 0 <= i < |tail| ==> tail[i] == s[i + 1];
      if IsSpace(s[0]) {
        var rest := SkipSpaces(tail);
        assert forall i :: 0 <= i < |rest| ==> rest[i] == tail[|tail| - |rest| + i];
        CollapseNormalized(rest);
        assert Collapse(s) == [' '] + Collapse(rest);
        ConsNormalized(' ', Collapse(rest));
      } else {
        CollapseNormalized(tail);
        assert Collapse(s) == [s[0]] + Collapse(tail);
        ConsNormalized(s[0], Collapse(tail));
      }
    }
  }

  lemma {:induction false} CollapseFixed(u: string)
    requires IsNormalized(u)
    ensures Collapse(u) == u
    decreases |u|
  {
    if u != [] {
      var rest := u[1..];
      assert IsNormalized(rest) by {
        assert forall i :: 0 <= i < |rest| ==> rest[i] == u[i + 1];
      }
      if IsSpace(u[0]) {
        if rest != [] {
          assert rest[0] == u[1];
          assert !IsSpace(rest[0]);
        }
        assert SkipSpaces(rest) == rest;
      }
      CollapseFixed(rest);
    }
  }

  /** Normalisation yields a normalised text. */
  lemma NormalizeShape(text: string)
    ensures IsNormalized(Normalize(text))
    ensures |Normalize(text)| <= |text|
    ensures text != [] ==> Normalize(text) != []
  {
    CollapseNormalized(Clean(text));
    CollapseShorter(Clean(text));
  }

  lemma {:induction false} CollapseShorter(s: string)
    ensures |Collapse(s)| <= |s|
    decreases |s|
  {
    if s != [] {
      if IsSpace(s[0]) {
        CollapseShorter(SkipSpaces(s[1..]));
      } else {
        CollapseShorter(s[1..]);
      }
    }
  }

  /** Normalising a normalised text changes nothing. */
  lemma NormalizeIdempotent(text: string)
    ensures Normalize(Normalize(text)) == Normalize(text)
  {
    var u := Normalize(text);
    NormalizeShape(text);
    assert Clean(u) == u;
    CollapseFixed(u);
  }

  // ---------------------------------------------------------------------------
  // Extraction

  /** `variations.some(v => /\bv\b/i.test(u))`, with v escaped, on a normalised text u. */
  predicate AnyAliasFound(u: string, aliases: seq<string>)
  {
    if aliases == [] then false else HasWord(u, aliases[0]) || AnyAliasFound(u, aliases[1..])
  }

  lemma {:induction false} AnyAliasFoundIff(u: string, aliases: seq<string>)
    ensures AnyAliasFound(u, aliases) <==> exists a :: a in aliases && HasWord(u, a)
  {
    if aliases != [] {
      AnyAliasFoundIff(u, aliases[1..]);
      assert forall a :: a in aliases <==> a == aliases[0] || a in aliases[1..];
    }
  }

  /** The canonical skills of `entries` (in their order) that have an alias in u. */
  function ExtractFrom(entries: seq<Entry>, u: string): seq<string>
  {
    if entries == [] then []
    else
      var last := entries[|entries| - 1];
      ExtractFrom(entries[..|entries| - 1], u) + (if AnyAliasFound(u, last.1) then [last.0] else [])
  }

  /** What `extractSkillsAI(text)` returns; absent text is the empty string here. */
  function ExtractSpec(text: string): seq<string>
  {
    if text == [] then [] else ExtractFrom(Ontology, Normalize(text))
  }

  /** The keys of a list of entries, in order. */
  function KeysOf(entries: seq<Entry>): (keys: seq<string>)
    ensures |keys| == |entries|
    ensures forall p :: 0 <= p < |entries| ==> keys[p] == entries[p].0
  {
    seq(|entries|, p requires 0 <= p < |entries| => entries[p].0)
  }

  predicate DistinctKeys(entries: seq<Entry>)
  {
    forall p, q :: 0 <= p < q < |entries| ==> entries[p].0 != entries[q].0
  }

  lemma {:induction false} ExtractFromSound(entries: seq<Entry>, n: nat, u: string)
    requires n <= |entries| && DistinctKeys(entries)
    ensures forall i :: 0 <= i < |ExtractFrom(entries[..n], u)| ==>
      var k := ExtractFrom(entries[..n], u)[i];
      var p := RankIn(KeysOf(entries), k);
      p < n && entries[p].0 == k && AnyAliasFound(u, entries[p].1)
  {
    if n > 0 {
      ExtractFromSound(entries, n - 1, u);
      var prev := ExtractFrom(entries[..n - 1], u);
      var e := entries[n - 1];
      assert entries[..n][..n - 1] == entries[..n - 1];
      var r := ExtractFrom(entries[..n], u);
      assert r == prev + (if AnyAliasFound(u, e.1) then [e.0] else []);
      RankInDistinct(KeysOf(entries), n - 1);
      forall i | 0 <= i < |r|
        ensures var p := RankIn(KeysOf(entries), r[i]);
          p < n && entries[p].0 == r[i] && AnyAliasFound(u, entries[p].1)
      {
        if i < |prev| { assert r[i] == prev[i]; }
      }
    }
  }

  lemma {:induction false} ExtractFromComplete(entries: seq<Entry>, n: nat, u: string)
    requires n <= |entries|
    ensures forall p :: 0 <= p < n && AnyAliasFound(u, entries[p].1) ==>
      entries[p].0 in ExtractFrom(entries[..n], u)
  {
    if n > 0 {
      ExtractFromComplete(entries, n - 1, u);
      assert entries[..n][..n - 1] == entries[..n - 1];
    }
  }

  lemma {:induction false} ExtractFromIncreasing(entries: seq<Entry>, n: nat, u: string)
    requires n <= |entries| && DistinctKeys(entries)
    ensures forall i, j :: 0 <= i < j < |ExtractFrom(entries[..n], u)| ==>
      RankIn(KeysOf(entries), ExtractFrom(entries[..n], u)[i])
        < RankIn(KeysOf(entries), ExtractFrom(entries[..n], u)[j])
  {
    if n > 0 {
      ExtractFromIncreasing(entries, n - 1, u);
      ExtractFromSound(entries, n - 1, u);
      var prev := ExtractFrom(entries[..n - 1], u);
      var e := entries[n - 1];
      assert entries[..n][..n - 1] == entries[..n - 1];
      var r := ExtractFrom(entries[..n], u);
      assert r == prev + (if AnyAliasFound(u, e.1) then [e.0] else []);
      RankInDistinct(KeysOf(entries), n - 1);
      forall i, j | 0 <= i < j < |r|
        ensures RankIn(KeysOf(entries), r[i]) < RankIn(KeysOf(entries), r[j])
      {
        assert r[i] == prev[i];
        if j < |prev| { assert r[j] == prev[j]; }
      }
    }
  }

  /** Every extracted skill is a canonical skill with an alias in the normalised text, and
      the skills come in strictly increasing ontology order, so none is repeated. */
  lemma ExtractOrdered(text: string)
    ensures forall k :: k in ExtractSpec(text) ==> k in Keys()
    ensures forall i, j :: 0 <= i < j < |ExtractSpec(text)| ==>
      KeyRank(ExtractSpec(text)[i]) < KeyRank(ExtractSpec(text)[j])
    ensures forall i, j :: 0 <= i < j < |ExtractSpec(text)| ==> ExtractSpec(text)[i] != ExtractSpec(text)[j]
  {
    if text != [] {
      var u := Normalize(text);
      KeysDistinct();
      ExtractFromSound(Ontology, |Ontology|, u);
      ExtractFromIncreasing(Ontology, |Ontology|, u);
      assert Ontology[..|Ontology|] == Ontology;
    }
  }

  /** A canonical skill is extracted exactly when the text is non-empty and the test of
      its aliases succeeds on the normalised text. */
  lemma ExtractMember(text: string, p: nat)
    requires p < |Ontology|
    ensures Ontology[p].0 in ExtractSpec(text) <==>
      text != [] && AnyAliasFound(Normalize(text), Ontology[p].1)
  {
    if text != [] {
      var u := Normalize(text);
      KeysDistinct();
      ExtractFromSound(Ontology, |Ontology|, u);
      ExtractFromComplete(Ontology, |Ontology|, u);
      assert Ontology[..|Ontology|] == Ontology;
      if Ontology[p].0 in ExtractSpec(text) {
        var i :| 0 <= i < |ExtractSpec(text)| && ExtractSpec(text)[i] == Ontology[p].0;
        KeyRankOf(p);
      }
    }
  }

  /** A canonical skill is extracted exactly when the text is non-empty and one of the
      skill's aliases occurs in the normalised text with a word boundary on both sides. */
  lemma ExtractIff(text: string, p: nat)
    requires p < |Ontology|
    ensures Ontology[p].0 in ExtractSpec(text) <==>
      text != [] && exists a, i: nat :: a in Ontology[p].1 && WordAt(Normalize(text), a, i)
  {
    ExtractMember(text, p);
    if text != [] {
      var u := Normalize(text);
      AnyAliasFoundIff(u, Ontology[p].1);
      forall a | a in Ontology[p].1 {
        HasWordIff(u, a);
      }
    }
  }

  /** Empty text yields no skills. */
  lemma ExtractEmpty()
    ensures ExtractSpec("") == []
  {
  }

  /** Extraction only sees the normalised text. */
  lemma ExtractNormalized(text: string)
    ensures ExtractSpec(Normalize(text)) == ExtractSpec(text)
  {
    NormalizeShape(text);
    NormalizeIdempotent(text);
  }

  /** `extractSkillsAI`: tests every ontology entry in key order and adds its canonical
      skill to the found set when one of its aliases is a whole word of the normalised text. */
  method ExtractSkillsAI(text: string) returns (skills: seq<string>)
    ensures skills == ExtractSpec(text)
  {
    if text == [] {
      return [];
    }
    var normalized := Normalize(text);
    var found: seq<string> := [];
    for i := 0 to |Ontology|
      invariant found == ExtractFrom(Ontology[..i], normalized)
    {
      var (canonical, variations) := Ontology[i];
      var isMatch := AnyAliasFound(normalized, variations);
      if isMatch {
        KeysDistinct();
        ExtractFromSound(Ontology, i, normalized);
        RankInDistinct(Keys(), i);
        if canonical !in found {
          found := found + [canonical];
        }
      }
      assert Ontology[..i + 1][..i] == Ontology[..i];
    }
    assert Ontology[..|Ontology|] == Ontology;
    skills := found;
  }

  // ---------------------------------------------------------------------------
  // Canonicalisation of a job's required skill

  /** An entry claims the lowercased skill s when s is one of its aliases or its key. */
  predicate Claims(e: Entry, s: string)
  {
    s in e.1 || e.0 == s
  }

  /** `Object.keys(skillOntology).find(key => skillOntology[key].includes(s) || key === s)`,
      scanning the entries from index i on. */
  function FindKey(entries: seq<Entry>, s: string, i: nat): Option<string>
    decreases |entries| - i
  {
    if i >= |entries| then None
    else if Claims(entries[i], s) then Some(entries[i].0)
    else FindKey(entries, s, i + 1)
  }

  lemma {:induction false} FindKeySpec(entries: seq<Entry>, s: string, i: nat)
    ensures FindKey(entries, s, i).None? <==> forall p :: i <= p < |entries| ==> !Claims(entries[p], s)
    ensures FindKey(entries, s, i).Some? ==>
      exists p :: (i <= p < |entries| && Claims(entries[p], s)
        && FindKey(entries, s, i).value == entries[p].0
        && forall q :: i <= q < p ==> !Claims(entries[q], s))
    decreases |entries| - i
  {
    if i < |entries| && !Claims(entries[i], s) {
      FindKeySpec(entries, s, i + 1);
    }
  }

  /** The canonical form of a job skill: the lowercased skill mapped to the ontology key
      that claims it, or kept as it is when no key does. */
  function Canonicalize(skill: string): string
  {
    var s := Lower(skill);
    match FindKey(Ontology, s, 0)
    case Some(key) => key
    case None => s
  }

  /** The canonical form is the key of the first entry, in key order, whose aliases
      contain the lowercased skill or whose key equals it; without such an entry it is the
      lowercased skill itself. */
  lemma CanonicalizeSpec(skill: string)
    ensures var s := Lower(skill);
      || (exists p :: 0 <= p < |Ontology| && Claims(Ontology[p], s)
            && Canonicalize(skill) == Ontology[p].0
            && forall q :: 0 <= q < p ==> !Claims(Ontology[q], s))
      || ((forall p :: 0 <= p < |Ontology| ==> !Claims(Ontology[p], s)) && Canonicalize(skill) == s)
  {
    FindKeySpec(Ontology, Lower(skill), 0);
  }

  /** The canonical form of every job skill, in the recruiter's order. */
  function CanonicalizeAll(jobSkills: seq<string>): (c: seq<string>)
    ensures |c| == |jobSkills|
    ensures forall i :: 0 <= i < |jobSkills| ==> c[i] == Canonicalize(jobSkills[i])
  {
    seq(|jobSkills|, i requires 0 <= i < |jobSkills| => Canonicalize(jobSkills[i]))
  }

  // ---------------------------------------------------------------------------
  // Weighted scoring

  /** The result of `generateMatchScoreAI`. */
  datatype MatchResult = MatchResult(score: int, matchedSkills: seq<string>, missingSkills: seq<string>)

  /** `Math.ceil(n / 2)`, the size of the core group. */
  function CoreCount(n: nat): (k: nat)
    ensures n <= 2 * k <= n + 1
  {
    (n + 1) / 2
  }

  /** The skills of s that the resume lists, in their order in s. */
  function Present(s: seq<string>, resume: seq<string>): (r: seq<string>)
    ensures |r| <= |s|
  {
    if s == [] then []
    else Present(s[..|s| - 1], resume) + (if s[|s| - 1] in resume then [s[|s| - 1]] else [])
  }

  /** The skills of s that the resume does not list, in their order in s. */
  function Absent(s: seq<string>, resume: seq<string>): (r: seq<string>)
    ensures |r| <= |s|
  {
    if s == [] then []
    else Absent(s[..|s| - 1], resume) + (if s[|s| - 1] !in resume then [s[|s| - 1]] else [])
  }

  /** `Math.round` of the weighted score: 70 for the core group and 30 for the secondary
      group, or 100 for the core group when the secondary group is empty. */
  function WeightedScore(coreHits: nat, coreSize: nat, secondaryHits: nat, secondarySize: nat): int
    requires coreSize > 0
  {
    if secondarySize == 0 then Round(100 * coreHits, coreSize)
    else Round(70 * coreHits * secondarySize + 30 * secondaryHits * coreSize, coreSize * secondarySize)
  }

  /** What `generateMatchScoreAI(resumeSkills, jobSkills)` returns; an absent job-skill
      list is the empty one here. */
  function MatchSpec(resumeSkills: seq<string>, jobSkills: seq<string>): MatchResult
  {
    if jobSkills == [] then MatchResult(0, [], [])
    else
      var canonical := CanonicalizeAll(jobSkills);
      var coreCount := CoreCount(|canonical|);
      var core, secondary := canonical[..coreCount], canonical[coreCount..];
      MatchResult(
        WeightedScore(|Present(core, resumeSkills)|, |core|, |Present(secondary, resumeSkills)|, |secondary|),
        Present(core, resumeSkills) + Present(secondary, resumeSkills),
        Absent(core, resumeSkills) + Absent(secondary, resumeSkills))
  }

  /** `MatchSpec` of a non-empty job list, written in terms of its two groups. */
  lemma MatchSpecGroups(resumeSkills: seq<string>, jobSkills: seq<string>, core: seq<string>, secondary: seq<string>)
    requires jobSkills != []
    requires core == CanonicalizeAll(jobSkills)[..CoreCount(|jobSkills|)]
    requires secondary == CanonicalizeAll(jobSkills)[CoreCount(|jobSkills|)..]
    ensures MatchSpec(resumeSkills, jobSkills) == MatchResult(
      WeightedScore(|Present(core, resumeSkills)|, |core|, |Present(secondary, resumeSkills)|, |secondary|),
      Present(core, resumeSkills) + Present(secondary, resumeSkills),
      Absent(core, resumeSkills) + Absent(secondary, resumeSkills))
  {
  }

  /** One of the two `forEach` passes of `generateMatchScoreAI`: every skill of the group
      is pushed onto the matched list when the resume lists it, and onto the missing list
      otherwise; the hits are counted. */
  method SortGroup(group: seq<string>, resumeSkills: seq<string>, matchedBefore: seq<string>, missingBefore: seq<string>)
    returns (matched: seq<string>, missing: seq<string>, hits: nat)
    ensures matched == matchedBefore + Present(group, resumeSkills)
    ensures missing == missingBefore + Absent(group, resumeSkills)
    ensures hits == |Present(group, resumeSkills)|
  {
    matched, missing, hits := matchedBefore, missingBefore, 0;
    for i := 0 to |group|
      invariant matched == matchedBefore + Present(group[..i], resumeSkills)
      invariant missing == missingBefore + Absent(group[..i], resumeSkills)
      invariant hits == |Present(group[..i], resumeSkills)|
    {
      var skill := group[i];
      assert group[..i + 1][..i] == group[..i];
      if skill in resumeSkills {
        hits := hits + 1;
        matched := matched + [skill];
      } else {
        missing := missing + [skill];
      }
    }
    assert group[..|group|] == group;
  }

  /** The first step of `generateMatchScoreAI`: canonicalises the job skills and splits
      them into the core group (the first half, rounded up) and the secondary group. */
  method SplitGroups(jobSkills: seq<string>) returns (core: seq<string>, secondary: seq<string>)
    requires jobSkills != []
    ensures core == CanonicalizeAll(jobSkills)[..CoreCount(|jobSkills|)]
    ensures secondary == CanonicalizeAll(jobSkills)[CoreCount(|jobSkills|)..]
    ensures |core| > 0 && |core| + |secondary| == |jobSkills|
  {
    var canonicalJobSkills := CanonicalizeAll(jobSkills);
    var totalSkills := |canonicalJobSkills|;
    var coreCount := CoreCount(totalSkills);
    core := canonicalJobSkills[..coreCount];
    secondary := canonicalJobSkills[coreCount..];
  }

  /** `generateMatchScoreAI`: canonicalises the job skills, splits them into core and
      secondary groups, sorts each skill into matched or missing while counting the hits per
      group, and rounds the weighted score. */
  method GenerateMatchScoreAI(resumeSkills: seq<string>, jobSkills: seq<string>) returns (result: MatchResult)
    ensures result == MatchSpec(resumeSkills, jobSkills)
  {
    if |jobSkills| == 0 {
      return MatchResult(0, [], []);
    }
    var coreSkills, secondarySkills := SplitGroups(jobSkills);

    var matchedSkills, missingSkills, coreMatches := SortGroup(coreSkills, resumeSkills, [], []);
    assert [] + Present(coreSkills, resumeSkills) == Present(coreSkills, resumeSkills);
    assert [] + Absent(coreSkills, resumeSkills) == Absent(coreSkills, resumeSkills);
    var secondaryMatches;
    matchedSkills, missingSkills, secondaryMatches := SortGroup(secondarySkills, resumeSkills, matchedSkills, missingSkills);

    var finalScore := WeightedScore(coreMatches, |coreSkills|, secondaryMatches, |secondarySkills|);
    MatchSpecGroups(resumeSkills, jobSkills, coreSkills, secondarySkills);
    result := MatchResult(finalScore, matchedSkills, missingSkills);
  }

  // ---------------------------------------------------------------------------
  // Properties of the weighted score

  lemma {:induction false} PresentAbsentAppend(a: seq<string>, b: seq<string>, resume: seq<string>)
    ensures Present(a + b, resume) == Present(a, resume) + Present(b, resume)
    ensures Absent(a + b, resume) == Absent(a, resume) + Absent(b, resume)
    decreases |b|
  {
    if b != [] {
      PresentAbsentAppend(a, b[..|b| - 1], resume);
      assert (a + b)[..|a + b| - 1] == a + b[..|b| - 1];
      assert (a + b)[|a + b| - 1] == b[|b| - 1];
    } else {
      assert a + b == a;
    }
  }

  lemma {:induction false} PresentAbsentMembers(s: seq<string>, resume: seq<string>)
    ensures forall x :: x in Present(s, resume) <==> x in s && x in resume
    ensures forall x :: x in Absent(s, resume) <==> x in s && x !in resume
    ensures multiset(Present(s, resume)) + multiset(Absent(s, resume)) == multiset(s)
  {
    if s != [] {
      var init, last := s[..|s| - 1], s[|s| - 1];
      PresentAbsentMembers(init, resume);
      assert s == init + [last];
      if last in resume {
        assert Present(s, resume) == Present(init, resume) + [last];
        assert Absent(s, resume) == Absent(init, resume);
      } else {
        assert Present(s, resume) == Present(init, resume);
        assert Absent(s, resume) == Absent(init, resume) + [last];
      }
    }
  }

  lemma {:induction false} PresentAll(s: seq<string>, resume: seq<string>)
    requires forall x :: x in s ==> x in resume
    ensures Present(s, resume) == s && Absent(s, resume) == []
  {
    if s != [] {
      PresentAll(s[..|s| - 1], resume);
    }
  }

  lemma {:induction false} PresentNone(s: seq<string>, resume: seq<string>)
    requires forall x :: x in s ==> x !in resume
    ensures Present(s, resume) == [] && Absent(s, resume) == s
  {
    if s != [] {
      PresentNone(s[..|s| - 1], resume);
    }
  }

  lemma {:induction false} PresentAbsentInterleave(s: seq<string>, resume: seq<string>)
    ensures Interleaves(s, Present(s, resume), Absent(s, resume))
  {
    if s != [] {
      var init, x := s[..|s| - 1], s[|s| - 1];
      PresentAbsentInterleave(init, resume);
      var p, a := Present(s, resume), Absent(s, resume);
      if x in resume {
        assert p == Present(init, resume) + [x] && a == Absent(init, resume);
        assert p[|p| - 1] == x && p[..|p| - 1] == Present(init, resume);
      } else {
        assert a == Absent(init, resume) + [x] && p == Present(init, resume);
        assert a[|a| - 1] == x && a[..|a| - 1] == Absent(init, resume);
      }
    }
  }

  /** The matched and missing lists partition the canonicalised job skills: each skill
      lands in exactly one of them (matched when the resume lists it), the two together hold
      every canonicalised skill as often as it occurs, and both keep the recruiter's order. */
  lemma MatchPartition(resumeSkills: seq<string>, jobSkills: seq<string>)
    ensures var m := MatchSpec(resumeSkills, jobSkills);
      var canonical := CanonicalizeAll(jobSkills);
      && m.matchedSkills == Present(canonical, resumeSkills)
      && m.missingSkills == Absent(canonical, resumeSkills)
      && Interleaves(canonical, m.matchedSkills, m.missingSkills)
      && |m.matchedSkills| + |m.missingSkills| == |jobSkills|
      && multiset(m.matchedSkills) + multiset(m.missingSkills) == multiset(canonical)
      && (forall x :: x in m.matchedSkills <==> x in canonical && x in resumeSkills)
      && (forall x :: x in m.missingSkills <==> x in canonical && x !in resumeSkills)
  {
    var canonical := CanonicalizeAll(jobSkills);
    if jobSkills != [] {
      var k := CoreCount(|canonical|);
      assert canonical == canonical[..k] + canonical[k..];
      PresentAbsentAppend(canonical[..k], canonical[k..], resumeSkills);
    }
    PresentAbsentMembers(canonical, resumeSkills);
    PresentAbsentInterleave(canonical, resumeSkills);
  }

  lemma WeightedScoreRange(coreHits: nat, coreSize: nat, secondaryHits: nat, secondarySize: nat)
    requires 0 < coreSize && coreHits <= coreSize && secondaryHits <= secondarySize
    ensures 0 <= WeightedScore(coreHits, coreSize, secondaryHits, secondarySize) <= 100
  {
    if secondarySize == 0 {
      RoundBetween(100 * coreHits, coreSize, 0, 100);
    } else {
      MulMonotone(secondarySize, coreHits, coreSize);
      MulMonotone(coreSize, secondaryHits, secondarySize);
      assert 70 * coreHits * secondarySize + 30 * secondaryHits * coreSize <= 100 * (coreSize * secondarySize);
      RoundBetween(70 * coreHits * secondarySize + 30 * secondaryHits * coreSize, coreSize * secondarySize, 0, 100);
    }
  }

  /** The score is between 0 and 100. */
  lemma ScoreRange(resumeSkills: seq<string>, jobSkills: seq<string>)
    ensures 0 <= MatchSpec(resumeSkills, jobSkills).score <= 100
  {
    if jobSkills != [] {
      var canonical := CanonicalizeAll(jobSkills);
      var k := CoreCount(|canonical|);
      WeightedScoreRange(|Present(canonical[..k], resumeSkills)|, k,
        |Present(canonical[k..], resumeSkills)|, |canonical| - k);
    }
  }

  /** The score of a non-empty job-skill list, from the hits in its two groups. */
  lemma ScoreByGroups(resumeSkills: seq<string>, jobSkills: seq<string>)
    requires jobSkills != []
    ensures var canonical := CanonicalizeAll(jobSkills);
      var k := CoreCount(|canonical|);
      MatchSpec(resumeSkills, jobSkills).score ==
        WeightedScore(|Present(canonical[..k], resumeSkills)|, k, |Present(canonical[k..], resumeSkills)|, |canonical| - k)
  {
  }

  lemma WeightedScoreAll(coreSize: nat, secondarySize: nat)
    requires coreSize > 0
    ensures WeightedScore(coreSize, coreSize, secondarySize, secondarySize) == 100
  {
    if secondarySize == 0 {
      RoundWhole(100, coreSize);
    } else {
      assert 70 * coreSize * secondarySize + 30 * secondarySize * coreSize == 100 * (coreSize * secondarySize);
      RoundWhole(100, coreSize * secondarySize);
    }
  }

  lemma WeightedScoreNone(coreSize: nat, secondarySize: nat)
    requires coreSize > 0
    ensures WeightedScore(0, coreSize, 0, secondarySize) == 0
  {
    if secondarySize == 0 {
      RoundWhole(0, coreSize);
    } else {
      RoundWhole(0, coreSize * secondarySize);
    }
  }

  lemma WeightedScoreCoreOnly(coreSize: nat, secondarySize: nat)
    requires coreSize > 0 && secondarySize > 0
    ensures WeightedScore(coreSize, coreSize, 0, secondarySize) == 70
  {
    assert 70 * coreSize * secondarySize + 30 * 0 * coreSize == 70 * (coreSize * secondarySize);
    RoundWhole(70, coreSize * secondarySize);
  }

  /** A job whose every canonicalised skill the resume lists scores 100. */
  lemma ScoreAllMatched(resumeSkills: seq<string>, jobSkills: seq<string>)
    requires jobSkills != []
    requires forall x :: x in CanonicalizeAll(jobSkills) ==> x in resumeSkills
    ensures MatchSpec(resumeSkills, jobSkills).score == 100
  {
    var canonical := CanonicalizeAll(jobSkills);
    var k := CoreCount(|canonical|);
    PresentAll(canonical[..k], resumeSkills);
    PresentAll(canonical[k..], resumeSkills);
    ScoreByGroups(resumeSkills, jobSkills);
    WeightedScoreAll(k, |canonical| - k);
  }

  /** A job none of whose canonicalised skills the resume lists scores 0. */
  lemma ScoreNoneMatched(resumeSkills: seq<string>, jobSkills: seq<string>)
    requires forall x :: x in CanonicalizeAll(jobSkills) ==> x !in resumeSkills
    ensures MatchSpec(resumeSkills, jobSkills).score == 0
  {
    if jobSkills != [] {
      var canonical := CanonicalizeAll(jobSkills);
      var k := CoreCount(|canonical|);
      PresentNone(canonical[..k], resumeSkills);
      PresentNone(canonical[k..], resumeSkills);
      ScoreByGroups(resumeSkills, jobSkills);
      WeightedScoreNone(k, |canonical| - k);
    }
  }

  /** With two or more skills, matching every core skill and no secondary one scores 70:
      the core group carries 70 of the 100 points. */
  lemma ScoreCoreOnly(resumeSkills: seq<string>, jobSkills: seq<string>)
    requires |jobSkills| >= 2
    requires forall i :: 0 <= i < CoreCount(|jobSkills|) ==> Canonicalize(jobSkills[i]) in resumeSkills
    requires forall i :: CoreCount(|jobSkills|) <= i < |jobSkills| ==> Canonicalize(jobSkills[i]) !in resumeSkills
    ensures MatchSpec(resumeSkills, jobSkills).score == 70
  {
    var canonical := CanonicalizeAll(jobSkills);
    var k := CoreCount(|canonical|);
    PresentAll(canonical[..k], resumeSkills);
    PresentNone(canonical[k..], resumeSkills);
    ScoreByGroups(resumeSkills, jobSkills);
    WeightedScoreCoreOnly(k, |canonical| - k);
  }

  /** A single required skill forms the core group alone and carries all 100 points. */
  lemma ScoreSingleSkill(resumeSkills: seq<string>, skill: string)
    ensures MatchSpec(resumeSkills, [skill]).score == if Canonicalize(skill) in resumeSkills then 100 else 0
  {
    var canonical := CanonicalizeAll([skill]);
    assert canonical[..1] == [Canonicalize(skill)];
    if Canonicalize(skill) in resumeSkills {
      RoundWhole(100, 1);
    } else {
      RoundWhole(0, 1);
    }
  }

  // ---------------------------------------------------------------------------
  // Ranking

  /** The sort key of `rankCandidates`. */
  function SkillScore(a: Records.Application): int
  {
    a.skillScore
  }

  /** `rankCandidates`: sorts the applications in place, highest skill score first, and
      returns the same array. */
  method RankCandidates(applications: array<Records.Application>) returns (ranked: array<Records.Application>)
    modifies applications
    ensures ranked == applications
    ensures Ranking.SortedDescending(ranked[..], SkillScore)
    ensures multiset(ranked[..]) == old(multiset(applications[..]))
    ensures forall v :: Ranking.WithKey(ranked[..], SkillScore, v) == Ranking.WithKey(old(applications[..]), SkillScore, v)
  {
    Ranking.SortDescending(applications, SkillScore);
    ranked := applications;
  }
}
