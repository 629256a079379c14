/** Worked examples of the ontology matcher: the scenarios of backend/test-ai.js and the
    whole-word behaviour of alias matching, evaluated on concrete texts and skill lists. */
module AiSkillMatcherExamples {
  import opened Text
  import opened AiSkillMatcher
  import opened OntologyFacts

  /** Required skills written as the recruiter types them reach the ontology keys. */
  lemma CanonicalExamples()
    ensures Canonicalize("React") == "react" && Canonicalize("Node") == "node"
    ensures Canonicalize("MongoDB") == "mongodb" && Canonicalize("Python") == "python"
  {
    CanonicalOfKey("React", 1);
    CanonicalOfKey("Node", 2);
    CanonicalOfKey("MongoDB", 3);
    CanonicalOfKey("Python", 5);
  }

  lemma CanonicalExamplesMore()
    ensures Canonicalize("Java") == "java" && Canonicalize("Docker") == "docker"
    ensures Canonicalize("JavaScript") == "javascript" && Canonicalize("Express") == "express"
  {
    CanonicalOfKey("Java", 6);
    CanonicalOfKey("Docker", 12);
    CanonicalOfKey("JavaScript", 0);
    CanonicalOfKey("Express", 4);
  }

  /** The skills extracted from the sample resume of the first scenario. */
  const SampleResumeSkills: seq<string> := ["javascript", "react", "node", "mongodb", "python"]

  /** Second scenario: every required skill is listed, so the score is 100 and nothing is
      missing. */
  lemma ScenarioHighMatch()
    ensures MatchSpec(SampleResumeSkills, ["React", "Node", "MongoDB"])
      == MatchResult(100, ["react", "node", "mongodb"], [])
  {
    var jobSkills := ["React", "Node", "MongoDB"];
    CanonicalExamples();
    var canonical := CanonicalizeAll(jobSkills);
    assert canonical == ["react", "node", "mongodb"];
    ScoreAllMatched(SampleResumeSkills, jobSkills);
    MatchPartition(SampleResumeSkills, jobSkills);
    PresentAll(canonical, SampleResumeSkills);
  }

  /** Third scenario: the three core skills are listed and the two secondary ones are not,
      so the score is 70. */
  lemma ScenarioPartialMatch()
    ensures MatchSpec(SampleResumeSkills, ["React", "Node", "Python", "Java", "Docker"]).score == 70
  {
    CanonicalExamples();
    CanonicalExamplesMore();
    ScoreCoreOnly(SampleResumeSkills, ["React", "Node", "Python", "Java", "Docker"]);
  }

  /** A skill is extracted once its j-th alias is a whole word of the normalised text. */
  lemma ExtractByAlias(text: string, p: nat, j: nat, i: nat)
    requires p < |Ontology| && j < |Ontology[p].1|
    requires text != [] && WordAt(Normalize(text), Ontology[p].1[j], i)
    ensures Ontology[p].0 in ExtractSpec(text)
  {
    ExtractIff(text, p);
  }

  /** The ontology entries the examples below go through. */
  lemma OntologyEntries()
    ensures Ontology[0].0 == "javascript" && Ontology[0].1[0] == "js" && Ontology[0].1[1] == "javascript"
    ensures Ontology[1].0 == "react" && Ontology[1].1[2] == "react.js"
    ensures Ontology[4].0 == "express" && Ontology[4].1[1] == "expressjs"
    ensures Ontology[6].0 == "java"
  {
  }

  /** A text made of one word matches that word at its start. */
  lemma WholeText(w: string)
    requires w != [] && IsWordChar(w[0]) && IsWordChar(w[|w| - 1])
    ensures WordAt(w, w, 0)
  {
    WordBetween("", w, "");
    assert "" + w + "" == w;
  }

  /** A text that normalisation leaves alone apart from lowercasing. */
  lemma NormalizeLowercased(text: string, u: string)
    requires Clean(text) == u && IsNormalized(u)
    ensures Normalize(text) == u
  {
    CollapseFixed(u);
  }

  /** Fourth scenario, extraction side: the abbreviation "JS" yields javascript. */
  lemma AbbreviationJs()
    ensures "javascript" in ExtractSpec("JS")
  {
    assert Clean("JS") == "js";
    NormalizeLowercased("JS", "js");
    WholeText("js");
    OntologyEntries();
    ExtractByAlias("JS", 0, 0, 0);
  }

  /** "ExpressJS" normalises to "expressjs". */
  lemma NormalizeExpressJs()
    ensures Normalize("ExpressJS") == "expressjs"
  {
    assert Clean("ExpressJS") == "expressjs";
    NormalizeLowercased("ExpressJS", "expressjs");
  }

  /** Fourth scenario, extraction side: the spelling "ExpressJS" yields express. */
  lemma SpellingExpressJs()
    ensures "express" in ExtractSpec("ExpressJS")
  {
    NormalizeExpressJs();
    WholeText("expressjs");
    OntologyEntries();
    ExtractByAlias("ExpressJS", 4, 1, 0);
  }

  /** Fourth scenario, scoring side: skills holding javascript and express match the full
      names "JavaScript" and "Express" completely. */
  lemma ScenarioSynonyms(resumeSkills: seq<string>)
    requires "javascript" in resumeSkills && "express" in resumeSkills
    ensures MatchSpec(resumeSkills, ["JavaScript", "Express"]).score == 100
  {
    CanonicalExamplesMore();
    var canonical := CanonicalizeAll(["JavaScript", "Express"]);
    assert canonical == ["javascript", "express"];
    ScoreAllMatched(resumeSkills, ["JavaScript", "Express"]);
  }

  /** None of java's aliases is a whole word of "javascript": "java" is followed by a
      word character there. */
  lemma JavaNotInJavascript()
    ensures !AnyAliasFound("javascript", Ontology[6].1)
  {
    var u := "javascript";
    assert !WordAt(u, "java", 0);
    assert !HasWord(u, "java");
    assert !HasWord(u, "spring");
    assert !HasWord(u, "springboot");
  }

  /** Aliases are matched as whole words: the text "javascript" yields javascript but not
      java. */
  lemma WholeWordJavascript()
    ensures "javascript" in ExtractSpec("javascript")
    ensures "java" !in ExtractSpec("javascript")
  {
    assert Clean("javascript") == "javascript";
    NormalizeLowercased("javascript", "javascript");
    WholeText("javascript");
    OntologyEntries();
    ExtractByAlias("javascript", 0, 1, 0);
    JavaNotInJavascript();
    ExtractMember("javascript", 6);
  }

  lemma NormalizeReactJs()
    ensures Normalize("React.js") == "react.js"
  {
    assert Clean("React.js") == "react.js";
    NormalizeLowercased("React.js", "react.js");
  }

  /** "js" is a whole word of "react.js", since '.' is not a word character: a resume that
      mentions React.js yields javascript as well as react. */
  lemma DottedAliasYieldsJavascript()
    ensures "javascript" in ExtractSpec("React.js")
  {
    NormalizeReactJs();
    WordBetween("react.", "js", "");
    assert "react." + "js" + "" == "react.js";
    OntologyEntries();
    ExtractByAlias("React.js", 0, 0, 6);
  }

  lemma DottedAliasYieldsReact()
    ensures "react" in ExtractSpec("React.js")
  {
    NormalizeReactJs();
    WholeText("react.js");
    OntologyEntries();
    ExtractByAlias("React.js", 1, 2, 0);
  }
}
