/** Facts about the literal skill ontology of backend/utils/aiSkillMatcher.js: every key
    is lowercase and is claimed first by its own entry, so canonicalising a job skill twice
    changes nothing. */
module OntologyFacts {
  import opened Outcomes
  import opened Text
  import opened AiSkillMatcher

  /** Every key from index p on is lowercase and canonicalised to itself. */
  predicate KeysFixedFrom(entries: seq<Entry>, p: nat)
    decreases |entries| - p
  {
    p >= |entries|
    || (Lower(entries[p].0) == entries[p].0 && FindKey(entries, entries[p].0, 0) == Some(entries[p].0)
        && KeysFixedFrom(entries, p + 1))
  }

  lemma {:induction false} KeysFixedFromAll(entries: seq<Entry>, p: nat)
    requires KeysFixedFrom(entries, p)
    ensures forall q :: p <= q < |entries| ==>
      Lower(entries[q].0) == entries[q].0 && FindKey(entries, entries[q].0, 0) == Some(entries[q].0)
    decreases |entries| - p
  {
    if p < |entries| {
      KeysFixedFromAll(entries, p + 1);
    }
  }

  /** The keys are written in lowercase. */
  lemma KeysLowercase()
    ensures Lower("javascript") == "javascript"
      && Lower("react") == "react"
      && Lower("node") == "node"
      && Lower("mongodb") == "mongodb"
      && Lower("express") == "express"
      && Lower("python") == "python"
      && Lower("java") == "java"
      && Lower("html") == "html"
      && Lower("css") == "css"
      && Lower("sql") == "sql"
      && Lower("git") == "git"
      && Lower("aws") == "aws"
      && Lower("docker") == "docker"
  {
  }

  // Each key is claimed first by its own entry, checked on the literal ontology one key
  // at a time. A single lemma quantified over the thirteen keys unrolls the whole table
  // for every key at once and exceeds the solver's resource limit; one lemma per key
  // keeps each proof small.

  lemma KeyFoundJavascript()
    ensures FindKey(Ontology, "javascript", 0) == Some("javascript")
  {
  }

  lemma KeyFoundReact()
    ensures FindKey(Ontology, "react", 0) == Some("react")
  {
    assert FindKey(Ontology, "react", 1) == Some("react");
  }

  lemma KeyFoundNode()
    ensures FindKey(Ontology, "node", 0) == Some("node")
  {
    assert FindKey(Ontology, "node", 2) == Some("node");
    assert FindKey(Ontology, "node", 1) == Some("node");
  }

  lemma KeyFoundMongodb()
    ensures FindKey(Ontology, "mongodb", 0) == Some("mongodb")
  {
    assert FindKey(Ontology, "mongodb", 3) == Some("mongodb");
    assert FindKey(Ontology, "mongodb", 2) == Some("mongodb");
    assert FindKey(Ontology, "mongodb", 1) == Some("mongodb");
  }

  lemma KeyFoundExpress()
    ensures FindKey(Ontology, "express", 0) == Some("express")
  {
    assert FindKey(Ontology, "express", 4) == Some("express");
    assert FindKey(Ontology, "express", 3) == Some("express");
    assert FindKey(Ontology, "express", 2) == Some("express");
    assert FindKey(Ontology, "express", 1) == Some("express");
  }

  lemma KeyFoundPython()
    ensures FindKey(Ontology, "python", 0) == Some("python")
  {
    assert FindKey(Ontology, "python", 5) == Some("python");
    assert FindKey(Ontology, "python", 4) == Some("python");
    assert FindKey(Ontology, "python", 3) == Some("python");
    assert FindKey(Ontology, "python", 2) == Some("python");
    assert FindKey(Ontology, "python", 1) == Some("python");
  }

  lemma KeyFoundJava()
    ensures FindKey(Ontology, "java", 0) == Some("java")
  {
    assert FindKey(Ontology, "java", 6) == Some("java");
    assert FindKey(Ontology, "java", 5) == Some("java");
    assert FindKey(Ontology, "java", 4) == Some("java");
    assert FindKey(Ontology, "java", 3) == Some("java");
    assert FindKey(Ontology, "java", 2) == Some("java");
    assert FindKey(Ontology, "java", 1) == Some("java");
  }

  lemma KeyFoundHtml()
    ensures FindKey(Ontology, "html", 0) == Some("html")
  {
    assert FindKey(Ontology, "html", 7) == Some("html");
    assert FindKey(Ontology, "html", 6) == Some("html");
    assert FindKey(Ontology, "html", 5) == Some("html");
    assert FindKey(Ontology, "html", 4) == Some("html");
    assert FindKey(Ontology, "html", 3) == Some("html");
    assert FindKey(Ontology, "html", 2) == Some("html");
    assert FindKey(Ontology, "html", 1) == Some("html");
  }

  lemma KeyFoundCss()
    ensures FindKey(Ontology, "css", 0) == Some("css")
  {
    assert FindKey(Ontology, "css", 8) == Some("css");
    assert FindKey(Ontology, "css", 7) == Some("css");
    assert FindKey(Ontology, "css", 6) == Some("css");
    assert FindKey(Ontology, "css", 5) == Some("css");
    assert FindKey(Ontology, "css", 4) == Some("css");
    assert FindKey(Ontology, "css", 3) == Some("css");
    assert FindKey(Ontology, "css", 2) == Some("css");
    assert FindKey(Ontology, "css", 1) == Some("css");
  }

  lemma KeyFoundSql()
    ensures FindKey(Ontology, "sql", 0) == Some("sql")
  {
    assert FindKey(Ontology, "sql", 9) == Some("sql");
    assert FindKey(Ontology, "sql", 8) == Some("sql");
    assert FindKey(Ontology, "sql", 7) == Some("sql");
    assert FindKey(Ontology, "sql", 6) == Some("sql");
    assert FindKey(Ontology, "sql", 5) == Some("sql");
    assert FindKey(Ontology, "sql", 4) == Some("sql");
    assert FindKey(Ontology, "sql", 3) == Some("sql");
    assert FindKey(Ontology, "sql", 2) == Some("sql");
    assert FindKey(Ontology, "sql", 1) == Some("sql");
  }

  lemma KeyFoundGit()
    ensures FindKey(Ontology, "git", 0) == Some("git")
  {
    assert FindKey(Ontology, "git", 10) == Some("git");
    assert FindKey(Ontology, "git", 9) == Some("git");
    assert FindKey(Ontology, "git", 8) == Some("git");
    assert FindKey(Ontology, "git", 7) == Some("git");
    assert FindKey(Ontology, "git", 6) == Some("git");
    assert FindKey(Ontology, "git", 5) == Some("git");
    assert FindKey(Ontology, "git", 4) == Some("git");
    assert FindKey(Ontology, "git", 3) == Some("git");
    assert FindKey(Ontology, "git", 2) == Some("git");
    assert FindKey(Ontology, "git", 1) == Some("git");
  }

  lemma KeyFoundAws()
    ensures FindKey(Ontology, "aws", 0) == Some("aws")
  {
    assert FindKey(Ontology, "aws", 11) == Some("aws");
    assert FindKey(Ontology, "aws", 10) == Some("aws");
    assert FindKey(Ontology, "aws", 9) == Some("aws");
    assert FindKey(Ontology, "aws", 8) == Some("aws");
    assert FindKey(Ontology, "aws", 7) == Some("aws");
    assert FindKey(Ontology, "aws", 6) == Some("aws");
    assert FindKey(Ontology, "aws", 5) == Some("aws");
    assert FindKey(Ontology, "aws", 4) == Some("aws");
    assert FindKey(Ontology, "aws", 3) == Some("aws");
    assert FindKey(Ontology, "aws", 2) == Some("aws");
    assert FindKey(Ontology, "aws", 1) == Some("aws");
  }

  lemma KeyFoundDocker()
    ensures FindKey(Ontology, "docker", 0) == Some("docker")
  {
    assert FindKey(Ontology, "docker", 12) == Some("docker");
    assert FindKey(Ontology, "docker", 11) == Some("docker");
    assert FindKey(Ontology, "docker", 10) == Some("docker");
    assert FindKey(Ontology, "docker", 9) == Some("docker");
    assert FindKey(Ontology, "docker", 8) == Some("docker");
    assert FindKey(Ontology, "docker", 7) == Some("docker");
    assert FindKey(Ontology, "docker", 6) == Some("docker");
    assert FindKey(Ontology, "docker", 5) == Some("docker");
    assert FindKey(Ontology, "docker", 4) == Some("docker");
    assert FindKey(Ontology, "docker", 3) == Some("docker");
    assert FindKey(Ontology, "docker", 2) == Some("docker");
    assert FindKey(Ontology, "docker", 1) == Some("docker");
  }

  /** No key of the ontology is an alias or key of an earlier entry, so each key is its
      own canonical form. */
  lemma OntologyKeysFixed()
    ensures forall q :: 0 <= q < |Ontology| ==>
      Lower(Ontology[q].0) == Ontology[q].0 && FindKey(Ontology, Ontology[q].0, 0) == Some(Ontology[q].0)
  {
    KeysLowercase();
    KeyFoundJavascript();
    KeyFoundReact();
    KeyFoundNode();
    KeyFoundMongodb();
    KeyFoundExpress();
    KeyFoundPython();
    KeyFoundJava();
    KeyFoundHtml();
    KeyFoundCss();
    KeyFoundSql();
    KeyFoundGit();
    KeyFoundAws();
    KeyFoundDocker();
    assert KeysFixedFrom(Ontology, 12);
    assert KeysFixedFrom(Ontology, 11);
    assert KeysFixedFrom(Ontology, 10);
    assert KeysFixedFrom(Ontology, 9);
    assert KeysFixedFrom(Ontology, 8);
    assert KeysFixedFrom(Ontology, 7);
    assert KeysFixedFrom(Ontology, 6);
    assert KeysFixedFrom(Ontology, 5);
    assert KeysFixedFrom(Ontology, 4);
    assert KeysFixedFrom(Ontology, 3);
    assert KeysFixedFrom(Ontology, 2);
    assert KeysFixedFrom(Ontology, 1);
    assert KeysFixedFrom(Ontology, 0);
    KeysFixedFromAll(Ontology, 0);
  }

  /** Canonicalising twice is canonicalising once: a key stands for itself, and a skill
      outside the ontology stays lowercased. */
  lemma CanonicalizeIdempotent(skill: string)
    ensures Canonicalize(Canonicalize(skill)) == Canonicalize(skill)
  {
    var s := Lower(skill);
    FindKeySpec(Ontology, s, 0);
    match FindKey(Ontology, s, 0)
    case Some(key) =>
      var p :| 0 <= p < |Ontology| && Claims(Ontology[p], s) && key == Ontology[p].0;
      OntologyKeysFixed();
    case None =>
      LowerIdempotent(skill);
      FindKeySpec(Ontology, Lower(s), 0);
  }

  /** A skill that lowercases to a key is canonicalised to that key. */
  lemma CanonicalOfKey(skill: string, p: nat)
    requires p < |Ontology| && Lower(skill) == Ontology[p].0
    ensures Canonicalize(skill) == Ontology[p].0
  {
    OntologyKeysFixed();
  }
}
