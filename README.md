# Skill matching and score explanation, modelled in Dafny

This project models the deterministic scoring core of a recruiting backend. It has four parts:

- **Ontology-based skill matcher.** A fixed table of 13 canonical skills and their aliases. Extraction normalises a text and reports every canonical skill one of whose aliases occurs as a whole word. Scoring canonicalises a job's required skills and splits them into a core half, worth 70 points, and a secondary half, worth 30. It then partitions them into matched and missing and rounds the weighted score. Ranking sorts applications by skill score, highest first.
- **Score explanation.** Four sub-scores, out of 50 (skills), 20 (experience), 10 (department) and 20 (description). They are summed, and a narrative is built sentence by sentence from fixed templates. The explanation of one application first checks that the application and its job exist.
- **Match store.** The coordinator that keeps one match record per (job, candidate) pair. It upserts a record for an application, recomputes every match of a candidate or of a job, lists a job's matches by score, and replaces a candidate's resume before recomputing that candidate's matches. The document store is an in-memory table: jobs and resumes are maps keyed by id, applications are a sequence in store order, and match records are a map keyed by the (jobId, candidateId) pair that the unique index covers.
- **Legacy substring scorer.** The share of required skills whose lowercase form occurs anywhere in the lowercased resume text.

Modules:

- `Outcomes`: `Option` and `Result`.
- `Text`: character classes, ASCII lowercasing, substring and whole-word search, digit runs and number printing.
- `Rounding`: `Math.round` of an exact fraction.
- `Sequences`: the position of an element in a list, and order-preserving merges of two lists.
- `Ranking`: an in-place, stable, descending sort by a key.
- `Records`: jobs, applications, resumes and match records.
- `AiSkillMatcher`, plus `OntologyFacts` and `AiSkillMatcherExamples`: the ontology matcher.
- `ScoreExplanationService`: the explanation.
- `SkillMatchingService`: the match store.
- `SkillMatcher`: the legacy scorer.

Every division in the source is kept as an exact fraction: `Math.round(p / q)` is `Round(p, q)`, the integer r with `q(2r-1) <= 2p < q(2r+1)`. The test `candidateYears >= requiredYears * 0.7` is taken over exact reals, and `CloseToRequirement` proves it equal to `10c >= 7r`.

The whole-word test treats `.` as a word boundary, so a text mentioning "React.js" or "node.js" also yields `javascript`, because the alias "js" stands alone after the dot. `DottedAliasYieldsJavascript` proves this for "React.js".

## Model

| member | source | states |
|---|---|---|
| AiSkillMatcher.Keys | backend/utils/aiSkillMatcher.js:12-26 | the canonical skills are the ontology's keys, in table order |
| AiSkillMatcher.KeysDistinct | backend/utils/aiSkillMatcher.js:12-26 | no canonical skill appears twice in the table |
| AiSkillMatcher.Clean | backend/utils/aiSkillMatcher.js:36-37 | lowercasing and the first replacement keep the length; every character outside `[a-z0-9]`, whitespace, `.` and `+` becomes a space |
| AiSkillMatcher.NormalizeShape | backend/utils/aiSkillMatcher.js:36-38 | the normalised text has only lowercase letters, digits, `.`, `+` and single spaces; it is no longer than the input and not empty when the input is not |
| AiSkillMatcher.Normalize | backend/utils/aiSkillMatcher.js:36-38 | the text lowercased, every character other than a letter, digit, whitespace, `.` or `+` turned into a space, and each whitespace run collapsed to one space |
| AiSkillMatcher.NormalizeIdempotent | backend/utils/aiSkillMatcher.js:36-38 | normalising a normalised text changes nothing |
| AiSkillMatcher.ExtractEmpty | backend/utils/aiSkillMatcher.js:34 | empty text yields no skills |
| AiSkillMatcher.ExtractOrdered | backend/utils/aiSkillMatcher.js:40-60 | every extracted skill is a canonical skill; the skills come in strictly increasing table order, so none is repeated |
| AiSkillMatcher.ExtractMember | backend/utils/aiSkillMatcher.js:42-58 | a canonical skill is extracted iff the text is non-empty and the alias test of its entry succeeds on the normalised text |
| AiSkillMatcher.ExtractIff | backend/utils/aiSkillMatcher.js:36-58 | a canonical skill is extracted iff the text is non-empty and one of its aliases occurs in the normalised text with a word boundary on both sides |
| AiSkillMatcher.ExtractSpec | backend/utils/aiSkillMatcher.js:33-61 | the empty list for an empty text; otherwise the keys, in table order, one of whose aliases is a whole word of the normalised text |
| AiSkillMatcher.ExtractNormalized | backend/utils/aiSkillMatcher.js:36-38 | extraction depends only on the normalised text |
| AiSkillMatcher.ExtractSkillsAI | backend/utils/aiSkillMatcher.js:33-61 | the loop over the table, which adds a skill to the found set on a whole-word alias hit, returns exactly the extraction specification |
| AiSkillMatcher.FindKeySpec | backend/utils/aiSkillMatcher.js:83-85 | the key search returns nothing iff no entry claims the skill; otherwise it returns the key of the first claiming entry |
| AiSkillMatcher.CanonicalizeSpec | backend/utils/aiSkillMatcher.js:80-87 | a job skill becomes the key of the first entry, in key order, whose aliases contain the lowercased skill or whose key equals it; without one it stays lowercased |
| AiSkillMatcher.Canonicalize | backend/utils/aiSkillMatcher.js:80-87 | the lowercased skill is replaced by the key of the first entry that is or lists it, and kept when none does |
| AiSkillMatcher.CanonicalizeAll | backend/utils/aiSkillMatcher.js:80-87 | the mapping keeps the length and canonicalises each skill in place |
| AiSkillMatcher.CoreCount | backend/utils/aiSkillMatcher.js:90 | the core group size is n/2 rounded up |
| AiSkillMatcher.SplitGroups | backend/utils/aiSkillMatcher.js:80-93 | core is the first ⌈n/2⌉ canonicalised skills and secondary the rest; core is non-empty and the two sizes sum to n |
| AiSkillMatcher.SortGroup | backend/utils/aiSkillMatcher.js:101-119 | one pass over a group appends its listed skills to the matched list and the others to the missing list, in group order, and counts the hits |
| AiSkillMatcher.GenerateMatchScoreAI | backend/utils/aiSkillMatcher.js:73-144 | the method's result is the scoring specification, including the empty-job-list case of score 0 with empty lists |
| AiSkillMatcher.MatchSpecGroups | backend/utils/aiSkillMatcher.js:89-143 | the result for a non-empty job list, written in terms of its core and secondary groups |
| AiSkillMatcher.PresentAbsentAppend | backend/utils/aiSkillMatcher.js:101-119 | sorting two groups one after the other is sorting their concatenation |
| AiSkillMatcher.PresentAbsentMembers | backend/utils/aiSkillMatcher.js:101-119 | a skill is matched iff it is in the group and listed, missing iff it is in the group and not listed; the two lists together are the group as a multiset |
| AiSkillMatcher.PresentAll | backend/utils/aiSkillMatcher.js:101-119 | when every skill is listed, the whole group is matched and nothing is missing |
| AiSkillMatcher.PresentNone | backend/utils/aiSkillMatcher.js:101-119 | when no skill is listed, nothing is matched and the whole group is missing |
| AiSkillMatcher.PresentAbsentInterleave | backend/utils/aiSkillMatcher.js:101-119 | the group is an order-preserving merge of its matched and missing lists |
| AiSkillMatcher.MatchPartition | backend/utils/aiSkillMatcher.js:89-119 | matched and missing partition the canonicalised skills: membership both ways, multiplicities, order preserved, lengths summing to n |
| AiSkillMatcher.WeightedScoreRange | backend/utils/aiSkillMatcher.js:123-140 | the weighted score of hit counts within their group sizes lies in 0..100 |
| AiSkillMatcher.WeightedScore | backend/utils/aiSkillMatcher.js:123-143 | the rounded 70-weighted core share plus 30-weighted secondary share, or the rounded core share of 100 when the secondary group is empty |
| AiSkillMatcher.ScoreRange | backend/utils/aiSkillMatcher.js:121-143 | the match score always lies in 0..100 |
| AiSkillMatcher.ScoreByGroups | backend/utils/aiSkillMatcher.js:121-140 | the score is the rounded weighted score of the core and secondary hit counts |
| AiSkillMatcher.MatchSpec | backend/utils/aiSkillMatcher.js:73-144 | score 0 and empty lists for no job skills; otherwise the canonicalised skills split into a core half and a secondary half, each sorted into matched and missing, and the weighted score |
| AiSkillMatcher.WeightedScoreAll | backend/utils/aiSkillMatcher.js:126-137 | every hit in both groups scores 100, with or without a secondary group |
| AiSkillMatcher.WeightedScoreNone | backend/utils/aiSkillMatcher.js:126-137 | no hit scores 0 |
| AiSkillMatcher.WeightedScoreCoreOnly | backend/utils/aiSkillMatcher.js:123-136 | every core hit and no secondary hit scores 70 |
| AiSkillMatcher.ScoreAllMatched | backend/utils/aiSkillMatcher.js:121-143 | a job all of whose canonicalised skills are listed scores 100 |
| AiSkillMatcher.ScoreNoneMatched | backend/utils/aiSkillMatcher.js:74-143 | a job none of whose canonicalised skills are listed scores 0, including the empty job list |
| AiSkillMatcher.ScoreCoreOnly | backend/utils/aiSkillMatcher.js:89-143 | with two or more skills, matching exactly the core group scores 70 |
| AiSkillMatcher.ScoreSingleSkill | backend/utils/aiSkillMatcher.js:89-143 | a single required skill scores 100 when listed and 0 otherwise |
| AiSkillMatcher.RankCandidates | backend/utils/aiSkillMatcher.js:151-153 | the array is sorted in place, no score followed by a larger one, as a permutation of its old contents in which the applications of each score keep their relative order, and the same array is returned |
| OntologyFacts.KeysLowercase | backend/utils/aiSkillMatcher.js:12-26 | every key is written in lowercase |
| OntologyFacts.OntologyKeysFixed | backend/utils/aiSkillMatcher.js:12-26 | each key is claimed first by its own entry, so it is its own canonical form |
| OntologyFacts.CanonicalizeIdempotent | backend/utils/aiSkillMatcher.js:80-87 | canonicalising twice is canonicalising once |
| OntologyFacts.CanonicalOfKey | backend/utils/aiSkillMatcher.js:80-87 | a skill that lowercases to a key is canonicalised to that key |
| AiSkillMatcherExamples.CanonicalExamples | backend/test-ai.js:14-20 | "React", "Node", "MongoDB" and "Python" canonicalise to their keys |
| AiSkillMatcherExamples.CanonicalExamplesMore | backend/test-ai.js:24-46 | "Java", "Docker", "JavaScript" and "Express" canonicalise to their keys |
| AiSkillMatcherExamples.ScenarioHighMatch | backend/test-ai.js:14-20 | the sample resume's skills match React, Node and MongoDB fully: score 100, nothing missing |
| AiSkillMatcherExamples.ScenarioPartialMatch | backend/test-ai.js:24-34 | the sample resume's skills score 70 against React, Node, Python, Java and Docker |
| AiSkillMatcherExamples.AbbreviationJs | backend/test-ai.js:38-46 | the abbreviation "JS" yields javascript |
| AiSkillMatcherExamples.SpellingExpressJs | backend/test-ai.js:38-46 | the spelling "ExpressJS" yields express |
| AiSkillMatcherExamples.ScenarioSynonyms | backend/test-ai.js:38-46 | skills holding javascript and express fully match the required "JavaScript" and "Express" |
| AiSkillMatcherExamples.JavaNotInJavascript | backend/utils/aiSkillMatcher.js:47-53 | no alias of java is a whole word of "javascript" |
| AiSkillMatcherExamples.WholeWordJavascript | backend/utils/aiSkillMatcher.js:42-58 | the text "javascript" yields javascript and not java |
| AiSkillMatcherExamples.DottedAliasYieldsJavascript | backend/utils/aiSkillMatcher.js:36-53 | "React.js" yields javascript, since "js" stands alone after the dot |
| AiSkillMatcherExamples.DottedAliasYieldsReact | backend/utils/aiSkillMatcher.js:36-53 | "React.js" yields react through its alias "react.js" |
| Text.Lower | backend/utils/skillMatcher.js:6 | the lowercased text has the same length, each character ASCII-lowercased in place |
| Text.Contains | backend/utils/skillMatcher.js:10 | `includes`: a left-to-right scan for the substring from every start index |
| Text.ContainsIff | backend/utils/skillMatcher.js:10 | the scan succeeds exactly when the substring occurs at some index |
| Text.HasWord | backend/utils/aiSkillMatcher.js:50-52 | the word-boundary (`\b`) regex test: a scan for an occurrence with a word boundary on both sides |
| Text.HasWordIff | backend/utils/aiSkillMatcher.js:50-52 | the test succeeds exactly when the word occurs with a boundary on both sides at some index |
| Rounding.Round | backend/utils/aiSkillMatcher.js:140 | `Math.round(p/q)` is the integer r with q(2r-1) ≤ 2p < q(2r+1), and it is non-negative for a non-negative p |
| Rounding.Share | backend/services/scoreExplanationService.js:198-202 | the rounded share of hits out of a total, scaled to some points, is the nearest whole number of points and lies between 0 and those points |
| ScoreExplanationService.CalculateSkillsScore | backend/services/scoreExplanationService.js:101-116 | max 50, the lists passed through; points and percentage are the nearest integers to 50 and 100 times matched/required, or 0 for no required skills |
| ScoreExplanationService.SkillsScoreRange | backend/services/scoreExplanationService.js:101-116 | no more matched than required keeps the points in 0..50 and the percentage in 0..100 |
| ScoreExplanationService.SkillsScoreFull | backend/services/scoreExplanationService.js:101-116 | matching every required skill gives 50 points and 100 percent |
| ScoreExplanationService.SkillsScoreMonotone | backend/services/scoreExplanationService.js:101-116 | more matched skills never lower the points or the percentage |
| ScoreExplanationService.SkillsScoreAgree | backend/services/scoreExplanationService.js:106-114 | the percentage is within one of twice the points |
| ScoreExplanationService.FirstNumberNone | backend/services/scoreExplanationService.js:124-125 | the first-number search finds nothing iff no digit follows |
| ScoreExplanationService.FirstNumberAt | backend/services/scoreExplanationService.js:124-125 | the search reads the digit run that starts at the first digit |
| ScoreExplanationService.RequiredYears | backend/services/scoreExplanationService.js:124-125 | the value of the first digit run of the job's experience text, or 0 when it has none |
| ScoreExplanationService.NoRunStartInside | backend/services/scoreExplanationService.js:128 | no digit run starts strictly inside another, so a years match can only begin at a run start |
| ScoreExplanationService.YearMentionsSound | backend/services/scoreExplanationService.js:128-136 | every number collected is carried by a match of the years pattern |
| ScoreExplanationService.YearMentionsComplete | backend/services/scoreExplanationService.js:128-136 | every match of the years pattern has its number collected |
| ScoreExplanationService.MaxOf | backend/services/scoreExplanationService.js:137 | the maximum bounds every element and is one of them, or is 0 for none |
| ScoreExplanationService.CandidateYearsSpec | backend/services/scoreExplanationService.js:128-138 | the candidate's years bound every years-pattern match, are carried by one when positive, and are 0 without a match |
| ScoreExplanationService.CandidateYears | backend/services/scoreExplanationService.js:128-138 | the largest number that a years unit follows in the resume text, or 0 when none does |
| ScoreExplanationService.CloseToRequirement | backend/services/scoreExplanationService.js:147 | c ≥ 0.7·r over exact reals iff 10c ≥ 7r |
| ScoreExplanationService.ExperiencePoints | backend/services/scoreExplanationService.js:144-156 | the points are 5, 10, 15 or 20; 20 iff the candidate meets the requirement; 5 iff no years are stated against a positive requirement |
| ScoreExplanationService.ExperiencePointsMonotone | backend/services/scoreExplanationService.js:144-156 | more years never earn fewer points, and a higher requirement never earns more |
| ScoreExplanationService.ExperienceClose | backend/services/scoreExplanationService.js:147-152 | 15 points iff short of the requirement but at 70 percent of it or more; 10 iff some years but under 70 percent |
| ScoreExplanationService.CalculateExperienceScore | backend/services/scoreExplanationService.js:122-165 | the if-chain yields the band points of the stated against the required years, with the band's status, max 20, "N years" or "Not specified", and the job's experience text unchanged |
| ScoreExplanationService.FilterContained | backend/services/scoreExplanationService.js:183 | the filter keeps exactly the words the text contains, and all of them when the text contains all |
| ScoreExplanationService.FilterContainedInOrder | backend/services/scoreExplanationService.js:183 | the list is an order-preserving merge of the kept words and the dropped ones, so the kept words keep their list order |
| ScoreExplanationService.FilterContainedCounts | backend/services/scoreExplanationService.js:183 | a word the text contains is kept as many times as the list holds it, any other word never |
| ScoreExplanationService.FilterContainedRanked | backend/services/scoreExplanationService.js:183 | a list in increasing position within a reference list stays so after filtering |
| ScoreExplanationService.DepartmentsRanked | backend/services/scoreExplanationService.js:173-177 | the sixteen department words are distinct, each at its own index |
| ScoreExplanationService.CalculateDepartmentScore | backend/services/scoreExplanationService.js:171-209 | neutral 7, unmatched, iff the description names no department word; otherwise the job's departments are the department words the description names, each once and in list order, the candidate's are those of them the resume names, again once each in list order, the score is their rounded share out of 10, and matched iff a department is named in both |
| ScoreExplanationService.DepartmentAllMentioned | backend/services/scoreExplanationService.js:196-202 | a resume naming every department of the description earns 10 |
| ScoreExplanationService.DepartmentNoneMentioned | backend/services/scoreExplanationService.js:196-202 | a resume naming none earns 0 |
| ScoreExplanationService.CalculateDescriptionScore | backend/services/scoreExplanationService.js:215-245 | neutral 15 with no percentage iff the extractor finds no skill in the description; otherwise the counts, points and percentage as the nearest integers to 20 and 100 times the listed share, and the "m of n keywords matched" status |
| ScoreExplanationService.DescriptionAllListed | backend/services/scoreExplanationService.js:230-242 | listing every description skill earns 20 points and 100 percent |
| ScoreExplanationService.DescriptionNoneListed | backend/services/scoreExplanationService.js:230-242 | listing none earns 0 points and 0 percent |
| ScoreExplanationService.GenerateHumanExplanation | backend/services/scoreExplanationService.js:250-297 | the appended sentences form the narrative: verdict, skills, experience, domain only when a department matched, description only at 40 percent or more |
| ScoreExplanationService.Narrative | backend/services/scoreExplanationService.js:250-297 | the narrative is the verdict sentence of the total, the skills and experience sentences, the domain sentence when a department matched, and the closing sentence at 40 percent or more |
| ScoreExplanationService.OpeningDeterminesVerdict | backend/services/scoreExplanationService.js:253-264 | no text opens with two different verdict sentences |
| ScoreExplanationService.NarrativeVerdict | backend/services/scoreExplanationService.js:253-296 | every narrative begins with the verdict sentence of its total under the thresholds 80, 60 and 40 |
| ScoreExplanationService.ExperienceSentencesDistinct | backend/services/scoreExplanationService.js:276-282 | the three experience sentences are different |
| ScoreExplanationService.ExperienceSentenceOfPoints | backend/services/scoreExplanationService.js:144-156 | through the points, the narrative says the experience aligns well iff c ≥ r, is close iff c < r and 10c ≥ 7r, and needs more iff 10c < 7r |
| ScoreExplanationService.FindApplication | backend/services/scoreExplanationService.js:27-30 | none iff no application joins the job and the candidate; otherwise such an application |
| ScoreExplanationService.DepartmentText | backend/services/scoreExplanationService.js:55-58 | the resume's extracted text when the candidate has a resume with non-empty text, otherwise the application's resume text |
| ScoreExplanationService.ResumeSkills | backend/services/scoreExplanationService.js:60-63 | the resume's extracted skills when the candidate has a resume, otherwise the empty list |
| ScoreExplanationService.TotalScoreRange | backend/services/scoreExplanationService.js:66-70 | the sum of the four sub-scores is at least 5, and at most 100 when no more skills were matched than required |
| ScoreExplanationService.Explain | backend/services/scoreExplanationService.js:43-79 | the four breakdowns of the application, each in every field (the experience breakdown with its points, status, max, stated and required experience), their sum and the narrative of them |
| ScoreExplanationService.GenerateScoreExplanation | backend/services/scoreExplanationService.js:24-96 | "Application not found", then "Job not found", then the error of a missing resume text; otherwise, and only then, a successful result with the four breakdowns in every field, a total of at least 5 (at most 100 when matched ≤ required) and a narrative that begins with the total's verdict sentence |
| SkillMatchingService.MatchForFacts | backend/services/skillMatchingService.js:33-53 | the record has its key, the application and the time, a score in 0..100 and lists summing to the required count; without a resume score 0, nothing matched and the raw required skills missing; with one, the partition of the canonicalised skills |
| SkillMatchingService.MatchFor | backend/services/skillMatchingService.js:33-53 | without a resume, score 0, nothing matched and the raw required skills missing; with one, the weighted match of the resume's skills against the required skills |
| SkillMatchingService.StoreEachKeyed | backend/models/jobCandidateMatchModel.js:58 | the recalculation keeps every record under its own (job, candidate) pair |
| SkillMatchingService.StoreEachOthers | backend/services/skillMatchingService.js:114-122 | pairs no application touches keep their record, and gain none |
| SkillMatchingService.StoreEachStored | backend/services/skillMatchingService.js:114-122 | when every job exists, each application's pair holds the record computed for its last application |
| SkillMatchingService.StoreEach | backend/services/skillMatchingService.js:117-120 | the table after one upsert per application in order, stopping at the first application whose job is missing |
| SkillMatchingService.CandidateApplications | backend/services/skillMatchingService.js:112 | exactly the candidate's applications |
| SkillMatchingService.CandidateApplicationsCount | backend/services/skillMatchingService.js:112 | as many applications are found as the store holds for the candidate |
| SkillMatchingService.CandidateApplicationsInOrder | backend/services/skillMatchingService.js:112 | the store is an order-preserving merge of the candidate's applications and the others, so they come in store order |
| SkillMatchingService.JobApplications | backend/services/skillMatchingService.js:141 | exactly the job's applications |
| SkillMatchingService.JobApplicationsCount | backend/services/skillMatchingService.js:141 | as many applications are found as the store holds for the job |
| SkillMatchingService.JobApplicationsInOrder | backend/services/skillMatchingService.js:141 | the store is an order-preserving merge of the job's applications and the others, so they come in store order |
| SkillMatchingService.MatchStore.CreateOrUpdateMatch | backend/services/skillMatchingService.js:72-98 | the record under (jobId, candidateId) is replaced in full and the rest of the table is unchanged |
| SkillMatchingService.MatchStore.CalculateAndStoreMatch | backend/services/skillMatchingService.js:24-58 | "Job not found" with no write for a missing job; otherwise the zero record without a resume, or the weighted match over the resume's skills, upserted |
| SkillMatchingService.MatchStore.RecalculateMatchesForCandidate | backend/services/skillMatchingService.js:107-127 | one upsert per application of the candidate, in store order; the count of the candidate's applications in the store, or "Job not found" at the first missing job |
| SkillMatchingService.MatchStore.RecalculateMatchesForJob | backend/services/skillMatchingService.js:136-156 | one upsert per application to the job; the count of the job's applications in the store, or "Job not found" when the job is missing and it has applications |
| SkillMatchingService.MatchStore.GetRankedCandidatesForJob | backend/services/skillMatchingService.js:165-177 | exactly the job's records, each once, with no score followed by a larger one |
| SkillMatchingService.MatchStore.ProcessResumeUpload | backend/services/skillMatchingService.js:188-214 | the candidate's single resume is replaced with the extracted skills of the text, then every match of the candidate is recomputed; the resume is returned unless a job is missing |
| SkillMatcher.MentionCount | backend/utils/skillMatcher.js:6-13 | the count is at most the number of skills, equals it iff every skill is mentioned, and is 0 iff none is |
| SkillMatcher.LegacyScore | backend/utils/skillMatcher.js:1-17 | 0 for an empty text or no skills; otherwise the rounded percentage of the skills whose lowercase form the lowercased text contains |
| SkillMatcher.CalculateMatchScore | backend/utils/skillMatcher.js:1-17 | the counting loop returns the legacy score: 0 for empty text or no skills, else the rounded percentage of mentioned skills |
| SkillMatcher.LegacyScoreRange | backend/utils/skillMatcher.js:15-16 | the score lies in 0..100 |
| SkillMatcher.LegacyScoreAll | backend/utils/skillMatcher.js:9-16 | a text mentioning every skill scores 100 |
| SkillMatcher.LegacyScoreNone | backend/utils/skillMatcher.js:2-16 | a text mentioning none scores 0 |
| SkillMatcher.LegacyScoreMonotone | backend/utils/skillMatcher.js:9-16 | more mentioned skills never lower the score |
| SkillMatcher.MentionCountIgnoresCase | backend/utils/skillMatcher.js:6-10 | the count ignores the case of the text and of every skill |
| SkillMatcher.LegacyScoreIgnoresCase | backend/utils/skillMatcher.js:6-16 | the score ignores the case of the text and of every skill |
| SkillMatcher.JavaInsideJavascript | backend/utils/skillMatcher.js:10 | "Java" counts in the text "javascript", since there is no word boundary |

## Left out

- Floating point: every score is computed from exact fractions, so rare IEEE-754 rounding artefacts of `Math.round` on quotients are not reproduced.
- Case folding is ASCII-only: `toLowerCase` on non-ASCII letters is not modelled.
- A general regex engine: the whole-word alias test and the years pattern are written as string predicates. They match on the normalised text, or on the resume text with the pattern's own classes.
- Absent inputs are modelled as empty ones. This covers the text of `extractSkillsAI`, the job-skill list of `generateMatchScoreAI`, and the text and skill list of the legacy scorer, which the source treats the same way.
- `parseInt` of a digit run longer than a double can hold exactly: the model reads it as an unbounded natural number.
- AiSkillMatcherExamples.ScenarioHighMatch: the long sample resume is not evaluated. The scenarios start from the skills the extractor yields for it, which include javascript because of "React.js".
- SkillMatchingService.MatchStore.GetRankedCandidatesForJob: the order among equal scores is not stated, and populating the candidate's name and email is left out.
- ScoreExplanationService.GenerateScoreExplanation: an application with no resume text fails with the error JavaScript raises when the years pattern is applied to `undefined`. Of several applications for the same job and candidate, the first in store order is taken. The `populate` of the application is left out, and `Math.round` of the integer total is the identity.
- Timestamps: `new Date()` is a `now` parameter, one value per call, shared by every record a recalculation writes.
- Mongoose behaviour outside the data: schema validators (not run by `findOneAndUpdate`), `createdAt`/`updatedAt`, default values and ObjectId generation. The store keeps the data each operation reads and writes.
- Error handling: console logging and the rethrow in every `catch` are left out. An error is a `Result` value that stops the operation where the source would throw.
- SkillMatchingService.MatchStore.RecalculateMatchesForCandidate: the upserts before the failing application remain in the table, as they do in the source. A failure of the store itself is not modelled.
