/** The stored documents the matching services read and write, reduced to the fields the
    matching and explanation code touches. */
module Records {
  import opened Outcomes

  type JobId = nat
  type CandidateId = nat
  type ApplicationId = nat
  /** A point in time, standing for `new Date()`. */
  type Timestamp = nat

  /** A job posting: its description, the skills the recruiter entered (in the order
      entered, original casing) and the experience requirement, e.g. "2-5 years". */
  datatype Job = Job(id: JobId, description: string, requiredSkills: seq<string>, experience: string)

  /** A candidate's application to a job, with the score and skill lists computed when it
      was submitted.  The schema does not require the extracted resume text, so it may be
      absent. */
  datatype Application = Application(
    id: ApplicationId,
    job: JobId,
    candidate: CandidateId,
    resumeText: Option<string>,
    skillScore: int,
    matchedSkills: seq<string>,
    missingSkills: seq<string>)

  /** The one resume a candidate keeps, with the text extracted from the file and the
      canonical skills found in it. */
  datatype Resume = Resume(
    candidateId: CandidateId,
    resumeFileUrl: string,
    extractedText: string,
    extractedSkills: seq<string>,
    uploadedAt: Timestamp)

  /** The denormalised match record kept for one (job, candidate) pair. */
  datatype MatchRecord = MatchRecord(
    jobId: JobId,
    candidateId: CandidateId,
    applicationId: Option<ApplicationId>,
    matchingScore: int,
    matchedSkills: seq<string>,
    missingSkills: seq<string>,
    calculatedAt: Timestamp)
}
