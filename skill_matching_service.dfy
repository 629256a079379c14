/** The match-store coordinator (backend/services/skillMatchingService.js): it keeps one
    match record per (job, candidate) pair up to date with the candidate's resume and the
    job's required skills, and lists a job's candidates by score.  The document store is an
    in-memory table: jobs and resumes keyed by their ids, applications in store order, and
    match records keyed by the pair the unique index covers. */
module SkillMatchingService {
  import opened Outcomes
  import opened Records
  import opened Sequences
  import AiSkillMatcher
  import Ranking

  type MatchKey = (JobId, CandidateId)
  type MatchTable = map<MatchKey, MatchRecord>

  /** Every match record sits under its own (jobId, candidateId) pair, so the unique index
      on that pair holds by construction. */
  predicate KeyedByPair(matches: MatchTable)
  {
    forall key :: key in matches ==> matches[key].jobId == key.0 && matches[key].candidateId == key.1
  }

  /** Every resume sits under its own candidate, one per candidate. */
  predicate KeyedByCandidate(resumes: map<CandidateId, Resume>)
  {
    forall c :: c in resumes ==> resumes[c].candidateId == c
  }

  /** `Resume.findOne({ candidateId })`. */
  function ResumeOf(resumes: map<CandidateId, Resume>, candidateId: CandidateId): Option<Resume>
  {
    if candidateId in resumes then Some(resumes[candidateId]) else None
  }

  /** The record `calculateAndStoreMatch` writes for a job that exists: a zero score with
      every raw required skill missing when the candidate has no resume, otherwise the score
      and skill lists of the weighted matcher over the resume's skills. */
  function MatchFor(
    job: Job, jobId: JobId, resume: Option<Resume>, candidateId: CandidateId,
    applicationId: Option<ApplicationId>, now: Timestamp): MatchRecord
  {
    match resume
    case None => MatchRecord(jobId, candidateId, applicationId, 0, [], job.requiredSkills, now)
    case Some(r) =>
      var m := AiSkillMatcher.MatchSpec(r.extractedSkills, job.requiredSkills);
      MatchRecord(jobId, candidateId, applicationId, m.score, m.matchedSkills, m.missingSkills, now)
  }

  /** A stored record carries its key, a score in 0..100, and matched and missing lists
      that, with a resume, split the canonicalised required skills between them; without a
      resume nothing is matched and the raw required skills are missing. */
  lemma MatchForFacts(
    job: Job, jobId: JobId, resume: Option<Resume>, candidateId: CandidateId,
    applicationId: Option<ApplicationId>, now: Timestamp)
    ensures var m := MatchFor(job, jobId, resume, candidateId, applicationId, now);
      && m.jobId == jobId && m.candidateId == candidateId
      && m.applicationId == applicationId && m.calculatedAt == now
      && 0 <= m.matchingScore <= 100
      && |m.matchedSkills| + |m.missingSkills| == |job.requiredSkills|
      && (resume.None? ==> m.matchingScore == 0 && m.matchedSkills == [] && m.missingSkills == job.requiredSkills)
      && (resume.Some? ==> forall s :: s in m.matchedSkills <==>
            s in AiSkillMatcher.CanonicalizeAll(job.requiredSkills) && s in resume.value.extractedSkills)
      && (resume.Some? ==> forall s :: s in m.missingSkills <==>
            s in AiSkillMatcher.CanonicalizeAll(job.requiredSkills) && s !in resume.value.extractedSkills)
  {
    if resume.Some? {
      AiSkillMatcher.ScoreRange(resume.value.extractedSkills, job.requiredSkills);
      AiSkillMatcher.MatchPartition(resume.value.extractedSkills, job.requiredSkills);
    }
  }

  /** The record for an application, computed against the job it applies to. */
  function MatchForApplication(
    jobs: map<JobId, Job>, resumes: map<CandidateId, Resume>, a: Application, now: Timestamp): MatchRecord
    requires a.job in jobs
  {
    MatchFor(jobs[a.job], a.job, ResumeOf(resumes, a.candidate), a.candidate, Some(a.id), now)
  }

  /** The table after the recalculation loop over apps: one upsert per application, in
      order, stopping at the first application whose job is missing. */
  function StoreEach(
    matches: MatchTable, jobs: map<JobId, Job>, resumes: map<CandidateId, Resume>,
    apps: seq<Application>, now: Timestamp): MatchTable
    decreases |apps|
  {
    if apps == [] || apps[0].job !in jobs then matches
    else
      var a := apps[0];
      StoreEach(matches[(a.job, a.candidate) := MatchForApplication(jobs, resumes, a, now)], jobs, resumes, apps[1..], now)
  }

  predicate AllJobsExist(apps: seq<Application>, jobs: map<JobId, Job>)
  {
    forall a :: a in apps ==> a.job in jobs
  }

  /** The recalculation keeps every record under its own key. */
  lemma {:induction false} StoreEachKeyed(
    matches: MatchTable, jobs: map<JobId, Job>, resumes: map<CandidateId, Resume>,
    apps: seq<Application>, now: Timestamp)
    requires KeyedByPair(matches)
    ensures KeyedByPair(StoreEach(matches, jobs, resumes, apps, now))
    decreases |apps|
  {
    if apps != [] && apps[0].job in jobs {
      var a := apps[0];
      var updated := matches[(a.job, a.candidate) := MatchForApplication(jobs, resumes, a, now)];
      assert KeyedByPair(updated);
      StoreEachKeyed(updated, jobs, resumes, apps[1..], now);
    }
  }

  /** Records under pairs that no application in apps has are left as they were, and no
      record appears under such a pair. */
  lemma {:induction false} StoreEachOthers(
    matches: MatchTable, jobs: map<JobId, Job>, resumes: map<CandidateId, Resume>,
    apps: seq<Application>, now: Timestamp, key: MatchKey)
    requires forall a :: a in apps ==> (a.job, a.candidate) != key
    ensures key in StoreEach(matches, jobs, resumes, apps, now) <==> key in matches
    ensures key in matches ==> StoreEach(matches, jobs, resumes, apps, now)[key] == matches[key]
    decreases |apps|
  {
    if apps != [] && apps[0].job in jobs {
      var a := apps[0];
      assert a in apps;
      StoreEachOthers(
        matches[(a.job, a.candidate) := MatchForApplication(jobs, resumes, a, now)], jobs, resumes, apps[1..], now, key);
    }
  }

  /** When every job exists, every application's pair ends up with the record computed
      for the last application of that pair. */
  lemma {:induction false} StoreEachStored(
    matches: MatchTable, jobs: map<JobId, Job>, resumes: map<CandidateId, Resume>,
    apps: seq<Application>, now: Timestamp, i: nat)
    requires AllJobsExist(apps, jobs) && i < |apps|
    requires forall j :: i < j < |apps| ==> (apps[j].job, apps[j].candidate) != (apps[i].job, apps[i].candidate)
    ensures (apps[i].job, apps[i].candidate) in StoreEach(matches, jobs, resumes, apps, now)
    ensures StoreEach(matches, jobs, resumes, apps, now)[(apps[i].job, apps[i].candidate)]
      == MatchForApplication(jobs, resumes, apps[i], now)
    decreases |apps|
  {
    var a := apps[0];
    assert a in apps;
    var updated := matches[(a.job, a.candidate) := MatchForApplication(jobs, resumes, a, now)];
    var rest := apps[1..];
    assert AllJobsExist(rest, jobs) by {
      forall b | b in rest ensures b.job in jobs {
        assert b in apps;
      }
    }
    if i == 0 {
      forall b | b in rest
        ensures (b.job, b.candidate) != (a.job, a.candidate)
      {
        var j :| 0 <= j < |rest| && rest[j] == b;
        assert apps[j + 1] == b;
      }
      StoreEachOthers(updated, jobs, resumes, rest, now, (a.job, a.candidate));
    } else {
      forall j | i - 1 < j < |rest|
        ensures (rest[j].job, rest[j].candidate) != (rest[i - 1].job, rest[i - 1].candidate)
      {
        assert rest[j] == apps[j + 1] && rest[i - 1] == apps[i];
      }
      StoreEachStored(updated, jobs, resumes, rest, now, i - 1);
    }
  }

  /** `Application.find({ candidate })`: the candidate's applications in store order. */
  function CandidateApplications(applications: seq<Application>, candidateId: CandidateId): (r: seq<Application>)
    ensures forall a :: a in r <==> a in applications && a.candidate == candidateId
  {
    if applications == [] then []
    else
      var n := |applications| - 1;
      assert applications == applications[..n] + [applications[n]];
      CandidateApplications(applications[..n], candidateId) + (if applications[n].candidate == candidateId then [applications[n]] else [])
  }

  /** As many applications are found as the store holds for the candidate: the count
      the recalculation reports. */
  lemma {:induction false} CandidateApplicationsCount(applications: seq<Application>, candidateId: CandidateId)
    ensures |CandidateApplications(applications, candidateId)| == |set i | 0 <= i < |applications| && applications[i].candidate == candidateId|
  {
    if applications != [] {
      var n := |applications| - 1;
      var front := applications[..n];
      CandidateApplicationsCount(front, candidateId);
      var before := set i | 0 <= i < n && front[i].candidate == candidateId;
      var all := set i | 0 <= i < |applications| && applications[i].candidate == candidateId;
      assert forall i :: i in all <==> i in before || (i == n && applications[n].candidate == candidateId) by {
        forall i ensures i in all <==> i in before || (i == n && applications[n].candidate == candidateId) {
          if 0 <= i < n {
            assert front[i] == applications[i];
          }
        }
      }
      if applications[n].candidate == candidateId {
        assert n !in before && all == before + {n};
        assert CandidateApplications(applications, candidateId) == CandidateApplications(front, candidateId) + [applications[n]];
      } else {
        assert all == before;
        assert CandidateApplications(applications, candidateId) == CandidateApplications(front, candidateId);
      }
    }
  }

  /** The applications `Application.find({ candidate })` passes over, in store order. */
  function ApplicationsOfOthers(applications: seq<Application>, candidateId: CandidateId): (r: seq<Application>)
    ensures forall a :: a in r ==> a in applications && a.candidate != candidateId
  {
    if applications == [] then []
    else
      var n := |applications| - 1;
      assert applications == applications[..n] + [applications[n]];
      ApplicationsOfOthers(applications[..n], candidateId) + (if applications[n].candidate == candidateId then [] else [applications[n]])
  }

  /** The candidate's applications keep their store order: the store is an order-preserving
      merge of them and the others. */
  lemma {:induction false} CandidateApplicationsInOrder(applications: seq<Application>, candidateId: CandidateId)
    ensures Interleaves(applications, CandidateApplications(applications, candidateId), ApplicationsOfOthers(applications, candidateId))
  {
    if applications != [] {
      var n := |applications| - 1;
      var last := applications[n];
      var found := CandidateApplications(applications[..n], candidateId);
      var others := ApplicationsOfOthers(applications[..n], candidateId);
      CandidateApplicationsInOrder(applications[..n], candidateId);
      assert applications == applications[..n] + [last];
      if last.candidate == candidateId {
        assert CandidateApplications(applications, candidateId) == found + [last];
        assert ApplicationsOfOthers(applications, candidateId) == others;
        InterleavesKeep(applications[..n], found, others, last);
      } else {
        assert CandidateApplications(applications, candidateId) == found;
        assert ApplicationsOfOthers(applications, candidateId) == others + [last];
        InterleavesDrop(applications[..n], found, others, last);
      }
    }
  }

  /** `Application.find({ job })`: the job's applications in store order. */
  function JobApplications(applications: seq<Application>, jobId: JobId): (r: seq<Application>)
    ensures forall a :: a in r <==> a in applications && a.job == jobId
  {
    if applications == [] then []
    else
      var n := |applications| - 1;
      assert applications == applications[..n] + [applications[n]];
      JobApplications(applications[..n], jobId) + (if applications[n].job == jobId then [applications[n]] else [])
  }

  /** As many applications are found as the store holds for the job: the count
      the recalculation reports. */
  lemma {:induction false} JobApplicationsCount(applications: seq<Application>, jobId: JobId)
    ensures |JobApplications(applications, jobId)| == |set i | 0 <= i < |applications| && applications[i].job == jobId|
  {
    if applications != [] {
      var n := |applications| - 1;
      var front := applications[..n];
      JobApplicationsCount(front, jobId);
      var before := set i | 0 <= i < n && front[i].job == jobId;
      var all := set i | 0 <= i < |applications| && applications[i].job == jobId;
      assert forall i :: i in all <==> i in before || (i == n && applications[n].job == jobId) by {
        forall i ensures i in all <==> i in before || (i == n && applications[n].job == jobId) {
          if 0 <= i < n {
            assert front[i] == applications[i];
          }
        }
      }
      if applications[n].job == jobId {
        assert n !in before && all == before + {n};
        assert JobApplications(applications, jobId) == JobApplications(front, jobId) + [applications[n]];
      } else {
        assert all == before;
        assert JobApplications(applications, jobId) == JobApplications(front, jobId);
      }
    }
  }

  /** The applications `Application.find({ job })` passes over, in store order. */
  function ApplicationsToOtherJobs(applications: seq<Application>, jobId: JobId): (r: seq<Application>)
    ensures forall a :: a in r ==> a in applications && a.job != jobId
  {
    if applications == [] then []
    else
      var n := |applications| - 1;
      assert applications == applications[..n] + [applications[n]];
      ApplicationsToOtherJobs(applications[..n], jobId) + (if applications[n].job == jobId then [] else [applications[n]])
  }

  /** The job's applications keep their store order: the store is an order-preserving
      merge of them and the others. */
  lemma {:induction false} JobApplicationsInOrder(applications: seq<Application>, jobId: JobId)
    ensures Interleaves(applications, JobApplications(applications, jobId), ApplicationsToOtherJobs(applications, jobId))
  {
    if applications != [] {
      var n := |applications| - 1;
      var last := applications[n];
      var found := JobApplications(applications[..n], jobId);
      var others := ApplicationsToOtherJobs(applications[..n], jobId);
      JobApplicationsInOrder(applications[..n], jobId);
      assert applications == applications[..n] + [last];
      if last.job == jobId {
        assert JobApplications(applications, jobId) == found + [last];
        assert ApplicationsToOtherJobs(applications, jobId) == others;
        InterleavesKeep(applications[..n], found, others, last);
      } else {
        assert JobApplications(applications, jobId) == found;
        assert ApplicationsToOtherJobs(applications, jobId) == others + [last];
        InterleavesDrop(applications[..n], found, others, last);
      }
    }
  }

  /** The sort key of the ranking query. */
  function MatchingScore(r: MatchRecord): int
  {
    r.matchingScore
  }

  /** The table and the operations the service performs on it. */
  class MatchStore {
    var jobs: map<JobId, Job>
    var resumes: map<CandidateId, Resume>
    var applications: seq<Application>
    var matches: MatchTable

    ghost predicate Valid()
      reads this
    {
      KeyedByPair(matches) && KeyedByCandidate(resumes)
    }

    /** A store holding the given jobs and applications, with no resume and no match yet. */
    constructor(jobs: map<JobId, Job>, applications: seq<Application>)
      ensures Valid()
      ensures this.jobs == jobs && this.applications == applications
      ensures resumes == map[] && matches == map[]
    {
      this.jobs := jobs;
      this.applications := applications;
      resumes := map[];
      matches := map[];
    }

    /** `createOrUpdateMatch`: the upsert on (jobId, candidateId); every field of the
        record is replaced, and the records under other pairs stay as they were. */
    method CreateOrUpdateMatch(
      jobId: JobId, candidateId: CandidateId, applicationId: Option<ApplicationId>,
      matchedSkills: seq<string>, missingSkills: seq<string>, matchingScore: int, now: Timestamp)
      returns (record: MatchRecord)
      requires Valid()
      modifies this
      ensures Valid()
      ensures record == MatchRecord(jobId, candidateId, applicationId, matchingScore, matchedSkills, missingSkills, now)
      ensures matches == old(matches)[(jobId, candidateId) := record]
      ensures jobs == old(jobs) && resumes == old(resumes) && applications == old(applications)
    {
      record := MatchRecord(jobId, candidateId, applicationId, matchingScore, matchedSkills, missingSkills, now);
      matches := matches[(jobId, candidateId) := record];
    }

    /** `calculateAndStoreMatch`: fails with "Job not found", writing nothing, when the job
        is missing; otherwise upserts the record computed from the candidate's resume. */
    method CalculateAndStoreMatch(
      jobId: JobId, candidateId: CandidateId, applicationId: Option<ApplicationId>, now: Timestamp)
      returns (r: Result<MatchRecord>)
      requires Valid()
      modifies this
      ensures Valid()
      ensures jobs == old(jobs) && resumes == old(resumes) && applications == old(applications)
      ensures jobId !in jobs ==> r == Err("Job not found") && matches == old(matches)
      ensures jobId in jobs ==>
        && r == Ok(MatchFor(jobs[jobId], jobId, ResumeOf(resumes, candidateId), candidateId, applicationId, now))
        && matches == old(matches)[(jobId, candidateId) := r.value]
    {
      if jobId !in jobs {
        return Err("Job not found");
      }
      var job := jobs[jobId];
      var record: MatchRecord;
      if candidateId !in resumes {
        record := CreateOrUpdateMatch(jobId, candidateId, applicationId, [], job.requiredSkills, 0, now);
      } else {
        var result := AiSkillMatcher.GenerateMatchScoreAI(resumes[candidateId].extractedSkills, job.requiredSkills);
        record := CreateOrUpdateMatch(
          jobId, candidateId, applicationId, result.matchedSkills, result.missingSkills, result.score, now);
      }
      r := Ok(record);
    }

    /** `recalculateMatchesForCandidate`: one upsert per application of the candidate, in
        store order, counting them; the first missing job stops the loop with its error. */
    method RecalculateMatchesForCandidate(candidateId: CandidateId, now: Timestamp) returns (r: Result<nat>)
      requires Valid()
      modifies this
      ensures Valid()
      ensures jobs == old(jobs) && resumes == old(resumes) && applications == old(applications)
      ensures var apps := CandidateApplications(applications, candidateId);
        && matches == StoreEach(old(matches), jobs, resumes, apps, now)
        && r == if AllJobsExist(apps, jobs) then Ok(|apps|) else Err("Job not found")
    {
      var apps := CandidateApplications(applications, candidateId);
      var recalculatedCount := 0;
      for i := 0 to |apps|
        invariant Valid()
        invariant jobs == old(jobs) && resumes == old(resumes) && applications == old(applications)
        invariant StoreEach(matches, jobs, resumes, apps[i..], now) == StoreEach(old(matches), jobs, resumes, apps, now)
        invariant forall j :: 0 <= j < i ==> apps[j].job in jobs
        invariant recalculatedCount == i
      {
        var app := apps[i];
        assert app in apps;
        assert apps[i..][1..] == apps[i + 1..];
        var stored := CalculateAndStoreMatch(app.job, candidateId, Some(app.id), now);
        if stored.Err? {
          assert !AllJobsExist(apps, jobs);
          return Err(stored.message);
        }
        recalculatedCount := recalculatedCount + 1;
      }
      assert AllJobsExist(apps, jobs) by {
        forall a | a in apps ensures a.job in jobs {
          var j :| 0 <= j < |apps| && apps[j] == a;
        }
      }
      r := Ok(recalculatedCount);
    }

    /** `recalculateMatchesForJob`: one upsert per application to the job, in store order,
        counting them; a missing job stops the loop with its error. */
    method RecalculateMatchesForJob(jobId: JobId, now: Timestamp) returns (r: Result<nat>)
      requires Valid()
      modifies this
      ensures Valid()
      ensures jobs == old(jobs) && resumes == old(resumes) && applications == old(applications)
      ensures var apps := JobApplications(applications, jobId);
        && matches == StoreEach(old(matches), jobs, resumes, apps, now)
        && r == if AllJobsExist(apps, jobs) then Ok(|apps|) else Err("Job not found")
    {
      var apps := JobApplications(applications, jobId);
      var recalculatedCount := 0;
      for i := 0 to |apps|
        invariant Valid()
        invariant jobs == old(jobs) && resumes == old(resumes) && applications == old(applications)
        invariant StoreEach(matches, jobs, resumes, apps[i..], now) == StoreEach(old(matches), jobs, resumes, apps, now)
        invariant forall j :: 0 <= j < i ==> apps[j].job in jobs
        invariant recalculatedCount == i
      {
        var app := apps[i];
        assert app in apps;
        assert apps[i..][1..] == apps[i + 1..];
        var stored := CalculateAndStoreMatch(jobId, app.candidate, Some(app.id), now);
        if stored.Err? {
          assert !AllJobsExist(apps, jobs);
          return Err(stored.message);
        }
        recalculatedCount := recalculatedCount + 1;
      }
      assert AllJobsExist(apps, jobs) by {
        forall a | a in apps ensures a.job in jobs {
          var j :| 0 <= j < |apps| && apps[j] == a;
        }
      }
      r := Ok(recalculatedCount);
    }

    /** `getRankedCandidatesForJob`: the job's match records, highest score first. */
    method GetRankedCandidatesForJob(jobId: JobId) returns (ranked: seq<MatchRecord>)
      requires Valid()
      ensures forall key :: key in matches && key.0 == jobId ==> matches[key] in ranked
      ensures forall m :: m in ranked ==>
        m.jobId == jobId && (m.jobId, m.candidateId) in matches && matches[(m.jobId, m.candidateId)] == m
      ensures |ranked| == |set key | key in matches && key.0 == jobId|
      ensures Ranking.SortedDescending(ranked, MatchingScore)
    {
      var keys := set key | key in matches && key.0 == jobId;
      var remaining := keys;
      var found: seq<MatchRecord> := [];
      while remaining != {}
        invariant remaining <= keys
        invariant |found| + |remaining| == |keys|
        invariant forall key :: key in keys && key !in remaining ==> matches[key] in found
        invariant forall m :: m in found ==>
          m.jobId == jobId && (m.jobId, m.candidateId) in matches && matches[(m.jobId, m.candidateId)] == m
        decreases remaining
      {
        var key :| key in remaining;
        found := found + [matches[key]];
        remaining := remaining - {key};
      }
      var a := new MatchRecord[|found|](i requires 0 <= i < |found| => found[i]);
      assert a[..] == found;
      Ranking.SortDescending(a, MatchingScore);
      ranked := a[..];
      assert forall m :: m in ranked <==> m in multiset(found);
    }

    /** `processResumeUpload`: extracts the skills of the text, replaces the candidate's
        single resume, then recalculates every match of the candidate; the new resume is
        returned unless the recalculation fails. */
    method ProcessResumeUpload(candidateId: CandidateId, resumeFileUrl: string, extractedText: string, now: Timestamp)
      returns (r: Result<Resume>)
      requires Valid()
      modifies this
      ensures Valid()
      ensures jobs == old(jobs) && applications == old(applications)
      ensures resumes == old(resumes)[candidateId :=
        Resume(candidateId, resumeFileUrl, extractedText, AiSkillMatcher.ExtractSpec(extractedText), now)]
      ensures var apps := CandidateApplications(applications, candidateId);
        && matches == StoreEach(old(matches), jobs, resumes, apps, now)
        && r == if AllJobsExist(apps, jobs) then Ok(resumes[candidateId]) else Err("Job not found")
    {
      var extractedSkills := AiSkillMatcher.ExtractSkillsAI(extractedText);
      var resume := Resume(candidateId, resumeFileUrl, extractedText, extractedSkills, now);
      resumes := resumes[candidateId := resume];
      var recalculated := RecalculateMatchesForCandidate(candidateId, now);
      if recalculated.Err? {
        return Err(recalculated.message);
      }
      r := Ok(resume);
    }
  }
}
