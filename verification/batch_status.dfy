/** `BatchStatusController`: the in-memory registry of batch jobs, keyed by
    job id, with the four operations that create and advance a job and the
    status view the endpoint renders. */
module BatchStatus {
  import opened Wrappers

  /** `JobStatus`: status word, progress, message and error, the last two
      possibly null. */
  datatype JobStatus = JobStatus(status: string, progress: int, message: Option<string>, error: Option<string>)

  type Jobs = map<string, JobStatus>

  const Running := "running"
  const Completed := "completed"
  const Failed := "error"
  const StartMessage := "Démarrage de la génération..."

  /** The status every new job starts with. */
  const InitialStatus := JobStatus(Running, 0, Some(StartMessage), None)

  /** `createNewJob`: the job `id` (a fresh UUID, given here) is registered as
      running, at progress 0, with the start message and no error. */
  function CreateNewJob(jobs: Jobs, id: string): (r: Jobs)
    ensures id in r && r[id] == JobStatus(Running, 0, Some(StartMessage), None)
    ensures r.Keys == jobs.Keys + {id}
    ensures forall k :: k in jobs && k != id ==> r[k] == jobs[k]
  {
    jobs[id := InitialStatus]
  }

  /** `updateJobProgress`: only progress and message change, and only for a
      known job. */
  function UpdateJobProgress(jobs: Jobs, id: string, progress: int, message: Option<string>): (r: Jobs)
    ensures r.Keys == jobs.Keys
    ensures forall k :: k in jobs && k != id ==> r[k] == jobs[k]
    ensures id in jobs ==> r[id] == jobs[id].(progress := progress, message := message)
    ensures id !in jobs ==> r == jobs
  {
    if id in jobs then jobs[id := jobs[id].(progress := progress, message := message)] else jobs
  }

  /** `completeJob`: status "completed", progress 100 and the message; the
      error is left as it was. */
  function CompleteJob(jobs: Jobs, id: string, message: Option<string>): (r: Jobs)
    ensures r.Keys == jobs.Keys
    ensures forall k :: k in jobs && k != id ==> r[k] == jobs[k]
    ensures id in jobs ==> r[id] == JobStatus(Completed, 100, message, jobs[id].error)
    ensures id !in jobs ==> r == jobs
  {
    if id in jobs then jobs[id := jobs[id].(status := Completed, progress := 100, message := message)] else jobs
  }

  /** `failJob`: status "error" and the error; progress and message are left
      as they were. */
  function FailJob(jobs: Jobs, id: string, error: Option<string>): (r: Jobs)
    ensures r.Keys == jobs.Keys
    ensures forall k :: k in jobs && k != id ==> r[k] == jobs[k]
    ensures id in jobs ==> r[id] == JobStatus(Failed, jobs[id].progress, jobs[id].message, error)
    ensures id !in jobs ==> r == jobs
  {
    if id in jobs then jobs[id := jobs[id].(status := Failed, error := error)] else jobs
  }

  /** What `getJobStatus` puts in its JSON body. */
  datatype StatusView = StatusView(jobId: string, status: string, progress: int, message: string, error: string)

  /** `getJobStatus`: not found (`None`) for an unknown id; otherwise the
      view with a null error shown as "". `Map.of` refuses null values, so a
      job whose message is null makes the endpoint throw. */
  function GetJobStatus(jobs: Jobs, id: string): (r: Result<Option<StatusView>>)
    ensures id !in jobs ==> r == Ok(None)
    ensures id in jobs && jobs[id].message.None? ==> r.Err? && r.error.kind == NullPointer
    ensures r.Ok? && r.value.Some? ==>
              && id in jobs && jobs[id].message.Some?
              && r.value.value == StatusView(id, jobs[id].status, jobs[id].progress,
                                             jobs[id].message.value, jobs[id].error.GetOr(""))
  {
    if id !in jobs then Ok(None)
    else
      var s := jobs[id];
      match s.message
      case None => Err(Thrown(NullPointer, None))
      case Some(m) => Ok(Some(StatusView(id, s.status, s.progress, m, s.error.GetOr(""))))
  }

  /** One call on the registry. */
  datatype JobOp =
    | Create(id: string)
    | Update(id: string, progress: int, message: Option<string>)
    | Complete(id: string, message: Option<string>)
    | Fail(id: string, error: Option<string>)

  function Apply(jobs: Jobs, op: JobOp): Jobs {
    match op
    case Create(id) => CreateNewJob(jobs, id)
    case Update(id, p, m) => UpdateJobProgress(jobs, id, p, m)
    case Complete(id, m) => CompleteJob(jobs, id, m)
    case Fail(id, e) => FailJob(jobs, id, e)
  }

  /** The calls in order. */
  function ApplyAll(jobs: Jobs, ops: seq<JobOp>): Jobs
    decreases |ops|
  {
    if ops == [] then jobs else ApplyAll(Apply(jobs, ops[0]), ops[1..])
  }

  /** Every registered job has one of the three status words. */
  predicate KnownStatuses(jobs: Jobs) {
    forall k :: k in jobs ==> jobs[k].status in {Running, Completed, Failed}
  }

  /** No sequence of calls removes a job, and every job keeps one of the three
      status words; a job nobody created stays unknown. */
  lemma {:induction false} RegistryInvariant(jobs: Jobs, ops: seq<JobOp>)
    requires KnownStatuses(jobs)
    ensures jobs.Keys <= ApplyAll(jobs, ops).Keys
    ensures KnownStatuses(ApplyAll(jobs, ops))
    ensures forall k :: k !in jobs && (forall i :: 0 <= i < |ops| ==> ops[i] != Create(k)) ==>
              k !in ApplyAll(jobs, ops)
    decreases |ops|
  {
    if ops != [] {
      var next := Apply(jobs, ops[0]);
      RegistryInvariant(next, ops[1..]);
      forall k | k !in jobs && (forall i :: 0 <= i < |ops| ==> ops[i] != Create(k))
        ensures k !in ApplyAll(jobs, ops)
      {
        assert ops[0] != Create(k);
        assert forall i :: 0 <= i < |ops[1..]| ==> ops[1..][i] == ops[i + 1];
      }
    }
  }

  /** Completing a failed job reports it completed at 100 while still showing
      the earlier error. */
  lemma CompleteAfterFail(jobs: Jobs, id: string, error: string, message: string)
    requires id in jobs
    ensures var after := CompleteJob(FailJob(jobs, id, Some(error)), id, Some(message));
      GetJobStatus(after, id) == Ok(Some(StatusView(id, Completed, 100, message, error)))
  {
  }
}
