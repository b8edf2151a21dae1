/**
 * painel.py, `fetch_and_transform_jobs`: the outcome of the search request
 * and the projection of every raw job into the fixed record the job card
 * shows, including the salary line and the remote flag.
 */
module JobTransform {
  import opened Text
  import opened PyValues

  /** The salary text when no salary field applies. */
  const NotAvailable := "Não disponível"

  /** The salary line before any unit: `~ avg`, `from - to`, `A partir de from`, or NotAvailable. */
  function SalaryBase(job: Job): string {
    var avg, from, to := Get(job, "salary_avg"), Get(job, "salary_from"), Get(job, "salary_to");
    if Truthy(avg) then "~ " + PyStr(avg)
    else if Truthy(from) && Truthy(to) then PyStr(from) + " - " + PyStr(to)
    else if Truthy(from) then "A partir de " + PyStr(from)
    else NotAvailable
  }

  /** The salary line with ` (unit)` added when a unit is known and some salary applied. */
  function SalaryText(job: Job): string {
    var base, unit := SalaryBase(job), Get(job, "salary_unit");
    if Truthy(unit) && base != NotAvailable then base + " (" + PyStr(unit) + ")" else base
  }

  /** Every branch of the cascade yields a text different from NotAvailable. */
  lemma SalaryBaseAvailable(job: Job)
    ensures SalaryBase(job) != NotAvailable <==>
              Truthy(Get(job, "salary_avg")) || Truthy(Get(job, "salary_from"))
  {
    var base := SalaryBase(job);
    var avg, from, to := Get(job, "salary_avg"), Get(job, "salary_from"), Get(job, "salary_to");
    if Truthy(avg) {
      assert base[0] == '~' != NotAvailable[0];
    } else if Truthy(from) && Truthy(to) {
      var k := |PyStr(from)|;
      assert base[k + 1] == '-';
      assert forall i | 0 <= i < |NotAvailable| :: NotAvailable[i] != '-';
    } else if Truthy(from) {
      assert base[0] == 'A' != NotAvailable[0];
    }
  }

  /** The average decides the text alone: replacing both bounds changes nothing. */
  lemma AverageIgnoresBounds(job: Job, from: Value, to: Value)
    requires Truthy(Get(job, "salary_avg"))
    ensures SalaryText(job["salary_from" := from]["salary_to" := to]) == SalaryText(job)
  {
    var job' := job["salary_from" := from]["salary_to" := to];
    assert Get(job', "salary_avg") == Get(job, "salary_avg");
    assert Get(job', "salary_unit") == Get(job, "salary_unit");
  }

  /**
   * The unit suffix is appended exactly once, and exactly when the unit is
   * truthy and some salary branch applied.
   */
  lemma SalaryUnitSuffix(job: Job)
    ensures var unit := Get(job, "salary_unit");
      SalaryText(job) == SalaryBase(job) +
        (if Truthy(unit) && (Truthy(Get(job, "salary_avg")) || Truthy(Get(job, "salary_from")))
         then " (" + PyStr(unit) + ")" else "")
  {
    SalaryBaseAvailable(job);
  }

  /** The salary line reads NotAvailable exactly when neither the average nor the lower bound is truthy. */
  lemma SalaryNotAvailableIff(job: Job)
    ensures SalaryText(job) == NotAvailable <==>
              !Truthy(Get(job, "salary_avg")) && !Truthy(Get(job, "salary_from"))
  {
    SalaryBaseAvailable(job);
    var base, unit := SalaryBase(job), Get(job, "salary_unit");
    if base != NotAvailable && Truthy(unit) {
      assert SalaryText(job)[|base| + 1] == '(';
      assert forall i | 0 <= i < |NotAvailable| :: NotAvailable[i] != '(';
    }
  }

  /** The fixed record the job card is drawn from; every key is present. */
  datatype DisplayJob = DisplayJob(
    title: Value,
    company: Value,
    location: Value,
    isRemote: Value,
    datePosted: Value,
    description: Value,
    jobType: Value,
    salary: string,
    jobUrl: Value)

  /**
   * One raw job as the card needs it. Absent keys take the source's
   * defaults; `is_remote` is Python's `job.get('is_remote', False) or
   * (job.get('work_from_home_type') == 'Remoto')`, which yields the first
   * operand when it is truthy and the comparison otherwise.
   */
  function Project(job: Job): (d: DisplayJob)
    ensures Truthy(d.isRemote) <==>
              Truthy(Get(job, "is_remote")) || Get(job, "work_from_home_type") == Str("Remoto")
    ensures d.salary == SalaryText(job)
  {
    var remote := GetOr(job, "is_remote", Bool(false));
    DisplayJob(
      GetOr(job, "title", Str("N/A")),
      GetOr(job, "company", Str("N/A")),
      GetOr(job, "location", Str("N/A")),
      if Truthy(remote) then remote else Bool(Get(job, "work_from_home_type") == Str("Remoto")),
      GetOr(job, "date_posted", Str("N/A")),
      GetOr(job, "description", Str("Descrição não disponível.")),
      GetOr(job, "job_type", Str("N/A")),
      SalaryText(job),
      Get(job, "job_url"))
  }

  /**
   * A key the job holds is copied unchanged, whatever its value (None
   * included); an absent key takes the source's placeholder. A truthy
   * `is_remote` is kept as sent; otherwise the flag is the boolean test
   * on `work_from_home_type`.
   */
  lemma ProjectDefaults(job: Job)
    ensures var d := Project(job);
      && d.title == (if "title" in job then job["title"] else Str("N/A"))
      && d.company == (if "company" in job then job["company"] else Str("N/A"))
      && d.location == (if "location" in job then job["location"] else Str("N/A"))
      && d.datePosted == (if "date_posted" in job then job["date_posted"] else Str("N/A"))
      && d.description == (if "description" in job then job["description"] else Str("Descrição não disponível."))
      && d.jobType == (if "job_type" in job then job["job_type"] else Str("N/A"))
      && d.jobUrl == (if "job_url" in job then job["job_url"] else Null)
      && d.isRemote == (if Truthy(Get(job, "is_remote")) then job["is_remote"]
                        else Bool(Get(job, "work_from_home_type") == Str("Remoto")))
  {
  }

  /** A job with no keys at all projects to the record of placeholders. */
  lemma ProjectEmpty()
    ensures Project(map[]) == DisplayJob(Str("N/A"), Str("N/A"), Str("N/A"), Bool(false), Str("N/A"),
                                         Str("Descrição não disponível."), Str("N/A"), NotAvailable, Null)
  {
    assert SalaryBase(map[]) == NotAvailable;
  }

  /**
   * The `jobs` value of a successful response, as the transforming loop
   * meets it: a list of objects (an empty string or object, which the loop
   * iterates zero times, is the empty list), or a value that makes the loop
   * raise, with the exception's text.
   */
  datatype JobsField =
    | JobList(jobs: seq<Job>)
    | NotAJobList(reason: string)   // None, a number, a non-empty string or object, a non-object element

  datatype ApiBody =
    | Falsy                  // `not api_response_data`
    | WithoutJobs            // truthy, but no `jobs` key
    | WithJobs(field: JobsField)

  /** The outcome of `requests.post(...)`, `raise_for_status()` and `response.json()`. */
  datatype Transport =
    | Delivered(body: ApiBody)
    | HttpFailed(status: int, detail: string)   // HTTPError; detail from the JSON body or the raw text
    | RequestFailed(reason: string)             // any other RequestException (connection, timeout, ...)

  /** The body holds a list of objects under `jobs`. */
  predicate HoldsJobList(t: Transport) {
    t.Delivered? && t.body.WithJobs? && t.body.field.JobList?
  }

  /** The value `fetch_and_transform_jobs` returns: `{"error": message}` or the transformed list. */
  datatype FetchResult = Failed(message: string) | Fetched(jobs: seq<DisplayJob>)

  const InvalidResponse := "Resposta da API inválida ou não contém a chave 'jobs'."

  function FailureMessage(t: Transport): string {
    match t
    case Delivered(body) =>
      (match body
       case WithJobs(NotAJobList(reason)) => "Ocorreu um erro inesperado: " + reason
       case _ => InvalidResponse)
    case HttpFailed(status, detail) => "Erro HTTP " + IntToString(status) + " da API: " + detail
    case RequestFailed(reason) => "Erro de Conexão com a API: " + reason
  }

  /** Every job projected, in order. */
  function ProjectAll(jobs: seq<Job>): seq<DisplayJob> {
    seq(|jobs|, i requires 0 <= i < |jobs| => Project(jobs[i]))
  }

  /** The loop that builds `transformed_jobs`: one record per job, in source order. */
  method TransformJobs(jobs: seq<Job>) returns (out: seq<DisplayJob>)
    ensures |out| == |jobs|
    ensures forall i | 0 <= i < |jobs| :: out[i] == Project(jobs[i])
    ensures out == ProjectAll(jobs)
  {
    out := [];
    var k := 0;
    while k < |jobs|
      invariant 0 <= k <= |jobs|
      invariant |out| == k
      invariant forall i | 0 <= i < k :: out[i] == Project(jobs[i])
    {
      out := out + [Project(jobs[k])];
      k := k + 1;
    }
  }

  /**
   * `fetch_and_transform_jobs` after the request: a list exactly when the
   * body holds a list under `jobs`, otherwise an error dictionary whose
   * message is never empty (so the caller always sees it as an error).
   */
  method FetchAndTransform(t: Transport) returns (r: FetchResult)
    ensures r.Fetched? <==> HoldsJobList(t)
    ensures r.Fetched? ==> |r.jobs| == |t.body.field.jobs|
    ensures r.Fetched? ==> forall i | 0 <= i < |r.jobs| :: r.jobs[i] == Project(t.body.field.jobs[i])
    ensures r.Fetched? ==> r.jobs == ProjectAll(t.body.field.jobs)
    ensures r.Failed? ==> r.message == FailureMessage(t) && r.message != ""
  {
    match t
    case Delivered(WithJobs(JobList(jobs))) =>
      var out := TransformJobs(jobs);
      r := Fetched(out);
    case _ =>
      r := Failed(FailureMessage(t));
  }
}
