/**
 * vagas.py, `buscar_e_exibir_vagas` after the request: the lines printed
 * for a search reply, job by job and, inside a job, field by field in the
 * order of the translation table. Printing is modelled as the sequence of
 * texts handed to `print`, one entry per call; a run that ends in an
 * exception keeps the lines printed before it.
 */
module ConsoleReport {
  import opened Results
  import opened Text
  import opened PyValues
  import opened FieldFormat

  /** `JOB_FIELD_TRANSLATIONS`: the keys visited, in order, with their Portuguese labels. */
  const Translations: seq<(string, string)> := [
    ("id", "ID da Vaga"),
    ("site", "Plataforma"),
    ("job_url", "Link da Vaga"),
    ("job_url_direct", "Link Direto da Candidatura"),
    ("title", "Título da Vaga"),
    ("company", "Empresa"),
    ("location", "Localização"),
    ("date_posted", "Data de Publicação"),
    ("job_type", "Tipo de Contrato"),
    ("salary_from", "Salário Mínimo"),
    ("salary_to", "Salário Máximo"),
    ("salary_unit", "Unidade Salarial"),
    ("salary_avg", "Salário Médio Estimado"),
    ("salary_hourly", "Salário por Hora"),
    ("salary_yearly", "Salário Anual"),
    ("description", "Descrição da Vaga"),
    ("company_website", "Website da Empresa"),
    ("company_description", "Sobre a Empresa"),
    ("company_num_employees", "Número de Funcionários"),
    ("company_revenue", "Faturamento da Empresa"),
    ("skills", "Habilidades Necessárias"),
    ("experience_range", "Nível de Experiência"),
    ("work_from_home_type", "Modalidade"),
    ("company_rating", "Avaliação da Empresa"),
    ("company_reviews_count", "Número de Avaliações"),
    ("vacancy_count", "Vagas Abertas na Empresa")
  ]

  /** Keys whose line is printed even when their value is not available. */
  const AlwaysPrinted: set<string> := {"title", "company", "location", "job_url", "date_posted"}

  /** What a run printed, and the exception that ended it, if any. */
  datatype Printout = Printout(lines: seq<string>, failure: Option<Failure>)

  /** `lines` printed, then whatever `rest` printed and how it ended. */
  function Then(lines: seq<string>, rest: Printout): Printout {
    Printout(lines + rest.lines, rest.failure)
  }

  /** Printing `a` and then `b` before `rest` is printing `a + b` before it. */
  lemma ThenThen(a: seq<string>, b: seq<string>, rest: Printout)
    ensures Then(a, Then(b, rest)) == Then(a + b, rest)
  {
    assert a + (b + rest.lines) == a + b + rest.lines;
  }

  /** The line of one field. */
  function FieldLine(heading: string, shown: Value): string {
    "  > " + heading + ": " + PyStr(shown)
  }

  /** The print filter: unavailable fields are skipped unless the key is always printed. */
  predicate Printed(key: string, shown: Value) {
    shown != Str(NotAvailable) || key in AlwaysPrinted
  }

  /** The lines one table entry contributes, or the exception its formatting raises. */
  function FieldStep(job: Job, entry: (string, string)): Result<seq<string>, Failure> {
    match FieldDisplay(entry.0, Get(job, entry.0), job)
    case Err(e) => Err(e)
    case Ok(shown) => Ok(if Printed(entry.0, shown) then [FieldLine(entry.1, shown)] else [])
  }

  /** The field lines of a job for the entries of `table`, in order. */
  function FieldLines(job: Job, table: seq<(string, string)>): Printout {
    if table == [] then Printout([], None)
    else
      match FieldStep(job, table[0])
      case Err(e) => Printout([], Some(e))
      case Ok(lines) => Then(lines, FieldLines(job, table[1..]))
  }

  /** The field lines from entry `i` on: that entry's step, then the rest. */
  lemma FieldLinesAt(job: Job, table: seq<(string, string)>, i: int)
    requires 0 <= i < |table|
    ensures FieldStep(job, table[i]).Err? ==> FieldLines(job, table[i..]) == Printout([], Some(FieldStep(job, table[i]).error))
    ensures FieldStep(job, table[i]).Ok? ==>
              FieldLines(job, table[i..]) == Then(FieldStep(job, table[i]).value, FieldLines(job, table[i + 1..]))
  {
    assert table[i..][0] == table[i];
    assert table[i..][1..] == table[i + 1..];
  }

  /**
   * The inner loop: one line per printed field of `job`, in the order of
   * `table` (the source walks `Translations`).
   */
  method PrintFields(job: Job, table: seq<(string, string)>) returns (out: Printout)
    ensures out == FieldLines(job, table)
  {
    var lines: seq<string> := [];
    var i := 0;
    while i < |table|
      invariant 0 <= i <= |table|
      invariant Then(lines, FieldLines(job, table[i..])) == FieldLines(job, table)
    {
      var step := FieldStep(job, table[i]);
      FieldLinesAt(job, table, i);
      if step.Err? {
        return Printout(lines, Some(step.error));
      }
      ThenThen(lines, step.value, FieldLines(job, table[i + 1..]));
      lines := lines + step.value;
      i := i + 1;
    }
    return Printout(lines, None);
  }

  /**
   * The table has 26 entries and covers every always-printed key, so
   * each of those keys has its line in every job that prints completely.
   */
  lemma TranslationsTable()
    ensures |Translations| == 26
    ensures forall k | k in AlwaysPrinted :: exists i | 0 <= i < |Translations| :: Translations[i].0 == k
  {
    assert Translations[4].0 == "title" && Translations[5].0 == "company" && Translations[6].0 == "location";
    assert Translations[2].0 == "job_url" && Translations[7].0 == "date_posted";
  }

  /** Every field line is an indented `heading: value` line, at most one per table entry. */
  lemma {:induction false} FieldLinesShape(job: Job, table: seq<(string, string)>)
    ensures |FieldLines(job, table).lines| <= |table|
    ensures forall l | l in FieldLines(job, table).lines :: StartsWith(l, "  > ")
  {
    if table != [] && FieldStep(job, table[0]).Ok? {
      FieldLinesShape(job, table[1..]);
      var step := FieldStep(job, table[0]).value;
      forall l | l in step ensures StartsWith(l, "  > ") {
        assert l == FieldLine(table[0].1, FieldDisplay(table[0].0, Get(job, table[0].0), job).value);
      }
    }
  }

  /** Every step's lines, in order. */
  function Flatten(steps: seq<seq<string>>): seq<string> {
    if steps == [] then [] else steps[0] + Flatten(steps[1..])
  }

  /** Each index one more: positions in `steps[1..]` as positions in `steps`. */
  function Shift(sel: seq<int>): seq<int> {
    seq(|sel|, k requires 0 <= k < |sel| => sel[k] + 1)
  }

  /** Indices in strictly increasing order. */
  predicate Increasing(sel: seq<int>) {
    forall k, l | 0 <= k < l < |sel| :: sel[k] < sel[l]
  }

  /** The `k`-th index of `sel` names a step that contributes exactly `flat[k]`. */
  predicate Picks(steps: seq<seq<string>>, flat: seq<string>, sel: seq<int>) {
    && |sel| == |flat|
    && forall k | 0 <= k < |sel| :: 0 <= sel[k] < |steps| && steps[sel[k]] == [flat[k]]
  }

  /** Every step that contributes a line is named in `sel`. */
  predicate Covers(steps: seq<seq<string>>, sel: seq<int>) {
    forall i | 0 <= i < |steps| && steps[i] != [] :: i in sel
  }

  /**
   * `sel` picks, in increasing order, exactly the steps that contribute a
   * line, and the `k`-th picked step contributes `flat[k]`.
   */
  predicate Selects(steps: seq<seq<string>>, flat: seq<string>, sel: seq<int>) {
    Increasing(sel) && Picks(steps, flat, sel) && Covers(steps, sel)
  }

  /** The selection in front of which a first step is placed. */
  function Lead(first: seq<string>, sel: seq<int>): seq<int> {
    (if first == [] then [] else [0]) + Shift(sel)
  }

  /** Putting index 0 (or nothing) before the shifted indices keeps them increasing. */
  lemma IncreasingCons(first: seq<string>, sel: seq<int>)
    requires Increasing(sel) && forall k | 0 <= k < |sel| :: sel[k] >= 0
    ensures Increasing(Lead(first, sel))
  {
    var picked, n := Lead(first, sel), if first == [] then 0 else 1;
    forall k, l | 0 <= k < l < |picked| ensures picked[k] < picked[l] {
      assert picked[l] == sel[l - n] + 1;
      if k >= n {
        assert picked[k] == sel[k - n] + 1;
      }
    }
  }

  /** The shifted indices name the same steps in the longer list, and a first line is named by 0. */
  lemma PicksCons(first: seq<string>, rest: seq<seq<string>>, flat: seq<string>, sel: seq<int>)
    requires |first| <= 1 && Picks(rest, flat, sel)
    ensures Picks([first] + rest, first + flat, Lead(first, sel))
  {
    var whole, all, picked := [first] + rest, first + flat, Lead(first, sel);
    var n := if first == [] then 0 else 1;
    forall k | 0 <= k < |picked| ensures 0 <= picked[k] < |whole| && whole[picked[k]] == [all[k]] {
      if k >= n {
        assert picked[k] == sel[k - n] + 1;
        assert all[k] == flat[k - n];
        assert whole[picked[k]] == rest[sel[k - n]];
      } else {
        assert first == [all[0]];
      }
    }
  }

  /** Every contributing step of the longer list is still named. */
  lemma CoversCons(first: seq<string>, rest: seq<seq<string>>, sel: seq<int>)
    requires Covers(rest, sel)
    ensures Covers([first] + rest, Lead(first, sel))
  {
    var whole, picked := [first] + rest, Lead(first, sel);
    var n := if first == [] then 0 else 1;
    forall i | 0 <= i < |whole| && whole[i] != [] ensures i in picked {
      if i == 0 {
        assert picked[0] == 0;
      } else {
        assert whole[i] == rest[i - 1];
        var k :| 0 <= k < |sel| && sel[k] == i - 1;
        assert picked[n + k] == i;
      }
    }
  }

  /** A step of at most one line in front of selected steps: take it when it has a line, then the shifted selection. */
  lemma SelectsCons(first: seq<string>, rest: seq<seq<string>>, flat: seq<string>, sel: seq<int>)
    requires |first| <= 1 && Selects(rest, flat, sel)
    ensures Selects([first] + rest, first + flat, Lead(first, sel))
  {
    IncreasingCons(first, sel);
    PicksCons(first, rest, flat, sel);
    CoversCons(first, rest, sel);
  }

  /** Steps of at most one line each flatten to the lines of the contributing steps, in order. */
  lemma {:induction false} FlattenSelects(steps: seq<seq<string>>)
    requires forall i | 0 <= i < |steps| :: |steps[i]| <= 1
    ensures exists sel :: Selects(steps, Flatten(steps), sel)
  {
    if steps == [] {
      assert Selects(steps, Flatten(steps), []);
    } else {
      var rest := steps[1..];
      FlattenSelects(rest);
      var sel :| Selects(rest, Flatten(rest), sel);
      SelectsCons(steps[0], rest, Flatten(rest), sel);
      assert [steps[0]] + rest == steps;
      assert Selects(steps, Flatten(steps), Lead(steps[0], sel));
    }
  }

  /** How the entry of a table formats for `job`: its display value, or the exception. */
  function Shown(job: Job, entry: (string, string)): Result<Value, Failure> {
    FieldDisplay(entry.0, Get(job, entry.0), job)
  }

  /** The lines each entry contributes; an entry that raises contributes none. */
  function Steps(job: Job, table: seq<(string, string)>): seq<seq<string>> {
    seq(|table|, i requires 0 <= i < |table| =>
      if FieldStep(job, table[i]).Ok? then FieldStep(job, table[i]).value else [])
  }

  /** A job that prints completely prints its entries' lines one after the other. */
  lemma {:induction false} FieldLinesFlatten(job: Job, table: seq<(string, string)>)
    requires FieldLines(job, table).failure == None
    ensures forall i | 0 <= i < |table| :: FieldStep(job, table[i]).Ok?
    ensures FieldLines(job, table).lines == Flatten(Steps(job, table))
  {
    if table != [] {
      assert FieldStep(job, table[0]).Ok?;
      FieldLinesFlatten(job, table[1..]);
      assert Steps(job, table) == [FieldStep(job, table[0]).value] + Steps(job, table[1..]);
      forall i | 0 < i < |table| ensures FieldStep(job, table[i]).Ok? {
        assert table[i] == table[1..][i - 1];
      }
    }
  }

  /**
   * The printed field lines, entry by entry: `sel` lists, in increasing
   * order, exactly the entries whose field is printed, and the `k`-th line
   * is `  > label: value` for the `k`-th of them.
   */
  predicate PrintedInOrder(job: Job, table: seq<(string, string)>, lines: seq<string>, sel: seq<int>) {
    && |sel| == |lines|
    && (forall k, l | 0 <= k < l < |sel| :: sel[k] < sel[l])
    && (forall k | 0 <= k < |sel| ::
          && 0 <= sel[k] < |table| && Shown(job, table[sel[k]]).Ok?
          && Printed(table[sel[k]].0, Shown(job, table[sel[k]]).value)
          && lines[k] == FieldLine(table[sel[k]].1, Shown(job, table[sel[k]]).value))
    && (forall i | 0 <= i < |table| && Shown(job, table[i]).Ok? && Printed(table[i].0, Shown(job, table[i]).value) ::
          i in sel)
  }

  /**
   * When no field raises, the field lines are exactly the lines of the
   * printed entries, in table order, each with that entry's label and
   * display value.
   */
  lemma FieldLinesOrder(job: Job, table: seq<(string, string)>)
    requires FieldLines(job, table).failure == None
    ensures forall i | 0 <= i < |table| :: Shown(job, table[i]).Ok?
    ensures exists sel :: PrintedInOrder(job, table, FieldLines(job, table).lines, sel)
  {
    FieldLinesFlatten(job, table);
    var steps := Steps(job, table);
    var lines := FieldLines(job, table).lines;
    FlattenSelects(steps);
    var sel :| Selects(steps, lines, sel);
    forall i | 0 <= i < |table|
      ensures Shown(job, table[i]).Ok?
      ensures steps[i] != [] <==> Printed(table[i].0, Shown(job, table[i]).value)
      ensures steps[i] != [] ==> steps[i] == [FieldLine(table[i].1, Shown(job, table[i]).value)]
    {
      assert FieldStep(job, table[i]).Ok?;
    }
    assert PrintedInOrder(job, table, lines, sel);
  }

  /**
   * When no field raises, every key of the table that is always printed
   * has its line, whatever its value.
   */
  lemma {:induction false} AlwaysPrintedAppear(job: Job, table: seq<(string, string)>)
    requires FieldLines(job, table).failure == None
    ensures forall i | 0 <= i < |table| ::
              && FieldDisplay(table[i].0, Get(job, table[i].0), job).Ok?
              && (table[i].0 in AlwaysPrinted ==>
                    FieldLine(table[i].1, FieldDisplay(table[i].0, Get(job, table[i].0), job).value)
                      in FieldLines(job, table).lines)
  {
    if table != [] {
      assert FieldStep(job, table[0]).Ok?;
      AlwaysPrintedAppear(job, table[1..]);
      forall i | 0 < i < |table| ensures table[i] == table[1..][i - 1] {
      }
    }
  }

  /**
   * A field is printed exactly when its key is always printed, or its value
   * is present and is not the placeholder under a key without `Link: `.
   */
  lemma PrintedIff(key: string, v: Value, job: Job)
    requires FieldDisplay(key, v, job).Ok?
    ensures Printed(key, FieldDisplay(key, v, job).value) <==>
              key in AlwaysPrinted || !(IsMissing(v) || (v == Str(NotAvailable) && key !in LinkKeys))
  {
    NotAvailableIff(key, v, job);
  }

  /** `"=" * 60`. */
  const Rule := "============================================================"

  /** The separator printed after each job. */
  const Separator := "\n" + Rule + "\n"

  /** The header of the `number`-th job; an absent title or company reads as unknown. */
  function JobHeader(number: int, job: Job): string {
    "\n--- Vaga #" + IntToString(number) + ": "
      + PyStr(GetOr(job, "title", Str("Título Desconhecido"))) + " na "
      + PyStr(GetOr(job, "company", Str("Empresa Desconhecida"))) + " ---"
  }

  /**
   * The outer loop from the job numbered `number` on: header, field lines
   * for the entries of `table`, separator (the source uses `Translations`).
   */
  function JobsLines(jobs: seq<Job>, table: seq<(string, string)>, number: int): Printout
    decreases |jobs|
  {
    if jobs == [] then Printout([], None)
    else
      var fields := FieldLines(jobs[0], table);
      if fields.failure.Some? then Then([JobHeader(number, jobs[0])], fields)
      else Then([JobHeader(number, jobs[0])] + fields.lines + [Separator], JobsLines(jobs[1..], table, number + 1))
  }

  /**
   * The decoded reply of the search endpoint. `Unavailable` is a failed
   * request or an empty object (both falsy); otherwise `count` is the
   * reply's count (`Int(0)` when absent) and `jobs` its job list, None
   * when the key is absent.
   */
  datatype Reply = Unavailable | Received(count: Value, jobs: Option<seq<Job>>)

  const Intro := "\nConfira os detalhes de cada vaga:"
  const NothingFound := "Puxa! :( " + "Não encontramos nenhuma vaga com os critérios que você nos deu. Que tal tentar outros termos?"
  const TryLater := "\n" + "Parece que não foi possível buscar as vagas no momento. Por favor, tente novamente mais tarde."

  /** The announcement of the count, printed before anything else. */
  function GoodNews(count: Value): string {
    "\n--- Boas notícias! Encontramos " + PyStr(count) + " oportunidades incríveis para você! ---"
  }

  /** Python's `count > 0`; comparing None or a string with 0 raises. */
  function CountPositive(count: Value): Result<bool, Failure> {
    match count
    case Bool(b) => Ok(b)
    case Int(n) => Ok(n > 0)
    case Float(x, _) => Ok(x > 0.0)
    case _ => Err(CountNotNumber)
  }

  /** Everything the report prints for a reply. */
  function ReportLines(reply: Reply): Printout {
    match reply
    case Unavailable => Printout([TryLater], None)
    case Received(count, jobs) =>
      match CountPositive(count)
      case Err(e) => Printout([GoodNews(count)], Some(e))
      case Ok(positive) =>
        if !positive then Printout([GoodNews(count), NothingFound], None)
        else if jobs.None? then Printout([GoodNews(count), Intro], Some(NoJobsKey))
        else Then([GoodNews(count), Intro], JobsLines(jobs.value, Translations, 1))
  }

  /** The listing from the `i`-th job on: that job's block, then the rest. */
  lemma JobsLinesAt(jobs: seq<Job>, table: seq<(string, string)>, i: int)
    requires 0 <= i < |jobs|
    ensures var header, fields := JobHeader(i + 1, jobs[i]), FieldLines(jobs[i], table);
      JobsLines(jobs[i..], table, i + 1) ==
        if fields.failure.Some? then Then([header], fields)
        else Then([header] + fields.lines + [Separator], JobsLines(jobs[i + 1..], table, i + 2))
  {
    assert jobs[i..][0] == jobs[i];
    assert jobs[i..][1..] == jobs[i + 1..];
  }

  /** The outer loop: header, field lines and separator for each job, numbered from 1. */
  method PrintJobs(jobs: seq<Job>, table: seq<(string, string)>) returns (out: Printout)
    ensures out == JobsLines(jobs, table, 1)
  {
    var lines: seq<string> := [];
    var i := 0;
    while i < |jobs|
      invariant 0 <= i <= |jobs|
      invariant Then(lines, JobsLines(jobs[i..], table, i + 1)) == JobsLines(jobs, table, 1)
    {
      var header := JobHeader(i + 1, jobs[i]);
      var fields := PrintFields(jobs[i], table);
      JobsLinesAt(jobs, table, i);
      if fields.failure.Some? {
        ThenThen(lines, [header], fields);
        return Printout(lines + [header] + fields.lines, fields.failure);
      }
      var block := [header] + fields.lines + [Separator];
      ThenThen(lines, block, JobsLines(jobs[i + 1..], table, i + 2));
      lines := lines + block;
      i := i + 1;
    }
    return Printout(lines, None);
  }

  /** The report for a reply: the count, then the jobs or the reason there are none. */
  method PrintReport(reply: Reply) returns (out: Printout)
    ensures out == ReportLines(reply)
  {
    if reply.Unavailable? {
      return Printout([TryLater], None);
    }
    var positive := CountPositive(reply.count);
    if positive.Err? {
      return Printout([GoodNews(reply.count)], Some(positive.error));
    }
    if !positive.value {
      return Printout([GoodNews(reply.count), NothingFound], None);
    }
    if reply.jobs.None? {
      return Printout([GoodNews(reply.count), Intro], Some(NoJobsKey));
    }
    var listed := PrintJobs(reply.jobs.value, Translations);
    return Then([GoodNews(reply.count), Intro], listed);
  }

  /**
   * When no job raises, every job's header is printed, numbered from
   * `number` in list order, and each job ends with a separator.
   */
  lemma {:induction false} HeadersNumbered(jobs: seq<Job>, table: seq<(string, string)>, number: int)
    requires JobsLines(jobs, table, number).failure == None
    ensures forall i | 0 <= i < |jobs| :: HeaderAt(jobs, number, i) in JobsLines(jobs, table, number).lines
  {
    if jobs != [] {
      JobsLinesFirst(jobs, table, number);
      HeadersNumbered(jobs[1..], table, number + 1);
      var all := JobsLines(jobs, table, number).lines;
      assert HeaderAt(jobs, number, 0) == all[0];
      forall i | 0 < i < |jobs| ensures HeaderAt(jobs, number, i) in all {
        assert HeaderAt(jobs, number, i) == HeaderAt(jobs[1..], number + 1, i - 1);
      }
    }
  }

  /** The header of the `i`-th job of a listing numbered from `number`. */
  function HeaderAt(jobs: seq<Job>, number: int, i: int): string
    requires 0 <= i < |jobs|
  {
    JobHeader(number + i, jobs[i])
  }

  /** What one job prints when none of its fields raises: header, field lines, separator. */
  function Block(job: Job, table: seq<(string, string)>, number: int): seq<string> {
    [JobHeader(number, job)] + FieldLines(job, table).lines + [Separator]
  }

  /** The blocks of `jobs`, numbered from `number`, in list order. */
  function Blocks(jobs: seq<Job>, table: seq<(string, string)>, number: int): seq<seq<string>> {
    seq(|jobs|, i requires 0 <= i < |jobs| => Block(jobs[i], table, number + i))
  }

  /** The first job's block, then the blocks of the others numbered on from the next number. */
  lemma BlocksCons(jobs: seq<Job>, table: seq<(string, string)>, number: int)
    requires jobs != []
    ensures Blocks(jobs, table, number) == [Block(jobs[0], table, number)] + Blocks(jobs[1..], table, number + 1)
  {
    var whole, rest := Blocks(jobs, table, number), Blocks(jobs[1..], table, number + 1);
    forall i | 1 <= i < |jobs| ensures whole[i] == rest[i - 1] {
      assert jobs[1..][i - 1] == jobs[i];
      assert number + 1 + (i - 1) == number + i;
    }
  }

  /** Where the `i`-th block starts when the blocks are laid end to end. */
  function Offset(blocks: seq<seq<string>>, i: int): nat
    requires 0 <= i <= |blocks|
  {
    if i == 0 then 0 else Offset(blocks, i - 1) + |blocks[i - 1]|
  }

  /** The `i`-th block sits in `lines` at its offset. */
  predicate BlockAt(lines: seq<string>, blocks: seq<seq<string>>, i: int)
    requires 0 <= i < |blocks|
  {
    Offset(blocks, i + 1) <= |lines| && lines[Offset(blocks, i)..Offset(blocks, i + 1)] == blocks[i]
  }

  /** `lines` is the blocks laid end to end, each at its offset, and nothing else. */
  predicate LaidOut(lines: seq<string>, blocks: seq<seq<string>>) {
    && |lines| == Offset(blocks, |blocks|)
    && forall i | 0 <= i < |blocks| :: BlockAt(lines, blocks, i)
  }

  /** Offsets past a first block are offsets into the remaining blocks. */
  lemma {:induction false} OffsetShift(first: seq<string>, blocks: seq<seq<string>>, i: int)
    requires 0 <= i <= |blocks|
    ensures Offset([first] + blocks, i + 1) == |first| + Offset(blocks, i)
  {
    if i > 0 {
      OffsetShift(first, blocks, i - 1);
      assert ([first] + blocks)[i] == blocks[i - 1];
    }
  }

  /** A first block followed by the rest laid out is the whole laid out. */
  lemma LaidOutCons(first: seq<string>, rest: seq<string>, blocks: seq<seq<string>>)
    requires LaidOut(rest, blocks)
    ensures LaidOut(first + rest, [first] + blocks)
  {
    var all, whole := first + rest, [first] + blocks;
    OffsetShift(first, blocks, |blocks|);
    forall i | 0 <= i < |whole|
      ensures BlockAt(all, whole, i)
    {
      OffsetShift(first, blocks, i);
      if i == 0 {
        assert all[0..|first|] == first;
      } else {
        OffsetShift(first, blocks, i - 1);
        assert whole[i] == blocks[i - 1];
        assert BlockAt(rest, blocks, i - 1);
        assert all[|first| + Offset(blocks, i - 1)..|first| + Offset(blocks, i)]
            == rest[Offset(blocks, i - 1)..Offset(blocks, i)];
      }
    }
  }

  /**
   * A listing that prints completely is the jobs' blocks laid end to end
   * in list order: the `i`-th job's header (numbered `number + i`), its
   * field lines and a separator, and nothing else.
   */
  lemma {:induction false} ListingBlocks(jobs: seq<Job>, table: seq<(string, string)>, number: int)
    requires JobsLines(jobs, table, number).failure == None
    ensures LaidOut(JobsLines(jobs, table, number).lines, Blocks(jobs, table, number))
  {
    if jobs != [] {
      JobsLinesFirst(jobs, table, number);
      ListingBlocks(jobs[1..], table, number + 1);
      var rest := JobsLines(jobs[1..], table, number + 1).lines;
      assert JobsLines(jobs, table, number).lines == Block(jobs[0], table, number) + rest;
      BlocksCons(jobs, table, number);
      LaidOutCons(Block(jobs[0], table, number), rest, Blocks(jobs[1..], table, number + 1));
    }
  }

  /** A listing that prints completely starts with the first job's header and ends with the rest's lines. */
  lemma JobsLinesFirst(jobs: seq<Job>, table: seq<(string, string)>, number: int)
    requires jobs != [] && JobsLines(jobs, table, number).failure == None
    ensures var fields := FieldLines(jobs[0], table);
      && fields.failure == None
      && JobsLines(jobs[1..], table, number + 1).failure == None
      && JobsLines(jobs, table, number).lines
           == [JobHeader(number, jobs[0])] + fields.lines + [Separator] + JobsLines(jobs[1..], table, number + 1).lines
  {
  }

  /**
   * The report opens with the count announcement when a reply arrived and
   * with the apology otherwise; "nothing found" is printed exactly when
   * the count is a number that is not positive.
   */
  lemma ReportOpening(reply: Reply)
    ensures |ReportLines(reply).lines| >= 1
    ensures ReportLines(reply).lines[0] == if reply.Unavailable? then TryLater else GoodNews(reply.count)
    ensures NothingFound in ReportLines(reply).lines <==>
              reply.Received? && CountPositive(reply.count) == Ok(false)
  {
    assert NothingFound[0] == 'P' && TryLater[0] == '\n' && Intro[0] == '\n';
    if reply.Received? {
      assert GoodNews(reply.count)[0] == '\n';
    }
    if reply.Received? && CountPositive(reply.count) == Ok(true) && reply.jobs.Some? {
      JobsNeverApologise(reply.jobs.value, Translations, 1);
    }
  }

  /** No line of the job listing is the "nothing found" message. */
  lemma {:induction false} JobsNeverApologise(jobs: seq<Job>, table: seq<(string, string)>, number: int)
    ensures NothingFound !in JobsLines(jobs, table, number).lines
  {
    if jobs != [] {
      var fields := FieldLines(jobs[0], table);
      FieldLinesShape(jobs[0], table);
      var header := JobHeader(number, jobs[0]);
      assert NothingFound[0] == 'P';
      assert !StartsWith(NothingFound, "  > ") by { assert NothingFound[..4][0] == 'P'; }
      assert header[0] == '\n';
      assert Separator[0] == '\n';
      if fields.failure.None? {
        JobsNeverApologise(jobs[1..], table, number + 1);
      }
    }
  }
}
