/**
 * vagas.py, the body of the field loop in `buscar_e_exibir_vagas`: the
 * display value chosen for one `(key, value)` of a job, branch by branch in
 * the source's order.
 */
module FieldFormat {
  import opened Results
  import opened Text
  import opened PyValues
  import opened MoneyFormat
  import opened IsoDate

  const NotAvailable := "Não disponível :("
  const DescriptionLimit := 400

  /** The exceptions that escape the field loop and end the run. */
  datatype Failure =
    | UnitNotText   // `job.get('salary_unit', '').lower()` on a unit that is not a string: AttributeError
    | DateNotText   // `datetime.fromisoformat(value)` on a value that is not a string: TypeError
    | CountNotNumber // `count > 0` on a count that is not a number: TypeError
    | NoJobsKey     // `resposta_jobs['jobs']` on a reply without it: KeyError

  /** A string that, stripped and lower-cased, is one of the placeholders for no value. */
  predicate MissingText(s: string) {
    var t := Lower(Strip(s));
    t == "none" || t == "nan" || t == "null" || t == ""
  }

  /** The first two branches: None, a placeholder string, or a number equal to 0 (False == 0 as well). */
  predicate IsMissing(v: Value) {
    match v
    case Null => true
    case Str(s) => MissingText(s)
    case Int(n) => n == 0
    case Float(x, _) => x == 0.0
    case Bool(b) => !b
  }

  const LinkKeys: set<string> := {"job_url", "job_url_direct", "company_website"}

  /** Python's `str(value)[:n]`. */
  function Take(s: string, n: nat): string {
    if |s| <= n then s else s[..n]
  }

  /** Python's `float(value)` for a value that is not None; None stands for ValueError. */
  function ToFloat(v: Value): Option<real>
    requires !v.Null?
  {
    match v
    case Bool(b) => Some(if b then 1.0 else 0.0)
    case Int(n) => Some(n as real)
    case Float(x, _) => Some(x)
    case Str(s) => ParseDecimal(s)
  }

  /** `job.get('salary_unit', '').lower()`: "" when absent, fails when present but not a string. */
  function SalaryUnit(job: Job): Result<string, Failure> {
    if "salary_unit" !in job then Ok("")
    else match job["salary_unit"]
      case Str(s) => Ok(Lower(s))
      case _ => Err(UnitNotText)
  }

  /** The unit words chosen by the `if`/`elif` chain on the unit and the key. */
  function UnitSuffix(unit: string, key: string): string {
    if unit == "yearly" && key == "salary_yearly" then " por Ano"
    else if unit == "hourly" && key == "salary_hourly" then " por Hora"
    else if unit == "monthly" && (key == "salary_from" || key == "salary_to" || key == "salary_avg") then " por Mês"
    else if unit == "daily" then " por Dia"
    else if unit == "weekly" then " por Semana"
    else ""
  }

  /** The `salary_*` branch: an amount in euros with its unit, or `str(value)` when it is not a number. */
  function SalaryDisplay(key: string, v: Value, job: Job): Result<Value, Failure>
    requires !v.Null?
  {
    match ToFloat(v)
    case None => Ok(Str(PyStr(v)))
    case Some(x) =>
      match SalaryUnit(job)
      case Err(e) => Err(e)
      case Ok(unit) => Ok(Str("EUR " + SwapByReplace(EnglishFixed2(x)) + UnitSuffix(unit, key)))
  }

  /** The `date_posted` branch: dd/mm/yyyy when the text parses, the text itself when it does not. */
  function DateDisplay(v: Value): Result<Value, Failure> {
    match v
    case Str(s) =>
      (match ParseIso(s)
       case Some(d) => Ok(Str(DayMonthYear(d)))
       case None => Ok(Str(s)))
    case _ => Err(DateNotText)
  }

  /** The branches of the field loop, in the order the source tries them. */
  datatype Branch = Missing | Description | LinkField | Salary | BooleanWord | DatePosted | Raw

  /** The first branch whose test the field passes. */
  function BranchOf(key: string, v: Value): Branch {
    if IsMissing(v) then Missing
    else if key == "description" then Description
    else if key in LinkKeys && Truthy(v) then LinkField
    else if StartsWith(key, "salary_") && v != Str(NotAvailable) then Salary
    else if v.Str? && (Lower(v.s) == "true" || Lower(v.s) == "false") then BooleanWord
    else if key == "date_posted" && v != Str(NotAvailable) then DatePosted
    else Raw
  }

  /** The display value of one field, computed by the branch it falls into; a raw value is kept as it is. */
  function FieldDisplay(key: string, v: Value, job: Job): Result<Value, Failure> {
    match BranchOf(key, v)
    case Missing => Ok(Str(NotAvailable))
    case Description =>
      Ok(Str(if v == Str(NotAvailable) then NotAvailable else Take(PyStr(v), DescriptionLimit) + "..."))
    case LinkField => Ok(Str("Link: " + PyStr(v)))
    case Salary => SalaryDisplay(key, v, job)
    case BooleanWord => Ok(Str(if Lower(v.s) == "true" then "Sim" else "Não"))
    case DatePosted => DateDisplay(v)
    case Raw => Ok(v)
  }

  /** Whatever survives the missing-value test is truthy. */
  lemma PresentIsTruthy(v: Value)
    ensures !IsMissing(v) ==> Truthy(v)
  {
    if v.Str? && v.s == "" {
      assert Strip(v.s) == "";
    }
  }

  /** The salary branch never yields NotAvailable for a value other than that text. */
  lemma SalaryNeverNotAvailable(key: string, v: Value, job: Job)
    requires !v.Null? && v != Str(NotAvailable)
    ensures SalaryDisplay(key, v, job) != Ok(Str(NotAvailable))
  {
    if ToFloat(v).Some? && SalaryUnit(job).Ok? {
      var x, unit := ToFloat(v).value, SalaryUnit(job).value;
      assert ("EUR " + SwapByReplace(EnglishFixed2(x)) + UnitSuffix(unit, key))[0] == 'E';
      assert NotAvailable[0] == 'N';
    }
  }

  /** The date branch never yields NotAvailable for a value other than that text. */
  lemma DateNeverNotAvailable(v: Value)
    requires v != Str(NotAvailable)
    ensures DateDisplay(v) != Ok(Str(NotAvailable))
  {
    if v.Str? && ParseIso(v.s).Some? {
      assert |DayMonthYear(ParseIso(v.s).value)| != |NotAvailable|;
    }
  }

  /** A text of six or more characters with no whitespace at either end is not a missing-value spelling. */
  lemma LongTextPresent(s: string)
    requires |s| > 5 && !IsSpace(s[0]) && !IsSpace(s[|s| - 1])
    ensures !MissingText(s)
  {
    assert |Strip(s)| == |s|;
    assert |Lower(Strip(s))| == |s|;
  }

  /** The placeholder text itself is not one of the missing-value spellings. */
  lemma NotAvailableIsPresent(v: Value)
    requires v == Str(NotAvailable)
    ensures !IsMissing(v)
  {
    LongTextPresent(NotAvailable);
  }

  /** The placeholder under a key without the `Link: ` prefix reaches the description or the raw branch. */
  lemma PlaceholderBranch(key: string, v: Value)
    requires v == Str(NotAvailable) && key !in LinkKeys && !IsMissing(v)
    ensures BranchOf(key, v) == Description || BranchOf(key, v) == Raw
  {
    assert |Lower(v.s)| == |v.s|;
  }

  /** The placeholder under a key without the `Link: ` prefix is shown as it is. */
  lemma PlaceholderKept(key: string, v: Value, job: Job)
    requires v == Str(NotAvailable) && key !in LinkKeys
    ensures FieldDisplay(key, v, job) == Ok(Str(NotAvailable))
  {
    NotAvailableIsPresent(v);
    PlaceholderBranch(key, v);
  }

  /** The placeholder under a link key gets the prefix like any other text. */
  lemma PlaceholderLinked(key: string, v: Value, job: Job)
    requires v == Str(NotAvailable) && key in LinkKeys
    ensures FieldDisplay(key, v, job) != Ok(Str(NotAvailable))
  {
    NotAvailableIsPresent(v);
    LinkPrefix(key, v, job);
    assert ("Link: " + PyStr(v))[0] != NotAvailable[0];
  }

  /** Every branch after the first turns any other present value into something else than NotAvailable. */
  lemma OtherBranchesDiffer(key: string, v: Value, job: Job)
    requires !IsMissing(v) && v != Str(NotAvailable)
    ensures FieldDisplay(key, v, job) != Ok(Str(NotAvailable))
  {
    match BranchOf(key, v)
    case Missing =>
    case Description =>
      var t := Take(PyStr(v), DescriptionLimit) + "...";
      assert t[|t| - 1] != NotAvailable[|NotAvailable| - 1];
    case LinkField =>
      assert ("Link: " + PyStr(v))[0] != NotAvailable[0];
    case Salary =>
      SalaryNeverNotAvailable(key, v, job);
    case BooleanWord =>
    case DatePosted =>
      DateNeverNotAvailable(v);
    case Raw =>
  }

  /**
   * A field displays as NotAvailable exactly when its value is missing, or
   * is that very text under a key that does not get the `Link: ` prefix.
   */
  lemma NotAvailableIff(key: string, v: Value, job: Job)
    ensures FieldDisplay(key, v, job) == Ok(Str(NotAvailable)) <==>
              IsMissing(v) || (v == Str(NotAvailable) && key !in LinkKeys)
  {
    if IsMissing(v) {
    } else if v == Str(NotAvailable) {
      if key in LinkKeys {
        PlaceholderLinked(key, v, job);
      } else {
        PlaceholderKept(key, v, job);
      }
    } else {
      OtherBranchesDiffer(key, v, job);
    }
  }

  /**
   * The description shows at most its first 400 characters, always followed
   * by "...", even when it is shorter.
   */
  lemma DescriptionCut(v: Value, job: Job)
    requires !IsMissing(v) && v != Str(NotAvailable)
    ensures var full := PyStr(v);
      && FieldDisplay("description", v, job).Ok?
      && FieldDisplay("description", v, job).value.Str?
      && var shown := FieldDisplay("description", v, job).value.s;
         && |shown| == (if |full| < DescriptionLimit then |full| else DescriptionLimit) + 3
         && shown[..|shown| - 3] == full[..|shown| - 3]
         && shown[|shown| - 3..] == "..."
  {
  }

  /** A link field that holds anything gets `Link: ` in front of its text. */
  lemma LinkPrefix(key: string, v: Value, job: Job)
    requires key in LinkKeys && !IsMissing(v)
    ensures FieldDisplay(key, v, job) == Ok(Str("Link: " + PyStr(v)))
  {
    PresentIsTruthy(v);
  }

  /** The suffix chain, read as a table: which unit reaches which keys. */
  lemma SuffixSelection(unit: string, key: string)
    ensures UnitSuffix(unit, key) == " por Ano" <==> unit == "yearly" && key == "salary_yearly"
    ensures UnitSuffix(unit, key) == " por Hora" <==> unit == "hourly" && key == "salary_hourly"
    ensures UnitSuffix(unit, key) == " por Mês" <==>
              unit == "monthly" && key in {"salary_from", "salary_to", "salary_avg"}
    ensures UnitSuffix(unit, key) == " por Dia" <==> unit == "daily"
    ensures UnitSuffix(unit, key) == " por Semana" <==> unit == "weekly"
    ensures UnitSuffix(unit, key) == "" <==>
              !(unit == "yearly" && key == "salary_yearly") && !(unit == "hourly" && key == "salary_hourly")
              && !(unit == "monthly" && key in {"salary_from", "salary_to", "salary_avg"})
              && unit != "daily" && unit != "weekly"
  {
    var labels := [" por Ano", " por Hora", " por Mês", " por Dia", " por Semana"];
    assert forall i, j | 0 <= i < j < |labels| :: labels[i][5] != labels[j][5] || |labels[i]| != |labels[j]|;
  }

  /**
   * A numeric salary field reads `EUR ` and the amount in the Brazilian
   * format, then its unit words; a non-numeric one is shown as its text; a
   * unit that is present but not a string ends the run.
   */
  lemma SalaryLine(key: string, v: Value, job: Job)
    requires StartsWith(key, "salary_") && key != "description" && key !in LinkKeys
    requires !IsMissing(v) && v != Str(NotAvailable)
    ensures ToFloat(v).None? ==> FieldDisplay(key, v, job) == Ok(Str(PyStr(v)))
    ensures ToFloat(v).Some? && SalaryUnit(job).Ok? ==>
              FieldDisplay(key, v, job) ==
                Ok(Str("EUR " + BrazilianFixed2(ToFloat(v).value) + UnitSuffix(SalaryUnit(job).value, key)))
    ensures FieldDisplay(key, v, job).Err? <==> ToFloat(v).Some? && SalaryUnit(job).Err?
  {
    SalaryBranch(key, v);
    assert FieldDisplay(key, v, job) == SalaryDisplay(key, v, job);
    if ToFloat(v).Some? {
      BrazilianBySwap(ToFloat(v).value);
    }
  }

  /** A present value other than the placeholder under a `salary_` key takes the salary branch. */
  lemma SalaryBranch(key: string, v: Value)
    requires StartsWith(key, "salary_") && key != "description" && key !in LinkKeys
    requires !IsMissing(v) && v != Str(NotAvailable)
    ensures BranchOf(key, v) == Salary
  {
  }

  /** Date text that parses is shown as dd/mm/yyyy, other text unchanged; a non-text date ends the run. */
  lemma DateLine(v: Value, job: Job)
    requires !IsMissing(v) && v != Str(NotAvailable)
    requires !(v.Str? && (Lower(v.s) == "true" || Lower(v.s) == "false"))
    ensures v.Str? && ParseIso(v.s).Some? ==>
              FieldDisplay("date_posted", v, job) == Ok(Str(DayMonthYear(ParseIso(v.s).value)))
    ensures v.Str? && ParseIso(v.s).None? ==> FieldDisplay("date_posted", v, job) == Ok(v)
    ensures !v.Str? ==> FieldDisplay("date_posted", v, job) == Err(DateNotText)
  {
    DateBranch(v);
    assert FieldDisplay("date_posted", v, job) == DateDisplay(v);
  }

  /** A present value other than the placeholder and the boolean words takes the date branch under `date_posted`. */
  lemma DateBranch(v: Value)
    requires !IsMissing(v) && v != Str(NotAvailable)
    requires !(v.Str? && (Lower(v.s) == "true" || Lower(v.s) == "false"))
    ensures BranchOf("date_posted", v) == DatePosted
  {
    assert "date_posted"[..7][0] == 'd';
    assert !StartsWith("date_posted", "salary_");
  }

  /** Boolean-looking text under any other key reads "Sim" or "Não". */
  lemma BooleanText(key: string, s: string, job: Job)
    requires key != "description" && key !in LinkKeys && !StartsWith(key, "salary_")
    requires !MissingText(s) && (Lower(s) == "true" || Lower(s) == "false")
    ensures FieldDisplay(key, Str(s), job) == Ok(Str(if Lower(s) == "true" then "Sim" else "Não"))
  {
    assert BranchOf(key, Str(s)) == BooleanWord;
  }

  /** Any date text `fromisoformat` accepts reaches the date branch and is shown as day/month/year. */
  lemma ParsedDateShown(s: string, job: Job)
    requires ParseIso(s).Some?
    ensures FieldDisplay("date_posted", Str(s), job) == Ok(Str(DayMonthYear(ParseIso(s).value)))
  {
    ParsedTextEnds(s);
    assert !IsSpace(s[0]) && !IsSpace(s[|s| - 1]);
    LongTextPresent(s);
    assert Lower(s)[0] == s[0];
    assert s[0] != NotAvailable[0];
    DateLine(Str(s), job);
  }

  /** A posting timestamp `YYYY-MM-DD` + separator + time of day is shown as the date's day/month/year. */
  lemma TimestampShownAsDate(d: Date, sep: char, clock: string, job: Job)
    requires ValidDate(d) && ValidClock(clock)
    ensures FieldDisplay("date_posted", Str(IsoText(d) + [sep] + clock), job) == Ok(Str(DayMonthYear(d)))
  {
    ParseIsoWithClock(d, sep, clock);
    ParsedDateShown(IsoText(d) + [sep] + clock, job);
  }
}
