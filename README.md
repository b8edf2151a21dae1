# Vagas: job-search client, modelled in Dafny

Vagas is a pair of client scripts for a job-search API. `painel.py` is a
desktop panel: it validates a search form, posts it, turns each job the API
returns into a fixed display record (with a salary line built from several
salary fields), and shows one job card at a time with "Anterior"/"Próxima"
buttons. `vagas.py` is a console script: it prints every job field by field,
in the order of a translation table, with a per-field formatting rule (missing
values, description cut, links, salary amounts in the Brazilian format with a
unit, yes/no words, dates as dd/mm/yyyy) and a filter on what is printed, and
it adds a hint to API error details.

This project models that logic and proves what it promises:

- `results.dfy`: `Option` and `Result`.
- `text.dfy`: the Python `str` operations the scripts use (`strip`, `lower`,
  `startswith`, `in`, `int()`, `str()` of an integer).
- `py_values.dfy`: decoded JSON values as Python sees them (truthiness, `str()`).
- `job_transform.dfy`: the salary cascade, the projection of a raw job into
  the display record and the loop that builds the list, with the
  classification of the fetch's outcome.
- `job_card.dfy`: the job card (summary cut, link test, remote flag).
- `search_form.dfy`: form validation before the request.
- `result_session.dfy`: the panel's session (`all_found_jobs`,
  `current_job_index`, `current_mode` and the controls they drive) as a class.
- `money_format.dfy`: `float(value)`, `f"{x:,.2f}"` and the separator swap.
- `iso_date.dfy`: `datetime.fromisoformat` on `YYYY-MM-DD[<sep>HH[:MM[:SS]]]`
  and `strftime("%d/%m/%Y")`.
- `field_format.dfy`: the display value of one field in the console script.
- `console_report.dfy`: the nested printing loops and the print filter.
- `error_hint.dfy`: the hint chosen from an API error detail.

Where the design notes and the code disagree, the model follows the code:

- Navigation is not clamped. "next" and "previous" add or subtract one
  whatever the index is (`painel.py:503-506`). Only the disabled buttons
  keep the index in range, and `Session.Navigate` states exactly that.
- A failed search does not reset the result list. It only hides the
  navigation row (`painel.py:645-659`).
- The console description always ends in "...", even when it is shorter
  than 400 characters (`vagas.py:121`).
- The panel shows `date_posted` as the API sent it. Only the console
  script reformats dates.
- "next" is disabled when `index >= len - 1`, not only when `index == len - 1`.

## Model

| member | source | states |
|---|---|---|
| Text.Strip | painel.py:533-540 | definition of `strip()`; its properties are in StripSpec and StripIdempotent |
| Text.Contains | vagas.py:76-78 | definition of the `in` substring test; its property is in ContainsIffOccurs |
| Text.ParseInt | painel.py:558 | definition of `int()` on text; its property is in ParseIntOfIntToString |
| Text.StripSpec | painel.py:533-540 | the result is the input without its leading and trailing whitespace (Python's full `isspace` set), and it neither starts nor ends with whitespace |
| Text.StripIdempotent | painel.py:533-540 | stripping twice is stripping once |
| Text.ContainsIffOccurs | vagas.py:76-78 | the `in` substring test holds exactly when the pattern occurs at some position |
| Text.ParseIntOfIntToString | painel.py:558 | `int(str(n)) == n` for every integer |
| JobTransform.SalaryBase | painel.py:595-606 | definition of the salary cascade; its properties are in SalaryBaseAvailable, AverageIgnoresBounds and SalaryNotAvailableIff |
| JobTransform.SalaryText | painel.py:595-609 | definition of the salary line with its unit; its properties are in SalaryUnitSuffix and SalaryNotAvailableIff |
| JobTransform.SalaryBaseAvailable | painel.py:595-606 | the cascade's text differs from `Não disponível` exactly when the average or the lower bound is truthy |
| JobTransform.AverageIgnoresBounds | painel.py:601-602 | with a truthy average, replacing both bounds by any values leaves the salary line unchanged |
| JobTransform.SalaryUnitSuffix | painel.py:608-609 | the line is the cascade's text plus ` (unit)` once, exactly when the unit is truthy and a salary branch applied |
| JobTransform.SalaryNotAvailableIff | painel.py:595-609 | the final salary line is `Não disponível` exactly when neither the average nor the lower bound is truthy |
| JobTransform.Project | painel.py:612-622 | the record's remote flag is truthy exactly when the job's `is_remote` is truthy or its `work_from_home_type` is exactly `"Remoto"`, and its salary is the salary line |
| JobTransform.ProjectDefaults | painel.py:612-622 | each of the seven copied keys (`title`, `company`, `location`, `date_posted`, `description`, `job_type`, `job_url`) is copied unchanged when the job holds it, whatever its value, and takes its placeholder (`N/A`, `Descrição não disponível.`, None) when absent; a truthy `is_remote` is kept as sent, otherwise the flag is the boolean `work_from_home_type == "Remoto"` |
| JobTransform.ProjectEmpty | painel.py:595-622 | a job with no keys projects to `N/A` title, company, location, date and type, `False` remote flag, `Descrição não disponível.`, salary `Não disponível` and no URL |
| JobTransform.TransformJobs | painel.py:592-625 | the loop yields one record per source job, in source order, each the projection of its job |
| JobTransform.FetchAndTransform | painel.py:586-637 | the fetch yields a list exactly when the reply holds a list under `jobs`, and then it is the projected list; otherwise an error whose message is the one for that failure and is never empty |
| JobCard.Summary | painel.py:424-426 | definition of the card's description cut; its property is in CardDescription |
| JobCard.RenderCard | painel.py:414-462 | definition of the card; its properties are in RenderFailsIff, CardDescription, CardLink and CardRemote |
| JobCard.LinkFor | painel.py:435-443 | a link exactly when the URL is a string whose stripped form starts with `http`; the link keeps the unstripped URL |
| JobCard.RenderFailsIff | painel.py:425-497 | drawing the card fails exactly when the description is not a string (`len()` raises) |
| JobCard.CardDescription | painel.py:425-462 | a description over 250 characters shows its first 250 plus `...` (253 in all) and "Ver Mais..." carries the whole text; a shorter one is shown unchanged with no button |
| JobCard.CardLink | painel.py:435-443 | the card's link is present exactly when the record's URL is a string starting with `http` once stripped |
| JobCard.CardRemote | painel.py:418 | the card says "Sim" exactly when the record's remote flag is truthy |
| SearchForm.Validate | painel.py:545-582 | definition of the form checks and the payload; its properties are in ValidateOutcome and HoursRoundTrip |
| SearchForm.ValidateOutcome | painel.py:545-582 | the form passes exactly when URL, key, title and country are non-empty after stripping and the hours are empty or a non-negative integer; each error is reported exactly when its check is the first to fail (settings, then title/country, then a non-integer, then a negative number); a passing form sends the stripped URL, key, title (as `search_term`), location and country, the dropdown's value unchanged, and the hours (0 when empty) |
| SearchForm.HoursRoundTrip | painel.py:555-582 | typing a whole number of hours sends that number when it is not negative, and is refused as negative otherwise |
| ResultSession.DisplayAt | painel.py:406-497 | definition of what displaying a job shows; its properties are in DisplayAtCases |
| ResultSession.AfterDisplay | painel.py:402-497 | definition of the screen and navigation row after a display; its properties are in AfterDisplayRow |
| ResultSession.Step | painel.py:503-506 | definition of a click's index change; its properties are in Navigate and EnabledWalkStaysInRange |
| ResultSession.DisplayAtCases | painel.py:406-497 | an index outside the list shows "no more jobs"; inside it, only a description that is not a string makes the card fail |
| ResultSession.EnabledWalkStaysInRange | painel.py:487-506 | from a shown card, any sequence of clicks on enabled buttons keeps the index within the list |
| ResultSession.Session.constructor | painel.py:21-24 | the session starts in chat mode with no jobs, index 0 and the navigation row hidden |
| ResultSession.Session.SwitchMode | painel.py:677-686 | switching mode always empties the list, sets the index to 0 and hides the navigation row and the new-search button |
| ResultSession.AfterDisplayRow | painel.py:402-497 | after a job is displayed the navigation row is visible exactly when the index is in range and that job's description is a string; when visible, "previous" is disabled exactly at 0 and "next" exactly at `index >= len - 1`; when hidden, both buttons keep their earlier state |
| ResultSession.Session.ShowCurrent | painel.py:402-497 | the screen and the navigation row become what the display specification gives for the current list, index and earlier buttons; the list, index, mode, form and "Nova Busca" are untouched |
| ResultSession.Session.Navigate | painel.py:500-508 | "next"/"previous" change the index by exactly +1/-1, then the job there is displayed as specified; the row is consistent with the index afterwards, and a click on an enabled button of a consistent visible row lands inside the list |
| ResultSession.Session.ReportError | painel.py:645-658 | an error notice hides the navigation row and offers "Nova Busca"; the list, index, buttons and form are kept |
| ResultSession.Session.ShowFirst | painel.py:660-669 | a new list is stored with index 0, its first job is displayed as specified, the form is hidden and "Nova Busca" shown |
| ResultSession.Session.ShowList | painel.py:660-670 | as ShowFirst, except that the navigation row is then visible whatever the display did |
| ResultSession.Session.ApplyResult | painel.py:645-670 | as written: an API error shows `ERRO DA API: ` and its message, an empty list shows "no jobs found", both keeping the list and index and hiding the row; a non-empty list replaces the list, sets the index to 0, displays the first job and then forces the row visible |
| ResultSession.Session.ApplyResultFixed | painel.py:645-670 | the same branch with the row left as the display of the first job set it; the row is consistent with the index afterwards, whatever the earlier state |
| ResultSession.Session.FetchAndApply | painel.py:575-670 | the request's outcome, read from the transport: a reply holding a non-empty job list stores its projected records; any other reply gives "no jobs found" (an empty list) or the API error message |
| ResultSession.Session.FetchAndApplyFixed | painel.py:575-669 | the same, with the corrected branch, leaving the row consistent with the index |
| ResultSession.Session.Search | painel.py:529-670 | a form that fails validation only shows the validation message and changes nothing else; otherwise the reply's outcome is applied: error notice for a failure or an empty list, the projected records and the first job (row forced visible) for a non-empty list |
| ResultSession.Session.SearchFixed | painel.py:529-669 | the search with the corrected branch: the same validation, error and empty-list outcomes as Search with the same unchanged state; a non-empty list stores the projected records and displays the first job without forcing the row; the row is consistent with the index after every search |
| ResultSession.StaleButtonsAfterFailedCard | painel.py:665-670 | a one-job search whose job has a null description, followed by "next", leaves the index at 1 in a one-job list |
| MoneyFormat.SwapByReplace | vagas.py:129 | definition of the three `replace` calls; its properties are in SwapByReplaceIsSwap and SwapInvolution |
| MoneyFormat.EnglishFixed2 | vagas.py:128 | definition of `f"{x:,.2f}"`; its properties are in RoundHalfEven, AmountSwap and BrazilianBySwap |
| MoneyFormat.ParseDecimal | vagas.py:127 | definition of `float()` on text; its property is in ParseDecimalOfInt |
| MoneyFormat.ReplaceChar | vagas.py:129 | `replace` of one character: same length, each occurrence replaced, every other character kept |
| MoneyFormat.SwapByReplaceIsSwap | vagas.py:129 | on text without `#` the three replacements swap `.` and `,` and change nothing else |
| MoneyFormat.SwapInvolution | vagas.py:129 | swapping twice gives the text back, and so do the three replacements on text without `#` |
| MoneyFormat.SwapConcat | vagas.py:129 | the swap distributes over concatenation |
| MoneyFormat.RoundHalfEven | vagas.py:128 | the `.2f` rounding is within one half of the value and breaks ties towards even |
| MoneyFormat.GroupedSwap | vagas.py:128-129 | swapping the separators of a `,`-grouped number gives the `.`-grouped one |
| MoneyFormat.AmountSwap | vagas.py:128-129 | the replacements turn an English-formatted amount into the Brazilian-formatted one |
| MoneyFormat.BrazilianBySwap | vagas.py:128-129 | `f"{x:,.2f}"` followed by the replacements is exactly the Brazilian format of `x` (`1.234,56`) |
| MoneyFormat.ParseDecimalOfInt | vagas.py:127 | `float(str(n))` is `n` for every integer |
| IsoDate.ParseIso | vagas.py:151 | every parsed date is a valid calendar date |
| IsoDate.ParseIsoText | vagas.py:151 | the ISO text of a valid date parses back to that date |
| IsoDate.ParsedDatePrefix | vagas.py:151 | a parsed date is the one its first ten characters spell |
| IsoDate.ParseIsoWithClock | vagas.py:151 | a time of day after any separator does not change the parsed date |
| IsoDate.ParsedTextEnds | vagas.py:151 | text that parses as a date starts and ends with a digit |
| IsoDate.DayMonthYear | vagas.py:152 | `%d/%m/%Y` is ten characters with `/` at positions 2 and 5 |
| FieldFormat.IsMissing | vagas.py:114-118 | definition of a missing value; its properties are in NotAvailableIff and PresentIsTruthy |
| FieldFormat.BranchOf | vagas.py:113-156 | definition of which branch of the per-field formatter applies; its properties are in OtherBranchesDiffer, SalaryLine, BooleanText and DateLine |
| FieldFormat.FieldDisplay | vagas.py:113-156 | definition of a field's display value; its properties are in NotAvailableIff, DescriptionCut, LinkPrefix, SalaryLine, BooleanText, DateLine and PrintedIff |
| FieldFormat.PresentIsTruthy | vagas.py:114-123 | a value that is not missing is truthy, so a link key never skips the link branch |
| FieldFormat.NotAvailableIff | vagas.py:113-156 | a field shows `Não disponível :(` exactly when its value is missing (None, a blank or none/nan/null text, a number equal to 0, False), or is that very text under a key without the `Link: ` prefix |
| FieldFormat.OtherBranchesDiffer | vagas.py:119-156 | no branch after the first produces `Não disponível :(` from any other present value |
| FieldFormat.DescriptionCut | vagas.py:119-121 | the description shows the first min(400, len) characters of its text followed by `...`, also when it is shorter |
| FieldFormat.LinkPrefix | vagas.py:122-123 | a link key with a present value shows `Link: ` and its text |
| FieldFormat.SuffixSelection | vagas.py:131-145 | `por Ano` only for a yearly unit on `salary_yearly`, `por Hora` only for hourly on `salary_hourly`, `por Mês` only for monthly on `salary_from`/`salary_to`/`salary_avg`, `por Dia`/`por Semana` for daily/weekly on any key, nothing otherwise |
| FieldFormat.SalaryLine | vagas.py:124-147 | a numeric salary reads `EUR`, the Brazilian-formatted amount and the unit words; a non-numeric one is shown as its text; the run fails exactly when the value is numeric and the unit is present but not a string |
| FieldFormat.BooleanText | vagas.py:148-149 | `true`/`false` in any case read `Sim`/`Não` under keys the earlier branches do not take |
| FieldFormat.DateLine | vagas.py:150-156 | a date text that parses is shown as dd/mm/yyyy, one that does not parse is shown unchanged, and a date that is not text ends the run |
| FieldFormat.ParsedDateShown | vagas.py:113-156 | any text `fromisoformat` accepts reaches the date branch and is shown as dd/mm/yyyy |
| FieldFormat.TimestampShownAsDate | vagas.py:150-152 | a timestamp `YYYY-MM-DD`, any separator and a valid time of day is shown as that date's `dd/mm/yyyy` |
| IsoDate.ExampleDateTexts | vagas.py:151 | 1 March 2024 reads `2024-03-01` in ISO form and `01/03/2024` once formatted |
| ConsoleReport.TranslationsTable | vagas.py:20-47 | the table has 26 entries and contains every always-printed key |
| ConsoleReport.FieldLines | vagas.py:109-161 | definition of a job's field lines; its properties are in FieldLinesOrder, FieldLinesShape and AlwaysPrintedAppear |
| ConsoleReport.PrintFields | vagas.py:109-161 | the field loop prints one line per printed field, in table order, and stops at the first field that raises |
| ConsoleReport.FieldLinesShape | vagas.py:161 | every field line starts with `  > `, and there is at most one per table entry |
| ConsoleReport.FieldLinesOrder | vagas.py:109-161 | when no field raises, every entry formats, and the lines are exactly those of the printed entries in table order: the `k`-th line is `  > label: value` with the label and display value of the `k`-th printed entry |
| ConsoleReport.AlwaysPrintedAppear | vagas.py:159-161 | when no field raises, `title`, `company`, `location`, `job_url` and `date_posted` always have their line, whatever their value |
| ConsoleReport.PrintedIff | vagas.py:113-160 | a field is printed exactly when its key is always printed, or its value is present and is not the placeholder under a key without `Link: ` |
| ConsoleReport.JobsLines | vagas.py:107-162 | definition of the job listing; its properties are in ListingBlocks, HeadersNumbered and JobsNeverApologise |
| ConsoleReport.ReportLines | vagas.py:101-167 | definition of the whole report; its properties are in ReportOpening |
| ConsoleReport.PrintJobs | vagas.py:107-162 | each job prints its numbered header, its field lines and the separator, until a field raises |
| ConsoleReport.HeadersNumbered | vagas.py:107-108 | when no job raises, every job's header is printed, the job at position `i` numbered `number + i` |
| ConsoleReport.ListingBlocks | vagas.py:107-162 | when no job raises, the listing is the jobs' blocks end to end in list order, and nothing else: the `i`-th block is the header numbered `number + i`, that job's field lines and the separator |
| ConsoleReport.PrintReport | vagas.py:101-167 | the report prints the count, then the jobs, the "nothing found" message, or the "try later" message when no reply came |
| ConsoleReport.ReportOpening | vagas.py:101-167 | the first line is the count announcement when a reply arrived and the apology otherwise; "nothing found" is printed exactly when the count is a number that is not positive |
| ConsoleReport.JobsNeverApologise | vagas.py:107-162 | no line of the job listing is the "nothing found" message |
| ErrorHint.DetailLines | vagas.py:73-79 | the first line is always `Detalhes do erro da API: ` followed by the detail, or `Detalhe não disponível.` when the reply has none; then the hint chosen for that text, at most one line |
| ErrorHint.HintFor | vagas.py:76-79 | definition of the hint choice; its properties are in HintIff and RateLimitSticks |
| ErrorHint.DetailTextLines | vagas.py:75-79 | the first line is `Detalhes do erro da API: ` followed by the detail, and at most one hint follows |
| ErrorHint.HintIff | vagas.py:76-79 | the rate-limit hint exactly when "Muitas requisições" occurs; the key hint exactly when it does not and "inválida" or "expirada" occurs; no hint otherwise |
| ErrorHint.RateLimitSticks | vagas.py:76-77 | text added before or after a rate-limited detail keeps the rate-limit hint |

## Left out

- HTTP transport (`requests`, `raise_for_status`, timeouts, JSON decoding) is an input here. The panel's fetch receives a `Transport` value. The console report receives a decoded `Reply`. The messages are built from what those carry.
- `asyncio.to_thread`: the fetch is one call that returns one value.
- The Flet widget tree, theming, message bubbles, the loading indicator, `page.update()` and the chat mode's message handling are not modelled. The session keeps only the last message shown and the visibility of the controls the search logic changes.
- `chat_AI.py` is not part of this model. Its hint logic repeats `vagas.py:76-79`.
- The search request itself (`fazer_requisicao`, the payload, `__main__` runs) is not modelled. Neither is the printed search banner.
- MoneyFormat.ParseDecimal: `float()` is restricted to plain decimal text. Exponents, `inf`, `infinity`, underscores and non-ASCII digits make it fail here, while Python accepts them.
- MoneyFormat.ParseDecimal: negative zero is not kept. `float("-0")` is `-0.0` and prints `EUR -0,00`; the model reads 0 and prints `EUR 0,00`. A negative amount that rounds to zero, such as `-0.001`, does keep its `-` in both.
- MoneyFormat.ParseDecimal: the result is the exact decimal value, not the nearest binary double. An amount whose double lies on the other side of a rounding tie can format differently.
- PyValues.Value: a float carries its `str()` text as given rather than computing Python's shortest repr. NaN and infinities are not represented, so the numpy-only NaN/Inf test at `vagas.py:116` is left out.
- Integers are unbounded. `float(n)` of an integer beyond 2^53 would lose precision in Python.
- IsoDate.ParseIso: only `YYYY-MM-DD`, optionally followed by one separator and `HH`, `HH:MM` or `HH:MM:SS`, is accepted. Fractions of a second, UTC offsets, `Z` and the compact and week forms that newer Pythons accept are not.
- IsoDate.DayMonthYear: years are always padded to four digits. Some platforms print `%Y` without padding for years below 1000.
- Text.Lower maps only ASCII capitals and the Kelvin sign. That is all that matters when comparing with `true`, `false`, `none`, `nan`, `null` and unit names. It is not a full `str.lower()`.
- Text.ParseInt: `int()` is restricted to an optional sign and ASCII digits. Underscores and other Unicode digits are not accepted.
- Field values are JSON scalars. List and object values (for example a list of skills) are not modelled, nor are the exceptions `float()` or `in` would raise on them.
- ConsoleReport.Reply: the reply's `jobs` is a list of job objects or absent. A `jobs` that is None or not a list, with a positive count, raises at `vagas.py:107` in the source and cannot be given to the model.
- ErrorHint.DetailLines: the detail is taken to be a string. A non-string detail would make `in` raise, or test list membership instead.
- JobTransform.JobsField: the `jobs` value is given by what the loop at `painel.py:593` does with it, not by its JSON type. A value it iterates zero times (an empty list, but also an empty string or object) is given as `JobList([])` and ends as "no jobs found". A value that makes the loop raise (None, a number, a non-empty string or object, a list with an element that is not an object) is `NotAJobList` with the exception's text.

## Findings

| source | as written | input that shows it | evidently intended | confidence | as-written member | corrected member |
|---|---|---|---|---|---|---|
| painel.py:665-670 | after showing the first job of a new result list, the navigation row is made visible unconditionally, even when that card failed and the row's buttons still hold their earlier enabled state | a search returning one job whose `description` is null: the card fails, the row is shown with "Próxima" still enabled from start-up, and clicking it sets the index to 1 in a one-job list | leave the row as `display_single_job` set it (hidden after a failed card), so a visible row always matches the index | not executed | ResultSession.StaleButtonsAfterFailedCard | ResultSession.Session.ApplyResultFixed |
