/**
 * painel.py, the job-search session: the globals `all_found_jobs`,
 * `current_job_index` and `current_mode`, together with the visibility and
 * enabling of the controls that `display_single_job`, `navigate_jobs`,
 * `search_jobs_gui` and `switch_mode` change.
 */
module ResultSession {
  import opened Results
  import opened Text
  import opened PyValues
  import opened JobTransform
  import opened JobCard
  import opened SearchForm

  datatype Mode = ChatAi | JobSearch

  /** The `data` of the two navigation buttons: "next" and "previous". */
  datatype Direction = Next | Previous

  /** The last thing the conversation area shows. */
  datatype Screen =
    | Greeting(mode: Mode)              // the mode banner `switch_mode` posts
    | Notice(text: string)              // a "Sistema" message
    | ErrorNotice(text: string)         // a message from `show_error`
    | ShowingJob(index: int, card: Card)

  const NoMoreJobs := "Não há mais vagas para exibir."
  const NoJobsFound := "\U{1F614} Nenhuma vaga encontrada com os critérios fornecidos."

  function RenderFailureMessage(index: int): string {
    "ERRO INTERNO NA EXIBIÇÃO: Falha ao exibir vaga " + IntToString(index + 1) +
    ". Verifique o console para detalhes."
  }

  /** What `display_single_job(jobs, index)` ends in. */
  datatype Display = OutOfRange | CardFailed | CardShown(card: Card)

  function DisplayAt(jobs: seq<DisplayJob>, index: int): Display {
    if |jobs| == 0 || index < 0 || index >= |jobs| then OutOfRange
    else match RenderCard(jobs[index])
      case None => CardFailed
      case Some(c) => CardShown(c)
  }

  /** The part of the page `display_single_job` sets: the last message, the two buttons and the navigation row. */
  datatype View = View(screen: Screen, previousDisabled: bool, nextDisabled: bool, navVisible: bool)

  /**
   * What `display_single_job(jobs, index)` leaves: the buttons keep their
   * earlier state unless a card is drawn, and the row is visible exactly
   * when one is.
   */
  function AfterDisplay(jobs: seq<DisplayJob>, index: int, previousBefore: bool, nextBefore: bool): View {
    match DisplayAt(jobs, index)
    case OutOfRange => View(Notice(NoMoreJobs), previousBefore, nextBefore, false)
    case CardFailed => View(ErrorNotice(RenderFailureMessage(index)), previousBefore, nextBefore, false)
    case CardShown(c) => View(ShowingJob(index, c), index == 0, index >= |jobs| - 1, true)
  }

  /**
   * After a display the row is visible only over a card inside the list,
   * with "previous" disabled exactly on the first job and "next" exactly on
   * the last; otherwise the buttons are left as they were.
   */
  lemma AfterDisplayRow(jobs: seq<DisplayJob>, index: int, previousBefore: bool, nextBefore: bool)
    ensures var v := AfterDisplay(jobs, index, previousBefore, nextBefore);
      && (v.navVisible <==> 0 <= index < |jobs| && jobs[index].description.Str?)
      && (v.navVisible ==> v.previousDisabled == (index == 0) && v.nextDisabled == (index >= |jobs| - 1))
      && (!v.navVisible ==> v.previousDisabled == previousBefore && v.nextDisabled == nextBefore)
  {
    DisplayAtCases(jobs, index);
  }

  /** An index outside the list reports "no more jobs"; inside it, only a non-text description stops the card. */
  lemma DisplayAtCases(jobs: seq<DisplayJob>, index: int)
    ensures DisplayAt(jobs, index).OutOfRange? <==> !(0 <= index < |jobs|)
    ensures DisplayAt(jobs, index).CardFailed? <==> 0 <= index < |jobs| && !jobs[index].description.Str?
    ensures DisplayAt(jobs, index).CardShown? ==> DisplayAt(jobs, index).card == RenderCard(jobs[index]).value
  {
    if 0 <= index < |jobs| {
      RenderFailsIff(jobs[index]);
    }
  }

  /** `navigate_jobs`: +1 for "next", -1 for "previous", never clamped. */
  function Step(index: int, dir: Direction): int {
    match dir
    case Next => index + 1
    case Previous => index - 1
  }

  /** The button for `dir` is enabled as `display_single_job` leaves it after showing `index` of `count`. */
  predicate Enabled(index: int, count: int, dir: Direction) {
    match dir
    case Previous => index != 0
    case Next => !(index >= count - 1)
  }

  /** The index after a sequence of clicks. */
  function Walk(index: int, clicks: seq<Direction>): int
    decreases |clicks|
  {
    if clicks == [] then index else Walk(Step(index, clicks[0]), clicks[1..])
  }

  /** Every click is on a button that is enabled at the moment it is made. */
  predicate EnabledWalk(index: int, count: int, clicks: seq<Direction>)
    decreases |clicks|
  {
    clicks == [] || (Enabled(index, count, clicks[0]) && EnabledWalk(Step(index, clicks[0]), count, clicks[1..]))
  }

  /** Clicking only enabled buttons from a shown card never leaves the list. */
  lemma {:induction false} EnabledWalkStaysInRange(index: int, count: int, clicks: seq<Direction>)
    requires 0 <= index < count
    requires EnabledWalk(index, count, clicks)
    ensures 0 <= Walk(index, clicks) < count
    decreases |clicks|
  {
    if clicks != [] {
      EnabledWalkStaysInRange(Step(index, clicks[0]), count, clicks[1..]);
    }
  }

  class Session {
    var mode: Mode                 // current_mode
    var jobs: seq<DisplayJob>      // all_found_jobs
    var index: int                 // current_job_index
    var navVisible: bool           // the row with "Anterior" and "Próxima"
    var previousDisabled: bool
    var nextDisabled: bool
    var newSearchVisible: bool     // "Nova Busca / Voltar ao Chat"
    var formVisible: bool          // the job-search form
    var screen: Screen

    /** While the navigation row is visible, the index is in range and the buttons are enabled as it says. */
    ghost predicate NavigationConsistent()
      reads this
    {
      navVisible ==>
        && 0 <= index < |jobs|
        && previousDisabled == (index == 0)
        && nextDisabled == (index >= |jobs| - 1)
    }

    /** The module globals, then `switch_mode(current_mode)` at start-up; buttons start enabled. */
    constructor ()
      ensures mode == ChatAi && jobs == [] && index == 0
      ensures !navVisible && !previousDisabled && !nextDisabled && !newSearchVisible && !formVisible
      ensures screen == Greeting(ChatAi)
      ensures NavigationConsistent()
    {
      mode, jobs, index := ChatAi, [], 0;
      navVisible, previousDisabled, nextDisabled := false, false, false;
      newSearchVisible, formVisible := false, false;
      screen := Greeting(ChatAi);
    }

    /** `switch_mode`: forget the results and hide the navigation, whatever the mode. */
    method SwitchMode(m: Mode)
      modifies this
      ensures mode == m && jobs == [] && index == 0
      ensures !navVisible && !newSearchVisible && formVisible == (m == JobSearch)
      ensures previousDisabled == old(previousDisabled) && nextDisabled == old(nextDisabled)
      ensures screen == Greeting(m)
      ensures NavigationConsistent()
    {
      mode := m;
      navVisible, newSearchVisible := false, false;
      jobs, index := [], 0;
      formVisible := m == JobSearch;
      screen := Greeting(m);
    }

    /** `display_single_job(all_found_jobs, current_job_index)`. */
    method ShowCurrent()
      modifies this
      ensures mode == old(mode) && jobs == old(jobs) && index == old(index)
      ensures newSearchVisible == old(newSearchVisible) && formVisible == old(formVisible)
      ensures View(screen, previousDisabled, nextDisabled, navVisible)
           == AfterDisplay(jobs, index, old(previousDisabled), old(nextDisabled))
    {
      match DisplayAt(jobs, index) {
        case OutOfRange =>
          screen := Notice(NoMoreJobs);
          navVisible := false;
        case CardFailed =>
          screen := ErrorNotice(RenderFailureMessage(index));
          navVisible := false;
        case CardShown(c) =>
          screen := ShowingJob(index, c);
          previousDisabled := index == 0;
          nextDisabled := index >= |jobs| - 1;
          navVisible := true;
      }
    }

    /**
     * `navigate_jobs`: move by one and show the job there. The row is
     * consistent afterwards, and a click on an enabled button of a
     * consistent row lands inside the list.
     */
    method Navigate(dir: Direction)
      modifies this
      ensures index == Step(old(index), dir)
      ensures mode == old(mode) && jobs == old(jobs)
      ensures newSearchVisible == old(newSearchVisible) && formVisible == old(formVisible)
      ensures View(screen, previousDisabled, nextDisabled, navVisible)
           == AfterDisplay(jobs, index, old(previousDisabled), old(nextDisabled))
      ensures NavigationConsistent()
      ensures old(NavigationConsistent()) && old(navVisible) && Enabled(old(index), |jobs|, dir) ==>
                0 <= index < |jobs|
    {
      index := Step(index, dir);
      ShowCurrent();
      AfterDisplayRow(jobs, index, old(previousDisabled), old(nextDisabled));
    }

    /** `show_error(text)` in `search_jobs_gui`, then only "Nova Busca" is offered; the results are kept. */
    method ReportError(text: string)
      modifies this
      ensures screen == ErrorNotice(text) && !navVisible && newSearchVisible
      ensures mode == old(mode) && jobs == old(jobs) && index == old(index) && formVisible == old(formVisible)
      ensures previousDisabled == old(previousDisabled) && nextDisabled == old(nextDisabled)
    {
      screen := ErrorNotice(text);
      newSearchVisible, navVisible := true, false;
    }

    /**
     * A non-empty list, lines 660-669: store it, show its first job, then
     * hide the form and show "Nova Busca"; the row stays as
     * `display_single_job` left it.
     */
    method ShowFirst(found: seq<DisplayJob>)
      modifies this
      ensures jobs == found && index == 0 && newSearchVisible && !formVisible && mode == old(mode)
      ensures View(screen, previousDisabled, nextDisabled, navVisible)
           == AfterDisplay(found, 0, old(previousDisabled), old(nextDisabled))
    {
      jobs, index := found, 0;
      ShowCurrent();
      formVisible, newSearchVisible := false, true;
    }

    /**
     * A non-empty list as written: ShowFirst, then line 670 makes the
     * navigation row visible unconditionally, even when that first card
     * could not be drawn.
     */
    method ShowList(found: seq<DisplayJob>)
      modifies this
      ensures jobs == found && index == 0 && newSearchVisible && !formVisible && mode == old(mode)
      ensures View(screen, previousDisabled, nextDisabled, navVisible)
           == AfterDisplay(found, 0, old(previousDisabled), old(nextDisabled)).(navVisible := true)
    {
      ShowFirst(found);
      navVisible := true;
    }

    /** The branch of `search_jobs_gui` on the value the fetch returned, as written. */
    method ApplyResult(result: FetchResult)
      modifies this
      ensures mode == old(mode)
      ensures result.Failed? || result == Fetched([]) ==>
        && screen == ErrorNotice(if result.Failed? then "ERRO DA API: " + result.message else NoJobsFound)
        && jobs == old(jobs) && index == old(index) && !navVisible && newSearchVisible
        && formVisible == old(formVisible)
        && previousDisabled == old(previousDisabled) && nextDisabled == old(nextDisabled)
      ensures result.Fetched? && result.jobs != [] ==>
        && jobs == result.jobs && index == 0 && newSearchVisible && !formVisible
        && View(screen, previousDisabled, nextDisabled, navVisible)
           == AfterDisplay(jobs, 0, old(previousDisabled), old(nextDisabled)).(navVisible := true)
    {
      match result {
        case Failed(message) =>
          ReportError("ERRO DA API: " + message);
        case Fetched(found) =>
          if found == [] {
            ReportError(NoJobsFound);
          } else {
            ShowList(found);
          }
      }
    }

    /** The same branch without line 670: the row is consistent with the index afterwards. */
    method ApplyResultFixed(result: FetchResult)
      modifies this
      ensures mode == old(mode)
      ensures result.Failed? || result == Fetched([]) ==>
        && screen == ErrorNotice(if result.Failed? then "ERRO DA API: " + result.message else NoJobsFound)
        && jobs == old(jobs) && index == old(index) && !navVisible && newSearchVisible
        && formVisible == old(formVisible)
        && previousDisabled == old(previousDisabled) && nextDisabled == old(nextDisabled)
      ensures result.Fetched? && result.jobs != [] ==>
        && jobs == result.jobs && index == 0 && newSearchVisible && !formVisible
        && View(screen, previousDisabled, nextDisabled, navVisible)
           == AfterDisplay(jobs, 0, old(previousDisabled), old(nextDisabled))
      ensures NavigationConsistent()
    {
      match result {
        case Failed(message) =>
          ReportError("ERRO DA API: " + message);
        case Fetched(found) =>
          if found == [] {
            ReportError(NoJobsFound);
          } else {
            ShowFirst(found);
            AfterDisplayRow(found, 0, old(previousDisabled), old(nextDisabled));
          }
      }
    }

    /** The request and the branch on its outcome, as written. */
    method FetchAndApply(t: Transport)
      modifies this
      ensures mode == old(mode)
      ensures !(HoldsJobList(t) && t.body.field.jobs != []) ==>
        && screen == ErrorNotice(if HoldsJobList(t) then NoJobsFound else "ERRO DA API: " + FailureMessage(t))
        && jobs == old(jobs) && index == old(index) && !navVisible && newSearchVisible
        && formVisible == old(formVisible)
        && previousDisabled == old(previousDisabled) && nextDisabled == old(nextDisabled)
      ensures HoldsJobList(t) && t.body.field.jobs != [] ==>
        && jobs == ProjectAll(t.body.field.jobs) && index == 0 && newSearchVisible && !formVisible
        && View(screen, previousDisabled, nextDisabled, navVisible)
           == AfterDisplay(jobs, 0, old(previousDisabled), old(nextDisabled)).(navVisible := true)
    {
      var result := FetchAndTransform(t);
      ApplyResult(result);
    }

    /** The request and the branch on its outcome, without line 670. */
    method FetchAndApplyFixed(t: Transport)
      modifies this
      ensures mode == old(mode)
      ensures !(HoldsJobList(t) && t.body.field.jobs != []) ==>
        && screen == ErrorNotice(if HoldsJobList(t) then NoJobsFound else "ERRO DA API: " + FailureMessage(t))
        && jobs == old(jobs) && index == old(index) && !navVisible && newSearchVisible
        && formVisible == old(formVisible)
        && previousDisabled == old(previousDisabled) && nextDisabled == old(nextDisabled)
      ensures HoldsJobList(t) && t.body.field.jobs != [] ==>
        && jobs == ProjectAll(t.body.field.jobs) && index == 0 && newSearchVisible && !formVisible
        && View(screen, previousDisabled, nextDisabled, navVisible)
           == AfterDisplay(jobs, 0, old(previousDisabled), old(nextDisabled))
      ensures NavigationConsistent()
    {
      var result := FetchAndTransform(t);
      ApplyResultFixed(result);
    }

    /**
     * `search_jobs_gui` as written: a form that fails validation only
     * reports why, and nothing else changes; otherwise the request is made
     * and its outcome applied.
     */
    method Search(form: FormInput, t: Transport)
      modifies this
      ensures mode == old(mode)
      ensures Validate(form).Err? ==>
        && screen == ErrorNotice(ValidationMessage(Validate(form).error))
        && jobs == old(jobs) && index == old(index) && navVisible == old(navVisible)
        && previousDisabled == old(previousDisabled) && nextDisabled == old(nextDisabled)
        && newSearchVisible == old(newSearchVisible) && formVisible == old(formVisible)
      ensures Validate(form).Ok? && !(HoldsJobList(t) && t.body.field.jobs != []) ==>
        && screen == ErrorNotice(if HoldsJobList(t) then NoJobsFound else "ERRO DA API: " + FailureMessage(t))
        && jobs == old(jobs) && index == old(index) && !navVisible && newSearchVisible
        && formVisible == old(formVisible)
        && previousDisabled == old(previousDisabled) && nextDisabled == old(nextDisabled)
      ensures Validate(form).Ok? && HoldsJobList(t) && t.body.field.jobs != [] ==>
        && jobs == ProjectAll(t.body.field.jobs) && index == 0 && newSearchVisible && !formVisible
        && View(screen, previousDisabled, nextDisabled, navVisible)
           == AfterDisplay(jobs, 0, old(previousDisabled), old(nextDisabled)).(navVisible := true)
    {
      match Validate(form) {
        case Err(e) =>
          screen := ErrorNotice(ValidationMessage(e));
        case Ok(_) =>
          FetchAndApply(t);
      }
    }

    /** `search_jobs_gui` without line 670: the row is consistent with the index after every search. */
    method SearchFixed(form: FormInput, t: Transport)
      requires NavigationConsistent()
      modifies this
      ensures mode == old(mode)
      ensures Validate(form).Err? ==>
        && screen == ErrorNotice(ValidationMessage(Validate(form).error))
        && jobs == old(jobs) && index == old(index) && navVisible == old(navVisible)
        && previousDisabled == old(previousDisabled) && nextDisabled == old(nextDisabled)
        && newSearchVisible == old(newSearchVisible) && formVisible == old(formVisible)
      ensures Validate(form).Ok? && !(HoldsJobList(t) && t.body.field.jobs != []) ==>
        && screen == ErrorNotice(if HoldsJobList(t) then NoJobsFound else "ERRO DA API: " + FailureMessage(t))
        && jobs == old(jobs) && index == old(index) && !navVisible && newSearchVisible
        && formVisible == old(formVisible)
        && previousDisabled == old(previousDisabled) && nextDisabled == old(nextDisabled)
      ensures Validate(form).Ok? && HoldsJobList(t) && t.body.field.jobs != [] ==>
        && jobs == ProjectAll(t.body.field.jobs) && index == 0 && newSearchVisible && !formVisible
        && View(screen, previousDisabled, nextDisabled, navVisible)
           == AfterDisplay(jobs, 0, old(previousDisabled), old(nextDisabled))
      ensures NavigationConsistent()
    {
      match Validate(form) {
        case Err(e) =>
          screen := ErrorNotice(ValidationMessage(e));
        case Ok(_) =>
          FetchAndApplyFixed(t);
      }
    }
  }

  /**
   * A search whose single job has a null description: its card fails, yet
   * the row is shown with both buttons still enabled from start-up, and
   * "next" then moves the index to 1, past the end of a one-job list.
   */
  method StaleButtonsAfterFailedCard() returns (index: int, count: int)
    ensures count == 1 && index == 1
  {
    var session := new Session();
    session.SwitchMode(JobSearch);
    var job: Job := map["title" := Str("Dev"), "description" := Null];
    var found := Project(job);
    assert found.description == Null;
    session.ApplyResult(Fetched([found]));
    assert session.navVisible && !session.nextDisabled;
    session.Navigate(Next);
    index, count := session.index, |session.jobs|;
  }
}
