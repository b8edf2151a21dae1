/**
 * painel.py, `display_single_job`: how one transformed job becomes a card,
 * with the shortened description, the "Ver Mais..." button and the link test.
 */
module JobCard {
  import opened Results
  import opened Text
  import opened PyValues
  import opened JobTransform

  /** Characters of the description shown on the card before "...". */
  const SummaryLimit := 250

  datatype JobLink = Link(url: string) | LinkUnavailable

  /** The texts a rendered card holds; `seeMore` is the full description behind "Ver Mais...". */
  datatype Card = Card(
    title: string,
    link: JobLink,
    company: string,
    location: string,
    remote: string,
    posted: string,
    salary: string,
    jobType: string,
    summary: string,
    seeMore: Option<string>)

  /**
   * The link test `job_url and isinstance(job_url, str) and
   * job_url.strip().startswith('http')`; the link keeps the unstripped URL.
   */
  function LinkFor(url: Value): (l: JobLink)
    ensures l.Link? <==> url.Str? && StartsWith(Strip(url.s), "http")
    ensures l.Link? ==> l.url == url.s
  {
    if Truthy(url) && url.Str? && StartsWith(Strip(url.s), "http") then Link(url.s) else LinkUnavailable
  }

  /** The description as the card shows it. */
  function Summary(description: string): string {
    if |description| > SummaryLimit then description[..SummaryLimit] + "..." else description
  }

  /**
   * The card for one job, or None when building it raises: `len()` of a
   * description that is not a string (a null description, for one) raises
   * TypeError, which the `except` at the end of `display_single_job` catches.
   */
  function RenderCard(job: DisplayJob): Option<Card> {
    if !job.description.Str? then None
    else
      var full := job.description.s;
      Some(Card(
        PyStr(job.title),
        LinkFor(job.jobUrl),
        PyStr(job.company),
        PyStr(job.location),
        if Truthy(job.isRemote) then "Sim \U{2705}" else "Não \U{274C}",
        PyStr(job.datePosted),
        job.salary,
        PyStr(job.jobType),
        Summary(full),
        if |full| > SummaryLimit then Some(full) else None))
  }

  /** A card is drawn exactly when the description is a string. */
  lemma RenderFailsIff(job: DisplayJob)
    ensures RenderCard(job).None? <==> !job.description.Str?
  {
  }

  /**
   * A description over 250 characters is cut to its first 250 plus "..."
   * (253 in all) and "Ver Mais..." carries the whole text; a shorter one is
   * shown unchanged with no button. Either way the full text is on the card.
   */
  lemma CardDescription(job: DisplayJob)
    requires job.description.Str?
    ensures var c, full := RenderCard(job).value, job.description.s;
      && (|full| > SummaryLimit ==>
            |c.summary| == SummaryLimit + 3 && c.summary == full[..SummaryLimit] + "..." && c.seeMore == Some(full))
      && (|full| <= SummaryLimit ==> c.summary == full && c.seeMore == None)
      && (if c.seeMore.Some? then c.seeMore.value else c.summary) == full
  {
  }

  /** The card links to the job exactly when its URL is a string that starts with `http` once stripped. */
  lemma CardLink(job: DisplayJob)
    requires job.description.Str?
    ensures RenderCard(job).value.link.Link? <==> job.jobUrl.Str? && StartsWith(Strip(job.jobUrl.s), "http")
  {
  }

  /** The card says "Sim" for remote jobs exactly when the record's remote flag is truthy. */
  lemma CardRemote(job: DisplayJob)
    requires job.description.Str?
    ensures StartsWith(RenderCard(job).value.remote, "Sim") <==> Truthy(job.isRemote)
  {
    var remote := RenderCard(job).value.remote;
    assert remote[0] == (if Truthy(job.isRemote) then 'S' else 'N');
  }
}
