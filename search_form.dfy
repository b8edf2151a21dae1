/**
 * painel.py, `search_jobs_gui` before any request: the form checks and the
 * payload they produce.
 */
module SearchForm {
  import opened Results
  import opened Text

  /** The raw texts of the form fields; `remote` is the dropdown's value, None when nothing is chosen. */
  datatype FormInput = FormInput(
    apiUrl: string,
    apiKey: string,
    title: string,
    country: string,
    location: string,
    remote: Option<string>,
    hoursAgo: string)

  /** What the request is built from: the endpoint, the key and the JSON payload's fields. */
  datatype SearchRequest = SearchRequest(
    url: string,
    key: string,
    searchTerm: string,
    location: string,
    country: string,
    isRemote: Option<string>,
    hoursOld: int)

  datatype ValidationError = MissingApiSettings | MissingTitleOrCountry | HoursNegative | HoursNotInteger

  function ValidationMessage(e: ValidationError): string {
    match e
    case MissingApiSettings => "ERRO DE VALIDAÇÃO: A URL e a Chave de API são obrigatórias!"
    case MissingTitleOrCountry => "ERRO DE VALIDAÇÃO: Título da vaga e País são obrigatórios para a busca!"
    case HoursNegative => "ERRO DE VALIDAÇÃO: Horas atrás deve ser um número positivo ou 0."
    case HoursNotInteger =>
      "ERRO DE VALIDAÇÃO: 'Horas atrás' deve ser um número inteiro válido (ex: 0 para hoje, 24 para 24h atrás)."
  }

  /** The stripped hours text is acceptable: empty, or an integer that is not negative. */
  predicate HoursAccepted(hours: string) {
    hours == "" || (ParseInt(hours).Some? && ParseInt(hours).value >= 0)
  }

  /**
   * The checks in the order the source makes them; the first failing one
   * is reported and nothing is sent. Empty hours are sent as 0.
   */
  function Validate(f: FormInput): Result<SearchRequest, ValidationError> {
    var url, key := Strip(f.apiUrl), Strip(f.apiKey);
    var title, country, location := Strip(f.title), Strip(f.country), Strip(f.location);
    var hours := Strip(f.hoursAgo);
    if url == "" || key == "" then Err(MissingApiSettings)
    else if title == "" || country == "" then Err(MissingTitleOrCountry)
    else if hours != "" && ParseInt(hours).None? then Err(HoursNotInteger)
    else if hours != "" && ParseInt(hours).value < 0 then Err(HoursNegative)
    else Ok(SearchRequest(url, key, title, location, country, f.remote,
                          if hours == "" then 0 else ParseInt(hours).value))
  }

  /**
   * The checks run in the source's order and the first failing one is the
   * error reported; a form that passes sends its stripped texts in the
   * payload's fields and the dropdown's value as chosen.
   */
  lemma ValidateOutcome(f: FormInput)
    ensures var url, key, title, country, hours :=
              Strip(f.apiUrl), Strip(f.apiKey), Strip(f.title), Strip(f.country), Strip(f.hoursAgo);
      && (Validate(f) == Err(MissingApiSettings) <==> url == "" || key == "")
      && (Validate(f) == Err(MissingTitleOrCountry) <==>
            url != "" && key != "" && (title == "" || country == ""))
      && (Validate(f) == Err(HoursNotInteger) <==>
            url != "" && key != "" && title != "" && country != ""
            && hours != "" && ParseInt(hours).None?)
      && (Validate(f) == Err(HoursNegative) <==>
            url != "" && key != "" && title != "" && country != ""
            && ParseInt(hours).Some? && ParseInt(hours).value < 0)
    ensures Validate(f).Ok? <==>
              && Strip(f.apiUrl) != "" && Strip(f.apiKey) != ""
              && Strip(f.title) != "" && Strip(f.country) != ""
              && HoursAccepted(Strip(f.hoursAgo))
    ensures Validate(f).Ok? ==>
      var r := Validate(f).value;
      && r.hoursOld >= 0
      && (Strip(f.hoursAgo) == "" ==> r.hoursOld == 0)
      && (Strip(f.hoursAgo) != "" ==> ParseInt(Strip(f.hoursAgo)) == Some(r.hoursOld))
      && r.url == Strip(f.apiUrl) && r.key == Strip(f.apiKey)
      && r.searchTerm == Strip(f.title) && r.location == Strip(f.location) && r.country == Strip(f.country)
      && r.isRemote == f.remote
  {
    if Strip(f.hoursAgo) == "" {
      assert ParseInt(Strip(f.hoursAgo)).None?;
    }
  }

  /** Typing a whole number of hours sends exactly that number; a negative one is refused. */
  lemma HoursRoundTrip(f: FormInput, n: int)
    requires Strip(f.apiUrl) != "" && Strip(f.apiKey) != "" && Strip(f.title) != "" && Strip(f.country) != ""
    requires f.hoursAgo == IntToString(n)
    ensures n >= 0 ==> Validate(f).Ok? && Validate(f).value.hoursOld == n
    ensures n < 0 ==> Validate(f) == Err(HoursNegative)
  {
    StripIntToString(n);
    ParseIntOfIntToString(n);
  }
}
