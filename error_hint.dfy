/**
 * vagas.py, `fazer_requisicao`: after an HTTP error, the API's `detail`
 * text is echoed and may select a hint for the user.
 */
module ErrorHint {
  import opened Results
  import opened Text

  /** The hint chosen for an error detail. */
  datatype Hint = RateLimited | KeyRejected | NoHint

  const RateLimitMark := "Muitas requisições"
  const InvalidMark := "inválida"
  const ExpiredMark := "expirada"

  /** The detail printed when the error reply has no `detail` key. */
  const NoDetail := "Detalhe não disponível."

  /** The rate-limit test comes first; otherwise an invalid or expired key; otherwise nothing. */
  function HintFor(detail: string): Hint {
    if Contains(detail, RateLimitMark) then RateLimited
    else if Contains(detail, InvalidMark) || Contains(detail, ExpiredMark) then KeyRejected
    else NoHint
  }

  /** The line a hint adds, if any. */
  function HintLine(hint: Hint): (lines: seq<string>)
    ensures |lines| <= 1
  {
    match hint
    case RateLimited => ["Parece que o limite de requisições foi atingido. Tente novamente em breve!"]
    case KeyRejected => ["Sua chave de API está inválida ou expirada. Verifique-a e tente novamente!"]
    case NoHint => []
  }

  /** What is printed for an error reply's detail (None when the reply has none). */
  function DetailLines(detail: Option<string>): (lines: seq<string>)
    ensures 1 <= |lines| <= 2
    ensures lines[0] == "Detalhes do erro da API: " + (if detail.Some? then detail.value else NoDetail)
    ensures lines[1..] == HintLine(HintFor(if detail.Some? then detail.value else NoDetail))
  {
    DetailTextLines(if detail.Some? then detail.value else NoDetail)
  }

  /** The detail line for a known text, then its hint line if any. */
  function DetailTextLines(text: string): (lines: seq<string>)
    ensures 1 <= |lines| <= 2 && lines[0] == "Detalhes do erro da API: " + text
    ensures lines[1..] == HintLine(HintFor(text))
  {
    ["Detalhes do erro da API: " + text] + HintLine(HintFor(text))
  }

  /**
   * The hint read against substring occurrence: the rate-limit words win
   * wherever they appear; the key hint needs one of its words and no
   * rate-limit words; otherwise there is no hint.
   */
  lemma HintIff(detail: string)
    ensures HintFor(detail) == RateLimited <==> exists i :: OccursAt(detail, RateLimitMark, i)
    ensures HintFor(detail) == KeyRejected <==>
              && (forall i :: !OccursAt(detail, RateLimitMark, i))
              && ((exists i :: OccursAt(detail, InvalidMark, i)) || (exists i :: OccursAt(detail, ExpiredMark, i)))
    ensures HintFor(detail) == NoHint <==>
              forall p, i | p in {RateLimitMark, InvalidMark, ExpiredMark} :: !OccursAt(detail, p, i)
  {
    ContainsIffOccurs(detail, RateLimitMark);
    ContainsIffOccurs(detail, InvalidMark);
    ContainsIffOccurs(detail, ExpiredMark);
  }

  /** Appending text never withdraws a hint's words: a rate-limit detail stays rate-limited. */
  lemma RateLimitSticks(detail: string, more: string)
    requires HintFor(detail) == RateLimited
    ensures HintFor(detail + more) == RateLimited
    ensures HintFor(more + detail) == RateLimited
  {
    HintIff(detail);
    var i :| OccursAt(detail, RateLimitMark, i);
    assert (detail + more)[i..i + |RateLimitMark|] == detail[i..i + |RateLimitMark|];
    assert (more + detail)[|more| + i..|more| + i + |RateLimitMark|] == detail[i..i + |RateLimitMark|];
    assert OccursAt(detail + more, RateLimitMark, i);
    assert OccursAt(more + detail, RateLimitMark, |more| + i);
    HintIff(detail + more);
    HintIff(more + detail);
  }
}
