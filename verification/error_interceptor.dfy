/**
 * The inbound stage of the request mediator: a failed exchange is classified
 * by its HTTP status into a fixed message and always re-thrown as a normalized
 * error. Status 401 also asks for a logout and 403 for a navigation to the
 * unauthorized page; these requests are returned as effects.
 */
module ErrorInterceptor {
  import opened Text
  import opened Effects

  /** The failure `next` reports: its status (0 when no response arrived) and its message. */
  datatype HttpErrorResponse = HttpErrorResponse(status: int, message: string)

  /** The error re-thrown to the caller: the computed message, the original status and the original error. */
  datatype NormalizedError = NormalizedError(message: string, status: int, originalError: HttpErrorResponse)

  datatype Response<T> = Ok(value: T) | Failed(error: HttpErrorResponse)
  datatype Outcome<T> = Delivered(value: T) | Thrown(error: NormalizedError)
  datatype Handled<T> = Handled(outcome: Outcome<T>, effects: seq<Effect>)

  const UnauthorizedRoute := ["/unauthorized"]

  /** The statuses with a fixed message, and those messages. */
  function FixedMessages(): map<int, string> {
    map[
      0 := "Erro de conexão. Verifique sua internet.",
      400 := "Dados inválidos enviados.",
      401 := "Não autorizado. Faça login novamente.",
      403 := "Acesso negado.",
      404 := "Recurso não encontrado.",
      500 := "Erro interno do servidor.",
      503 := "Serviço temporariamente indisponível."
    ]
  }

  /** The message for any other status: the status and the original message. */
  function GenericMessage(status: int, message: string): (r: string)
    ensures StartsWith(r, "Erro ")
  {
    "Erro " + IntToDecimal(status) + ": " + message
  }

  /** The switch on `error.status`. */
  function StatusMessage(error: HttpErrorResponse): (r: string)
    ensures error.status in FixedMessages() ==> r == FixedMessages()[error.status]
    ensures error.status !in FixedMessages() ==> r == GenericMessage(error.status, error.message)
  {
    match error.status
    case 0 => "Erro de conexão. Verifique sua internet."
    case 400 => "Dados inválidos enviados."
    case 401 => "Não autorizado. Faça login novamente."
    case 403 => "Acesso negado."
    case 404 => "Recurso não encontrado."
    case 500 => "Erro interno do servidor."
    case 503 => "Serviço temporariamente indisponível."
    case _ => GenericMessage(error.status, error.message)
  }

  /** The session effects a status asks for: a logout on 401, the unauthorized page on 403, nothing otherwise. */
  function StatusEffects(status: int): (effects: seq<Effect>)
    ensures Occurrences(effects, CallLogout) == (if status == 401 then 1 else 0)
    ensures Occurrences(effects, Navigate(UnauthorizedRoute)) == (if status == 403 then 1 else 0)
    ensures status != 401 && status != 403 ==> effects == []
    ensures |effects| <= 1
  {
    if status == 401 then [CallLogout]
    else if status == 403 then [Navigate(UnauthorizedRoute)]
    else []
  }

  /** `errorInterceptor` applied to what `next` returned: successes pass, failures are re-thrown normalized. */
  function Handle<T>(response: Response<T>): (h: Handled<T>)
    ensures response.Ok? ==> h == Handled(Delivered(response.value), [])
    ensures response.Failed? ==>
      && h.outcome.Thrown?
      && h.outcome.error.message == StatusMessage(response.error)
      && h.outcome.error.status == response.error.status
      && h.outcome.error.originalError == response.error
      && h.effects == StatusEffects(response.error.status)
  {
    match response
    case Ok(v) => Handled(Delivered(v), [])
    case Failed(e) => Handled(Thrown(NormalizedError(StatusMessage(e), e.status, e)), StatusEffects(e.status))
  }

  /** No generic message coincides with a fixed one, so the message tells which class a failure fell in. */
  lemma GenericMessagesAreNotFixed(e: HttpErrorResponse, status: int, message: string)
    requires e.status in FixedMessages()
    ensures StatusMessage(e) != GenericMessage(status, message)
  {
    var r := GenericMessage(status, message);
    assert r[5] == IntToDecimal(status)[0];
    var f := StatusMessage(e);
    assert f[5] in {'d', ' ', 'u', 'o', 's', 'i', 'ç'};
  }

  /** A generic message names its status and its original message unambiguously. */
  lemma GenericMessageInjective(a: int, ma: string, b: int, mb: string)
    requires GenericMessage(a, ma) == GenericMessage(b, mb)
    ensures a == b && ma == mb
  {
    var da, db := IntToDecimal(a), IntToDecimal(b);
    var r := GenericMessage(a, ma);
    assert r == "Erro " + da + ": " + ma;
    assert r == "Erro " + db + ": " + mb;
    assert r[5 + |da|] == ':';
    assert r[5 + |db|] == ':';
    assert |da| == |db|;
    assert da == r[5..5 + |da|] == db;
    IntToDecimalInjective(a, b);
    assert ma == r[5 + |da| + 2..] == mb;
  }
}
