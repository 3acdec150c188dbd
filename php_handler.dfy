/**
 * The PHP revision's POST /clientes/{id}/transacoes path (index.php:41-80):
 * validate, choose the stored procedure, read back its reply.
 */
module PhpHandler {
  import opened Common
  import opened Validation
  import opened ResultTuple

  datatype Procedure = Creditar | Debitar

  /** The stored-procedure call the handler makes: SELECT proc($id, valor, descricao). */
  datatype ProcCall = ProcCall(proc: Procedure, id: nat, valor: int, descricao: Json)

  /** What the connection answers to that call. */
  datatype ProcReply = ConnectFailed | QueryFailed | NoResultColumn | ResultText(text: string)

  datatype Response = Status(code: int) | Balance(limite: int, saldo: int)

  /**
   * The call a body posted for client id (the digits the route matched)
   * leads to, or the status it is refused with before any storage call.
   */
  function PlanTransacao(id: nat, body: Body): (r: Result<ProcCall, int>)
    ensures r.Err? <==> !ValidarTransacao(body)
    ensures r.Err? ==> r.error == 422
    ensures r.Ok? ==> (r.value.proc == Creditar <==> body["tipo"] == JString("c"))
    ensures r.Ok? ==> (r.value.proc == Debitar <==> body["tipo"] in {JString("d"), JBool(true)})
    ensures r.Ok? ==> r.value.id == id && r.value.valor == body["valor"].i && r.value.descricao == body["descricao"]
  {
    if !ValidarTransacao(body) then Err(422)
    else
      var proc := if body["tipo"] == JString("c") then Creditar else Debitar;
      Ok(ProcCall(proc, id, body["valor"].i, body["descricao"]))
  }

  /** The response, given the body and the reply to the call it leads to. */
  function RespondTransacao(id: nat, body: Body, reply: ProcReply): (r: Response)
    ensures !ValidarTransacao(body) ==> r == Status(422)
    ensures ValidarTransacao(body) ==> (r.Balance? <==> reply.ResultText?)
    ensures ValidarTransacao(body) && reply.NoResultColumn? ==> r == Status(400)
    ensures ValidarTransacao(body) && (reply.ConnectFailed? || reply.QueryFailed?) ==> r == Status(500)
    ensures ValidarTransacao(body) && reply.ResultText? ==>
              r == Balance(ParseResult(reply.text).limite, ParseResult(reply.text).saldo)
  {
    match PlanTransacao(id, body)
    case Err(code) => Status(code)
    case Ok(_) =>
      match reply
      case ConnectFailed => Status(500)
      case QueryFailed => Status(500)
      case NoResultColumn => Status(400)
      case ResultText(text) =>
        var t := ParseResult(text);
        Balance(t.limite, t.saldo)
  }

  /** A refused body is answered the same whatever storage would have replied: it is never consulted. */
  lemma RefusedBeforeStorage(id: nat, body: Body, reply1: ProcReply, reply2: ProcReply)
    requires !ValidarTransacao(body)
    ensures RespondTransacao(id, body, reply1) == RespondTransacao(id, body, reply2) == Status(422)
  {
  }

  /** When the procedure replies "(saldo,limite)", the client receives exactly that limit and balance. */
  lemma RespondEchoesProcedure(id: nat, body: Body, saldo: int, limite: int)
    requires ValidarTransacao(body)
    ensures RespondTransacao(id, body, ResultText(RenderResult(saldo, limite))) == Balance(limite, saldo)
  {
    ParseRenderRoundTrip(saldo, limite);
  }
}
