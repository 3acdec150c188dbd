/**
 * The JavaScript revision's POST /clientes/{id}/transacoes path
 * (index.js:24-73): check valor, dispatch on tipo, apply, map a failure to
 * its status.
 */
module JsHandler {
  import opened Common
  import opened JsValues
  import opened ErrorStatus
  import opened Ledger

  /** The status written and, for a 200, the {limite, saldo} body. */
  datatype Response = Response(status: int, body: Option<Saldo>)

  /** body.tipo === "c" selects the credit; every other value, or none, the debit. */
  function TipoOf(body: JsObject): Tipo
  {
    if Field(body, "tipo") == Str("c") then Credit else Debit
  }

  /** The record a body with an integral valor asks to append. */
  function RecordOf(body: JsObject, nextId: nat, id: nat): Transacao
    requires IsInteger(Field(body, "valor"))
  {
    Transacao(nextId, id, Field(body, "descricao"), IntegerValue(Field(body, "valor")), TipoOf(body))
  }

  /**
   * A body that failed to parse is null, and reading body.valor from it
   * throws a TypeError inside the try block. The wrapper retryFn returns
   * fn() without awaiting it, so a rejection of insertCredito or
   * insertDebito passes through it untouched: each request applies once.
   */
  method PostTransacao(db: Database, cache: ClientCache, id: nat, body: Option<JsObject>)
    returns (resp: Response)
    requires db.Valid() && cache.Coherent(db)
    modifies db, cache
    ensures db.Valid() && cache.Coherent(db)
    ensures db.clientes == old(db.clientes)
    ensures resp.status == 200 <==> resp.body.Some?
    ensures resp.status == 200 || resp.status == 500 || 400 <= resp.status <= 499
    ensures body.None? ==>
              resp == Response(500, None) && db.history == old(db.history)
              && db.saldos == old(db.saldos) && db.transacoes == old(db.transacoes)
              && db.nextId == old(db.nextId) && cache.entries == old(cache.entries)
    ensures body.Some? && !IsInteger(Field(body.value, "valor")) ==>
              resp == Response(400, None) && db.history == old(db.history)
              && db.saldos == old(db.saldos) && db.transacoes == old(db.transacoes)
              && db.nextId == old(db.nextId) && cache.entries == old(cache.entries)
    ensures body.Some? && IsInteger(Field(body.value, "valor")) ==>
              var t := RecordOf(body.value, old(db.nextId), id);
              db.history == old(db.history) || db.history == old(db.history) + [t]
    ensures body.Some? && IsInteger(Field(body.value, "valor")) && id !in db.clientes ==>
              resp == Response(404, None) && db.saldos == old(db.saldos) && db.history == old(db.history)
              && db.transacoes == old(db.transacoes) && db.nextId == old(db.nextId)
              && cache.entries == old(cache.entries)
    ensures old(cache.entries).Keys <= cache.entries.Keys
    ensures body.Some? && IsInteger(Field(body.value, "valor")) && id in db.clientes
            && TipoOf(body.value) == Credit ==>
              var v := IntegerValue(Field(body.value, "valor"));
              resp == if id in old(db.saldos) then Response(200, Some(Saldo(db.clientes[id].limite, old(db.saldos)[id] + v)))
                      else Response(500, None)
    ensures body.Some? && IsInteger(Field(body.value, "valor")) && id in db.clientes
            && TipoOf(body.value) == Debit ==>
              var v := IntegerValue(Field(body.value, "valor"));
              resp == if id !in old(db.saldos) then Response(404, None)
                      else if old(db.saldos)[id] - v < DebitFloor then Response(422, None)
                      else Response(200, Some(Saldo(db.clientes[id].limite, old(db.saldos)[id] - v)))
    ensures resp.status == 200 ==> db.history == old(db.history) + [RecordOf(body.value, old(db.nextId), id)]
    ensures body.Some? && IsInteger(Field(body.value, "valor")) && id in db.clientes
            && TipoOf(body.value) == Credit ==>
              var v := IntegerValue(Field(body.value, "valor"));
              var t := RecordOf(body.value, old(db.nextId), id);
              db.transacoes == old(db.transacoes) + [t] && db.history == old(db.history) + [t]
              && db.nextId == old(db.nextId) + 1
              && db.saldos == if id in old(db.saldos) then old(db.saldos)[id := old(db.saldos)[id] + v] else old(db.saldos)
    ensures body.Some? && IsInteger(Field(body.value, "valor")) && id in db.clientes
            && TipoOf(body.value) == Debit ==>
              var v := IntegerValue(Field(body.value, "valor"));
              var t := RecordOf(body.value, old(db.nextId), id);
              if id !in old(db.saldos) || old(db.saldos)[id] - v < DebitFloor then
                db.transacoes == old(db.transacoes) && db.history == old(db.history)
                && db.nextId == old(db.nextId) && db.saldos == old(db.saldos)
              else
                db.transacoes == old(db.transacoes) + [t] && db.history == old(db.history) + [t]
                && db.nextId == old(db.nextId) + 1 && db.saldos == old(db.saldos)[id := old(db.saldos)[id] - v]
  {
    if body.None? {
      ParseCodeOfUndefined();
      var status := PostErrorStatus(NoCode);
      return Response(status, None);
    }
    var valor := Field(body.value, "valor");
    if !IsInteger(valor) {
      return Response(400, None);
    }
    var v := IntegerValue(valor);
    var descricao := Field(body.value, "descricao");
    var r: Result<Saldo, ErrorCode>;
    if Field(body.value, "tipo") == Str("c") {
      r := InsertCredito(db, cache, id, descricao, v);
    } else {
      r := InsertDebito(db, cache, id, descricao, v);
    }
    match r {
      case Ok(saldo) =>
        resp := Response(200, Some(saldo));
      case Err(e) =>
        EffectiveStatusOfOwnCodes();
        var status := PostErrorStatus(e);
        resp := Response(status, None);
    }
  }
}
