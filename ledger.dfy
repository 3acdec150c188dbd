/**
 * The store both revisions write to, and the JavaScript revision's write
 * path: insertCredito, insertDebito and the getCliente cache
 * (index.js:162-260), with the PHP revision's cleanUp delete
 * (index.php:161-185). Each SQL transaction between BEGIN and COMMIT is one
 * atomic step; the FOR UPDATE row lock becomes sequential execution.
 */
module Ledger {
  import opened Common
  import opened JsValues
  import opened ErrorStatus
  import Statement

  /** insertDebito's floor: a literal, whatever the client's limite is (index.js:217). */
  const DebitFloor: int := -1000

  datatype Tipo = Credit | Debit

  /** A row of the clientes table; it never changes once provisioned. */
  datatype Cliente = Cliente(id: nat, limite: int)

  /** A row of the transacoes table; id is the serial column, descricao is stored as the body gave it. */
  datatype Transacao = Transacao(id: nat, clienteId: nat, descricao: JsValue, valor: int, tipo: Tipo)

  /** The {limite, saldo} body a successful transaction is answered with. */
  datatype Saldo = Saldo(limite: int, saldo: int)

  function Signed(t: Transacao): int
  {
    if t.tipo == Credit then t.valor else -t.valor
  }

  /** The net effect on client c's balance of the transactions in txs. */
  function Net(txs: seq<Transacao>, c: nat): int
  {
    if txs == [] then 0
    else Net(txs[..|txs| - 1], c) + (if txs[|txs| - 1].clienteId == c then Signed(txs[|txs| - 1]) else 0)
  }

  lemma NetAppend(txs: seq<Transacao>, t: Transacao)
    ensures forall c :: Net(txs + [t], c) == Net(txs, c) + (if t.clienteId == c then Signed(t) else 0)
  {
  }

  /** The balance row of client c, if the saldos table has one. */
  function SaldoRow(saldos: map<nat, int>, c: nat): Option<int>
  {
    if c in saldos then Some(saldos[c]) else None
  }

  /** What insertDebito decides once it has looked for the balance row. */
  function DebitDecision(current: Option<int>, valor: int): (r: Result<int, ErrorCode>)
    ensures current.None? ==> r == Err(NumCode(404))
    ensures current.Some? ==> (r.Ok? <==> current.value - valor >= DebitFloor)
    ensures current.Some? && r.Err? ==> r.error == NumCode(422)
    ensures r.Ok? ==> r.value == current.value - valor && r.value >= DebitFloor
  {
    match current
    case None => Err(NumCode(404))
    case Some(v) => if v - valor < DebitFloor then Err(NumCode(422)) else Ok(v - valor)
  }

  /** A sequence of debits against one balance, in the order the row lock admits them. */
  datatype Replay = Replay(final: int, accepted: seq<bool>)

  function ApplyDebits(balance: int, valores: seq<int>): Replay
    decreases |valores|
  {
    if valores == [] then Replay(balance, [])
    else
      match DebitDecision(Some(balance), valores[0])
      case Ok(b) =>
        var rest := ApplyDebits(b, valores[1..]);
        Replay(rest.final, [true] + rest.accepted)
      case Err(_) =>
        var rest := ApplyDebits(balance, valores[1..]);
        Replay(rest.final, [false] + rest.accepted)
  }

  /** The sum of the debits the flags mark as accepted. */
  function AcceptedSum(valores: seq<int>, accepted: seq<bool>): int
    requires |valores| == |accepted|
  {
    if valores == [] then 0
    else (if accepted[0] then valores[0] else 0) + AcceptedSum(valores[1..], accepted[1..])
  }

  /**
   * Serialised debits: the final balance is the starting one less exactly
   * the accepted debits, and it never ends below the floor.
   */
  lemma {:induction false} SerializedDebits(balance: int, valores: seq<int>)
    requires balance >= DebitFloor
    ensures var r := ApplyDebits(balance, valores);
            |r.accepted| == |valores|
            && r.final == balance - AcceptedSum(valores, r.accepted)
            && r.final >= DebitFloor
    decreases |valores|
  {
    if valores != [] {
      var d := DebitDecision(Some(balance), valores[0]);
      if d.Ok? {
        SerializedDebits(d.value, valores[1..]);
      } else {
        SerializedDebits(balance, valores[1..]);
      }
    }
  }

  /** A rejected debit leaves the balance to the ones after it: 0, then 1000, then 1 ends at -1000. */
  lemma DebitExample()
    ensures ApplyDebits(0, [1000, 1]) == Replay(-1000, [true, false])
  {
  }

  /** The rows DELETE FROM transacoes WHERE id <= cutoff AND cliente_id = c leaves, in order. */
  function Prune(txs: seq<Transacao>, c: nat, cutoff: int): (kept: seq<Transacao>)
    ensures |kept| <= |txs|
    ensures forall t :: t in kept <==> t in txs && !(t.id <= cutoff && t.clienteId == c)
  {
    if txs == [] then []
    else (if txs[0].id <= cutoff && txs[0].clienteId == c then [] else [txs[0]]) + Prune(txs[1..], c, cutoff)
  }

  /** The transactions of client d, in table order. */
  function OfClient(txs: seq<Transacao>, d: nat): seq<Transacao>
  {
    if txs == [] then [] else (if txs[0].clienteId == d then [txs[0]] else []) + OfClient(txs[1..], d)
  }

  /** The delete leaves every other client's transactions exactly as they were. */
  lemma {:induction false} PruneSparesOtherClients(txs: seq<Transacao>, c: nat, cutoff: int, d: nat)
    requires d != c
    ensures OfClient(Prune(txs, c, cutoff), d) == OfClient(txs, d)
  {
    if txs != [] {
      PruneSparesOtherClients(txs[1..], c, cutoff, d);
      var head := if txs[0].id <= cutoff && txs[0].clienteId == c then [] else [txs[0]];
      OfClientAppend(head, Prune(txs[1..], c, cutoff), d);
    }
  }

  lemma {:induction false} OfClientAppend(a: seq<Transacao>, b: seq<Transacao>, d: nat)
    ensures OfClient(a + b, d) == OfClient(a, d) + OfClient(b, d)
  {
    if a == [] {
      assert a + b == b;
    } else {
      assert (a + b)[0] == a[0];
      assert (a + b)[1..] == a[1..] + b;
      OfClientAppend(a[1..], b, d);
    }
  }

  predicate IdsIncreasing(txs: seq<Transacao>)
  {
    forall i, j :: 0 <= i < j < |txs| ==> txs[i].id < txs[j].id
  }

  /** The delete keeps the serial order of what it leaves. */
  lemma {:induction false} PruneKeepsIdOrder(txs: seq<Transacao>, c: nat, cutoff: int)
    requires IdsIncreasing(txs)
    ensures IdsIncreasing(Prune(txs, c, cutoff))
  {
    if txs != [] {
      var rest := Prune(txs[1..], c, cutoff);
      PruneKeepsIdOrder(txs[1..], c, cutoff);
      forall t | t in rest
        ensures txs[0].id < t.id
      {
        var j :| 0 <= j < |txs[1..]| && txs[1..][j] == t;
        assert txs[j + 1] == t;
      }
    }
  }

  /**
   * Pruning at the cutoff the statement picks keeps the ten rows it shows
   * and deletes the client's older ones, given rows that carry ids in the
   * newest-first order of the statement query.
   */
  lemma CutoffKeepsWindow(rows: seq<Statement.Row>, txs: seq<Transacao>, c: nat)
    requires |rows| > Statement.HistoryWindow
    requires forall i :: 0 <= i < |rows| ==> rows[i].idTransacao.Some?
    requires forall i, j :: 0 <= i < j < |rows| ==> rows[i].idTransacao.value > rows[j].idTransacao.value
    ensures forall t, i :: t in txs && 0 <= i < Statement.HistoryWindow && rows[i].idTransacao == Some(t.id) ==>
              t in Prune(txs, c, Statement.CleanupArgument(rows).value.value)
    ensures forall t, i :: t in txs && t.clienteId == c && Statement.HistoryWindow <= i < |rows| && rows[i].idTransacao == Some(t.id) ==>
              t !in Prune(txs, c, Statement.CleanupArgument(rows).value.value)
  {
  }

  /** PHP's empty() on the id text: a missing id and "0" are empty. */
  predicate IdEmpty(idTransacao: Option<int>)
  {
    idTransacao.None? || idTransacao.value == 0
  }

  /** The clientes, saldos and transacoes tables. */
  class Database {
    var clientes: map<nat, Cliente>
    var saldos: map<nat, int>
    var transacoes: seq<Transacao>
    /** The next value of the transacoes.id serial. */
    var nextId: nat
    /** The balances the tables were provisioned with. */
    ghost var opening: map<nat, int>
    /** Every transaction ever inserted, including the ones cleanUp has deleted since. */
    ghost var history: seq<Transacao>

    ghost predicate Valid()
      reads this
    {
      && (forall k :: k in clientes ==> clientes[k].id == k)
      && IdsIncreasing(transacoes)
      && (forall t :: t in transacoes ==> t.id < nextId && t in history)
      && saldos.Keys <= opening.Keys
      && (forall c :: c in saldos ==> saldos[c] == opening[c] + Net(history, c))
    }

    /** No balance is below insertDebito's floor. */
    ghost predicate AboveFloor()
      reads this
    {
      forall c :: c in saldos ==> saldos[c] >= DebitFloor
    }

    constructor (clientes: map<nat, Cliente>, saldos: map<nat, int>)
      requires forall k :: k in clientes ==> clientes[k].id == k
      ensures Valid()
      ensures this.clientes == clientes && this.saldos == saldos && opening == saldos
      ensures transacoes == [] && history == []
    {
      this.clientes := clientes;
      this.saldos := saldos;
      transacoes := [];
      nextId := 1;
      opening := saldos;
      history := [];
    }

    /**
     * cleanUp($client_id, $id_transacao) once its timer fires: nothing for an
     * empty id or a failed connection, else the delete of the client's
     * transactions up to the cutoff. Balances are untouched, so they still
     * reflect the deleted transactions.
     */
    method CleanUp(clienteId: nat, idTransacao: Option<int>, connected: bool)
      requires Valid()
      modifies this
      ensures Valid()
      ensures clientes == old(clientes) && saldos == old(saldos) && nextId == old(nextId)
      ensures history == old(history) && opening == old(opening)
      ensures transacoes == if IdEmpty(idTransacao) || !connected then old(transacoes)
                            else Prune(old(transacoes), clienteId, idTransacao.value)
    {
      if IdEmpty(idTransacao) {
        return;
      }
      if !connected {
        return;
      }
      PruneKeepsIdOrder(transacoes, clienteId, idTransacao.value);
      transacoes := Prune(transacoes, clienteId, idTransacao.value);
    }
  }

  /** The module-level clientesCache dictionary of index.js. */
  class ClientCache {
    var entries: map<nat, Cliente>

    /** Every cached record is the clientes row of its id. */
    ghost predicate Coherent(db: Database)
      reads this, db
    {
      forall k :: k in entries ==> k in db.clientes && entries[k] == db.clientes[k]
    }

    constructor ()
      ensures entries == map[]
    {
      entries := map[];
    }

    /** getCliente: the cached record, else the clientes row, cached from then on, else a 404. */
    method GetCliente(db: Database, id: nat) returns (r: Result<Cliente, ErrorCode>)
      requires Coherent(db)
      modifies this
      ensures Coherent(db)
      ensures id in old(entries) ==> r == Ok(old(entries)[id]) && entries == old(entries)
      ensures id !in old(entries) && id in db.clientes ==>
                r == Ok(db.clientes[id]) && entries == old(entries)[id := db.clientes[id]]
      ensures id !in old(entries) && id !in db.clientes ==> r == Err(NumCode(404)) && entries == old(entries)
      ensures r.Ok? <==> id in db.clientes
      ensures r.Ok? ==> r.value == db.clientes[id] && id in entries && entries[id] == r.value
      ensures old(entries).Keys <= entries.Keys
    {
      if id in entries {
        return Ok(entries[id]);
      }
      if id !in db.clientes {
        return Err(NumCode(404));
      }
      entries := entries[id := db.clientes[id]];
      r := Ok(entries[id]);
    }
  }

  /**
   * insertCredito: the record is inserted and the balance raised by valor
   * in one transaction. Without a balance row the UPDATE returns no row; the
   * handler reads it only after COMMIT, so the record stays and the call
   * fails with a TypeError, which carries no code.
   */
  method InsertCredito(db: Database, cache: ClientCache, id: nat, descricao: JsValue, valor: int)
    returns (r: Result<Saldo, ErrorCode>)
    requires db.Valid() && cache.Coherent(db)
    modifies db, cache
    ensures db.Valid() && cache.Coherent(db)
    ensures db.clientes == old(db.clientes) && db.opening == old(db.opening)
    ensures id !in db.clientes ==>
              r == Err(NumCode(404)) && db.saldos == old(db.saldos) && db.transacoes == old(db.transacoes)
              && db.history == old(db.history) && db.nextId == old(db.nextId) && cache.entries == old(cache.entries)
    ensures old(cache.entries).Keys <= cache.entries.Keys
    ensures id in db.clientes ==>
              var t := Transacao(old(db.nextId), id, descricao, valor, Credit);
              db.transacoes == old(db.transacoes) + [t] && db.history == old(db.history) + [t]
              && db.nextId == old(db.nextId) + 1
    ensures id in db.clientes && id in old(db.saldos) ==>
              r == Ok(Saldo(db.clientes[id].limite, old(db.saldos)[id] + valor))
              && db.saldos == old(db.saldos)[id := old(db.saldos)[id] + valor]
    ensures id in db.clientes && id !in old(db.saldos) ==> r == Err(NoCode) && db.saldos == old(db.saldos)
    ensures old(db.AboveFloor()) && valor >= 0 ==> db.AboveFloor()
  {
    var cliente := cache.GetCliente(db, id);
    if cliente.Err? {
      return Err(cliente.error);
    }
    var t := Transacao(db.nextId, id, descricao, valor, Credit);
    NetAppend(db.history, t);
    db.transacoes := db.transacoes + [t];
    db.history := db.history + [t];
    db.nextId := db.nextId + 1;
    if id !in db.saldos {
      return Err(NoCode);
    }
    db.saldos := db.saldos[id := db.saldos[id] + valor];
    r := Ok(Saldo(cliente.value.limite, db.saldos[id]));
  }

  /**
   * insertDebito: the balance row is read under lock; a missing row is a
   * 404 and a result below the floor a 422, both with nothing written;
   * otherwise the record is inserted and the balance overwritten.
   */
  method InsertDebito(db: Database, cache: ClientCache, id: nat, descricao: JsValue, valor: int)
    returns (r: Result<Saldo, ErrorCode>)
    requires db.Valid() && cache.Coherent(db)
    modifies db, cache
    ensures db.Valid() && cache.Coherent(db)
    ensures db.clientes == old(db.clientes) && db.opening == old(db.opening)
    ensures id !in db.clientes ==> r == Err(NumCode(404)) && cache.entries == old(cache.entries)
    ensures old(cache.entries).Keys <= cache.entries.Keys
    ensures id in db.clientes ==>
              var d := DebitDecision(SaldoRow(old(db.saldos), id), valor);
              (r.Ok? <==> d.Ok?)
              && (r.Err? ==> r.error == d.error)
              && (r.Ok? ==> r.value == Saldo(db.clientes[id].limite, d.value))
    ensures r.Err? ==>
              db.saldos == old(db.saldos) && db.transacoes == old(db.transacoes)
              && db.history == old(db.history) && db.nextId == old(db.nextId)
    ensures r.Ok? ==>
              var t := Transacao(old(db.nextId), id, descricao, valor, Debit);
              db.transacoes == old(db.transacoes) + [t] && db.history == old(db.history) + [t]
              && db.nextId == old(db.nextId) + 1
              && db.saldos == old(db.saldos)[id := r.value.saldo]
    ensures r.Ok? ==> r.value.saldo >= DebitFloor
    ensures old(db.AboveFloor()) ==> db.AboveFloor()
  {
    var cliente := cache.GetCliente(db, id);
    if cliente.Err? {
      return Err(cliente.error);
    }
    var limite := cliente.value.limite;
    if id !in db.saldos {
      return Err(NumCode(404));
    }
    var saldo := db.saldos[id] - valor;
    if saldo < DebitFloor {
      return Err(NumCode(422));
    }
    var t := Transacao(db.nextId, id, descricao, valor, Debit);
    NetAppend(db.history, t);
    db.transacoes := db.transacoes + [t];
    db.history := db.history + [t];
    db.nextId := db.nextId + 1;
    db.saldos := db.saldos[id := saldo];
    r := Ok(Saldo(limite, saldo));
  }
}
