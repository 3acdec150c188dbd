/**
 * The GET /clientes/{id}/extrato path of both revisions, from the rows the
 * LEFT JOIN of the client with its transactions returns, newest first
 * (index.php:92-127, index.js:82-111), and the PHP revision's choice of the
 * history-pruning cutoff (index.php:107-109).
 */
module Statement {
  import opened Common

  /**
   * One joined row. The transaction columns are absent when the client has
   * no transaction (the LEFT JOIN's placeholder row); the JavaScript query
   * does not select the transaction id.
   */
  datatype Row = Row(
    idTransacao: Option<int>,
    saldo: int,
    limite: int,
    descricao: Option<string>,
    valor: Option<int>,
    tipo: Option<string>,
    realizadaEm: Option<string>)

  datatype Balance = Balance(total: int, limite: int)

  datatype StatementView = StatementView(saldo: Balance, ultimasTransacoes: seq<Row>)

  const HistoryWindow: nat := 10

  /** PHP's empty() on a column read as text: null, "" and "0" are empty. */
  predicate PhpEmpty(v: Option<string>)
  {
    v.None? || v.value == "" || v.value == "0"
  }

  /** The PHP statement: 404 without rows, else row 0's balance and up to 10 rows. */
  function PhpStatement(rows: seq<Row>): (r: Result<StatementView, int>)
    ensures r.Err? <==> rows == []
    ensures r.Err? ==> r.error == 404
    ensures r.Ok? ==> r.value.saldo == Balance(rows[0].saldo, rows[0].limite)
    ensures r.Ok? ==> r.value.ultimasTransacoes <= rows && |r.value.ultimasTransacoes| <= HistoryWindow
    ensures r.Ok? ==> (r.value.ultimasTransacoes == [] <==> PhpEmpty(rows[0].realizadaEm))
    ensures r.Ok? && !PhpEmpty(rows[0].realizadaEm) ==> |r.value.ultimasTransacoes| == Min(HistoryWindow, |rows|)
  {
    if rows == [] then Err(404)
    else
      var ultimas := if !PhpEmpty(rows[0].realizadaEm) then rows[..Min(HistoryWindow, |rows|)] else [];
      Ok(StatementView(Balance(rows[0].saldo, rows[0].limite), ultimas))
  }

  /**
   * The argument cleanUp is called with: nothing when there are at most 10
   * rows, else the id of row 10, the newest row outside the window.
   */
  function CleanupArgument(rows: seq<Row>): (r: Option<Option<int>>)
    ensures r.Some? <==> |rows| > HistoryWindow
    ensures r.Some? ==> r.value == rows[HistoryWindow].idTransacao
  {
    if |rows| > HistoryWindow then Some(rows[HistoryWindow].idTransacao) else None
  }

  /**
   * rows.filter((r) => !!r.realizada_em): the driver gives the column as a
   * Date, which is truthy whenever the column is not null.
   */
  function KeepRealized(rows: seq<Row>): (kept: seq<Row>)
    ensures |kept| <= |rows|
    ensures forall x :: x in kept <==> x in rows && x.realizadaEm.Some?
  {
    if rows == [] then []
    else (if rows[0].realizadaEm.Some? then [rows[0]] else []) + KeepRealized(rows[1..])
  }

  /** When every row carries a transaction, the filter keeps them all, in order. */
  lemma {:induction false} KeepRealizedAllTimed(rows: seq<Row>)
    requires forall i :: 0 <= i < |rows| ==> rows[i].realizadaEm.Some?
    ensures KeepRealized(rows) == rows
  {
    if rows != [] {
      KeepRealizedAllTimed(rows[1..]);
    }
  }

  /** The filter keeps rows in their newest-first order: it commutes with concatenation. */
  lemma {:induction false} KeepRealizedAppend(a: seq<Row>, b: seq<Row>)
    ensures KeepRealized(a + b) == KeepRealized(a) + KeepRealized(b)
  {
    if a == [] {
      assert a + b == b;
    } else {
      assert (a + b)[0] == a[0];
      assert (a + b)[1..] == a[1..] + b;
      KeepRealizedAppend(a[1..], b);
    }
  }

  /** The JavaScript statement: 404 without rows, else row 0's balance and the rows with a timestamp. */
  function JsStatement(rows: seq<Row>): (r: Result<StatementView, int>)
    ensures r.Err? <==> rows == []
    ensures r.Err? ==> r.error == 404
    ensures r.Ok? ==> r.value.saldo == Balance(rows[0].saldo, rows[0].limite)
    ensures r.Ok? ==> forall x :: x in r.value.ultimasTransacoes <==> x in rows && x.realizadaEm.Some?
  {
    if rows == [] then Err(404) else Ok(StatementView(Balance(rows[0].saldo, rows[0].limite), KeepRealized(rows)))
  }

  /** A client without transactions gets an empty list from both revisions, not a placeholder row. */
  lemma NoTransactionsNoList(saldo: int, limite: int)
    ensures var placeholder := [Row(None, saldo, limite, None, None, None, None)];
            PhpStatement(placeholder) == JsStatement(placeholder) == Ok(StatementView(Balance(saldo, limite), []))
  {
  }

  /**
   * On rows that all carry a transaction the revisions agree on at most 10
   * rows (the JavaScript query's LIMIT 10); the PHP one also cuts 11 rows to 10.
   */
  lemma RevisionsAgree(rows: seq<Row>)
    requires 0 < |rows| <= HistoryWindow
    requires forall i :: 0 <= i < |rows| ==> rows[i].realizadaEm.Some? && rows[i].realizadaEm.value != "" && rows[i].realizadaEm.value != "0"
    ensures PhpStatement(rows) == JsStatement(rows)
  {
    KeepRealizedAllTimed(rows);
    assert rows[..Min(HistoryWindow, |rows|)] == rows;
    assert !PhpEmpty(rows[0].realizadaEm);
  }
}
