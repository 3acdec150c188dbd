# Ledger model of the rinha-2024-q1 PHP/Swoole and Node services

This Dafny project models the core of a small ledger service that exists in two
revisions: a PHP/Swoole server (`index.php`) and a Node server (`index.js`).
Clients (`clientes`) hold a limit (`limite`) and a balance (`saldo`). They post
credit (`c`) and debit (`d`) transactions (`transacoes`) and read a statement
(`extrato`) of their latest ten transactions.

The model covers these parts:

- **Validation** (`validation.dfy`). The PHP revision's `validarTransacao`, over
  the values `json_decode` yields. This includes PHP 8's loose `in_array`
  comparison: a JSON `true` is accepted as `tipo`.
- **PHP write path** (`php_handler.dfy`, `result_tuple.dfy`). The choice between
  the `creditar` and `debitar` procedures. The reading of their
  `"(saldo,limite)"` reply with `trim`, `explode` and `(int)`. A round trip
  proves that field 0 is the balance and field 1 is the limit.
- **Ledger** (`ledger.dfy`). The tables are a `Database` class: `clientes`,
  `saldos`, `transacoes` and the serial id. The `getCliente` cache is a
  `ClientCache` class. `insertCredito` and `insertDebito` are methods that
  change both. Each SQL transaction is one atomic step. The `FOR UPDATE` lock
  becomes sequential execution.
  - Invariant: every balance equals its opening balance plus the net of every
    transaction ever inserted. This holds even after `cleanUp` deletes rows.
  - Invariant: transaction ids keep increasing.
  - The PHP `cleanUp` delete is a method on the same class.
- **JS write path** (`js_handler.dfy`). The Node POST path: `Number.isInteger`
  check, dispatch on `tipo`, apply, and the error-to-status mapping.
- **Error status** (`error_status.dfy`). `parseInt` over error codes, and the
  catch block's status computation. The 503 and 504 it assigns to SQLSTATEs
  `40P01` and `25P02` can never be returned, because the range check that
  follows rewrites them to 500.
- **Retry** (`retry.dfy`). `retryFn`'s classification and linear backoff, as a
  recursive function over the outcome of each attempt.
- **Statement** (`statement.dfy`). Shaping of the newest-first joined rows in
  both revisions, and the PHP choice of the pruning cutoff.

The service's stated rules say three things: a balance never goes below
`-limite`, amounts are positive, and descriptions are non-empty. Where the code
departs from these rules, the model follows the code:

- `insertDebito` rejects a result below the literal -1000. It does not compare
  against `-limite` (index.js:217). So the floor the model keeps is -1000 for
  every client.
- Neither `validarTransacao` nor the Node handler checks the sign of `valor`;
  what the stored procedures or table constraints do with it is not part of
  this model. In the Node revision a credit with a negative `valor` can take a
  balance below the floor, so `InsertCredito` keeps `AboveFloor` only for
  `valor >= 0`.
- An empty description is accepted. Only more than 10 letters and digits are
  refused. `"abc!!!!!!!!!!"` has only 3 of them, so it is accepted.
- In the Node revision, a credit for a client without a balance row still
  commits its record. It then fails with a `TypeError` (status 500), because the
  returned row is read only after `COMMIT` (index.js:178-180).
- Pruning in the PHP revision is a plain delayed delete. No pending timer is
  cancelled or replaced.

## Model

| member | source | states |
|---|---|---|
| `Decimal.StripNonAlnum` | index.php:154 | the stripped text keeps only letters and digits and is no longer than the input |
| `Decimal.StripNonAlnumAppend` | index.php:154 | stripping works character by character, so it distributes over concatenation |
| `Decimal.IntToStringAlnum` | index.php:154 | an integer description keeps only the digits of its magnitude; the sign is stripped |
| `Validation.ValidarTransacao` | index.php:144-159 | accepted iff valor is a JSON integer, tipo is "c", "d" or `true` (PHP 8 loose `in_array`), and descricao is set with at most 10 letters and digits |
| `Validation.ValidarIgnoresSign` | index.php:146-148 | the verdict does not depend on the integer's value, so zero and negative valor pass |
| `Validation.ValidarRejectsFloat` | index.php:146 | a float valor is refused, even an integral one such as 1.0 |
| `Validation.DescricaoLengthOfInteger` | index.php:154 | an integer descricao counts the digits of its magnitude |
| `Validation.DescricaoWithHyphen` | index.php:154 | "abc-123" counts 6 |
| `Validation.DescricaoWithExclamations` | index.php:154 | "abc!!!!!!!!!!" counts 3, so it passes |
| `Validation.DescricaoBounds` | index.php:154-156 | 11 letters count 11 (refused); the empty description counts 0 (accepted) |
| `ResultTuple.TrimParens` | index.php:73 | the result is a slice of the text with only parentheses outside it, and neither starts nor ends with a parenthesis, so exactly the end parentheses are removed |
| `ResultTuple.Explode` | index.php:73 | the pieces are comma-free, and joining them with commas gives back the text |
| `ResultTuple.ExplodeImplode` | index.php:73 | splitting the comma-joined text of comma-free pieces gives the pieces back |
| `ResultTuple.PhpIntCast` | index.php:76-77 | `(int)` on a string: white space, an optional sign and the leading digits, 0 when there are none; `PhpIntCastOfRendering` states its value on decimal text |
| `ResultTuple.PhpIntCastOfRendering` | index.php:76-77 | `(int)` reads back every integer from its decimal text |
| `ResultTuple.ParseResult` | index.php:73-77 | field 0 of the trimmed, comma-split text is saldo and field 1 limite; `ParseRenderRoundTrip` and `ParseSingleField` state its results |
| `ResultTuple.ParseRenderRoundTrip` | index.php:73-77 | parsing "(s,l)" gives saldo = s from field 0 and limite = l from field 1 |
| `ResultTuple.ParseSingleField` | index.php:73-77 | a reply without field 1 gives limite 0 |
| `PhpHandler.PlanTransacao` | index.php:41-59 | a refused body is a 422 before any call; otherwise creditar iff tipo is the string "c", debitar for "d" and `true`, called with the route's client id and the body's valor and descricao |
| `PhpHandler.RespondTransacao` | index.php:43-79 | 422 for a refused body; 500 on connection or query failure; 400 without a result column; a result text gives the limite and saldo `ParseResult` reads from it |
| `PhpHandler.RefusedBeforeStorage` | index.php:43-48 | a refused body gets 422 whatever the storage would have answered |
| `PhpHandler.RespondEchoesProcedure` | index.php:58-79 | the client receives exactly the limit and balance the procedure returned |
| `Statement.PhpStatement` | index.php:100-120 | 404 iff no rows; the balance comes from row 0; the list is empty iff row 0 has an empty `realizada_em`, otherwise it is the first min(10, n) rows in order |
| `Statement.CleanupArgument` | index.php:107-109 | cleanUp is called iff there are more than 10 rows, with the id of row 10; `Ledger.CutoffKeepsWindow` states what that cutoff achieves |
| `Statement.KeepRealized` | index.js:106 | the kept rows are exactly the rows with a `realizada_em` |
| `Statement.KeepRealizedAllTimed` | index.js:106 | when every row has a timestamp, all rows are kept, in order |
| `Statement.KeepRealizedAppend` | index.js:106 | the filter preserves order: it distributes over concatenation |
| `Statement.JsStatement` | index.js:95-106 | 404 iff no rows; the balance comes from row 0; the list holds exactly the rows with a timestamp |
| `Statement.NoTransactionsNoList` | index.php:117-120 | the LEFT JOIN's placeholder row gives an empty list in both revisions |
| `Statement.RevisionsAgree` | index.js:95-106 | on up to 10 rows that all carry a transaction, the two revisions give the same statement |
| `ErrorStatus.ParseIntText` | index.js:54 | parseInt gives NaN exactly when no digit follows the white space and sign |
| `ErrorStatus.ParseCode` | index.js:54 | `parseInt(error.code)`: a numeric code is itself, a string code is read by `ParseIntText`, a missing code reads "undefined"; the `ParseCodeOf…` lemmas state its results |
| `ErrorStatus.ParseIntTextOfRendering` | index.js:54 | parseInt reads every integer back from its decimal text |
| `ErrorStatus.ParseCodeOfUndefined` | index.js:54 | a rejection without code parses to NaN |
| `ErrorStatus.ParseCodeOfDeadlock` | index.js:54 | "40P01" parses to 40 |
| `ErrorStatus.ParseCodeOfFailedTransaction` | index.js:54 | "25P02" parses to 25 |
| `ErrorStatus.EffectiveStatus` | index.js:54-63 | the status is always 500 or in 400..499 |
| `ErrorStatus.PostErrorStatus` | index.js:54-63 | the step-by-step status equals the parsed code when it is 4xx and 500 otherwise, and is never 503 or 504 |
| `ErrorStatus.EffectiveStatusOfOwnCodes` | index.js:54-63 | the codes 404 and 422 keep their status; no code gives 500 |
| `ErrorStatus.ContentionEndsAs500` | index.js:55-63 | 40P01 and 25P02 end as 500 |
| `Retry.Decide` | index.js:142-150 | a retry happens iff the code is not the number 404 or 422 and retry <= 10; its delay is 50 * (retry + 1) |
| `Retry.BackoffIncreases` | index.js:150 | a later retry waits strictly longer |
| `Retry.RetryFn` | index.js:138-153 | the retry recursion as written; `RetryFnSettlesAsLastCall`, `RetryFnBounded`, `RetryFnDelays` and `RetryFnGivesUp` state its outcome, bound and delays |
| `Retry.RetryFnSettlesAsLastCall` | index.js:138-153 | the wrapper settles as the call made after all its retries |
| `Retry.RetryFnBounded` | index.js:146-152 | at most 11 - retry retries happen, and none once retry > 10 |
| `Retry.RetryFnDelays` | index.js:150-152 | the i-th delay is 50 * (retry + i + 1) |
| `Retry.RetryFnGivesUp` | index.js:142-148 | a failure comes out only when it is 404/422 or the counter has passed 10 |
| `Retry.TerminalNotRetried` | index.js:142-144 | a 404 or 422 propagates with no delay |
| `Retry.FromInitialRetry` | index.js:40-41 | started at 3: at most 8 retries, the first waiting 200 ms, with strictly increasing delays |
| `Ledger.DebitDecision` | index.js:209-219 | no balance row gives 404; otherwise accepted iff balance - valor >= -1000, with 422 on refusal; an accepted result is balance - valor |
| `Ledger.SerializedDebits` | index.js:199-237 | debits applied one after another end at the start less exactly the accepted ones, and never below -1000 |
| `Ledger.DebitExample` | index.js:215-219 | from 0, a debit of 1000 is accepted (-1000) and a further debit of 1 is refused |
| `Ledger.Prune` | index.php:182 | a row survives iff it is not (id <= cutoff and of that client) |
| `Ledger.PruneSparesOtherClients` | index.php:182 | every other client's transactions are unchanged, in order |
| `Ledger.PruneKeepsIdOrder` | index.php:182 | the surviving rows keep increasing ids |
| `Ledger.CutoffKeepsWindow` | index.php:107-109 | on rows with ids in newest-first order, pruning at the statement's cutoff keeps every transaction among the 10 rows shown and deletes every one of the client's among the older rows |
| `Ledger.Database.CleanUp` | index.php:161-185 | an empty id or a failed connection changes nothing; otherwise only the delete's rows go; balances, history and other tables are unchanged and the invariant holds |
| `Ledger.ClientCache.GetCliente` | index.js:244-260 | a hit returns the cached record unchanged; a miss on a known id caches and returns its row; a miss on an unknown id is a 404 with the cache unchanged; entries are never removed |
| `Ledger.InsertCredito` | index.js:162-190 | unknown client: 404 with nothing written and the cache unchanged; cache entries are never removed; otherwise exactly one 'c' record is appended and, with a balance row, the balance rises by valor and `{limite, new balance}` is returned; without one the result is an error with no code |
| `Ledger.InsertDebito` | index.js:192-242 | cache entries are never removed, and an unknown client leaves the cache unchanged; 404 for an unknown client or a missing balance row, 422 below -1000, with nothing written; otherwise one 'd' record and the balance set to balance - valor >= -1000 |
| `JsValues.IsInteger` | index.js:32 | `Number.isInteger`: a number without fractional part, so 1.0 passes; `IntegersPass` and `NonIntegersFail` state it |
| `JsValues.IntegersPass` | index.js:32 | every integer passes, and its value is read back unchanged |
| `JsValues.NonIntegersFail` | index.js:32 | a fractional number, a string and a missing field fail |
| `JsHandler.PostTransacao` | index.js:24-73 | a null body gives 500; a null body gives 500 and a non-integer valor 400, with the tables, the id counter and the cache unchanged; tipo "c" credits and any other tipo debits, with 404, 422, 500 or 200 as above; an unknown client or a refused debit writes nothing; a credit appends the body's record (also when it then answers 500 for a missing balance row) and adds valor to an existing balance; an accepted debit appends the record and subtracts valor; no cache entry is ever removed |

## Left out

- HTTP servers, routing regexes, body reading and JSON parsing (`getBody`, `json_decode`) are left out. A body arrives already parsed, and a PHP body that is not a JSON object behaves as the empty map. The PHP revision's 500 for an unparsable body (index.php:36-37) is not modelled.
- JSON numbers are taken as exact values. Double-precision rounding, `Infinity` and PHP's 64-bit integer range are not modelled.
- Validation: arrays and objects as PHP field values are not modelled. For an array `descricao`, PHP's `strlen` raises a TypeError.
- Connections, pools and `BEGIN`/`COMMIT`/`ROLLBACK` are left out. Each transaction is one atomic step, and the `FOR UPDATE` lock becomes sequential execution.
- Ledger.InsertDebito: does not model that its 404 and 422 paths return without `ROLLBACK`, which leaves the connection inside an open transaction. Nothing was written on those paths, so the tables are unchanged.
- The `creditar` and `debitar` stored procedures are not part of this model. Only the parsing of their reply is modelled, not their effect on the PHP revision's `clientes.saldo` column.
- The statement functions start from rows that were read successfully. The PHP revision's 500 on a failed connect or query (index.php:85-98) and the Node revision's 400 on a query error (index.js:121-126) are not modelled.
- Timers and sleeping (`swoole_timer_after`, `setTimeout`, `sleep`) are left out. The backoff is a computed number of milliseconds, and the statement's `date('c')` timestamp is not modelled.
- Retry.RetryFn: models the catch block as written. Because `return fn()` is not awaited, a rejected promise bypasses that catch at runtime. So `JsHandler.PostTransacao` applies each request once, without retrying.
- The SQL joins, `ORDER BY` and `LIMIT` are left out. The statement functions take the joined rows as input, newest first, and do not compute them from the `Database`.
- The tables' column types and constraints are not shown, so they are not modelled. `descricao` is stored as the body gave it, and integer-overflow errors from the database do not arise.
- ErrorStatus.ParseIntText: does not model the `0x` hexadecimal prefix of `parseInt`. No SQLSTATE begins with it.
- ResultTuple.PhpIntCastOfRendering: the `(int)` cast is modelled for a sign followed by digits. Exponent forms such as "1e3" and 64-bit saturation are not modelled.
- Ledger.ClientCache.GetCliente: keys the cache by the client number. The source keys it by the URL's digit text, so "01" and "1" would be two entries holding the same row.
- Logging and the JSON writing of responses are left out.
