# A verified model of StormByte-Database

StormByte-Database wraps SQLite, PostgreSQL and MariaDB behind one C++ interface. This
project models the code that the library puts around the three clients and proves, with
Dafny 4.11, what that code does. The clients themselves are abstract engines: they answer
success or failure as they like, and keep a store, a log of requests, or the bytes that a
pointer leads to. `dafny verify dfyconfig.toml` checks everything.

| files | what they model |
|---|---|
| `Powers`, `Rounding`, `Values` | machine casts, rounding to `double`, `Value` and the conversions of `Value::Get` |
| `Decimal`, `CStrings`, `Retyping` | `std::to_string`, `std::stoll`, C strings, the int/long re-typing of fetched integers |
| `PostgresBind`, `PostgresStatement`, `PostgresFetch` | the PostgreSQL statement with its pointers into growing vectors, and its fetch loop |
| `MariaDbStatement`, `MariaDbFetch` | the MariaDB statement, what its handle keeps bound, and the two decoders |
| `SqliteStatement` | the SQLite statement, its fetch loop, and the trip of a value through both |
| `SqliteInit`, `SqliteInitStray`, `SqliteLibrary` | the process-wide SQLite reference count as an interleaved protocol, and its locked blocks as code |
| `EngineLog`, `SqliteConnection`, `SqliteProcess` | connect, disconnect and the registry of prepared statements, judged by a monitor, and several connections on one library |
| `Transactions`, `TransactionReplay`, `TransactionReassign` | the `Transaction` token, what transactions leave in the store, and the token that is assigned a new transaction |
| `Rows` | `Row` and its lazily built name index |

Objects that the library updates in place are classes whose methods are proved against
functions on their state; whole runs are then proved about those functions. Widths of `int`
and `long` are parameters (`Widths`), and so are the longest string stored in place, the way
a full `std::vector` grows, and the library's conversions between text and `double`.

## What the proofs found

Each point is a theorem below, with its exact condition.

- A short text or number bound to a PostgreSQL statement is left behind when a later one
  makes the string vector grow: on a new statement this happens with the second one. Which
  calls are delivered in full can be told from the capacity before the call (`DeliveredIff`);
  those are, for one, that have no more text arguments than some earlier call of the
  statement (`PointerStability`, `ExecutionIsolation`, `FirstShortTextDangles`).
- PostgreSQL is sent NULL for an empty blob, and text up to its first NUL
  (`DeliveredWholeIff`).
- A MariaDB statement does not keep its calls apart when the number of arguments varies. With
  no arguments `DoExecute` skips the binding, which `mysql_stmt_reset` does not undo, so a
  statement with placeholders runs with the buffers of an earlier call, which were local to
  it; with too few arguments the binding reads past the end of them. A call runs with its own
  arguments exactly when it has one for each placeholder and binding them succeeds
  (`ExecutionIsolationIff`, `ArgumentsForgottenRunStale`).
- `Disconnect()` followed by the destructor, as in the usage section of the repository's own
  README, releases two SQLite references. This is harmless while the instance is the only
  connected one: the count stays right throughout a run exactly when no instance without a
  reference releases one while the count is positive (`RunCountsExactlyIff`), and while it is
  right no handle is open on a library that is shut down (`RunWithoutStrayReleaseIsSafe`).
  Otherwise another connected instance can be left with such a handle
  (`DestructorAfterDisconnect`): one `Disconnect` does that exactly when it reaches an
  instance that is not connected while one other is (`LoneDisconnectIff`), and a count that
  is once too low always leads there by disciplined calls alone (`SafeFromNowOnIff`). The
  class comment says only that one instance must not be shared between threads; the code
  needs more.
- Two threads can even make the count negative (`CountCanBecomeNegative`): exactly when one
  backs out of a failed `sqlite3_open` while it is not positive (`NeverNegativeIff`), which
  takes more stray releases than there are holders (`StrayLedger`).
- `tx = db.BeginTransaction()` over an active `tx` of the same database leaves the token
  without a transaction (`ReassignedTokenHasNoTransaction`): what follows is durable at once,
  although the token counts as active and its documentation promises a rollback. The promise
  is kept exactly when the engine takes the BEGIN, has no transaction open then, and takes no
  ROLLBACK for the old one (`ReassignedRollbackRestoresIff`). MariaDB's BEGIN moreover commits
  the transaction that it finds open, so there the old work is durable before the ROLLBACK
  that was to undo it (`OldWorkIsDurableIff`). A COMMIT that the engine refuses
  leaves its transaction open after the token is gone (`RefusedCommitStaysOpen`).
- `unsigned long` above 2^63-1 comes back from PostgreSQL, and from MariaDB's text protocol,
  as 0. SQLite refuses unsigned values in the upper half of their type when they are read
  back; MariaDB's server reads bound ones as negative (`UncarriedIsNegative`).
- The size of a blob goes through an `int` on its way to SQLite and PostgreSQL: from 2^31
  bytes on it is cut short, or announced with a negative size (`AnnouncedInFullIff`).
- With a 32-bit `long`, MariaDB's two decoders also differ on unsigned INT and LONGLONG cells
  that `long` cannot hold (`DecodersAgreeIff`, `AgreedWith32BitInt`).
- A `double` from 2^63 up is cast to `intmax_t` before the range check, so `Get<unsigned long>`
  has no defined outcome for it, although the value may fit.

## Model

| member | source | states |
|---|---|---|
| TransactionReplay.StoreIsReplay | lib/public/StormByte/database/transaction.cxx:6-44 | in every run whose scopes on a database do not overlap and whose BEGIN, COMMIT and ROLLBACK are accepted, the store is the old one followed by the statements outside scopes and those of committed scopes, in order; every other scope leaves no trace |
| Transactions.EveryBeginIsClosedOnce | lib/public/StormByte/database/transaction.cxx:6-44 | in every run, self-assignment and refusals included: BEGINs = COMMITs + ROLLBACKs + active tokens for each database, each BEGIN has at most one COMMIT or ROLLBACK of its own, and exactly one once no token holds it; an active token has a database |
| Transactions.HeldAfterStep | lib/public/StormByte/database/transaction.cxx:9-44 | a transaction is held by some token from its BEGIN until the one operation that ends it; moves hand it on |
| TransactionReplay.HeldIsNotCommitted | lib/public/StormByte/database/transaction.cxx:32-37 | a transaction still held has not been committed |
| TransactionReassign.ReassignOpensIff | lib/public/StormByte/database/transaction.cxx:15-25 | `tx = db.BeginTransaction()` for every engine, every token and every answer: tx counts as active on the new transaction, nothing becomes durable but what a committing BEGIN finds open, and the engine has a transaction open iff it took the BEGIN or had one before, and took no ROLLBACK for what tx held on that database |
| TransactionReassign.OldWorkIsDurableIff | lib/optional/StormByte/database/mariadb/mariadb.cxx:222-222 | what the old transaction had taken is durable after the idiom iff BEGIN commits, as MariaDB's does, and is taken |
| TransactionReassign.RollbackTakesBack | lib/public/StormByte/database/transaction.cxx:27-44 | the statements that follow are taken back by the rollback or destructor of tx iff the engine had a transaction open then; otherwise all of them are durable; what BEGIN has committed stays |
| TransactionReassign.ReassignedRollbackRestoresIff | lib/public/StormByte/database/transaction.cxx:15-44 | that rollback restores the database to what it was before the idiom iff the engine takes the BEGIN, has no transaction open at that moment, and takes no ROLLBACK for the old one |
| TransactionReassign.CommitKeeps | lib/public/StormByte/database/transaction.cxx:32-37 | a commit instead makes the statements durable in every case, together with whatever BEGIN has committed or the assignment has left open |
| TransactionReassign.ReassignedTokenHasNoTransaction | lib/public/StormByte/database/transaction.cxx:15-25 | the failing input: over an active token of the same database BEGIN is issued before ROLLBACK, the token is active with no transaction behind it, and a later statement survives its rollback; the old work too, where BEGIN commits |
| TransactionReplay.RefusedCommitStaysOpen | lib/public/StormByte/database/transaction.cxx:27-37 | after a commit and the destructor the engine still has the transaction open if and only if it refused the COMMIT; no ROLLBACK is sent |
| Transactions.Transaction.Take | lib/public/StormByte/database/transaction.cxx:9-13 | move construction transfers database and activity and empties the source |
| Transactions.Transaction.Assign | lib/public/StormByte/database/transaction.cxx:15-25 | self-assignment changes nothing; otherwise a held transaction is rolled back on its own database, then ownership moves |
| Transactions.Transaction.Commit | lib/public/StormByte/database/transaction.cxx:32-37 | sends one COMMIT and becomes inactive exactly if active with a database, whatever the engine answers |
| Transactions.Transaction.Rollback | lib/public/StormByte/database/transaction.cxx:39-44 | the same with ROLLBACK |
| Transactions.Transaction.Destroy | lib/public/StormByte/database/transaction.cxx:27-30 | sends one ROLLBACK exactly if active with a database |
| Transactions.Database.BeginTransaction | lib/public/StormByte/database/database.cxx:47-52 | issues BEGIN and returns an active token of this database, even if the engine refuses |
| SqliteInit.EveryRunFollows | lib/optional/StormByte/database/sqlite/sqlite3.cxx:31-90 | in every interleaved run, however Disconnect is used, and whether or not sqlite3_open initialises on its own: the count never exceeds the holders; with the lock free a positive count means an initialised library and no handle open on one that is shut down, and if sqlite3_open does not initialise, the converses hold; the locked code excludes itself |
| SqliteInit.RunWithoutStrayReleaseIsSafe | lib/optional/StormByte/database/sqlite/sqlite3.cxx:31-90 | in every interleaved run without a stray release, such as Disconnect and destructor of a lone instance: the count equals the number of holders, openers included, it is positive iff the library is initialised (with the lock free), and no handle is open while it is shut down |
| SqliteInit.DisciplinedRunIsSafe | lib/optional/StormByte/database/sqlite/sqlite3.cxx:31-90 | so in every interleaved run where Disconnect reaches only holders |
| SqliteInit.StepKeepsInvariant | lib/optional/StormByte/database/sqlite/sqlite3.cxx:38-63 | every single step of any thread, disciplined or not, keeps the inductive invariant of the protocol |
| SqliteInit.RunCountsExactlyIff | lib/optional/StormByte/database/sqlite/sqlite3.cxx:35-90 | in every interleaved run, disciplined or not, the count equals the holders at all times if and only if no instance without a reference releases while the count is positive |
| SqliteInit.StepCountsExactlyIff | lib/optional/StormByte/database/sqlite/sqlite3.cxx:84-90 | one step keeps a right count right iff it is not such a release |
| SqliteInit.NeverNegativeIff | lib/optional/StormByte/database/sqlite/sqlite3.cxx:59-62 | in every interleaved run the count stays at 0 or above iff nobody backs out of a failed open while it is not positive |
| SqliteInit.ExactIsNeverNegative | lib/optional/StormByte/database/sqlite/sqlite3.cxx:35-90 | which never happens in a run whose count is right |
| SqliteInit.StrayLedger | lib/optional/StormByte/database/sqlite/sqlite3.cxx:35-90 | in every interleaved run the count is the holders minus the stray releases plus the releases that found nothing to count; so it is negative iff the strays outnumber the other two |
| SqliteInitStray.SingleThreadedRunIsBounded | lib/optional/StormByte/database/sqlite/sqlite3.cxx:35-90 | on one thread, however Disconnect is used: 0 <= count <= holders, and between calls the count is positive iff the library is initialised |
| SqliteInitStray.LoneDisconnectIff | lib/optional/StormByte/database/sqlite/sqlite3.cxx:77-90 | at rest with a right count, one Disconnect leaves a handle open on a library that is shut down iff it reaches an instance that is not connected while exactly one other is |
| SqliteInitStray.SafeFromNowOnIff | lib/optional/StormByte/database/sqlite/sqlite3.cxx:31-90 | after any run at all that has come to rest: no disciplined, interleaved continuation can leave a handle open on a library that is shut down, iff the count is the number of connected instances; whether or not sqlite3_open initialises on its own |
| SqliteInitStray.DestructorAfterDisconnect | lib/optional/StormByte/database/sqlite/sqlite3.cxx:25-29 | two instances connect, one disconnects and is destroyed: the other keeps an open handle on a library that is shut down |
| SqliteInitStray.CountCanBecomeNegative | lib/optional/StormByte/database/sqlite/sqlite3.cxx:59-62 | a failing open on one thread and a stray Disconnect on another drive the count to -1 |
| SqliteInitStray.ConnectRuns | lib/optional/StormByte/database/sqlite/sqlite3.cxx:38-69 | an undisturbed Connect adds exactly one reference; it initialises the library iff the count was 0 or sqlite3_open does so |
| SqliteInitStray.DisconnectRuns | lib/optional/StormByte/database/sqlite/sqlite3.cxx:77-90 | an undisturbed Disconnect gives back one reference if any is counted, connected or not, and shuts the library down exactly with the last |
| SqliteLibrary.RetainIsSteps | lib/optional/StormByte/database/sqlite/sqlite3.cxx:38-48 | the first locked block as code has the effect of its steps, whatever sqlite3_initialize answers |
| SqliteLibrary.OpenIsStep | lib/optional/StormByte/database/sqlite/sqlite3.cxx:50-50 | so has the open outside the lock |
| SqliteLibrary.BackOutIsSteps | lib/optional/StormByte/database/sqlite/sqlite3.cxx:59-61 | so has the locked block after a failed open, which decrements without a test |
| SqliteLibrary.ReleaseIsSteps | lib/optional/StormByte/database/sqlite/sqlite3.cxx:84-90 | so has the release, which tests |
| SqliteLibrary.ConnectIsRun | lib/optional/StormByte/database/sqlite/sqlite3.cxx:31-70 | a whole Connect is one run of the protocol: a reference is taken exactly if it succeeds, given back exactly if the open fails, and what becomes of the library in each case |
| SqliteLibrary.Library.Retain | lib/optional/StormByte/database/sqlite/sqlite3.cxx:38-48 | initialises at count 0, counts only on success |
| SqliteLibrary.Library.BackOut | lib/optional/StormByte/database/sqlite/sqlite3.cxx:59-61 | always decrements, shuts down at 0 |
| SqliteLibrary.Library.Release | lib/optional/StormByte/database/sqlite/sqlite3.cxx:84-90 | decrements only a positive count, shuts down at 0 |
| SqliteConnection.LifecycleIsSafe | lib/public/StormByte/database/database.cxx:5-45 | in every run of Connect, Prepare, ExecuteSTMT, Query and Disconnect: connected iff the handle is open; the engine monitor accepts every request, each execution on a live statement of an open handle included; opens minus closes is 1 or 0 accordingly; every statement is finalised exactly once, before its handle closes, unless registered on the open handle |
| SqliteConnection.ConnectFollowsProtocol | lib/optional/StormByte/database/sqlite/sqlite3.cxx:31-70 | what the class does to count and library in Connect is what that run does, and the handle is open exactly if the call succeeds |
| SqliteProcess.SharedCountIff | lib/optional/StormByte/database/sqlite/sqlite3.cxx:31-90 | over all sequences of calls on any number of objects that share the library: the count is the number of connected objects at every moment iff no Disconnect reaches one that is not connected while something is counted |
| SqliteProcess.SharedLibrary | lib/optional/StormByte/database/sqlite/sqlite3.cxx:31-90 | in every such sequence 0 <= count <= connected objects, positive iff the library is initialised, handles open exactly on connected objects; without a stray each of them finds the library initialised |
| SqliteConnection.StepsAreUses | lib/public/StormByte/database/database.hxx:126-132 | over every run each statement is stepped exactly as often as it is used: once by the query that prepares it, and once by each ExecuteSTMT that names it while it is the first live one of that name |
| EngineLog.AcceptedLogBalances | lib/optional/StormByte/database/sqlite/sqlite3.cxx:72-111 | what acceptance by the monitor means: each statement prepared and finalised at most once, the difference is the live ones; opens minus closes is the number of open handles |
| EngineLog.NothingAfterFinalize | lib/optional/StormByte/database/sqlite/sqlite3.cxx:92-111 | in an accepted log nothing is asked of a statement after it has been finalised |
| EngineLog.FinalizedBeforeClose | lib/optional/StormByte/database/sqlite/sqlite3.cxx:72-82 | in an accepted log every statement is prepared on an open handle and finalised before that handle is closed |
| SqliteConnection.RegistryIsFirstCreated | lib/public/StormByte/database/database.hxx:126-132 | a name dispatches to the first statement created under it since the last Disconnect with an open handle, with its own name and query; it is unknown iff there is none |
| SqliteConnection.ConnectedIff | lib/public/StormByte/database/database.cxx:5-32 | IsConnected iff some Connect has succeeded since the last Disconnect |
| SqliteConnection.FinalizationsAreAccepted | lib/optional/StormByte/database/sqlite/sqlite3.cxx:72-75 | clearing the registry finalises every statement once, legally, in whatever order the map is destroyed |
| SqliteConnection.SQLite3.Connect | lib/optional/StormByte/database/sqlite/sqlite3.cxx:31-70 | repeated, failed and successful connects: handle, log and result; one reference more exactly if it succeeds; the exact condition for an initialised library after success and after failure |
| SqliteConnection.SQLite3.Disconnect | lib/public/StormByte/database/database.cxx:21-32 | statements finalised, then the handle closed, then one reference released if any is counted |
| SqliteConnection.SQLite3.ClearStatements | lib/optional/StormByte/database/sqlite/sqlite3.cxx:72-75 | the loop over the registry finalises each statement exactly once |
| SqliteConnection.SQLite3.Prepare | lib/public/StormByte/database/database.cxx:38-45 | a statement whose name is taken is finalised and the first one stays |
| SqliteConnection.SQLite3.Query | lib/optional/StormByte/database/sqlite/sqlite3.cxx:92-111 | rows iff connected and answered; the temporary statement is prepared, stepped once and finalised, and finalised after a prepare error too |
| SqliteConnection.SQLite3.ExecuteStmt | lib/public/StormByte/database/database.hxx:126-132 | dispatch by name: the registered statement is run once, an unknown name runs nothing; the registry does not change |
| PostgresBind.PointerStability | lib/optional/StormByte/database/postgres/prepared_stmt.cxx:13-87 | after any sequence of binds under any growth policy, each parameter pointer leads to its own bytes, as many as its announced size says, unless it is inline text and the capacity at that moment has no room for all the text of the call: then and only then it dangles |
| PostgresBind.BufferStaysIff | lib/optional/StormByte/database/postgres/prepared_stmt.cxx:27-69 | the string buffer at bind k is the final one iff its capacity has room for all the text of the call |
| PostgresBind.AnnouncedAsMeantIff | lib/optional/StormByte/database/postgres/prepared_stmt.cxx:70-80 | a parameter that does not dangle arrives as it is meant iff it is not a blob whose size overflows int |
| PostgresStatement.ExecutionIsolation | lib/public/StormByte/database/prepared_stmt.hxx:88-96 | over any sequence of calls with any arguments: each call reaches the server as its own arguments in order (inline text may dangle, oversized blobs are cut), nothing stays bound, and a call without oversized blobs is delivered in full once the statement has had room for its text |
| PostgresStatement.DeliveredIff | lib/optional/StormByte/database/postgres/prepared_stmt.cxx:13-112 | one call on a statement in any state is delivered as meant (text to its first NUL, an empty blob as NULL) iff, by the capacity before it, no inline text is followed by a reallocation, and each blob has a size that int holds |
| PostgresStatement.DeliveredWholeIff | lib/optional/StormByte/database/postgres/prepared_stmt.cxx:13-112 | and exactly as given iff moreover no blob is empty and no text has a NUL |
| PostgresStatement.ServerReads | lib/optional/StormByte/database/postgres/prepared_stmt.cxx:27-80 | what the server reads for each kind of argument that arrives: digits that parse to the integer, true or false, the print of that very double, text to its first NUL, the bytes |
| PostgresStatement.ExecuteOnceIsIsolated | lib/public/StormByte/database/prepared_stmt.hxx:88-96 | one call on a statement in any state: own arguments only, storage empty afterwards, capacity never shrinks |
| PostgresStatement.RoomyCallIsDelivered | lib/optional/StormByte/database/postgres/prepared_stmt.cxx:97-112 | a call whose text fits the capacity already there, and without oversized blobs, is delivered exactly as meant |
| PostgresStatement.FirstShortTextDangles | lib/optional/StormByte/database/postgres/prepared_stmt.cxx:28-33 | on a new statement, a first argument of short text followed by more text is never delivered |
| PostgresStatement.PreparedStatement.Binder | lib/optional/StormByte/database/postgres/prepared_stmt.cxx:13-87 | the class refines the binding function, arrays kept parallel |
| PostgresStatement.PreparedStatement.DoExecute | lib/optional/StormByte/database/postgres/prepared_stmt.cxx:97-112 | the copy loops hand over exactly the bound parameters; nothing without a connection |
| PostgresStatement.PreparedStatement.Execute | lib/public/StormByte/database/prepared_stmt.hxx:88-96 | reset, bind all in order, run, reset |
| PostgresStatement.PreparedStatement.Reset | lib/optional/StormByte/database/postgres/prepared_stmt.cxx:89-95 | all bind storage is emptied, buffers are kept |
| PostgresFetch.IntegerRoundTripIff | lib/private/StormByte/database/postgres/result_fetch.hxx:79-89 | an integer argument of any call on a statement in any state, bound as text, echoed and fetched, returns from Get of its type iff long holds it and its text is not left behind by a reallocation |
| PostgresFetch.IntegerRoundTrip64 | lib/optional/StormByte/database/postgres/prepared_stmt.cxx:28-51 | with a 64-bit long every such argument returns, but unsigned long above 2^63-1 returns as 0 |
| PostgresFetch.OtherRoundTrips | lib/private/StormByte/database/postgres/result_fetch.hxx:64-77 | of such arguments booleans and NULL return; text returns up to its first NUL, so unchanged iff it has none |
| PostgresFetch.TripIsEcho | lib/optional/StormByte/database/postgres/prepared_stmt.cxx:13-112 | whatever is not a blob comes back as the echo of what it means iff it is not left behind |
| PostgresFetch.StepResults | lib/private/StormByte/database/postgres/result_fetch.hxx:35-127 | rows iff the result is good; one Row per tuple, one column per field, each decoded from its own cell (what that yields: FetchedRowsMean) |
| PostgresFetch.FetchedRowsMean | lib/private/StormByte/database/postgres/result_fetch.hxx:54-122 | those rows, cell by cell in the server's own output form: the field's own name; a boolean true iff the server's is; an integer of any width that Get sees as itself where long holds it; the parsed double; the unescaped bytes; the whole text |
| PostgresFetch.DecodeBool | lib/private/StormByte/database/postgres/result_fetch.hxx:64-77 | the lower-casing loop decides truth as: starts with t or 1, or its C string is "true" in any case |
| Retyping.DecimalTripIff | lib/private/StormByte/database/postgres/result_fetch.hxx:79-89 | print, parse, re-type, Get: identity iff long holds the number |
| Retyping.RetypeKeepsNumber | lib/private/StormByte/database/sqlite/result_fetch.hxx:51-60 | int if it fits, long otherwise, and Get of any integral type sees the number itself |
| Retyping.RetypeWrapsUpperHalf | lib/private/StormByte/database/sqlite/result_fetch.hxx:53-54 | beyond long the re-typed number is negative |
| Decimal.StollOfPadded | lib/private/StormByte/database/postgres/result_fetch.hxx:83-83 | parsing a printed number, with leading zeros, gives it back iff long long holds it, and throws otherwise |
| Decimal.FirstCharacterTellsZero | lib/private/StormByte/database/mariadb/result_fetch.hxx:62-62 | a printed number starts with 0 iff it is zero |
| Values.IntegralGetIsExact | lib/public/StormByte/database/value.hxx:188-215 | between any two integral types Get succeeds iff the number fits the target, and preserves it |
| Values.IntegralGetIgnoresSource | lib/public/StormByte/database/value.hxx:149-215 | the outcome depends on the number only, not on the stored type |
| Values.IntegralGetKeepsOrder | lib/public/StormByte/database/value.hxx:191-215 | successful conversions preserve order |
| Values.ChainIsExact | lib/public/StormByte/database/value.hxx:149-215 | a chain of conversions succeeds iff the number fits every type on the way |
| Values.ChainEqualsDirect | lib/public/StormByte/database/value.hxx:149-215 | a chain that succeeds equals the direct conversion |
| Values.GetAcrossKinds | lib/public/StormByte/database/value.hxx:149-166 | Get of the stored type returns the value; NULL, and everything between numbers, text and blobs, throws |
| Values.FloatGetIsExact | lib/public/StormByte/database/value.hxx:218-232 | double to integral: exact iff whole and in range; fractions, NaN and infinities throw; whole values outside intmax_t are undefined |
| Values.LargeFloatIsUndefined | lib/public/StormByte/database/value.hxx:222-222 | doubles from 2^63 that fit unsigned long are undefined |
| Values.IntegerThroughDoubleIff | lib/public/StormByte/database/value.hxx:216-232 | integer to double and back is the identity iff binary64 holds the number and it is at most 2^63-1 |
| Values.IntegerThroughDouble | lib/public/StormByte/database/value.hxx:216-232 | so for every magnitude up to 2^53 |
| Values.IntThroughDouble | lib/public/StormByte/database/value.hxx:216-232 | so always for int, unsigned int and bool |
| Values.IntegerAsDouble | lib/public/StormByte/database/value.hxx:216-217 | an integer asked for as double gives a representable number and none is nearer |
| Rounding.RoundedIntegerIsNearest | lib/public/StormByte/database/value.hxx:217-217 | the modelled integer-to-double cast yields a representable value and none is nearer |
| Rounding.RoundingIsExactIff | lib/public/StormByte/database/value.hxx:217-217 | it changes nothing iff the value is representable |
| Rounding.TieGoesToEven | lib/public/StormByte/database/value.hxx:217-217 | ties go to the even significand |
| MariaDbFetch.DecodersAgreeIff | lib/private/StormByte/database/mariadb/result_fetch.hxx:59-137 | for every width of int and long, the text and the prepared-statement decoder give values that no Get can tell apart, iff: a signed number fits its type, an unsigned one fits long too, an unsigned LONGLONG is within long modulo its own width and within long long |
| MariaDbFetch.AgreedWith32BitInt | lib/private/StormByte/database/mariadb/result_fetch.hxx:60-92 | with a 32-bit int only unsigned INT and LONGLONG can differ: an INT iff long cannot hold it, and with a 64-bit long just the LONGLONG cells above 2^63-1 |
| MariaDbFetch.ResultSetsAgree | lib/optional/StormByte/database/mariadb/prepared_stmt.cxx:313-409 | whole result sets of such cells: same shape, same names, and by either route values that no Get and no IsNull can tell apart |
| MariaDbFetch.BinaryReadsBoundBuffer | lib/optional/StormByte/database/mariadb/prepared_stmt.cxx:240-278 | the buffer that is bound for an integer column is the buffer that is read, in its own width |
| MariaDbFetch.BinaryDecodesNumber | lib/optional/StormByte/database/mariadb/prepared_stmt.cxx:347-372 | the prepared-statement decoder finds the number of the cell, as far as its type holds it |
| MariaDbFetch.TextDecodesNumber | lib/private/StormByte/database/mariadb/result_fetch.hxx:60-92 | the text decoder finds it wherever long long and long hold it |
| MariaDbFetch.DecodersDifferWithNarrowLong | lib/private/StormByte/database/mariadb/result_fetch.hxx:75-85 | with a 32-bit long the decoders differ on every unsigned INT that long cannot hold |
| MariaDbFetch.StepResults | lib/private/StormByte/database/mariadb/result_fetch.hxx:34-137 | one Row per row, one column per field, each decoded from its own cell (what that yields: TextRowsMean); error only for a null result |
| MariaDbFetch.TextRowsMean | lib/private/StormByte/database/mariadb/result_fetch.hxx:59-137 | those rows, cell by cell: the field's own name; NULL, TINYINT(1) as a boolean, integers by their number, floats and decimals parsed, blob types as bytes in order if the charset is binary and as text otherwise, all else as exactly the text |
| MariaDbFetch.FetchAll | lib/optional/StormByte/database/mariadb/prepared_stmt.cxx:312-409 | rows iff the fetches end in no-data, one Row per fetched row, one column per field, each from its own cell (what that yields: BinaryRowsMean) |
| MariaDbFetch.BinaryRowsMean | lib/optional/StormByte/database/mariadb/prepared_stmt.cxx:337-401 | those rows, cell by cell: the field's own name; integers in the type of their column, floats as delivered, a plain blob as bytes in order if the charset is binary, all else as exactly the text |
| MariaDbStatement.ReceivedIff | lib/optional/StormByte/database/mariadb/prepared_stmt.cxx:114-201 | the server reads what was meant iff the number is carried as signed by its bind type |
| MariaDbStatement.UncarriedIsNegative | lib/optional/StormByte/database/mariadb/prepared_stmt.cxx:114-201 | a number that is not carried is unsigned and is read as the negative number congruent to it |
| MariaDbStatement.ExecutionIsolationIff | lib/optional/StormByte/database/mariadb/prepared_stmt.cxx:87-211 | over every sequence of calls on a statement with n placeholders: a call runs with its own first n arguments, each in its own place, iff it has as many and they are bound without an error, and the server then reads argument i as meant iff its bind type carries it; without arguments it runs with the vanished buffers of the last earlier call that bound any, or is refused iff there is none; with fewer than n it reads past their end |
| MariaDbStatement.ArgumentsForgottenRunStale | lib/optional/StormByte/database/mariadb/prepared_stmt.cxx:203-209 | the failing input: one call with an argument and one without, on a statement with a placeholder |
| MariaDbStatement.PreparedStatement.Execute | lib/public/StormByte/database/prepared_stmt.hxx:88-96 | reset, bind in order, run, reset: if it runs, input i is read by the server as argument i; the handle keeps what this call has bound; the parameter vector is empty afterwards |
| MariaDbStatement.PreparedStatement.DoExecute | lib/optional/StormByte/database/mariadb/prepared_stmt.cxx:94-211 | one input per parameter, read by the server as the parameter of its own place, is bound if there is any, and the statement run; nothing without a handle |
| MariaDbStatement.PreparedStatement.Binder | lib/optional/StormByte/database/mariadb/prepared_stmt.cxx:82-85 | gaps are filled with NULL |
| SqliteStatement.TripIff | lib/optional/StormByte/database/sqlite/prepared_stmt.cxx:19-66 | a bound and fetched value returns from Get of its type iff: unsigned within int, unsigned long within long, text without NUL, blob not empty and of a size that int holds; everything else always; NULL as NULL |
| SqliteStatement.LossyTrip | lib/optional/StormByte/database/sqlite/prepared_stmt.cxx:19-66 | what the others become: Get throws for unsigned, text is cut at its NUL, an empty blob is NULL, an oversized blob is cut, or undefined iff its size wraps to a negative one |
| Values.AnnouncedInFullIff | lib/optional/StormByte/database/sqlite/prepared_stmt.cxx:58-58 | the cast of a blob's size to int announces the whole blob iff int holds the size, and never more than the blob |
| SqliteStatement.StepResults | lib/private/StormByte/database/sqlite/result_fetch.hxx:39-94 | rows iff the steps end in DONE: one Row per ROW step, in order; each column has its own cell's name and value, by storage class; anything else is an error |
| SqliteStatement.PreparedStatement.Execute | lib/public/StormByte/database/prepared_stmt.hxx:88-96 | the engine runs with the bound form of argument i as parameter i, NULL where there is none, and bindings are cleared |
| Rows.CacheRefinesScan | lib/public/StormByte/database/row.cxx:6-46 | over every run on many rows the cached lookup gives the same replies and columns as a linear scan, and every present index is current |
| Rows.FirstIndexIsScan | lib/public/StormByte/database/row.cxx:17-26 | the built index maps each name to its leftmost column and no other name |
| Rows.Row.BuildNameIndex | lib/public/StormByte/database/row.cxx:17-26 | the loop builds that index, or keeps the one present |
| Rows.Row.At | lib/public/StormByte/database/row.cxx:28-34 | the leftmost match, or ColumnNotFound iff no column has the name; the columns do not change |
| Rows.Row.Write | lib/public/StormByte/database/row.cxx:36-38 | the leftmost match gets the value written, every other column stays, and the index is current |
| Rows.Row.MoveOut | lib/public/StormByte/database/row.cxx:40-46 | the value of the leftmost match is handed over; only its column is left behind changed |
| Rows.Row.Add | lib/public/StormByte/database/row.hxx:104-107 | appends a column and drops the index |
| Rows.Row.Assign | lib/public/StormByte/database/row.cxx:9-15 | copy assignment, self-assignment included, copies columns and index |
| CStrings.CString | lib/optional/StormByte/database/sqlite/prepared_stmt.cxx:48-52 | text handed over as a C string is seen up to its first NUL, so in full iff it has none |

## Left out

- Postgres and MariaDB connections: their lifecycle has no reference count; only SQLite's is modelled.
- The clients' own code (`sqlite3_*`, `mysql_*`, `PQ*`): abstract engines that answer at will.
- Logging, exception texts, warnings and notices: output only, so an error is one value.
- SSL modes, connection strings and isolation levels: text that the engines interpret.
- `std::stod`, `std::to_string(double)`, `PQunescapeBytea`: parameters, about which nothing is assumed.
- Doubles: every real number is admitted as one, which covers all finite doubles; signed zeros are not told apart.
- MariaDbFetch.FetchAll: takes the driver to deliver each cell's value; the refetch of truncated columns and the early error returns before the fetch are not modelled.
- MariaDbFetch.DecodersAgreeIff: is about TINY, SHORT, LONG, LONGLONG, string, plain BLOB and NULL cells; for INT24, DECIMAL, FLOAT and the other BLOB types the two decoders choose different types or convert floats through text.
- MariaDbFetch.ResultSetsAgree: is about `Get` and `IsNull`; `Value::Type` and `operator==` still tell `int` from `unsigned int` or `long`.
- MariaDbStatement.ExecutionIsolationIff: takes `mysql_stmt_reset` to keep bindings, as it is documented to; what the server answers to a run is not modelled, nor anything that follows once memory has been read past its end.
- SqliteStatement.TripIff: takes the engine to store what is bound, of any size that is announced; SQLite itself turns NaN into NULL and has a limit on lengths.
- PostgresBind.PointerStability: takes `data()` of an empty `std::vector<char>` to be null, as the usual libraries have it; a blob announced with a negative size counts as dangling.
- Rows.CacheRefinesScan: does not cover moving a whole `Row`, nor replacing a `NamedValue` by index, which would go past the cache reset; `Iterable` is not part of this model.
- Moving `Database` objects, user overrides of the disconnect hooks, direct calls of the public `CommitTransaction` and `RollbackTransaction`, and of the public constructor `Transaction(Database&)`, which makes an active token without a BEGIN: assumed not to happen.
- TransactionReplay.StoreIsReplay: assumes that databases outlive their tokens, and that an engine has one transaction at a time; that a refused statement leaves it usable (PostgreSQL aborts the transaction on an error, and answers COMMIT with success while it rolls back); and that nothing but COMMIT, and BEGIN where it does, commits (MariaDB also commits at DDL).
- SqliteInit.EveryRunFollows: assumes sequentially consistent steps, a `sqlite3_open` that may succeed on a library that is shut down and not initialised on its own, and a set of instances fixed in advance, of any size; an instance not yet created is an idle one.
