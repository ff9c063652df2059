# A verified model of MariaDB Connector/ODBC

The driver is C++ glue around a client library, but some of its parts are algorithms and protocols with a state of
their own. This project models those parts and proves what they keep, what they compute, and exactly where they do
not do what their comments or the ODBC specification say.

* **Data at execution over parameter arrays** (`DaeModel`, `DaeRuns`, `DaeTrace`, `DaeCodes`, `DaeProtocol`,
  `DaeHeldOver`, `DaeStatement`). SQLExecute walks the paramsets; at one with a data-at-execution parameter it hands
  the bind array over, stores a row number and a parameter number and returns SQL_NEED_DATA; SQLParamData and
  SQLPutData collect the values and enter the loop again in its middle. `DaeModel` is the meaning of each call,
  `DaeStatement` the loops of the driver proved to have that meaning, `DaeRuns` and `DaeTrace` whole runs, `DaeCodes`
  their return codes, `DaeProtocol` every history of calls, cancels included, `DaeHeldOver` the executions that do
  not belong into one. The server is a log of events with an arbitrary answer to each execution.
* **SQL_NUMERIC** (`Radix`, `Halving`, `DecimalText`, `DecimalRange`, `SqlNumerics`, `NumericPrinting`). Decimal text
  to sixteen bytes by halving a digit array in place, and back.
* **Cursors** (`CursorModel`, `CursorStatement`). SQLFetchScroll with its block fetches that read the first row last.
* **Cancel, drop and allocate** (`LinkedList`, `DeletedStatements`, `CancelDrop`, `CancelRuns`). The bounded list of
  freed statements as a linked list and as a sequence, and the three calls lock by lock, interleaved at will.
* **SQLGetData in parts** (`DataInParts`, `DataInPartsRow`), for bytes and for wide characters.
* **Connection settings** (`DsnOptions`, `ConnString`, `DsnParser`, `DsnKeys`, `DsnNumbers`, `DsnPrinting`,
  `PrintBuffer`). The OPTIONS bitmap with the fields that repeat it, the parser that cuts up its buffer with NULs,
  the printer with its buffer of 1024 characters, and the key table of the driver with its texts, numbers and flags.
* **Positioned UPDATE and DELETE** (`PositionedWhere`, `PositionedKeys`). The WHERE clause, its cached key columns,
  and the binding loop.
* **Query texts** (`QueryTokens`, `QueryText`). The tokenizer with its quotes and comments, against a reader that
  takes one character at a time.

Code of the driver that changes fields, arrays, buffers or nodes is modelled by classes and methods with loops. Each
of them is proved against functions, and the theorems are about these functions.

## What the proofs found

* **An error stops the rest of a parameter array** (`DaeTrace.TraceOfRun`, `DaeTrace.RejectedParamsetStopsTheArray`).
  The comments at driver/ma_statement.cpp:1101-1108 say the array carries on after a rejected paramset. The
  conversion of an ordinary value ends by returning what the error record of the statement holds
  (driver/ma_typeconv.cpp:761 and 810), and that still holds the error of the rejected paramset; so the next paramset
  with an ordinary value counts as a failed conversion and the loop is left. Only a suspension clears the record.
  `TraceOfRun` gives the exact condition under which every paramset is executed.
* **HY010 does not stop a second SQLExecute, which also forgets the row** (`DaeHeldOver.SecondExecuteBreaks`, and on
  two cells `DaeHeldOver.ForgottenRow`). While data is needed, it records the error, resets DaeRowNumber and goes on
  from the first paramset (driver/ma_statement.cpp:1225, 1236-1239, 1290). If that gets anywhere, it hands a bind
  array over while another one is held. If not, because the first paramset that is not ignored does not convert, the
  array stays held for a row that nobody knows any more: SQLParamData goes over the cells of the first paramset, and
  after them starts the loop again. So the custody of the array is broken if and only if the second SQLExecute gets
  anywhere, or SQLParamData is called afterwards more often than there are cells left in the first paramset (at all,
  if the array is held for another one), as long as that asks for a cell or the loop then gets anywhere. A cancel
  that gives the data up or closes the cursor repairs it (`DaeHeldOver.CancelRepairs`).
* **Dropping and allocating on one connection can block each other for ever** (`CancelDrop.EmbraceReachable`,
  `CancelDrop.EmbraceForEverAfter`). A drop takes the driver-wide lock and then the lists lock of the connection
  (driver/ma_statement.cpp:205-215); an allocation takes the lists lock and, inside it, the driver-wide lock
  (driver/ma_statement.cpp:4269-4278, driver/ma_driver.cpp:107). What the application can see to before each call is
  that no drop and allocation of one connection are in progress together. In every run in which it does, some
  unfinished thread can go on at every moment (`CancelDrop.ApartNeverStops`). Where it does not, and the locks are
  free, three moves lead to the pair that waits for ever (`CancelDrop.OverlapEmbraces`,
  `CancelDrop.CarelessDropEmbraces`, `CancelDrop.CarelessAllocEmbraces`). A cancel is never part of a circle of
  waiting threads.
* **A positive scale without a dot is not applied** (`DecimalText.NoDotIsNotRescaled`): "5" with scale 2 is stored as
  5, which means 0.05. With a dot, digits beyond 39 are cut: "12.0" with scale 38 (`DecimalText.CutIsSilent`).
  `DecimalText.StoredIsScaled` says exactly when the stored number is the scaled one.
* **Three fetches report no data where the ODBC tables move to row 1** (`CursorModel.AgreesWithRules`, and at
  concrete positions `CursorModel.OvershootsFindNothing`).
* **An empty wide value leaves an offset beyond its length** (`DataInParts.WideOffsetPasses`); it serves as the mark
  that the value has been read.
* **A data source can leave TCPIP and NamedPipe both set** (`DsnOptions.ReadSourceAgrees`,
  `DsnOptions.SourceSetsBoth`), until the connection string is parsed again (`DsnOptions.ReadConnStringAgrees`).
  Printed settings with neither of them but some other option read back with TCPIP (`DsnOptions.SettingsRoundTrip`,
  `DsnOptions.ReconnectBringsTcpIp`).
* **A zero that is not the default is not printed** (`DsnPrinting.ZeroIsLost`): NULLISCURRENT=0 comes back as 1.
  `DsnPrinting.ConnectionRoundTrip` says exactly which connections come back.
* **A '}' in a printed value is not doubled**, so such a value does not read back (`ConnString.BraceIsLost`);
  `ConnString.PrintParseExactly` says exactly which values do.
* **The number of characters left in the printer's buffer wraps around** (driver/ma_dsn.c:769). Every write stays
  inside if and only if everything before the last entry is at most 1024 characters long (`PrintBuffer.PrintInto`,
  `PrintBuffer.LongValueLeaves`). From 1024 characters on the text in the buffer is cut and not read back
  (`PrintBuffer.FittingIsRead`).
* **One text makes the parser write behind the end of its buffer.** It has four characters less than the text
  (driver/ma_dsn.c:568). That is enough for every value in braces, except in the text "DB={" in any case of letters
  (`DsnParser.Dsn.ParseConnString`, `DsnKeys.OnlyBracedDb`).
* **A null in a key column leaves the cached list of key columns unfinished**, and so does a value that cannot be
  read: the list is written while the values are still being looked at, and the call that comes to such a value fails
  with the rest of the list as it was allocated. The loop of SQLSetPos goes on to the next row
  (driver/ma_statement.cpp:3996-4020), where a list is found and trusted. For every history of calls on a cursor, the
  cache lists the columns of the key whatever memory it was written into if and only if the call that decides asks
  for markers or comes to no such value before the last key column (`PositionedWhere.HistoryRight`). With a key of
  two columns and a null in the first, the clause for the next row compares the first column twice
  (`PositionedWhere.NullSpoilsTheCache`).

## Model

| member | source | states |
|---|---|---|
| DaeModel.Convert | driver/ma_statement.cpp:1318-1362 | a paramset can be handed over iff no cell fails to convert and no ordinary value meets an error on record; otherwise the first data-at-execution cell is what is asked for |
| DaeModel.Rows | driver/ma_statement.cpp:1290-1424 | leaving the loop over the paramsets, entered idle or at the paramset to resume, means that nothing is under way, unless it asks for data: then it stands at a later, non-ignored paramset that has such a cell |
| DaeModel.ParamData | driver/ma_statement.cpp:652-734 | on a suspended statement each SQLParamData asks for a later cell than the one before, in the same paramset or a later one, or ends the operation |
| DaeRuns.RunIsStraight | driver/ma_statement.cpp:1184-1460 | for every layout of cells, ignore mask and pattern of failures: the interrupted run has the same events, the same rows-processed counter and the same status array as one straight loop, whatever the statement remembers from before |
| DaeRuns.RowsRun | driver/ma_statement.cpp:1290-1424 | the same from any paramset on, with any error on record |
| DaeRuns.SuspendedRun | driver/ma_statement.cpp:680-717 | the same from the middle of a suspended paramset on: the remaining cells, that one execution, and the rest of the array |
| DaeTrace.TraceOfRun | driver/ma_statement.cpp:1290-1424 | non-ignored paramsets are executed once each in ascending order up to the one the run ends at, their data-at-execution cells asked for once each in order; all of them are executed if and only if every one converts and none with an ordinary value follows a failed one without a suspension between; then counter and status entries are as specified |
| DaeTrace.StopsWhereBlocked | driver/ma_typeconv.cpp:705-811 | the run ends at the first paramset that cannot be converted, given the failures and suspensions before it |
| DaeTrace.CancelForgets | driver/ma_api_internal.cpp:304-323 | after a cancel in the middle of an array that gives the data up or closes the cursor, the next execution is that of a statement never suspended; after one that kills the query the statement is still suspended where it was |
| DaeTrace.CancelWhileWaiting | driver/ma_api_internal.cpp:304-345 | SQLCancel while data is needed gives it up for an ODBC 3 application whatever other threads do, for an ODBC 2 one unless another thread is busy; the next SQLExecute goes over the array from its first paramset on |
| DaeTrace.RejectedParamsetStopsTheArray | driver/ma_statement.cpp:1318-1356 | two ordinary paramsets, the first rejected: the second is never sent |
| DaeCodes.ExecuteCode | driver/ma_statement.cpp:1426-1441 | an SQLExecute that does not ask for data, counting its rejected executions and one for a paramset whose conversion fails: SQL_ERROR if and only if the count reaches the array size, or is 0 and the loop ends at an unbound parameter; SQL_SUCCESS if and only if it is 0 and the loop does not end there; SQL_SUCCESS_WITH_INFO otherwise |
| DaeCodes.ParamDataCode | driver/ma_statement.cpp:711-734 | an SQLParamData that ends the operation gives the code of the execution it resumes, by the same count |
| DaeCodes.RunCode | driver/ma_statement.cpp:1290-1441 | the code of a whole array without data-at-execution cells follows from the number of paramsets rejected in the straight loop and from the reason why that stops |
| DaeCodes.RejectedCodes | driver/ma_statement.cpp:1435-1441 | a single rejected paramset is SQL_ERROR; two of which the last one is rejected are SQL_SUCCESS_WITH_INFO |
| DaeProtocol.NeverBroken | driver/ma_statement.cpp:1051-1064 | over every history of execute, parameter, put and cancel calls the Driver Manager lets through, each execution with its own parameters, mask and answers of the server: the custody of the bind array is never broken and always what the fields of the statement say |
| DaeProtocol.HandedOverOnce | driver/ma_statement.cpp:1376-1393 | in such a history, whatever is executed, or gets long data, was handed over to that same prepared statement before, with nothing but its own data between, also when the statement is exchanged for a server-side one |
| DaeProtocol.ParamDataKeeps | driver/ma_statement.cpp:1443-1457 | SQLParamData, with the executions it resumes, keeps the custody of the bind array |
| DaeHeldOver.ExecuteOverHeld | driver/ma_statement.cpp:1217-1239 | SQLExecute while an array is held hands another one over if and only if the loop from the first paramset on gets anywhere; otherwise the custody stays, and the fields, the counter and the status entries are as said: HY010, no row, ignored paramsets marked, one more counted |
| DaeHeldOver.ParamDataHeldOver | driver/ma_statement.cpp:681-717 | with the row forgotten, SQLParamData breaks the custody if and only if a cell of the first paramset is left and the array is held for another one, or none is left and the loop started again gets anywhere |
| DaeHeldOver.OnwardExactly | driver/ma_statement.cpp:652-734 | over any further calls that do not end the wait, the custody is broken if and only if SQLParamData is called too often: more often than there are cells left in the first paramset, or at all if the array is held for another one, and what that leads to is a cell asked for or a loop that gets anywhere |
| DaeHeldOver.SecondExecuteBreaks | driver/ma_statement.cpp:1225-1240 | SQLExecute while data is needed, with whatever values are in the arrays by then, and any such calls after it: the custody is broken if and only if the execution gets anywhere or SQLParamData is called too often; the state after an execution that gets nowhere |
| DaeHeldOver.CancelRepairs | driver/ma_api_internal.cpp:304-345 | a cancel that gives the data up or closes the cursor frees the array, and over every history the Driver Manager lets through afterwards the custody is never broken |
| DaeHeldOver.ForgottenRow | driver/ma_statement.cpp:1225-1240 | one paramset of a data-at-execution cell and an ordinary one: SQLExecute while the first is asked for leaves row 0, and the next SQLParamData hands the array over a second time |
| DaeStatement.Statement.ConvertParamset | driver/ma_statement.cpp:1318-1374 | the loop over the cells finds what `DaeModel.Convert` says and leaves the error record accordingly |
| DaeStatement.Statement.ExecuteParamset | driver/ma_statement.cpp:1296-1424 | one turn of the loop, in place on the statement's fields and the application's status array |
| DaeStatement.Statement.Execute | driver/ma_statement.cpp:1184-1460 | the whole loop, started fresh, resumed in the middle, or called while data is needed, is `DaeModel.Execute`, whose events, fields and return code `DaeRuns.RunIsStraight` and `DaeCodes.ExecuteCode` describe |
| DaeStatement.Statement.ParamData | driver/ma_statement.cpp:652-734 | the search for the next cell and the re-entry into Execute are `DaeModel.ParamData`, also when no row is remembered or all values have been supplied; row and parameter are those of the cell asked for |
| DaeStatement.Statement.PutData | driver/ma_statement.cpp:737-821 | one piece goes to the statement in use, for the cell asked for last; a lost piece leaves an error on record |
| DaeStatement.Statement.Cancel | driver/ma_api_internal.cpp:299-366 | data that is waited for is given up, for an ODBC 2 application or otherwise by closing the cursor, unless another thread is busy with it and the query is killed: the parameter number survives exactly then |
| Halving.Halve | driver/ma_helper.cpp:1073-1083 | one pass over the digit array in place leaves half the number and returns its lowest bit; it consumes all digits iff the number was below 2 |
| Halving.ToBytes | driver/ma_helper.cpp:1070-1108 | the loop terminates; it reports overflow exactly when the number is 2^128 or more, and otherwise the bytes are the number in base 256 |
| DecimalText.PaddedIsScaled | driver/ma_helper.cpp:997-1044 | with a dot, the digits kept for a positive scale are floor of the number times 10^scale, and something non-zero is lost exactly when that product is no integer |
| DecimalText.StoredIsScaled | driver/ma_helper.cpp:949-1070 | a number that is in range is stored as floor of it times 10^scale if and only if the scale is not positive, or there is a dot and no more than 39 digits, or the product is zero |
| DecimalText.NoDotIsNotRescaled | driver/ma_helper.cpp:997-999 | "5" with scale 2 is stored as 5 |
| DecimalText.CutIsSilent | driver/ma_helper.cpp:1026-1070 | "12.0" with scale 38 is in range by the checks and stored as twelve times ten to the 37th |
| DecimalText.NegativeFits | driver/ma_helper.cpp:1046-1070 | dividing by a power of ten never makes the digits exceed the 39 that are kept |
| DecimalText.ReadsPlaces | driver/ma_helper.cpp:921-1044 | a text of a minus sign if there is one, zeros, digits, a dot and digits, whatever follows that is no digit: sign, whole part and fraction are those characters |
| DecimalText.ReadsWhole | driver/ma_helper.cpp:921-965 | the same for a text without a dot |
| DecimalRange.TooLongByValue | driver/ma_helper.cpp:970-993 | the check of the integer part rejects, for a scale from 0 up, exactly numbers of 10^39 or of 10^precision and more; for a negative scale, with more digits than the precision, exactly those not divisible by the power of ten that brings them down to the precision, or too long for precision and scale |
| DecimalRange.RangeByValue | driver/ma_helper.cpp:970-1068 | all checks together, by the size of the number: the integer part, the number with its significant digits, divisibility for a negative scale, and the sixteen bytes |
| DecimalRange.NegativeRange | driver/ma_helper.cpp:1046-1068 | for a negative scale: out of range exactly if the number is not a multiple of the unit or is 10^(precision - scale) or more; otherwise what is stored is below 10^precision |
| DecimalRange.TruncatedByValue | driver/ma_helper.cpp:1000-1044 | digits are reported as lost exactly if the scale is positive and the number times 10^scale is no integer |
| SqlNumerics.TooManyDigits | driver/ma_helper.cpp:968-993 | the check of the integer digits rejects exactly the numbers that are too long, zeros beyond the precision being allowed for a negative scale; by value, those of `DecimalRange.TooLongByValue` |
| SqlNumerics.CountFraction | driver/ma_helper.cpp:1000-1025 | all digits after the dot, and those up to the last non-zero one, are counted |
| SqlNumerics.CharToSQLNumeric | driver/ma_helper.cpp:913-1111 | sign and scale of the trimmed text; 22003 exactly when the number is too large for precision, scale and bytes by its value, 01S07 exactly when it is not and a positive scale loses something; otherwise the bytes are the number to be stored, whose integer part, or for a negative scale the stored number, is below 10^precision |
| NumericPrinting.ConvertNumericToChar | driver/ma_typeconv.cpp:171-225 | for scales up to 0: 22003 exactly when the magnitude has more than 64 bits or more digits than the precision; otherwise sign, digits and zeros, within the buffer |
| NumericPrinting.PrintedReadsBack | driver/ma_typeconv.cpp:188-222 | what is printed is read as the number it was printed from, without truncation or overflow |
| NumericPrinting.RoundTrip | driver/ma_helper.cpp:913-1111 | number to text to number gives the same sign, scale and sixteen bytes, for every 64-bit magnitude of sufficient precision |
| CursorModel.ScrollConsistent | driver/ma_statement.cpp:4076-4170 | after any sequence of fetches of any orientations and sizes on a static cursor: before the first row, after the last one, or on the first row of a rowset within the result, with the last row of a block remembered |
| CursorModel.NextDelivers | driver/ma_statement.cpp:4135-4176 | SQL_FETCH_NEXT with any sizes delivers the rows from the upcoming one on, without gap or repetition |
| CursorModel.FetchNextDeliversAll | driver/ma_statement.cpp:4076-4079 | from a fresh result it delivers rows 1 to n once each, in order, static or forward-only |
| CursorModel.NoDataForever | driver/ma_statement.cpp:4160-4170 | once used up, it delivers nothing for ever |
| CursorModel.AgreesWithRules | driver/ma_statement.cpp:4070-4134 | the position is the one of the ODBC "Cursor Positioning Rules" tables if and only if the fetch is none of three overshooting ones; in those the tables say row 1 and the driver says no data |
| CursorModel.OvershootsFindNothing | driver/ma_statement.cpp:4070-4134 | one position and result size of a static cursor for each of the three |
| CursorStatement.RowsToFetch | driver/ma_result.cpp:221-241 | the number of rows of a rowset within the result, for any position |
| CursorStatement.Statement.Fetch | driver/ma_statement.cpp:2267-2420 | slot i holds row position + i, read with the first row last for a static block, and the result set rests on the first row |
| CursorStatement.Statement.FetchScroll | driver/ma_statement.cpp:4040-4176 | HY106 exactly for a scrolling fetch on a forward-only cursor; otherwise cursor and slots are those of `CursorModel`, data is delivered exactly when the target is a row, and nothing is written otherwise |
| LinkedList.ListAdd | driver/ma_legacy_helpers.cpp:40-53 | adding before any node keeps previous and next links consistent |
| LinkedList.ListDelete | driver/ma_legacy_helpers.cpp:56-65 | exactly one node leaves, the others stay linked in order |
| LinkedList.ListReverse | driver/ma_legacy_helpers.cpp:92-105 | the same nodes, linked in reverse order |
| DeletedStatements.RememberedKeepsDistinct | driver/ma_driver.cpp:120-152 | remembering a new address keeps the list free of repetitions and at most 50 long |
| DeletedStatements.ForgottenExactly | driver/ma_driver.cpp:104-117 | exactly the one address is forgotten |
| DeletedStatements.DeletedList.Check | driver/ma_driver.cpp:87-99 | the first node with the address, if there is one |
| DeletedStatements.DeletedList.Remove | driver/ma_driver.cpp:104-117 | the linked list loses the first occurrence of the address |
| DeletedStatements.DeletedList.Remember | driver/ma_driver.cpp:120-152 | the address comes first, the last of 50 nodes is reused for it, and without memory for a new node the list stays as it is |
| CancelDrop.InvRun | driver/ma_api_internal.cpp:272-366 | every interleaving of cancels, drops and allocations keeps lock ownership, statement ownership and the deleted list consistent |
| CancelDrop.CancelledStaysAlive | driver/ma_api_internal.cpp:287-365 | in every interleaving, a statement exists from the successful try_lock of a cancel on its switch to the unlock; `CancelRuns` says when the try_lock succeeds, and that it can |
| CancelDrop.CancelDecides | driver/ma_api_internal.cpp:282-286 | a cancel that does not find the address of a live or recently dropped statement in the list has a statement that exists; handles the application holds are never listed |
| CancelDrop.RecentStep | driver/ma_driver.cpp:120-152 | a dropped statement stays listed for the next 49 drops, unless its address is in use again |
| CancelDrop.CancelNeverInCircle | driver/ma_api_internal.cpp:282-294 | no thread waits for a cancel that itself waits: a cancel and a drop never wait for each other |
| CancelDrop.WaitsOrGoes | driver/ma_statement.cpp:205-215 | a busy thread can go on exactly when no other thread owns the lock it needs next, and it never waits for itself |
| CancelDrop.Progress | driver/ma_statement.cpp:205-215 | as long as no drop and allocation wait for each other, some unfinished thread can go on |
| CancelDrop.EmbraceForEverAfter | driver/ma_statement.cpp:4269-4278 | a drop and an allocation on one connection that wait for each other do so after every further run |
| CancelDrop.EmbraceReachable | driver/ma_statement.cpp:4269-4278 | such a pair can be reached from the start |
| CancelDrop.ApartNeverStops | driver/ma_statement.cpp:205-215 | in every run in which no drop is begun while an allocation on its connection is in progress, nor the other way round, some unfinished thread can go on at every moment |
| CancelDrop.OverlapEmbraces | driver/ma_statement.cpp:4269-4278 | from any state in which a drop and an allocation on one connection have begun and the locks are free, some run leads to the pair that waits for ever |
| CancelDrop.CarelessDropEmbraces | driver/ma_statement.cpp:205-215 | a drop begun while an allocation on its connection is in progress breaks that rule and can lead there |
| CancelDrop.CarelessAllocEmbraces | driver/ma_statement.cpp:4269-4278 | and so does an allocation begun while a drop is |
| CancelRuns.CancelTakesTheSwitch | driver/ma_api_internal.cpp:282-294 | a cancel that has the driver-wide lock owns the switch after its next move if and only if the address is neither listed nor held, and then the statement exists; otherwise it is over, the lock is free and no switch has changed hands |
| CancelRuns.CancelNeverHeldUp | driver/ma_api_internal.cpp:287-365 | whatever the other threads do, a cancel that has the switch can go on, and its last move frees the switch |
| CancelRuns.CancelGetsThrough | driver/ma_api_internal.cpp:282-365 | a cancel of a handle that nobody cancels or drops gets to its work, with the switch taken and the driver-wide lock free, and leaves everything as it was |
| CancelRuns.DropGetsThrough | driver/ma_statement.cpp:205-215 | a drop that finds its locks free cleans the statement under all three, frees it with its switch open, and leaves every lock free, the statement gone and its address first in the list |
| CancelRuns.AllocationGetsThrough | driver/ma_statement.cpp:4269-4278 | an allocation that finds its locks free forgets the address under both, and leaves a statement of the connection that the application has and that is not listed |
| CancelRuns.LateCancelIsHarmless | driver/ma_api_internal.cpp:283-286 | a cancel of one of the last 50 dropped statements, whose address is not in use again, finds it listed and changes nothing |
| CancelRuns.CancellingReachable | driver/ma_api_internal.cpp:287-294 | a state can be reached in which a cancel has the switch and a drop of the same statement waits for it |
| DataInParts.RepliesAreAnswers | driver/ma_api_internal.cpp:1584-1608 | for any calls over any columns of a row, in any order, every reply is the one the description of SQLGetData asks for; a column starts again when another one delivers something |
| DataInParts.PartsMakeTheWhole | driver/ma_statement.cpp:3102-3184 | whatever the buffer sizes, the pieces of a column join to its value; lengths are what was left, 01004 comes exactly while something stays behind, SQL_NO_DATA exactly after the end, for an empty value too; a null is reported as one every time |
| DataInParts.PartStands | driver/ma_string.cpp:639-777 | one call for bytes or wide characters moves offset, length and recoded text to what stands for the units delivered so far |
| DataInParts.BufferWhilePending | driver/ma_string.cpp:690-773 | the recoded text is kept exactly while a truncated read is pending |
| DataInParts.WideOffsetPasses | driver/ma_statement.cpp:3300-3307 | the offset of a wide column passes its length exactly when an empty value has been read |
| DataInPartsRow.GetClosed | driver/ma_statement.cpp:3139-3164 | the piece is in the application's buffer and closed with a zero, wherever the additional zero goes |
| DataInPartsRow.Row.GetBytes | driver/ma_statement.cpp:3102-3184 | the bytes branch, in place on the arrays, is `DataInParts.BytesPart`; other columns stay as they are |
| DataInPartsRow.Row.Advance | driver/ma_statement.cpp:3169-3184 | the offset grows by what fits; 01004 exactly if something of the value, or of the length reported, does not; an empty value leaves the mark of one that has been read |
| DataInPartsRow.Row.GetWide | driver/ma_string.cpp:639-777 | StreamWstring, in place, is `DataInParts.WidePart`, and the piece is closed with a zero |
| DataInPartsRow.Row.GetData | driver/ma_api_internal.cpp:1558-1608 | one SQLGetData on the row: the new state of all columns, the reply, and the buffer; nothing is written with SQL_NO_DATA or for a null, which is SQL_NULL_DATA, or 22002 without a pointer to store that |
| DsnOptions.AppliedAgrees | driver/ma_dsn.c:208-281 | every key keeps the fields in step with their bits; TCPIP, NamedPipe and OPTIONS leave exactly one of the two switches set, other keys leave them alone |
| DsnOptions.AlwaysAgree | driver/ma_dsn.c:632-640 | after any sequence of keys each option field is set exactly when its bit is, the switches are never both set, and exactly one is iff a deciding key has been seen |
| DsnOptions.SettingsRoundTrip | driver/ma_dsn.c:699-782 | settings read from what was printed are the same if and only if no option is set or exactly one switch is |
| DsnOptions.ReconnectBringsTcpIp | driver/ma_dsn.c:728-734 | AUTO_RECONNECT alone comes back with TCPIP |
| DsnOptions.SourceSetsBoth | driver/ma_dsn.c:384-424 | TCPIP=1 in the connection string and OPTIONS=8192 in the data source leave both switches set |
| DsnOptions.ReadSourceAgrees | driver/ma_dsn.c:384-424 | reading a data source ends with the fields in step; both switches are set exactly when TCPIP was set, the source names neither and its OPTIONS have the NamedPipe bit |
| DsnOptions.EntryCounts | driver/ma_dsn.c:352-424 | an option for which the data source has one entry: with overwriting it becomes what the entry says; without, it stays on if it was on |
| DsnOptions.ReadConnStringAgrees | driver/ma_dsn.c:677-695 | parsing, reading the data source and parsing again always ends with the switches apart |
| ConnString.PrintParseExactly | driver/ma_dsn.c:699-782 | printing and parsing gives back the same keys and values in order if and only if every value is trimmed, has no '}' if it needs braces and does not start with '{' if it does not; the last value may also end with its only '}' |
| ConnString.BracedValue | driver/ma_dsn.c:600-629 | any value in braces with every '}' doubled is stored trimmed, and reading goes on behind it |
| ConnString.ParseMeant | driver/ma_dsn.c:583-600 | a name of the table in any case of letters, '=' and any text: the text is stored under the key the name stands for, for an alias the other one |
| ConnString.SameNameExactly | driver/ma_dsn.c:587-592 | two names are the same if and only if they differ at most in the case of ASCII letters |
| ConnString.PlainValue | driver/ma_dsn.c:630-651 | a value without braces goes up to the next semicolon and is stored without the white space around it |
| ConnString.ParseUnknown | driver/ma_dsn.c:652-668 | a key that is not in the table is passed over with its value, and what follows is parsed as if it stood alone |
| ConnString.ParseWithoutKey | driver/ma_dsn.c:570-581 | an empty part means nothing; a part without '=' ends the parsing and is reported |
| ConnString.ReadBack | driver/ma_dsn.c:598-651 | a printed value that is read back unchanged is one of those, and if it is the exception nothing behind it is read |
| ConnString.RunIsHalved | driver/ma_dsn.c:602-626 | in braces a run of '}' is never read as itself |
| ConnString.BraceIsLost | driver/ma_dsn.c:769-771 | the value "a }b" does not come through |
| PrintBuffer.PrintInto | driver/ma_dsn.c:699-782 | every write stays inside the buffer if and only if what is printed before the last entry has at most 1024 characters; then the buffer holds the printed text, or its first 1023 characters, and the total is its whole length |
| PrintBuffer.LongValueLeaves | driver/ma_dsn.c:769-772 | a value of 1024 characters with anything printed behind it leads outside |
| PrintBuffer.CutTextIsLost | driver/ma_dsn.c:547-671 | a printed text that is cut anywhere is never parsed as the list it was printed from |
| PrintBuffer.FittingIsRead | driver/ma_dsn.c:699-782 | the text in the buffer is read back as the list it was printed from if and only if it is shorter than 1024 characters and every value comes through |
| DsnParser.Find | driver/ma_dsn.c:577-581 | a search in the cut buffer sees exactly the text up to its end |
| DsnParser.Trim | driver/ma_common.c:52-63 | trims in place by writing NULs, changing nothing else |
| DsnParser.Unbrace | driver/ma_dsn.c:600-629 | the copying loop yields the unescaped value and the place behind the closing brace; every write stays inside ValueBuf if and only if the value and a NUL fit it, and then it holds them |
| DsnParser.TakeValue | driver/ma_dsn.c:598-651 | value and next key from the buffer, with the rest of the text intact |
| DsnParser.Dsn.SwitchDependents | driver/ma_dsn.c:226-281 | the other switch is set against the one that changed, nothing else |
| DsnParser.ReadVersions | driver/ma_dsn.c:318-345 | a number that is not zero is stored as its lowest byte; otherwise the bits are those of the TLS versions the text mentions, in any case of letters |
| DsnParser.Dsn.StoreValue | driver/ma_dsn.c:286-360 | one value stored, or kept if it may not be overwritten: texts, numbers, flags, option bits and switches; what that comes to for each kind of key is in `DsnNumbers` |
| DsnParser.Dsn.UpdateOptionsFields | driver/ma_dsn.c:364-380 | every field from its bit |
| DsnParser.RoomFits | driver/ma_dsn.c:568-629 | with names of two letters at least, a value in braces fits four characters less than the text, unless the text is a key of two letters, '=' and an opening brace |
| DsnParser.Dsn.ParseConnString | driver/ma_dsn.c:547-671 | the loop terminates on every text; settings, texts and numbers are those of storing exactly the parsed values in order; false exactly for a part without '='; every write stays inside the buffers unless the text is such a one |
| DsnKeys.TableIsSound | driver/ma_dsn.c:38-112 | the sixty names differ whatever the case of letters, and aliases lead to keys that are none |
| DsnKeys.OnlyBracedDb | driver/ma_dsn.c:568-629 | with the keys of the driver the one text that is copied behind the end of ValueBuf is "DB={", in any case of letters |
| DsnKeys.AnyTextAgrees | driver/ma_dsn.c:547-671 | for every text and after each of its keys: fields in step with bits, switches never both set, exactly one iff OPTIONS, NamedPipe or TCPIP has been among the keys |
| DsnKeys.PrintedIsRead | driver/ma_dsn.c:699-782 | the same equivalence with the keys of the driver |
| DsnNumbers.NumberRead | driver/ma_dsn.c:318-354 | a number in a text is what the digits behind white space and a sign stand for, whatever follows |
| DsnNumbers.OptionKeyRead | driver/ma_dsn.c:352-356 | for every option key, in any case of letters or by its alias, every number and any connection: the option is on and its bit set if and only if the number is not zero, other options and bits stay, TCPIP follows NamedPipe alone, and nothing else changes |
| DsnNumbers.TcpIpRead | driver/ma_dsn.c:226-281 | TCPIP and a number, of which the lowest byte counts: NamedPipe and its bit are switched against it, nothing else changes |
| DsnNumbers.OptionsRead | driver/ma_dsn.c:347-380 | OPTIONS and a number: the bits are the 32 lowest ones of the number, every option is on if and only if its bit is set, and TCPIP is switched against NamedPipe |
| DsnNumbers.OptionMasks | driver/ma_dsn.h:29-47 | the numbers of the seven options |
| DsnNumbers.KeyOrNumber | driver/ma_dsn.c:347-380 | in a new connection an option switched on by its own key and by its number under OPTIONS leaves the same options and bits |
| DsnNumbers.NumberKeyRead | driver/ma_dsn.c:300-351 | every other key with a number stores 32 bits or the lowest byte of it, and nothing else changes |
| DsnNumbers.VersionsRead | driver/ma_dsn.c:318-335 | a text that is no number sets the bits 1, 2 and 4 for the TLS versions it mentions |
| DsnNumbers.TextKeyRead | driver/ma_dsn.c:293-317 | a text that comes through replaces the one of the key, also by an alias, and nothing else changes |
| DsnNumbers.AliasesStandFor | driver/ma_dsn.c:47-112 | the eight aliases and the keys they stand for |
| DsnNumbers.ReconnectRead | driver/ma_dsn.c:352-356 | "auto_reconnect=1" switches reconnecting on, "Auto_Reconnect=0" off |
| DsnPrinting.BitsOfWord | driver/ma_dsn.c:347-351 | the bits of a number that is read are those it was made of, whatever a wider conversion adds beyond the 32nd |
| DsnPrinting.OptionsReadBack | driver/ma_dsn.c:728-734 | OPTIONS, printed as a signed number and read as an unsigned one, has the same bits |
| DsnPrinting.NumberStored | driver/ma_dsn.c:728-763 | a number or flag that is printed is stored as the number it comes back as |
| DsnPrinting.ComesBackExactly | driver/ma_dsn.c:149-168 | a number comes back if and only if: it is not zero or zero is the default (numbers); it is 1, or not printed and the default (flags); it is 0, 1 or the default (SSLVERIFY); always (TLS versions) |
| DsnPrinting.PairsStored | driver/ma_dsn.c:712-775 | storing what is printed for the keys up to any place brings back the settings, texts and numbers of these keys |
| DsnPrinting.ConnectionRoundTrip | driver/ma_dsn.c:699-782 | a connection whose texts come through, printed and parsed into a new one, has the same option bits, fields, switches, texts and numbers if and only if no option is set or one of the switches is, and every number comes back |
| DsnPrinting.ZeroIsLost | driver/ma_dsn.c:736-743 | NULLISCURRENT=0, printed and parsed into a new connection, is 1 |
| PositionedWhere.ChosenInOrder | driver/ma_string.cpp:306-331 | the columns of a key are listed in strictly increasing order, exactly those flagged |
| PositionedWhere.ListedCompletely | driver/ma_string.cpp:320-378 | the first scan writes the whole list if and only if the clause has markers or no column of the key other than the last one is null or cannot be read |
| PositionedWhere.ScanRight | driver/ma_string.cpp:306-378 | the list is the one of the key whatever the allocated memory held if and only if the same is true |
| PositionedWhere.DecidedOnce | driver/ma_string.cpp:233-262 | after any history the cache is what the first call left that could decide; later calls do not change it |
| PositionedWhere.HistoryRight | driver/ma_string.cpp:233-394 | for every history of calls on a cursor, the cache lists exactly the columns of the key, whatever memory it was written into, if and only if the deciding call found no key, had markers, or met no null and no value that cannot be read before the last key column |
| PositionedWhere.CarefulClause | driver/ma_string.cpp:233-394 | after such a history every clause has one condition for each column of the key, in order; it fails exactly when no columns will do, or a value is wanted that cannot be read or is null in a key |
| PositionedWhere.CarelessClause | driver/ma_string.cpp:328-343 | after any other history there is memory with which the next clause reaches outside the columns of the result |
| PositionedWhere.NullSpoilsTheCache | driver/ma_statement.cpp:3996-4020 | a key of two columns, a row with a null in the first, memory full of zeros: the first row fails, and the clause for any next row without nulls compares the first column twice and is not the one over the key |
| PositionedWhere.Cursor.ChooseKey | driver/ma_string.cpp:252-315 | the first key all of whose columns are in the result (by count, as `PositionedKeys.KeyIsComplete` says), otherwise all columns if the result has all, otherwise failure remembered; the list is allocated with whatever the memory holds |
| PositionedWhere.Cursor.AppendConditions | driver/ma_string.cpp:320-378 | the loop over the columns or over the cache names the columns gone over in order, and lists those it comes to before it gives up; the other entries stay as allocated |
| PositionedWhere.Cursor.GetWhere | driver/ma_string.cpp:233-394 | on any cursor, also one whose list was left unfinished: the clause goes over the cached columns, whatever they are, or those chosen, and the cache afterwards is what `PositionedWhere.After` says |
| PositionedWhere.BindKeys | driver/ma_statement.cpp:869-901 | the loop over the columns binds what `PositionedWhere.BoundBy` says |
| PositionedWhere.BindsInOrder | driver/ma_statement.cpp:869-901 | the last parameters get the values of the listed columns in order, and no others are bound, if and only if the list ascends within the columns of the result |
| PositionedWhere.PositionedUpdate | driver/ma_statement.cpp:597-615 | the k-th marker appended names the column whose value is bound to that parameter if and only if the list ascends, which the one of a key does |
| PositionedKeys.KeyIsComplete | driver/ma_string.cpp:252-315 | on a new cursor and after every careful history, a clause is only built over all columns of the primary key of the table, or if the result lacks one of these over all of its unique key, or else over all columns of the table, in order; the call fails for want of them if and only if the result has none of the three |
| PositionedKeys.PartOfAKeyIsNoKey | driver/ma_string.cpp:273-303 | one of the two columns of a primary key gives no clause |
| PositionedKeys.MarkersInOrder | driver/ma_string.cpp:328-346 | a clause with markers has exactly one '?' for each column gone over, the k-th behind the name of the k-th column |
| PositionedKeys.ConditionUnderstood | driver/ma_string.cpp:344-378 | a condition, read as text, is about its column and is passed by exactly the value, or the null, of the current row |
| PositionedKeys.FindsTheRow | driver/ma_string.cpp:344-378 | the rows that pass all conditions are exactly those that agree with the current one in the columns gone over |
| QueryTokens.StripLeadingComments | driver/ma_parse.cpp:489-536 | passes over one comment to its end, place and remaining length changing together |
| QueryTokens.SkipSpacesAndComments | driver/ma_parse.cpp:28-44 | passes over white space and comments only, and stops at the end or at something that is neither |
| QueryTokens.SkipQuotedString | driver/ma_parse.cpp:61-78 | ends at the closing quote, a backslash taking the next character along |
| QueryTokens.ParseQuery | driver/ma_parse.cpp:369-483 | terminates on every text with strictly increasing offsets within it; on texts whose literals are closed the tokens are exactly the token starts of the text, or the first two of them in a long single command |
| QueryTokens.TokensAreElements | driver/ma_parse.cpp:376-483 | no token starts in white space, in a comment or inside a literal; every '?' and ';' outside comments and literals is one |
| QueryTokens.StartsAre | driver/ma_parse.cpp:376-483 | token starts are elements that are not blank, and every element that breaks a token is one |
| QueryText.ReadersAgree | driver/ma_parse.cpp:28-88 | elements start exactly where a reader that takes one character at a time is outside literals and comments, and the literals are closed if and only if it does not end in one; when a quote is closed and where a comment begins is said over the characters |
| QueryText.ElementCrossed | driver/ma_parse.cpp:489-536 | from the start of an element that reader is outside again at its end, and nowhere before |
| QueryText.TokensExactly | driver/ma_parse.cpp:369-483 | the tokens of a text, character by character: outside, no white space, no comment, and a character that always begins a token or none going on there; vertical tabs and form feeds do not end one |
| QueryText.BackslashQuote | driver/ma_parse.cpp:61-88 | a backslash before a single quote keeps the literal open unless the SQL mode says otherwise |

## Left out

* The client library: prepared statements, result sets and the server are parameters, event logs or small classes
  with a stated contract. Character set recoding is not modelled: a wide value is a given text.
- DaeStatement.Statement.Execute: the return codes HY008 and HY001 before the loop are not modelled; nor are bulk
  execution, null pointers for the rows-processed counter and the status array, and conversions that succeed with
  information.
- DaeRuns.RunIsStraight: makes no claim about a return code for a whole operation with suspensions, because the error
  count and the affected rows start again at each re-entry; the code of each call is the one `DaeCodes.ExecuteCode`
  and `DaeCodes.ParamDataCode` give. Data at execution through SQLSetPos and SQLBulkOperations keeps separate state
  and is not modelled.
- DaeStatement.Statement.Cancel: errors of closing the cursor and of killing the query, and the mark that makes a
  running execution return HY008, are not modelled.
- DaeHeldOver.SecondExecuteBreaks: the statement keeps its number of parameters, and the arrays hold at least one
  paramset.
- SqlNumerics.CharToSQLNumeric: covers text without a character other than digits before the dot. Scales up to 61 fit
  the digit array; SQL_DESC_SCALE is kept between -38 and 38 (driver/ma_desc.cpp:933-945), so no positive scale is
  excluded. With a negative one the driver computes in 64-bit integers and floating point, and the number and the
  power of ten have to stay inside them.
- NumericPrinting.ConvertNumericToChar: positive scales, which divide doubles and use snprintf, are not modelled; of
  the others none from 0 down to the least there is, -38, is excluded.
- CursorStatement.Statement.FetchScroll: bookmarks, dynamic and streaming cursors, a rowset size of 0, row errors and
  the return code of a block with errors are not modelled.
- CancelDrop.CancelledStaysAlive: a cancel is taken to be about a statement that exists or is among the last 50
  dropped ones, and a handle to be freed once; emptying the list with the last environment and allocation failure are
  not modelled.
- DataInPartsRow.Row.GetData: fixed-length types, reading one column as two C types, odd sizes for wide characters
  (half a character would be copied), and a call for SQL_C_CHAR with neither a buffer nor a length pointer are not
  modelled.
- PrintBuffer.PrintInto: says nothing about what is overwritten once a write leaves the buffer. The NUL-separated
  form of connection strings is not modelled.
- DsnPrinting.ConnectionRoundTrip: TCPIP is taken as set or not, although the driver does not print it when its
  lowest byte is 255; numbers in a text are taken as unbounded before they are cut to their field.
- PositionedWhere.Cursor.GetWhere: escaping the values of the row is not modelled, they are given escaped; whether a
  value can be read is part of the row, and a second read of it is taken to give the same.
- PositionedKeys.KeyIsComplete: of a table with several unique keys only the number of their columns together is
  known, to the driver and here, so that the columns found need not be those of one key.
- PositionedKeys.MarkersInOrder: is about names without '?'; `PositionedKeys.ConditionUnderstood` is about names
  without a backtick, which the driver does not double.
- QueryTokens.ParseQuery: is about texts without NUL characters; statement types and the splitting at semicolons are
  not modelled.
* Callback codecs, catalog functions, attributes, error tables, logging, the setup dialog and connection options
  would only add lookups and copying.
