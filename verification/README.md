# MilanSQL: verified models of its interpreters, logs, locks and wire codecs

This project models the self-contained algorithms of MilanSQL in Dafny and proves what they are for. The parts that loop
and change state are methods and classes; each is proved equal to a specification function or value, and the lemmas are
about those. The SQL engine, the parser and the storage are parameters.

- **Stored procedures** (`ProcText`, `ProcProgram`, `ProcScan`, `ProcSkip`, `ProcElse`, `ProcThen`, `ProcRefinement`,
  `ProcExec`, `ProcLeave`, `ProcSubst`, `ProcValues`, `ProcHang`). The interpreter works on program text and finds
  every THEN, ELSE, END IF and END LOOP again by scanning with depth counters. `ProcProgram` has structured programs
  with labelled loops, IF/ELSE and LEAVE, their meaning and their printed text, each statement with its own spelling
  of the keywords, in any letter case, and its own white space. `RunsBody` proves that running the text is running the
  program; `ProcLeave` where a LEAVE stops and how often a loop runs. `ProcSubst` has variables, cursors and the
  substitution of variables in SQL text, `ProcValues` what each simple statement leaves behind, `ProcHang` when a body
  never comes back because of the substitution.
- **Statement splitter** (`StatementSplitter`, `SplitterTokens`, `ProcBlocks`): literals, both comment kinds and
  BEGIN/END blocks; lossless and stable. `SplitTokens` and `Lex` say where every text is cut, in terms of its words,
  signs, literals and comments; `BlockIsOne` that a procedure stays in one piece.
- **Write-ahead log** (`WalCrc`, `WalDivision`, `WalScan`, `WalOps`, `WalLog`, `WalDamage`, `WalTorn`, `WalRecovery`)
  and **point-in-time restore** (`PointInTime`): the writer's escapes and lines, the CRC of RFC 1952 and the bursts it
  detects, exactly which logs are read right at every line and at every byte, what one damaged commit line takes away,
  and that a restore replays the first committed transactions exactly when their time stamps do not go down.
- **Transactions and locks** (`TransactionManager`, `LockManager`): pruning is unobservable; over every interleaving the
  lock manager gives the answers of a textbook lock table.
- **Recursive CTEs** (`RecursiveCte`): the working-set loop against the least fixpoint.
- **WebSocket** (`Network`, `WebSocket`, `Sha1`, `Sha1Bits`, `Handshake`), **PostgreSQL** (`PgWire`, `PgServer`,
  `PgReplies`) and **MySQL** (`MySqlWire`, `MySqlClient`): codecs that invert each other under any chunking of the
  byte stream, SHA-1 and Base64 against their standards, what a client is told of the results of its statements, and
  when it is told that the server is ready.
- **Printed metadata** (`Fields`, `Partitions`, `PartitionMeta`, `PartitionFile`, `Migrations`): exactly when what is
  saved loads back.
- **Row filters** (`RowFilters`): DISTINCT ON, LIMIT and TABLESAMPLE.
- Shared: `Text`, `Decimal`, `Bytes`.

`dafny verify dfyconfig.toml` checks everything.

Where the code and its own comments or standards disagree, the model follows the code:

- `rollbackTx` says that rows of a rolled-back transaction stay invisible (src/transaction_manager.hpp:56), but
  `isCommitted` reports such an id as committed once every active transaction is younger (line 66):
  `RolledBackInvisible` gives the exact condition and `RollbackTurnsVisible` the smallest run.
- The CRC line is meant for the preceding commit line, but the code checks the pending commit with the largest id
  (src/wal/wal_recovery.hpp:102-112). `WrongCommit` is an undamaged log that loses a commit that way;
  `CrashAtomicityIff` and `SerialIff` say exactly which logs with distinct ids are read right.
- The CRC is to detect a damaged commit line (src/wal/wal_recovery.hpp:99), and the damaged transaction is indeed never
  committed; but when the damaged line reads as a commit of an earlier transaction, that one loses its own commit
  (`DamageRevokes`). `DamagedLog` and `DamageOutcome` give the whole outcome.
- A `VAL ` line with an empty value is dropped (src/wal/wal_recovery.hpp:180), and src/wal_recovery.hpp, a copy that the
  program does not include, does not undo the escapes of the writer: `RoundTrip` is an equivalence for both readers,
  `EmptyValueLost` a failing insert, and `RecoverDurable` says what recovery applies, for every log.
- A crash can tear the last line. What is left of it can read as the commit line of another transaction
  (`TornCommits`) or as a CRC line that does not fit (`TornCrcLoses`): `ByteCrashIff` says exactly when the torn line
  changes nothing.
- The restore calls its tests stop conditions (src/wal/pitr_manager_impl.hpp:81) but skips and goes on: `PrefixIff`,
  `TimeTargets` and `WrittenTargets` say when the result is still a prefix of the history, `OutOfOrder` is a log at
  which it is not.
- The writer stamps each commit (src/engine/engine.hpp:3883), but the restore only reads the stamp behind TX_BEGIN:
  `CommittedByTarget` says when it gives what was committed by the target time, `BegunCounts` is a log at which it
  does not.
- The restore is to include the current log (src/wal/pitr_manager_impl.hpp:56), but only archived segments are read:
  `CurrentWritten` says exactly when that leaves nothing out, `CurrentLogLost` is a log that is lost.
- A procedure that stores a value under an empty name hangs at the next SQL text with a position that has a
  word boundary on both sides: `WitnessHangs`, `EndsIff`, `HangsIff`, `BodyHangsIff`.
- `unescapeTab` undoes `escapeTab` only for texts without a backslash directly before `t` or `n`: `UnescapeEscape`,
  `UnescapeLoses`, and for whole runs `RestartIff`.
- Two rows of different tables can share one lock key when a table name holds a colon (`RowKeysCollide`):
  `RowKeysMeet` and `RowsHaveOwnLocks` say exactly when.
- Different tuples of DISTINCT ON can share one key when a value holds the separator (`KeysCollide`): `KeyShared`.
- Pings are answered with an empty pong, where section 5.5.3 of RFC 6455 asks for the ping's data: `PongConforms`,
  `PongLosesData`.
- Range partitions with bounds that are no numbers come back from the metadata file with other bounds than they were
  created with (`TextBoundsWiden`): `CreatedComesBack`. The older file loses lower bounds and children: `FileExact`.
- A frame above 65536 bytes or a close frame ends the reader inside the frame: `ReadWire` says where.

## Model

| member | source | states |
|---|---|---|
| ProcText.Split | src/dispatch.hpp:1426-1457 | every statement cut from a body is nonempty, trimmed and no longer than the body |
| ProcText.Classify | src/dispatch.hpp:1557-1804 | the body of a LOOP and both bodies of an IF are strictly shorter than their statement, on every text, well formed or not |
| ProcText.NoEndLoopInLoop | src/dispatch.hpp:1722-1731 | the last END LOOP never overlaps the LOOP in front, so the body substring never runs backwards |
| ProcText.ElseEnd | src/dispatch.hpp:1766-1792 | the ELSE found lies at least four characters before the END IF found, so no substring index underflows |
| ProcText.LastAt | src/dispatch.hpp:1723-1728 | the position found is the last one at which END LOOP occurs |
| ProcProgram.LeaveEscapes | src/dispatch.hpp:1562-1565 | a LEAVE comes out of a program only under a label that no enclosing loop has, and never through a loop without label |
| ProcProgram.LeaveEscapesLoop | src/dispatch.hpp:1732-1739 | what leaves a loop early is a LEAVE for another label |
| ProcScan.CutSilent | src/dispatch.hpp:1431-1453 | text without keywords and semicolons never changes where the splitter cuts |
| ProcScan.ThenSilent | src/dispatch.hpp:1745-1759 | nor which THEN closes the condition |
| ProcScan.ElseSilent | src/dispatch.hpp:1766-1783 | nor which ELSE and END IF are taken |
| ProcSkip.CutPrint | src/dispatch.hpp:1431-1453 | the splitter passes over a whole printed statement, nested to any depth, and is back at the same depth behind it |
| ProcElse.ElsePrint | src/dispatch.hpp:1766-1783 | the search for ELSE and END IF passes over a whole printed statement, nested to any depth |
| ProcRefinement.SplitListing | src/dispatch.hpp:1426-1457 | a printed body splits into exactly the texts of its statements |
| ProcRefinement.CutsWhole | src/dispatch.hpp:1426-1457 | a text is cut off as one statement, whatever follows its semicolon, exactly when no semicolon in it stands outside its brackets and its brackets are closed, quotes playing no part |
| ProcRefinement.QuotesCount | src/dispatch.hpp:1431-1453 | a quoted semicolon cuts a statement, and a quoted LOOP opens a bracket |
| ProcRefinement.FindElse | src/dispatch.hpp:1766-1792 | the ELSE and END IF found in a printed IF are its own, and no ELSE is found when it has none |
| ProcRefinement.ThenOf | src/dispatch.hpp:1745-1763 | the THEN found in a printed IF is its own and the condition in front of it comes back |
| ProcThen.OwnThen | src/dispatch.hpp:1745-1759 | when a condition holds pairs of IF and THEN of its own, nested to any depth, the THEN found is the one behind it |
| ProcRefinement.ClassifyPrintedIf | src/dispatch.hpp:1743-1797 | a printed IF is taken apart into its condition, its THEN body and its ELSE body |
| ProcRefinement.ClassifyPrinted | src/dispatch.hpp:1557-1797 | every printed statement is recognised as what it is, with each bracket matched to its own construct |
| ProcRefinement.RunsStmt | src/dispatch.hpp:1557-1804 | running the text of a statement has the state effect and the LEAVE result of the statement |
| ProcRefinement.RunsBody | src/dispatch.hpp:1548-1555 | running the printed text of any structured program with printable atoms, each statement in its own spelling and white space, is executing the program |
| ProcRefinement.RunsLoop | src/dispatch.hpp:1732-1739 | a text loop unwinds and stops after its rounds as the structured loop does |
| ProcLeave.LeaveComesOut | src/dispatch.hpp:1562-1797 | a reached LEAVE comes out of any nest of loops and IF branches with its own label when no loop of the nest has no label or the same label in any letter case; nothing written behind any layer runs |
| ProcLeave.LeaveStops | src/dispatch.hpp:1732-1739 | the innermost loop without a label or with the same label ends there, and nothing behind the layers inside it has run |
| ProcLeave.GoesOnBehind | src/dispatch.hpp:1732-1739 | the run goes on behind that loop, wherever the loop stands |
| ProcLeave.BareNest | src/dispatch.hpp:1732-1739 | loops with nothing around the LEAVE but each other give the label back exactly when each of them has a label and none has this one |
| ProcLeave.LeaveOuter | src/dispatch.hpp:1732-1739 | in a: LOOP b: LOOP LEAVE a; END LOOP; x; END LOOP with different labels, x never runs |
| ProcLeave.MillionRounds | src/dispatch.hpp:1732-1741 | a loop whose body is never left runs it exactly 1,000,000 times |
| ProcLeave.LeftInRound | src/dispatch.hpp:1732-1739 | a loop whose body is first left in some round ends there, with that label unless the loop stops it |
| ProcLeave.TextMillion | src/dispatch.hpp:1732-1741 | the same 1,000,000 rounds for any loop text, well formed or not |
| ProcLeave.TextLeft | src/dispatch.hpp:1732-1739 | the same end in the first round that is left, for any loop text |
| ProcLeave.TextNest | src/dispatch.hpp:1548-1797 | the printed nest, run as text, goes on with what is written behind the loop that stops the LEAVE |
| ProcLeave.LabelRead | src/dispatch.hpp:1710-1720 | the label of a text is what stands before its first colon, if that is fewer than 64 characters and, trimmed, one word |
| ProcExec.SplitStmts | src/dispatch.hpp:1426-1457 | the index loop with its depth counter computes the splitter's function |
| ProcExec.FindThen | src/dispatch.hpp:1745-1759 | the loop with the IF depth finds the THEN that the specification finds |
| ProcExec.FindElse | src/dispatch.hpp:1766-1783 | the loop finds the same ELSE and END IF as the specification |
| ProcExec.FindLastEndLoop | src/dispatch.hpp:1723-1728 | searching forward in steps of eight finds the last END LOOP, because occurrences cannot overlap |
| ProcExec.ReadLabel | src/dispatch.hpp:1710-1720 | a label is the word before a colon within the first 64 characters; the statement is split there, or left whole |
| ProcExec.ReadIf | src/dispatch.hpp:1743-1793 | the IF branch takes any statement, well formed or not, apart into the condition up to its THEN and the bodies up to the ELSE and END IF found, or leaves it to SQL |
| ProcExec.ReadForm | src/dispatch.hpp:1557-1804 | the tests in the code's order classify every statement text as LEAVE, simple step, labelled loop, broken loop or IF |
| ProcExec.ProcExec.ExecBody | src/dispatch.hpp:1548-1555 | for every text, whatever the simple statements do as long as they come back, the run terminates and leaves the object's state and result as the text means; when they do not, see ProcHang |
| ProcExec.ProcExec.ExecStmt | src/dispatch.hpp:1557-1804 | the same for one statement |
| ProcExec.ProcExec.ExecLoop | src/dispatch.hpp:1732-1739 | the same for the loop, with its limit of 1,000,000 rounds |
| ProcSubst.EndsIff | src/dispatch.hpp:1395-1414 | the replacement loop for one variable ends exactly when its name is not empty or the text has no position with a word boundary on both sides |
| ProcSubst.Substitute | src/dispatch.hpp:1398-1411 | when it ends, the loop has replaced exactly the whole-word occurrences of the name, from left to right |
| ProcSubst.Untouched | src/dispatch.hpp:1395-1414 | a text without a whole-word occurrence stays as it is |
| ProcSubst.Subst | src/dispatch.hpp:1395-1414 | one variable after the other in the order of the map |
| ProcSubst.HangsIff | src/dispatch.hpp:1395-1414 | substituting all variables never ends exactly when an empty name is stored and the text as written has such a position |
| ProcSubst.PutSorted | src/dispatch.hpp:1351-1362 | storing a variable keeps the map ordered, whatever its name |
| ProcSubst.PutStores | src/dispatch.hpp:1351-1362 | storing a variable stores its name and forgets none |
| ProcSubst.StepHangsIff | src/dispatch.hpp:1567-1803 | a simple statement hangs exactly when it is SQL or an OPEN of a declared cursor whose text has such a position, and an empty name is stored |
| ProcSubst.StepNamed | src/dispatch.hpp:1567-1708 | only SET with nothing before its equals sign and FETCH with an empty name in its list store an empty name; without it every simple statement comes back |
| ProcSubst.ProcState.ExecSimple | src/dispatch.hpp:1567-1708 | DECLARE, SET, OPEN, CLOSE, FETCH and SQL change the variables, the cursors, the handler and the database as the specification says, or throw |
| ProcSubst.ProcState.ExecFetch | src/dispatch.hpp:1677-1706 | the loop stores the row's values in the listed variables, or the handler's value when the rows are used up |
| ProcSubst.FindDefault | src/dispatch.hpp:1596-1600 | the loop finds the value behind the first DEFAULT |
| ProcSubst.ProcState.ExecDeclare | src/dispatch.hpp:1567-1610 | DECLARE of a handler, a cursor or a variable changes the state as the specification says |
| ProcSubst.ProcState.ExecSet | src/dispatch.hpp:1612-1644 | SET changes the variables as the specification says, and nothing without an equals sign |
| ProcValues.PutAssigns | src/dispatch.hpp:1641-1641 | storing a variable gives it the value, keeps every other variable as it was, and keeps the order |
| ProcValues.ValueHolds | src/dispatch.hpp:1417-1421 | looking a name up finds exactly the value that it holds |
| ProcValues.QuotesDropped | src/dispatch.hpp:1377-1383 | a text in a pair of equal quotes loses them |
| ProcValues.QuotesKept | src/dispatch.hpp:1377-1383 | every other text stays as it is |
| Text.WordsSpaced | src/dispatch.hpp:1570-1571 | words written with white space between them are read one after the other |
| ProcValues.SetAssigns | src/dispatch.hpp:1612-1644 | SET x = e: the variable named before the first equals sign holds the value, every other variable what it held, and nothing else changes, in any letter case and white space |
| ProcValues.SetNothing | src/dispatch.hpp:1612-1616 | SET without an equals sign changes nothing |
| ProcValues.SetWord | src/dispatch.hpp:1641-1641 | the value of one word is that of the variable of this name, or the word itself, without quotes |
| ProcValues.SetArithmetic | src/dispatch.hpp:1621-1641 | of two operands with an operator between them it is the result, the text itself on a division by zero, and the left operand when one is no number |
| ProcValues.CondOpposites | src/dispatch.hpp:1482-1487 | without two numbers the comparisons of a condition are those of an order of texts: exactly one of <, = and > holds |
| ProcValues.LessOrder | src/dispatch.hpp:1484-1487 | that order is the one of the dictionary |
| ProcValues.CondWord | src/dispatch.hpp:1461-1468 | a single word is a condition that holds unless its value is empty or 0 |
| ProcValues.CondLength | src/dispatch.hpp:1461-1472 | no word or two never hold as a condition, and of more than three words only the first three count |
| ProcValues.DeclareAssigns | src/dispatch.hpp:1594-1608 | DECLARE x TYPE: x holds its initial value, and nothing else changes |
| ProcValues.InitialValue | src/dispatch.hpp:1596-1607 | the initial value is that behind the first DEFAULT, else 0, and empty instead of 0 for a type of texts |
| ProcValues.DeclareHandler | src/dispatch.hpp:1572-1581 | the handler remembers the variable and the value behind SET |
| ProcValues.DeclareCursor | src/dispatch.hpp:1582-1592 | DECLARE c CURSOR FOR query: a closed cursor with the query under the name in upper case |
| ProcValues.NamesRead | src/dispatch.hpp:1701-1703 | names written with commas between them, in any white space, are read as those names, without an empty last one |
| ProcValues.FetchLoads | src/dispatch.hpp:1681-1706 | each variable listed once last holds its column of the row at the cursor without quotes, every unlisted variable what it held, and the cursor is one further |
| ProcValues.FetchEnds | src/dispatch.hpp:1691-1700 | when the rows are used up the handler variable holds its value; without a handler nothing changes |
| ProcValues.OpenRewinds | src/dispatch.hpp:1646-1671 | OPEN puts the cursor in front of the first row of its result |
| ProcValues.CloseRewinds | src/dispatch.hpp:1673-1679 | CLOSE puts it there too, and keeps the rows |
| ProcValues.CursorGivesRows | src/dispatch.hpp:1681-1706 | over repeated FETCH a cursor gives its rows one by one, in order, none lost or given twice |
| ProcValues.CursorEnds | src/dispatch.hpp:1696-1700 | after as many fetches as there are rows, one more stores the value of the handler |
| ProcHang.BodyKeeps | src/dispatch.hpp:1548-1797 | what every simple statement of a body keeps, running the body keeps, through loops, branches and LEAVE |
| ProcHang.BodyHangsIff | src/dispatch.hpp:1548-1803 | a body hangs exactly when its run comes to a simple statement with an empty name stored and such a position in its SQL text |
| ProcHang.NamedBodyEnds | src/dispatch.hpp:1548-1803 | a body in which no statement at any depth stores an empty name always comes back |
| ProcHang.WitnessHangs | src/dispatch.hpp:1613-1644 | `SET =` and then a query: hangs, in any spelling and white space, from any state |
| Text.PTrim | src/dispatch.hpp:1372-1376 | erasing blanks one by one at both ends gives the trimmed text |
| Text.LettersRead | src/dispatch.hpp:1368-1371 | every letter has its own upper-case letter |
| Text.WordCharacters | src/dispatch.hpp:1384-1386 | the characters of words are the letters, the digits and the underscore; white space is what isspace says |
| StatementSplitter.SplitStatements | src/dispatch.hpp:136-237 | the scanner with its flags and depth computes the list of trimmed pieces |
| StatementSplitter.PeekWord | src/dispatch.hpp:206-211 | the letters after blanks, in upper case |
| StatementSplitter.Lossless | src/dispatch.hpp:136-237 | the raw pieces joined by semicolons are the input |
| StatementSplitter.CutPlace | src/dispatch.hpp:136-237 | a cut is made only outside literals, comments and BEGIN/END blocks, and nowhere earlier |
| StatementSplitter.OutputChain | src/dispatch.hpp:136-237 | every output statement is one whole statement, and only the last may leave the scanner open |
| StatementSplitter.Resplit | src/dispatch.hpp:136-237 | splitting any output statement gives just that statement |
| StatementSplitter.JoinAgain | src/dispatch.hpp:136-237 | the output joined with line break and semicolon splits into the same list |
| StatementSplitter.BareJoin | src/dispatch.hpp:136-237 | a semicolon alone keeps two statements apart exactly when no line comment is open at its place |
| SplitterTokens.SplitTokens | src/dispatch.hpp:136-237 | told of words, signs, literals and comments, the statements are the trimmed texts between the semicolons outside BEGIN...END; only the words BEGIN and END, with what follows END, change the depth |
| SplitterTokens.Lex | src/dispatch.hpp:136-237 | every text is the text of one such list, so this says where every input is cut |
| SplitterTokens.EndWord | src/dispatch.hpp:206-214 | behind END and blanks, IF, LOOP, WHILE and CASE in any letter case leave the depth as it is and every other word of letters lowers it |
| ProcBlocks.BlockIsOne | src/dispatch.hpp:136-237 | a head, BEGIN, the listing of a printable program without quotes, comment marks, BEGIN and END, and END are one statement, and what stands behind its semicolon is split as if alone |
| ProcBlocks.ProcedureThen | src/dispatch.hpp:136-237 | BEGIN, such a listing, END, a semicolon and one more statement split into exactly these two |
| WalCrc.WalCrc32 | src/wal/wal_recovery.hpp:51-62 | the bitwise loop is the reflected CRC-32 of the message bits |
| WalCrc.ShiftXor | src/wal/wal_recovery.hpp:55-58 | the step without input is linear |
| WalCrc.FeedXor | src/wal/wal_recovery.hpp:53-60 | the difference of two checksum runs is the run of the difference |
| WalCrc.FeedInjective | src/wal/wal_recovery.hpp:53-60 | the same input keeps different states different |
| WalCrc.BurstDetected | src/wal/wal_recovery.hpp:51-62 | equally long texts that differ within one burst of at most 32 bits have different checksums |
| WalCrc.FourBytes | src/wal/wal_recovery.hpp:51-62 | damage to at most four neighbouring bytes is always detected |
| WalDivision.CrcIsRemainder | src/wal/wal_recovery.hpp:51-62 | the checksum is the complement of the remainder of the long division by x^32+x^26+x^23+x^22+x^16+x^12+x^11+x^10+x^8+x^7+x^5+x^4+x^2+x+1, as section 8 of RFC 1952 defines it |
| WalDivision.CrcDetermined | src/wal/wal_recovery.hpp:51-62 | that remainder determines the checksum |
| WalDivision.GeneratorVanishes | src/wal/wal_recovery.hpp:57-57 | feeding the coefficients of that polynomial leaves nothing |
| WalDivision.ShortCrcs | src/wal/wal_recovery.hpp:52-61 | the checksums of three short texts, which fix the initial and the final value |
| WalScan.ScanWal | src/wal/wal_recovery.hpp:65-133 | the line loop computes the scanner's fold over the lines |
| WalScan.SetCommitted | src/wal/wal_recovery.hpp:94-95 | the search loop changes the first transaction with the id and no other |
| WalScan.BeforeBegin | src/wal/wal_recovery.hpp:82-133 | lines of operations in front of the first TX_BEGIN belong to no transaction |
| WalScan.UnreadableIsZero | src/wal/wal_recovery.hpp:81-121 | a number that cannot be read counts as 0 in each kind of line |
| WalScan.DamageCommitsNothing | src/wal/wal_recovery.hpp:88-113 | any line with another CRC in the place of a commit line, and then its CRC line, with or without other lines between, leave nothing committed that was not before |
| WalScan.DamageDetected | src/wal/wal_recovery.hpp:98-113 | a line damaged by one burst of at most 32 bits has another CRC, unless it ends in a carriage return |
| WalOps.Escape | src/engine/engine.hpp:9264-9274 | the loop escapes backslash, newline and carriage return |
| WalOps.Unescape | src/wal/wal_recovery.hpp:138-152 | the loop with its look-ahead computes the unescaped text |
| WalOps.UnescapeEscape | src/wal/wal_recovery.hpp:138-152 | unescaping inverts escaping on every text |
| WalOps.EscapeSame | src/engine/engine.hpp:9264-9274 | escaping changes nothing exactly when there is no backslash and no line break |
| WalOps.AppendWal | src/engine/engine.hpp:9277-9300 | appends the lines of the operation and the separator |
| WalOps.OpOneLine | src/engine/engine.hpp:9277-9300 | whatever its values hold, each of those texts is one line |
| WalOps.ReadOpBlock | src/wal/wal_recovery.hpp:165-208 | the loop over the lines of a block reads the operation the specification reads, with and without unescaping |
| WalOps.ParsePrinted | src/wal/wal_recovery.hpp:165-208 | a written operation reads back complete except for its empty values; the reader that does not unescape gives values as they were escaped |
| WalOps.RoundTrip | src/wal/wal_recovery.hpp:165-208 | reading inverts writing exactly when no value is empty and, without unescaping, no value has a backslash or a line break |
| WalOps.EmptyValueLost | src/wal/wal_recovery.hpp:180-181 | an insert with an empty value comes back without it |
| WalLog.WriteTransaction | src/engine/engine.hpp:3828-3923 | begin, the operations and commit or rollback write the log lines of the transaction, with its time stamps and its CRC line |
| WalLog.LogFile | src/engine/engine.hpp:9258-9300 | reading the file line by line gives back exactly the lines that were written |
| WalLog.ScanTx | src/wal/wal_recovery.hpp:76-131 | after any number of lines of a transaction the scanner knows a prefix of its blocks and whether it ended; at its end the CRC line has taken back the pending commit with the largest id, if that has another CRC |
| WalLog.CrashAtomicity | src/wal/wal_recovery.hpp:65-133 | scanning any line prefix of a log whose CRC lines fit gives exactly the entries of that prefix |
| WalLog.CrashAtomicityIff | src/wal/wal_recovery.hpp:65-133 | for distinct ids, every cut is read right exactly when each CRC line meets a pending commit line that has its CRC |
| WalLog.SerialIff | src/wal/wal_recovery.hpp:98-113 | where commit lines have different CRCs, that is exactly when a commit with a CRC line has a larger id than all commits without one before it |
| WalLog.RisingFits | src/wal/wal_recovery.hpp:98-113 | larger ids suffice whatever the CRCs are |
| WalLog.WrongCommit | src/wal/wal_recovery.hpp:98-113 | an undamaged log in which the CRC line of commit 3 takes back commit 5 |
| WalLog.EntriesAtomic | src/wal/wal_recovery.hpp:65-133 | those entries are a prefix of the transactions with complete blocks only, and one counts as committed exactly when its commit line is in the prefix |
| WalLog.NothingPending | src/wal/wal_recovery.hpp:98-113 | with a CRC line for every commit the pending commits are what they were before the log |
| WalDamage.NotMarker | src/wal/wal_recovery.hpp:81-118 | one burst of at most 32 bits cannot turn a commit line into a begin or a rollback line |
| WalDamage.DamagedLog | src/wal/wal_recovery.hpp:65-133 | one damaged commit line anywhere in a log whose earlier commits have CRC lines: the scan gives what it gives without the damage, with the damaged transaction uncommitted and the one that the line reads as, if any, committed or not as its CRC decides |
| WalDamage.DamageOutcome | src/wal/wal_recovery.hpp:65-133 | when the CRC differs: the damaged transaction is not committed, each earlier one is committed exactly when it was and the line does not read as its commit, and each later one exactly when it was |
| WalDamage.DamageRevokes | src/wal/wal_recovery.hpp:88-113 | one damaged byte in the commit line of transaction 5 takes back transaction 3, which had been verified |
| WalTorn.CutFile | src/wal/wal_recovery.hpp:76-79 | a file cut at any byte gives its whole lines and what is left of the next one |
| WalTorn.TornStep | src/wal/wal_recovery.hpp:76-131 | one more line leaves the committed transactions as they are exactly when it is no commit line of a transaction without commit and no CRC line that takes a commit back |
| WalTorn.ByteCrashIff | src/wal/wal_recovery.hpp:65-133 | a crash at any byte leaves the committed transactions of the whole lines exactly when the torn line is harmless in that sense |
| WalTorn.ByteCrashDurable | src/wal/wal_recovery.hpp:220-259 | recovery then applies the operations of exactly the transactions whose commit line was written |
| WalTorn.TornCrcLoses | src/wal/wal_recovery.hpp:98-113 | a crash between the digits of the CRC line always loses a transaction whose commit line is whole |
| WalTorn.TornCommits | src/wal/wal_recovery.hpp:88-97 | a commit line torn behind all but its last digit commits a transaction that never ended |
| WalRecovery.ReplayBlocks | src/wal/wal_recovery.hpp:244-254 | the loop replays the parsed operations in order, skipping the ones the engine refuses |
| WalRecovery.ReplayMeans | src/wal/wal_recovery.hpp:242-256 | each operation is applied to the state left by those before it, or changes nothing when the engine refuses it, and exactly the ones taken are counted |
| WalRecovery.Recover | src/wal/wal_recovery.hpp:220-259 | the engine gets the operations of the committed transactions in log order; recovered, discarded and remaining transactions, each told by its own flags and blocks, add up to all |
| WalRecovery.CountsAre | src/wal/wal_recovery.hpp:234-240 | transactions count as recovered when committed, and as discarded when neither committed nor rolled back with at least one complete operation |
| WalRecovery.RecoverDurable | src/wal/wal_recovery.hpp:220-259 | whatever line a crash cut the written log at, recovery applies the operations of exactly the transactions whose commit line was written, in order, each as the reader gives it back |
| WalRecovery.RecoverWritten | src/wal/wal_recovery.hpp:220-259 | these are the operations as they were written exactly when none of them has an empty value or, without unescaping, a backslash or a line break |
| PointInTime.ParseTxTimestamp | src/wal/pitr_manager_impl.hpp:132-153 | the stamp line between the transaction's BEGIN line and its COMMIT or the next BEGIN line, or 0 |
| PointInTime.StampFound | src/wal/pitr_manager_impl.hpp:132-153 | in a log with distinct ids it is the transaction's own stamp, or 0 when it has none |
| PointInTime.RestoreSegment | src/wal/pitr_manager_impl.hpp:67-106 | one segment extends the restored history by its committed transactions |
| PointInTime.RestoreToPoint | src/wal/pitr_manager_impl.hpp:45-106 | exactly the committed transactions that satisfy both targets are replayed, in segment order; replayed and skipped add up to all |
| PointInTime.PrefixIff | src/wal/pitr_manager_impl.hpp:81-89 | skipping gives a prefix of the history exactly when nothing wanted follows something skipped |
| PointInTime.TimeTargets | src/wal/pitr_manager_impl.hpp:82-85 | every time target reaches a prefix exactly when no time in the history is followed by an earlier one; times up to 1 are let off, since targets are positive |
| PointInTime.TxTargets | src/wal/pitr_manager_impl.hpp:86-89 | every transaction target reaches a prefix exactly when no id is followed by a smaller one, ids up to 1 let off |
| PointInTime.PointReached | src/wal/pitr_manager_impl.hpp:65-106 | for a history in time order the restore reaches the state after all transactions up to the target time |
| PointInTime.SkipEnd | src/wal/pitr_manager_impl.hpp:145-150 | the time stamp behind a commit line is never taken for the transaction's |
| PointInTime.HistoryWritten | src/wal/pitr_manager_impl.hpp:45-79 | over segments that transactions wrote, the history that the restore sees is the list of the committed transactions, with their ids, time stamps and operations as the log gives them back |
| PointInTime.WrittenTargets | src/wal/pitr_manager_impl.hpp:82-85 | every time target reaches a prefix of the committed transactions exactly when no stamp is followed by an earlier one, stamps up to 1 let off |
| PointInTime.PointWritten | src/wal/pitr_manager_impl.hpp:45-106 | the restored state is the replay of the operations of the first committed transactions, namely those that began up to the target time, as the log gives them back; unchanged exactly when none has an empty value |
| PointInTime.CommittedByTarget | src/wal/pitr_manager_impl.hpp:76-85 | every target gives what was committed by then exactly when each transaction was committed in the second it began, or both in the seconds up to 1 |
| PointInTime.OutOfOrder | src/wal/pitr_manager_impl.hpp:81-89 | two transactions with stamps 9 and 5: a restore to 7 replays the second and not the first |
| PointInTime.BegunCounts | src/wal/pitr_manager_impl.hpp:76-85 | begun at 5 and committed at 9: a restore to 7 has the transaction |
| PointInTime.CurrentLogMissed | src/wal/pitr_manager_impl.hpp:45-67 | for every list of segments and every current log, reading that log too would apply the same transactions exactly when none of its committed ones passes both targets |
| PointInTime.CurrentWritten | src/wal/pitr_manager_impl.hpp:45-67 | the same told of the transactions that wrote the current log |
| PointInTime.CurrentLogLost | src/wal/pitr_manager_impl.hpp:56-67 | a committed transaction of the current log inside the target is left out, whatever the archive holds |
| TransactionManager.TransactionManager.BeginTx | src/transaction_manager.hpp:28-36 | the new id is one above the last and is active |
| TransactionManager.TransactionManager.CommitTx | src/transaction_manager.hpp:39-51 | the id moves from active to committed, and above 10000 entries the set is cut at the horizon |
| TransactionManager.CommitStores | src/transaction_manager.hpp:39-51 | a commit stores its id and forgets none up to 10000 ids; beyond that it forgets exactly the ids older than every active transaction |
| TransactionManager.TransactionManager.PruneCommitted | src/transaction_manager.hpp:45-50 | erasing from the smallest id on leaves exactly the ids from the horizon on |
| TransactionManager.TransactionManager.RollbackTx | src/transaction_manager.hpp:54-57 | the id is no longer active and nothing else changes |
| TransactionManager.TransactionManager.AsksCommitted | src/transaction_manager.hpp:62-68 | 0, a stored committed id, or an inactive id below the smallest active one |
| TransactionManager.TransactionManager.MinActiveTxId | src/transaction_manager.hpp:74-77 | the smallest active id, or one above the counter |
| TransactionManager.TracksStep | src/transaction_manager.hpp:28-57 | every step keeps ids apart, keeps all committed ids from the horizon on, and never lowers the horizon |
| TransactionManager.CommittedExactly | src/transaction_manager.hpp:62-68 | over every run an id is reported committed exactly when it is 0, was committed, or was rolled back with every active id larger; never while active |
| TransactionManager.PruningUnobservable | src/transaction_manager.hpp:39-68 | over every run the answers are those of a manager that never prunes |
| TransactionManager.RolledBackInvisible | src/transaction_manager.hpp:54-68 | a rolled-back id stays invisible exactly while an older transaction is active |
| TransactionManager.RollbackTurnsVisible | src/transaction_manager.hpp:54-68 | begin and roll back: the id is reported committed |
| LockManager.LockManager.AcquireRowLock | src/lock_manager.hpp:24-34 | a free row key gets the thread as owner; an owned one changes nothing and answers whether the thread owns it |
| LockManager.LockManager.AcquireTableLock | src/lock_manager.hpp:39-65 | a free table, a sole holder (which may change the kind), a holder among readers, a new reader among readers, or a refusal: the new maps and the answer in each case |
| LockManager.LockManager.ReleaseRowLocks | src/lock_manager.hpp:68-74 | the erasing loop removes exactly the thread's row locks |
| LockManager.LockManager.ReleaseTableLocks | src/lock_manager.hpp:77-84 | the erasing loop removes the thread from every entry and every entry left empty |
| LockManager.LockManager.ReleaseAllLocks | src/lock_manager.hpp:87-98 | all row and table locks of the thread are gone, and empty entries with them |
| LockManager.LockManager.CheckWriteAllowed | src/lock_manager.hpp:102-109 | true for an unlocked table, and otherwise only for its sole holder |
| LockManager.LockManager.CheckReadAllowed | src/lock_manager.hpp:113-120 | true for an unlocked or READ-locked table, and otherwise only for a holder |
| LockManager.StepRefines | src/lock_manager.hpp:24-98 | every step keeps entries nonempty and WRITE entries at one holder, answers as the textbook table and holds its grants |
| LockManager.RunRefines | src/lock_manager.hpp:24-98 | the same over every interleaving of every number of threads |
| LockManager.AnswersRefine | src/lock_manager.hpp:24-65 | after every interleaving a request is granted exactly when no other thread holds an incompatible lock |
| LockManager.LockSafety | src/lock_manager.hpp:24-65 | two threads that hold the same row or table both hold it for reading |
| LockManager.WriteAllowedExactly | src/lock_manager.hpp:102-109 | a write is allowed exactly when no other thread holds any lock on the table |
| LockManager.ReadAllowedExactly | src/lock_manager.hpp:113-120 | a read is allowed exactly when no other thread holds a WRITE lock on it |
| LockManager.RefusalChangesNothing | src/lock_manager.hpp:24-65 | a refused request changes nothing |
| LockManager.ReleaseExactly | src/lock_manager.hpp:68-98 | a release removes all of the thread's locks of its kind and none of any other thread |
| LockManager.HeldSinceGranted | src/lock_manager.hpp:24-98 | a lock is held exactly when a granted request for it was not followed by a release |
| LockManager.AllReleased | src/lock_manager.hpp:87-98 | once every thread has released, both maps are empty |
| LockManager.RowKeysDiffer | src/lock_manager.hpp:25-25 | without colons in table names, row keys agree exactly for the same row of the same table |
| LockManager.RowKeysMeet | src/lock_manager.hpp:25-25 | two tables have rows with one key exactly when one name and its colon begin the other name and its colon |
| LockManager.RowsHaveOwnLocks | src/lock_manager.hpp:25-25 | every row of a set of tables has a key of its own exactly when no table's name and colon begin another's name |
| LockManager.RowKeysCollide | src/lock_manager.hpp:25-25 | with a colon, two rows of different tables share a key |
| RecursiveCte.SplitUnionAll | src/dispatch.hpp:2065-2096 | the token loop finds the first UNION ALL outside parentheses and rebuilds both sides |
| RecursiveCte.SplitsAtUnion | src/dispatch.hpp:2065-2096 | an anchor with balanced parentheses is separated from the rest whatever stands inside its parentheses |
| RecursiveCte.AnchorFound | src/dispatch.hpp:2065-2096 | for an anchor with parentheses nested to any depth, whatever UNION ALL stands inside them, both sides come back with single blanks between their words; without a UNION ALL outside parentheses there is none |
| RecursiveCte.JoinedSpaced | src/dispatch.hpp:2084-2092 | the rebuilt texts are the words with one blank between them |
| RecursiveCte.Engine.ExecuteRecursiveCte | src/dispatch.hpp:2183-2251 | the result is the anchor and the levels after it up to the first empty or unreadable one or the limit, and is what the CTE's name stands for afterwards; a missing UNION ALL or a failing anchor changes nothing, and an exception in the recursive query leaves the name with the level it was thrown on |
| RecursiveCte.Engine.Iterate | src/dispatch.hpp:2213-2246 | the working-set loop accumulates exactly those levels |
| RecursiveCte.RoundsUnique | src/dispatch.hpp:2221-2246 | the number of rounds is determined |
| RecursiveCte.ThrowsOrEnds | src/dispatch.hpp:2213-2246 | a run that throws does not end, after any number of rounds |
| RecursiveCte.UptoUnrolled | src/dispatch.hpp:2221-2246 | for a distributing query, one more level is the anchor plus the query on everything so far |
| RecursiveCte.SolvesIff | src/dispatch.hpp:2236-2236 | the collected rows solve X = anchor + Q(X) exactly when the next level is empty |
| RecursiveCte.LeastSolution | src/dispatch.hpp:2214-2250 | leaving on an empty level, the result is the least solution |
| RecursiveCte.BelowEverySolution | src/dispatch.hpp:2221-2246 | what the loop has collected is part of every solution at any time |
| RecursiveCte.FiniteSolutionIsFound | src/dispatch.hpp:2214-2250 | if a solution has at most maxIter rows beyond the anchor, the result is one |
| Network.Socket.RecvAll | src/websocket_server.hpp:238-247 | fills the buffer with exactly the next bytes however they are chunked, or fails when the stream ends before |
| Network.Socket.SendAll | src/mysql_server.hpp:425-442 | the send loop sends all bytes in order whatever each call accepts |
| WebSocket.SendFrame | src/websocket_server.hpp:426-447 | sends the frame of section 5.2 of RFC 6455 in the right one of its three length forms |
| WebSocket.ReadFrame | src/websocket_server.hpp:377-424 | for every byte stream, in any chunking: the payload of the first frame that is no ping, the bytes left, and one empty pong for each ping before it; empty for a cut, closed or oversized frame |
| WebSocket.ReadPayload | src/websocket_server.hpp:399-414 | reads the key and the payload and unmasks it |
| WebSocket.ReadLength | src/websocket_server.hpp:381-395 | reads the 7, 16 or 64 bit length |
| WebSocket.Unmask | src/websocket_server.hpp:410-413 | xoring in place applies the repeated key of section 5.3 |
| WebSocket.UnmaskMasked | src/websocket_server.hpp:410-413 | masking twice with one key gives the payload back |
| WebSocket.LengthRoundTrip | src/websocket_server.hpp:381-395 | the length field reads back for every 64-bit length and mask bit |
| WebSocket.ReadWire | src/websocket_server.hpp:377-424 | what reading any well-formed frame gives and where it stops, for data, ping, close and oversized frames with any key |
| WebSocket.SentComesBack | src/websocket_server.hpp:377-447 | a nonempty payload sent comes back with exactly its frame consumed exactly when it has at most 65536 bytes |
| WebSocket.PongConforms | src/websocket_server.hpp:416-421 | the pong conforms to section 5.5.3 exactly when the ping carries no data |
| WebSocket.PongLosesData | src/websocket_server.hpp:416-421 | a ping with one byte, and the pong that does not carry it |
| WebSocket.PingsTransparent | src/websocket_server.hpp:416-421 | any number of pings in front of a message changes nothing but the pongs |
| WebSocket.StreamReadsBack | src/websocket_server.hpp:377-424 | a stream of frames gives back its messages in order, consumes exactly its bytes and answers each ping once |
| Sha1.Sha1Raw | src/websocket_server.hpp:88-131 | the in-place code is SHA-1 of FIPS 180-4 for every input |
| Sha1.PadMessage | src/websocket_server.hpp:91-96 | the padding loops give the padding of section 5.1.1 |
| Sha1.ZeroCountSmallest | src/websocket_server.hpp:94-94 | the number of zero bytes is the smallest that leaves eight bytes in a block |
| Sha1.FillSchedule | src/websocket_server.hpp:98-109 | the 80-word array holds the message schedule of section 6.1.2 |
| Sha1.CompressBlock | src/websocket_server.hpp:110-121 | the 80 rounds are steps 2 to 4 of section 6.1.2 |
| Sha1.RoundFunction | src/websocket_server.hpp:112-116 | the code's functions and constants are those of sections 4.1.1 and 4.2.1 |
| Sha1.ChooseForm | src/websocket_server.hpp:113-113 | the or form of the code is Ch |
| Sha1.MajorityForm | src/websocket_server.hpp:115-115 | the or form of the code is Maj |
| Sha1.RotateForms | src/websocket_server.hpp:107-118 | shifting left and right and joining with or rotates the word |
| Sha1.WordBytes | src/websocket_server.hpp:123-130 | the digest bytes are the five words, most significant byte first |
| Sha1Bits.FunctionBits | src/websocket_server.hpp:113-116 | bit by bit, Ch chooses, Parity is the parity and Maj the majority |
| Sha1Bits.RoundsAre | src/websocket_server.hpp:112-116 | twenty rounds each with Ch, Parity, Maj, Parity, and with 2^30 times the square roots of 2, 3, 5 and 10, rounded down |
| Sha1Bits.StartBytes | src/websocket_server.hpp:89-89 | the bytes of the initial words count up and then down |
| Sha1Bits.PadParts | src/websocket_server.hpp:91-96 | the padded message is the message, the byte 80, fewer than 64 zero bytes and the length in bits as eight bytes, in whole blocks |
| Sha1Bits.ScheduleWords | src/websocket_server.hpp:98-109 | the first sixteen words are the block, most significant byte first, and each later one comes from those 3, 8, 14 and 16 before it |
| Sha1Bits.DigestBlock | src/websocket_server.hpp:97-121 | every block of 64 bytes is compressed into the hash, one after the other |
| Sha1Bits.Rotations | src/websocket_server.hpp:107-118 | the rotations move every bit by 1, 5 and 30 places |
| Handshake.Base64Encode | src/websocket_server.hpp:150-164 | the second encoding loop is the encoding of section 4 of RFC 4648 |
| Handshake.SixBits | src/websocket_server.hpp:150-164 | three bytes are encoded as four numbers of six bits by Table 1 of RFC 4648, one and two bytes with zero bits and equals signs, and group by group |
| Handshake.DecodeEncode | src/websocket_server.hpp:150-164 | the strict decoder inverts it for every input |
| Handshake.EncodeDecode | src/websocket_server.hpp:150-164 | and accepts nothing but encodings |
| Handshake.EncodedLength | src/websocket_server.hpp:150-164 | four characters for every three bytes begun |
| Handshake.ComputeAcceptKey | src/websocket_server.hpp:166-170 | the key is the value of section 4.2.2 of RFC 6455, has 28 characters and decodes to the digest |
| MySqlWire.LeiRoundTrip | src/mysql_server.hpp:110-122 | every length below 2^24 reads back from its length-encoded form |
| MySqlWire.LesRoundTrip | src/mysql_server.hpp:124-127 | a length-encoded string reads back exactly when it is shorter than 2^24 bytes |
| MySqlWire.RowRoundTrip | src/mysql_server.hpp:590-600 | a row packet decodes to its values and NULLs |
| MySqlWire.RowsUnique | src/mysql_server.hpp:590-600 | different rows have different bytes |
| MySqlWire.ReadPacket | src/mysql_server.hpp:396-422 | reads one packet and exactly its bytes under any chunking, and {255, empty} when the stream ends |
| MySqlWire.SendPacket | src/mysql_server.hpp:425-442 | sends the three length bytes, the sequence id and the payload |
| MySqlWire.PacketRoundTrip | src/mysql_server.hpp:407-442 | reading inverts sending exactly for payloads below 2^24 bytes |
| MySqlWire.StreamReadsBack | src/mysql_server.hpp:407-442 | a stream of packets reads back as the same packets |
| MySqlWire.SendResultSet | src/mysql_server.hpp:554-606 | sends the column count, the columns, the live rows and two end packets with consecutive ids modulo 256 |
| MySqlWire.ResultSetReadsBack | src/mysql_server.hpp:554-606 | a result set is columns + live rows + 3 packets, which read back with consecutive ids |
| MySqlWire.RowIsNoEnd | src/mysql_server.hpp:590-602 | no row packet looks like an end packet |
| MySqlWire.ClientFindsEnd | src/mysql_server.hpp:554-606 | a client that knows nothing but the format finds every column, every live row, and stops exactly behind the last end packet |
| MySqlWire.RowPacketDecodes | src/mysql_server.hpp:590-602 | the packet of each live row decodes to its cells, NULL for missing values and the text NULL |
| MySqlClient.RowPacketSays | src/mysql_server.hpp:587-602 | the packet of row j, if no transaction has deleted it, decodes to one cell for each column: value k of the row, or NULL when it is missing or the text NULL |
| MySqlClient.ColumnPacketSays | src/mysql_server.hpp:567-582 | the packet of column k decodes to def, an empty schema, twice the table, twice the name of column k, and 13 fixed bytes |
| MySqlClient.CountAndEnds | src/mysql_server.hpp:554-606 | the first packet reads back to the number of columns, and an end packet follows the columns and the rows |
| MySqlClient.ClientGetsTable | src/mysql_server.hpp:554-606 | a client that knows only the format gets the names of all columns and the values of all rows that are not deleted, in order, nothing else, and stops exactly behind the last packet |
| PgWire.Int32RoundTrip | src/pg_server.hpp:198-218 | reading inverts writing exactly for the signed 32-bit numbers |
| PgWire.MsgRoundTrip | src/pg_server.hpp:239-388 | a message's length field is its own size without the type byte, so it reads back, exactly when the length fits 31 bits |
| PgWire.StreamRoundTrip | src/pg_server.hpp:239-388 | any concatenation of messages parses back to exactly those messages |
| PgWire.MakeDataRow | src/pg_server.hpp:304-329 | builds the row message: NULL for the text NULL, and the empty text as a value |
| PgWire.MakeRowDescription | src/pg_server.hpp:282-300 | builds the description message with one entry for each name |
| PgWire.CellsReadBack | src/pg_server.hpp:304-329 | the values and NULLs of a row are recovered |
| PgWire.ColumnsReadBack | src/pg_server.hpp:282-300 | the column names are recovered |
| PgWire.DecodeEncode | src/pg_server.hpp:239-388 | every reply without NUL in its strings and with at most 32767 columns decodes to itself |
| PgWire.DecodeEncodeIff | src/pg_server.hpp:239-388 | exactly these replies do: the reader accepts no others |
| PgServer.SimpleQuery | src/pg_server.hpp:782-832 | strips NULs, answers an empty query with EmptyQueryResponse, and otherwise runs the split statements up to the first error, then ReadyForQuery |
| PgServer.RunStatements | src/pg_server.hpp:803-829 | the loop sends the answers up to the first error |
| PgServer.HandleMessage | src/pg_server.hpp:781-922 | the replies to Query, Parse, Bind, Describe, Execute, Sync, Flush and unknown messages, the pending statement and the executed statements |
| PgServer.QueryLoop | src/pg_server.hpp:755-922 | for every byte stream of the client, in any chunking, the bytes sent are those of the replies message by message, up to Terminate, disconnect or a bad length |
| PgServer.ReadStartup | src/pg_server.hpp:652-704 | one N for each encryption request; hangs up on a bad length, a cancel request or the end of the stream; otherwise goes on behind the startup message |
| PgServer.HandleClient | src/pg_server.hpp:640-924 | the whole connection sends the rejections, the greeting and the replies |
| PgServer.HandleReady | src/pg_server.hpp:781-922 | ReadyForQuery answers exactly Query, Sync and unknown messages, once and last, also after an error |
| PgServer.StopsAtError | src/pg_server.hpp:803-814 | nothing after the first failing statement is executed, and its error is the last reply before ReadyForQuery |
| PgServer.ServeStream | src/pg_server.hpp:755-922 | the bytes of a list of messages are served message by message |
| PgServer.ReadyOncePerRequest | src/pg_server.hpp:715-922 | over every run, ReadyForQuery is sent once at startup and once for each Query, Sync and unknown message |
| PgServer.RepliesReadBack | src/pg_server.hpp:239-388 | the client reads the server's bytes back as the same replies |
| PgReplies.QueryTells | src/pg_server.hpp:782-832 | a query is answered, statement by statement up to the first failure, with the column names, one data row for each row with exactly its values and NULLs, and the tag, or the tag alone; then the error, if there is one, and ReadyForQuery |
| PgReplies.QueryRows | src/pg_server.hpp:816-824 | the data rows of the whole query are, in order, exactly the rows of its SELECT results |
| PgReplies.BlankOutput | src/pg_server.hpp:789-800 | a text of semicolons and blanks holds no statement, so testing for it first changes nothing |
| PgReplies.ExtendedReplies | src/pg_server.hpp:834-899 | Parse keeps its text and, like Bind, Describe and Sync, gets exactly its own reply |
| PgReplies.ExecuteTells | src/pg_server.hpp:867-893 | Execute runs the statement of the last Parse once and tells its whole result or its error |
| PgReplies.ExtendedQuery | src/pg_server.hpp:834-899 | Parse, Bind, Describe, Execute and Sync together give one reply each around the whole result |
| PgReplies.StartupAccepts | src/pg_server.hpp:652-704 | however many requests with code 80877103 come first, each is rejected once, and a startup message of 8 to 65536 bytes with another code is accepted and exactly its bytes are consumed |
| PgReplies.StartupRefuses | src/pg_server.hpp:652-704 | a request with code 80877102 or a length outside 8 to 65536 ends the connection |
| PgReplies.GreetingTells | src/pg_server.hpp:715-748 | after the greeting the client knows the version and the encodings, and that the server is ready |
| PgReplies.GreetingSettings | src/pg_server.hpp:729-738 | the settings are those of the code |
| PgReplies.RejectionsAre | src/pg_server.hpp:687-692 | each rejected request is answered with the byte N |
| PgReplies.LoopEnds | src/pg_server.hpp:755-780 | a body of at most 2^24 bytes is answered unless it is that of Terminate, which ends the connection; any other length is answered with one error and ends it |
| PgReplies.ErrorTells | src/pg_server.hpp:341-356 | an error has severity ERROR, code 42000 and the message |
| PgReplies.ColumnTells | src/pg_server.hpp:282-293 | every column is described as a text of any length, in text format, of no table |
| Fields.SplitFields | audit_src/migration/migration_manager.hpp:240-249 | the character loop cuts a line at every separator |
| Fields.SplitJoined | audit_src/migration/migration_manager.hpp:240-249 | separator-free fields come back from the joined line |
| Fields.JoinSplit | audit_src/migration/migration_manager.hpp:240-249 | joining the fields of any line gives the line back |
| Fields.LinesJoined | src/dispatch.hpp:1232-1240 | getline gives the joined parts back except for an empty last one |
| Migrations.Escape | audit_src/migration/migration_manager.hpp:216-224 | the loop replaces tabs and newlines |
| Migrations.Unescape | audit_src/migration/migration_manager.hpp:226-238 | the loop with its look-ahead computes the unescaped text |
| Migrations.UnescapeEscape | audit_src/migration/migration_manager.hpp:216-238 | unescaping inverts escaping exactly when no backslash stands directly before a t or an n |
| Migrations.UnescapeLoses | audit_src/migration/migration_manager.hpp:216-238 | a backslash and a t come back as a tab |
| Migrations.LoadSave | audit_src/migration/migration_manager.hpp:135-166 | with names and time stamps free of tabs and line breaks, loading what was saved gives the same store in the same order exactly when all its texts have that form |
| Migrations.LoadSaveIff | audit_src/migration/migration_manager.hpp:135-166 | for every store: exactly when its names and time stamps have no tab or line break and its texts have that form |
| Migrations.LoadLinesValid | audit_src/migration/migration_manager.hpp:150-166 | whatever the file says, the loaded order lists each loaded name once |
| Migrations.RollbackSafe | audit_src/migration/migration_manager.hpp:169-205 | the rollback derived from a statement that survives saving survives it too |
| Migrations.RollbackOfAdd | audit_src/migration/migration_manager.hpp:169-190 | ALTER TABLE t ADD COLUMN c is undone by dropping the column, in any letter case, with or without a semicolon behind the names |
| Migrations.RollbackOfCreate | audit_src/migration/migration_manager.hpp:191-203 | CREATE TABLE t is undone by dropping the table, with or without a bracket or a semicolon behind the name |
| Migrations.RollbackOfOther | audit_src/migration/migration_manager.hpp:169-205 | any other statement has no rollback |
| Migrations.MigrationManager.constructor | audit_src/migration/migration_manager.hpp:32-32 | the store is what the file holds |
| Migrations.MigrationManager.LoadOne | audit_src/migration/migration_manager.hpp:154-165 | one line adds or replaces one record, and lists its name once |
| Migrations.MigrationManager.Save | audit_src/migration/migration_manager.hpp:135-148 | the file holds one line for each listed migration |
| Migrations.MigrationManager.CreateMigration | audit_src/migration/migration_manager.hpp:35-47 | adds a pending migration at the end, or refuses a known name without change |
| Migrations.MigrationManager.MarkApplied | audit_src/migration/migration_manager.hpp:58-67 | stamps a pending migration, or refuses without change |
| Migrations.MigrationManager.MarkRolledBack | audit_src/migration/migration_manager.hpp:76-85 | makes an applied migration pending, or refuses without change |
| Migrations.RunValid | audit_src/migration/migration_manager.hpp:35-86 | over every run the order is a duplicate-free listing of exactly the stored names |
| Migrations.RestartKeepsStore | audit_src/migration/migration_manager.hpp:35-166 | after every run of storable commands a restart finds the same store |
| Migrations.RestartIff | audit_src/migration/migration_manager.hpp:35-166 | after every run of any commands a restart finds the same store exactly when no stored name or time stamp has a tab or line break and no stored statement a backslash directly before t or n |
| Partitions.LoadRecord | src/dispatch.hpp:1279-1338 | the lines of one record rebuild it whatever was stored under its name |
| Partitions.LoadRanges | src/dispatch.hpp:1305-1320 | range lines are appended in order; a bound is the number of its text, MAXVALUE the largest 64-bit number, and an empty or unreadable bound the default of the record |
| Partitions.LoadLists | src/dispatch.hpp:1321-1338 | list lines are appended in order with their nonempty values |
| Partitions.RereadSame | src/dispatch.hpp:1279-1338 | a physical record comes back unchanged exactly when its numbers are those of its texts, or the defaults where there is none, and no list value is empty |
| Partitions.CreatedComesBack | src/dispatch.hpp:2475-2502 | a record made by CREATE TABLE comes back unchanged exactly when every bound is a number or the word for none and no list value is empty |
| Partitions.TextBoundsWiden | src/dispatch.hpp:1305-1320 | a range with text bounds is created with 0 and 0 and comes back with the smallest and the largest number |
| Partitions.MetaRoundTrip | src/dispatch.hpp:1172-1340 | loading the saved file rebuilds exactly the physical records |
| PartitionMeta.Engine.SaveMeta | src/dispatch.hpp:1172-1200 | the nested loops write those lines |
| PartitionMeta.Engine.LoadMeta | src/dispatch.hpp:1271-1341 | the line loop is the fold of look-up, append and store-back |
| PartitionMeta.Engine.LoadMetaLine | src/dispatch.hpp:1278-1339 | a TABLE line stores a fresh record; CHILD, RANGE and LIST lines append to the record of a known name that is physical; anything else changes nothing |
| PartitionMeta.Restart | src/dispatch.hpp:1129-1343 | an engine that loads what another saved has all its physical records |
| PartitionFile.LineReadsBack | src/dispatch.hpp:1141-1168 | one line gives a known table its kind, column, hash count, and the limits of its ranges or the values of its lists; an unknown table is passed over |
| PartitionFile.ShortLines | src/dispatch.hpp:1218-1266 | a line of fewer than four fields changes nothing, and one of four gives a known table a record without ranges and lists |
| PartitionFile.FileRoundTrip | src/dispatch.hpp:1129-1270 | loading the saved file gives each known table that was partitioned what the format carries of its record, and leaves the others as they are |
| PartitionFile.BareSame | src/dispatch.hpp:1141-1168 | the format carries a record completely exactly when it has no children and no lower bounds, its limits are those of CREATE TABLE, and no list ends in an empty value |
| PartitionFile.FileExact | src/dispatch.hpp:1129-1270 | loading rebuilds every record exactly when the format carries each partitioned one |
| PartitionFile.SavePartitions | src/dispatch.hpp:1141-1168 | the nested loops write those lines |
| PartitionFile.LoadPartitions | src/dispatch.hpp:1204-1270 | each line with at least four fields stores one record under the name of a known table, later lines replacing earlier ones |
| PartitionFile.ReadRangeTokens | src/dispatch.hpp:1231-1245 | each token with an equals sign gives a range without lower bound, in order; others are passed over |
| PartitionFile.ReadListTokens | src/dispatch.hpp:1250-1264 | each token with an equals sign gives a list with its values, in order |
| RowFilters.DistinctOn | src/dispatch.hpp:1061-1082 | keeps, in input order, the first row of each key, and of each tuple when there is at most one ON column or no ON value holds the separator |
| RowFilters.KeysAgree | src/dispatch.hpp:1066-1074 | a tuple of one value, or without the separator, has its key to itself among the tuples of its length |
| RowFilters.KeyShared | src/dispatch.hpp:1066-1074 | a tuple shares its key with another of its length exactly when it has at least two values and one of them holds the separator |
| RowFilters.OneColumnComparable | src/dispatch.hpp:1066-1074 | one ON column is always compared correctly |
| RowFilters.KeysCollide | src/dispatch.hpp:1066-1074 | with the separator in a value two tuples share a key |
| RowFilters.KeyOfTwo | src/dispatch.hpp:1066-1074 | the key of two values is each of them with the character 1 behind it |
| RowFilters.TupleParts | src/dispatch.hpp:1066-1074 | ON names that are no column play no part, the others stand for the value in the first column of that name, or the empty text in a short row |
| RowFilters.FirstsDiffer | src/dispatch.hpp:1075-1079 | no two returned rows have the same tuple |
| RowFilters.FirstsCover | src/dispatch.hpp:1075-1079 | every input row's tuple is among the returned ones |
| RowFilters.Limit | src/dispatch.hpp:1115-1123 | returns exactly the slice of LIMIT and OFFSET |
| RowFilters.Sample | src/dispatch.hpp:1048-1059 | the loop draws one number for each row; a percentage outside 0 to 100 samples nothing away |
| RowFilters.SampleMonotone | src/dispatch.hpp:1048-1059 | the sample for a smaller percentage is a subsequence of the one for a larger |
| RowFilters.SampleExtremes | src/dispatch.hpp:1048-1059 | 0 percent keeps nothing and 100 percent everything |
| RowFilters.TwoSampled | src/dispatch.hpp:1048-1059 | of two rows the first is kept from 2.05 percent on and the second already from 1.66 percent on, which fixes the generator |
| Decimal.StoULLPrint | src/wal/wal_recovery.hpp:83-83 | an id below 2^64 reads back as printed |
| Decimal.UnsignedReads | src/wal/wal_recovery.hpp:83-83 | stoull reads a text with white space, a sign, digits and anything behind them exactly when the value is below 2^64; a minus sign negates modulo 2^64 |
| Decimal.StoIPrintInt | src/dispatch.hpp:1294-1294 | a 32-bit number reads back as printed, with its sign |
| Decimal.SignedReads | src/dispatch.hpp:1294-1294 | signed numbers are read exactly when they fit |

## Left out

- The engine, the parser, storage, the optimizer, caches, the dispatcher's SHOW and SET cases, TLS, threads, the file
  system and clocks. Engine steps, query evaluation and time stamps are parameters; they depend on nothing
  but their arguments, so changes by other connections in between are not part of this model.
- ProcSubst.ProcState.ExecSimple: arithmetic and comparison of two numbers (std::stod and double), the rows of a query
  and the effect of other SQL are parameters.
- ProcSubst.EndsIff: memory is unlimited; with a nonempty value under the empty name the growing text would exhaust it.
- ProcRefinement.RunsBody: atoms, conditions and labels hold no semicolon and no control keyword, because the splitter
  does not track quotes. END LOOP and END IF have one blank inside, as the scans ask for.
- ProcBlocks.BlockIsOne: the program's texts hold no quote, comment mark, BEGIN or END; SplitterTokens.SplitTokens and
  SplitterTokens.Lex say where any other text is cut.
- WalDamage.DamagedLog: the damage makes no line break, so the damaged line is still one line.
- WalLog.WriteTransaction: one file. The program gives each session a file of its own, `database.milan.wal.sess_` and a
  suffix (src/engine/engine.hpp:3835-3838), while its recovery at startup reads `database.milan.wal`
  (src/main.cpp:671), so it does not read those logs; fsync and the deletion of the log are left out.
- WalOps.RoundTrip: column names hold no blank and no newline, table names no newline, and no field of ALTER is missing
  before another; a SET or WHERE value has a column.
- PointInTime.RestoreToPoint: segments come in the listed order; std::sort by time stamp, reading the directory and the
  restore of the base backup are left out.
- Transaction ids do not wrap around at 2^64.
- LockManager.AcquireRowLock: the mutex makes each method one step; thread ids are numbers; showLocks is left out.
- RecursiveCte.Engine.ExecuteRecursiveCte: column schemas and clones of tables are left out; rows are values. After an
  exception only the tables are stated.
- WebSocket.SendFrame: the single send call accepts the whole frame, because the code does not look at its result.
- Network.Socket.SendAll: the peer takes every byte; failed sends are not modelled.
- MySqlWire.SendPacket: the same.
- The first loop of base64Encode is not modelled: its output is cleared.
- PgServer.QueryLoop: the subtraction in the body length does not overflow for lengths near the smallest 32-bit number.
- PgServer.HandleClient: the plaintext path with TLS unavailable; the TLS handler, the test for a local address and the
  rejection when SSL is required are not part of this model.
- PgServer.RepliesReadBack: for the replies that the format can carry, which `DecodeEncodeIff` tells.
- MySqlWire.SendResultSet: the handshake, commands and query classification around it are left out.
- Partitions.MetaRoundTrip: the tables are those whose record is physical; resolving a table's name against the current
  schema is left out, so a name stands for itself.
- PartitionFile.SavePartitions: opening the file succeeds.
- RowFilters.Sample: draws are compared as real numbers, without float rounding; so are RowFilters.SampleMonotone and
  RowFilters.SampleExtremes.
- Migrations.MigrationManager.Save: writing the file succeeds; the message texts are answers without their wording.
- dispatch_result.hpp, vacuum.hpp, online DDL, the distributed transaction counters and vector distances: small or
  without a clear target.
