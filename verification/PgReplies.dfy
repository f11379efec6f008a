/** What a PostgreSQL client is told, in terms of the results of its statements: which rows it gets, in which order, and
    between which replies. */
module PgReplies {
  import opened Text
  import opened Bytes
  import opened PgWire
  import opened PgServer
  import Splitter = StatementSplitter

  // ------------------------------------------------------------------------------------------
  // One statement

  // The text EMPTY
  predicate NothingToDo(r: QueryResult) { r.commandTag == [69, 77, 80, 84, 89] }

  // A data row with the cells of the row
  ghost predicate RowReply(reply: Reply, row: seq<seq<byte>>) { reply.DataRow? && ShowsRow(reply.cells, row) }

  // The cells of a row: its values, and NULL for the text NULL
  ghost predicate ShowsRow(cells: seq<Cell>, row: seq<seq<byte>>) {
    && |cells| == |row|
    && forall k :: 0 <= k < |row| ==> cells[k] == if row[k] == [78, 85, 76, 76] then None else Some(row[k])
  }

  // The replies to a statement that succeeds: for a query its column names, every row in order, and its tag
  ghost predicate Tells(replies: seq<Reply>, r: QueryResult) {
    if NothingToDo(r) then replies == [EmptyQueryResponse]
    else if r.isSelect then
      && |replies| == |r.rows| + 2
      && replies[0] == RowDescription(r.colNames) && replies[|r.rows| + 1] == CommandComplete(r.commandTag)
      && forall i :: 0 <= i < |r.rows| ==> RowReply(replies[i + 1], r.rows[i])
    else replies == [CommandComplete(r.commandTag)]
  }

  lemma {:induction false} RowsShown(rows: seq<seq<seq<byte>>>)
    ensures |DataRows(rows)| == |rows|
    ensures forall i :: 0 <= i < |rows| ==> RowReply(DataRows(rows)[i], rows[i])
  {
    if rows != [] { RowsShown(rows[1..]); }
  }

  lemma AnswerTells(r: QueryResult)
    requires r.error == []
    ensures Tells(Answer(r), r)
  {
    hide ShowsRow, DataRows;
    RowsShown(r.rows);
    assert Latin("EMPTY") == [69, 77, 80, 84, 89];
  }

  // ------------------------------------------------------------------------------------------
  // A query

  // The result of statement i, executed behind the ones before it
  function ResultAt(e: Engine, log: seq<string>, stmts: seq<string>, i: nat): QueryResult
    requires i < |stmts|
  {
    e(log + stmts[..i], stmts[i])
  }

  function Concat(blocks: seq<seq<Reply>>): seq<Reply> { if blocks == [] then [] else blocks[0] + Concat(blocks[1..]) }

  // Each block tells the result of its statement.
  ghost predicate TellsAll(blocks: seq<seq<Reply>>, e: Engine, log: seq<string>, stmts: seq<string>) {
    |blocks| <= |stmts| && forall i :: 0 <= i < |blocks| ==> Tells(blocks[i], ResultAt(e, log, stmts, i))
  }

  // The first n statements succeed, and the next one, if there is one, fails.
  predicate Succeed(e: Engine, log: seq<string>, stmts: seq<string>, n: nat) {
    && n <= |stmts| && (forall i :: 0 <= i < n ==> ResultAt(e, log, stmts, i).error == [])
    && (n < |stmts| ==> ResultAt(e, log, stmts, n).error != [])
  }

  function LastReplies(e: Engine, log: seq<string>, stmts: seq<string>, n: nat): seq<Reply>
    requires n <= |stmts|
  {
    (if n < |stmts| then [ErrorResponse(ResultAt(e, log, stmts, n).error)] else []) + [ReadyForQuery]
  }

  lemma LaterResult(e: Engine, log: seq<string>, stmts: seq<string>, i: nat)
    requires 0 < i < |stmts|
    ensures ResultAt(e, log, stmts, i) == ResultAt(e, log + [stmts[0]], stmts[1..], i - 1)
  {
    assert log + stmts[..i] == log + [stmts[0]] + stmts[1..][..i - 1];
  }

  lemma SucceedLater(e: Engine, log: seq<string>, stmts: seq<string>, n: nat)
    requires Succeed(e, log, stmts, n) && n > 0
    ensures Succeed(e, log + [stmts[0]], stmts[1..], n - 1)
    ensures LastReplies(e, log, stmts, n) == LastReplies(e, log + [stmts[0]], stmts[1..], n - 1)
  {
    hide ResultAt;
    forall i | 0 < i <= n && i < |stmts|
      ensures ResultAt(e, log, stmts, i) == ResultAt(e, log + [stmts[0]], stmts[1..], i - 1)
    {
      LaterResult(e, log, stmts, i);
    }
    forall i | 0 <= i < n - 1 ensures ResultAt(e, log + [stmts[0]], stmts[1..], i).error == [] {
      assert ResultAt(e, log, stmts, i + 1).error == [];
    }
  }

  lemma FirstBlock(block: seq<Reply>, rest: seq<seq<Reply>>, e: Engine, log: seq<string>, stmts: seq<string>)
    requires stmts != [] && Tells(block, ResultAt(e, log, stmts, 0)) && TellsAll(rest, e, log + [stmts[0]], stmts[1..])
    ensures TellsAll([block] + rest, e, log, stmts) && Concat([block] + rest) == block + Concat(rest)
  {
    hide Tells, ResultAt;
    var blocks := [block] + rest;
    assert blocks[1..] == rest;
    forall i | 0 <= i < |blocks| ensures Tells(blocks[i], ResultAt(e, log, stmts, i)) {
      if i > 0 { LaterResult(e, log, stmts, i); }
    }
  }

  lemma {:induction false} RunTells(e: Engine, log: seq<string>, stmts: seq<string>, n: nat) returns (blocks: seq<seq<Reply>>)
    requires "" !in stmts && Succeed(e, log, stmts, n)
    ensures |blocks| == n && TellsAll(blocks, e, log, stmts)
    ensures RunAll(e, log, stmts).0 == Concat(blocks) + LastReplies(e, log, stmts, n)
    ensures RunAll(e, log, stmts).1 == log + if n < |stmts| then stmts[..n + 1] else stmts
    decreases |stmts|
  {
    hide Answer, Tells, Succeed, RunAll, TellsAll;
    RunStart(e, log, stmts, n);
    SucceedBound(e, log, stmts, n);
    if n == 0 {
      blocks := [];
      assert log + [] == log;
      NoBlocks(e, log, stmts);
    } else {
      var later := log + [stmts[0]];
      SucceedLater(e, log, stmts, n);
      var rest := RunTells(e, later, stmts[1..], n - 1);
      var first := Answer(ResultAt(e, log, stmts, 0));
      AnswerTells(ResultAt(e, log, stmts, 0));
      FirstBlock(first, rest, e, log, stmts);
      blocks := [first] + rest;
      Regroup(first, Concat(rest), LastReplies(e, log, stmts, n));
      assert later + stmts[1..] == log + stmts;
      assert n < |stmts| ==> later + stmts[1..][..n] == log + stmts[..n + 1];
    }
  }

  lemma NoBlocks(e: Engine, log: seq<string>, stmts: seq<string>)
    ensures TellsAll([], e, log, stmts) && Concat([]) == []
  {
  }

  // How the run starts
  lemma RunStart(e: Engine, log: seq<string>, stmts: seq<string>, n: nat)
    requires "" !in stmts && Succeed(e, log, stmts, n)
    ensures n == 0 && stmts == [] ==> RunAll(e, log, stmts) == ([ReadyForQuery], log)
    ensures n == 0 && stmts != [] ==>
              RunAll(e, log, stmts) == (LastReplies(e, log, stmts, 0), log + stmts[..1])
    ensures n > 0 ==>
              && stmts != [] && "" !in stmts[1..] && ResultAt(e, log, stmts, 0).error == []
              && var (replies, log') := RunAll(e, log + [stmts[0]], stmts[1..]);
                 RunAll(e, log, stmts) == (Answer(ResultAt(e, log, stmts, 0)) + replies, log')
  {
    hide Answer;
    assert log + stmts[..0] == log;
    if stmts != [] {
      assert stmts[..1] == [stmts[0]] && stmts[0] in stmts;
      var failed := ErrorResponse(ResultAt(e, log, stmts, 0).error);
      assert [failed] + [ReadyForQuery] == [failed, ReadyForQuery];
    }
  }

  // ------------------------------------------------------------------------------------------
  // The query text

  function Nuls(n: nat): (r: seq<byte>)
    ensures |r| == n
  {
    seq(n, i => 0)
  }

  lemma CharsAre(b: seq<byte>)
    ensures |Chars(b)| == |b| && forall i :: 0 <= i < |b| ==> Chars(b)[i] as int == b[i]
  {
  }

  // The NULs at the end are dropped, and nothing else.
  lemma {:induction false} NulsDropped(text: seq<byte>, n: nat)
    requires text == [] || text[|text| - 1] != 0
    ensures StripNuls(Chars(text + Nuls(n))) == Chars(text)
  {
    var s := Chars(text + Nuls(n));
    if n == 0 {
      assert text + Nuls(0) == text;
    } else {
      assert s[..|s| - 1] == Chars(text + Nuls(n - 1));
      NulsDropped(text, n - 1);
    }
  }

  lemma BlankTrim(p: string)
    requires AllSpace(p)
    ensures Keep(p) == []
  {
    TrimLeftPad(p, "");
    assert p + "" == p;
  }

  lemma {:induction false} BlankRest(s: string)
    requires OnlySemicolons(s)
    ensures AllSpace(s[..|s| - |Splitter.Rest(Splitter.FRESH, s)|])
    decreases |s|
  {
    hide Splitter.Step;
    if s != "" && s[0] != ';' {
      Splitter.StepSpace(Splitter.FRESH, s);
      BlankRest(s[1..]);
      var r := Splitter.Rest(Splitter.FRESH, s);
      assert r == Splitter.Rest(Splitter.FRESH, s[1..]);
      assert s[..|s| - |r|] == [s[0]] + s[1..][..|s[1..]| - |r|];
    }
  }

  // A text of semicolons and blanks holds no statement, so testing for it first changes nothing.
  lemma {:induction false} BlankOutput(s: string)
    requires OnlySemicolons(s)
    ensures Splitter.Output(s) == []
    decreases |s|
  {
    hide Splitter.Rest, Splitter.Output, OnlySemicolons;
    var r := Splitter.Rest(Splitter.FRESH, s);
    var p := s[..|s| - |r|];
    BlankRest(s);
    BlankTrim(p);
    Splitter.OutputStep(s, p, r);
    if r != "" {
      Splitter.RestSuffix(Splitter.FRESH, s);
      BlankLater(s, |s| - |r| + 1);
      BlankOutput(r[1..]);
    }
  }

  lemma BlankLater(s: string, k: nat)
    requires OnlySemicolons(s) && k <= |s|
    ensures OnlySemicolons(s[k..])
  {
  }

  lemma StatementsFilled(s: string)
    ensures "" !in Splitter.Output(s)
  {
    hide Splitter.Output, Splitter.Through;
    Splitter.OutputChain(s);
    forall k | 0 <= k < |Splitter.Output(s)| ensures Splitter.Output(s)[k] != "" {}
  }

  // A Query message with any text and any number of NULs behind it: the statements of the text are executed in order up to
  // the first that fails. The replies tell the result of each statement before that, in order, then the error, and end in
  // ReadyForQuery; without a statement there is only the empty response.
  lemma QueryTells(e: Engine, s: Session, text: seq<byte>, nuls: nat, n: nat) returns (blocks: seq<seq<Reply>>)
    requires (text == [] || text[|text| - 1] != 0) && Succeed(e, s.log, Splitter.Output(Chars(text)), n)
    ensures var stmts := Splitter.Output(Chars(text));
            var (replies, s') := Handle(e, s, Msg(81, text + Nuls(nuls)));
            && |blocks| == n && TellsAll(blocks, e, s.log, stmts)
            && replies == (if stmts == [] then [EmptyQueryResponse] else []) + Concat(blocks)
                          + LastReplies(e, s.log, stmts, n)
            && s' == s.(log := s.log + if n < |stmts| then stmts[..n + 1] else stmts)
  {
    hide Splitter.Output, OnlySemicolons, RunAll, TellsAll, Chars, StripNuls, LastReplies, Concat, Nuls, Succeed;
    var sql := Chars(text);
    var stmts := Splitter.Output(sql);
    NulsDropped(text, nuls);
    StatementsFilled(sql);
    if OnlySemicolons(sql) { BlankOutput(sql); }
    blocks := RunTells(e, s.log, stmts, n);
    SucceedBound(e, s.log, stmts, n);
    if stmts == [] {
      NothingLast(e, s.log, blocks);
      assert s.log + [] == s.log;
    } else {
      assert [] + Concat(blocks) == Concat(blocks);
    }
  }

  lemma SucceedBound(e: Engine, log: seq<string>, stmts: seq<string>, n: nat)
    requires Succeed(e, log, stmts, n)
    ensures n <= |stmts|
  {
  }

  lemma NothingLast(e: Engine, log: seq<string>, blocks: seq<seq<Reply>>)
    requires blocks == []
    ensures [EmptyQueryResponse] + Concat(blocks) + LastReplies(e, log, [], 0) == [EmptyQueryResponse, ReadyForQuery]
  {
  }

  // ------------------------------------------------------------------------------------------
  // The rows alone

  // The cells of all data rows, in order
  function RowsIn(rs: seq<Reply>): seq<seq<Cell>> {
    if rs == [] then [] else (if rs[0].DataRow? then [rs[0].cells] else []) + RowsIn(rs[1..])
  }

  // The rows of all results, in order
  function RowsOf(e: Engine, log: seq<string>, stmts: seq<string>, n: nat): seq<seq<seq<byte>>>
    requires n <= |stmts|
  {
    if n == 0 then []
    else
      var r := ResultAt(e, log, stmts, n - 1);
      RowsOf(e, log, stmts, n - 1) + if r.isSelect && !NothingToDo(r) then r.rows else []
  }

  ghost predicate ShowsRows(cells: seq<seq<Cell>>, rows: seq<seq<seq<byte>>>) {
    |cells| == |rows| && forall i :: 0 <= i < |rows| ==> ShowsRow(cells[i], rows[i])
  }

  lemma {:induction false} RowsInConcat(a: seq<Reply>, b: seq<Reply>)
    ensures RowsIn(a + b) == RowsIn(a) + RowsIn(b)
  {
    if a == [] {
      assert a + b == b;
    } else {
      assert (a + b)[1..] == a[1..] + b;
      RowsInConcat(a[1..], b);
    }
  }

  lemma {:induction false} DataRowsIn(rs: seq<Reply>, rows: seq<seq<seq<byte>>>)
    requires |rs| == |rows| && forall i :: 0 <= i < |rows| ==> RowReply(rs[i], rows[i])
    ensures ShowsRows(RowsIn(rs), rows)
  {
    hide ShowsRow;
    if rs != [] {
      DataRowsIn(rs[1..], rows[1..]);
      assert RowsIn(rs) == [rs[0].cells] + RowsIn(rs[1..]);
      assert rows == [rows[0]] + rows[1..];
    }
  }

  lemma BlockRows(block: seq<Reply>, r: QueryResult)
    requires Tells(block, r)
    ensures ShowsRows(RowsIn(block), if r.isSelect && !NothingToDo(r) then r.rows else [])
  {
    hide ShowsRow;
    if r.isSelect && !NothingToDo(r) {
      var n := |r.rows|;
      var mid := block[1..n + 1];
      assert block == [block[0]] + mid + [block[n + 1]];
      RowsInConcat([block[0]] + mid, [block[n + 1]]);
      RowsInConcat([block[0]], mid);
      NoRows([block[0]]);
      NoRows([block[n + 1]]);
      forall i | 0 <= i < n ensures RowReply(mid[i], r.rows[i]) {
        assert RowReply(block[i + 1], r.rows[i]) && mid[i] == block[i + 1];
      }
      DataRowsIn(mid, r.rows);
      assert [] + RowsIn(mid) + [] == RowsIn(mid);
    } else {
      NoRows(block);
    }
  }

  lemma {:induction false} NoRows(rs: seq<Reply>)
    requires forall i :: 0 <= i < |rs| ==> !rs[i].DataRow?
    ensures RowsIn(rs) == []
  {
    if rs != [] { NoRows(rs[1..]); }
  }

  lemma {:induction false} ConcatNext(blocks: seq<seq<Reply>>, last: seq<Reply>)
    ensures Concat(blocks + [last]) == Concat(blocks) + last
  {
    if blocks == [] {
      assert [] + [last] == [last] && Concat([last]) == last + Concat([]);
    } else {
      assert (blocks + [last])[1..] == blocks[1..] + [last];
      ConcatNext(blocks[1..], last);
    }
  }

  lemma {:induction false} BlocksRows(blocks: seq<seq<Reply>>, e: Engine, log: seq<string>, stmts: seq<string>)
    requires TellsAll(blocks, e, log, stmts)
    ensures ShowsRows(RowsIn(Concat(blocks)), RowsOf(e, log, stmts, |blocks|))
    decreases |blocks|
  {
    hide Tells, ShowsRow, ResultAt;
    if blocks != [] {
      var n := |blocks| - 1;
      var init := blocks[..n];
      assert blocks == init + [blocks[n]];
      BlocksRows(init, e, log, stmts);
      ConcatNext(init, blocks[n]);
      RowsInConcat(Concat(init), blocks[n]);
      BlockRows(blocks[n], ResultAt(e, log, stmts, n));
    }
  }

  // The data rows that answer a query are, in order, exactly the rows of its SELECT results, with exactly their values and
  // NULLs.
  lemma QueryRows(e: Engine, s: Session, text: seq<byte>, nuls: nat, n: nat)
    requires (text == [] || text[|text| - 1] != 0) && Succeed(e, s.log, Splitter.Output(Chars(text)), n)
    ensures var stmts := Splitter.Output(Chars(text));
            n <= |stmts| && ShowsRows(RowsIn(Handle(e, s, Msg(81, text + Nuls(nuls))).0), RowsOf(e, s.log, stmts, n))
  {
    hide Splitter.Output, Chars, Handle, TellsAll, Succeed, Nuls, ShowsRows, Concat, RowsOf;
    var stmts := Splitter.Output(Chars(text));
    var blocks := QueryTells(e, s, text, nuls, n);
    SucceedBound(e, s.log, stmts, n);
    BlocksRows(blocks, e, s.log, stmts);
    var head: seq<Reply> := if stmts == [] then [EmptyQueryResponse] else [];
    NoRows(head);
    NoRows(LastReplies(e, s.log, stmts, n));
    RowsInConcat(head + Concat(blocks), LastReplies(e, s.log, stmts, n));
    RowsInConcat(head, Concat(blocks));
    assert [] + RowsIn(Concat(blocks)) + [] == RowsIn(Concat(blocks));
  }

  // ------------------------------------------------------------------------------------------
  // The extended query protocol

  // The text that a Parse message carries behind a statement name
  lemma ParseReads(name: seq<byte>, text: seq<byte>, rest: seq<byte>)
    requires 0 !in name && 0 !in text
    ensures ParseSql(name + ([0] + (text + ([0] + rest)))) == Chars(text)
  {
    hide Chars;
    var tail := text + ([0] + rest);
    var body := name + ([0] + tail);
    FindPart(name, 0, [0] + tail);
    assert body[|name| + 1..] == tail;
    FindPart(text, 0, [0] + rest);
  }

  // Parse is answered with ParseComplete and keeps the text; Bind and Describe have just their own reply and keep the
  // session; Sync has ReadyForQuery.
  lemma ExtendedReplies(e: Engine, s: Session, name: seq<byte>, text: seq<byte>, rest: seq<byte>, body: seq<byte>)
    requires 0 !in name && 0 !in text
    ensures Handle(e, s, Msg(80, name + ([0] + (text + ([0] + rest))))) == ([ParseComplete], s.(pending := Chars(text)))
    ensures Handle(e, s, Msg(66, body)) == ([BindComplete], s)
    ensures Handle(e, s, Msg(68, body)) == ([NoData], s)
    ensures Handle(e, s, Msg(83, body)) == ([ReadyForQuery], s)
    ensures Handle(e, s, Msg(72, body)) == ([], s)
  {
    hide Chars, Simple, Execute, ParseSql;
    ParseReads(name, text, rest);
  }

  // Execute runs the statement of the last Parse once, and tells its result or its error; without one, no row is selected.
  lemma ExecuteTells(e: Engine, s: Session, body: seq<byte>)
    ensures var (replies, s') := Handle(e, s, Msg(69, body));
            if s.pending == "" then replies == [CommandComplete([83, 69, 76, 69, 67, 84, 32, 48])] && s' == s
            else
              var r := e(s.log, s.pending);
              && (if r.error != [] then replies == [ErrorResponse(r.error)] else Tells(replies, r))
              && s'.pending == "" && s'.log == s.log + [s.pending]
  {
    hide Simple, Tells, ParseSql;
    assert Latin("SELECT 0") == [83, 69, 76, 69, 67, 84, 32, 48];
    if e(s.log, s.pending).error == [] { AnswerTells(e(s.log, s.pending)); }
  }

  // Parse, Bind, Describe, Execute, Sync of one statement: one reply each, but for Execute the whole result
  lemma ExtendedQuery(e: Engine, s: Session, name: seq<byte>, text: seq<byte>, rest: seq<byte>, b: seq<byte>, d: seq<byte>,
                      x: seq<byte>, y: seq<byte>)
    returns (block: seq<Reply>)
    requires 0 !in name && 0 !in text && text != [] && e(s.log, Chars(text)).error == []
    ensures Tells(block, e(s.log, Chars(text)))
    ensures Conversation(e, s, [Msg(80, name + ([0] + (text + ([0] + rest)))), Msg(66, b), Msg(68, d), Msg(69, x), Msg(83, y)])
         == [ParseComplete, BindComplete, NoData] + block + [ReadyForQuery]
  {
    hide Handle, Tells;
    var p := Msg(80, name + ([0] + (text + ([0] + rest))));
    var s1 := s.(pending := Chars(text));
    assert s1.pending != "" by { CharsAre(text); }
    ExtendedReplies(e, s, name, text, rest, b);
    ExtendedReplies(e, s1, name, text, rest, b);
    ExtendedReplies(e, s1, name, text, rest, d);
    ExecuteTells(e, s1, x);
    block := Handle(e, s1, Msg(69, x)).0;
    var s2 := Handle(e, s1, Msg(69, x)).1;
    ExtendedReplies(e, s2, name, text, rest, y);
    hide Chars;
    LastTurn(e, s2, Msg(83, y));
    ConversationStep(e, s1, Msg(69, x), [Msg(83, y)]);
    ConversationStep(e, s1, Msg(68, d), [Msg(69, x), Msg(83, y)]);
    ConversationStep(e, s1, Msg(66, b), [Msg(68, d), Msg(69, x), Msg(83, y)]);
    ConversationStep(e, s, p, [Msg(66, b), Msg(68, d), Msg(69, x), Msg(83, y)]);
  }

  lemma ConversationStep(e: Engine, s: Session, m: Msg, ms: seq<Msg>)
    ensures Conversation(e, s, [m] + ms) == Handle(e, s, m).0 + Conversation(e, Handle(e, s, m).1, ms)
  {
    hide Handle;
    assert ([m] + ms)[1..] == ms;
  }

  lemma LastTurn(e: Engine, s: Session, m: Msg)
    ensures Conversation(e, s, [m]) == Handle(e, s, m).0
  {
    ConversationStep(e, s, m, []);
    hide Handle;
    assert [m] + [] == [m];
  }

  // ------------------------------------------------------------------------------------------
  // Startup, and the ends of the query loop

  // Eight bytes: the length 8 and the code of a request
  function Request(code: seq<byte>): seq<byte> { [0, 0, 0, 8] + code }

  // n requests for encryption, code 1234.5679
  function Encryptions(n: nat): seq<byte> { if n == 0 then [] else Request([4, 210, 22, 47]) + Encryptions(n - 1) }

  lemma ReadRequest(code: seq<byte>, t: seq<byte>)
    requires |code| == 4
    ensures var input := Request(code) + t;
            |input| >= 8 && Signed32(input[..4]) == 8 && input[4..8] == code && input[8..] == t
  {
    var input := Request(code) + t;
    assert input[..4] == [0, 0, 0, 8];
    BigFour(0, 0, 0, 8);
  }

  lemma RequestCodes()
    ensures Signed32([4, 210, 22, 47]) == 80877103 && Signed32([4, 210, 22, 46]) == 80877102
  {
    BigFour(4, 210, 22, 47);
    BigFour(4, 210, 22, 46);
  }

  lemma {:induction false} EncryptionsPass(n: nat, t: seq<byte>)
    ensures Startup(Encryptions(n) + t) == (Startup(t).0 + n, Startup(t).1)
    decreases n
  {
    hide Signed32, Startup;
    if n == 0 {
      assert Encryptions(0) + t == t;
    } else {
      var later := Encryptions(n - 1) + t;
      EncryptionsPass(n - 1, t);
      assert Encryptions(n) + t == Request([4, 210, 22, 47]) + later;
      ReadRequest([4, 210, 22, 47], later);
      RequestCodes();
      StartupRead(Request([4, 210, 22, 47]) + later);
    }
  }

  lemma StartupRead(input: seq<byte>)
    requires |input| >= 8 && 8 <= Signed32(input[..4]) <= 65536 && Signed32(input[..4]) <= |input|
    ensures var n, version := Signed32(input[..4]), Signed32(input[4..8]);
            Startup(input) == if version == 80877103 then (Startup(input[n..]).0 + 1, Startup(input[n..]).1)
                              else (0, if version == 80877102 then None else Some(input[n..]))
  {
    hide Signed32;
  }

  // However many requests for encryption come first, each is rejected once, and a startup message of 8 to 65536 bytes with
  // any other version is accepted: what follows it is what the query loop reads.
  lemma StartupAccepts(n: nat, start: seq<byte>, t: seq<byte>)
    requires 8 <= |start| <= 65536 && start[..4] == Int32(|start|)
    requires start[4..8] != [4, 210, 22, 47] && start[4..8] != [4, 210, 22, 46]
    ensures Startup(Encryptions(n) + (start + t)) == (n, Some(t))
  {
    hide Startup, Encryptions, Int32;
    var input := start + t;
    assert input[..4] == start[..4] && input[4..8] == start[4..8] && input[|start|..] == t;
    Int32RoundTrip(|start|);
    EncryptionsPass(n, input);
    CodesDiffer(start[4..8]);
    hide Signed32;
    StartupRead(input);
  }

  lemma SameLast(x: nat, a: byte, y: nat, b: byte)
    requires 256 * x + a == 256 * y + b
    ensures x == y && a == b
  {
  }

  // Strings of the same length with the same value are the same.
  lemma {:induction false} SameDigits(s: seq<byte>, t: seq<byte>)
    requires |s| == |t| && BigValue(s) == BigValue(t)
    ensures s == t
    decreases |s|
  {
    if s != [] {
      var n := |s| - 1;
      SameLast(BigValue(s[..n]), s[n], BigValue(t[..n]), t[n]);
      SameDigits(s[..n], t[..n]);
      assert s == s[..n] + [s[n]] && t == t[..n] + [t[n]];
    }
  }

  lemma CodesDiffer(code: seq<byte>)
    requires |code| == 4 && code != [4, 210, 22, 47] && code != [4, 210, 22, 46]
    ensures Signed32(code) != 80877103 && Signed32(code) != 80877102
  {
    hide BigValue;
    BigFour(4, 210, 22, 47);
    BigFour(4, 210, 22, 46);
    if BigValue(code) == 80877103 { SameDigits(code, [4, 210, 22, 47]); }
    if BigValue(code) == 80877102 { SameDigits(code, [4, 210, 22, 46]); }
    assert 0x8000_0000 > 80877103;
    CodeBelow(code);
  }

  lemma CodeBelow(code: seq<byte>)
    requires |code| == 4
    ensures BigValue(code) < 0x1_0000_0000
  {
    assert code == [code[0], code[1], code[2], code[3]];
    BigFour(code[0], code[1], code[2], code[3]);
  }

  // A cancel request, or a length outside 8 to 65536, ends the connection.
  lemma StartupRefuses(n: nat, len: int, t: seq<byte>)
    requires -0x8000_0000 <= len < 0x8000_0000 && (len < 8 || len > 65536)
    ensures Startup(Encryptions(n) + (Request([4, 210, 22, 46]) + t)) == (n, None)
    ensures Startup(Encryptions(n) + (Int32(len) + t)) == (n, None)
  {
    EncryptionsPass(n, Request([4, 210, 22, 46]) + t);
    EncryptionsPass(n, Int32(len) + t);
    hide Encryptions, Int32, Signed32;
    ReadRequest([4, 210, 22, 46], t);
    RequestCodes();
    StartupRead(Request([4, 210, 22, 46]) + t);
    Int32RoundTrip(len);
    assert (Int32(len) + t)[..4] == Int32(len);
  }

  // Each rejection is the byte N.
  lemma {:induction false} RejectionsAre(n: nat)
    ensures |Rejections(n)| == n && forall i :: 0 <= i < n ==> Rejections(n)[i] == 78
  {
    if n > 0 { RejectionsAre(n - 1); }
  }

  // The client reads this parameter.
  predicate Says(r: Reply, key: string, value: string) {
    r.ParameterStatus? && Chars(r.key) == key && Chars(r.value) == value
  }

  lemma CharsLatin(s: string)
    requires forall i :: 0 <= i < |s| ==> s[i] < 256 as char
    ensures Chars(Latin(s)) == s
  {
  }

  lemma ParameterSays(key: string, value: string)
    requires (forall i :: 0 <= i < |key| ==> key[i] < 256 as char) && forall i :: 0 <= i < |value| ==> value[i] < 256 as char
    ensures Says(ParameterStatus(Latin(key), Latin(value)), key, value)
  {
    CharsLatin(key);
    CharsLatin(value);
  }

  // After the greeting the client knows the version and the encodings, and that the server is ready.
  lemma GreetingTells()
    ensures |Greeting()| == 12 && Greeting()[0] == AuthOk
    ensures Greeting()[10] == BackendKeyData(1, 0) && Greeting()[11] == ReadyForQuery
    ensures Says(Greeting()[1], "server_version", "14.0")
    ensures Says(Greeting()[2], "client_encoding", "UTF8")
    ensures Says(Greeting()[3], "server_encoding", "UTF8")
    ensures Says(Greeting()[4], "integer_datetimes", "on")
  {
    hide Latin, Says;
    ParameterSays("server_version", "14.0");
    ParameterSays("client_encoding", "UTF8");
    ParameterSays("server_encoding", "UTF8");
    ParameterSays("integer_datetimes", "on");
  }

  // It also knows the settings.
  lemma GreetingSettings()
    ensures Says(Greeting()[5], "DateStyle", "ISO, MDY")
    ensures Says(Greeting()[6], "TimeZone", "UTC")
    ensures Says(Greeting()[7], "is_superuser", "on")
    ensures Says(Greeting()[8], "session_authorization", "root")
    ensures Says(Greeting()[9], "standard_conforming_strings", "on")
  {
    hide Latin, Says;
    ParameterSays("DateStyle", "ISO, MDY");
    ParameterSays("TimeZone", "UTC");
    ParameterSays("is_superuser", "on");
    ParameterSays("session_authorization", "root");
    ParameterSays("standard_conforming_strings", "on");
  }

  // A body of at most 2^24 bytes is answered, unless the message is Terminate, which ends the connection without an answer;
  // any other length is answered with one error, and ends it too.
  lemma LoopEnds(e: Engine, s: Session, kind: byte, body: seq<byte>, len: int, t: seq<byte>)
    requires |body| <= 16_777_216 && -0x7fff_fff0 <= len < 0x8000_0000 && (len < 4 || len > 16_777_220)
    ensures kind != 88 ==> Serve(e, s, MsgBytes(Msg(kind, body)) + t)
                           == Handle(e, s, Msg(kind, body)).0 + Serve(e, Handle(e, s, Msg(kind, body)).1, t)
    ensures Serve(e, s, MsgBytes(Msg(88, body)) + t) == []
    ensures Serve(e, s, [kind] + (Int32(len) + t)) == [ErrorResponse(Latin("invalid message length"))]
  {
    if kind != 88 { ServeFirst(e, s, Msg(kind, body), t); }
    hide Handle, Int32, Signed32, Latin;
    var n := 4 + |body|;
    var input := MsgBytes(Msg(88, body)) + t;
    assert input == [88] + (Int32(n) + (body + t)) && input[1..] == Int32(n) + (body + t);
    assert input[1..5] == Int32(n);
    Int32RoundTrip(n);
    var bad := [kind] + (Int32(len) + t);
    assert bad[1..5] == Int32(len);
    Int32RoundTrip(len);
  }

  // ------------------------------------------------------------------------------------------
  // The fixed parts of replies

  // The client's reader of an error: a kind and a text for each field, up to a NUL
  function ReadFields(s: seq<byte>): Option<seq<(byte, seq<byte>)>>
    decreases |s|
  {
    if s == [] then None
    else if s[0] == 0 then if |s| == 1 then Some([]) else None
    else
      match ReadCStr(s[1..])
      case None => None
      case Some((text, t)) =>
        if |t| >= |s| then None
        else match ReadFields(t) case None => None case Some(fields) => Some([(s[0], text)] + fields)
  }

  lemma OneField(kind: byte, text: seq<byte>, t: seq<byte>)
    requires kind != 0 && 0 !in text
    ensures ReadFields([kind] + (text + ([0] + t))) ==
            match ReadFields(t) case None => None case Some(fields) => Some([(kind, text)] + fields)
  {
    var s := [kind] + (text + ([0] + t));
    assert s[1..] == text + ([0] + t);
    FindPart(text, 0, [0] + t);
    assert (text + ([0] + t))[|text| + 1..] == t;
  }

  lemma ErrorWords()
    ensures 0 !in Latin("ERROR") && 0 !in Latin("42000")
    ensures ERROR_HEAD == ['S' as int] + Latin("ERROR") + [0] + ['C' as int] + Latin("42000") + [0] + ['M' as int]
  {
  }

  lemma NoFields()
    ensures ReadFields([0]) == Some([])
  {
  }

  lemma ThreeFields(x: byte, a: seq<byte>, y: byte, b: seq<byte>, z: byte, c: seq<byte>)
    requires x != 0 && y != 0 && z != 0 && 0 !in a && 0 !in b && 0 !in c
    ensures ReadFields([x] + a + [0] + [y] + b + [0] + [z] + CStr(c) + [0]) == Some([(x, a), (y, b), (z, c)])
  {
    hide ReadFields;
    NoFields();
    var last := [z] + (c + ([0] + [0]));
    var mid := [y] + (b + ([0] + last));
    OneField(z, c, [0]);
    OneField(y, b, last);
    OneField(x, a, mid);
    assert [x] + a + [0] + [y] + b + [0] + [z] + CStr(c) + [0] == [x] + (a + ([0] + mid));
    assert [(x, a)] + ([(y, b)] + ([(z, c)] + [])) == [(x, a), (y, b), (z, c)];
  }

  // An error has severity ERROR, code 42000 and the message.
  lemma ErrorTells(message: seq<byte>)
    requires 0 !in message
    ensures Encode(ErrorResponse(message)).kind == 'E' as int
    ensures ReadFields(Encode(ErrorResponse(message)).payload)
         == Some([('S' as int, Latin("ERROR")), ('C' as int, Latin("42000")), ('M' as int, message)])
  {
    hide Latin, ReadFields, CStr;
    ErrorWords();
    ThreeFields('S' as int, Latin("ERROR"), 'C' as int, Latin("42000"), 'M' as int, message);
  }

  // Every column is described as a text of any length, in text format, of no table.
  lemma ColumnTells()
    ensures var t := ColumnTail();
            && Signed32(t[..4]) == 0 && Signed16(t[4..6]) == 0 && Signed32(t[6..10]) == 25 && Signed16(t[10..12]) == -1
            && Signed32(t[12..16]) == -1 && Signed16(t[16..18]) == 0
  {
    var t := ColumnTail();
    assert t[..4] == [0, 0, 0, 0] && t[6..10] == [0, 0, 0, 25] && t[12..16] == [255, 255, 255, 255];
    assert t[4..6] == [0, 0] && t[10..12] == [255, 255] && t[16..18] == [0, 0];
    BigFour(0, 0, 0, 0);
    BigFour(0, 0, 0, 25);
    BigFour(255, 255, 255, 255);
    TwoValue(0, 0);
    TwoValue(255, 255);
  }

  lemma TwoValue(a: byte, b: byte)
    ensures BigValue([a, b]) == a * 0x100 + b
  {
    assert [a, b][..1] == [a] && [a][..0] == [];
    assert BigValue([a]) == 256 * BigValue([]) + a;
  }
}
