/** The plaintext PostgreSQL connection: startup, the query loop, and when the client is told that the server is ready. */
module PgServer {
  import opened Text
  import opened Bytes
  import opened Network
  import opened PgWire
  import Splitter = StatementSplitter

  const SSL_REQUEST: int := 80877103
  const CANCEL_REQUEST: int := 80877102
  const BODY_LIMIT: int := 16 * 1024 * 1024

  // ------------------------------------------------------------------------------------------
  // Queries

  datatype QueryResult = QueryResult(isSelect: bool, colNames: seq<seq<byte>>, rows: seq<seq<seq<byte>>>,
                                     commandTag: seq<byte>, error: seq<byte>)

  // executeQuery: what a statement gives after the statements executed before it
  type Engine = (seq<string>, string) -> QueryResult

  // The statement of the last Parse message, and the statements executed so far
  datatype Session = Session(pending: string, log: seq<string>)

  const FRESH := Session("", [])

  function Latin(s: string): seq<byte> { seq(|s|, i requires 0 <= i < |s| => s[i] as int % 256) }

  function Chars(b: seq<byte>): string { seq(|b|, i requires 0 <= i < |b| => b[i] as int as char) }

  function DataRows(rows: seq<seq<seq<byte>>>): seq<Reply> {
    if rows == [] then [] else [DataRow(RowCells(rows[0]))] + DataRows(rows[1..])
  }

  // The replies to one executed statement
  function Answer(r: QueryResult): seq<Reply> {
    if r.error != [] then [ErrorResponse(r.error)]
    else if r.commandTag == Latin("EMPTY") then [EmptyQueryResponse]
    else if r.isSelect then [RowDescription(r.colNames)] + DataRows(r.rows) + [CommandComplete(r.commandTag)]
    else [CommandComplete(r.commandTag)]
  }

  // A simple query runs its statements up to the first error.
  function RunAll(e: Engine, log: seq<string>, stmts: seq<string>): (seq<Reply>, seq<string>)
    decreases |stmts|
  {
    if stmts == [] then ([ReadyForQuery], log)
    else if stmts[0] == "" then RunAll(e, log, stmts[1..])
    else
      var r := e(log, stmts[0]);
      if r.error != [] then ([ErrorResponse(r.error), ReadyForQuery], log + [stmts[0]])
      else
        var (replies, log') := RunAll(e, log + [stmts[0]], stmts[1..]);
        (Answer(r) + replies, log')
  }

  function StripNuls(s: string): string
    decreases |s|
  {
    if s != "" && s[|s| - 1] == 0 as char then StripNuls(s[..|s| - 1]) else s
  }

  predicate OnlySemicolons(s: string) {
    forall i :: 0 <= i < |s| ==> s[i] == ';' || s[i] == ' ' || s[i] == '\t' || s[i] == '\n' || s[i] == '\r'
  }

  // The query string of a Parse message, after the statement name
  function ParseSql(body: seq<byte>): string {
    var name := UntilNul(body);
    if |name| == |body| then "" else Chars(UntilNul(body[|name| + 1..]))
  }

  // ------------------------------------------------------------------------------------------
  // One message

  const Q: byte := 'Q' as int
  const P: byte := 'P' as int
  const B: byte := 'B' as int
  const D: byte := 'D' as int
  const E: byte := 'E' as int
  const S: byte := 'S' as int
  const X: byte := 'X' as int
  const H: byte := 'H' as int

  function Simple(e: Engine, s: Session, body: seq<byte>): (seq<Reply>, Session) {
    var sql := StripNuls(Chars(body));
    if OnlySemicolons(sql) || Splitter.Output(sql) == [] then ([EmptyQueryResponse, ReadyForQuery], s)
    else var (replies, log) := RunAll(e, s.log, Splitter.Output(sql)); (replies, s.(log := log))
  }

  function Execute(e: Engine, s: Session): (seq<Reply>, Session) {
    if s.pending == "" then ([CommandComplete(Latin("SELECT 0"))], s)
    else (Answer(e(s.log, s.pending)), Session("", s.log + [s.pending]))
  }

  // The replies to any message but Terminate
  function Handle(e: Engine, s: Session, m: Msg): (seq<Reply>, Session) {
    if m.kind == Q then Simple(e, s, m.payload)
    else if m.kind == P then ([ParseComplete], s.(pending := ParseSql(m.payload)))
    else if m.kind == B then ([BindComplete], s)
    else if m.kind == D then ([NoData], s)
    else if m.kind == E then Execute(e, s)
    else if m.kind == S then ([ReadyForQuery], s)
    else if m.kind == H then ([], s)
    else ([ReadyForQuery], s)
  }

  // Query, Sync, and every message the server does not know
  predicate GetsReady(kind: byte) { kind == Q || kind == S || kind !in {P, B, D, E, X, H} }

  // ReadyForQuery comes once, at the end.
  predicate ReadyLast(rs: seq<Reply>) {
    rs != [] && rs[|rs| - 1] == ReadyForQuery && forall i :: 0 <= i < |rs| - 1 ==> rs[i] != ReadyForQuery
  }

  predicate NoReady(rs: seq<Reply>) { forall i :: 0 <= i < |rs| ==> rs[i] != ReadyForQuery }

  lemma {:induction false} RowsAreNotReady(rows: seq<seq<seq<byte>>>)
    ensures NoReady(DataRows(rows))
  {
    if rows != [] { RowsAreNotReady(rows[1..]); }
  }

  lemma AnswerIsNotReady(r: QueryResult)
    ensures NoReady(Answer(r))
  {
    RowsAreNotReady(r.rows);
    hide DataRows, Latin;
  }

  lemma {:induction false} RunAllReady(e: Engine, log: seq<string>, stmts: seq<string>)
    ensures ReadyLast(RunAll(e, log, stmts).0)
    decreases |stmts|
  {
    if stmts != [] {
      hide Answer;
      RunAllReady(e, log, stmts[1..]);
      RunAllReady(e, log + [stmts[0]], stmts[1..]);
      AnswerIsNotReady(e(log, stmts[0]));
    }
  }

  // Exactly Query, Sync and unknown messages are answered with ReadyForQuery: once, as the last reply, also when a
  // statement of a query fails.
  lemma HandleReady(e: Engine, s: Session, m: Msg)
    requires m.kind != X
    ensures if GetsReady(m.kind) then ReadyLast(Handle(e, s, m).0) else NoReady(Handle(e, s, m).0)
  {
    hide Answer, RunAll, OnlySemicolons, StripNuls, Splitter.Output, ParseSql, Chars, Latin;
    if m.kind == Q {
      var sql := StripNuls(Chars(m.payload));
      RunAllReady(e, s.log, Splitter.Output(sql));
    } else if m.kind == E && s.pending != "" {
      AnswerIsNotReady(e(s.log, s.pending));
    }
  }

  // Statement k is the first to fail.
  predicate FailsAt(e: Engine, log: seq<string>, stmts: seq<string>, k: nat)
    decreases k
  {
    && k < |stmts| && stmts[0] != ""
    && if k == 0 then e(log, stmts[0]).error != []
       else e(log, stmts[0]).error == [] && FailsAt(e, log + [stmts[0]], stmts[1..], k - 1)
  }

  predicate EndsWith(rs: seq<Reply>, tail: seq<Reply>) { |tail| <= |rs| && rs[|rs| - |tail|..] == tail }

  lemma EndsLater(a: seq<Reply>, rs: seq<Reply>, tail: seq<Reply>)
    requires EndsWith(rs, tail)
    ensures EndsWith(a + rs, tail)
  {
  }

  // A query stops at its first failing statement: nothing after it is executed, and its error is the last reply before
  // ReadyForQuery.
  lemma {:induction false} StopsAtError(e: Engine, log: seq<string>, stmts: seq<string>, k: nat)
    requires FailsAt(e, log, stmts, k)
    ensures RunAll(e, log, stmts).1 == log + stmts[..k + 1]
    ensures EndsWith(RunAll(e, log, stmts).0, [ErrorResponse(e(log + stmts[..k], stmts[k]).error), ReadyForQuery])
    decreases k
  {
    hide Answer;
    if k > 0 {
      hide EndsWith;
      var log', rest := log + [stmts[0]], stmts[1..];
      StopsAtError(e, log', rest, k - 1);
      assert log' + rest[..k - 1] == log + stmts[..k] && rest[k - 1] == stmts[k];
      assert log' + rest[..k] == log + stmts[..k + 1];
      EndsLater(Answer(e(log, stmts[0])), RunAll(e, log', rest).0,
                [ErrorResponse(e(log + stmts[..k], stmts[k]).error), ReadyForQuery]);
    } else {
      assert log + stmts[..0] == log && stmts[..1] == [stmts[0]];
    }
  }

  // ------------------------------------------------------------------------------------------
  // The connection

  // What the loop replies to a client that sends these bytes and then disconnects
  function Serve(e: Engine, s: Session, input: seq<byte>): seq<Reply>
    decreases |input|
  {
    if |input| < 5 then []
    else
      var bodyLen := Signed32(input[1..5]) - 4;
      if bodyLen < 0 || bodyLen > BODY_LIMIT then [ErrorResponse(Latin("invalid message length"))]
      else if |input| < 5 + bodyLen || input[0] == X then []
      else
        var (replies, s') := Handle(e, s, Msg(input[0], input[5..5 + bodyLen]));
        replies + Serve(e, s', input[5 + bodyLen..])
  }

  // The replies to a list of messages
  function Conversation(e: Engine, s: Session, ms: seq<Msg>): seq<Reply>
    decreases |ms|
  {
    if ms == [] then []
    else var (replies, s') := Handle(e, s, ms[0]); replies + Conversation(e, s', ms[1..])
  }

  // A message the client may send before it ends the connection
  predicate Readable(m: Msg) { m.kind != X && |m.payload| <= BODY_LIMIT }

  // The client ends: it disconnects, at once or within a message, or terminates.
  predicate Ends(t: seq<byte>) {
    |t| < 5 || (t[0] == X && 4 <= Signed32(t[1..5]) <= 4 + BODY_LIMIT)
  }

  lemma ServeFirst(e: Engine, s: Session, m: Msg, t: seq<byte>)
    requires Readable(m)
    ensures Serve(e, s, MsgBytes(m) + t) == Handle(e, s, m).0 + Serve(e, Handle(e, s, m).1, t)
  {
    hide Handle, Int32, Signed32;
    var input, n := MsgBytes(m) + t, 4 + |m.payload|;
    assert input == [m.kind] + (Int32(n) + (m.payload + t));
    assert input[1..] == Int32(n) + (m.payload + t);
    assert input[1..5] == Int32(n) && input[5..] == m.payload + t;
    Int32RoundTrip(n);
    assert input[5..1 + n] == m.payload && input[1 + n..] == t;
  }

  // The bytes of a list of messages are served message by message.
  lemma {:induction false} ServeStream(e: Engine, s: Session, ms: seq<Msg>, t: seq<byte>)
    requires (forall i :: 0 <= i < |ms| ==> Readable(ms[i])) && Ends(t)
    ensures Serve(e, s, Stream(ms) + t) == Conversation(e, s, ms)
    decreases |ms|
  {
    if ms == [] {
      assert Stream(ms) + t == t;
    } else {
      hide Handle, MsgBytes, Serve, Readable, Ends;
      assert Stream(ms) + t == MsgBytes(ms[0]) + (Stream(ms[1..]) + t);
      ServeFirst(e, s, ms[0], Stream(ms[1..]) + t);
      ServeStream(e, Handle(e, s, ms[0]).1, ms[1..], t);
    }
  }

  function Readies(rs: seq<Reply>): nat {
    if rs == [] then 0 else (if rs[0] == ReadyForQuery then 1 else 0) + Readies(rs[1..])
  }

  lemma {:induction false} ReadiesConcat(a: seq<Reply>, b: seq<Reply>)
    ensures Readies(a + b) == Readies(a) + Readies(b)
  {
    if a == [] {
      assert a + b == b;
    } else {
      assert (a + b)[1..] == a[1..] + b;
      ReadiesConcat(a[1..], b);
    }
  }

  lemma {:induction false} NoReadies(rs: seq<Reply>)
    requires NoReady(rs)
    ensures Readies(rs) == 0
  {
    if rs != [] { NoReadies(rs[1..]); }
  }

  lemma OneReady(rs: seq<Reply>)
    requires ReadyLast(rs)
    ensures Readies(rs) == 1
  {
    var n := |rs| - 1;
    assert rs == rs[..n] + [rs[n]];
    NoReadies(rs[..n]);
    ReadiesConcat(rs[..n], [rs[n]]);
    assert Readies([ReadyForQuery]) == 1 + Readies([]);
  }

  function Awaited(ms: seq<Msg>): nat {
    if ms == [] then 0 else (if GetsReady(ms[0].kind) then 1 else 0) + Awaited(ms[1..])
  }

  lemma {:induction false} ConversationReadies(e: Engine, s: Session, ms: seq<Msg>)
    requires forall i :: 0 <= i < |ms| ==> ms[i].kind != X
    ensures Readies(Conversation(e, s, ms)) == Awaited(ms)
    decreases |ms|
  {
    if ms != [] {
      hide Handle, GetsReady;
      var (replies, s') := Handle(e, s, ms[0]);
      HandleReady(e, s, ms[0]);
      if GetsReady(ms[0].kind) { OneReady(replies); } else { NoReadies(replies); }
      ReadiesConcat(replies, Conversation(e, s', ms[1..]));
      ConversationReadies(e, s', ms[1..]);
    }
  }

  // ------------------------------------------------------------------------------------------
  // Startup

  // Requests for encryption answered with 'N', and the bytes after the startup message, or None when the server hangs up
  function Startup(input: seq<byte>): (r: (nat, Option<seq<byte>>))
    ensures r.1.Some? ==> |r.1.value| <= |input|
    decreases |input|
  {
    if |input| < 4 then (0, None)
    else
      var n := Signed32(input[..4]);
      if n < 8 || n > 65536 || |input| < n then (0, None)
      else
        var version := Signed32(input[4..8]);
        if version == SSL_REQUEST then var r := Startup(input[n..]); (r.0 + 1, r.1)
        else if version == CANCEL_REQUEST then (0, None)
        else (0, Some(input[n..]))
  }

  function Greeting(): seq<Reply> {
    [AuthOk,
     ParameterStatus(Latin("server_version"), Latin("14.0")),
     ParameterStatus(Latin("client_encoding"), Latin("UTF8")),
     ParameterStatus(Latin("server_encoding"), Latin("UTF8")),
     ParameterStatus(Latin("integer_datetimes"), Latin("on")),
     ParameterStatus(Latin("DateStyle"), Latin("ISO, MDY")),
     ParameterStatus(Latin("TimeZone"), Latin("UTC")),
     ParameterStatus(Latin("is_superuser"), Latin("on")),
     ParameterStatus(Latin("session_authorization"), Latin("root")),
     ParameterStatus(Latin("standard_conforming_strings"), Latin("on")),
     BackendKeyData(1, 0),
     ReadyForQuery]
  }

  lemma GreetingReady()
    ensures ReadyLast(Greeting())
  {
    hide Latin;
  }

  // Over every run of messages that gets past startup and ends in Terminate or disconnect, ReadyForQuery is sent once for
  // the startup and once for each Query, Sync and unknown message.
  lemma ReadyOncePerRequest(e: Engine, ms: seq<Msg>, t: seq<byte>)
    requires (forall i :: 0 <= i < |ms| ==> Readable(ms[i])) && Ends(t)
    ensures Readies(Greeting() + Serve(e, FRESH, Stream(ms) + t)) == 1 + Awaited(ms)
  {
    hide Greeting, Serve, Conversation, Readies, Awaited;
    GreetingReady();
    OneReady(Greeting());
    ServeStream(e, FRESH, ms, t);
    ReadiesConcat(Greeting(), Conversation(e, FRESH, ms));
    ConversationReadies(e, FRESH, ms);
  }

  // ------------------------------------------------------------------------------------------
  // The bytes of replies

  function Encoded(rs: seq<Reply>): (r: seq<Msg>)
    ensures |r| == |rs| && forall i :: 0 <= i < |rs| ==> r[i] == Encode(rs[i])
  {
    if rs == [] then [] else [Encode(rs[0])] + Encoded(rs[1..])
  }

  function WireOf(rs: seq<Reply>): seq<byte> { Stream(Encoded(rs)) }

  lemma {:induction false} EncodedConcat(a: seq<Reply>, b: seq<Reply>)
    ensures Encoded(a + b) == Encoded(a) + Encoded(b)
  {
    if a == [] {
      assert a + b == b;
    } else {
      hide Encode;
      assert (a + b)[1..] == a[1..] + b;
      EncodedConcat(a[1..], b);
    }
  }

  lemma WireConcat(a: seq<Reply>, b: seq<Reply>)
    ensures WireOf(a + b) == WireOf(a) + WireOf(b)
  {
    hide Encoded, Stream;
    EncodedConcat(a, b);
    StreamConcat(Encoded(a), Encoded(b));
  }

  // The client reads the server's bytes back as the same messages, and each of them as the same reply.
  lemma RepliesReadBack(rs: seq<Reply>)
    requires forall i :: 0 <= i < |rs| ==> Sendable(rs[i]) && Fits(Encode(rs[i]))
    ensures ParseStream(WireOf(rs)) == Some(Encoded(rs))
    ensures forall i :: 0 <= i < |rs| ==> Decode(Encoded(rs)[i]) == Some(rs[i])
  {
    hide ParseStream, Stream, Encode, Decode;
    StreamRoundTrip(Encoded(rs));
    forall i | 0 <= i < |rs| ensures Decode(Encoded(rs)[i]) == Some(rs[i]) { DecodeEncode(rs[i]); }
  }

  // ------------------------------------------------------------------------------------------
  // The code

  lemma WireOne(r: Reply)
    ensures WireOf([r]) == MsgBytes(Encode(r)) && WireOf([]) == []
  {
    hide MsgBytes, Encode;
    assert Encoded([r]) == [Encode(r)] + Encoded([]) && Encoded([]) == [];
    assert Stream([Encode(r)]) == MsgBytes(Encode(r)) + Stream([]);
    assert MsgBytes(Encode(r)) + [] == MsgBytes(Encode(r));
  }

  // sendAll of one built message
  method SendReply(sock: Socket, r: Reply)
    modifies sock`sent
    ensures sock.sent == old(sock.sent) + WireOf([r])
  {
    WireOne(r);
    sock.SendAll(MsgBytes(Encode(r)));
  }

  method SendRows(sock: Socket, rows: seq<seq<seq<byte>>>)
    modifies sock`sent
    ensures sock.sent == old(sock.sent) + WireOf(DataRows(rows))
  {
    assert DataRows([]) == [];
    hide WireOf, Encode, MsgBytes, DataRows;
    assert rows[0..] == rows;
    for i := 0 to |rows|
      invariant old(sock.sent) + WireOf(DataRows(rows)) == sock.sent + WireOf(DataRows(rows[i..]))
    {
      assert rows[i..][1..] == rows[i + 1..];
      var cells := DataRow(RowCells(rows[i]));
      RowFirst(rows[i..]);
      WireConcat([cells], DataRows(rows[i + 1..]));
      WireOne(cells);
      Regroup(sock.sent, WireOf([cells]), WireOf(DataRows(rows[i + 1..])));
      var msg := MakeDataRow(rows[i]);
      sock.SendAll(msg);
    }
    WireOne(NoData);
    assert sock.sent + [] == sock.sent;
  }

  lemma RowFirst(rows: seq<seq<seq<byte>>>)
    requires rows != []
    ensures DataRows(rows) == [DataRow(RowCells(rows[0]))] + DataRows(rows[1..])
  {
  }

  // What is sent for an executed statement
  method SendAnswer(sock: Socket, r: QueryResult)
    modifies sock`sent
    ensures sock.sent == old(sock.sent) + WireOf(Answer(r))
  {
    hide WireOf, Encode, MsgBytes, DataRows, Latin;
    if r.error != [] {
      SendReply(sock, ErrorResponse(r.error));
    } else if r.commandTag == Latin("EMPTY") {
      SendReply(sock, EmptyQueryResponse);
    } else if r.isSelect {
      ghost var before := sock.sent;
      var description := MakeRowDescription(r.colNames);
      WireOne(RowDescription(r.colNames));
      sock.SendAll(description);
      SendRows(sock, r.rows);
      SendReply(sock, CommandComplete(r.commandTag));
      WireConcat([RowDescription(r.colNames)], DataRows(r.rows));
      WireConcat([RowDescription(r.colNames)] + DataRows(r.rows), [CommandComplete(r.commandTag)]);
    } else {
      SendReply(sock, CommandComplete(r.commandTag));
    }
  }

  method SendTwo(sock: Socket, a: Reply, b: Reply)
    modifies sock`sent
    ensures sock.sent == old(sock.sent) + WireOf([a, b])
  {
    hide WireOf;
    SendReply(sock, a);
    SendReply(sock, b);
    WireConcat([a], [b]);
    assert [a] + [b] == [a, b];
  }

  method SimpleQuery(sock: Socket, e: Engine, s: Session, body: seq<byte>) returns (s': Session)
    modifies sock`sent
    ensures sock.sent == old(sock.sent) + WireOf(Simple(e, s, body).0) && s' == Simple(e, s, body).1
  {
    hide WireOf, RunAll, Splitter.Output;
    var sql := Chars(body);
    while sql != "" && sql[|sql| - 1] == 0 as char
      invariant StripNuls(sql) == StripNuls(Chars(body))
      decreases |sql|
    {
      sql := sql[..|sql| - 1];
    }
    var only := IsOnlySemicolons(sql);
    if only {
      SendTwo(sock, EmptyQueryResponse, ReadyForQuery);
      return s;
    }
    var stmts := Splitter.SplitStatements(sql);
    if stmts == [] {
      SendTwo(sock, EmptyQueryResponse, ReadyForQuery);
      return s;
    }
    var log := RunStatements(sock, e, s.log, stmts);
    return s.(log := log);
  }

  method IsOnlySemicolons(s: string) returns (r: bool)
    ensures r == OnlySemicolons(s)
  {
    for i := 0 to |s|
      invariant OnlySemicolons(s[..i])
    {
      if s[i] != ';' && s[i] != ' ' && s[i] != '\t' && s[i] != '\n' && s[i] != '\r' { return false; }
      assert s[..i + 1] == s[..i] + [s[i]];
    }
    assert s[..|s|] == s;
    return true;
  }

  method RunStatements(sock: Socket, e: Engine, log0: seq<string>, stmts: seq<string>) returns (log: seq<string>)
    modifies sock`sent
    ensures var (replies, log') := RunAll(e, log0, stmts);
            sock.sent == old(sock.sent) + WireOf(replies) && log == log'
  {
    hide WireOf, RunAll, Answer;
    log := log0;
    assert stmts[0..] == stmts;
    for si := 0 to |stmts|
      invariant old(sock.sent) + WireOf(RunAll(e, log0, stmts).0) == sock.sent + WireOf(RunAll(e, log, stmts[si..]).0)
      invariant RunAll(e, log0, stmts).1 == RunAll(e, log, stmts[si..]).1
    {
      assert stmts[si..][1..] == stmts[si + 1..];
      RunFirst(e, log, stmts[si..]);
      if stmts[si] != "" {
        var qr := e(log, stmts[si]);
        if qr.error != [] {
          SendTwo(sock, ErrorResponse(qr.error), ReadyForQuery);
          return log + [stmts[si]];
        }
        ghost var rest := RunAll(e, log + [stmts[si]], stmts[si + 1..]).0;
        WireConcat(Answer(qr), rest);
        Regroup(sock.sent, WireOf(Answer(qr)), WireOf(rest));
        SendAnswer(sock, qr);
        log := log + [stmts[si]];
      }
    }
    RunNone(e, log);
    SendReply(sock, ReadyForQuery);
  }

  lemma RunNone(e: Engine, log: seq<string>)
    ensures RunAll(e, log, []) == ([ReadyForQuery], log)
  {
  }

  lemma RunFirst(e: Engine, log: seq<string>, stmts: seq<string>)
    requires stmts != []
    ensures RunAll(e, log, stmts) ==
            if stmts[0] == "" then RunAll(e, log, stmts[1..])
            else if e(log, stmts[0]).error != [] then
              ([ErrorResponse(e(log, stmts[0]).error), ReadyForQuery], log + [stmts[0]])
            else
              var (replies, log') := RunAll(e, log + [stmts[0]], stmts[1..]);
              (Answer(e(log, stmts[0])) + replies, log')
  {
    hide Answer;
  }

  method ReadSql(body: seq<byte>) returns (sql: string)
    ensures sql == ParseSql(body)
  {
    var pos := SkipToNul(body, 0);
    assert body[0..] == body;
    pos := pos + 1;
    if pos > |body| { return ""; }
    var qstart := pos;
    pos := SkipToNul(body, pos);
    sql := Chars(body[qstart..pos]);
  }

  lemma UntilNulFirst(s: seq<byte>)
    ensures UntilNul(s) == if s == [] || s[0] == 0 then [] else [s[0]] + UntilNul(s[1..])
  {
    if s != [] { assert s[1..][..Find(s[1..], 0)] == UntilNul(s[1..]); }
  }

  method SkipToNul(body: seq<byte>, from: nat) returns (pos: nat)
    requires from <= |body|
    ensures from <= pos <= |body| && body[from..pos] == UntilNul(body[from..])
  {
    hide UntilNul;
    pos := from;
    while pos < |body| && body[pos] != 0
      invariant from <= pos <= |body|
      invariant UntilNul(body[from..]) == body[from..pos] + UntilNul(body[pos..])
    {
      UntilNulFirst(body[pos..]);
      assert body[pos..][1..] == body[pos + 1..];
      Regroup(body[from..pos], [body[pos]], UntilNul(body[pos + 1..]));
      assert body[from..pos] + [body[pos]] == body[from..pos + 1];
      pos := pos + 1;
    }
    UntilNulFirst(body[pos..]);
    assert body[from..pos] + [] == body[from..pos];
  }

  method HandleMessage(sock: Socket, e: Engine, s: Session, m: Msg) returns (s': Session)
    modifies sock`sent
    ensures sock.sent == old(sock.sent) + WireOf(Handle(e, s, m).0) && s' == Handle(e, s, m).1
  {
    hide WireOf, Simple, Answer, ParseSql, Latin;
    s' := s;
    if m.kind == Q {
      s' := SimpleQuery(sock, e, s, m.payload);
    } else if m.kind == P {
      var sql := ReadSql(m.payload);
      s' := s.(pending := sql);
      SendReply(sock, ParseComplete);
    } else if m.kind == B {
      SendReply(sock, BindComplete);
    } else if m.kind == D {
      SendReply(sock, NoData);
    } else if m.kind == E {
      if s.pending == "" {
        SendReply(sock, CommandComplete(Latin("SELECT 0")));
      } else {
        SendAnswer(sock, e(s.log, s.pending));
        s' := Session("", s.log + [s.pending]);
      }
    } else if m.kind == S {
      SendReply(sock, ReadyForQuery);
    } else if m.kind == H {
      WireOne(NoData);
      assert sock.sent + [] == sock.sent;
    } else {
      SendReply(sock, ReadyForQuery);
    }
  }

  method QueryLoop(sock: Socket, e: Engine)
    modifies sock
    ensures sock.sent == old(sock.sent) + WireOf(Serve(e, FRESH, old(sock.incoming)))
  {
    hide WireOf, Handle, Serve, Latin;
    var s := FRESH;
    ghost var whole := old(sock.sent) + WireOf(Serve(e, FRESH, sock.incoming));
    while true
      invariant sock.sent + WireOf(Serve(e, s, sock.incoming)) == whole
      decreases |sock.incoming|
    {
      ghost var input := sock.incoming;
      ServeStep(e, s, input);
      var kind := sock.Recv(1);
      if kind == [] { return; }
      var lenBuf := new byte[4];
      var ok := sock.RecvAll(lenBuf);
      if !ok { return; }
      assert input == kind + (lenBuf[..] + sock.incoming);
      assert input[1..5] == lenBuf[..] && input[0] == kind[0] && input[5..] == sock.incoming;
      var bodyLen := Signed32(lenBuf[..]) - 4;
      if bodyLen < 0 || bodyLen > BODY_LIMIT {
        SendReply(sock, ErrorResponse(Latin("invalid message length")));
        return;
      }
      var body := new byte[bodyLen];
      if bodyLen > 0 {
        ok := sock.RecvAll(body);
        if !ok { return; }
      }
      assert input[5..] == body[..] + sock.incoming;
      assert input[5..5 + bodyLen] == body[..] && input[5 + bodyLen..] == sock.incoming;
      if kind[0] == X { return; }
      ghost var replies := Handle(e, s, Msg(kind[0], body[..])).0;
      ghost var rest := Serve(e, Handle(e, s, Msg(kind[0], body[..])).1, sock.incoming);
      WireConcat(replies, rest);
      Regroup(sock.sent, WireOf(replies), WireOf(rest));
      s := HandleMessage(sock, e, s, Msg(kind[0], body[..]));
    }
  }

  lemma ServeStep(e: Engine, s: Session, input: seq<byte>)
    ensures WireOf([]) == []
    ensures |input| < 5 ==> Serve(e, s, input) == []
    ensures |input| >= 5 ==>
      var bodyLen := Signed32(input[1..5]) - 4;
      Serve(e, s, input) ==
      if bodyLen < 0 || bodyLen > BODY_LIMIT then [ErrorResponse(Latin("invalid message length"))]
      else if |input| < 5 + bodyLen || input[0] == X then []
      else
        var (replies, s') := Handle(e, s, Msg(input[0], input[5..5 + bodyLen]));
        replies + Serve(e, s', input[5 + bodyLen..])
  {
    hide Handle, Latin;
    WireOne(NoData);
  }

  function Rejections(n: nat): seq<byte> { if n == 0 then [] else ['N' as int] + Rejections(n - 1) }

  method ReadStartup(sock: Socket) returns (ok: bool)
    modifies sock
    ensures var (n, rest) := Startup(old(sock.incoming));
            && sock.sent == old(sock.sent) + Rejections(n)
            && ok == rest.Some? && (ok ==> sock.incoming == rest.value)
  {
    hide Signed32, Rejections;
    ghost var answer := Startup(sock.incoming);
    NoRejections();
    while true
      invariant old(sock.sent) + Rejections(answer.0) == sock.sent + Rejections(Startup(sock.incoming).0)
      invariant Startup(sock.incoming).1 == answer.1
      decreases |sock.incoming|
    {
      ghost var input := sock.incoming;
      assert sock.sent + [] == sock.sent;
      var lenBuf := new byte[4];
      ok := sock.RecvAll(lenBuf);
      if !ok { return false; }
      assert input[..4] == lenBuf[..] && input[4..] == sock.incoming;
      var msgLen := Signed32(lenBuf[..]);
      if msgLen < 8 || msgLen > 65536 { return false; }
      var payload := new byte[msgLen - 4];
      ok := sock.RecvAll(payload);
      if !ok { return false; }
      assert input[4..] == payload[..] + sock.incoming;
      assert input[4..8] == payload[..][..4] == payload[..4] && input[msgLen..] == sock.incoming;
      var version := Signed32(payload[..4]);
      if version == SSL_REQUEST {
        MoreRejections(Startup(sock.incoming).0);
        Regroup(sock.sent, ['N' as int], Rejections(Startup(sock.incoming).0));
        sock.Send(['N' as int]);
      } else {
        return version != CANCEL_REQUEST;
      }
    }
  }

  lemma NoRejections()
    ensures Rejections(0) == []
  {
  }

  lemma MoreRejections(n: nat)
    ensures Rejections(n + 1) == ['N' as int] + Rejections(n)
  {
  }

  // The whole connection: rejections, and once the client has started up, the greeting and the replies.
  method HandleClient(sock: Socket, e: Engine)
    modifies sock
    ensures var (n, rest) := Startup(old(sock.incoming));
            sock.sent == old(sock.sent) + Rejections(n)
                         + if rest.Some? then WireOf(Greeting() + Serve(e, FRESH, rest.value)) else []
  {
    hide WireOf, Greeting, Serve, Startup, Rejections;
    var ok := ReadStartup(sock);
    if ok {
      ghost var rest := sock.incoming;
      sock.SendAll(WireOf(Greeting()));
      QueryLoop(sock, e);
      WireConcat(Greeting(), Serve(e, FRESH, rest));
    }
  }
}
