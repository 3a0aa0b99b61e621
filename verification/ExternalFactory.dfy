/**
 The external calls of a service (pkg/analyzer/external): which spans become an
 External, by which parser, and the database name that pkg/clickhouse/tables/
 service_client.go reads back from an external's name. What the apo-module
 accessors answer for a span is part of the span.
 */
module ExternalFactory {
  import opened Basics
  import opened Text

  datatype Kind = Unspecified | Internal | Server | Client | Producer | Consumer

  /** The attribute keys that the parsers look up. */
  datatype Attribute =
    | DbSystem | DbStatement | DbOperation | DbName | DbSqlTable
    | MessageSystem | MessageDestinationName | RpcSystem

  /**
   httpMethod, httpDetail, rpcDetail, destination and peer stand for
   GetHttpMethod, GetHttpDetail, GetRpcDetail, GetMessageDestination and GetPeer,
   parsed for SQLParseOperationAndTableNEW of the statement.
   */
  datatype Span = Span(
    startTime: nat,
    duration: nat,
    spanId: string,
    nextSpanId: string,
    pSpanId: string,
    name: string,
    kind: Kind,
    isError: bool,
    attributes: map<Attribute, string>,
    httpMethod: string,
    httpDetail: string,
    rpcDetail: string,
    destination: string,
    peer: string,
    parsed: (string, string))

  datatype External = External(
    startTime: nat,
    duration: nat,
    nextSpanId: string,
    pSpanId: string,
    spanId: string,
    group: string,
    typ: string,
    kind: Kind,
    name: string,
    peer: string,
    isError: bool,
    detail: string)

  function Attr(span: Span, a: Attribute): string {
    if a in span.attributes then span.attributes[a] else ""
  }

  function Make(span: Span, group: string, typ: string, name: string, detail: string): External {
    External(span.startTime, span.duration, span.nextSpanId, span.pSpanId, span.spanId,
             group, typ, span.kind, name, span.peer, span.isError, detail)
  }

  // ---------------------------------------------------------------- parsers

  function Operation(operation: string, dbName: string, table: string): string {
    if dbName != "" then operation + " " + dbName + "." + table else operation + " " + table
  }

  function IsKeyValueStore(dbSystem: string): bool {
    dbSystem == "redis" || dbSystem == "memcached" || dbSystem == "aerospike"
  }

  /** The branches of dbParser.Parse on its reassigned local variables. */
  method ParseDb(span: Span) returns (r: Option<External>)
    ensures r == DbExternal(span)
  {
    if span.kind != Client || DbSystem !in span.attributes {
      return None;
    }
    var dbSystem := span.attributes[DbSystem];
    var name := "";
    if IsKeyValueStore(dbSystem) {
      name := span.name;
    }
    var dbStatement := Attr(span, DbStatement);
    var operationName := Attr(span, DbOperation);
    if name == "" {
      var dbName := Attr(span, DbName);
      var tableName := Attr(span, DbSqlTable);
      if operationName != "" {
        name := Operation(operationName, dbName, tableName);
      } else if dbStatement != "" {
        operationName, tableName := span.parsed.0, span.parsed.1;
        if operationName != "" {
          name := Operation(operationName, dbName, tableName);
        }
      }
    }
    if name == "" {
      name := span.name;
    }
    var dbDetail := dbStatement;
    if dbStatement == "" {
      dbDetail := operationName;
    }
    return Some(Make(span, "db", dbSystem, name, dbDetail));
  }

  /** The operation a database span states, or else the one parsed from its statement. */
  function StatedOperation(span: Span): (string, string) {
    if Attr(span, DbOperation) != "" then (Attr(span, DbOperation), Attr(span, DbSqlTable))
    else if Attr(span, DbStatement) != "" then span.parsed
    else ("", "")
  }

  function DbExternal(span: Span): Option<External> {
    if span.kind != Client || DbSystem !in span.attributes then None
    else
      var system, op := span.attributes[DbSystem], StatedOperation(span);
      var named := (IsKeyValueStore(system) && span.name != "") || op.0 == "";
      Some(Make(span, "db", system,
                if named then span.name else Operation(op.0, Attr(span, DbName), op.1),
                if Attr(span, DbStatement) != "" then Attr(span, DbStatement) else Attr(span, DbOperation)))
  }

  function HttpExternal(span: Span, topUrl: bool): Option<External> {
    if span.kind != Client || span.httpMethod == "" then None
    else Some(Make(span, "external", "http",
                   if topUrl then span.httpMethod + " " + TopUrl(span.httpDetail) else span.httpMethod,
                   span.httpDetail))
  }

  function TopUrl(url: string): string {
    var urls := Split(url, '/');
    if |urls| == 1 then url
    else if |urls| >= 3 && |urls[0]| > 0 && urls[0][|urls[0]| - 1] == ':' && urls[1] == "" then
      if |urls| == 3 then "/" else "/" + urls[3]
    else "/" + urls[1]
  }

  /** The top of a path: its first element. */
  lemma TopUrlOfPath(a: string, rest: string)
    requires Free(a, '/')
    ensures TopUrl("/" + a) == "/" + a && TopUrl("/" + a + "/" + rest) == "/" + a
  {
    var tail := a + ['/'] + rest;
    assert "/" + a == "" + ['/'] + a && "/" + a + "/" + rest == "" + ['/'] + tail;
    SplitField("", '/', a);
    SplitPlain(a, '/');
    SplitField("", '/', tail);
    SplitField(a, '/', rest);
  }

  /** The top of a url with scheme and host: the first element behind the host, or the root. */
  lemma TopUrlBehindHost(scheme: string, host: string, a: string)
    requires Free(scheme, '/') && Free(host, '/') && Free(a, '/')
    ensures TopUrl(scheme + "://" + host) == "/" && TopUrl(scheme + "://" + host + "/" + a) == "/" + a
  {
    var head, longer := scheme + ":", host + ['/'] + a;
    assert scheme + "://" + host == head + ['/'] + ("" + ['/'] + host);
    assert scheme + "://" + host + "/" + a == head + ['/'] + ("" + ['/'] + longer);
    SplitField(head, '/', "" + ['/'] + host);
    SplitField(head, '/', "" + ['/'] + longer);
    SplitField("", '/', host);
    SplitField("", '/', longer);
    SplitPlain(host, '/');
    SplitField(host, '/', a);
    SplitPlain(a, '/');
  }

  /** Taking the top of a top changes nothing. */
  lemma TopUrlOnce(url: string)
    ensures TopUrl(TopUrl(url)) == TopUrl(url)
  {
    var urls := Split(url, '/');
    SplitFree(url, '/');
    if |urls| > 1 {
      assert "/" == "/" + "";
      TopUrlOfPath("", "");
      TopUrlOfPath(urls[1], "");
      if |urls| > 3 {
        TopUrlOfPath(urls[3], "");
      }
    }
  }

  function RpcExternal(span: Span): Option<External> {
    if span.kind != Client || RpcSystem !in span.attributes then None
    else Some(Make(span, "external", span.attributes[RpcSystem], span.name, span.rpcDetail))
  }

  function UnknownExternal(span: Span): External {
    Make(span, "external", "unknown", span.name, "")
  }

  function MqExternal(span: Span): Option<External> {
    if !span.kind.Client? && !span.kind.Consumer? && !span.kind.Producer? then None
    else if MessageSystem !in span.attributes && span.kind.Client? then None
    else
      var system := if MessageSystem in span.attributes then span.attributes[MessageSystem] else "unknown";
      Some(if span.kind.Client? then Make(span, "mq", system, span.name, Attr(span, MessageDestinationName))
           else Make(span, "mq", system, span.destination, span.name))
  }

  // ---------------------------------------------------------------- the factory

  /** buildExternal: the first parser that answers. */
  function Build(span: Span, topUrl: bool): Option<External> {
    if span.kind.Client? then
      if DbExternal(span).Some? then DbExternal(span)
      else if HttpExternal(span, topUrl).Some? then HttpExternal(span, topUrl)
      else if RpcExternal(span).Some? then RpcExternal(span)
      else if MessageSystem in span.attributes then MqExternal(span)
      else if DbSystem !in span.attributes then Some(UnknownExternal(span))
      else None
    else if span.kind.Consumer? || span.kind.Producer? then MqExternal(span)
    else None
  }

  predicate IsExit(kind: Kind) {
    kind.Client? || kind.Consumer? || kind.Producer?
  }

  /** A client span of a message system and of nothing that is asked before. */
  predicate OnlyMessage(span: Span) {
    MessageSystem in span.attributes && {DbSystem, RpcSystem} !! span.attributes.Keys && span.httpMethod == ""
  }

  /**
   Every client, consumer and producer span becomes an external and no other
   span does; it keeps the span's ids and kind, and its group follows from the
   kind and the attributes alone.
   */
  lemma BuildExact(span: Span, topUrl: bool)
    ensures Build(span, topUrl).Some? <==> IsExit(span.kind)
    ensures Build(span, topUrl).Some? ==>
      var e := Build(span, topUrl).value;
      && e.spanId == span.spanId && e.nextSpanId == span.nextSpanId && e.kind == span.kind
      && (e.group == "db" <==> span.kind.Client? && DbSystem in span.attributes)
      && (e.group == "mq" <==> !span.kind.Client? || OnlyMessage(span))
      && (e.group == "db" || e.group == "mq" || e.group == "external")
  {
    var g := ["db", "mq", "external"];
    assert |g[0]| == 2 && |g[1]| == 2 && |g[2]| == 8 && g[0][0] == 'd' && g[1][0] == 'm';
  }

  /** What every external takes over from its span. */
  predicate TakesOver(e: External, span: Span) {
    && e.startTime == span.startTime && e.duration == span.duration && e.isError == span.isError
    && e.spanId == span.spanId && e.nextSpanId == span.nextSpanId && e.pSpanId == span.pSpanId
    && e.kind == span.kind && e.peer == span.peer
  }

  /** The text "op db.table", or "op table" without a db. */
  predicate CallText(name: string, op: string, db: string, table: string) {
    if db == "" then name == op + " " + table else name == op + " " + db + "." + table
  }

  /**
   A database call: named by its span if it is one of the three key-value stores
   and the span has a name; else by the operation that the span states, with its
   table; else by the one parsed from its statement; else by its span again.
   */
  lemma DbSays(span: Span, topUrl: bool)
    requires span.kind.Client? && DbSystem in span.attributes
    ensures Build(span, topUrl).Some?
    ensures var e, system := Build(span, topUrl).value, span.attributes[DbSystem];
      var op, statement, db := Attr(span, DbOperation), Attr(span, DbStatement), Attr(span, DbName);
      && TakesOver(e, span) && e.group == "db" && e.typ == system
      && e.detail == (if statement != "" then statement else op)
      && (if system in {"redis", "memcached", "aerospike"} && span.name != "" then e.name == span.name
          else if op != "" then CallText(e.name, op, db, Attr(span, DbSqlTable))
          else if statement != "" && span.parsed.0 != "" then CallText(e.name, span.parsed.0, db, span.parsed.1)
          else e.name == span.name)
  {
  }

  /**
   Any other exit span: an http call by its method and, if asked for, the top of
   its url; an rpc or message call, or an unknown one, by the name of its span; a
   produced or consumed message by its destination.
   */
  lemma OthersSay(span: Span, topUrl: bool)
    requires IsExit(span.kind) && (span.kind.Client? ==> DbSystem !in span.attributes)
    ensures Build(span, topUrl).Some?
    ensures var e := Build(span, topUrl).value;
      && TakesOver(e, span)
      && if !span.kind.Client? then
           && e.group == "mq" && e.name == span.destination && e.detail == span.name
           && e.typ == if MessageSystem in span.attributes then span.attributes[MessageSystem] else "unknown"
         else if span.httpMethod != "" then
           && e.group == "external" && e.typ == "http" && e.detail == span.httpDetail
           && (if topUrl then e.name == span.httpMethod + " " + TopUrl(span.httpDetail) else e.name == span.httpMethod)
         else if RpcSystem in span.attributes then
           && e.group == "external" && e.typ == span.attributes[RpcSystem]
           && e.name == span.name && e.detail == span.rpcDetail
         else if MessageSystem in span.attributes then
           && e.group == "mq" && e.typ == span.attributes[MessageSystem] && e.name == span.name
           && e.detail == Attr(span, MessageDestinationName)
         else e.group == "external" && e.typ == "unknown" && e.name == span.name && e.detail == ""
  {
  }

  /** The externals of a list of spans, in their order. */
  function BuildAll(spans: seq<Span>, topUrl: bool): seq<External> {
    if spans == [] then []
    else BuildAll(spans[..|spans| - 1], topUrl) + ListOf(Build(spans[|spans| - 1], topUrl))
  }

  /** What appending a result that may be nil adds. */
  function ListOf(e: Option<External>): seq<External> {
    if e.Some? then [e.value] else []
  }

  method BuildExternals(entrySpans: seq<Span>, exitSpans: seq<Span>, topUrl: bool) returns (externals: seq<External>)
    ensures externals == BuildAll(entrySpans + exitSpans, topUrl)
  {
    assert [] + entrySpans == entrySpans;
    externals := AddExternals([], [], entrySpans, topUrl);
    externals := AddExternals(externals, entrySpans, exitSpans, topUrl);
  }

  /** One of the two loops. */
  method AddExternals(before: seq<External>, ghost done: seq<Span>, spans: seq<Span>, topUrl: bool)
    returns (externals: seq<External>)
    requires before == BuildAll(done, topUrl)
    ensures externals == BuildAll(done + spans, topUrl)
  {
    externals := before;
    ghost var now := done;
    for i := 0 to |spans|
      invariant now == done + spans[..i] && externals == BuildAll(now, topUrl)
    {
      SliceNext(done, spans, i);
      externals := AddExternal(externals, now, spans[i], topUrl);
      now := now + [spans[i]];
    }
    assert now == done + spans;
  }

  method AddExternal(before: seq<External>, ghost done: seq<Span>, span: Span, topUrl: bool)
    returns (externals: seq<External>)
    requires before == BuildAll(done, topUrl)
    ensures externals == BuildAll(done + [span], topUrl)
  {
    BuildAllSnoc(done, span, topUrl);
    var external := BuildOne(span, topUrl);
    externals := before + ListOf(external);
  }

  lemma BuildAllSnoc(spans: seq<Span>, span: Span, topUrl: bool)
    ensures BuildAll(spans + [span], topUrl) == BuildAll(spans, topUrl) + ListOf(Build(span, topUrl))
  {
    assert (spans + [span])[..|spans|] == spans;
  }

  method BuildOne(span: Span, topUrl: bool) returns (e: Option<External>)
    ensures e == Build(span, topUrl)
  {
    if span.kind.Client? {
      e := ParseDb(span);
      if e.Some? {
        return;
      }
      e := HttpExternal(span, topUrl);
      if e.Some? {
        return;
      }
      e := RpcExternal(span);
      if e.Some? {
        return;
      }
      if MessageSystem in span.attributes {
        return MqExternal(span);
      } else if DbSystem !in span.attributes {
        return Some(UnknownExternal(span));
      }
    } else if span.kind.Consumer? || span.kind.Producer? {
      return MqExternal(span);
    }
    return None;
  }

  /** An external is in the list exactly when an exit-kind span of the list yields it. */
  lemma {:induction false} BuildAllHas(spans: seq<Span>, topUrl: bool, e: External)
    ensures e in BuildAll(spans, topUrl) <==> exists i :: 0 <= i < |spans| && Build(spans[i], topUrl) == Some(e)
  {
    if spans != [] {
      var n := |spans| - 1;
      var init := spans[..n];
      BuildAllHas(init, topUrl, e);
      if i :| 0 <= i < n && Build(init[i], topUrl) == Some(e) {
        assert Build(spans[i], topUrl) == Some(e);
      }
      if i :| 0 <= i < |spans| && Build(spans[i], topUrl) == Some(e) {
        assert i < n ==> Build(init[i], topUrl) == Some(e);
      }
    }
  }

  // ---------------------------------------------------------------- database names

  function IndexOf(s: string, c: char): (i: int)
    ensures -1 <= i < |s|
    ensures i < 0 <==> Free(s, c)
    ensures i >= 0 ==> s[i] == c && Free(s[..i], c)
  {
    if s == "" then -1
    else if s[0] == c then 0
    else
      var i := IndexOf(s[1..], c);
      assert forall k :: 0 < k < |s| ==> s[k] == s[1..][k - 1];
      if i < 0 then -1
      else
        assert forall k :: 0 < k < i + 1 ==> s[k] == s[1..][..i][k - 1];
        i + 1
  }

  function GetDbName(name: string): string {
    var index := IndexOf(name, ' ');
    if index < 4 then "" else BeforeDot(name[index + 1..])
  }

  function BeforeDot(dbTable: string): string {
    var index := IndexOf(dbTable, '.');
    if index != -1 then dbTable[0..index] else ""
  }

  /** The text before the first c, all of it when there is none. */
  function Upto(s: string, c: char): (a: string)
    ensures a <= s && Free(a, c) && (|a| == |s| <==> Free(s, c))
    ensures |a| < |s| ==> s[|a|] == c
  {
    if IndexOf(s, c) < 0 then s else s[..IndexOf(s, c)]
  }

  lemma UptoField(a: string, c: char, rest: string)
    requires Free(a, c)
    ensures Upto(a + [c] + rest, c) == a
  {
    var s := a + [c] + rest;
    var u := Upto(s, c);
    assert s[|a|] == c;
    assert forall k :: 0 <= k < |u| ==> s[k] != c by {
      assert forall k :: 0 <= k < |u| ==> u[k] == s[k];
    }
    assert forall k :: 0 <= k < |a| ==> s[k] == a[k];
    assert |u| == |a|;
    assert u == s[..|u|];
  }

  /** A text begins with a field that is closed by a dot. */
  predicate Begins(s: string, field: string) {
    Free(field, '.') && field + "." <= s
  }

  lemma BeginsUpto(s: string, field: string)
    ensures Begins(s, field) <==> Upto(s, '.') == field && |field| < |s|
  {
    if Begins(s, field) {
      assert s[..|field| + 1] == field + ".";
      assert s == field + ['.'] + s[|field| + 1..];
      UptoField(field, '.', s[|field| + 1..]);
    }
    if Upto(s, '.') == field && |field| < |s| {
      assert s[..|field| + 1] == field + ".";
    }
  }

  /** The text behind the first word names the db, or none for the empty one. */
  predicate Names(dbTable: string, db: string) {
    if db == "" then Free(dbTable, '.') || dbTable[0] == '.' else Begins(dbTable, db)
  }

  /**
   What a name says of the db: behind a first word of four or more characters the
   db and a dot follow, or nothing that reads so.
   */
  predicate Says(name: string, db: string) {
    var word := Upto(name, ' ');
    if |word| < 4 || |word| == |name| then db == "" else Names(name[|word| + 1..], db)
  }

  lemma NamesExact(dbTable: string, db: string)
    ensures BeforeDot(dbTable) == db <==> Names(dbTable, db)
  {
    BeginsUpto(dbTable, db);
    if !Free(dbTable, '.') {
      assert Upto(dbTable, '.') == dbTable[0..IndexOf(dbTable, '.')];
    }
  }

  lemma GetDbNameIs(name: string)
    ensures var word := Upto(name, ' ');
      GetDbName(name) == if |word| < 4 || |word| == |name| then "" else BeforeDot(name[|word| + 1..])
  {
    assert Free(name, ' ') || |Upto(name, ' ')| == IndexOf(name, ' ');
  }

  /** On every text: what is read back from it. */
  lemma GetDbNameExact(name: string, db: string)
    ensures GetDbName(name) == db <==> Says(name, db)
  {
    GetDbNameIs(name);
    var word := Upto(name, ' ');
    var dbTable := if |word| < |name| then name[|word| + 1..] else "";
    NamesExact(dbTable, db);
    assert GetDbName(name) == if |word| < 4 || |word| == |name| then "" else BeforeDot(dbTable);
    assert Says(name, db) == if |word| < 4 || |word| == |name| then db == "" else Names(dbTable, db);
  }

  lemma SaysField(word: string, rest: string, db: string)
    requires Free(word, ' ')
    ensures Says(word + [' '] + rest, db) <==> if |word| < 4 then db == "" else Names(rest, db)
  {
    var name := word + [' '] + rest;
    UptoField(word, ' ', rest);
    assert name[|word| + 1..] == rest;
  }

  /**
   The condition on the parts of a name "op db.table" or, without a db, "op
   table": the first word of the operation must have four characters and the db
   no dot; behind an operation of several words the db is only read when the
   operation itself goes on with it. Without a db nothing must look like one.
   */
  predicate KeepsDb(op: string, db: string, table: string) {
    var word := Upto(op, ' ');
    if db == "" then |word| < 4 || Names(if word == op then table else op[|word| + 1..] + " " + table, "")
    else |word| >= 4 && Free(db, '.') && (word == op || Begins(op[|word| + 1..], db))
  }

  /** The db is read back from a constructed name exactly under that condition, for every operation, db and table. */
  lemma DbNameBack(op: string, db: string, table: string)
    ensures GetDbName(Operation(op, db, table)) == db <==> KeepsDb(op, db, table)
  {
    GetDbNameExact(Operation(op, db, table), db);
    if Upto(op, ' ') == op {
      OneWordSays(op, db, table);
    } else {
      MoreWordsSay(op, db, table);
    }
  }

  lemma OneWordSays(op: string, db: string, table: string)
    requires Upto(op, ' ') == op
    ensures Says(Operation(op, db, table), db) <==> KeepsDb(op, db, table)
  {
    var tail := if db != "" then db + "." + table else table;
    assert Operation(op, db, table) == op + [' '] + tail;
    SaysField(op, tail, db);
    OwnName(db, table);
  }

  lemma MoreWordsSay(op: string, db: string, table: string)
    requires Upto(op, ' ') != op
    ensures Says(Operation(op, db, table), db) <==> KeepsDb(op, db, table)
  {
    var word := Upto(op, ' ');
    var rest := op[|word| + 1..];
    var tail := if db != "" then db + "." + table else table;
    MoreWordsName(op, word, rest, db, table);
    SaysField(word, rest + " " + tail, db);
    OwnWords(rest, db, table);
  }

  lemma MoreWordsName(op: string, word: string, rest: string, db: string, table: string)
    requires |word| < |op| && word == op[..|word|] && op[|word|] == ' ' && rest == op[|word| + 1..]
    ensures Operation(op, db, table) == word + [' '] + (rest + " " + (if db != "" then db + "." + table else table))
  {
    assert op == word + [' '] + rest;
  }

  lemma OwnName(db: string, table: string)
    ensures db != "" ==> (Begins(db + "." + table, db) <==> Free(db, '.'))
  {
    assert db + "." + table == (db + ".") + table;
  }

  /** A dot-free db behind the rest of an operation is not what the text begins with, unless the rest does. */
  lemma OwnWords(rest: string, db: string, table: string)
    ensures db != "" ==> (Begins(rest + " " + (db + "." + table), db) <==> Begins(rest, db))
  {
    var l, r := db + ".", rest + " " + (db + "." + table);
    if Free(db, '.') && l <= r {
      assert forall k :: 0 <= k < |l| ==> r[k] == l[k];
      assert r[|rest|] == ' ' && l[|db|] == '.';
      assert forall k :: |rest| < k <= |rest| + |db| ==> r[k] == db[k - |rest| - 1];
      assert |db| < |rest|;
      assert rest[..|l|] == r[..|l|] == l;
    }
    if l <= rest {
      assert r[..|l|] == rest[..|l|] == l;
    }
  }

  /** Whether a database external carries the name of its span instead of an operation. */
  predicate NamedBySpan(span: Span) {
    || (DbSystem in span.attributes && IsKeyValueStore(span.attributes[DbSystem]) && span.name != "")
    || StatedOperation(span).0 == ""
  }

  /**
   End to end, for every database span, with a stated or parsed operation or
   none: the db name written next to the external is the span's own, or empty if
   it has none, exactly under this condition.
   */
  lemma ExternalDbName(span: Span)
    requires DbExternal(span).Some?
    ensures var db, op := Attr(span, DbName), StatedOperation(span);
      GetDbName(DbExternal(span).value.name) == db <==>
      if NamedBySpan(span) then Says(span.name, db) else KeepsDb(op.0, db, op.1)
  {
    var db, op := Attr(span, DbName), StatedOperation(span);
    GetDbNameExact(span.name, db);
    DbNameBack(op.0, db, op.1);
  }

  /**
   Names from which another database is read: the schema of a table, as in
   "SELECT s.t", and the rest of an operation, as in "CREATE TABLE d.".
   */
  lemma WrongDb(op: string, more: string, d: string, t: string)
    requires Free(op, ' ') && |op| >= 4 && Free(more, '.') && Free(d, '.') && d != ""
    ensures GetDbName(Operation(op, "", d + "." + t)) == d
    ensures GetDbName(Operation(op + " " + more, d, t)) == more + " " + d
  {
    SchemaRead(op, d, t);
    SchemaRead(op, more + " " + d, t);
    SameName(op, more, d, t);
  }

  lemma SameName(op: string, more: string, d: string, t: string)
    requires d != ""
    ensures Operation(op + " " + more, d, t) == Operation(op, "", more + " " + d + "." + t)
  {
    Regroup(op + " ", more, " " + d + "." + t);
    assert op + " " + more + " " + d + "." + t == (op + " " + more) + (" " + d + "." + t);
    assert more + " " + d + "." + t == more + (" " + d + "." + t);
  }

  lemma SchemaRead(op: string, d: string, t: string)
    requires Free(op, ' ') && |op| >= 4 && Free(d, '.') && d != ""
    ensures GetDbName(Operation(op, "", d + "." + t)) == d
  {
    var name := op + [' '] + (d + "." + t);
    assert Operation(op, "", d + "." + t) == name;
    SaysField(op, d + "." + t, d);
    OwnName(d, t);
    GetDbNameExact(name, d);
  }
}
