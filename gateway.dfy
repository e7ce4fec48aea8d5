/**
  The database gateway (`PostgreSQLManager`): every call opens a connection to
  the endpoint chosen by the `use_replica` flag, runs one statement, shapes the
  result as rows or a row count, and commits.

  The PostgreSQL servers are an abstract store: each endpoint, identified by
  its connection settings, is a `Server` holding a state of type `S`, and a
  statement semantics function says what one statement does to that state.
  Each statement is one atomic step; a failed statement is rolled back.
 */
module Gateway {
  import opened Wrappers
  import opened Text

  /** Connection settings of one endpoint (host, port, user, password, database name). */
  datatype Config = Config(host: string, port: int, user: string, password: string, dbname: string)

  /** A column value as the driver hands it over. */
  datatype Value = Null | Bool(b: bool) | Int(i: int) | Str(s: string)

  /** A fetched row, column name to value. */
  type Row = map<string, Value>

  /** Statement text and its bound parameters (`None` when the caller passes none). */
  datatype Statement = Statement(text: string, params: Option<seq<Value>>)

  /**
    What a server does with one statement: it rejects it, or it runs it, yielding
    its result set (if the statement produces one), its row count and the new state.
   */
  datatype Reply<S> = Rejected(message: string) | Done(resultSet: Option<seq<Row>>, rowcount: int, next: S)

  /** The `psycopg2.Error`s the gateway re-raises. */
  datatype DbError =
    | ConnectionFailed               // connect() failed: endpoint unknown or down
    | StatementFailed(message: string) // the server rejected the statement
    | NoResultSet                    // fetchall() on a statement without a result set

  /** What `execute_query` returns: every fetched row, or the row count. */
  datatype QueryResult = Rows(rows: seq<Row>) | RowCount(count: int)

  datatype Server<S> = Server(online: bool, state: S)

  /** The outcome of one call and the servers afterwards. */
  datatype Step<S> = Step(result: Result<QueryResult, DbError>, servers: map<Config, Server<S>>)

  /** `execute_query`'s target selection: the flag alone decides; the statement text plays no part. */
  function Route(master: Config, replica: Config, useReplica: bool): (c: Config)
    ensures useReplica ==> c == replica
    ensures !useReplica ==> c == master
  {
    if useReplica then replica else master
  }

  /**
    One statement on the endpoint `cfg`: connect, execute, shape the result,
    commit. Any failure leaves every server as it was and is reported as is.
   */
  function Exec<S>(sem: (Statement, S) -> Reply<S>, servers: map<Config, Server<S>>, cfg: Config,
                   stmt: Statement, fetch: bool): (o: Step<S>)
    ensures o.servers.Keys == servers.Keys
  {
    if cfg !in servers || !servers[cfg].online then Step(Err(ConnectionFailed), servers)
    else
      match sem(stmt, servers[cfg].state)
      case Rejected(msg) => Step(Err(StatementFailed(msg)), servers)
      case Done(resultSet, rowcount, next) =>
        if fetch && resultSet.None? then Step(Err(NoResultSet), servers)
        else
          var shaped := if fetch then Rows(resultSet.value) else RowCount(rowcount);
          Step(Ok(shaped), servers[cfg := Server(true, next)])
  }

  /**
    A statement fails with `ConnectionFailed` on an unknown or offline server,
    and a failed statement changes nothing. A successful one found its server
    online, was accepted by it, returned rows exactly when they were fetched,
    and left the server in the state the statement produced. The rows are the
    statement's whole result set, the count is its row count, and a rejection
    carries the server's own message.
   */
  lemma ExecOutcome<S>(sem: (Statement, S) -> Reply<S>, servers: map<Config, Server<S>>, cfg: Config,
                       stmt: Statement, fetch: bool)
    ensures var o := Exec(sem, servers, cfg, stmt, fetch);
      && (o.result.Err? ==> o.servers == servers)
      && ((cfg !in servers || !servers[cfg].online) ==> o.result == Err(ConnectionFailed))
      && (o.result.Ok? ==> (o.result.value.Rows? <==> fetch))
      && (o.result.Ok? && fetch ==>
            o.result.value == Rows(sem(stmt, servers[cfg].state).resultSet.value))
      && (o.result.Ok? && !fetch ==>
            o.result.value == RowCount(sem(stmt, servers[cfg].state).rowcount))
      && (cfg in servers && servers[cfg].online && sem(stmt, servers[cfg].state).Rejected? ==>
            o.result == Err(StatementFailed(sem(stmt, servers[cfg].state).message)))
      && (cfg in servers && servers[cfg].online && sem(stmt, servers[cfg].state).Done? ==>
            (o.result == Err(NoResultSet) <==> fetch && sem(stmt, servers[cfg].state).resultSet.None?))
      && (o.result.Ok? ==> cfg in servers && servers[cfg].online && sem(stmt, servers[cfg].state).Done?)
      && (o.result.Ok? ==> o.servers == servers[cfg := Server(true, sem(stmt, servers[cfg].state).next)])
  {
  }

  /** A statement reaches only the server it is sent to: every other server keeps its state. */
  lemma ExecTouchesOnlyItsServer<S>(sem: (Statement, S) -> Reply<S>, servers: map<Config, Server<S>>, cfg: Config,
                                   stmt: Statement, fetch: bool)
    ensures var o := Exec(sem, servers, cfg, stmt, fetch);
      forall c :: c in servers && c != cfg ==> o.servers[c] == servers[c]
  {
  }

  /** `[f(x) for x in xs if f(x)]`: the non-empty images of `xs` under `f`, in order. */
  function KeepNonEmpty(f: string -> string, xs: seq<string>): (ys: seq<string>)
    ensures |ys| <= |xs|
  {
    if xs == [] then []
    else
      var t := f(xs[0]);
      (if t == [] then [] else [t]) + KeepNonEmpty(f, xs[1..])
  }

  /** Keeping works element by element, so it distributes over concatenation. */
  lemma {:induction false} KeepNonEmptyAppend(f: string -> string, a: seq<string>, b: seq<string>)
    ensures KeepNonEmpty(f, a + b) == KeepNonEmpty(f, a) + KeepNonEmpty(f, b)
    decreases |a|
  {
    if a == [] {
      assert a + b == b;
    } else {
      var t := f(a[0]);
      var h := if t == [] then [] else [t];
      assert (a + b)[0] == a[0];
      assert (a + b)[1..] == a[1..] + b;
      KeepNonEmptyAppend(f, a[1..], b);
      calc {
        KeepNonEmpty(f, a + b);
        h + KeepNonEmpty(f, a[1..] + b);
        h + (KeepNonEmpty(f, a[1..]) + KeepNonEmpty(f, b));
        (h + KeepNonEmpty(f, a[1..])) + KeepNonEmpty(f, b);
      }
    }
  }

  /** Every kept image is non-empty, and it has any property that every image of an element has. */
  lemma {:induction false} KeepNonEmptyAll(f: string -> string, xs: seq<string>, p: string -> bool)
    requires forall k :: 0 <= k < |xs| ==> p(f(xs[k]))
    ensures forall k :: 0 <= k < |KeepNonEmpty(f, xs)| ==> KeepNonEmpty(f, xs)[k] != [] && p(KeepNonEmpty(f, xs)[k])
    decreases |xs|
  {
    if xs != [] {
      assert forall k :: 0 <= k < |xs[1..]| ==> p(f(xs[1..][k])) by {
        forall k | 0 <= k < |xs[1..]| ensures p(f(xs[1..][k])) {
          assert xs[1..][k] == xs[k + 1];
        }
      }
      KeepNonEmptyAll(f, xs[1..], p);
      assert p(f(xs[0]));
    }
  }

  /** `[q.strip() for q in script.split(';') if q.strip()]`, over the fragments. */
  function Clean(frags: seq<string>): (qs: seq<string>)
    ensures |qs| <= |frags|
  {
    KeepNonEmpty(Strip, frags)
  }

  /** Every statement is stripped and non-empty. */
  lemma CleanWellFormed(frags: seq<string>)
    ensures forall k :: 0 <= k < |Clean(frags)| ==> Clean(frags)[k] != [] && IsTrimmed(Clean(frags)[k])
  {
    forall k | 0 <= k < |frags| ensures IsTrimmed(Strip(frags[k])) {
      StripWellFormed(frags[k]);
    }
    KeepNonEmptyAll(Strip, frags, IsTrimmed);
  }

  /** Stripping adds no character, so fragments free of `c` give statements free of `c`. */
  lemma CleanFreeOf(frags: seq<string>, c: char)
    requires forall k :: 0 <= k < |frags| ==> c !in frags[k]
    ensures forall k :: 0 <= k < |Clean(frags)| ==> c !in Clean(frags)[k]
  {
    forall k | 0 <= k < |frags| ensures c !in Strip(frags[k]) {
      StripAddsNothing(frags[k], c);
    }
    KeepNonEmptyAll(Strip, frags, t => c !in t);
  }

  /** The statements `execute_script` runs for a script text. */
  function ScriptStatements(script: string): (stmts: seq<string>)
    ensures |stmts| <= Count(script, ';') + 1
  {
    Clean(Split(script, ';'))
  }

  /** Cleaning keeps the order of the fragments: it works fragment by fragment. */
  lemma CleanAppend(a: seq<string>, b: seq<string>)
    ensures Clean(a + b) == Clean(a) + Clean(b)
  {
    KeepNonEmptyAppend(Strip, a, b);
  }

  /**
    Every statement of a script is trimmed, non-empty and free of `;`; there
    are at most one more statements than `;` characters; and the fragments
    the splitter works on join back to the script.
   */
  lemma ScriptStatementsWellFormed(script: string)
    ensures var qs := ScriptStatements(script);
      && |qs| <= Count(script, ';') + 1
      && (forall k :: 0 <= k < |qs| ==> qs[k] != [] && IsTrimmed(qs[k]) && ';' !in qs[k])
    ensures Join(Split(script, ';'), ";") == script
  {
    var frags := Split(script, ';');
    JoinSplit(script, ';');
    CleanWellFormed(frags);
    CleanFreeOf(frags, ';');
  }

  /** A script run: every statement ran, or it stopped at statement `at` with `error`. */
  datatype ScriptRun<S> =
    | Ran(servers: map<Config, Server<S>>)
    | Stopped(at: nat, error: DbError, servers: map<Config, Server<S>>)

  /**
    The statements run one after another on `cfg`, each on its own connection
    and committed on its own, without parameters and without fetching; the
    first failure stops the run.
   */
  function RunScript<S>(sem: (Statement, S) -> Reply<S>, servers: map<Config, Server<S>>, cfg: Config,
                        stmts: seq<string>): (o: ScriptRun<S>)
    ensures o.servers.Keys == servers.Keys
    ensures o.Stopped? ==> o.at < |stmts|
    decreases |stmts|
  {
    if stmts == [] then Ran(servers)
    else
      match RunScript(sem, servers, cfg, stmts[..|stmts| - 1])
      case Stopped(k, e, s) => Stopped(k, e, s)
      case Ran(s) =>
        var step := Exec(sem, s, cfg, Statement(stmts[|stmts| - 1], None), false);
        if step.result.Err? then Stopped(|stmts| - 1, step.result.error, step.servers)
        else Ran(step.servers)
  }

  /** Running one more statement after a completed run. */
  lemma RunScriptSnoc<S>(sem: (Statement, S) -> Reply<S>, servers: map<Config, Server<S>>, cfg: Config,
                         done: seq<string>, q: string, s: map<Config, Server<S>>)
    requires RunScript(sem, servers, cfg, done) == Ran(s)
    ensures var step := Exec(sem, s, cfg, Statement(q, None), false);
      RunScript(sem, servers, cfg, done + [q])
        == if step.result.Err? then Stopped(|done|, step.result.error, step.servers) else Ran(step.servers)
  {
    var longer := done + [q];
    assert longer[..|longer| - 1] == done;
  }

  /** Once a run has stopped, the later statements change nothing. */
  lemma {:induction false} RunScriptStoppedPrefix<S>(sem: (Statement, S) -> Reply<S>, servers: map<Config, Server<S>>,
                                                    cfg: Config, stmts: seq<string>, j: nat)
    requires j <= |stmts|
    requires RunScript(sem, servers, cfg, stmts[..j]).Stopped?
    ensures RunScript(sem, servers, cfg, stmts) == RunScript(sem, servers, cfg, stmts[..j])
    decreases |stmts| - j
  {
    if j < |stmts| {
      var longer := stmts[..j + 1];
      assert longer[..|longer| - 1] == stmts[..j];
      RunScriptStoppedPrefix(sem, servers, cfg, stmts, j + 1);
    } else {
      assert stmts[..j] == stmts;
    }
  }

  /**
    If statement `k` fails, statements before it ran and stayed committed,
    statement `k` failed on exactly that state with the reported error, and
    the statements after it never ran.
   */
  lemma {:induction false} ScriptStopsAtFirstFailure<S>(sem: (Statement, S) -> Reply<S>, servers: map<Config, Server<S>>,
                                                       cfg: Config, stmts: seq<string>)
    requires RunScript(sem, servers, cfg, stmts).Stopped?
    ensures var o := RunScript(sem, servers, cfg, stmts);
      && o.at < |stmts|
      && RunScript(sem, servers, cfg, stmts[..o.at]) == Ran(o.servers)
      && Exec(sem, o.servers, cfg, Statement(stmts[o.at], None), false).result == Err(o.error)
    decreases |stmts|
  {
    var init := stmts[..|stmts| - 1];
    match RunScript(sem, servers, cfg, init)
    case Stopped(k, e, s) =>
      ScriptStopsAtFirstFailure(sem, servers, cfg, init);
      assert init[..k] == stmts[..k];
    case Ran(s) =>
      assert stmts[..|stmts| - 1] == init;
  }

  /** A run that completed ran every prefix to completion. */
  lemma {:induction false} ScriptRanEveryPrefix<S>(sem: (Statement, S) -> Reply<S>, servers: map<Config, Server<S>>,
                                                  cfg: Config, stmts: seq<string>, j: nat)
    requires j <= |stmts|
    requires RunScript(sem, servers, cfg, stmts).Ran?
    ensures RunScript(sem, servers, cfg, stmts[..j]).Ran?
  {
    if RunScript(sem, servers, cfg, stmts[..j]).Stopped? {
      RunScriptStoppedPrefix(sem, servers, cfg, stmts, j);
    }
  }

  /** Every statement of a script goes to the one endpoint `cfg`: no other server changes. */
  lemma {:induction false} ScriptStaysOnOneEndpoint<S>(sem: (Statement, S) -> Reply<S>, servers: map<Config, Server<S>>,
                                                      cfg: Config, stmts: seq<string>)
    ensures var o := RunScript(sem, servers, cfg, stmts);
      && o.servers.Keys == servers.Keys
      && forall c :: c in servers && c != cfg ==> o.servers[c] == servers[c]
    decreases |stmts|
  {
    if stmts != [] {
      ScriptStaysOnOneEndpoint(sem, servers, cfg, stmts[..|stmts| - 1]);
    }
  }

  /** `check_connection`'s answer: `(True, latency)` after a good `SELECT 1` round trip, else `(False, None)`. */
  datatype Health = Health(reachable: bool, latencyMs: Option<real>)

  const ProbeStatement := Statement("SELECT 1", None)

  function Probe<S>(sem: (Statement, S) -> Reply<S>, servers: map<Config, Server<S>>, cfg: Config,
                    elapsedMs: real): (h: Health)
    ensures h.reachable <==> h.latencyMs.Some?
    ensures h.reachable <==> Exec(sem, servers, cfg, ProbeStatement, true).result.Ok?
    ensures h.reachable ==> h.latencyMs == Some(elapsedMs)
  {
    if Exec(sem, servers, cfg, ProbeStatement, true).result.Ok? then Health(true, Some(elapsedMs))
    else Health(false, None)
  }

  /** The PostgreSQL deployment: one server per set of connection settings. */
  class Database<S> {
    var servers: map<Config, Server<S>>
    const semantics: (Statement, S) -> Reply<S>

    constructor (servers: map<Config, Server<S>>, semantics: (Statement, S) -> Reply<S>)
      ensures this.servers == servers && this.semantics == semantics
    {
      this.servers := servers;
      this.semantics := semantics;
    }
  }

  /** `PostgreSQLManager`: the master and replica connection settings. */
  class Manager {
    const masterConfig: Config
    const replicaConfig: Config

    constructor (masterConfig: Config, replicaConfig: Config)
      ensures this.masterConfig == masterConfig && this.replicaConfig == replicaConfig
    {
      this.masterConfig := masterConfig;
      this.replicaConfig := replicaConfig;
    }

    /** `execute_query(query, use_replica, params, fetch)`; an `Err` is the re-raised `psycopg2.Error`. */
    method ExecuteQuery<S>(db: Database<S>, query: string, useReplica: bool, params: Option<seq<Value>>, fetch: bool)
      returns (r: Result<QueryResult, DbError>)
      modifies db
      ensures var step := Exec(db.semantics, old(db.servers), Route(masterConfig, replicaConfig, useReplica),
                               Statement(query, params), fetch);
        r == step.result && db.servers == step.servers
    {
      var cfg := Route(masterConfig, replicaConfig, useReplica);
      var step := Exec(db.semantics, db.servers, cfg, Statement(query, params), fetch);
      db.servers := step.servers;
      r := step.result;
    }

    /**
      `execute_script` on the text of the script file: the statements run in
      order on the endpoint given by `use_replica`; the first error stops the
      run and is re-raised.
     */
    method ExecuteScript<S>(db: Database<S>, script: string, useReplica: bool) returns (r: Result<(), DbError>)
      modifies db
      ensures var o := RunScript(db.semantics, old(db.servers), Route(masterConfig, replicaConfig, useReplica),
                                 ScriptStatements(script));
        && db.servers == o.servers
        && (o.Ran? ==> r == Ok(()))
        && (o.Stopped? ==> r == Err(o.error))
    {
      var queries := ScriptStatements(script);
      r := ExecuteStatements(db, queries, useReplica);
    }

    /** The loop of `execute_script` over the cleaned statements. */
    method ExecuteStatements<S>(db: Database<S>, queries: seq<string>, useReplica: bool) returns (r: Result<(), DbError>)
      modifies db
      ensures var o := RunScript(db.semantics, old(db.servers), Route(masterConfig, replicaConfig, useReplica), queries);
        && db.servers == o.servers
        && (o.Ran? ==> r == Ok(()))
        && (o.Stopped? ==> r == Err(o.error))
    {
      ghost var cfg := Route(masterConfig, replicaConfig, useReplica);
      ghost var start := db.servers;
      var i := 0;
      while i < |queries|
        invariant 0 <= i <= |queries|
        invariant RunScript(db.semantics, start, cfg, queries[..i]) == Ran(db.servers)
      {
        assert queries[..i + 1] == queries[..i] + [queries[i]];
        var res := ExecuteNext(db, useReplica, start, queries[..i], queries[i]);
        if res.Err? {
          RunScriptStoppedPrefix(db.semantics, start, cfg, queries, i + 1);
          return Err(res.error);
        }
        i := i + 1;
      }
      assert queries[..i] == queries;
      r := Ok(());
    }

    /** One statement of a script, after the statements `done` ran to completion from `start`. */
    method ExecuteNext<S>(db: Database<S>, useReplica: bool, ghost start: map<Config, Server<S>>,
                          ghost done: seq<string>, query: string) returns (r: Result<QueryResult, DbError>)
      requires RunScript(db.semantics, start, Route(masterConfig, replicaConfig, useReplica), done) == Ran(db.servers)
      modifies db
      ensures RunScript(db.semantics, start, Route(masterConfig, replicaConfig, useReplica), done + [query])
        == if r.Err? then Stopped(|done|, r.error, db.servers) else Ran(db.servers)
    {
      RunScriptSnoc(db.semantics, start, Route(masterConfig, replicaConfig, useReplica), done, query, db.servers);
      r := ExecuteQuery(db, query, useReplica, None, false);
    }

    /** `check_connection`: never fails; `elapsedMs` is the round-trip time read from the clock. */
    method CheckConnection<S>(db: Database<S>, useReplica: bool, elapsedMs: real) returns (h: Health)
      modifies db
      ensures var cfg := Route(masterConfig, replicaConfig, useReplica);
        && h == Probe(db.semantics, old(db.servers), cfg, elapsedMs)
        && db.servers == Exec(db.semantics, old(db.servers), cfg, ProbeStatement, true).servers
    {
      var res := ExecuteQuery(db, ProbeStatement.text, useReplica, None, true);
      if res.Ok? {
        h := Health(true, Some(elapsedMs));
      } else {
        h := Health(false, None);
      }
    }
  }
}
