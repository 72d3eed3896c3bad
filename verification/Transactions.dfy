/** Flattened transactions: the Postgres depth counter and the SQLite in-transaction flag,
    run over the same programs of nested blocks, statements and exceptions. */
module Transactions {
  import opened Wrappers
  import opened EventLog

  /** How a piece of code ends: normally, by an Exception, or by an exception that is not an
      Exception (an interrupt), which `except Exception` does not see. */
  datatype Outcome = Done | Failed | Interrupted

  /** Code over a database of type D. `Catch` is a try block around its body that swallows
      exceptions, and interrupts too if `all` is set; `Block` is `with backend.transaction()`. */
  datatype Code<!D> =
    | Skip
    | Execute(statement: D -> D)
    | Raise
    | Interrupt
    | Then(first: Code<D>, second: Code<D>)
    | Catch(body: Code<D>, all: bool)
    | Block(body: Code<D>)

  /** A connection: the state its statements see, and the state at BEGIN while one is open. */
  datatype Conn<D> = Conn(db: D, begun: Option<D>)

  function Begin<D>(c: Conn<D>): Conn<D> {
    Conn(c.db, Some(c.db))
  }

  function Commit<D>(c: Conn<D>): Conn<D> {
    Conn(c.db, None)
  }

  function Rollback<D>(c: Conn<D>): Conn<D> {
    if c.begun.Some? then Conn(c.begun.value, None) else c
  }

  /** What other connections, and a restart, see: the last committed state. */
  function Durable<D>(c: Conn<D>): D {
    if c.begun.Some? then c.begun.value else c.db
  }

  predicate Swallows(out: Outcome, all: bool) {
    out == Failed || (all && out == Interrupted)
  }

  // ---------------------------------------------------------------- three meanings

  /** No transactions at all: only the statements and the exceptions. */
  ghost function Plain<D>(p: Code<D>, db: D): (D, Outcome) {
    match p
    case Skip => (db, Done)
    case Execute(f) => (f(db), Done)
    case Raise => (db, Failed)
    case Interrupt => (db, Interrupted)
    case Then(a, b) =>
      var r := Plain(a, db);
      if r.1 == Done then Plain(b, r.0) else r
    case Catch(body, all) =>
      var r := Plain(body, db);
      if Swallows(r.1, all) then (r.0, Done) else r
    case Block(body) => Plain(body, db)
  }

  datatype Postgres<D> = Postgres(conn: Conn<D>, depth: nat)

  ghost function OnPostgres<D>(p: Code<D>, s: Postgres<D>): (Postgres<D>, Outcome) {
    match p
    case Skip => (s, Done)
    case Execute(f) => (s.(conn := s.conn.(db := f(s.conn.db))), Done)
    case Raise => (s, Failed)
    case Interrupt => (s, Interrupted)
    case Then(a, b) =>
      var r := OnPostgres(a, s);
      if r.1 == Done then OnPostgres(b, r.0) else r
    case Catch(body, all) =>
      var r := OnPostgres(body, s);
      if Swallows(r.1, all) then (r.0, Done) else r
    case Block(body) =>
      var started := if s.depth == 0 then Begin(s.conn) else s.conn;
      var r := OnPostgres(body, Postgres(started, s.depth + 1));
      match r.1
      case Done => (Postgres(if s.depth == 0 then Commit(r.0.conn) else r.0.conn, s.depth), Done)
      case Failed => (Postgres(if s.depth == 0 then Rollback(r.0.conn) else r.0.conn, s.depth), Failed)
      case Interrupted => r
  }

  ghost function OnSQLite<D>(p: Code<D>, c: Conn<D>): (Conn<D>, Outcome) {
    match p
    case Skip => (c, Done)
    case Execute(f) => (c.(db := f(c.db)), Done)
    case Raise => (c, Failed)
    case Interrupt => (c, Interrupted)
    case Then(a, b) =>
      var r := OnSQLite(a, c);
      if r.1 == Done then OnSQLite(b, r.0) else r
    case Catch(body, all) =>
      var r := OnSQLite(body, c);
      if Swallows(r.1, all) then (r.0, Done) else r
    case Block(body) =>
      var already := c.begun.Some?;
      var r := OnSQLite(body, if already then c else Begin(c));
      match r.1
      case Done => (if already then r.0 else Commit(r.0), Done)
      case Failed => (if already then r.0 else Rollback(r.0), Failed)
      case Interrupted => r
  }

  // ---------------------------------------------------------------- inside a transaction

  /** Inside a transaction every block is transparent: the code runs as if there were none, and
      the BEGIN state is kept. */
  lemma {:induction false} NestedIsPlain<D>(p: Code<D>, s: Postgres<D>)
    requires s.depth > 0
    ensures var r := OnPostgres(p, s); var q := Plain(p, s.conn.db);
            && r.0.conn == Conn(q.0, s.conn.begun) && r.1 == q.1 && r.0.depth > 0
  {
    match p
    case Then(a, b) =>
      NestedIsPlain(a, s);
      var r := OnPostgres(a, s);
      if r.1 == Done { NestedIsPlain(b, r.0); }
    case Catch(body, _) => NestedIsPlain(body, s);
    case Block(body) => NestedIsPlain(body, Postgres(s.conn, s.depth + 1));
    case _ =>
  }

  /** A transaction is open exactly when the depth is positive. */
  ghost predicate Synced<D>(s: Postgres<D>) {
    s.depth > 0 <==> s.conn.begun.Some?
  }

  lemma {:induction false} StaysSynced<D>(p: Code<D>, s: Postgres<D>)
    requires Synced(s)
    ensures Synced(OnPostgres(p, s).0)
  {
    match p
    case Then(a, b) =>
      StaysSynced(a, s);
      StaysSynced(b, OnPostgres(a, s).0);
    case Catch(body, _) => StaysSynced(body, s);
    case Block(body) =>
      NestedIsPlain(body, Postgres(if s.depth == 0 then Begin(s.conn) else s.conn, s.depth + 1));
    case _ =>
  }

  /** For every program the two backends reach the same database, the same open transaction if
      any, and the same outcome. */
  lemma {:induction false} BackendsAgree<D>(p: Code<D>, s: Postgres<D>)
    requires Synced(s)
    ensures var r, q := OnPostgres(p, s), OnSQLite(p, s.conn); r.0.conn == q.0 && r.1 == q.1
  {
    match p
    case Then(a, b) =>
      BackendsAgree(a, s);
      StaysSynced(a, s);
      BackendsAgree(b, OnPostgres(a, s).0);
    case Catch(body, _) => BackendsAgree(body, s);
    case Block(body) =>
      BackendsAgree(body, Postgres(if s.depth == 0 then Begin(s.conn) else s.conn, s.depth + 1));
    case _ =>
  }

  // ---------------------------------------------------------------- the outermost block

  /** The outermost block keeps every surviving statement when it ends normally, restores the
      BEGIN state when an Exception leaves it, and stays open when an interrupt does. */
  lemma OutermostIsAllOrNothing<D>(body: Code<D>, s: Postgres<D>)
    requires s.depth == 0 && Synced(s)
    ensures var r := OnPostgres(Block(body), s); var q := Plain(body, s.conn.db);
            && r.1 == q.1
            && (r.1 == Done ==> r.0 == Postgres(Conn(q.0, None), 0))
            && (r.1 == Failed ==> r.0 == s)
            && (r.1 == Interrupted ==> r.0.depth > 0 && r.0.conn == Conn(q.0, Some(s.conn.db)))
  {
    NestedIsPlain(body, Postgres(Begin(s.conn), 1));
  }

  /** What is durable after the block: all of it or none of it, however the block ended. */
  lemma OutermostIsDurable<D>(body: Code<D>, s: Postgres<D>)
    requires s.depth == 0 && Synced(s)
    ensures var r := OnPostgres(Block(body), s);
            Durable(r.0.conn) == if r.1 == Done then Plain(body, s.conn.db).0 else s.conn.db
  {
    OutermostIsAllOrNothing(body, s);
  }

  /** An interrupt that leaves the outermost block leaves its transaction open: from then on no
      code, whatever blocks it has, makes anything durable. */
  lemma InterruptWedges<D>(p: Code<D>, s: Postgres<D>)
    requires s.depth > 0 && Synced(s)
    ensures Durable(OnPostgres(p, s).0.conn) == Durable(s.conn)
  {
    NestedIsPlain(p, s);
  }

  // ---------------------------------------------------------------- append_many

  ghost function Appends(es: seq<AppEvent>): Code<seq<Row>> {
    if es == [] then Skip
    else Then(Appends(es[..|es| - 1]), Execute(rows => Appended(rows, es[|es| - 1])))
  }

  /** How an iterable ends once it has yielded its events. */
  ghost function Ending(out: Outcome): Code<seq<Row>> {
    match out
    case Done => Skip
    case Failed => Raise
    case Interrupted => Interrupt
  }

  /** append_many over an iterable that yields these events and then ends in this way. */
  ghost function AppendManyCode(es: seq<AppEvent>, out: Outcome): Code<seq<Row>> {
    Block(Then(Appends(es), Ending(out)))
  }

  lemma {:induction false} AppendsArePlain(es: seq<AppEvent>, rows: seq<Row>)
    ensures Plain(Appends(es), rows) == (AppendedAll(rows, es), Done)
  {
    if es != [] {
      AppendsArePlain(es[..|es| - 1], rows);
    }
  }

  lemma AppendManyIsPlain(es: seq<AppEvent>, out: Outcome, rows: seq<Row>)
    ensures Plain(Then(Appends(es), Ending(out)), rows) == (AppendedAll(rows, es), out)
  {
    hide Appends, AppendedAll;
    AppendsArePlain(es, rows);
  }

  /** As the outermost block, append_many adds all its events; or none if an Exception is raised; or
      all, but nothing durable and the transaction left open, if it is interrupted. */
  lemma AppendManyIsAtomic(es: seq<AppEvent>, out: Outcome, s: Postgres<seq<Row>>)
    requires s.depth == 0 && Synced(s)
    ensures var r := OnPostgres(AppendManyCode(es, out), s); var all := AppendedAll(s.conn.db, es);
            && r.1 == out
            && (out == Done ==> r.0 == Postgres(Conn(all, None), 0))
            && (out == Failed ==> r.0 == s)
            && (out == Interrupted ==> r.0.depth > 0 && r.0.conn == Conn(all, Some(s.conn.db)))
  {
    hide OnPostgres, Appends, AppendedAll, Plain;
    AppendManyIsPlain(es, out, s.conn.db);
    OutermostIsAllOrNothing(Then(Appends(es), Ending(out)), s);
  }

  /** Inside a caller's transaction it is not: what it added stays, however it ends. */
  lemma NestedAppendManyKeepsPart(es: seq<AppEvent>, out: Outcome, s: Postgres<seq<Row>>)
    requires s.depth > 0
    ensures OnPostgres(AppendManyCode(es, out), s).0.conn == Conn(AppendedAll(s.conn.db, es), s.conn.begun)
  {
    hide OnPostgres, Appends, AppendedAll;
    AppendManyIsPlain(es, out, s.conn.db);
    var code := Then(Appends(es), Ending(out));
    assert Plain(Block(code), s.conn.db) == Plain(code, s.conn.db);
    NestedIsPlain(AppendManyCode(es, out), s);
  }

  /** The exact condition, however append_many ends: the log reads the same afterwards if and only if
      an Exception left it as the outermost block, or all it was given was in the log already. */
  lemma AppendManyIsSilentIff(es: seq<AppEvent>, out: Outcome, s: Postgres<seq<Row>>)
    requires Synced(s)
    ensures OnPostgres(AppendManyCode(es, out), s).0.conn.db == s.conn.db
      <==> (s.depth == 0 && out == Failed) || forall e :: e in es ==> HasId(s.conn.db, e.eventId)
  {
    hide OnPostgres, Appends, AppendedAll, HasId;
    UnchangedIffKnown(s.conn.db, es);
    if s.depth == 0 {
      AppendManyIsAtomic(es, out, s);
    } else {
      NestedAppendManyKeepsPart(es, out, s);
    }
  }

  lemma UnchangedIffKnown(rows: seq<Row>, es: seq<AppEvent>)
    ensures AppendedAll(rows, es) == rows <==> forall e :: e in es ==> HasId(rows, e.eventId)
  {
    if forall e :: e in es ==> HasId(rows, e.eventId) {
      KnownEventsAddNothing(rows, es);
    } else {
      var e :| e in es && !HasId(rows, e.eventId);
      var p :| 0 <= p < |es| && es[p] == e;
      AppendedIsKnown(rows, es, p);
    }
  }

  // ---------------------------------------------------------------- the two backends

  class PostgresBackend<D> {
    var db: D
    var begun: Option<D>
    var depth: nat

    ghost function View(): Postgres<D>
      reads this
    {
      Postgres(Conn(db, begun), depth)
    }

    constructor (db: D)
      ensures View() == Postgres(Conn(db, None), 0)
    {
      this.db, this.begun, this.depth := db, None, 0;
    }

    method Run(p: Code<D>) returns (out: Outcome)
      modifies this
      ensures (View(), out) == OnPostgres(p, old(View()))
      decreases p, 0
    {
      match p
      case Skip => out := Done;
      case Execute(f) => db := f(db); out := Done;
      case Raise => out := Failed;
      case Interrupt => out := Interrupted;
      case Then(a, b) =>
        out := Run(a);
        if out == Done { out := Run(b); }
      case Catch(body, all) =>
        out := Run(body);
        if Swallows(out, all) { out := Done; }
      case Block(body) => out := Transaction(body);
    }

    method Transaction(body: Code<D>) returns (out: Outcome)
      modifies this
      ensures (View(), out) == OnPostgres(Block(body), old(View()))
      decreases body, 1
    {
      var local := depth;
      if local == 0 {
        begun := Some(db);
      }
      depth := local + 1;
      out := Run(body);
      if out == Failed {
        if local == 0 && begun.Some? {
          db, begun := begun.value, None;
        }
        depth := local;
      } else if out == Done {
        if local == 0 {
          begun := None;
        }
        depth := local;
      }
    }
  }

  class SQLiteBackend<D> {
    var db: D
    var begun: Option<D>

    ghost function View(): Conn<D>
      reads this
    {
      Conn(db, begun)
    }

    constructor (db: D)
      ensures View() == Conn(db, None)
    {
      this.db, this.begun := db, None;
    }

    method Run(p: Code<D>) returns (out: Outcome)
      modifies this
      ensures (View(), out) == OnSQLite(p, old(View()))
      decreases p, 0
    {
      match p
      case Skip => out := Done;
      case Execute(f) => db := f(db); out := Done;
      case Raise => out := Failed;
      case Interrupt => out := Interrupted;
      case Then(a, b) =>
        out := Run(a);
        if out == Done { out := Run(b); }
      case Catch(body, all) =>
        out := Run(body);
        if Swallows(out, all) { out := Done; }
      case Block(body) => out := Transaction(body);
    }

    method Transaction(body: Code<D>) returns (out: Outcome)
      modifies this
      ensures (View(), out) == OnSQLite(Block(body), old(View()))
      decreases body, 1
    {
      var already := begun.Some?;
      if !already {
        begun := Some(db);
      }
      out := Run(body);
      if out == Failed {
        if !already && begun.Some? {
          db, begun := begun.value, None;
        }
      } else if out == Done {
        if !already {
          begun := None;
        }
      }
    }
  }
}
