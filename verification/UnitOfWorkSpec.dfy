/**
 The unit of work over callback programs of any shape: statements, sequencing,
 branching, errors returned and caught, and units of work inside units of work.

 One caller runs at a time here; what concurrency adds is in Protocol.
 */
module UnitOfWorkSpec {
  import opened Options
  import opened Store
  import opened RequestContext

  // ---- Callback programs ----

  datatype Expr = Const(n: int) | Var(x: string)

  // A repository is either built from the scope or holds a handle of its own.
  datatype Source = Scoped | Held(h: Handle)

  datatype Op =
    | ExistsByEmail(email: string)
    | ExistsByUserId(userId: Expr)
    | InsertUser(name: string, email: string)
    | InsertWallet(userId: Expr)

  // Variables are the callback's captured variables: no rollback undoes them.
  datatype Prog =
    | Skip
    | Stmt(src: Source, op: Op, dst: string)
    | Then(first: Prog, second: Prog)
    | When(cond: Expr, yes: Prog, no: Prog)
    | Return(error: Error)
    | Catch(body: Prog, handler: Prog)
    | Nested(body: Prog)
    | InRequest(id: string, body: Prog)
    | AsPrincipal(principal: Option<Principal>, body: Prog)

  type Vars = map<string, int>

  function Eval(e: Expr, vars: Vars): int {
    match e
    case Const(n) => n
    case Var(x) => if x in vars then vars[x] else 0
  }

  // The same program with every inner unit of work erased.
  function Erase(p: Prog): Prog {
    match p
    case Then(a, b) => Then(Erase(a), Erase(b))
    case When(c, a, b) => When(c, Erase(a), Erase(b))
    case Catch(a, b) => Catch(Erase(a), Erase(b))
    case Nested(a) => Erase(a)
    case InRequest(id, a) => InRequest(id, Erase(a))
    case AsPrincipal(q, a) => AsPrincipal(q, Erase(a))
    case _ => p
  }

  // The same program with every repository holding one given handle.
  function Rehome(p: Prog, h: Handle): Prog {
    match p
    case Stmt(_, op, dst) => Stmt(Held(h), op, dst)
    case Then(a, b) => Then(Rehome(a, h), Rehome(b, h))
    case When(c, a, b) => When(c, Rehome(a, h), Rehome(b, h))
    case Catch(a, b) => Catch(Rehome(a, h), Rehome(b, h))
    case Nested(a) => Nested(Rehome(a, h))
    case InRequest(id, a) => InRequest(id, Rehome(a, h))
    case AsPrincipal(q, a) => AsPrincipal(q, Rehome(a, h))
    case _ => p
  }

  // ---- The database ----

  datatype OpenTx = OpenTx(number: nat, writes: Tables, poisoned: bool)

  datatype Event = Began(number: nat) | Committed(number: nat) | RolledBack(number: nat)

  // `stmts` and `failed` count statements sent and statements that failed.
  datatype World = World(
    committed: Tables,
    nextUser: int,
    nextWallet: int,
    txSeq: int,
    attempts: nat,
    stmts: nat,
    failed: nat,
    open: Option<OpenTx>,
    events: seq<Event>)

  // What the statements of an open transaction see.
  function Seen(w: World): Tables {
    if w.open.None? then w.committed else Append(w.committed, w.open.value.writes)
  }

  // Which statements, BEGINs and COMMITs fail for a reason outside the tables:
  // an insert may fail before or after it has drawn its id.
  datatype StmtFault = Healthy | Early | Late

  datatype Faults = Faults(stmt: nat -> StmtFault, begin: nat -> bool, commit: nat -> bool)

  // The effect of one statement on the tables it sees.
  datatype Effect = Effect(error: Option<Error>, value: int, rows: Tables, nextUser: int, nextWallet: int)

  function Perform(op: Op, vars: Vars, fault: StmtFault, seen: Tables, nextUser: int, nextWallet: int): Effect {
    var lost := Effect(Some(DatabaseError), 0, EMPTY_TABLES, nextUser, nextWallet);
    if fault.Early? then lost
    else
      match op
      case ExistsByEmail(email) =>
        if fault.Late? then lost
        else lost.(error := None, value := if HasEmail(seen.users, email) then 1 else 0)
      case ExistsByUserId(e) =>
        if fault.Late? then lost
        else lost.(error := None, value := if HasWalletFor(seen.wallets, Eval(e, vars)) then 1 else 0)
      case InsertUser(name, email) =>
        if nextUser > MAX_BIGINT then lost
        else
          var row := User(nextUser, name, email);
          if fault.Late? || UserClash(seen.users, row) then lost.(nextUser := nextUser + 1)
          else Effect(None, row.id, Tables([row], []), nextUser + 1, nextWallet)
      case InsertWallet(e) =>
        if nextWallet > MAX_BIGINT then lost
        else
          var row := Wallet(nextWallet, Eval(e, vars), 0);
          if fault.Late? || WalletClash(seen.wallets, row) || !HasUser(seen.users, row.userId) then
            lost.(nextWallet := nextWallet + 1)
          else Effect(None, row.id, Tables([], [row]), nextUser, nextWallet + 1)
  }

  datatype Reached = Reached(w: World, error: Option<Error>, value: int)

  function Count(w: World, error: Option<Error>): World {
    w.(stmts := w.stmts + 1, failed := if error.Some? then w.failed + 1 else w.failed)
  }

  // One statement through a handle. On the pool it commits by itself; in a
  // transaction it adds to the write set, and its failure poisons the rest.
  function Statement(f: Faults, h: Handle, op: Op, vars: Vars, w: World): Reached {
    match h
    case NoHandle => Reached(Count(w, Some(DatabaseError)), Some(DatabaseError), 0)
    case Pool =>
      var e := Perform(op, vars, f.stmt(w.stmts), w.committed, w.nextUser, w.nextWallet);
      var w' := Count(w, e.error).(nextUser := e.nextUser, nextWallet := e.nextWallet);
      Reached(w'.(committed := Append(w.committed, e.rows)), e.error, e.value)
    case Tx(n) =>
      if w.open.None? || w.open.value.number != n || w.open.value.poisoned then
        Reached(Count(w, Some(DatabaseError)), Some(DatabaseError), 0)
      else
        var tx := w.open.value;
        var e := Perform(op, vars, f.stmt(w.stmts), Append(w.committed, tx.writes), w.nextUser, w.nextWallet);
        var w' := Count(w, e.error).(nextUser := e.nextUser, nextWallet := e.nextWallet);
        Reached(w'.(open := Some(OpenTx(n, Append(tx.writes, e.rows), e.error.Some?))), e.error, e.value)
  }

  // ---- Running programs ----

  // The lines the unit of work logs, each with its tx_id.
  datatype Line = BeginLine(id: int) | ReuseLine(id: int) | RollbackLine(id: int) | CommitLine(id: int)

  // One statement sent: the transaction its context carries, the handle its scope
  // hands out, and the one its repository resolved to.
  datatype Sent = Sent(state: Option<TxState>, scopeDb: Handle, via: Handle)

  datatype Ran = Ran(w: World, vars: Vars, error: Option<Error>, lines: seq<Line>, sent: seq<Sent>)

  // Two runs that end alike, whatever they logged and sent on the way.
  predicate EndsAs(a: Ran, b: Ran) {
    a.w == b.w && a.vars == b.vars && a.error == b.error
  }

  // The scope of the part of a program that runs under a new request id.
  function InRequestScope(scope: Scope, id: string): Scope {
    Scope(WithValue(scope.ctx, RequestIdKey, RequestIdValue(id)), scope.db)
  }

  function HandleFor(scope: Scope, src: Source): Handle {
    DB(scope.ctx, if src.Scoped? then scope.db else src.h)
  }

  function Run(configured: bool, f: Faults, scope: Scope, p: Prog, w: World, vars: Vars): Ran
    decreases p, 0
  {
    match p
    case Skip => Ran(w, vars, None, [], [])
    case Stmt(src, op, dst) =>
      var r := Statement(f, HandleFor(scope, src), op, vars, w);
      Ran(r.w, if r.error.None? then vars[dst := r.value] else vars, r.error, [],
          [Sent(FromState(scope.ctx), scope.db, HandleFor(scope, src))])
    case Then(a, b) =>
      var ra := Run(configured, f, scope, a, w, vars);
      if ra.error.Some? then ra
      else
        var rb := Run(configured, f, scope, b, ra.w, ra.vars);
        rb.(lines := ra.lines + rb.lines, sent := ra.sent + rb.sent)
    case When(c, a, b) =>
      if Eval(c, vars) != 0 then Run(configured, f, scope, a, w, vars)
      else Run(configured, f, scope, b, w, vars)
    case Return(e) => Ran(w, vars, Some(e), [], [])
    case Catch(a, h) =>
      var ra := Run(configured, f, scope, a, w, vars);
      if ra.error.None? then ra
      else
        var rh := Run(configured, f, scope, h, ra.w, ra.vars);
        rh.(lines := ra.lines + rh.lines, sent := ra.sent + rh.sent)
    case Nested(a) => Do(configured, f, scope.ctx, a, w, vars)
    case InRequest(id, a) =>
      Run(configured, f, InRequestScope(scope, id), a, w, vars)
    case AsPrincipal(q, a) =>
      Run(configured, f, Scope(NewContext(Some(scope.ctx), q), scope.db), a, w, vars)
  }

  // UnitOfWork.Do: reuse the context's transaction, or open one around the body.
  function Do(configured: bool, f: Faults, ctx: Context, body: Prog, w: World, vars: Vars): Ran
    decreases body, 1
  {
    match FromState(ctx)
    case Some(state) =>
      var r := Run(configured, f, Scope(ctx, state.db), body, w, vars);
      r.(lines := [ReuseLine(state.id)] + r.lines)
    case None =>
      if !configured then Ran(w, vars, Some(TransactorNotConfigured), [], [])
      else if f.begin(w.attempts) then Ran(w.(attempts := w.attempts + 1), vars, Some(DatabaseError), [], [])
      else
        EndTop(f, w, Run(configured, f, TopScope(ctx, w), body, Opened(w), vars))
  }

  // The scope a top-level Do hands to its callback.
  function TopScope(ctx: Context, w: World): Scope {
    var db := Tx(w.attempts);
    Scope(WithTxState(ctx, db, (w.txSeq + 1) % TWO_64), db)
  }

  // Ends the transaction opened at w, given what its callback did.
  function EndTop(f: Faults, w: World, r: Ran): Ran {
    var id := (w.txSeq + 1) % TWO_64;
    var (w', error) := Close(f, w.attempts, r.w, r.error);
    var end := if r.error.Some? then [RollbackLine(id)] else if error.None? then [CommitLine(id)] else [];
    Ran(w', r.vars, error, [BeginLine(id)] + r.lines + end, r.sent)
  }

  function Opened(w: World): World {
    w.(open := Some(OpenTx(w.attempts, EMPTY_TABLES, false)),
       txSeq := (w.txSeq + 1) % TWO_64,
       attempts := w.attempts + 1,
       events := w.events + [Began(w.attempts)])
  }

  // Commit on nil, roll back on error; a poisoned transaction cannot commit.
  function Close(f: Faults, n: nat, w: World, error: Option<Error>): (World, Option<Error>) {
    var undone := w.(open := None, events := w.events + [RolledBack(n)]);
    if error.Some? then (undone, error)
    else if w.open.None? || w.open.value.poisoned || f.commit(n) then (undone, Some(DatabaseError))
    else
      var done := w.(committed := Append(w.committed, w.open.value.writes), open := None,
                     events := w.events + [Committed(n)]);
      (done, None)
  }

  // ---- Nesting flattens ----

  // Inside a transaction, erasing every inner unit of work changes nothing but
  // the reuse lines: not the tables, the variables, the error, or the events.
  lemma {:induction false} ErasureInside(configured: bool, f: Faults, scope: Scope, p: Prog, w: World, vars: Vars)
    requires FromState(scope.ctx).Some?
    ensures var a := Run(configured, f, scope, p, w, vars);
            var b := Run(configured, f, scope, Erase(p), w, vars);
            a.w == b.w && a.vars == b.vars && a.error == b.error
    decreases p, 0
  {
    match p
    case Then(a, b) =>
      ErasureInside(configured, f, scope, a, w, vars);
      var ra := Run(configured, f, scope, a, w, vars);
      ErasureInside(configured, f, scope, b, ra.w, ra.vars);
    case When(c, a, b) =>
      ErasureInside(configured, f, scope, a, w, vars);
      ErasureInside(configured, f, scope, b, w, vars);
    case Catch(a, h) =>
      ErasureInside(configured, f, scope, a, w, vars);
      var ra := Run(configured, f, scope, a, w, vars);
      ErasureInside(configured, f, scope, h, ra.w, ra.vars);
    case Nested(a) =>
      var inner := Scope(scope.ctx, FromState(scope.ctx).value.db);
      ErasureInside(configured, f, inner, a, w, vars);
      ScopeHandleIsUnused(configured, f, scope.ctx, inner.db, scope.db, Erase(a), w, vars);
    case InRequest(id, a) =>
      ErasureInside(configured, f, InRequestScope(scope, id), a, w, vars);
    case AsPrincipal(q, a) =>
      ErasureInside(configured, f, Scope(NewContext(Some(scope.ctx), q), scope.db), a, w, vars);
    case _ =>
  }

  // Once the context carries a transaction, no statement consults a scope's own handle.
  lemma {:induction false} ScopeHandleIsUnused(configured: bool, f: Faults, ctx: Context, d: Handle, e: Handle,
      p: Prog, w: World, vars: Vars)
    requires FromState(ctx).Some?
    ensures EndsAs(Run(configured, f, Scope(ctx, d), p, w, vars), Run(configured, f, Scope(ctx, e), p, w, vars))
    decreases p
  {
    match p
    case Then(a, b) =>
      ScopeHandleIsUnused(configured, f, ctx, d, e, a, w, vars);
      var ra := Run(configured, f, Scope(ctx, d), a, w, vars);
      ScopeHandleIsUnused(configured, f, ctx, d, e, b, ra.w, ra.vars);
    case When(c, a, b) =>
      ScopeHandleIsUnused(configured, f, ctx, d, e, a, w, vars);
      ScopeHandleIsUnused(configured, f, ctx, d, e, b, w, vars);
    case Catch(a, h) =>
      ScopeHandleIsUnused(configured, f, ctx, d, e, a, w, vars);
      var ra := Run(configured, f, Scope(ctx, d), a, w, vars);
      ScopeHandleIsUnused(configured, f, ctx, d, e, h, ra.w, ra.vars);
    case InRequest(id, a) =>
      ScopeHandleIsUnused(configured, f, WithValue(ctx, RequestIdKey, RequestIdValue(id)), d, e, a, w, vars);
    case AsPrincipal(q, a) =>
      ScopeHandleIsUnused(configured, f, NewContext(Some(ctx), q), d, e, a, w, vars);
    case _ =>
  }

  // Running a callback under Do, at any depth, is running it with every inner
  // Do erased: same tables, sequences, events, variables and error.
  lemma NestingFlattens(configured: bool, f: Faults, ctx: Context, body: Prog, w: World, vars: Vars)
    ensures var a := Do(configured, f, ctx, body, w, vars);
            var b := Do(configured, f, ctx, Erase(body), w, vars);
            a.w == b.w && a.vars == b.vars && a.error == b.error
  {
    match FromState(ctx)
    case Some(state) =>
      ErasureInside(configured, f, Scope(ctx, state.db), body, w, vars);
    case None =>
      ErasureInside(configured, f, TopScope(ctx, w), body, Opened(w), vars);
  }

  // ---- Routing through whole programs ----

  // Under Do it does not matter which handle any repository was built with:
  // every statement of the callback goes to the same transaction.
  lemma {:induction false} RehomingInside(configured: bool, f: Faults, scope: Scope, p: Prog, h: Handle, w: World,
      vars: Vars)
    requires FromState(scope.ctx).Some?
    ensures Run(configured, f, scope, Rehome(p, h), w, vars) == Run(configured, f, scope, p, w, vars)
    decreases p
  {
    match p
    case Then(a, b) =>
      RehomingInside(configured, f, scope, a, h, w, vars);
      var ra := Run(configured, f, scope, a, w, vars);
      RehomingInside(configured, f, scope, b, h, ra.w, ra.vars);
    case When(c, a, b) =>
      RehomingInside(configured, f, scope, a, h, w, vars);
      RehomingInside(configured, f, scope, b, h, w, vars);
    case Catch(a, b) =>
      RehomingInside(configured, f, scope, a, h, w, vars);
      var ra := Run(configured, f, scope, a, w, vars);
      RehomingInside(configured, f, scope, b, h, ra.w, ra.vars);
    case Nested(a) =>
      RehomingInside(configured, f, Scope(scope.ctx, FromState(scope.ctx).value.db), a, h, w, vars);
    case InRequest(id, a) =>
      RehomingInside(configured, f, InRequestScope(scope, id), a, h, w, vars);
    case AsPrincipal(q, a) =>
      RehomingInside(configured, f, Scope(NewContext(Some(scope.ctx), q), scope.db), a, h, w, vars);
    case _ =>
  }

  // In a coherent scope every statement is sent through its transaction, in a
  // context that carries the handle and id, and a scope that hands it out.
  lemma {:induction false} SentInside(configured: bool, f: Faults, scope: Scope, p: Prog, w: World, vars: Vars)
    requires Coherent(scope)
    ensures var r := Run(configured, f, scope, p, w, vars);
            && r.w.stmts == w.stmts + |r.sent|
            && forall k :: 0 <= k < |r.sent| ==>
               r.sent[k] == Sent(FromState(scope.ctx), scope.db, scope.db)
    decreases p
  {
    match p
    case Then(a, b) =>
      SentInside(configured, f, scope, a, w, vars);
      var ra := Run(configured, f, scope, a, w, vars);
      SentInside(configured, f, scope, b, ra.w, ra.vars);
    case When(c, a, b) =>
      SentInside(configured, f, scope, if Eval(c, vars) != 0 then a else b, w, vars);
    case Catch(a, h) =>
      SentInside(configured, f, scope, a, w, vars);
      var ra := Run(configured, f, scope, a, w, vars);
      SentInside(configured, f, scope, h, ra.w, ra.vars);
    case Nested(a) =>
      SentInside(configured, f, scope, a, w, vars);
    case InRequest(id, a) =>
      SentInside(configured, f, InRequestScope(scope, id), a, w, vars);
    case AsPrincipal(q, a) =>
      SentInside(configured, f, Scope(NewContext(Some(scope.ctx), q), scope.db), a, w, vars);
    case _ =>
  }

  // Every statement sent under Do, at top level or inside a transaction, at any
  // nesting and by any repository, is sent in a context that carries the one
  // transaction, handle and id, and a scope that hands it out, and goes through it.
  lemma StatementsShareTheTransaction(configured: bool, f: Faults, ctx: Context, body: Prog, w: World, vars: Vars)
    ensures var r := Do(configured, f, ctx, body, w, vars);
            var one := if FromState(ctx).Some? then FromState(ctx).value
                       else TxState(Tx(w.attempts), (w.txSeq + 1) % TWO_64);
            && r.w.stmts == w.stmts + |r.sent|
            && forall k :: 0 <= k < |r.sent| ==> r.sent[k] == Sent(Some(one), one.db, one.db)
  {
    match FromState(ctx)
    case Some(state) =>
      SentInside(configured, f, Scope(ctx, state.db), body, w, vars);
    case None =>
      SentInside(configured, f, TopScope(ctx, w), body, Opened(w), vars);
  }

  lemma RepositoryHandlesDoNotMatter(configured: bool, f: Faults, ctx: Context, body: Prog, h: Handle, w: World,
      vars: Vars)
    ensures Do(configured, f, ctx, Rehome(body, h), w, vars) == Do(configured, f, ctx, body, w, vars)
  {
    match FromState(ctx)
    case Some(state) =>
      RehomingInside(configured, f, Scope(ctx, state.db), body, h, w, vars);
    case None =>
      RehomingInside(configured, f, TopScope(ctx, w), body, h, Opened(w), vars);
  }

  // ---- All or nothing ----

  predicate InTx(scope: Scope, w: World, n: nat) {
    FromState(scope.ctx).Some? && FromState(scope.ctx).value.db == Tx(n)
    && w.open.Some? && w.open.value.number == n
  }

  // A program inside transaction n leaves the committed tables, the events and
  // the transaction counter alone, logs only n's id, and leaves n poisoned
  // exactly if it was or a statement failed, caught or not.
  lemma {:induction false} RunInsideTx(configured: bool, f: Faults, scope: Scope, p: Prog, w: World, vars: Vars,
      n: nat)
    requires InTx(scope, w, n)
    ensures var r := Run(configured, f, scope, p, w, vars);
            && InTx(scope, r.w, n)
            && r.w.committed == w.committed && r.w.events == w.events
            && r.w.txSeq == w.txSeq && r.w.attempts == w.attempts
            && w.failed <= r.w.failed
            && (r.w.open.value.poisoned <==> w.open.value.poisoned || w.failed < r.w.failed)
            && (forall k :: 0 <= k < |r.lines| ==> r.lines[k] == ReuseLine(FromState(scope.ctx).value.id))
    decreases p
  {
    match p
    case Then(a, b) =>
      RunInsideTx(configured, f, scope, a, w, vars, n);
      var ra := Run(configured, f, scope, a, w, vars);
      RunInsideTx(configured, f, scope, b, ra.w, ra.vars, n);
    case When(c, a, b) =>
      RunInsideTx(configured, f, scope, a, w, vars, n);
      RunInsideTx(configured, f, scope, b, w, vars, n);
    case Catch(a, h) =>
      RunInsideTx(configured, f, scope, a, w, vars, n);
      var ra := Run(configured, f, scope, a, w, vars);
      RunInsideTx(configured, f, scope, h, ra.w, ra.vars, n);
    case Nested(a) =>
      RunInsideTx(configured, f, Scope(scope.ctx, Tx(n)), a, w, vars, n);
    case InRequest(id, a) =>
      RunInsideTx(configured, f, InRequestScope(scope, id), a, w, vars, n);
    case AsPrincipal(q, a) =>
      RunInsideTx(configured, f, Scope(NewContext(Some(scope.ctx), q), scope.db), a, w, vars, n);
    case _ =>
  }

  // A top-level Do that returns an error, whatever the error came from, leaves
  // the committed tables unchanged; one that returns nil had no statement fail,
  // not even one whose error was caught.
  lemma AllOrNothing(configured: bool, f: Faults, ctx: Context, body: Prog, w: World, vars: Vars)
    requires FromState(ctx).None?
    ensures var r := Do(configured, f, ctx, body, w, vars);
            && (r.error.Some? ==> r.w.committed == w.committed)
            && (r.error.None? ==> r.w.failed == w.failed)
  {
    if configured && !f.begin(w.attempts) {
      RunInsideTx(configured, f, TopScope(ctx, w), body, Opened(w), vars, w.attempts);
    }
  }

  // An inner Do that returns an error undoes nothing: if the code around it
  // catches the error, its writes are committed with the rest, exactly when no
  // statement of it failed and the commit itself goes through.
  lemma CaughtInnerDoCommits(configured: bool, f: Faults, ctx: Context, body: Prog, w: World, vars: Vars)
    requires FromState(ctx).None? && configured && !f.begin(w.attempts)
    ensures var inner := Run(configured, f, TopScope(ctx, w), Nested(body), Opened(w), vars);
            var r := Do(configured, f, ctx, Catch(Nested(body), Skip), w, vars);
            && inner.w.open.Some? && r.vars == inner.vars
            && (r.error.None? <==> inner.w.failed == w.failed && !f.commit(w.attempts))
            && r.w.committed == if r.error.None? then Append(w.committed, inner.w.open.value.writes) else w.committed
  {
    var scope := TopScope(ctx, w);
    RunInsideTx(configured, f, scope, Nested(body), Opened(w), vars, w.attempts);
    CatchRuns(configured, f, scope, Nested(body), Skip, Opened(w), vars);
  }

  // So an inner unit of work is not all or nothing: here it inserts a user and
  // returns an error, and the user is committed.
  lemma InnerDoIsNotAtomic(f: Faults, ctx: Context, name: string, email: string, e: Error, w: World, vars: Vars)
    requires FromState(ctx).None? && !f.begin(w.attempts) && !f.commit(w.attempts) && f.stmt(w.stmts).Healthy?
    requires w.nextUser <= MAX_BIGINT && !UserClash(w.committed.users, User(w.nextUser, name, email))
    ensures var body := Then(Stmt(Scoped, InsertUser(name, email), "u"), Return(e));
            var inner := Run(true, f, TopScope(ctx, w), Nested(body), Opened(w), vars);
            var r := Do(true, f, ctx, Catch(Nested(body), Skip), w, vars);
            && inner.error == Some(e) && r.error.None?
            && r.w.committed == Append(w.committed, Tables([User(w.nextUser, name, email)], []))
  {
    var insert, scope := Stmt(Scoped, InsertUser(name, email), "u"), TopScope(ctx, w);
    assert Append(w.committed, EMPTY_TABLES) == w.committed;
    var row := Tables([User(w.nextUser, name, email)], []);
    assert Append(EMPTY_TABLES, row) == row;
    ThenRuns(true, f, scope, insert, Return(e), Opened(w), vars);
    CaughtInnerDoCommits(true, f, ctx, Then(insert, Return(e)), w, vars);
  }

  // The error a top-level Do returns: its own if no transactor is set up, the
  // driver's if BEGIN fails or the transaction cannot commit, else the callback's.
  lemma DoErrors(configured: bool, f: Faults, ctx: Context, body: Prog, w: World, vars: Vars)
    requires FromState(ctx).None?
    ensures var r := Do(configured, f, ctx, body, w, vars);
            && (!configured ==> r.error == Some(TransactorNotConfigured) && r.w == w && r.vars == vars && r.sent == [])
            && (configured && f.begin(w.attempts) ==> r.error == Some(DatabaseError) && r.vars == vars && r.sent == [])
            && (configured && !f.begin(w.attempts) ==>
                  var callback := Run(configured, f, TopScope(ctx, w), body, Opened(w), vars);
                  && r.vars == callback.vars
                  && (callback.error.Some? ==> r.error == callback.error)
                  && (callback.error.None? && r.error.Some? ==> r.error.value == DatabaseError)
                  && (callback.error.None? ==>
                        (r.error.Some? <==> callback.w.failed > w.failed || f.commit(w.attempts))))
  {
    if configured && !f.begin(w.attempts) {
      RunInsideTx(configured, f, TopScope(ctx, w), body, Opened(w), vars, w.attempts);
    }
  }

  // A statement that fails stores nothing, and one that succeeds its value.
  lemma StoredOnSuccess(configured: bool, f: Faults, scope: Scope, src: Source, op: Op, dst: string, w: World,
      vars: Vars)
    ensures var r := Run(configured, f, scope, Stmt(src, op, dst), w, vars);
            var reached := Statement(f, DB(scope.ctx, if src.Scoped? then scope.db else src.h), op, vars, w);
            && r.w == reached.w && r.error == reached.error
            && (r.error.Some? ==> r.vars == vars)
            && (r.error.None? ==> dst in r.vars && r.vars[dst] == reached.value && r.vars - {dst} == vars - {dst})
  {
  }

  // A constant is itself, a variable the last value a statement stored in it, and
  // zero before that.
  lemma EvalLaw(n: int, x: string, vars: Vars, value: int)
    ensures Eval(Const(n), vars) == n && Eval(Var(x), map[]) == 0 && Eval(Var(x), vars[x := value]) == value
    ensures forall y :: y != x ==> Eval(Var(y), vars[x := value]) == Eval(Var(y), vars)
  {
  }

  // Whatever the nesting, a top-level Do begins and ends at most one
  // transaction, and commits it exactly when it returns nil.
  lemma OneBeginOneEnd(configured: bool, f: Faults, ctx: Context, body: Prog, w: World, vars: Vars)
    requires FromState(ctx).None?
    ensures var r := Do(configured, f, ctx, body, w, vars);
            && r.w.events == w.events +
                 (if r.error.None? then [Began(w.attempts), Committed(w.attempts)]
                  else if !configured || f.begin(w.attempts) then []
                  else [Began(w.attempts), RolledBack(w.attempts)])
            && (r.error.None? ==> configured && !f.begin(w.attempts))
            && (configured && !f.begin(w.attempts) ==> r.w.open.None?)
  {
    if configured && !f.begin(w.attempts) {
      RunInsideTx(configured, f, TopScope(ctx, w), body, Opened(w), vars, w.attempts);
      var n := w.attempts;
      assert w.events + [Began(n)] + [Committed(n)] == w.events + [Began(n), Committed(n)];
      assert w.events + [Began(n)] + [RolledBack(n)] == w.events + [Began(n), RolledBack(n)];
    }
  }

  // Every line logged under one top-level Do carries the same transaction id,
  // the next value of the sequence, which is taken once per transaction begun.
  lemma OneTransactionId(configured: bool, f: Faults, ctx: Context, body: Prog, w: World, vars: Vars)
    requires FromState(ctx).None?
    ensures var r := Do(configured, f, ctx, body, w, vars);
            && (forall k :: 0 <= k < |r.lines| ==> r.lines[k].id == (w.txSeq + 1) % TWO_64)
            && r.w.txSeq == if configured && !f.begin(w.attempts) then (w.txSeq + 1) % TWO_64 else w.txSeq
  {
    if configured && !f.begin(w.attempts) {
      RunInsideTx(configured, f, TopScope(ctx, w), body, Opened(w), vars, w.attempts);
    }
  }

  // What a top-level Do logs: a begin first, reuses in between, and last a commit
  // exactly when it returns nil, or a rollback exactly when its callback did not.
  lemma LogLaw(configured: bool, f: Faults, ctx: Context, body: Prog, w: World, vars: Vars)
    requires FromState(ctx).None?
    ensures var r := Do(configured, f, ctx, body, w, vars);
            var n := |r.lines|;
            && (!configured || f.begin(w.attempts) ==> n == 0)
            && (configured && !f.begin(w.attempts) ==>
                  var callback := Run(configured, f, TopScope(ctx, w), body, Opened(w), vars);
                  && n > 0 && r.lines[0].BeginLine?
                  && (forall k :: 0 < k < n - 1 ==> r.lines[k].ReuseLine?)
                  && (r.error.None? <==> n > 1 && r.lines[n - 1].CommitLine?)
                  && (callback.error.Some? <==> n > 1 && r.lines[n - 1].RollbackLine?)
                  && (n > 1 ==> !r.lines[n - 1].BeginLine?))
  {
    if configured && !f.begin(w.attempts) {
      RunInsideTx(configured, f, TopScope(ctx, w), body, Opened(w), vars, w.attempts);
    }
  }

  // ---- The transaction is transparent ----

  // Inside a transaction that has not been poisoned, a program does to the
  // visible tables what it would do to the committed ones with no transaction.
  ghost predicate Mirrors(inside: World, outside: World) {
    && inside.open.Some?
    && Append(inside.committed, inside.open.value.writes) == outside.committed
    && inside.nextUser == outside.nextUser && inside.nextWallet == outside.nextWallet
    && inside.stmts == outside.stmts
  }

  lemma StatementMirrors(f: Faults, n: nat, op: Op, vars: Vars, w: World, v: World)
    requires w.open.Some? && w.open.value.number == n && !w.open.value.poisoned
    requires Mirrors(w, v)
    ensures var a, b := Statement(f, Tx(n), op, vars, w), Statement(f, Pool, op, vars, v);
            Mirrors(a.w, b.w) && a.error == b.error && a.value == b.value
  {
    var e := Perform(op, vars, f.stmt(w.stmts), v.committed, w.nextUser, w.nextWallet);
    var mine := w.open.value.writes;
    assert w.committed.users + (mine.users + e.rows.users) == v.committed.users + e.rows.users;
    assert w.committed.wallets + (mine.wallets + e.rows.wallets) == v.committed.wallets + e.rows.wallets;
  }

  // The reference run: no unit of work, every repository on the pool.
  function RunDirect(f: Faults, ctx: Context, p: Prog, w: World, vars: Vars): Ran {
    Run(false, f, Scope(ctx, Pool), Rehome(Erase(p), Pool), w, vars)
  }

  lemma {:induction false} DirectGrows(f: Faults, ctx: Context, p: Prog, v: World, vars: Vars)
    ensures v.failed <= RunDirect(f, ctx, p, v, vars).w.failed
    decreases p
  {
    match p
    case Then(a, b) =>
      DirectGrows(f, ctx, a, v, vars);
      var ra := RunDirect(f, ctx, a, v, vars);
      DirectGrows(f, ctx, b, ra.w, ra.vars);
    case When(c, a, b) =>
      DirectGrows(f, ctx, a, v, vars);
      DirectGrows(f, ctx, b, v, vars);
    case Catch(a, h) =>
      DirectGrows(f, ctx, a, v, vars);
      var ra := RunDirect(f, ctx, a, v, vars);
      DirectGrows(f, ctx, h, ra.w, ra.vars);
    case Nested(a) => DirectGrows(f, ctx, a, v, vars);
    case InRequest(id, a) => DirectGrows(f, WithValue(ctx, RequestIdKey, RequestIdValue(id)), a, v, vars);
    case AsPrincipal(q, a) => DirectGrows(f, NewContext(Some(ctx), q), a, v, vars);
    case _ =>
  }

  // No statement fails in one of the two runs.
  ghost predicate Clean(configured: bool, f: Faults, inside: Scope, ctx: Context, p: Prog, w: World, v: World,
      vars: Vars) {
    || Run(configured, f, inside, p, w, vars).w.failed == w.failed
    || RunDirect(f, ctx, p, v, vars).w.failed == v.failed
  }

  lemma NestedIsItsBody(configured: bool, f: Faults, inside: Scope, ctx: Context, a: Prog, w: World, v: World,
      vars: Vars, n: nat)
    requires InTx(inside, w, n)
    ensures RunDirect(f, ctx, Nested(a), v, vars) == RunDirect(f, ctx, a, v, vars)
    ensures var r := Run(configured, f, Scope(inside.ctx, Tx(n)), a, w, vars);
            Run(configured, f, inside, Nested(a), w, vars)
            == r.(lines := [ReuseLine(FromState(inside.ctx).value.id)] + r.lines)
  {
  }

  lemma ThenRuns(configured: bool, f: Faults, scope: Scope, a: Prog, b: Prog, w: World, vars: Vars)
    ensures var ra := Run(configured, f, scope, a, w, vars);
            EndsAs(Run(configured, f, scope, Then(a, b), w, vars),
                   if ra.error.Some? then ra else Run(configured, f, scope, b, ra.w, ra.vars))
  {
  }

  lemma CatchRuns(configured: bool, f: Faults, scope: Scope, a: Prog, h: Prog, w: World, vars: Vars)
    ensures var ra := Run(configured, f, scope, a, w, vars);
            EndsAs(Run(configured, f, scope, Catch(a, h), w, vars),
                   if ra.error.None? then ra else Run(configured, f, scope, h, ra.w, ra.vars))
  {
    var ra := Run(configured, f, scope, a, w, vars);
    if ra.error.None? {
      assert Run(configured, f, scope, Catch(a, h), w, vars) == ra;
    }
  }

  lemma DirectParts(a: Prog, b: Prog)
    ensures Rehome(Erase(Then(a, b)), Pool) == Then(Rehome(Erase(a), Pool), Rehome(Erase(b), Pool))
    ensures Rehome(Erase(Catch(a, b)), Pool) == Catch(Rehome(Erase(a), Pool), Rehome(Erase(b), Pool))
  {
  }

  ghost predicate SameOutcome(configured: bool, f: Faults, inside: Scope, ctx: Context, p: Prog, w: World, v: World,
      vars: Vars) {
    var a, b := Run(configured, f, inside, p, w, vars), RunDirect(f, ctx, p, v, vars);
    && Mirrors(a.w, b.w) && a.vars == b.vars && a.error == b.error
    && a.w.failed == w.failed && b.w.failed == v.failed
  }

  lemma {:induction false} RunMirrors(configured: bool, f: Faults, inside: Scope, ctx: Context, p: Prog, w: World,
      v: World, vars: Vars, n: nat)
    requires InTx(inside, w, n) && Mirrors(w, v) && FromState(ctx).None? && !w.open.value.poisoned
    requires Clean(configured, f, inside, ctx, p, w, v, vars)
    ensures SameOutcome(configured, f, inside, ctx, p, w, v, vars)
    decreases p, 2
  {
    match p
    case Then(a, b) =>
      ThenMirrors(configured, f, inside, ctx, a, b, w, v, vars, n);
    case Catch(a, h) =>
      CatchMirrors(configured, f, inside, ctx, a, h, w, v, vars, n);
    case Nested(a) =>
      NestedMirrors(configured, f, inside, ctx, a, w, v, vars, n);
    case When(c, a, b) =>
      WhenRuns(configured, f, inside, ctx, c, a, b, w, v, vars);
      RunMirrors(configured, f, inside, ctx, if Eval(c, vars) != 0 then a else b, w, v, vars, n);
    case InRequest(_, _) =>
      LinkMirrors(configured, f, inside, ctx, p, w, v, vars, n);
    case AsPrincipal(_, _) =>
      LinkMirrors(configured, f, inside, ctx, p, w, v, vars, n);
    case _ =>
      LeafMirrors(configured, f, inside, ctx, p, w, v, vars, n);
  }

  lemma WhenRuns(configured: bool, f: Faults, inside: Scope, ctx: Context, c: Expr, a: Prog, b: Prog, w: World,
      v: World, vars: Vars)
    ensures var chosen := if Eval(c, vars) != 0 then a else b;
            && Run(configured, f, inside, When(c, a, b), w, vars) == Run(configured, f, inside, chosen, w, vars)
            && RunDirect(f, ctx, When(c, a, b), v, vars) == RunDirect(f, ctx, chosen, v, vars)
  {
  }

  lemma {:induction false} LinkMirrors(configured: bool, f: Faults, inside: Scope, ctx: Context, p: Prog, w: World,
      v: World, vars: Vars, n: nat)
    requires InTx(inside, w, n) && Mirrors(w, v) && FromState(ctx).None? && !w.open.value.poisoned
    requires Clean(configured, f, inside, ctx, p, w, v, vars) && (p.InRequest? || p.AsPrincipal?)
    ensures SameOutcome(configured, f, inside, ctx, p, w, v, vars)
    decreases p, 1
  {
    match p
    case InRequest(id, a) =>
      RunMirrors(configured, f, InRequestScope(inside, id),
                 WithValue(ctx, RequestIdKey, RequestIdValue(id)), a, w, v, vars, n);
    case AsPrincipal(q, a) =>
      RunMirrors(configured, f, Scope(NewContext(Some(inside.ctx), q), inside.db),
                 NewContext(Some(ctx), q), a, w, v, vars, n);
  }

  lemma {:induction false} NestedMirrors(configured: bool, f: Faults, inside: Scope, ctx: Context, a: Prog,
      w: World, v: World, vars: Vars, n: nat)
    requires InTx(inside, w, n) && Mirrors(w, v) && FromState(ctx).None? && !w.open.value.poisoned
    requires Clean(configured, f, inside, ctx, Nested(a), w, v, vars)
    ensures SameOutcome(configured, f, inside, ctx, Nested(a), w, v, vars)
    decreases Nested(a), 1
  {
    NestedIsItsBody(configured, f, inside, ctx, a, w, v, vars, n);
    RunMirrors(configured, f, Scope(inside.ctx, Tx(n)), ctx, a, w, v, vars, n);
  }

  lemma LeafMirrors(configured: bool, f: Faults, inside: Scope, ctx: Context, p: Prog, w: World, v: World,
      vars: Vars, n: nat)
    requires InTx(inside, w, n) && Mirrors(w, v) && FromState(ctx).None? && !w.open.value.poisoned
    requires Clean(configured, f, inside, ctx, p, w, v, vars) && (p.Skip? || p.Stmt? || p.Return?)
    ensures SameOutcome(configured, f, inside, ctx, p, w, v, vars)
  {
    if p.Stmt? {
      StatementMirrors(f, n, p.op, vars, w, v);
    }
  }

  lemma {:induction false} ThenMirrors(configured: bool, f: Faults, inside: Scope, ctx: Context, a: Prog, b: Prog,
      w: World, v: World, vars: Vars, n: nat)
    requires InTx(inside, w, n) && Mirrors(w, v) && FromState(ctx).None? && !w.open.value.poisoned
    requires Clean(configured, f, inside, ctx, Then(a, b), w, v, vars)
    ensures SameOutcome(configured, f, inside, ctx, Then(a, b), w, v, vars)
    decreases Then(a, b), 1
  {
    var ra, da := Run(configured, f, inside, a, w, vars), RunDirect(f, ctx, a, v, vars);
    FirstMirrors(configured, f, inside, ctx, a, b, w, v, vars, n);
    ThenRuns(configured, f, inside, a, b, w, vars);
    ThenRuns(false, f, Scope(ctx, Pool), Rehome(Erase(a), Pool), Rehome(Erase(b), Pool), v, vars);
    DirectParts(a, b);
    if ra.error.None? {
      RunMirrors(configured, f, inside, ctx, b, ra.w, da.w, ra.vars, n);
    }
  }

  lemma {:induction false} CatchMirrors(configured: bool, f: Faults, inside: Scope, ctx: Context, a: Prog, h: Prog,
      w: World, v: World, vars: Vars, n: nat)
    requires InTx(inside, w, n) && Mirrors(w, v) && FromState(ctx).None? && !w.open.value.poisoned
    requires Clean(configured, f, inside, ctx, Catch(a, h), w, v, vars)
    ensures SameOutcome(configured, f, inside, ctx, Catch(a, h), w, v, vars)
    decreases Catch(a, h), 1
  {
    var ra, da := Run(configured, f, inside, a, w, vars), RunDirect(f, ctx, a, v, vars);
    FirstMirrors(configured, f, inside, ctx, a, h, w, v, vars, n);
    CatchRuns(configured, f, inside, a, h, w, vars);
    CatchRuns(false, f, Scope(ctx, Pool), Rehome(Erase(a), Pool), Rehome(Erase(h), Pool), v, vars);
    DirectParts(a, h);
    if ra.error.Some? {
      RunMirrors(configured, f, inside, ctx, h, ra.w, da.w, ra.vars, n);
    }
  }

  // The first of two programs in a row: whichever run is clean as a whole is
  // clean after the first, because failures are only ever added.
  lemma {:induction false} FirstMirrors(configured: bool, f: Faults, inside: Scope, ctx: Context, a: Prog, b: Prog,
      w: World, v: World, vars: Vars, n: nat)
    requires InTx(inside, w, n) && Mirrors(w, v) && FromState(ctx).None? && !w.open.value.poisoned
    requires Clean(configured, f, inside, ctx, Then(a, b), w, v, vars)
             || Clean(configured, f, inside, ctx, Catch(a, b), w, v, vars)
    ensures SameOutcome(configured, f, inside, ctx, a, w, v, vars)
    ensures var ra := Run(configured, f, inside, a, w, vars); InTx(inside, ra.w, n) && !ra.w.open.value.poisoned
    decreases a, 3
  {
    var ra, da := Run(configured, f, inside, a, w, vars), RunDirect(f, ctx, a, v, vars);
    RunInsideTx(configured, f, inside, a, w, vars, n);
    RunInsideTx(configured, f, inside, b, ra.w, ra.vars, n);
    DirectGrows(f, ctx, a, v, vars);
    DirectGrows(f, ctx, b, da.w, da.vars);
    RunMirrors(configured, f, inside, ctx, a, w, v, vars, n);
  }

  // A top-level Do that returns nil has applied exactly the callback's writes,
  // once: the tables, sequences and variables are those of running the same
  // statements one by one with no transaction at all.
  lemma CommitAppliesWritesOnce(configured: bool, f: Faults, ctx: Context, body: Prog, w: World, vars: Vars)
    requires FromState(ctx).None? && Do(configured, f, ctx, body, w, vars).error.None?
    ensures var a, b := Do(configured, f, ctx, body, w, vars), RunDirect(f, ctx, body, w, vars);
            && a.vars == b.vars && a.w.committed == b.w.committed
            && a.w.nextUser == b.w.nextUser && a.w.nextWallet == b.w.nextWallet && a.w.stmts == b.w.stmts
  {
    var scope := TopScope(ctx, w);
    RunInsideTx(configured, f, scope, body, Opened(w), vars, w.attempts);
    AllOrNothing(configured, f, ctx, body, w, vars);
    assert Append(w.committed, EMPTY_TABLES) == w.committed;
    RunMirrors(configured, f, scope, ctx, body, Opened(w), w, vars, w.attempts);
  }

  // And it returns nil exactly when it can begin and commit and those
  // statements, run one by one, return no error and none of them fails.
  lemma DoSucceedsIff(configured: bool, f: Faults, ctx: Context, body: Prog, w: World, vars: Vars)
    requires FromState(ctx).None?
    ensures Do(configured, f, ctx, body, w, vars).error.None? <==>
            var direct := RunDirect(f, ctx, body, w, vars);
            && configured && !f.begin(w.attempts) && !f.commit(w.attempts)
            && direct.error.None? && direct.w.failed == w.failed
  {
    if configured && !f.begin(w.attempts) {
      var scope := TopScope(ctx, w);
      RunInsideTx(configured, f, scope, body, Opened(w), vars, w.attempts);
      assert Append(w.committed, EMPTY_TABLES) == w.committed;
      if Clean(configured, f, scope, ctx, body, Opened(w), w, vars) {
        RunMirrors(configured, f, scope, ctx, body, Opened(w), w, vars, w.attempts);
      }
    }
  }
}
