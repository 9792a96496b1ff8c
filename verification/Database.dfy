/**
 The objects of the program: the database with its open transaction, the
 transactor and the unit of work around it, the repositories and the use cases.
 Each method is proved against the functions of UnitOfWorkSpec and UseCases.
 */
module Database {
  import opened Options
  import opened Store
  import opened RequestContext
  import opened UnitOfWorkSpec
  import opened WorldInvariant
  import opened UseCases

  // The tables a reader on a handle sees, if the handle can be read at all.
  function Readable(w: World, h: Handle): Option<Tables> {
    match h
    case NoHandle => None
    case Pool => Some(w.committed)
    case Tx(n) =>
      if w.open.None? || w.open.value.number != n || w.open.value.poisoned then None
      else Some(Append(w.committed, w.open.value.writes))
  }

  // A SELECT through a handle: the tables it reads, unless it fails.
  function Read(f: Faults, h: Handle, w: World): Option<Tables> {
    if f.stmt(w.stmts).Healthy? then Readable(w, h) else None
  }

  // It writes nothing; if it fails, the transaction it ran in is poisoned.
  function AfterRead(f: Faults, h: Handle, w: World): World {
    if Read(f, h, w).Some? then Count(w, None)
    else if h.Tx? && Readable(w, h).Some? then
      Count(w, Some(DatabaseError)).(open := Some(w.open.value.(poisoned := true)))
    else Count(w, Some(DatabaseError))
  }

  // A healthy SELECT reads the committed rows at top level, on any handle a
  // repository was made with that is the pool, and inside a transaction those
  // and the transaction's own.
  lemma ReadLaw(f: Faults, ctx: Context, w: World, n: nat)
    requires f.stmt(w.stmts).Healthy?
    ensures FromState(ctx).None? ==> Read(f, DB(ctx, Pool), w) == Some(w.committed)
    ensures Usable(Scope(ctx, Tx(n)), w, n) ==>
              var seen := Tables(w.committed.users + w.open.value.writes.users,
                                 w.committed.wallets + w.open.value.writes.wallets);
              forall own :: Read(f, DB(ctx, own), w) == Some(seen)
  {
  }

  // One that fails, or runs in a poisoned or ended transaction, reads nothing.
  lemma ReadFails(f: Faults, ctx: Context, own: Handle, w: World)
    ensures !f.stmt(w.stmts).Healthy? ==> Read(f, DB(ctx, own), w).None?
    ensures FromState(ctx).Some? && FromState(ctx).value.db.Tx?
            && (w.open.None? || w.open.value.poisoned || w.open.value.number != FromState(ctx).value.db.number) ==>
              Read(f, DB(ctx, own), w).None?
  {
  }

  // A SELECT writes nothing and draws no id; it poisons its transaction exactly
  // when it fails there.
  lemma AfterReadLaw(f: Faults, h: Handle, w: World)
    ensures var w' := AfterRead(f, h, w);
            && w'.committed == w.committed && w'.nextUser == w.nextUser && w'.nextWallet == w.nextWallet
            && w'.events == w.events && w'.txSeq == w.txSeq && w'.attempts == w.attempts && Seen(w') == Seen(w)
            && w'.stmts == w.stmts + 1 && (w'.failed == w.failed <==> Read(f, h, w).Some?)
            && (w.open.None? <==> w'.open.None?)
            && (w.open.Some? ==>
                  && w'.open.value.number == w.open.value.number
                  && (w'.open.value.poisoned <==>
                        w.open.value.poisoned || (h == Tx(w.open.value.number) && Read(f, h, w).None?)))
  {
  }

  // What GetUser answers when its statements see the tables t: what is stored,
  // a failed read of the user as if it were not, of the balance as zero.
  ghost predicate UserAnswer(f: Faults, w: World, t: Tables, id: int, reply: Reply) {
    if f.stmt(w.stmts).Healthy? then UserRead(t, id, reply, f.stmt(w.stmts + 1).Healthy?)
    else reply == Failed(UserNotFound)
  }

  ghost predicate WalletAnswer(f: Faults, w: World, t: Tables, userId: int, reply: Reply) {
    if f.stmt(w.stmts).Healthy? then WalletRead(t, userId, reply) else reply == Failed(WalletNotFound)
  }

  // The tables, those an open transaction sees, and the sequences are as they were.
  predicate WroteNothing(w: World, w': World) {
    && w'.committed == w.committed && Seen(w') == Seen(w)
    && w'.nextUser == w.nextUser && w'.nextWallet == w.nextWallet
    && w'.txSeq == w.txSeq && w'.attempts == w.attempts && w'.events == w.events
  }

  // The replies of the two reading use cases, over any tables they may see.
  lemma GetUserLaw(f: Faults, ctx: Context, w: World, id: int)
    ensures forall t :: Read(f, DB(ctx, Pool), w) == Some(t) ==>
              && UserRead(t, id, Serial(t, GetUser(id), 0, 0).reply, true)
              && (Serial(t, GetUser(id), 0, 0).reply.UserFound? ==>
                    UserRead(t, id, Serial(t, GetUser(id), 0, 0).reply.(walletBalance := 0), false))
              && WalletRead(t, id, Serial(t, GetWallet(id), 0, 0).reply)
    ensures FromState(ctx).None? && f.stmt(w.stmts).Healthy? ==> Read(f, DB(ctx, Pool), w) == Some(w.committed)
    ensures forall n :: Usable(Scope(ctx, Tx(n)), w, n) && f.stmt(w.stmts).Healthy? ==>
              Read(f, DB(ctx, Pool), w) == Some(Seen(w))
    ensures !f.stmt(w.stmts).Healthy? ==> Read(f, DB(ctx, Pool), w).None?
    ensures WroteNothing(w, AfterRead(f, DB(ctx, Pool), w))
    ensures WroteNothing(w, AfterRead(f, DB(ctx, Pool), AfterRead(f, DB(ctx, Pool), w)))
  {
    if Read(f, DB(ctx, Pool), w).Some? {
      SerialIsRead(Read(f, DB(ctx, Pool), w).value, id);
    }
    AfterReadLaw(f, DB(ctx, Pool), w);
    AfterReadLaw(f, DB(ctx, Pool), AfterRead(f, DB(ctx, Pool), w));
  }

  // A user that CreateUser acknowledged is found by the next reads.
  lemma CreateThenRead(configured: bool, f: Faults, ctx: Context, name: string, email: string, w: World, vars: Vars,
      reader: Context)
    requires FromState(ctx).None? && FromState(reader).None? && SoundWorld(w)
    ensures var r := UnitOfWorkSpec.Do(configured, f, ctx, CreateUserBody(name, email), w, vars);
            var made := ReplyOf(CreateUser(name, email), r.error, r.vars);
            made.UserCreated? && f.stmt(r.w.stmts).Healthy? ==>
              var read := Read(f, DB(reader, Pool), r.w);
              && read.Some?
              && Serial(read.value, GetUser(made.id), 0, 0).reply == UserFound(made.id, name, email, 0)
              && Serial(read.value, GetWallet(made.id), 0, 0).reply == WalletFound(made.id, 0)
  {
    var r := UnitOfWorkSpec.Do(configured, f, ctx, CreateUserBody(name, email), w, vars);
    var made := ReplyOf(CreateUser(name, email), r.error, r.vars);
    UseCaseIsAnswered(configured, f, ctx, CreateUser(name, email), w, vars);
    if made.UserCreated? {
      CreatedIsRead(w.committed, r.w.committed, made, name, email);
    }
  }

  class Db {
    const faults: Faults
    var users: seq<User>
    var wallets: seq<Wallet>
    var nextUser: int
    var nextWallet: int
    var txSequence: int
    var attempts: nat
    var stmts: nat
    var failed: nat
    var open: Option<OpenTx>
    var events: seq<Event>

    function State(): World
      reads this
    {
      World(Tables(users, wallets), nextUser, nextWallet, txSequence, attempts, stmts, failed, open, events)
    }

    constructor (faults: Faults)
      ensures this.faults == faults
      ensures State() == World(EMPTY_TABLES, 1, 1, 0, 0, 0, 0, None, []) && SoundWorld(State())
    {
      this.faults := faults;
      users, wallets := [], [];
      nextUser, nextWallet, txSequence := 1, 1, 0;
      attempts, stmts, failed := 0, 0, 0;
      open, events := None, [];
    }

    // One writing or counting statement through a handle.
    method Execute(h: Handle, op: Op) returns (error: Option<Error>, value: int)
      modifies this
      ensures Reached(State(), error, value) == Statement(faults, h, op, map[], old(State()))
    {
      error, value := Some(DatabaseError), 0;
      var seen := Readable(State(), h);
      if seen.Some? {
        var e := Perform(op, map[], faults.stmt(stmts), seen.value, nextUser, nextWallet);
        nextUser, nextWallet := e.nextUser, e.nextWallet;
        if h.Pool? {
          users, wallets := users + e.rows.users, wallets + e.rows.wallets;
        } else {
          var tx := open.value;
          open := Some(OpenTx(tx.number, Append(tx.writes, e.rows), e.error.Some?));
        }
        error, value := e.error, e.value;
      }
      stmts := stmts + 1;
      if error.Some? {
        failed := failed + 1;
      }
    }

    // A SELECT of one row; an absent row is not a failure.
    method Select(h: Handle) returns (seen: Option<Tables>)
      modifies this
      ensures seen == Read(faults, h, old(State())) && State() == AfterRead(faults, h, old(State()))
    {
      seen := Readable(State(), h);
      if seen.Some? && !faults.stmt(stmts).Healthy? {
        if h.Tx? {
          open := Some(open.value.(poisoned := true));
        }
        seen := None;
      }
      stmts := stmts + 1;
      if seen.None? {
        failed := failed + 1;
      }
    }

    // BEGIN, and the id the new transaction is given.
    method Begin() returns (ok: bool, id: int)
      modifies this
      ensures ok == !faults.begin(old(attempts))
      ensures ok ==> State() == Opened(old(State())) && id == txSequence
      ensures !ok ==> State() == old(State()).(attempts := old(attempts) + 1)
    {
      ok, id := !faults.begin(attempts), 0;
      if ok {
        open := Some(OpenTx(attempts, EMPTY_TABLES, false));
        events := events + [Began(attempts)];
        txSequence := (txSequence + 1) % TWO_64;
        id := txSequence;
      }
      attempts := attempts + 1;
    }

    // COMMIT on nil, ROLLBACK on error.
    method End(n: nat, outcome: Option<Error>) returns (error: Option<Error>)
      modifies this
      ensures (State(), error) == Close(faults, n, old(State()), outcome)
    {
      error := outcome;
      if error.None? && (open.None? || open.value.poisoned || faults.commit(n)) {
        error := Some(DatabaseError);
      }
      if error.None? {
        users, wallets := users + open.value.writes.users, wallets + open.value.writes.wallets;
        events := events + [Committed(n)];
      } else {
        events := events + [RolledBack(n)];
      }
      open := None;
    }
  }

  // The variables a callback captures.
  class Frame {
    var vars: Vars

    constructor ()
      ensures vars == map[]
    {
      vars := map[];
    }
  }

  class UserRepo {
    const db: Db
    const handle: Handle

    constructor (db: Db, handle: Handle)
      ensures this.db == db && this.handle == handle
    {
      this.db, this.handle := db, handle;
    }

    method Create(ctx: Context, name: string, email: string) returns (error: Option<Error>, id: int)
      modifies db
      ensures Reached(db.State(), error, id)
              == Statement(db.faults, DB(ctx, handle), InsertUser(name, email), map[], old(db.State()))
    {
      error, id := db.Execute(DB(ctx, handle), InsertUser(name, email));
    }

    method ExistsByEmail(ctx: Context, email: string) returns (error: Option<Error>, present: bool)
      modifies db
      ensures Reached(db.State(), error, if present then 1 else 0)
              == Statement(db.faults, DB(ctx, handle), UnitOfWorkSpec.ExistsByEmail(email), map[], old(db.State()))
    {
      var count;
      error, count := db.Execute(DB(ctx, handle), UnitOfWorkSpec.ExistsByEmail(email));
      present := count > 0;
    }

    // Any failure and an absent row look the same to the caller.
    method GetByID(ctx: Context, id: int) returns (row: Option<User>)
      modifies db
      ensures var seen := Read(db.faults, DB(ctx, handle), old(db.State()));
              row == if seen.Some? && HasUser(seen.value.users, id) then Some(FindUser(seen.value.users, id))
                     else None
      ensures db.State() == AfterRead(db.faults, DB(ctx, handle), old(db.State()))
    {
      var seen := db.Select(DB(ctx, handle));
      if seen.Some? && HasUser(seen.value.users, id) {
        row := Some(FindUser(seen.value.users, id));
      } else {
        row := None;
      }
    }
  }

  class WalletRepo {
    const db: Db
    const handle: Handle

    constructor (db: Db, handle: Handle)
      ensures this.db == db && this.handle == handle
    {
      this.db, this.handle := db, handle;
    }

    method Create(ctx: Context, userId: int) returns (error: Option<Error>, id: int)
      modifies db
      ensures Reached(db.State(), error, id)
              == Statement(db.faults, DB(ctx, handle), InsertWallet(Const(userId)), map[], old(db.State()))
    {
      error, id := db.Execute(DB(ctx, handle), InsertWallet(Const(userId)));
    }

    method ExistsByUserID(ctx: Context, userId: int) returns (error: Option<Error>, present: bool)
      modifies db
      ensures Reached(db.State(), error, if present then 1 else 0)
              == Statement(db.faults, DB(ctx, handle), ExistsByUserId(Const(userId)), map[], old(db.State()))
    {
      var count;
      error, count := db.Execute(DB(ctx, handle), ExistsByUserId(Const(userId)));
      present := count > 0;
    }

    method GetByUserID(ctx: Context, userId: int) returns (row: Option<Wallet>)
      modifies db
      ensures var seen := Read(db.faults, DB(ctx, handle), old(db.State()));
              row == if seen.Some? && HasWalletFor(seen.value.wallets, userId)
                     then Some(FindWallet(seen.value.wallets, userId)) else None
      ensures db.State() == AfterRead(db.faults, DB(ctx, handle), old(db.State()))
    {
      var seen := db.Select(DB(ctx, handle));
      if seen.Some? && HasWalletFor(seen.value.wallets, userId) {
        row := Some(FindWallet(seen.value.wallets, userId));
      } else {
        row := None;
      }
    }
  }

  // The wallet domain as the user domain sees it.
  class Facade {
    const repo: WalletRepo

    constructor (repo: WalletRepo)
      ensures this.repo == repo
    {
      this.repo := repo;
    }

    method CreateByUserID(ctx: Context, userId: int) returns (error: Option<Error>, id: int)
      modifies repo.db
      ensures Reached(repo.db.State(), error, id)
              == Statement(repo.db.faults, DB(ctx, repo.handle), InsertWallet(Const(userId)), map[],
                old(repo.db.State()))
    {
      error, id := repo.Create(ctx, userId);
    }

    // Zero with an error, or the stored balance.
    method GetBalanceByUserID(ctx: Context, userId: int) returns (balance: int, found: bool)
      modifies repo.db
      ensures var seen := Read(repo.db.faults, DB(ctx, repo.handle), old(repo.db.State()));
              && balance == (if seen.Some? then BalanceOf(seen.value.wallets, userId) else 0)
              && (found <==> seen.Some? && HasWalletFor(seen.value.wallets, userId))
      ensures repo.db.State() == AfterRead(repo.db.faults, DB(ctx, repo.handle), old(repo.db.State()))
    {
      var row := repo.GetByUserID(ctx, userId);
      if row.None? {
        return 0, false;
      }
      return row.value.balance, true;
    }
  }

  class Transactor {
    const db: Db?

    constructor (db: Db?)
      ensures this.db == db
    {
      this.db := db;
    }
  }

  // The closure of Do in a context that carries a transaction.
  function Joined(configured: bool, f: Faults, txCtx: Context, fn: Prog, w: World, vars: Vars): Ran
    requires FromState(txCtx).Some?
  {
    var state := FromState(txCtx).value;
    var r := Run(configured, f, Scope(txCtx, state.db), fn, w, vars);
    r.(lines := [BeginLine(state.id)] + r.lines + if r.error.Some? then [RollbackLine(state.id)] else [])
  }

  // A top-level Do is its closure in the transaction it opens, and then the end.
  lemma TopIsJoined(configured: bool, f: Faults, ctx: Context, fn: Prog, w: World, vars: Vars)
    requires FromState(ctx).None? && configured && !f.begin(w.attempts)
    ensures var j := Joined(configured, f, TopScope(ctx, w).ctx, fn, Opened(w), vars);
            var (w', error) := Close(f, w.attempts, j.w, j.error);
            var end := if error.None? then [CommitLine((w.txSeq + 1) % TWO_64)] else [];
            Do(configured, f, ctx, fn, w, vars) == Ran(w', j.vars, error, j.lines + end, j.sent)
  {
  }

  // `store` is the database every handle names; a transactor that is set up
  // opens its transactions there.
  class UnitOfWork {
    const store: Db
    const tx: Transactor?
    var log: seq<Line>

    constructor (store: Db, tx: Transactor?)
      ensures this.store == store && this.tx == tx && log == []
    {
      this.store, this.tx, log := store, tx, [];
    }

    predicate Configured() {
      tx != null && tx.db != null
    }

    predicate Wired() {
      Configured() ==> tx.db == store
    }

    method Do(ctx: Context, fn: Prog, frame: Frame) returns (error: Option<Error>)
      requires Wired()
      modifies this, store, frame
      ensures var r := UnitOfWorkSpec.Do(Configured(), store.faults, ctx, fn, old(store.State()), old(frame.vars));
              store.State() == r.w && frame.vars == r.vars && error == r.error && log == old(log) + r.lines
      decreases fn, 4
    {
      match FromState(ctx)
      case Some(state) =>
        log := log + [ReuseLine(state.id)];
        error := Interpret(Scope(ctx, state.db), fn, frame);
      case None =>
        var txId: int;
        error, txId := WithinTransaction(ctx, fn, frame);
        if error.None? {
          log := log + [CommitLine(txId)];
        }
    }

    // Transactor.WithinTransaction around the closure of Do. Called on a context
    // that carries a transaction, it runs the closure there and ends nothing.
    method WithinTransaction(ctx: Context, fn: Prog, frame: Frame) returns (error: Option<Error>, txId: int)
      requires Wired()
      modifies this, store, frame
      ensures FromState(ctx).None? ==>
                var r := UnitOfWorkSpec.Do(Configured(), store.faults, ctx, fn, old(store.State()), old(frame.vars));
                && store.State() == r.w && frame.vars == r.vars && error == r.error
                && log + (if error.None? then [CommitLine(txId)] else []) == old(log) + r.lines
      ensures FromState(ctx).Some? ==>
                var r := Joined(Configured(), store.faults, ctx, fn, old(store.State()), old(frame.vars));
                && store.State() == r.w && frame.vars == r.vars && error == r.error && log == old(log) + r.lines
                && txId == FromState(ctx).value.id
      decreases fn, 3
    {
      if FromState(ctx).Some? {
        error, txId := Callback(ctx, fn, frame);
        return;
      }
      txId := 0;
      if tx == null || tx.db == null {
        return Some(TransactorNotConfigured), txId;
      }
      var n := store.attempts;
      var ok, id := store.Begin();
      if !ok {
        return Some(DatabaseError), txId;
      }
      TopIsJoined(true, store.faults, ctx, fn, old(store.State()), frame.vars);
      var outcome;
      outcome, txId := Callback(WithTxState(ctx, Tx(n), id), fn, frame);
      error := store.End(n, outcome);
    }

    // The closure of Do, run in a context that carries a transaction; it
    // captures that transaction's id.
    method Callback(txCtx: Context, fn: Prog, frame: Frame) returns (error: Option<Error>, txId: int)
      requires Wired() && FromState(txCtx).Some?
      modifies this, store, frame
      ensures var r := Joined(Configured(), store.faults, txCtx, fn, old(store.State()), old(frame.vars));
              store.State() == r.w && frame.vars == r.vars && error == r.error && log == old(log) + r.lines
      ensures txId == FromState(txCtx).value.id
      decreases fn, 2
    {
      var state := FromState(txCtx).value;
      txId := state.id;
      log := log + [BeginLine(txId)];
      error := Interpret(Scope(txCtx, state.db), fn, frame);
      if error.Some? {
        log := log + [RollbackLine(txId)];
      }
    }

    // Runs a callback: one statement at a time, through a repository.
    method Interpret(scope: Scope, p: Prog, frame: Frame) returns (error: Option<Error>)
      requires Wired()
      modifies this, store, frame
      ensures var r := Run(Configured(), store.faults, scope, p, old(store.State()), old(frame.vars));
              store.State() == r.w && frame.vars == r.vars && error == r.error && log == old(log) + r.lines
      decreases p, 1
    {
      error := None;
      match p
      case Skip =>
      case Stmt(src, op, dst) =>
        var value;
        error, value := Send(scope.ctx, if src.Scoped? then scope.db else src.h, op, frame);
        if error.None? {
          frame.vars := frame.vars[dst := value];
        }
      case Then(a, b) =>
        error := Interpret(scope, a, frame);
        if error.None? {
          error := Interpret(scope, b, frame);
        }
      case When(c, a, b) =>
        if Eval(c, frame.vars) != 0 {
          error := Interpret(scope, a, frame);
        } else {
          error := Interpret(scope, b, frame);
        }
      case Return(e) =>
        error := Some(e);
      case Catch(a, h) =>
        error := Interpret(scope, a, frame);
        if error.Some? {
          error := Interpret(scope, h, frame);
        }
      case Nested(a) =>
        error := Do(scope.ctx, a, frame);
      case InRequest(id, a) =>
        error := Interpret(Scope(WithValue(scope.ctx, RequestIdKey, RequestIdValue(id)), scope.db), a, frame);
      case AsPrincipal(q, a) =>
        error := Interpret(Scope(NewContext(Some(scope.ctx), q), scope.db), a, frame);
    }

    // A repository is handed the value of an expression, not the expression.
    lemma ByValue(h: Handle, op: Op, sent: Op, vars: Vars, w: World)
      requires match op
               case ExistsByUserId(e) => sent == ExistsByUserId(Const(Eval(e, vars)))
               case InsertWallet(e) => sent == InsertWallet(Const(Eval(e, vars)))
               case _ => sent == op
      ensures Statement(store.faults, h, sent, map[], w) == Statement(store.faults, h, op, vars, w)
    {
    }

    // A statement is a call on a repository that holds `own`.
    method Send(ctx: Context, own: Handle, op: Op, frame: Frame) returns (error: Option<Error>, value: int)
      modifies store
      ensures Reached(store.State(), error, value)
              == Statement(store.faults, DB(ctx, own), op, frame.vars, old(store.State()))
    {
      var users := new UserRepo(store, own);
      var wallets := new WalletRepo(store, own);
      var found;
      ghost var w := store.State();
      match op
      case ExistsByEmail(email) =>
        ByValue(DB(ctx, own), op, op, frame.vars, w);
        error, found := users.ExistsByEmail(ctx, email);
        value := if found then 1 else 0;
      case ExistsByUserId(e) =>
        ByValue(DB(ctx, own), op, ExistsByUserId(Const(Eval(e, frame.vars))), frame.vars, w);
        error, found := wallets.ExistsByUserID(ctx, Eval(e, frame.vars));
        value := if found then 1 else 0;
      case InsertUser(name, email) =>
        ByValue(DB(ctx, own), op, op, frame.vars, w);
        error, value := users.Create(ctx, name, email);
      case InsertWallet(e) =>
        // The facade only passes the call on, so one path serves both users of it.
        ByValue(DB(ctx, own), op, InsertWallet(Const(Eval(e, frame.vars))), frame.vars, w);
        var facade := new Facade(wallets);
        error, value := facade.CreateByUserID(ctx, Eval(e, frame.vars));
    }
  }

  class UserUseCase {
    const repo: UserRepo
    const uow: UnitOfWork
    const walletQuery: Facade

    constructor (repo: UserRepo, uow: UnitOfWork, walletQuery: Facade)
      ensures this.repo == repo && this.uow == uow && this.walletQuery == walletQuery
    {
      this.repo, this.uow, this.walletQuery := repo, uow, walletQuery;
    }

    predicate Wired() {
      && uow.Wired()
      && repo.db == uow.store && repo.handle.Pool?
      && walletQuery.repo.db == uow.store && walletQuery.repo.handle.Pool?
    }

    // The callback under Do; so the atomic operation, on the committed tables at
    // top level and on what its transaction sees inside one.
    method CreateUser(ctx: Context, name: string, email: string) returns (reply: Reply)
      requires Wired()
      modifies uow, uow.store
      ensures var r := UnitOfWorkSpec.Do(uow.Configured(), uow.store.faults, ctx, CreateUserBody(name, email),
              old(uow.store.State()), map[]);
              uow.store.State() == r.w && reply == ReplyOf(Store.CreateUser(name, email), r.error, r.vars)
      ensures FromState(ctx).None? && SoundWorld(old(uow.store.State())) ==>
                && SoundWorld(uow.store.State())
                && Answered(Calm(uow.Configured(), uow.store.faults, old(uow.store.State())),
                            Store.CreateUser(name, email), Tables(old(uow.store.users), old(uow.store.wallets)), reply,
                            Tables(uow.store.users, uow.store.wallets))
      ensures FromState(ctx).None? ==>
                ServedAlone(uow.Configured(), uow.store.faults, Store.CreateUser(name, email),
                  old(uow.store.State()), reply, uow.store.State())
      ensures forall n :: Usable(Scope(ctx, Tx(n)), old(uow.store.State()), n) ==>
                ServedInside(uow.store.faults, Store.CreateUser(name, email), old(uow.store.State()), reply,
                  uow.store.State(), n)
    {
      var frame := new Frame();
      ghost var w := uow.store.State();
      BothServed(uow.Configured(), uow.store.faults, ctx, Store.CreateUser(name, email), w, map[]);
      var error := uow.Do(ctx, CreateUserBody(name, email), frame);
      if error.Some? {
        return Failed(error.value);
      }
      return UserCreated(Eval(Var("u"), frame.vars), name, email);
    }

    // Two reads through the context's handle, no unit of work; the balance error
    // is dropped.
    method GetUser(ctx: Context, id: int) returns (reply: Reply)
      requires Wired()
      modifies uow.store
      ensures var w, f := old(uow.store.State()), uow.store.faults;
              var read := Read(f, DB(ctx, Pool), w);
              if read.None? then reply == Failed(UserNotFound)
              else
                var serial := Serial(read.value, Store.GetUser(id), 0, 0).reply;
                if serial.Failed? || f.stmt(w.stmts + 1).Healthy? then reply == serial
                else reply == serial.(walletBalance := 0)
      ensures var once := AfterRead(uow.store.faults, DB(ctx, Pool), old(uow.store.State()));
              uow.store.State() == if reply.Failed? then once else AfterRead(uow.store.faults, DB(ctx, Pool), once)
      ensures FromState(ctx).None? ==>
                UserAnswer(uow.store.faults, old(uow.store.State()),
                           Tables(old(uow.store.users), old(uow.store.wallets)), id, reply)
      ensures forall n :: Usable(Scope(ctx, Tx(n)), old(uow.store.State()), n) ==>
                UserAnswer(uow.store.faults, old(uow.store.State()), Seen(old(uow.store.State())), id, reply)
      ensures WroteNothing(old(uow.store.State()), uow.store.State())
    {
      GetUserLaw(uow.store.faults, ctx, uow.store.State(), id);
      var row := repo.GetByID(ctx, id);
      if row.None? {
        return Failed(UserNotFound);
      }
      var u := row.value;
      var balance, _ := walletQuery.GetBalanceByUserID(ctx, u.id);
      return UserFound(u.id, u.name, u.email, balance);
    }
  }

  class WalletUseCase {
    const repo: WalletRepo
    const uow: UnitOfWork

    constructor (repo: WalletRepo, uow: UnitOfWork)
      ensures this.repo == repo && this.uow == uow
    {
      this.repo, this.uow := repo, uow;
    }

    predicate Wired() {
      uow.Wired() && repo.db == uow.store && repo.handle.Pool?
    }

    method CreateWallet(ctx: Context, userId: int) returns (reply: Reply)
      requires Wired()
      modifies uow, uow.store
      ensures var r := UnitOfWorkSpec.Do(uow.Configured(), uow.store.faults, ctx, CreateWalletBody(userId),
              old(uow.store.State()), map[]);
              uow.store.State() == r.w && reply == ReplyOf(Store.CreateWallet(userId), r.error, r.vars)
      ensures FromState(ctx).None? && SoundWorld(old(uow.store.State())) ==>
                && SoundWorld(uow.store.State())
                && Answered(Calm(uow.Configured(), uow.store.faults, old(uow.store.State())),
                            Store.CreateWallet(userId), Tables(old(uow.store.users), old(uow.store.wallets)), reply,
                            Tables(uow.store.users, uow.store.wallets))
      ensures FromState(ctx).None? ==>
                ServedAlone(uow.Configured(), uow.store.faults, Store.CreateWallet(userId), old(uow.store.State()),
                  reply, uow.store.State())
      ensures forall n :: Usable(Scope(ctx, Tx(n)), old(uow.store.State()), n) ==>
                ServedInside(uow.store.faults, Store.CreateWallet(userId), old(uow.store.State()), reply,
                  uow.store.State(), n)
    {
      var frame := new Frame();
      ghost var w := uow.store.State();
      BothServed(uow.Configured(), uow.store.faults, ctx, Store.CreateWallet(userId), w, map[]);
      var error := uow.Do(ctx, CreateWalletBody(userId), frame);
      if error.Some? {
        return Failed(error.value);
      }
      return WalletCreated(userId, 0);
    }

    method GetWallet(ctx: Context, userId: int) returns (reply: Reply)
      requires Wired()
      modifies uow.store
      ensures var read := Read(uow.store.faults, DB(ctx, Pool), old(uow.store.State()));
              reply == if read.Some? then Serial(read.value, Store.GetWallet(userId), 0, 0).reply
                       else Failed(WalletNotFound)
      ensures uow.store.State() == AfterRead(uow.store.faults, DB(ctx, Pool), old(uow.store.State()))
      ensures FromState(ctx).None? ==>
                WalletAnswer(uow.store.faults, old(uow.store.State()),
                             Tables(old(uow.store.users), old(uow.store.wallets)), userId, reply)
      ensures forall n :: Usable(Scope(ctx, Tx(n)), old(uow.store.State()), n) ==>
                WalletAnswer(uow.store.faults, old(uow.store.State()), Seen(old(uow.store.State())), userId, reply)
      ensures WroteNothing(old(uow.store.State()), uow.store.State())
    {
      GetUserLaw(uow.store.faults, ctx, uow.store.State(), userId);
      var row := repo.GetByUserID(ctx, userId);
      if row.None? {
        return Failed(WalletNotFound);
      }
      return WalletFound(row.value.userId, row.value.balance);
    }
  }
}
