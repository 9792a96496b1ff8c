/**
 The two writing use cases as callbacks, and what a top-level unit of work
 around them does: the atomic operation, or nothing.
 */
module UseCases {
  import opened Options
  import opened Store
  import opened RequestContext
  import opened UnitOfWorkSpec
  import opened WorldInvariant

  // The closure of CreateUser: the user repository is made from the scope, the
  // wallet writer's repository holds the pool and only shares the context.
  function CreateUserBody(name: string, email: string): Prog {
    Guarded(ExistsByEmail(email), UserAlreadyExists, InsertBoth(name, email))
  }

  function InsertBoth(name: string, email: string): Prog {
    Then(Stmt(Scoped, InsertUser(name, email), "u"),
         Stmt(Held(Pool), InsertWallet(Var("u")), "w"))
  }

  function CreateWalletBody(userId: int): Prog {
    Guarded(ExistsByUserId(Const(userId)), WalletAlreadyExists, Stmt(Scoped, InsertWallet(Const(userId)), "w"))
  }

  // Both bodies look first and insert only if nothing was found.
  function Guarded(op: Op, found: Error, rest: Prog): Prog {
    Then(Stmt(Scoped, op, "exists"), When(Var("exists"), Return(found), rest))
  }

  function BodyOf(req: Request): Prog
    requires req.Writes()
  {
    if req.CreateUser? then CreateUserBody(req.name, req.email) else CreateWalletBody(req.userId)
  }

  // What the use case answers after its unit of work.
  function ReplyOf(req: Request, error: Option<Error>, vars: Vars): Reply {
    if error.Some? then Failed(error.value)
    else if req.CreateUser? then UserCreated(Eval(Var("u"), vars), req.name, req.email)
    else if req.CreateWallet? then WalletCreated(req.userId, 0)
    else Failed(DatabaseError)
  }

  // The next k statements do not fail for an outside reason.
  predicate Healthy(f: Faults, w: World, k: nat) {
    forall i :: w.stmts <= i < w.stmts + k ==> f.stmt(i).Healthy?
  }

  // No outside reason to fail a use case, and ids left to draw.
  predicate Perfect(f: Faults, w: World) {
    Healthy(f, w, 3) && w.nextUser <= MAX_BIGINT && w.nextWallet <= MAX_BIGINT
  }

  // One statement inside an open, healthy transaction, whatever repository
  // sends it.
  lemma StatementInTx(configured: bool, f: Faults, scope: Scope, src: Source, op: Op, dst: string, w: World,
      vars: Vars, n: nat)
    requires InTx(scope, w, n) && !w.open.value.poisoned
    ensures var r := Run(configured, f, scope, Stmt(src, op, dst), w, vars);
            var tx := w.open.value;
            var e := Perform(op, vars, f.stmt(w.stmts), Append(w.committed, tx.writes), w.nextUser, w.nextWallet);
            && r.error == e.error
            && (e.error.None? ==> r.vars == vars[dst := e.value])
            && r.w == Count(w, e.error).(nextUser := e.nextUser, nextWallet := e.nextWallet,
                                         open := Some(OpenTx(n, Append(tx.writes, e.rows), e.error.Some?)))
  {
  }

  lemma RunWhen(configured: bool, f: Faults, scope: Scope, c: Expr, a: Prog, b: Prog, w: World, vars: Vars)
    ensures Run(configured, f, scope, When(c, a, b), w, vars)
            == Run(configured, f, scope, if Eval(c, vars) != 0 then a else b, w, vars)
  {
  }

  // A transaction some statements can still succeed in.
  predicate Usable(scope: Scope, w: World, n: nat) {
    InTx(scope, w, n) && !w.open.value.poisoned
  }

  // The open transaction with more rows written.
  function Wrote(w: World, rows: Tables): World {
    if w.open.None? then w
    else w.(open := Some(w.open.value.(writes := Append(w.open.value.writes, rows))))
  }

  lemma WroteIsSeen(w: World, rows: Tables)
    requires w.open.Some?
    ensures Seen(Wrote(w, rows)) == Append(Seen(w), rows)
  {
    var t, p := w.committed, w.open.value.writes;
    assert t.users + (p.users + rows.users) == t.users + p.users + rows.users;
    assert t.wallets + (p.wallets + rows.wallets) == t.wallets + p.wallets + rows.wallets;
  }

  // What a callback of one request has done to its transaction, against the
  // atomic operation on the tables that transaction sees: if it returns nil it
  // wrote what that operation adds; an error of the database poisons the
  // transaction, and any other error leaves it as it was.
  ghost predicate Adds(req: Request, w: World, r: Ran) {
    var served := Serial(Seen(w), req, w.nextUser, w.nextWallet);
    && r.w.open.Some?
    && (r.error.None? ==>
       ReplyOf(req, None, r.vars) == served.reply && !r.w.open.value.poisoned && Seen(r.w) == served.after)
    && (r.error == Some(DatabaseError) ==> r.w.open.value.poisoned)
    && (r.error.Some? && r.error.value != DatabaseError ==> r.w.open == w.open)
  }

  // And it returns what that operation answers.
  ghost predicate Answers(req: Request, w: World, r: Ran) {
    var served := Serial(Seen(w), req, w.nextUser, w.nextWallet);
    r.error == if served.reply.Failed? then Some(served.reply.error) else None
  }

  ghost predicate Matches(f: Faults, req: Request, w: World, r: Ran) {
    Adds(req, w, r) && (Perfect(f, w) ==> Answers(req, w, r))
  }

  // The world after a look that found nothing.
  function Looked(w: World): World {
    w.(stmts := w.stmts + 1)
  }

  lemma GuardedRun(configured: bool, f: Faults, scope: Scope, op: Op, found: Error, rest: Prog, w: World,
      vars: Vars, n: nat)
    requires Usable(scope, w, n)
    requires op.ExistsByEmail? || op.ExistsByUserId?
    ensures var r := Run(configured, f, scope, Guarded(op, found, rest), w, vars);
            var there := if op.ExistsByEmail? then HasEmail(Seen(w).users, op.email)
                         else HasWalletFor(Seen(w).wallets, Eval(op.userId, vars));
            if !f.stmt(w.stmts).Healthy? then
              r.error == Some(DatabaseError) && r.w.open.Some? && r.w.open.value.poisoned
            else if there then r.error == Some(found) && r.w.open == w.open
            else var go := Run(configured, f, scope, rest, Looked(w), vars["exists" := 0]);
                 r.w == go.w && r.vars == go.vars && r.error == go.error
  {
    assert Append(w.open.value.writes, EMPTY_TABLES) == w.open.value.writes;
    var look, choose := Stmt(Scoped, op, "exists"), When(Var("exists"), Return(found), rest);
    StatementInTx(configured, f, scope, Scoped, op, "exists", w, vars, n);
    ThenRuns(configured, f, scope, look, choose, w, vars);
    var r1 := Run(configured, f, scope, look, w, vars);
    if r1.error.None? {
      RunWhen(configured, f, scope, Var("exists"), Return(found), rest, r1.w, r1.vars);
    }
  }

  // The transaction after the user row went in.
  function WithRow(w: World, row: User): World {
    Wrote(w.(stmts := w.stmts + 1, nextUser := w.nextUser + 1), Tables([row], []))
  }

  lemma InsertUserInside(configured: bool, f: Faults, scope: Scope, name: string, email: string, w: World,
      vars: Vars, n: nat)
    requires Usable(scope, w, n)
    ensures var r := Run(configured, f, scope, InsertBoth(name, email).first, w, vars);
            var row := User(w.nextUser, name, email);
            if f.stmt(w.stmts).Healthy? && w.nextUser <= MAX_BIGINT && !UserClash(Seen(w).users, row)
            then r == Ran(WithRow(w, row), vars["u" := w.nextUser], None, [], r.sent)
                 && Seen(r.w) == Tables(Seen(w).users + [row], Seen(w).wallets) && HasUser(Seen(r.w).users, row.id)
            else r.error == Some(DatabaseError) && r.w.open.Some? && r.w.open.value.poisoned
  {
    StatementInTx(configured, f, scope, Scoped, InsertBoth(name, email).first.op, "u", w, vars, n);
    var row := User(w.nextUser, name, email);
    WroteIsSeen(w.(stmts := w.stmts + 1, nextUser := w.nextUser + 1), Tables([row], []));
    assert (Seen(w).users + [row])[|Seen(w).users|] == row;
  }

  lemma InsertWalletInside(configured: bool, f: Faults, scope: Scope, src: Source, e: Expr, w: World, vars: Vars,
      n: nat)
    requires Usable(scope, w, n)
    ensures var r := Run(configured, f, scope, Stmt(src, InsertWallet(e), "w"), w, vars);
            var wallet := Wallet(w.nextWallet, Eval(e, vars), 0);
            if f.stmt(w.stmts).Healthy? && w.nextWallet <= MAX_BIGINT && !WalletClash(Seen(w).wallets, wallet)
               && HasUser(Seen(w).users, Eval(e, vars))
            then r.error.None? && Eval(Var("u"), r.vars) == Eval(Var("u"), vars)
                 && r.w.open.Some? && !r.w.open.value.poisoned
                 && Seen(r.w) == Tables(Seen(w).users, Seen(w).wallets + [wallet])
            else r.error == Some(DatabaseError) && r.w.open.Some? && r.w.open.value.poisoned
  {
    StatementInTx(configured, f, scope, src, InsertWallet(e), "w", w, vars, n);
    WroteIsSeen(w, Tables([], [Wallet(w.nextWallet, Eval(e, vars), 0)]));
  }

  lemma HealthyTwice(f: Faults, w: World)
    ensures Healthy(f, w, 2) <==> f.stmt(w.stmts).Healthy? && f.stmt(w.stmts + 1).Healthy?
  {
  }

  // The inserts of CreateUser are down to the wallet's, or the user's failed.
  lemma InsertsFirst(configured: bool, f: Faults, scope: Scope, name: string, email: string, w: World, vars: Vars,
      n: nat)
    requires Usable(scope, w, n)
    ensures var r := Run(configured, f, scope, InsertBoth(name, email), w, vars);
            var row := User(w.nextUser, name, email);
            var w1 := WithRow(w, row);
            if f.stmt(w.stmts).Healthy? && w.nextUser <= MAX_BIGINT && !UserClash(Seen(w).users, row) then
              && EndsAs(r, Run(configured, f, scope, InsertBoth(name, email).second, w1, vars["u" := w.nextUser]))
              && Usable(scope, w1, n) && Seen(w1) == Tables(Seen(w).users + [row], Seen(w).wallets)
              && HasUser(Seen(w1).users, row.id)
            else r.error == Some(DatabaseError) && r.w.open.Some? && r.w.open.value.poisoned
  {
    ThenRuns(configured, f, scope, InsertBoth(name, email).first, InsertBoth(name, email).second, w, vars);
    InsertUserInside(configured, f, scope, name, email, w, vars, n);
  }

  lemma InsertsSecond(configured: bool, f: Faults, scope: Scope, name: string, email: string, w: World, vars: Vars,
      n: nat)
    requires Usable(scope, WithRow(w, User(w.nextUser, name, email)), n)
    requires Seen(WithRow(w, User(w.nextUser, name, email)))
             == Tables(Seen(w).users + [User(w.nextUser, name, email)], Seen(w).wallets)
    requires HasUser(Seen(w).users + [User(w.nextUser, name, email)], w.nextUser)
    ensures var row, wallet := User(w.nextUser, name, email), Wallet(w.nextWallet, w.nextUser, 0);
            var w1, vars1 := WithRow(w, row), vars["u" := w.nextUser];
            var r := Run(configured, f, scope, InsertBoth(name, email).second, w1, vars1);
            && r.w.open.Some?
            && if f.stmt(w.stmts + 1).Healthy? && w.nextWallet <= MAX_BIGINT && !WalletClash(Seen(w).wallets, wallet)
               then r.error.None? && Eval(Var("u"), r.vars) == row.id && !r.w.open.value.poisoned
                    && Seen(r.w) == Tables(Seen(w).users + [row], Seen(w).wallets + [wallet])
               else r.error == Some(DatabaseError) && r.w.open.value.poisoned
  {
    var w1 := WithRow(w, User(w.nextUser, name, email));
    assert w1.stmts == w.stmts + 1 && w1.nextWallet == w.nextWallet;
    InsertWalletInside(configured, f, scope, Held(Pool), Var("u"), w1, vars["u" := w.nextUser], n);
  }

  // The two inserts of CreateUser: both rows, or a poisoned transaction.
  lemma InsertsRun(configured: bool, f: Faults, scope: Scope, name: string, email: string, w: World, vars: Vars,
      n: nat)
    requires Usable(scope, w, n)
    ensures var r := Run(configured, f, scope, InsertBoth(name, email), w, vars);
            var t, row, wallet := Seen(w), User(w.nextUser, name, email), Wallet(w.nextWallet, w.nextUser, 0);
            && r.w.open.Some?
            && if Healthy(f, w, 2) && w.nextUser <= MAX_BIGINT && w.nextWallet <= MAX_BIGINT
                  && !UserClash(t.users, row) && !WalletClash(t.wallets, wallet)
               then r.error.None? && Eval(Var("u"), r.vars) == row.id && !r.w.open.value.poisoned
                    && Seen(r.w) == Tables(t.users + [row], t.wallets + [wallet])
               else r.error == Some(DatabaseError) && r.w.open.value.poisoned
  {
    var row := User(w.nextUser, name, email);
    HealthyTwice(f, w);
    InsertsFirst(configured, f, scope, name, email, w, vars, n);
    if f.stmt(w.stmts).Healthy? && w.nextUser <= MAX_BIGINT && !UserClash(Seen(w).users, row) {
      InsertsSecond(configured, f, scope, name, email, w, vars, n);
    }
  }

  lemma CreateUserInside(configured: bool, f: Faults, scope: Scope, name: string, email: string, w: World,
      vars: Vars, n: nat)
    requires Usable(scope, w, n)
    ensures Matches(f, CreateUser(name, email), w, Run(configured, f, scope, CreateUserBody(name, email), w, vars))
  {
    GuardedRun(configured, f, scope, ExistsByEmail(email), UserAlreadyExists, InsertBoth(name, email), w, vars, n);
    if !HasEmail(Seen(w).users, email) {
      InsertsRun(configured, f, scope, name, email, Looked(w), vars["exists" := 0], n);
    }
  }

  lemma CreateWalletInside(configured: bool, f: Faults, scope: Scope, userId: int, w: World, vars: Vars, n: nat)
    requires Usable(scope, w, n)
    ensures Matches(f, CreateWallet(userId), w, Run(configured, f, scope, CreateWalletBody(userId), w, vars))
  {
    var insert := Stmt(Scoped, InsertWallet(Const(userId)), "w");
    GuardedRun(configured, f, scope, ExistsByUserId(Const(userId)), WalletAlreadyExists, insert, w, vars, n);
    if !HasWalletFor(Seen(w).wallets, userId) {
      InsertWalletInside(configured, f, scope, Scoped, Const(userId), Looked(w), vars["exists" := 0], n);
    }
  }

  lemma BodyMatches(configured: bool, f: Faults, scope: Scope, req: Request, w: World, vars: Vars, n: nat)
    requires req.Writes() && Usable(scope, w, n)
    ensures Matches(f, req, w, Run(configured, f, scope, BodyOf(req), w, vars))
  {
    if req.CreateUser? {
      CreateUserInside(configured, f, scope, req.name, req.email, w, vars, n);
    } else {
      CreateWalletInside(configured, f, scope, req.userId, w, vars, n);
    }
  }

  // A use case called at top level is the atomic operation when it succeeds and
  // leaves the tables alone when it does not; and without outside faults it
  // answers exactly what the atomic operation answers.
  ghost predicate ServedAlone(configured: bool, f: Faults, req: Request, w: World, reply: Reply, w': World) {
    var served := Serial(w.committed, req, w.nextUser, w.nextWallet);
    && (reply.Commits() ==> reply == served.reply && w'.committed == served.after)
    && (!reply.Commits() ==> reply.Failed? && w'.committed == w.committed)
    && (Calm(configured, f, w) ==> reply == served.reply && w'.committed == served.after)
  }

  lemma UseCaseIsSerial(configured: bool, f: Faults, ctx: Context, req: Request, w: World, vars: Vars)
    requires req.Writes() && FromState(ctx).None?
    ensures var r := Do(configured, f, ctx, BodyOf(req), w, vars);
            ServedAlone(configured, f, req, w, ReplyOf(req, r.error, r.vars), r.w)
  {
    if configured && !f.begin(w.attempts) {
      BodyMatches(configured, f, TopScope(ctx, w), req, Opened(w), vars, w.attempts);
      RunInsideTx(configured, f, TopScope(ctx, w), BodyOf(req), Opened(w), vars, w.attempts);
      EndServes(configured, f, req, w, Run(configured, f, TopScope(ctx, w), BodyOf(req), Opened(w), vars));
    }
  }

  // Ending the transaction after the callback serves the request.
  lemma EndServes(configured: bool, f: Faults, req: Request, w: World, r: Ran)
    requires req.Writes() && Matches(f, req, Opened(w), r) && r.w.committed == w.committed
    ensures var (w', error) := Close(f, w.attempts, r.w, r.error);
            ServedAlone(configured, f, req, w, ReplyOf(req, error, r.vars), w')
  {
    assert Seen(Opened(w)) == w.committed;
  }

  // Nothing fails for an outside reason, and there are ids left to draw.
  predicate Calm(configured: bool, f: Faults, w: World) {
    configured && Perfect(f, w) && !f.begin(w.attempts) && !f.commit(w.attempts)
  }

  // What the client of a writing use case at top level learns and leaves, in
  // the stored rows alone. A success is always true of the tables; when nothing
  // fails outside, CreateUser succeeds exactly if no stored row has the email,
  // and CreateWallet exactly if the user is stored and no wallet names it.
  ghost predicate Answered(calm: bool, req: Request, before: Tables, reply: Reply, after: Tables) {
    && (reply.Failed? ==> after == before)
    && (req.CreateUser? ==>
          && (!reply.Failed? ==> UserAdded(before, after, reply, req.name, req.email))
          && (calm ==>
                && (reply.UserCreated? <==> forall u :: u in before.users ==> u.email != req.email)
                && (!reply.UserCreated? ==> reply == Failed(UserAlreadyExists))))
    && (req.CreateWallet? ==>
          && (!reply.Failed? ==> WalletAdded(before, after, reply, req.userId))
          && (calm ==>
                && (reply == Failed(WalletAlreadyExists) <==> exists v :: v in before.wallets && v.userId == req.userId)
                && (reply.WalletCreated? <==>
                      && (forall v :: v in before.wallets ==> v.userId != req.userId)
                      && exists u :: u in before.users && u.id == req.userId)
                && (!reply.WalletCreated? && reply != Failed(WalletAlreadyExists) ==> reply == Failed(DatabaseError))))
  }

  lemma UseCaseIsAnswered(configured: bool, f: Faults, ctx: Context, req: Request, w: World, vars: Vars)
    requires req.Writes() && FromState(ctx).None? && SoundWorld(w)
    ensures var r := Do(configured, f, ctx, BodyOf(req), w, vars);
            SoundWorld(r.w)
            && Answered(Calm(configured, f, w), req, w.committed, ReplyOf(req, r.error, r.vars), r.w.committed)
  {
    UseCaseIsSerial(configured, f, ctx, req, w, vars);
    DoKeepsSound(configured, f, ctx, BodyOf(req), w, vars);
    SerialWrites(w.committed, req, w.nextUser, w.nextWallet);
  }

  // Called inside a transaction, whatever that has written already, a use case
  // is the atomic operation on the tables the transaction sees, and commits
  // nothing itself. An error of the database poisons the transaction; "already
  // exists" leaves it as it was. No transactor is needed.
  ghost predicate ServedInside(f: Faults, req: Request, w: World, reply: Reply, w': World, n: nat) {
    var served := Serial(Seen(w), req, w.nextUser, w.nextWallet);
    && w'.committed == w.committed && w'.events == w.events && w'.txSeq == w.txSeq
    && w'.open.Some? && w'.open.value.number == n
    && (w'.open.value.poisoned <==> reply == Failed(DatabaseError))
    && (reply.Commits() ==> reply == served.reply && Seen(w') == served.after)
    && (!reply.Commits() && reply != Failed(DatabaseError) ==> reply.Failed? && w'.open == w.open)
    && (Perfect(f, w) ==> reply == served.reply)
  }

  lemma UseCaseInside(configured: bool, f: Faults, ctx: Context, req: Request, w: World, vars: Vars, n: nat)
    requires req.Writes() && Usable(Scope(ctx, Tx(n)), w, n)
    ensures var r := Do(configured, f, ctx, BodyOf(req), w, vars);
            ServedInside(f, req, w, ReplyOf(req, r.error, r.vars), r.w, n)
  {
    var scope := Scope(ctx, Tx(n));
    BodyMatches(configured, f, scope, req, w, vars, n);
    RunInsideTx(configured, f, scope, BodyOf(req), w, vars, n);
  }

  lemma BothServed(configured: bool, f: Faults, ctx: Context, req: Request, w: World, vars: Vars)
    requires req.Writes()
    ensures var r := Do(configured, f, ctx, BodyOf(req), w, vars);
            var reply := ReplyOf(req, r.error, r.vars);
            && (FromState(ctx).None? ==> ServedAlone(configured, f, req, w, reply, r.w))
            && (FromState(ctx).None? && SoundWorld(w) ==>
                  SoundWorld(r.w) && Answered(Calm(configured, f, w), req, w.committed, reply, r.w.committed))
            && (forall n :: Usable(Scope(ctx, Tx(n)), w, n) ==> ServedInside(f, req, w, reply, r.w, n))
  {
    if FromState(ctx).None? {
      UseCaseIsSerial(configured, f, ctx, req, w, vars);
      if SoundWorld(w) {
        UseCaseIsAnswered(configured, f, ctx, req, w, vars);
      }
    } else {
      forall n | Usable(Scope(ctx, Tx(n)), w, n)
        ensures var r := Do(configured, f, ctx, BodyOf(req), w, vars);
                ServedInside(f, req, w, ReplyOf(req, r.error, r.vars), r.w, n)
      {
        UseCaseInside(configured, f, ctx, req, w, vars, n);
      }
    }
  }
}
