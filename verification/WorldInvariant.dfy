/**
 What every callback, whatever it does and whatever fails, keeps of the
 database: the declared constraints, and sequences above every stored id.
 */
module WorldInvariant {
  import opened Options
  import opened Store
  import opened RequestContext
  import opened UnitOfWorkSpec

  ghost predicate Sound(t: Tables, nextUser: int, nextWallet: int) {
    ConstraintsHold(t) && IdsBelow(t, nextUser, nextWallet)
  }

  ghost predicate SoundWorld(w: World) {
    Sound(w.committed, w.nextUser, w.nextWallet)
  }

  // What a statement does, in the rows it sees. A count fails only for an
  // outside reason; an insert also for a key that is stored, a user that is not,
  // or a sequence at its end. An id once drawn is never given back.
  lemma PerformLaw(op: Op, vars: Vars, fault: StmtFault, t: Tables, nextUser: int, nextWallet: int)
    ensures var e := Perform(op, vars, fault, t, nextUser, nextWallet);
            && (e.error.Some? ==> e.error.value == DatabaseError && e.rows.users == [] && e.rows.wallets == [])
            && (op.ExistsByEmail? ==>
                  && (e.error.None? <==> fault.Healthy?)
                  && (e.error.None? ==> e.value == if exists u :: u in t.users && u.email == op.email then 1 else 0))
            && (op.ExistsByUserId? ==>
                  && (e.error.None? <==> fault.Healthy?)
                  && (e.error.None? ==>
                        e.value == if exists w :: w in t.wallets && w.userId == Eval(op.userId, vars) then 1 else 0))
            && (op.InsertUser? ==>
                  && (e.error.None? <==>
                        && fault.Healthy? && nextUser <= MAX_BIGINT
                        && forall u :: u in t.users ==> u.id != nextUser && u.email != op.email)
                  && (e.error.None? ==>
                        e.value == nextUser && e.rows == Tables([User(nextUser, op.name, op.email)], [])))
            && (op.InsertWallet? ==>
                  && (e.error.None? <==>
                        && fault.Healthy? && nextWallet <= MAX_BIGINT
                        && (forall w :: w in t.wallets ==> w.id != nextWallet && w.userId != Eval(op.userId, vars))
                        && exists u :: u in t.users && u.id == Eval(op.userId, vars))
                  && (e.error.None? ==>
                        e.value == nextWallet && e.rows == Tables([], [Wallet(nextWallet, Eval(op.userId, vars), 0)])))
            && e.nextUser
               == (if op.InsertUser? && !fault.Early? && nextUser <= MAX_BIGINT then nextUser + 1 else nextUser)
            && e.nextWallet
               == (if op.InsertWallet? && !fault.Early? && nextWallet <= MAX_BIGINT then nextWallet + 1 else nextWallet)
            && (!op.InsertUser? ==> e.rows.users == []) && (!op.InsertWallet? ==> e.rows.wallets == [])
  {
  }

  lemma PerformKeepsSound(op: Op, vars: Vars, fault: StmtFault, t: Tables, nextUser: int, nextWallet: int)
    requires Sound(t, nextUser, nextWallet)
    ensures var e := Perform(op, vars, fault, t, nextUser, nextWallet);
            Sound(Append(t, e.rows), e.nextUser, e.nextWallet)
  {
    var e := Perform(op, vars, fault, t, nextUser, nextWallet);
    var t' := Append(t, e.rows);
    assert e.rows.users == [] ==> t'.users == t.users;
    assert e.rows.wallets == [] ==> t'.wallets == t.wallets;
    AppendedRows(t.users, t'.users, t.wallets, t'.wallets);
  }

  // Larger sequences are as far above what is stored.
  lemma SoundLater(t: Tables, nextUser: int, nextWallet: int, later: int, laterWallet: int)
    requires Sound(t, nextUser, nextWallet) && nextUser <= later && nextWallet <= laterWallet
    ensures Sound(t, later, laterWallet)
  {
  }

  lemma StatementKeepsSoundInside(f: Faults, op: Op, vars: Vars, w: World, n: nat)
    requires w.open.Some? && w.open.value.number == n && Sound(Seen(w), w.nextUser, w.nextWallet)
    ensures var r := Statement(f, Tx(n), op, vars, w);
            && r.w.open.Some? && Sound(Seen(r.w), r.w.nextUser, r.w.nextWallet)
            && w.nextUser <= r.w.nextUser && w.nextWallet <= r.w.nextWallet
  {
    if !w.open.value.poisoned {
      var e := Perform(op, vars, f.stmt(w.stmts), Seen(w), w.nextUser, w.nextWallet);
      PerformKeepsSound(op, vars, f.stmt(w.stmts), Seen(w), w.nextUser, w.nextWallet);
      PerformLaw(op, vars, f.stmt(w.stmts), Seen(w), w.nextUser, w.nextWallet);
      AppendTwice(w.committed, w.open.value.writes, e.rows);
    }
  }

  lemma AppendTwice(a: Tables, b: Tables, c: Tables)
    ensures Append(a, Append(b, c)) == Append(Append(a, b), c)
  {
    assert a.users + (b.users + c.users) == a.users + b.users + c.users;
    assert a.wallets + (b.wallets + c.wallets) == a.wallets + b.wallets + c.wallets;
  }

  // Inside a transaction, any program keeps what its statements see sound, and
  // draws ids only upwards.
  lemma {:induction false} RunKeepsSoundInside(configured: bool, f: Faults, scope: Scope, p: Prog, w: World, vars: Vars,
      n: nat)
    requires InTx(scope, w, n) && Sound(Seen(w), w.nextUser, w.nextWallet)
    ensures var r := Run(configured, f, scope, p, w, vars);
            && InTx(scope, r.w, n) && Sound(Seen(r.w), r.w.nextUser, r.w.nextWallet)
            && w.nextUser <= r.w.nextUser && w.nextWallet <= r.w.nextWallet
    decreases p
  {
    match p
    case Stmt(src, op, dst) =>
      StatementKeepsSoundInside(f, op, vars, w, n);
    case Then(a, b) =>
      RunKeepsSoundInside(configured, f, scope, a, w, vars, n);
      var ra := Run(configured, f, scope, a, w, vars);
      RunKeepsSoundInside(configured, f, scope, b, ra.w, ra.vars, n);
    case When(c, a, b) =>
      RunKeepsSoundInside(configured, f, scope, if Eval(c, vars) != 0 then a else b, w, vars, n);
    case Catch(a, h) =>
      RunKeepsSoundInside(configured, f, scope, a, w, vars, n);
      var ra := Run(configured, f, scope, a, w, vars);
      RunKeepsSoundInside(configured, f, scope, h, ra.w, ra.vars, n);
    case Nested(a) =>
      RunKeepsSoundInside(configured, f, Scope(scope.ctx, Tx(n)), a, w, vars, n);
    case InRequest(id, a) =>
      RunKeepsSoundInside(configured, f, InRequestScope(scope, id), a, w, vars, n);
    case AsPrincipal(q, a) =>
      RunKeepsSoundInside(configured, f, Scope(NewContext(Some(scope.ctx), q), scope.db), a, w, vars, n);
    case _ =>
  }

  // A top-level Do, committed or rolled back, keeps the committed tables sound.
  lemma DoKeepsSound(configured: bool, f: Faults, ctx: Context, body: Prog, w: World, vars: Vars)
    requires FromState(ctx).None? && SoundWorld(w)
    ensures var r := Do(configured, f, ctx, body, w, vars);
            SoundWorld(r.w) && w.nextUser <= r.w.nextUser && w.nextWallet <= r.w.nextWallet
    ensures w.open.None? ==> Do(configured, f, ctx, body, w, vars).w.open.None?
  {
    if configured && !f.begin(w.attempts) {
      var scope := TopScope(ctx, w);
      assert Seen(Opened(w)) == w.committed;
      RunKeepsSoundInside(configured, f, scope, body, Opened(w), vars, w.attempts);
      RunInsideTx(configured, f, scope, body, Opened(w), vars, w.attempts);
      var inner := Run(configured, f, scope, body, Opened(w), vars).w;
      SoundLater(w.committed, w.nextUser, w.nextWallet, inner.nextUser, inner.nextWallet);
    }
  }

  lemma StatementKeepsSoundOutside(f: Faults, h: Handle, op: Op, vars: Vars, w: World)
    requires w.open.None? && SoundWorld(w)
    ensures var r := Statement(f, h, op, vars, w);
            && r.w.open.None? && SoundWorld(r.w) && w.nextUser <= r.w.nextUser && w.nextWallet <= r.w.nextWallet
  {
    PerformKeepsSound(op, vars, f.stmt(w.stmts), w.committed, w.nextUser, w.nextWallet);
    PerformLaw(op, vars, f.stmt(w.stmts), w.committed, w.nextUser, w.nextWallet);
  }

  // So does any program outside a transaction, whatever units of work it opens.
  lemma {:induction false} RunKeepsSound(configured: bool, f: Faults, scope: Scope, p: Prog, w: World, vars: Vars)
    requires FromState(scope.ctx).None? && w.open.None? && SoundWorld(w)
    ensures var r := Run(configured, f, scope, p, w, vars);
            && r.w.open.None? && SoundWorld(r.w) && w.nextUser <= r.w.nextUser && w.nextWallet <= r.w.nextWallet
    decreases p
  {
    match p
    case Stmt(src, op, dst) =>
      StatementKeepsSoundOutside(f, HandleFor(scope, src), op, vars, w);
    case Then(a, b) =>
      RunKeepsSound(configured, f, scope, a, w, vars);
      var ra := Run(configured, f, scope, a, w, vars);
      RunKeepsSound(configured, f, scope, b, ra.w, ra.vars);
    case When(c, a, b) =>
      RunKeepsSound(configured, f, scope, if Eval(c, vars) != 0 then a else b, w, vars);
    case Catch(a, h) =>
      RunKeepsSound(configured, f, scope, a, w, vars);
      var ra := Run(configured, f, scope, a, w, vars);
      RunKeepsSound(configured, f, scope, h, ra.w, ra.vars);
    case Nested(a) =>
      DoKeepsSound(configured, f, scope.ctx, a, w, vars);
    case InRequest(id, a) =>
      RunKeepsSound(configured, f, InRequestScope(scope, id), a, w, vars);
    case AsPrincipal(q, a) =>
      RunKeepsSound(configured, f, Scope(NewContext(Some(scope.ctx), q), scope.db), a, w, vars);
    case _ =>
  }
}
