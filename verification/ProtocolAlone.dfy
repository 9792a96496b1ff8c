/**
 A request during which no other one moves or holds a row does what the atomic
 operation says: the serial meaning the histories are replayed with is the
 program's own.
 */
module ProtocolAlone {
  import opened Options
  import opened Store
  import opened Protocol
  import opened ProtocolInvariant
  import opened ProtocolLiveness

  // True at the start, of requests not begun or answered, and of any that has
  // not inserted yet.
  ghost predicate OthersHoldNothing(s: State, i: nat) {
    forall j :: 0 <= j < |s.calls| && j != i ==> s.calls[j].writes == EMPTY_TABLES
  }

  // How far request i has come towards the serial answer over `t`, having been
  // given the ids `uid` and `wid`.
  ghost predicate OnWay(t: Tables, uid: int, wid: int, s: State, i: nat) {
    && i < |s.calls|
    && var c := s.calls[i];
       var served := Serial(t, c.req, uid, wid);
       && (c.pc.Finished? ==> c.reply == Some(served.reply) && s.db == served.after)
       && (c.pc.Rollback? ==> c.reply == Some(served.reply) && served.after == t)
       && (!c.pc.Finished? ==> s.db == t)
       && (c.pc.Start? || c.pc.Check? || c.pc.DrawUser? ==> s.nextUser == uid)
       && s.nextUser <= uid + 1
       && (c.uid.Some? ==> c.uid.value == uid)
       && (c.pc.Start? || c.pc.Check? || c.pc.DrawUser? || c.pc.PutUser? || c.pc.DrawWallet? ==> s.nextWallet == wid)
       && (c.wid.Some? ==> c.wid.value == wid)
       && PassedChecks(t, uid, wid, c)
  }

  ghost predicate PassedChecks(t: Tables, uid: int, wid: int, c: Call) {
    match c.req
    case CreateUser(name, email) =>
      && (c.pc.DrawUser? || c.pc.PutUser? ==> !HasEmail(t.users, email))
      && (c.pc.DrawWallet? || c.pc.PutWallet? || c.pc.RefCheck? || c.pc.Commit? ==>
            !UserClash(t.users, User(uid, name, email)))
      && (c.pc.RefCheck? || c.pc.Commit? ==> !WalletClash(t.wallets, Wallet(wid, uid, 0)))
    case CreateWallet(userId) =>
      && (c.pc.DrawWallet? || c.pc.PutWallet? || c.pc.RefCheck? || c.pc.Commit? ==> !HasWalletFor(t.wallets, userId))
      && (c.pc.RefCheck? || c.pc.Commit? ==> !WalletClash(t.wallets, Wallet(wid, userId, 0)))
      && (c.pc.Commit? ==> HasUser(t.users, userId))
    case GetUser(id) =>
      c.pc.ReadWallet? ==> HasUser(t.users, id) && c.found == Some(FindUser(t.users, id))
    case GetWallet(_) => true
  }

  lemma AloneCanStep(base: Tables, s: State, i: nat)
    requires Inv(base, s) && i < |s.calls| && OthersHoldNothing(s, i) && !s.calls[i].pc.Finished?
    ensures CanStep(s, Label(i, false))
  {
    forall j: nat | j < |s.calls| ensures !WaitsFor(s, i, j) {
      assert CallOk(base, s, s.calls[j]);
    }
  }

  lemma AloneKeepsWay(base: Tables, t: Tables, uid: int, wid: int, s: State, i: nat)
    requires CallOkAt(base, s, i) && CanStep(s, Label(i, false))
    requires uid <= MAX_BIGINT && wid <= MAX_BIGINT
    requires OnWay(t, uid, wid, s, i)
    ensures OnWay(t, uid, wid, Step(s, Label(i, false)), i)
  {
    var c := s.calls[i];
    if c.pc.PutUser? || c.pc.Check? {
      assert s.db.users + c.writes.users == s.db.users;
      assert s.db.wallets + c.writes.wallets == s.db.wallets;
    } else if c.pc.PutWallet? {
      assert s.db.wallets + c.writes.wallets == s.db.wallets;
    } else if c.pc.RefCheck? {
      assert c.req.CreateUser? ==> UserRow(c) in s.db.users + c.writes.users;
      assert c.req.CreateWallet? ==> s.db.users + c.writes.users == s.db.users;
    } else if c.pc.Commit? {
      assert c.req.CreateWallet? ==> s.db.users + c.writes.users == s.db.users;
    }
  }

  ghost predicate CallOkAt(base: Tables, s: State, i: nat) {
    i < |s.calls| && CallOk(base, s, s.calls[i])
  }

  // Everything the run alone needs, in one place.
  ghost predicate AloneState(base: Tables, t: Tables, uid: int, wid: int, s: State, i: nat, req: Request) {
    && Inv(base, s) && OthersHoldNothing(s, i) && OnWay(t, uid, wid, s, i)
    && s.calls[i].req == req
  }

  ghost predicate SameOthers(s: State, t: State, i: nat) {
    |s.calls| == |t.calls| && forall j :: 0 <= j < |s.calls| && j != i ==> s.calls[j] == t.calls[j]
  }

  lemma OthersStay(s: State, i: nat)
    requires i < |s.calls| && CanStep(s, Label(i, false)) && OthersHoldNothing(s, i)
    ensures OthersHoldNothing(Step(s, Label(i, false)), i) && SameOthers(s, Step(s, Label(i, false)), i)
    ensures Step(s, Label(i, false)).calls[i].req == s.calls[i].req
  {
  }

  lemma AloneAdvance(base: Tables, t: Tables, uid: int, wid: int, s: State, i: nat, req: Request)
    requires AloneState(base, t, uid, wid, s, i, req) && !s.calls[i].pc.Finished?
    requires uid <= MAX_BIGINT && wid <= MAX_BIGINT
    ensures CanStep(s, Label(i, false))
    ensures AloneState(base, t, uid, wid, Step(s, Label(i, false)), i, req)
    ensures SameOthers(s, Step(s, Label(i, false)), i)
    ensures Work(Step(s, Label(i, false)).calls) < Work(s.calls)
  {
    var l := Label(i, false);
    AloneCanStep(base, s, i);
    assert Inv(base, Step(s, l)) by {
      StepKeepsInv(base, s, l);
    }
    assert OnWay(t, uid, wid, Step(s, l), i) by {
      AloneKeepsWay(base, t, uid, wid, s, i);
    }
    OthersStay(s, i);
    StepDescends(s, l);
  }

  ghost predicate AloneEnd(t: Tables, uid: int, wid: int, s: State, i: nat, req: Request) {
    && i < |s.calls| && s.calls[i].req == req && s.calls[i].pc.Finished?
    && OnWay(t, uid, wid, s, i)
  }

  // A run of request i alone, without a fault.
  ghost predicate Solo(run: seq<Label>, i: nat) {
    forall k :: 0 <= k < |run| ==> run[k] == Label(i, false)
  }

  lemma SoloCons(s: State, i: nat, tail: seq<Label>)
    requires CanStep(s, Label(i, false)) && IsRun(Step(s, Label(i, false)), tail) && Solo(tail, i)
    requires SameOthers(Step(s, Label(i, false)), After(Step(s, Label(i, false)), tail), i)
    ensures var run := [Label(i, false)] + tail;
            && IsRun(s, run) && After(s, run) == After(Step(s, Label(i, false)), tail)
            && Solo(run, i) && SameOthers(s, After(s, run), i)
  {
    RunCons(s, Label(i, false), tail);
  }

  lemma {:induction false} AloneFinishes(base: Tables, t: Tables, uid: int, wid: int, s: State, i: nat, req: Request)
    returns (run: seq<Label>)
    requires AloneState(base, t, uid, wid, s, i, req)
    requires uid <= MAX_BIGINT && wid <= MAX_BIGINT
    ensures IsRun(s, run) && AloneEnd(t, uid, wid, After(s, run), i, req)
    ensures Solo(run, i) && SameOthers(s, After(s, run), i)
    decreases Work(s.calls)
  {
    run := [];
    if !s.calls[i].pc.Finished? {
      AloneAdvance(base, t, uid, wid, s, i, req);
      var next := Step(s, Label(i, false));
      var tail := AloneFinishes(base, t, uid, wid, next, i, req);
      run := [Label(i, false)] + tail;
      SoloCons(s, i, tail);
    }
  }

  // From any reachable state in which the others hold no row, a request that
  // starts and runs with nothing in between and without a fault ends with the
  // serial reply and leaves the serial tables.
  lemma AloneIsSerial(base: Tables, s: State, i: nat) returns (run: seq<Label>)
    requires Inv(base, s) && i < |s.calls| && s.calls[i].pc.Start? && OthersHoldNothing(s, i)
    requires s.nextUser <= MAX_BIGINT && s.nextWallet <= MAX_BIGINT
    ensures IsRun(s, run) && Solo(run, i)
    ensures var served := Serial(s.db, s.calls[i].req, s.nextUser, s.nextWallet);
            && After(s, run).db == served.after && SameOthers(s, After(s, run), i)
            && After(s, run).calls[i].reply == Some(served.reply)
  {
    assert CallOk(base, s, s.calls[i]);
    run := AloneFinishes(base, s.db, s.nextUser, s.nextWallet, s, i, s.calls[i].req);
  }

  // Requests that have not started or are answered hold nothing.
  lemma IdleHoldsNothing(base: Tables, s: State, i: nat)
    requires Inv(base, s) && forall j :: 0 <= j < |s.calls| && j != i ==>
             s.calls[j].pc.Start? || s.calls[j].pc.Finished?
    ensures OthersHoldNothing(s, i)
  {
    forall j | 0 <= j < |s.calls| && j != i ensures s.calls[j].writes == EMPTY_TABLES {
      assert CallOk(base, s, s.calls[j]);
    }
  }

  // So a CreateWallet for a user that came without a wallet can succeed.
  lemma OrphanCanGetWallet(base: Tables, s0: State, i: nat) returns (run: seq<Label>)
    requires Init(base, s0) && i < |s0.calls| && s0.calls[i].req.CreateWallet?
    requires Orphan(base, s0.calls[i].req.userId)
    requires s0.nextUser <= MAX_BIGINT && s0.nextWallet <= MAX_BIGINT
    ensures IsRun(s0, run) && i < |After(s0, run).calls|
    ensures After(s0, run).calls[i].reply == Some(WalletCreated(s0.calls[i].req.userId, 0))
  {
    InitEstablishesInv(base, s0);
    IdleHoldsNothing(base, s0, i);
    assert s0.calls[i] == NewCall(s0.calls[i].req);
    run := AloneIsSerial(base, s0, i);
  }
}
