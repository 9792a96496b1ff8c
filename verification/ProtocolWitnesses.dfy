/**
 Runs in which the code does less than the atomic operations: a race lost with
 the driver's error, a waiting request that holds a row, a wrong balance.
 */
module ProtocolWitnesses {
  import opened Options
  import opened Store
  import opened Protocol
  import opened ProtocolInvariant
  import opened ProtocolSafety
  import opened ProtocolAlone

  // ---- Building runs ----

  // Request i can move, without a fault, from s to s'.
  ghost predicate Moves(s: State, i: nat, s': State) {
    CanStep(s, Label(i, false)) && Step(s, Label(i, false)) == s'
  }

  ghost predicate NoFaults(run: seq<Label>) {
    forall k :: 0 <= k < |run| ==> !run[k].fault
  }

  ghost predicate Leads(s0: State, run: seq<Label>, s: State) {
    IsRun(s0, run) && After(s0, run) == s && NoFaults(run)
  }

  lemma Extended(s0: State, run: seq<Label>, s: State, i: nat, s': State) returns (run': seq<Label>)
    requires Leads(s0, run, s) && Moves(s, i, s')
    ensures Leads(s0, run', s')
  {
    assert [Label(i, false)][1..] == [] && After(s, [Label(i, false)]) == After(s', []);
    run' := ExtendedBy(s0, run, s, [Label(i, false)]);
  }

  lemma NotBlocked(s: State, i: nat)
    requires i < |s.calls| && !s.calls[i].pc.Finished?
    requires s.calls[i].pc.PutUser? ==> forall j :: 0 <= j < |s.calls| && j != i ==> s.calls[j].writes.users == []
    requires s.calls[i].pc.PutWallet? ==> forall j :: 0 <= j < |s.calls| && j != i ==> s.calls[j].writes.wallets == []
    ensures CanStep(s, Label(i, false))
  {
    forall j: nat | j < |s.calls| ensures !WaitsFor(s, i, j) {
    }
  }

  // ---- The steps of a writing request ----

  function Begun(s: State, i: nat): State
    requires i < |s.calls|
  {
    s.(txSeq := (s.txSeq + 1) % TWO_64, begun := s.begun + 1,
       calls := s.calls[i := s.calls[i].(pc := Check, order := Some(s.begun + 1), txId := (s.txSeq + 1) % TWO_64)])
  }

  function At(s: State, i: nat, pc: Pc): State
    requires i < |s.calls|
  {
    s.(calls := s.calls[i := s.calls[i].(pc := pc)])
  }

  // BEGIN and a look that finds nothing.
  function Checked(s: State, i: nat): State
    requires i < |s.calls|
  {
    At(Begun(s, i), i, if s.calls[i].req.CreateUser? then DrawUser else DrawWallet)
  }

  lemma Checks(s0: State, run: seq<Label>, s: State, i: nat) returns (run': seq<Label>)
    requires Leads(s0, run, s) && i < |s.calls| && s.calls[i] == NewCall(s.calls[i].req)
    requires PassesCheck(s.db, s.calls[i].(pc := Check))
    ensures Leads(s0, run', Checked(s, i))
  {
    NotBlocked(s, i);
    run' := Extended(s0, run, s, i, Begun(s, i));
    NotBlocked(Begun(s, i), i);
    NoRowsYet(s.db, Begun(s, i).calls[i]);
    assert Checked(s, i).calls == Begun(s, i).calls[i := Checked(s, i).calls[i]];
    run' := Extended(s0, run', Begun(s, i), i, Checked(s, i));
  }

  function DrewUser(s: State, i: nat): State
    requires i < |s.calls|
  {
    s.(nextUser := s.nextUser + 1, calls := s.calls[i := s.calls[i].(pc := PutUser, uid := Some(s.nextUser))])
  }

  function DrewWallet(s: State, i: nat): State
    requires i < |s.calls|
  {
    s.(nextWallet := s.nextWallet + 1, calls := s.calls[i := s.calls[i].(pc := PutWallet, wid := Some(s.nextWallet))])
  }

  lemma Draws(s: State, i: nat)
    requires i < |s.calls|
    ensures s.calls[i].pc.DrawUser? && s.nextUser <= MAX_BIGINT ==> Moves(s, i, DrewUser(s, i))
    ensures s.calls[i].pc.DrawWallet? && s.nextWallet <= MAX_BIGINT ==> Moves(s, i, DrewWallet(s, i))
  {
    if s.calls[i].pc.DrawUser? || s.calls[i].pc.DrawWallet? {
      NotBlocked(s, i);
    }
  }

  // The transaction of request i with one more row.
  function WithUserRow(s: State, i: nat): State
    requires i < |s.calls|
  {
    var c := s.calls[i];
    s.(calls := s.calls[i := c.(pc := DrawWallet, writes := c.writes.(users := c.writes.users + [UserRow(c)]))])
  }

  function WithWalletRow(s: State, i: nat): State
    requires i < |s.calls|
  {
    var c := s.calls[i];
    s.(calls := s.calls[i := c.(pc := RefCheck, writes := c.writes.(wallets := c.writes.wallets + [WalletRow(c)]))])
  }

  lemma Inserts(s: State, i: nat)
    requires i < |s.calls| && s.calls[i].writes.wallets == []
    ensures s.calls[i].pc.PutUser? && s.calls[i].writes.users == [] && !UserClash(s.db.users, UserRow(s.calls[i]))
            && (forall j :: 0 <= j < |s.calls| && j != i ==> s.calls[j].writes.users == []) ==>
              Moves(s, i, WithUserRow(s, i))
    ensures s.calls[i].pc.PutWallet? && !WalletClash(s.db.wallets, WalletRow(s.calls[i]))
            && (forall j :: 0 <= j < |s.calls| && j != i ==> s.calls[j].writes.wallets == []) ==>
              Moves(s, i, WithWalletRow(s, i))
  {
    NoRowsYet(s.db, s.calls[i]);
    if s.calls[i].pc.PutUser? && forall j :: 0 <= j < |s.calls| && j != i ==> s.calls[j].writes.users == [] {
      NotBlocked(s, i);
    }
    if s.calls[i].pc.PutWallet? && forall j :: 0 <= j < |s.calls| && j != i ==> s.calls[j].writes.wallets == [] {
      NotBlocked(s, i);
    }
  }

  // ---- A race lost with the driver's error ----

  // The end of request j, past its check, when its email has been committed by
  // another: its insert is refused and it rolls back.
  lemma LosesRace(s0: State, run: seq<Label>, s: State, j: nat) returns (run': seq<Label>, s': State)
    requires Leads(s0, run, s) && j < |s.calls| && s.calls[j].req.CreateUser? && s.calls[j].pc.DrawUser?
    requires s.calls[j].writes == EMPTY_TABLES && OthersHoldNothing(s, j) && s.nextUser <= MAX_BIGINT
    requires HasEmail(s.db.users, s.calls[j].req.email)
    ensures Leads(s0, run', s') && s'.db == s.db && SameOthers(s, s', j)
    ensures s'.calls[j].pc.Finished? && s'.calls[j].reply == Some(Failed(DatabaseError))
            && s'.calls[j].req == s.calls[j].req
  {
    Draws(s, j);
    var s1 := DrewUser(s, j);
    run' := Extended(s0, run, s, j, s1);
    NotBlocked(s1, j);
    NoRowsYet(s1.db, s1.calls[j]);
    var s2 := s1.(calls := s1.calls[j := Abort(s1.calls[j], DatabaseError, false)]);
    run' := Extended(s0, run', s1, j, s2);
    NotBlocked(s2, j);
    s' := s2.(calls := s2.calls[j := Finish(s2.calls[j], Failed(DatabaseError), false)]);
    run' := Extended(s0, run', s2, j, s');
  }

  lemma BothCheck(base: Tables, s0: State, i: nat, j: nat) returns (run: seq<Label>)
    requires Init(base, s0) && i < |s0.calls| && j < |s0.calls| && i != j
    requires PassesCheck(base, s0.calls[i].(pc := Check)) && PassesCheck(base, s0.calls[j].(pc := Check))
    ensures Leads(s0, run, Checked(Checked(s0, i), j))
    ensures OthersHoldNothing(Checked(Checked(s0, i), j), i) && OthersHoldNothing(Checked(Checked(s0, i), j), j)
  {
    run := Checks(s0, [], s0, i);
    run := Checks(s0, run, Checked(s0, i), j);
  }

  // The end of request i, past its check, with nobody in its way.
  lemma WinsRace(base: Tables, s0: State, run: seq<Label>, s: State, i: nat) returns (run': seq<Label>, t: State)
    requires Init(base, s0) && Leads(s0, run, s) && i < |s.calls| && OthersHoldNothing(s, i)
    requires s.calls[i].req.CreateUser? && !HasEmail(base.users, s.calls[i].req.email)
    requires OnWay(base, s0.nextUser, s0.nextWallet, s, i)
    requires s0.nextUser < MAX_BIGINT && s0.nextWallet <= MAX_BIGINT
    ensures Leads(s0, run', t) && SameOthers(s, t, i) && t.nextUser <= MAX_BIGINT
            && HasEmail(t.db.users, s.calls[i].req.email)
    ensures t.calls[i].reply.Some? && t.calls[i].reply.value.UserCreated? && t.calls[i].writes == EMPTY_TABLES
  {
    var uid, wid, req := s0.nextUser, s0.nextWallet, s.calls[i].req;
    Reachable(base, s0, run);
    var more := AloneFinishes(base, base, uid, wid, s, i, req);
    t := After(s, more);
    run' := ExtendedBy(s0, run, s, more);
    RunKeepsInv(base, s, more);
    FreshUserIsServed(base, s0, req);
    ServedUser(base, s0, t, i, req);
  }

  lemma ExtendedBy(s0: State, run: seq<Label>, s: State, more: seq<Label>) returns (run': seq<Label>)
    requires Leads(s0, run, s) && IsRun(s, more) && NoFaults(more)
    ensures Leads(s0, run', After(s, more))
  {
    RunAppend(s0, run, more);
    run' := run + more;
  }

  lemma ServedUser(base: Tables, s0: State, t: State, i: nat, req: Request)
    requires Inv(base, t) && AloneEnd(base, s0.nextUser, s0.nextWallet, t, i, req) && req.CreateUser?
    requires Serial(base, req, s0.nextUser, s0.nextWallet).reply.Commits()
    ensures t.calls[i].reply.Some? && t.calls[i].reply.value.UserCreated? && t.calls[i].writes == EMPTY_TABLES
    ensures HasEmail(t.db.users, req.email)
  {
    assert CallOk(base, t, t.calls[i]);
    assert User(s0.nextUser, req.name, req.email) in t.db.users;
  }

  // Any two CreateUsers of one new email can both pass their check; the one
  // that inserts second is then answered with the driver's error, where the
  // atomic operation, whatever ids it draws, answers "already exists".
  lemma RaceIsReachable(base: Tables, s0: State, i: nat, j: nat) returns (run: seq<Label>)
    requires Init(base, s0) && i < |s0.calls| && j < |s0.calls| && i != j
    requires s0.calls[i].req.CreateUser? && s0.calls[j].req.CreateUser?
             && s0.calls[i].req.email == s0.calls[j].req.email
    requires !HasEmail(base.users, s0.calls[i].req.email)
    requires s0.nextUser < MAX_BIGINT && s0.nextWallet <= MAX_BIGINT
    ensures IsRun(s0, run) && NoFaults(run)
    ensures var s := After(s0, run);
            && |s.calls| == |s0.calls| && s.calls[i].reply.Some? && s.calls[i].reply.value.UserCreated?
            && s.calls[j].reply == Some(Failed(DatabaseError))
            && forall uid, wid :: Serial(s.db, s0.calls[j].req, uid, wid).reply == Failed(UserAlreadyExists)
  {
    run := BothCheck(base, s0, i, j);
    var s := Checked(Checked(s0, i), j);
    assert OnWay(base, s0.nextUser, s0.nextWallet, s, i);
    var t, end;
    run, t := WinsRace(base, s0, run, s, i);
    run, end := LosesRace(s0, run, t, j);
  }

  // Ids above every stored one clash with nothing.
  lemma FreshUserIsServed(base: Tables, s0: State, req: Request)
    requires Init(base, s0) && req.CreateUser? && !HasEmail(base.users, req.email)
    ensures Serial(base, req, s0.nextUser, s0.nextWallet)
            == Served(UserCreated(s0.nextUser, req.name, req.email),
                      Tables(base.users + [User(s0.nextUser, req.name, req.email)],
                             base.wallets + [Wallet(s0.nextWallet, s0.nextUser, 0)]))
  {
    NoWalletYet(base, s0);
  }

  lemma NoWalletYet(base: Tables, s0: State)
    requires Init(base, s0)
    ensures !HasUser(base.users, s0.nextUser) && !HasWalletFor(base.wallets, s0.nextUser)
  {
    forall w | w in base.wallets ensures w.userId != s0.nextUser {
      assert HasUser(base.users, w.userId);
    }
  }

  // ---- A waiting request that holds a row ----

  // A CreateUser with its user row in and its wallet id drawn.
  function HoldsUser(s: State, i: nat): State
    requires i < |s.calls|
  {
    DrewWallet(WithUserRow(DrewUser(s, i), i), i)
  }

  lemma PutsUser(s0: State, run: seq<Label>, s: State, i: nat) returns (run': seq<Label>)
    requires Leads(s0, run, s) && i < |s.calls| && OthersHoldNothing(s, i)
    requires s.calls[i].pc.DrawUser? && s.calls[i].writes == EMPTY_TABLES
    requires s.nextUser <= MAX_BIGINT && s.nextWallet <= MAX_BIGINT
    requires !UserClash(s.db.users, UserRow(s.calls[i].(uid := Some(s.nextUser))))
    ensures Leads(s0, run', HoldsUser(s, i))
  {
    var s1 := DrewUser(s, i);
    var s2 := WithUserRow(s1, i);
    Draws(s, i);
    run' := Extended(s0, run, s, i, s1);
    assert UserRow(s1.calls[i]) == UserRow(s.calls[i].(uid := Some(s.nextUser)));
    Inserts(s1, i);
    run' := Extended(s0, run', s1, i, s2);
    Draws(s2, i);
    run' := Extended(s0, run', s2, i, HoldsUser(s, i));
  }

  lemma PutsWallet(s0: State, run: seq<Label>, s: State, j: nat) returns (run': seq<Label>)
    requires Leads(s0, run, s) && j < |s.calls| && s.calls[j].pc.DrawWallet? && s.calls[j].writes == EMPTY_TABLES
    requires s.nextWallet <= MAX_BIGINT
    requires forall k :: 0 <= k < |s.calls| && k != j ==> s.calls[k].writes.wallets == []
    requires !WalletClash(s.db.wallets, WalletRow(s.calls[j].(wid := Some(s.nextWallet))))
    ensures Leads(s0, run', WithWalletRow(DrewWallet(s, j), j))
  {
    var s1 := DrewWallet(s, j);
    Draws(s, j);
    run' := Extended(s0, run, s, j, s1);
    assert WalletRow(s1.calls[j]) == WalletRow(s.calls[j].(wid := Some(s.nextWallet)));
    Inserts(s1, j);
    run' := Extended(s0, run', s1, j, WithWalletRow(s1, j));
  }

  // A CreateWallet that guesses the id of a user about to be created enters its
  // wallet key first: the CreateUser then waits, holding its user row.
  lemma WaiterCanHoldARow(base: Tables, s0: State, i: nat, j: nat) returns (run: seq<Label>)
    requires Init(base, s0) && i < |s0.calls| && j < |s0.calls| && i != j
    requires s0.calls[i].req.CreateUser? && !HasEmail(base.users, s0.calls[i].req.email)
    requires s0.calls[j].req == CreateWallet(s0.nextUser)
    requires s0.nextUser <= MAX_BIGINT && s0.nextWallet < MAX_BIGINT
    ensures IsRun(s0, run) && NoFaults(run)
    ensures WaitsFor(After(s0, run), i, j) && After(s0, run).calls[i].writes.users != []
  {
    NoWalletYet(base, s0);
    run := BothCheck(base, s0, i, j);
    var s := Checked(Checked(s0, i), j);
    run := PutsUser(s0, run, s, i);
    run := PutsWallet(s0, run, HoldsUser(s, i), j);
  }

  // ---- A commit whose acknowledgement is lost ----

  // A CreateUser with both rows in and checked, about to commit.
  function ReadyToCommit(s: State, i: nat): State
    requires i < |s.calls|
  {
    At(WithWalletRow(HoldsUser(s, i), i), i, Commit)
  }

  lemma GetsReady(s0: State, run: seq<Label>, s: State, i: nat) returns (run': seq<Label>)
    requires i < |s.calls| && s.calls[i].req.CreateUser? && s.calls[i].writes == EMPTY_TABLES
             && OthersHoldNothing(s, i)
    requires Leads(s0, run, HoldsUser(s, i))
    requires !WalletClash(s.db.wallets, WalletRow(HoldsUser(s, i).calls[i]))
    ensures Leads(s0, run', ReadyToCommit(s, i))
  {
    var s1 := HoldsUser(s, i);
    var s2 := WithWalletRow(s1, i);
    Inserts(s1, i);
    run' := Extended(s0, run, s1, i, s2);
    assert UserRow(s2.calls[i]) in s2.calls[i].writes.users;
    assert UserRow(s2.calls[i]) in Visible(s2.db, s2.calls[i]).users;
    NotBlocked(s2, i);
    run' := Extended(s0, run', s2, i, ReadyToCommit(s, i));
  }

  // Any CreateUser of a new email can be answered with an error and its user be
  // committed all the same.
  lemma LostCommitIsReachable(base: Tables, s0: State, i: nat) returns (run: seq<Label>)
    requires Init(base, s0) && i < |s0.calls| && s0.calls[i].req.CreateUser?
    requires !HasEmail(base.users, s0.calls[i].req.email)
    requires s0.nextUser <= MAX_BIGINT && s0.nextWallet <= MAX_BIGINT
    ensures IsRun(s0, run) && i < |After(s0, run).calls|
    ensures var s := After(s0, run);
            && s.calls[i].lost && s.calls[i].reply == Some(Failed(DatabaseError))
            && s.db == Tables(base.users + [User(s0.nextUser, s0.calls[i].req.name, s0.calls[i].req.email)],
                              base.wallets + [Wallet(s0.nextWallet, s0.nextUser, 0)])
  {
    NoWalletYet(base, s0);
    run := Checks(s0, [], s0, i);
    run := PutsUser(s0, run, Checked(s0, i), i);
    run := GetsReady(s0, run, Checked(s0, i), i);
    ReadyRows(s0, i);
    LosesAck(ReadyToCommit(Checked(s0, i), i), i);
    RunAppend(s0, run, [Label(i, true, true)]);
    run := run + [Label(i, true, true)];
  }

  lemma ReadyRows(s0: State, i: nat)
    requires i < |s0.calls| && s0.calls[i] == NewCall(s0.calls[i].req) && s0.calls[i].req.CreateUser?
    ensures var s, req := ReadyToCommit(Checked(s0, i), i), s0.calls[i].req;
            && s.db == s0.db && s.calls[i].pc.Commit?
            && s.calls[i].writes
               == Tables([User(s0.nextUser, req.name, req.email)], [Wallet(s0.nextWallet, s0.nextUser, 0)])
  {
  }

  lemma LosesAck(s: State, i: nat)
    requires i < |s.calls| && s.calls[i].pc.Commit?
    ensures var last := [Label(i, true, true)];
            && IsRun(s, last) && After(s, last).db == Append(s.db, s.calls[i].writes) && i < |After(s, last).calls|
            && After(s, last).calls[i].lost && After(s, last).calls[i].reply == Some(Failed(DatabaseError))
  {
    RunCons(s, Label(i, true, true), []);
  }

  // ---- A balance answered wrong ----

  // For every user stored with a balance other than zero, a GetUser whose
  // balance read fails answers zero all the same.
  lemma WrongBalanceIsReachable(base: Tables, s0: State, i: nat) returns (run: seq<Label>)
    requires Init(base, s0) && i < |s0.calls| && s0.calls[i].req.GetUser? && HasUser(base.users, s0.calls[i].req.id)
    requires BalanceOf(base.wallets, s0.calls[i].req.id) != 0
    ensures IsRun(s0, run) && i < |After(s0, run).calls|
    ensures var reply, alone := After(s0, run).calls[i].reply, Serial(base, s0.calls[i].req, 0, 0).reply;
            alone.UserFound? && alone.walletBalance != 0 && reply == Some(alone.(walletBalance := 0))
  {
    var c, u := s0.calls[i], FindUser(base.users, s0.calls[i].req.id);
    assert c == NewCall(c.req);
    NotBlocked(s0, i);
    var s1 := s0.(calls := s0.calls[i := c.(pc := ReadWallet, found := Some(u))]);
    run := Extended(s0, [], s0, i, s1);
    RunCons(s1, Label(i, true), []);
    RunAppend(s0, run, [Label(i, true)]);
    run := run + [Label(i, true)];
  }

  const RICH := Tables([User(1, "ann", "a@example.com")], [Wallet(1, 1, 5)])

  lemma RichUserAnsweredZero() returns (s0: State, run: seq<Label>)
    ensures Init(RICH, s0) && IsRun(s0, run) && |After(s0, run).calls| == 1
    ensures After(s0, run).calls[0].reply == Some(UserFound(1, "ann", "a@example.com", 0))
    ensures Serial(RICH, GetUser(1), 0, 0).reply == UserFound(1, "ann", "a@example.com", 5)
  {
    s0 := State(RICH, 2, 2, 0, 0, [NewCall(GetUser(1))], []);
    assert RICH.users[0] in RICH.users && RICH.wallets[0] in RICH.wallets;
    run := WrongBalanceIsReachable(RICH, s0, 0);
    RunGrows(s0, run);
  }
}
