/**
 What any interleaving of any number of requests guarantees: the tables match
 one to one, committed history is serial, reads are atomic, acknowledged users
 stay, failed requests leave nothing, transaction ids are distinct.
 */
module ProtocolSafety {
  import opened Options
  import opened Store
  import opened Protocol
  import opened ProtocolInvariant

  lemma Reachable(base: Tables, s0: State, run: seq<Label>)
    requires Init(base, s0) && IsRun(s0, run)
    ensures Inv(base, After(s0, run))
  {
    InitEstablishesInv(base, s0);
    RunKeepsInv(base, s0, run);
  }

  lemma StepGrows(s: State, l: Label)
    requires CanStep(s, l)
    ensures s.log <= Step(s, l).log
    ensures s.db.users <= Step(s, l).db.users && s.db.wallets <= Step(s, l).db.wallets
    ensures |Step(s, l).calls| == |s.calls|
    ensures forall i :: 0 <= i < |s.calls| ==> Step(s, l).calls[i].req == s.calls[i].req
    ensures forall i :: 0 <= i < |s.calls| && s.calls[i].pc.Finished? ==> Step(s, l).calls[i] == s.calls[i]
  {
  }

  // Tables and history only grow; a finished request never changes again.
  lemma {:induction false} RunGrows(s: State, run: seq<Label>)
    requires IsRun(s, run)
    ensures s.log <= After(s, run).log
    ensures s.db.users <= After(s, run).db.users && s.db.wallets <= After(s, run).db.wallets
    ensures |After(s, run).calls| == |s.calls|
    ensures forall i :: 0 <= i < |s.calls| ==> After(s, run).calls[i].req == s.calls[i].req
    ensures forall i :: 0 <= i < |s.calls| && s.calls[i].pc.Finished? ==> After(s, run).calls[i] == s.calls[i]
    decreases |run|
  {
    if run != [] {
      StepGrows(s, run[0]);
      RunGrows(Step(s, run[0]), run[1..]);
    }
  }

  // ---- One user, one wallet ----

  ghost predicate Paired(t: Tables) {
    && |t.users| == |t.wallets|
    && forall k :: 0 <= k < |t.users| ==> t.wallets[k].userId == t.users[k].id && t.wallets[k].balance == 0
  }

  lemma {:induction false} ReplayOfCreatesIsPaired(base: Tables, log: seq<Entry>)
    requires Paired(base) && Replay(base, log).Some?
    requires forall k :: 0 <= k < |log| ==> log[k].reply.UserCreated?
    ensures Paired(Replay(base, log).value)
  {
    if log != [] {
      ReplayOfCreatesIsPaired(base, log[..|log| - 1]);
    }
  }

  // From empty tables, whatever interleaves and whatever fails: keys are
  // unique, and the k-th wallet is the k-th user's, with balance zero.
  lemma UsersAndWalletsMatch(s0: State, run: seq<Label>)
    requires Init(EMPTY_TABLES, s0) && IsRun(s0, run)
    ensures ConstraintsHold(After(s0, run).db)
    ensures Paired(After(s0, run).db)
    ensures forall u :: u in After(s0, run).db.users ==> HasWalletFor(After(s0, run).db.wallets, u.id)
  {
    var s := After(s0, run);
    Reachable(EMPTY_TABLES, s0, run);
    forall k | 0 <= k < |s.log| ensures s.log[k].reply.UserCreated? {
      assert EntryOk(s, s.log[k]);
      assert CallOk(EMPTY_TABLES, s, s.calls[s.log[k].call]);
    }
    ReplayOfCreatesIsPaired(EMPTY_TABLES, s.log);
    forall u | u in s.db.users ensures HasWalletFor(s.db.wallets, u.id) {
      assert !Orphan(EMPTY_TABLES, u.id);
      assert !Orphan(s.db, u.id);
    }
  }

  // ---- Serial history ----

  // The history is of the requests whose rows are committed, each of them once,
  // with the reply its client was given unless the acknowledgement was lost.
  lemma HistoryIsAnswered(base: Tables, s: State)
    requires Inv(base, s)
    ensures forall k :: 0 <= k < |s.log| ==>
              && s.log[k].call < |s.calls| && s.log[k].req == s.calls[s.log[k].call].req
              && var c := s.calls[s.log[k].call];
                 c.reply == Some(if c.lost then Failed(DatabaseError) else s.log[k].reply)
    ensures forall i :: 0 <= i < |s.calls| && Landed(s.calls[i]) ==> exists k :: 0 <= k < |s.log| && s.log[k].call == i
  {
    forall k | 0 <= k < |s.log|
      ensures s.log[k].call < |s.calls| && s.log[k].req == s.calls[s.log[k].call].req
      ensures var c := s.calls[s.log[k].call];
              c.reply == Some(if c.lost then Failed(DatabaseError) else s.log[k].reply)
    {
      assert EntryOk(s, s.log[k]);
      assert CallOk(base, s, s.calls[s.log[k].call]);
    }
    forall i | 0 <= i < |s.calls| && Landed(s.calls[i]) ensures exists k :: 0 <= k < |s.log| && s.log[k].call == i {
      assert CommitEntry(i, s.calls[i]) in s.log;
    }
  }

  // The committed tables are the replies' own operations, applied one after
  // the other in commit order, and the history holds each success exactly once.
  lemma RunsAreSerial(base: Tables, s0: State, run: seq<Label>)
    requires Init(base, s0) && IsRun(s0, run)
    ensures var s := After(s0, run);
            && Replay(base, s.log) == Some(s.db)
            && (forall k :: 0 <= k < |s.log| ==>
                  s.log[k].call < |s0.calls| == |s.calls| && s.log[k].req == s0.calls[s.log[k].call].req
                  && var c := s.calls[s.log[k].call];
                     c.reply == Some(if c.lost then Failed(DatabaseError) else s.log[k].reply))
            && (forall k, m :: 0 <= k < m < |s.log| ==> s.log[k].call != s.log[m].call)
            && (forall i :: 0 <= i < |s.calls| && Landed(s.calls[i]) ==>
                  exists k :: 0 <= k < |s.log| && s.log[k].call == i)
  {
    Reachable(base, s0, run);
    HistoryIsAnswered(base, After(s0, run));
    RunGrows(s0, run);
  }

  // Of the history at t, what was finished at an earlier s comes from before s,
  // and what had not started at s comes from after it.
  lemma HistoryIsSplit(base: Tables, s: State, t: State, k: nat)
    requires Inv(base, s) && Inv(base, t) && s.log <= t.log && k < |t.log| && t.log[k].call < |s.calls| <= |t.calls|
    requires forall i :: 0 <= i < |s.calls| && s.calls[i].pc.Finished? ==> t.calls[i] == s.calls[i]
    ensures s.calls[t.log[k].call].pc.Finished? ==> k < |s.log|
    ensures s.calls[t.log[k].call].pc.Start? ==> |s.log| <= k
  {
    var i := t.log[k].call;
    assert EntryOk(t, t.log[k]);
    if s.calls[i].pc.Finished? {
      var n :| 0 <= n < |s.log| && s.log[n] == CommitEntry(i, s.calls[i]);
      assert t.log[n].call == i;
    }
    if k < |s.log| {
      assert EntryOk(s, s.log[k]);
    }
  }

  // The serial order respects real time: a success that was answered before
  // another request started stands before it.
  lemma SerialOrderIsRealTime(base: Tables, s0: State, before: seq<Label>, after: seq<Label>, k: nat, m: nat)
    requires Init(base, s0) && IsRun(s0, before) && IsRun(After(s0, before), after)
    requires var s, t := After(s0, before), After(After(s0, before), after);
             && k < |t.log| && m < |t.log|
             && t.log[k].call < |s.calls| && s.calls[t.log[k].call].pc.Finished?
             && t.log[m].call < |s.calls| && s.calls[t.log[m].call].pc.Start?
    ensures k < m
  {
    var s, t := After(s0, before), After(After(s0, before), after);
    Reachable(base, s0, before);
    RunKeepsInv(base, s, after);
    RunGrows(s, after);
    HistoryIsSplit(base, s, t, k);
    HistoryIsSplit(base, s, t, m);
  }

  // ---- Reads ----

  // Step k is the one that answers i, and the reply is what the request done
  // atomically at that step would answer.
  ghost predicate AtomicAt(s0: State, run: seq<Label>, i: nat, reply: Reply, k: nat) {
    && k < |run| && run[k].call == i
    && IsRun(s0, run[..k])
    && var s := After(s0, run[..k]);
       && CanStep(s, run[k]) && Step(s, run[k]).calls[i].pc.Finished?
       && reply == Serial(s.db, s.calls[i].req, 0, 0).reply
  }

  lemma ReadStepIsAtomic(base: Tables, s: State, l: Label)
    requires Inv(base, s) && CanStep(s, l) && !l.fault
    requires !s.calls[l.call].req.Writes() && Step(s, l).calls[l.call].pc.Finished?
    ensures Step(s, l).calls[l.call].reply == Some(Serial(s.db, s.calls[l.call].req, 0, 0).reply)
  {
    var c := s.calls[l.call];
    assert CallOk(base, s, c);
    if c.pc.ReadWallet? {
      FindUserUnique(s.db.users, c.found.value);
    }
  }

  lemma AtomicAtExtends(s0: State, run: seq<Label>, n: nat, i: nat, reply: Reply, k: nat)
    requires n <= |run| && AtomicAt(s0, run[..n], i, reply, k)
    ensures AtomicAt(s0, run, i, reply, k)
  {
    assert run[..n][..k] == run[..k];
  }

  // GetUser reads two tables in two statements with no transaction, yet every
  // answer it gives without a failed read is the answer of one atomic read of
  // both, done at its last step, which is step k.
  lemma {:induction false} ReadsAreAtomic(base: Tables, s0: State, run: seq<Label>, i: nat) returns (k: nat)
    requires Init(base, s0) && IsRun(s0, run) && i < |s0.calls| && !s0.calls[i].req.Writes()
    requires i < |After(s0, run).calls| && After(s0, run).calls[i].pc.Finished?
    requires !After(s0, run).calls[i].faulted
    ensures After(s0, run).calls[i].reply.Some?
    ensures AtomicAt(s0, run, i, After(s0, run).calls[i].reply.value, k)
    decreases |run|
  {
    assert run != [];
    var n := |run| - 1;
    SplitLast(s0, run);
    var s := After(s0, run[..n]);
    Reachable(base, s0, run[..n]);
    RunGrows(s0, run[..n]);
    if run[n].call == i {
      ReadStepIsAtomic(base, s, run[n]);
      k := n;
    } else {
      k := ReadsAreAtomic(base, s0, run[..n], i);
      AtomicAtExtends(s0, run, n, i, s.calls[i].reply.value, k);
    }
  }

  // Dropping the error of the balance read is harmless exactly when the stored
  // balance is zero, as it is for every wallet these requests create.
  lemma DroppedReadError(base: Tables, s: State, i: nat)
    requires Inv(base, s) && i < |s.calls| && s.calls[i].pc.ReadWallet?
    ensures CanStep(s, Label(i, true))
    ensures Step(s, Label(i, true)).calls[i].reply == Some(Serial(s.db, s.calls[i].req, 0, 0).reply)
            <==> BalanceOf(s.db.wallets, s.calls[i].req.id) == 0
    ensures base.wallets == [] ==> BalanceOf(s.db.wallets, s.calls[i].req.id) == 0
  {
    var c := s.calls[i];
    assert CallOk(base, s, c);
    FindUserUnique(s.db.users, c.found.value);
  }

  // A first read that fails is answered "not found": that is the answer of the
  // atomic read exactly when the row is absent.
  lemma FailedFirstRead(s: State, i: nat)
    requires i < |s.calls| && s.calls[i].pc.Start? && !s.calls[i].req.Writes()
    ensures CanStep(s, Label(i, true))
    ensures var c, c' := s.calls[i], Step(s, Label(i, true)).calls[i];
            && c'.pc.Finished?
            && c'.reply == Some(Failed(if c.req.GetUser? then UserNotFound else WalletNotFound))
            && (c'.reply == Some(Serial(s.db, c.req, 0, 0).reply)
                <==> if c.req.GetUser? then !HasUser(s.db.users, c.req.id)
                     else !HasWalletFor(s.db.wallets, c.req.owner))
  {
  }

  // ---- Durability ----

  // Where a later GetUser for a committed user stands.
  ghost predicate OnTrack(s: State, j: nat, user: User, wallet: Wallet) {
    && user in s.db.users && wallet in s.db.wallets
    && wallet.userId == user.id && wallet.balance == 0
    && j < |s.calls| && s.calls[j].req == GetUser(user.id)
    && var c := s.calls[j];
       || c.pc.Start?
       || (c.pc.ReadWallet? && c.found == Some(user))
       || (c.pc.Finished? && c.reply == Some(UserFound(user.id, user.name, user.email, 0)))
       || (c.pc.Finished? && c.faulted && c.reply == Some(Failed(UserNotFound)))
  }

  lemma StepKeepsOnTrack(base: Tables, s: State, l: Label, j: nat, user: User, wallet: Wallet)
    requires Inv(base, s) && CanStep(s, l) && OnTrack(s, j, user, wallet)
    ensures OnTrack(Step(s, l), j, user, wallet)
  {
    StepGrows(s, l);
    FindUserUnique(s.db.users, user);
    FindWalletUnique(s.db.wallets, wallet);
    AppendedRows(s.db.users, Step(s, l).db.users, s.db.wallets, Step(s, l).db.wallets);
  }

  lemma {:induction false} RunKeepsOnTrack(base: Tables, s: State, run: seq<Label>, j: nat, user: User,
      wallet: Wallet)
    requires Inv(base, s) && IsRun(s, run) && OnTrack(s, j, user, wallet)
    ensures OnTrack(After(s, run), j, user, wallet)
    decreases |run|
  {
    if run != [] {
      StepKeepsInv(base, s, run[0]);
      StepKeepsOnTrack(base, s, run[0], j, user, wallet);
      RunKeepsOnTrack(base, Step(s, run[0]), run[1..], j, user, wallet);
    }
  }

  // After CreateUser is acknowledged, every GetUser started later answers with
  // that very user and balance zero, unless its own read of the user failed.
  lemma AcknowledgedUserIsDurable(base: Tables, s0: State, run: seq<Label>, later: seq<Label>, i: nat, j: nat)
    requires Init(base, s0) && IsRun(s0, run) && IsRun(After(s0, run), later)
    requires i < |After(s0, run).calls| && j < |After(s0, run).calls|
    requires var c := After(s0, run).calls[i]; c.reply.Some? && c.reply.value.UserCreated?
    requires var d := After(s0, run).calls[j]; d.pc.Start? && d.req == GetUser(After(s0, run).calls[i].reply.value.id)
    requires j < |After(After(s0, run), later).calls| && After(After(s0, run), later).calls[j].pc.Finished?
    ensures var made, d := After(s0, run).calls[i].reply.value, After(After(s0, run), later).calls[j];
            || d.reply == Some(UserFound(made.id, made.name, made.email, 0))
            || (d.faulted && d.reply == Some(Failed(UserNotFound)))
  {
    var s := After(s0, run);
    Reachable(base, s0, run);
    var c := s.calls[i];
    assert CallOk(base, s, c) && CallOk(base, s, s.calls[j]);
    assert OnTrack(s, j, UserRow(c), WalletRow(c));
    RunKeepsOnTrack(base, s, later, j, UserRow(c), WalletRow(c));
  }

  // A request that failed, at whatever statement or at commit, is in no later
  // state, neither in the history nor with any id it drew, exactly when it is
  // not one whose commit took effect without the client being told.
  lemma FailedRequestLeavesNothing(base: Tables, s0: State, run: seq<Label>, later: seq<Label>, i: nat)
    requires Init(base, s0) && IsRun(s0, run) && IsRun(After(s0, run), later)
    requires i < |After(s0, run).calls| && After(s0, run).calls[i].pc.Finished?
    requires After(s0, run).calls[i].reply.Some? && After(s0, run).calls[i].reply.value.Failed?
    ensures var c, t := After(s0, run).calls[i], After(After(s0, run), later);
            && (!c.lost <==> Traceless(t, i, c))
            && (c.lost ==> c.reply.value.error == DatabaseError && Present(t, c) && CommitEntry(i, c) in t.log)
  {
    var s, t := After(s0, run), After(After(s0, run), later);
    Reachable(base, s0, run);
    RunKeepsInv(base, s, later);
    RunGrows(s, later);
    assert t.calls[i] == s.calls[i] && CallOk(base, t, t.calls[i]);
    FailedTrace(base, t, i);
  }

  ghost predicate Traceless(t: State, i: nat, c: Call) {
    && (c.uid.Some? ==> !HasUser(t.db.users, c.uid.value) && !HasWalletFor(t.db.wallets, c.uid.value))
    && (c.wid.Some? ==> !HasWallet(t.db.wallets, c.wid.value))
    && (forall k :: 0 <= k < |t.log| ==> t.log[k].call != i)
  }

  // The rows of a writing request are committed.
  ghost predicate Present(t: State, c: Call) {
    && c.wid.Some? && WalletRow(c) in t.db.wallets
    && (c.req.CreateUser? ==> c.uid.Some? && UserRow(c) in t.db.users)
  }

  lemma FailedTrace(base: Tables, t: State, i: nat)
    requires Inv(base, t) && i < |t.calls| && t.calls[i].pc.Finished?
    requires t.calls[i].reply.Some? && t.calls[i].reply.value.Failed?
    ensures !t.calls[i].lost <==> Traceless(t, i, t.calls[i])
    ensures t.calls[i].lost ==> Present(t, t.calls[i]) && CommitEntry(i, t.calls[i]) in t.log
  {
    assert CallOk(base, t, t.calls[i]);
    forall k | 0 <= k < |t.log| ensures t.log[k].call == i ==> t.calls[i].lost {
      assert EntryOk(t, t.log[k]);
    }
    if !t.calls[i].lost && t.calls[i].uid.Some? {
      forall w | w in t.db.wallets ensures w.userId != t.calls[i].uid.value {
        assert HasUser(t.db.users, w.userId);
      }
    }
  }

  // ---- Which writes can succeed, and how the others fail ----

  // CreateWallet takes effect, acknowledged or not, only for a user that had no
  // wallet before any of these requests ran; from empty tables, therefore, never.
  lemma WalletCreatedOnlyForOrphans(base: Tables, s0: State, run: seq<Label>, i: nat)
    requires Init(base, s0) && IsRun(s0, run) && i < |After(s0, run).calls|
    requires var c := After(s0, run).calls[i];
             (c.lost && c.req.CreateWallet?) || (c.reply.Some? && c.reply.value.WalletCreated?)
    ensures After(s0, run).calls[i].req.CreateWallet?
    ensures Orphan(base, After(s0, run).calls[i].req.userId)
    ensures base != EMPTY_TABLES
  {
    Reachable(base, s0, run);
    assert CallOk(base, After(s0, run), After(s0, run).calls[i]);
  }

  // Which statement of which request the tables refuse: no other one fails
  // without an outside fault while there are ids to draw.
  predicate TablesRefuse(db: Tables, c: Call) {
    match c.req
    case CreateUser(_, email) => (c.pc.Check? || c.pc.PutUser?) && HasEmail(db.users, email)
    case CreateWallet(userId) =>
      || ((c.pc.Check? || c.pc.PutWallet?) && HasWalletFor(db.wallets, userId))
      || (c.pc.RefCheck? && !HasUser(db.users, userId))
    case _ => false
  }

  // A statement is refused exactly when the tables refuse it. The request run
  // alone at that moment, with whatever ids, would be refused too, and with the
  // same error exactly when it is not the unique key of an insert that refuses,
  // which the check before was meant to rule out: there the driver's error takes
  // the place of "already exists".
  lemma RefusalsAreJustified(base: Tables, s: State, i: nat, uid: int, wid: int)
    requires Inv(base, s) && CanStep(s, Label(i, false)) && !s.calls[i].pc.Rollback?
    requires s.nextUser <= MAX_BIGINT && s.nextWallet <= MAX_BIGINT
    ensures var c, c' := s.calls[i], Step(s, Label(i, false)).calls[i];
            var alone := Serial(s.db, c.req, uid, wid).reply;
            && (c'.pc.Rollback? <==> TablesRefuse(s.db, c))
            && (c'.pc.Rollback? ==>
                  && alone.Failed?
                  && (c'.reply == Some(alone) <==> !c.pc.PutUser? && !c.pc.PutWallet?)
                  && (c.pc.PutUser? || c.pc.PutWallet? ==>
                        && c'.reply == Some(Failed(DatabaseError))
                        && alone.error == if c.req.CreateUser? then UserAlreadyExists else WalletAlreadyExists))
  {
    var c := s.calls[i];
    assert CallOk(base, s, c);
    NoRowsYet(s.db, c);
    if c.pc.RefCheck? {
      assert c.req.CreateUser? ==> UserRow(c) in c.writes.users && UserRow(c) in s.db.users + c.writes.users;
    } else if c.pc.PutWallet? && c.req.CreateUser? {
      OwnWalletIsNew(base, s, c);
    }
  }

  // At step k request i looked and found nothing in its way.
  ghost predicate PassedAt(s0: State, run: seq<Label>, i: nat, k: nat) {
    && k < |run| && run[k] == Label(i, false)
    && IsRun(s0, run[..k])
    && i < |After(s0, run[..k]).calls| && PassesCheck(After(s0, run[..k]).db, After(s0, run[..k]).calls[i])
  }

  predicate PassesCheck(db: Tables, c: Call) {
    c.pc.Check? && c.req.Writes() && !Taken(db, c.req)
  }

  // The row a writing request looks for is committed.
  predicate Taken(db: Tables, req: Request) {
    match req
    case CreateUser(_, email) => HasEmail(db.users, email)
    case CreateWallet(userId) => HasWalletFor(db.wallets, userId)
    case _ => false
  }

  // Step m is the commit, by a request other than i, of the row i looks for.
  ghost predicate TakenAt(s0: State, run: seq<Label>, i: nat, req: Request, m: nat) {
    && m < |run| && run[m].call != i
    && IsRun(s0, run[..m]) && CanStep(After(s0, run[..m]), run[m]) && Lands(After(s0, run[..m]), run[m])
    && !Taken(After(s0, run[..m]).db, req) && Taken(Step(After(s0, run[..m]), run[m]).db, req)
  }

  lemma TakenAtExtends(s0: State, run: seq<Label>, n: nat, i: nat, req: Request, m: nat)
    requires n <= |run| && TakenAt(s0, run[..n], i, req, m)
    ensures TakenAt(s0, run, i, req, m)
  {
    assert run[..n][..m] == run[..m];
  }

  // A row absent at step k and committed at the end was committed in between;
  // not by i, which is still on its way.
  lemma {:induction false} CommittedSince(s0: State, run: seq<Label>, i: nat, req: Request, k: nat) returns (m: nat)
    requires IsRun(s0, run) && k <= |run| && IsRun(s0, run[..k]) && !Taken(After(s0, run[..k]).db, req)
    requires Taken(After(s0, run).db, req) && i < |After(s0, run).calls| && !After(s0, run).calls[i].pc.Finished?
    ensures k <= m && TakenAt(s0, run, i, req, m)
    decreases |run|
  {
    assert k != |run| by {
      assert run[..|run|] == run;
    }
    var n := |run| - 1;
    SplitLast(s0, run);
    var s := After(s0, run[..n]);
    NotFinishedBefore(s, run[n], i);
    if Taken(s.db, req) {
      assert run[..n][..k] == run[..k];
      m := CommittedSince(s0, run[..n], i, req, k);
      TakenAtExtends(s0, run, n, i, req, m);
    } else {
      TakenByAnother(s, run[n], i, req);
      m := n;
    }
  }

  lemma NotFinishedBefore(s: State, l: Label, i: nat)
    requires CanStep(s, l) && i < |Step(s, l).calls| && !Step(s, l).calls[i].pc.Finished?
    ensures i < |s.calls| && !s.calls[i].pc.Finished?
  {
  }

  lemma TakenByAnother(s: State, l: Label, i: nat, req: Request)
    requires CanStep(s, l) && i < |s.calls| && !Step(s, l).calls[i].pc.Finished?
    requires !Taken(s.db, req) && Taken(Step(s, l).db, req)
    ensures Lands(s, l) && l.call != i
  {
  }

  predicate PastCheck(c: Call) {
    c.pc.DrawUser? || c.pc.PutUser? || c.pc.DrawWallet? || c.pc.PutWallet? || c.pc.RefCheck? || c.pc.Commit?
  }

  lemma StepPastCheck(base: Tables, s: State, l: Label, i: nat)
    requires Inv(base, s) && CanStep(s, l) && i < |s.calls|
    requires !PastCheck(s.calls[i]) && PastCheck(Step(s, l).calls[i])
    ensures l == Label(i, false) && PassesCheck(s.db, s.calls[i])
  {
    assert CallOk(base, s, s.calls[i]);
    NoRowsYet(s.db, s.calls[i]);
  }

  lemma PassedAtExtends(s0: State, run: seq<Label>, n: nat, i: nat, k: nat)
    requires n <= |run| && PassedAt(s0, run[..n], i, k)
    ensures PassedAt(s0, run, i, k)
  {
    assert run[..n][..k] == run[..k];
  }

  // Every request past its check passed it, on the tables of that moment.
  lemma {:induction false} CheckWasPassed(base: Tables, s0: State, run: seq<Label>, i: nat) returns (k: nat)
    requires Init(base, s0) && IsRun(s0, run) && i < |After(s0, run).calls| && PastCheck(After(s0, run).calls[i])
    ensures PassedAt(s0, run, i, k)
    decreases |run|
  {
    assert run != [];
    var n := |run| - 1;
    SplitLast(s0, run);
    var s := After(s0, run[..n]);
    Reachable(base, s0, run[..n]);
    StepGrows(s, run[n]);
    if PastCheck(s.calls[i]) {
      k := CheckWasPassed(base, s0, run[..n], i);
      PassedAtExtends(s0, run, n, i, k);
    } else {
      StepPastCheck(base, s, run[n], i);
      k := n;
    }
  }

  // A unique key refuses an insert only for a row that another request has
  // committed since the check before it found none.
  lemma RefusedInsertLostARace(base: Tables, s0: State, run: seq<Label>, i: nat) returns (k: nat, m: nat)
    requires Init(base, s0) && IsRun(s0, run) && i < |After(s0, run).calls|
    requires var c := After(s0, run).calls[i];
             (c.pc.PutUser? || c.pc.PutWallet?) && TablesRefuse(After(s0, run).db, c)
    ensures k <= m && PassedAt(s0, run, i, k) && TakenAt(s0, run, i, After(s0, run).calls[i].req, m)
  {
    k := CheckWasPassed(base, s0, run, i);
    RunPrefix(s0, run, k);
    RunGrows(After(s0, run[..k]), run[k..]);
    m := CommittedSince(s0, run, i, After(s0, run).calls[i].req, k);
  }

  // ---- What an error says ----

  // A writing request that met an outside failure, at whatever step, is
  // answered with the driver's error; and each request only with errors of its
  // own kind.
  lemma ErrorsFit(base: Tables, s0: State, run: seq<Label>, i: nat)
    requires Init(base, s0) && IsRun(s0, run) && i < |After(s0, run).calls|
    ensures var c := After(s0, run).calls[i];
            && (c.req.Writes() && c.faulted ==> c.reply == Some(Failed(DatabaseError)))
            && (c.reply.Some? && c.reply.value.Failed? ==>
                  && (c.req.GetUser? ==> c.reply == Some(Failed(UserNotFound)))
                  && (c.req.GetWallet? ==> c.reply == Some(Failed(WalletNotFound)))
                  && (c.req.CreateUser? ==> c.reply.value.error in {UserAlreadyExists, DatabaseError})
                  && (c.req.CreateWallet? ==> c.reply.value.error in {WalletAlreadyExists, DatabaseError}))
  {
    Reachable(base, s0, run);
    assert CallOk(base, After(s0, run), After(s0, run).calls[i]);
  }

  predicate SaysExists(c: Call) {
    c.reply == Some(Failed(UserAlreadyExists)) || c.reply == Some(Failed(WalletAlreadyExists))
  }

  // At step k request i looked, without a fault, and the committed rows held the
  // email, or a wallet of the user, it asks for.
  ghost predicate SawRow(s0: State, run: seq<Label>, i: nat, k: nat) {
    && k < |run| && run[k] == Label(i, false) && IsRun(s0, run[..k]) && i < |After(s0, run[..k]).calls|
    && var db, c := After(s0, run[..k]).db, After(s0, run[..k]).calls[i];
       && c.pc.Check?
       && (c.req.CreateUser? ==> exists u :: u in db.users && u.email == c.req.email)
       && (c.req.CreateWallet? ==> exists w :: w in db.wallets && w.userId == c.req.userId)
  }

  lemma SawRowExtends(s0: State, run: seq<Label>, n: nat, i: nat, k: nat)
    requires n <= |run| && SawRow(s0, run[..n], i, k)
    ensures SawRow(s0, run, i, k)
  {
    assert run[..n][..k] == run[..k];
  }

  lemma StepSaysExists(base: Tables, s: State, l: Label, i: nat)
    requires Inv(base, s) && CanStep(s, l) && i < |s.calls|
    requires !SaysExists(s.calls[i]) && SaysExists(Step(s, l).calls[i])
    ensures l == Label(i, false) && s.calls[i].pc.Check? && s.calls[i].req.Writes() && Taken(s.db, s.calls[i].req)
  {
    assert CallOk(base, s, s.calls[i]);
    NoRowsYet(s.db, s.calls[i]);
  }

  // "Already exists" is only ever answered for a row that the request's own
  // check found committed.
  lemma {:induction false} AlreadyExistsWasSeen(base: Tables, s0: State, run: seq<Label>, i: nat) returns (k: nat)
    requires Init(base, s0) && IsRun(s0, run) && i < |After(s0, run).calls| && SaysExists(After(s0, run).calls[i])
    ensures SawRow(s0, run, i, k)
    decreases |run|
  {
    assert run != [];
    var n := |run| - 1;
    SplitLast(s0, run);
    var s := After(s0, run[..n]);
    Reachable(base, s0, run[..n]);
    StepGrows(s, run[n]);
    if SaysExists(s.calls[i]) {
      k := AlreadyExistsWasSeen(base, s0, run[..n], i);
      SawRowExtends(s0, run, n, i, k);
    } else {
      StepSaysExists(base, s, run[n], i);
      k := n;
    }
  }

  // Step k of request i met an outside failure. A rollback has none: whatever
  // becomes of it, the error is fixed and nothing is committed.
  ghost predicate FailedAt(s0: State, run: seq<Label>, i: nat, k: nat) {
    && k < |run| && run[k].call == i && run[k].fault
    && IsRun(s0, run[..k]) && i < |After(s0, run[..k]).calls| && !After(s0, run[..k]).calls[i].pc.Rollback?
  }

  ghost predicate LostAt(run: seq<Label>, i: nat, k: nat) {
    k < |run| && run[k].call == i && run[k].lost
  }

  lemma FailedSnoc(s0: State, run: seq<Label>, i: nat)
    requires run != [] && IsRun(s0, run)
    ensures var n := |run| - 1;
            (exists k: nat :: FailedAt(s0, run, i, k)) <==>
              FailedAt(s0, run, i, n) || exists k: nat :: FailedAt(s0, run[..n], i, k)
  {
    var n := |run| - 1;
    forall k: nat | k < n ensures FailedAt(s0, run, i, k) <==> FailedAt(s0, run[..n], i, k) {
      assert run[..n][..k] == run[..k];
    }
    if k: nat :| FailedAt(s0, run[..n], i, k) {
      assert k < n && FailedAt(s0, run, i, k);
    }
    if k: nat :| FailedAt(s0, run, i, k) {
      assert k < n ==> FailedAt(s0, run[..n], i, k);
    }
  }

  lemma LostSnoc(run: seq<Label>, i: nat)
    requires run != []
    ensures var n := |run| - 1;
            (exists k: nat :: LostAt(run, i, k)) <==> LostAt(run, i, n) || exists k: nat :: LostAt(run[..n], i, k)
  {
    var n := |run| - 1;
    if k: nat :| LostAt(run[..n], i, k) {
      assert LostAt(run, i, k);
    }
    if k: nat :| LostAt(run, i, k) {
      assert k < n ==> LostAt(run[..n], i, k);
    }
  }

  lemma FaultStep(s: State, l: Label, i: nat)
    requires CanStep(s, l) && i < |s.calls|
    ensures var c, c' := s.calls[i], Step(s, l).calls[i];
            && (c'.faulted <==> c.faulted || (l.call == i && l.fault && !c.pc.Rollback?))
            && (c'.lost <==> c.lost || (l.call == i && l.lost))
  {
  }

  // A request is marked as failed exactly if one of its steps met an outside
  // failure, and as lost exactly if its commit's acknowledgement was.
  lemma {:induction false} MarksAreTrue(base: Tables, s0: State, run: seq<Label>, i: nat)
    requires Init(base, s0) && IsRun(s0, run) && i < |s0.calls| == |After(s0, run).calls|
    ensures After(s0, run).calls[i].faulted <==> exists k: nat :: FailedAt(s0, run, i, k)
    ensures After(s0, run).calls[i].lost <==> exists k: nat :: LostAt(run, i, k)
    decreases |run|
  {
    if run == [] {
      assert s0.calls[i] == NewCall(s0.calls[i].req);
    } else {
      var n := |run| - 1;
      SplitLast(s0, run);
      RunGrows(s0, run[..n]);
      MarksAreTrue(base, s0, run[..n], i);
      FaultStep(After(s0, run[..n]), run[n], i);
      FailedSnoc(s0, run, i);
      LostSnoc(run, i);
    }
  }

  // ---- Sequences ----

  // The ids drawn so far are the ones between the sequences' first and next value,
  // each of them by some request: none is skipped, none comes from elsewhere.
  ghost predicate DrawnInOrder(s0: State, s: State) {
    && s0.nextUser <= s.nextUser && s0.nextWallet <= s.nextWallet
    && (forall i :: 0 <= i < |s.calls| && s.calls[i].uid.Some? ==> s0.nextUser <= s.calls[i].uid.value < s.nextUser)
    && (forall i :: 0 <= i < |s.calls| && s.calls[i].wid.Some? ==> s0.nextWallet <= s.calls[i].wid.value < s.nextWallet)
    && (forall n :: s0.nextUser <= n < s.nextUser ==> HasDrawnUser(s, n))
    && (forall n :: s0.nextWallet <= n < s.nextWallet ==> HasDrawnWallet(s, n))
  }

  ghost predicate HasDrawnUser(s: State, n: int) {
    exists i :: 0 <= i < |s.calls| && s.calls[i].uid == Some(n)
  }

  ghost predicate HasDrawnWallet(s: State, n: int) {
    exists i :: 0 <= i < |s.calls| && s.calls[i].wid == Some(n)
  }

  // Request k may have drawn the next id of each sequence, and nothing else changed.
  ghost predicate DrewNext(s: State, s': State, k: nat) {
    && k < |s.calls| == |s'.calls| && (forall i :: 0 <= i < |s.calls| && i != k ==> s'.calls[i] == s.calls[i])
    && (if s'.calls[k].uid == s.calls[k].uid then s'.nextUser == s.nextUser
        else s.calls[k].uid.None? && s'.calls[k].uid == Some(s.nextUser) && s'.nextUser == s.nextUser + 1)
    && (if s'.calls[k].wid == s.calls[k].wid then s'.nextWallet == s.nextWallet
        else s.calls[k].wid.None? && s'.calls[k].wid == Some(s.nextWallet) && s'.nextWallet == s.nextWallet + 1)
  }

  lemma DrawStep(base: Tables, s: State, l: Label)
    requires Inv(base, s) && CanStep(s, l)
    ensures DrewNext(s, Step(s, l), l.call)
  {
    assert CallOk(base, s, s.calls[l.call]);
  }

  lemma DrawnStays(s: State, s': State, k: nat, n: int)
    requires DrewNext(s, s', k)
    ensures HasDrawnUser(s, n) ==> HasDrawnUser(s', n)
    ensures HasDrawnWallet(s, n) ==> HasDrawnWallet(s', n)
  {
    if HasDrawnUser(s, n) {
      var i :| 0 <= i < |s.calls| && s.calls[i].uid == Some(n);
      assert s'.calls[i].uid == Some(n);
    }
    if HasDrawnWallet(s, n) {
      var i :| 0 <= i < |s.calls| && s.calls[i].wid == Some(n);
      assert s'.calls[i].wid == Some(n);
    }
  }

  lemma DrawsOn(s0: State, s: State, s': State, k: nat)
    requires DrawnInOrder(s0, s) && DrewNext(s, s', k)
    ensures DrawnInOrder(s0, s')
  {
    forall n | s0.nextUser <= n < s'.nextUser ensures HasDrawnUser(s', n) {
      if n < s.nextUser {
        DrawnStays(s, s', k, n);
      } else {
        assert s'.calls[k].uid == Some(n);
      }
    }
    forall n | s0.nextWallet <= n < s'.nextWallet ensures HasDrawnWallet(s', n) {
      if n < s.nextWallet {
        DrawnStays(s, s', k, n);
      } else {
        assert s'.calls[k].wid == Some(n);
      }
    }
  }

  lemma StepDrawsInOrder(base: Tables, s0: State, s: State, l: Label)
    requires Inv(base, s) && CanStep(s, l) && DrawnInOrder(s0, s)
    ensures DrawnInOrder(s0, Step(s, l))
  {
    DrawStep(base, s, l);
    DrawsOn(s0, s, Step(s, l), l.call);
  }

  lemma {:induction false} RunDrawsInOrder(base: Tables, s0: State, s: State, run: seq<Label>)
    requires Inv(base, s) && IsRun(s, run) && DrawnInOrder(s0, s)
    ensures DrawnInOrder(s0, After(s, run))
    decreases |run|
  {
    if run != [] {
      StepKeepsInv(base, s, run[0]);
      StepDrawsInOrder(base, s0, s, run[0]);
      RunDrawsInOrder(base, s0, Step(s, run[0]), run[1..]);
    }
  }

  // A rollback gives no id back: every id between the first and the next has been
  // drawn, by exactly one request, stored or not.
  lemma IdsAreDrawnInOrder(base: Tables, s0: State, run: seq<Label>)
    requires Init(base, s0) && IsRun(s0, run)
    ensures DrawnInOrder(s0, After(s0, run))
  {
    InitEstablishesInv(base, s0);
    assert forall i :: 0 <= i < |s0.calls| ==> s0.calls[i] == NewCall(s0.calls[i].req);
    RunDrawsInOrder(base, s0, s0, run);
  }

  // No id is drawn past the end of its sequence.
  lemma IdsFitTheColumn(base: Tables, s0: State, run: seq<Label>)
    requires Init(base, s0) && IsRun(s0, run)
    requires s0.nextUser <= MAX_BIGINT + 1 && s0.nextWallet <= MAX_BIGINT + 1
    ensures var s := After(s0, run);
            && (forall u :: u in s.db.users ==> u.id <= MAX_BIGINT)
            && (forall w :: w in s.db.wallets ==> w.id <= MAX_BIGINT)
  {
    Reachable(base, s0, run);
    SequencesEnd(s0, run);
  }

  lemma {:induction false} SequencesEnd(s: State, run: seq<Label>)
    requires IsRun(s, run) && s.nextUser <= MAX_BIGINT + 1 && s.nextWallet <= MAX_BIGINT + 1
    ensures After(s, run).nextUser <= MAX_BIGINT + 1 && After(s, run).nextWallet <= MAX_BIGINT + 1
    decreases |run|
  {
    if run != [] {
      SequenceStep(s, run[0]);
      SequencesEnd(Step(s, run[0]), run[1..]);
    }
  }

  lemma SequenceStep(s: State, l: Label)
    requires CanStep(s, l)
    ensures s.nextUser <= MAX_BIGINT + 1 ==> Step(s, l).nextUser <= MAX_BIGINT + 1
    ensures s.nextWallet <= MAX_BIGINT + 1 ==> Step(s, l).nextWallet <= MAX_BIGINT + 1
  {
  }

  lemma NoRowsYet(db: Tables, c: Call)
    ensures c.writes.users == [] ==> db.users + c.writes.users == db.users
    ensures c.writes.wallets == [] ==> db.wallets + c.writes.wallets == db.wallets
  {
  }

  lemma OwnWalletIsNew(base: Tables, s: State, c: Call)
    requires TablesOk(base, s) && CallOk(base, s, c) && c.pc.PutWallet? && c.req.CreateUser?
    ensures !WalletClash(s.db.wallets, WalletRow(c))
  {
    forall w | w in s.db.wallets ensures w.userId != OwnerOf(c) {
      assert HasUser(s.db.users, w.userId);
    }
  }

  // ---- Transaction ids ----

  // The id of the n-th transaction begun is n modulo 2^64: ids are distinct
  // and nonzero up to that many, and zero exactly when the counter wraps.
  lemma TransactionIds(base: Tables, s0: State, run: seq<Label>, i: nat)
    requires Init(base, s0) && IsRun(s0, run)
    requires i < |After(s0, run).calls| && After(s0, run).calls[i].order.Some?
    ensures var s := After(s0, run);
            && (s.calls[i].txId == 0 <==> s.calls[i].order.value % TWO_64 == 0)
            && (s.begun < TWO_64 ==> s.calls[i].txId != 0)
            && forall j :: 0 <= j < |s.calls| && j != i && s.calls[j].order.Some? ==>
                 && s.calls[i].order.value != s.calls[j].order.value
                 && (s.begun < TWO_64 ==> s.calls[i].txId != s.calls[j].txId)
  {
    var s := After(s0, run);
    Reachable(base, s0, run);
    forall j | 0 <= j < |s.calls| && j != i && s.calls[j].order.Some?
      ensures s.calls[i].order.value != s.calls[j].order.value
      ensures s.begun < TWO_64 ==> s.calls[i].txId != s.calls[j].txId
    {
      IdsDistinct(s, i, j);
    }
    IdNonzero(s, i);
  }

  lemma IdNonzero(s: State, i: nat)
    requires IdsOk(s) && i < |s.calls| && s.calls[i].order.Some?
    ensures s.calls[i].txId == s.calls[i].order.value % TWO_64
    ensures s.begun < TWO_64 ==> s.calls[i].txId != 0
  {
    if s.begun < TWO_64 {
      assert s.calls[i].order.value % TWO_64 == s.calls[i].order.value;
    }
  }

  lemma IdsDistinct(s: State, i: nat, j: nat)
    requires IdsOk(s) && i < |s.calls| && j < |s.calls| && i != j
    requires s.calls[i].order.Some? && s.calls[j].order.Some?
    ensures s.calls[i].order.value != s.calls[j].order.value
    ensures s.calls[i].txId == s.calls[i].order.value % TWO_64
    ensures s.begun < TWO_64 ==> s.calls[i].txId != 0 && s.calls[i].txId != s.calls[j].txId
  {
    assert i < j || j < i;
    if s.begun < TWO_64 {
      assert s.calls[i].order.value % TWO_64 == s.calls[i].order.value;
      assert s.calls[j].order.value % TWO_64 == s.calls[j].order.value;
    }
  }
}
