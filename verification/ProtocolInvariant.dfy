/**
 What every reachable state satisfies, and the proof that every step keeps it.
 */
module ProtocolInvariant {
  import opened Options
  import opened Store
  import opened Protocol

  // ---- One request on its own ----

  predicate Won(c: Call) {
    c.reply.Some? && c.reply.value.Commits()
  }

  // Its rows are committed, whether or not the client was told.
  predicate Landed(c: Call) {
    Won(c) || c.lost
  }

  // The write set is what the program counter says it is.
  ghost predicate Shape(c: Call) {
    && (c.uid.Some? ==> c.req.CreateUser?)
    && (c.wid.Some? ==> c.req.Writes())
    && (c.writes.users != [] ==> c.req.CreateUser? && c.uid.Some? && c.writes.users == [UserRow(c)])
    && (c.writes.wallets != [] ==> c.wid.Some? && c.writes.wallets == [WalletRow(c)])
    && (c.writes.wallets != [] && c.req.CreateUser? ==> c.writes.users != [])
    && (c.reply.Some? <==> c.pc.Rollback? || c.pc.Finished?)
    && (c.order.Some? ==> c.req.Writes())
    && (c.lost ==> c.pc.Finished? && c.req.Writes() && c.reply == Some(Failed(DatabaseError)))
    && (c.faulted && c.req.Writes() ==> c.reply == Some(Failed(DatabaseError)))
    && (c.reply.Some? && c.reply.value.Failed? ==> FitsRequest(c.req, c.reply.value.error))
    && ShapeAt(c)
  }

  // The errors a request of each kind can be answered with.
  predicate FitsRequest(req: Request, error: Error) {
    match req
    case CreateUser(_, _) => error == UserAlreadyExists || error == DatabaseError
    case CreateWallet(_) => error == WalletAlreadyExists || error == DatabaseError
    case GetUser(_) => error == UserNotFound
    case GetWallet(_) => error == WalletNotFound
  }

  ghost predicate ShapeAt(c: Call) {
    match c.pc
    case Start => c == NewCall(c.req)
    case Check => c.req.Writes() && c.order.Some? && c.writes == EMPTY_TABLES && c.uid.None? && c.wid.None?
    case DrawUser => c.req.CreateUser? && c.writes == EMPTY_TABLES && c.uid.None? && c.wid.None?
    case PutUser => c.req.CreateUser? && c.writes == EMPTY_TABLES && c.uid.Some? && c.wid.None?
    case DrawWallet => InsertedOwner(c) && c.writes.wallets == [] && c.wid.None?
    case PutWallet => InsertedOwner(c) && c.writes.wallets == [] && c.wid.Some?
    case RefCheck => InsertedOwner(c) && c.writes.wallets != []
    case Commit => InsertedOwner(c) && c.writes.wallets != []
    case Rollback => c.req.Writes() && c.reply.Some? && c.reply.value.Failed?
    case ReadWallet => c.req.GetUser? && c.found.Some? && c.found.value.id == c.req.id && c.writes == EMPTY_TABLES
    case Finished => c.writes == EMPTY_TABLES
  }

  ghost predicate InsertedOwner(c: Call) {
    c.req.CreateWallet? || (c.req.CreateUser? && c.writes.users != [])
  }

  // ---- One request against the tables ----

  ghost predicate Fresh(db: Tables, nextUser: int, nextWallet: int, c: Call) {
    && (c.uid.Some? ==> c.uid.value < nextUser)
    && (c.uid.Some? && !Landed(c) ==> !HasUser(db.users, c.uid.value))
    && (c.wid.Some? ==> c.wid.value < nextWallet)
    && (c.wid.Some? && !Landed(c) ==> !HasWallet(db.wallets, c.wid.value))
    && (c.writes.users != [] ==> !HasEmail(db.users, EmailOf(c.req)))
    && (c.writes.wallets != [] ==> !HasWalletFor(db.wallets, OwnerOf(c)))
    && (c.pc.Commit? && c.req.CreateWallet? ==> HasUser(db.users, c.req.userId))
  }

  ghost predicate ReplyTrue(base: Tables, db: Tables, c: Call) {
    && (c.pc.ReadWallet? && c.found.Some? ==> c.found.value in db.users)
    && (c.lost ==>
          && c.wid.Some? && WalletRow(c) in db.wallets
          && (c.req.CreateUser? ==> c.uid.Some? && UserRow(c) in db.users)
          && (c.req.CreateWallet? ==> Orphan(base, c.req.userId)))
    && (c.reply.Some? ==>
        match c.reply.value
        case UserCreated(_, _, _) =>
          && c.req.CreateUser? && c.uid.Some? && c.wid.Some? && c.reply.value == CommitReply(c)
          && UserRow(c) in db.users && WalletRow(c) in db.wallets
        case WalletCreated(_, _) =>
          && c.req.CreateWallet? && c.wid.Some? && c.reply.value == CommitReply(c)
          && WalletRow(c) in db.wallets && Orphan(base, c.req.userId)
        case UserFound(id, name, email, _) =>
          c.req.GetUser? && id == c.req.id && User(id, name, email) in db.users
        case WalletFound(owner, _) => c.req.GetWallet? && owner == c.req.owner
        case Failed(_) => true)
  }

  ghost predicate CallOk(base: Tables, s: State, c: Call) {
    Shape(c) && Fresh(s.db, s.nextUser, s.nextWallet, c) && ReplyTrue(base, s.db, c)
  }

  // ---- Two requests together ----

  ghost predicate Apart(c: Call, d: Call) {
    && (c.uid.Some? && d.uid.Some? ==> c.uid.value != d.uid.value)
    && (c.wid.Some? && d.wid.Some? ==> c.wid.value != d.wid.value)
    && (c.writes.users != [] && d.writes.users != [] ==> EmailOf(c.req) != EmailOf(d.req))
    && (c.writes.wallets != [] && d.writes.wallets != [] ==> OwnerOf(c) != OwnerOf(d))
  }

  // ---- The tables ----

  ghost predicate TablesOk(base: Tables, s: State) {
    && base.users <= s.db.users && base.wallets <= s.db.wallets
    && ConstraintsHold(s.db)
    && (forall id :: Orphan(s.db, id) ==> Orphan(base, id))
    && (forall u :: u in s.db.users ==> u.id < s.nextUser)
    && (forall w :: w in s.db.wallets ==> w.id < s.nextWallet)
    && (forall k :: |base.wallets| <= k < |s.db.wallets| ==> s.db.wallets[k].balance == 0)
  }

  ghost predicate CallsOk(base: Tables, s: State) {
    && (forall i :: 0 <= i < |s.calls| ==> CallOk(base, s, s.calls[i]))
    && (forall i, j :: 0 <= i < |s.calls| && 0 <= j < |s.calls| && i != j ==> Apart(s.calls[i], s.calls[j]))
  }

  // ---- The history ----

  // The commit history as a serial execution: each entry must be answered by
  // the atomic operation with the reply the client was given.
  function Replay(base: Tables, log: seq<Entry>): Option<Tables> {
    if log == [] then Some(base)
    else
      var before := Replay(base, log[..|log| - 1]);
      var e := log[|log| - 1];
      if before.None? then None
      else
        var served := Serial(before.value, e.req, e.uid, e.wid);
        if e.reply.Commits() && served.reply == e.reply then Some(served.after) else None
  }

  ghost predicate EntryOk(s: State, e: Entry) {
    && e.call < |s.calls|
    && var c := s.calls[e.call];
       Landed(c) && c.pc.Finished? && e == CommitEntry(e.call, c)
  }

  ghost predicate LogOk(base: Tables, s: State) {
    && Replay(base, s.log) == Some(s.db)
    && (forall k :: 0 <= k < |s.log| ==> EntryOk(s, s.log[k]))
    && (forall k, m :: 0 <= k < m < |s.log| ==> s.log[k].call != s.log[m].call)
    && (forall i :: 0 <= i < |s.calls| && Landed(s.calls[i]) ==> CommitEntry(i, s.calls[i]) in s.log)
  }

  // ---- Transaction ids ----

  ghost predicate IdsOk(s: State) {
    && s.txSeq == s.begun % TWO_64
    && (forall i :: 0 <= i < |s.calls| && s.calls[i].order.Some? ==>
          1 <= s.calls[i].order.value <= s.begun && s.calls[i].txId == s.calls[i].order.value % TWO_64)
    && (forall i, j :: 0 <= i < j < |s.calls| && s.calls[i].order.Some? && s.calls[j].order.Some? ==>
          s.calls[i].order.value != s.calls[j].order.value)
  }

  ghost predicate Inv(base: Tables, s: State) {
    TablesOk(base, s) && CallsOk(base, s) && LogOk(base, s) && IdsOk(s)
  }

  lemma InitEstablishesInv(base: Tables, s: State)
    requires Init(base, s)
    ensures Inv(base, s)
  {
  }

  // ---- Preservation ----

  // A step that does not commit leaves the tables and the history alone.
  lemma LocalStepKeepsCalls(base: Tables, s: State, l: Label)
    requires TablesOk(base, s) && CallsOk(base, s) && CanStep(s, l)
    requires !Lands(s, l)
    ensures TablesOk(base, Step(s, l)) && CallsOk(base, Step(s, l))
  {
    var s' := Step(s, l);
    var c, c' := s.calls[l.call], s'.calls[l.call];
    assert CallOk(base, s, c);
    NextCallOk(base, s, l);
    forall j | 0 <= j < |s.calls| && j != l.call
      ensures CallOk(base, s', s'.calls[j])
      ensures Apart(c', s'.calls[j]) && Apart(s'.calls[j], c')
    {
      assert CallOk(base, s, s.calls[j]) && Apart(c, s.calls[j]);
      NextCallApart(base, s, l, j);
    }
  }

  lemma NextCallOk(base: Tables, s: State, l: Label)
    requires TablesOk(base, s) && CallsOk(base, s) && CanStep(s, l)
    requires !Lands(s, l)
    ensures CallOk(base, Step(s, l), Step(s, l).calls[l.call])
  {
    var c := s.calls[l.call];
    assert CallOk(base, s, c);
    NextShape(s, c, l.fault);
    NextFresh(s, l);
    NextReplyTrue(base, s, c, l.fault);
  }

  lemma NextShape(s: State, c: Call, fault: bool)
    requires Shape(c)
    ensures Shape(NextCall(s, c, fault))
  {
    if c.pc.PutUser? || c.pc.PutWallet? || c.pc.RefCheck? {
      InsertShape(s, c, fault);
    } else if c.pc.DrawUser? || c.pc.DrawWallet? {
      DrawShape(s, c, fault);
    } else {
      OuterShape(s, c, fault);
    }
  }

  lemma InsertShape(s: State, c: Call, fault: bool)
    requires Shape(c) && (c.pc.PutUser? || c.pc.PutWallet? || c.pc.RefCheck?)
    ensures Shape(NextCall(s, c, fault))
  {
  }

  lemma DrawShape(s: State, c: Call, fault: bool)
    requires Shape(c) && (c.pc.DrawUser? || c.pc.DrawWallet?)
    ensures Shape(NextCall(s, c, fault))
  {
  }

  // The steps before the first insert and after the last: no key, no row.
  lemma OuterShape(s: State, c: Call, fault: bool)
    requires Shape(c) && !(c.pc.PutUser? || c.pc.PutWallet? || c.pc.RefCheck? || c.pc.DrawUser? || c.pc.DrawWallet?)
    ensures Shape(NextCall(s, c, fault))
  {
  }

  lemma NextFresh(s: State, l: Label)
    requires CanStep(s, l) && !Lands(s, l)
    requires Shape(s.calls[l.call]) && Fresh(s.db, s.nextUser, s.nextWallet, s.calls[l.call])
    requires forall u :: u in s.db.users ==> u.id < s.nextUser
    requires forall w :: w in s.db.wallets ==> w.id < s.nextWallet
    ensures var s' := Step(s, l); Fresh(s'.db, s'.nextUser, s'.nextWallet, s'.calls[l.call])
  {
    var c := s.calls[l.call];
    if !l.fault && (c.pc.PutUser? || c.pc.PutWallet? || c.pc.RefCheck?) {
      InsertFresh(s, c);
    } else {
      DrawFresh(s, c, l.fault);
    }
  }

  // The three statements that look at the tables through the write set.
  lemma InsertFresh(s: State, c: Call)
    requires Shape(c) && Fresh(s.db, s.nextUser, s.nextWallet, c)
    requires c.pc.PutUser? || c.pc.PutWallet? || c.pc.RefCheck?
    ensures Fresh(s.db, s.nextUser, s.nextWallet, NextCall(s, c, false))
  {
    if c.pc.PutUser? {
      assert s.db.users + c.writes.users == s.db.users;
    } else if c.pc.PutWallet? {
      assert s.db.wallets + c.writes.wallets == s.db.wallets;
    } else {
      assert c.req.CreateWallet? ==> s.db.users + c.writes.users == s.db.users;
    }
  }

  // The other steps add no row; a drawn id is above every stored one.
  lemma DrawFresh(s: State, c: Call, fault: bool)
    requires Shape(c) && Fresh(s.db, s.nextUser, s.nextWallet, c)
    requires !c.pc.Finished? && !(c.pc.Commit? && !fault)
    requires fault || !(c.pc.PutUser? || c.pc.PutWallet? || c.pc.RefCheck?)
    requires forall u :: u in s.db.users ==> u.id < s.nextUser
    requires forall w :: w in s.db.wallets ==> w.id < s.nextWallet
    ensures var c' := NextCall(s, c, fault);
            Fresh(s.db,
                  if c.pc.DrawUser? && c'.pc.PutUser? then s.nextUser + 1 else s.nextUser,
                  if c.pc.DrawWallet? && c'.pc.PutWallet? then s.nextWallet + 1 else s.nextWallet,
                  c')
  {
  }

  lemma NextReplyTrue(base: Tables, s: State, c: Call, fault: bool)
    requires Shape(c) && ReplyTrue(base, s.db, c) && !(c.pc.Commit? && !fault)
    ensures ReplyTrue(base, s.db, NextCall(s, c, fault))
  {
    if (c.pc.Start? && !c.req.Writes()) || c.pc.ReadWallet? {
      ReadReplyTrue(base, s, c, fault);
    } else {
      WriteReplyTrue(base, s, c, fault);
    }
  }

  lemma ReadReplyTrue(base: Tables, s: State, c: Call, fault: bool)
    requires Shape(c) && ReplyTrue(base, s.db, c) && !c.req.Writes() && (c.pc.Start? || c.pc.ReadWallet?)
    ensures ReplyTrue(base, s.db, NextCall(s, c, fault))
  {
  }

  // A writing request has no reply, an error, or the one it had.
  lemma WriteReplyTrue(base: Tables, s: State, c: Call, fault: bool)
    requires Shape(c) && ReplyTrue(base, s.db, c) && !(c.pc.Commit? && !fault)
    requires !c.pc.ReadWallet? && (c.pc.Start? ==> c.req.Writes())
    ensures ReplyTrue(base, s.db, NextCall(s, c, fault))
  {
    var c' := NextCall(s, c, fault);
    assert c'.lost == c.lost && !c'.pc.ReadWallet?;
    assert c.pc.Finished? || (c'.reply.Some? ==> c'.reply.value.Failed?);
  }

  lemma NextCallApart(base: Tables, s: State, l: Label, j: nat)
    requires TablesOk(base, s) && CallsOk(base, s) && CanStep(s, l)
    requires j < |s.calls| && j != l.call
    ensures Apart(Step(s, l).calls[l.call], s.calls[j])
  {
    assert CallOk(base, s, s.calls[l.call]) && CallOk(base, s, s.calls[j]) && Apart(s.calls[l.call], s.calls[j]);
    assert !l.fault ==> !WaitsFor(s, l.call, j);
    NextApart(s, s.calls[l.call], s.calls[j], l.fault);
  }

  // A drawn id is new; a row enters only where no other request holds its key.
  lemma NextApart(s: State, c: Call, d: Call, fault: bool)
    requires Shape(c) && Shape(d) && Fresh(s.db, s.nextUser, s.nextWallet, d) && Apart(c, d)
    requires c.pc.PutUser? && !fault ==> !UserClash(d.writes.users, UserRow(c))
    requires c.pc.PutWallet? && !fault ==> !WalletClash(d.writes.wallets, WalletRow(c))
    ensures Apart(NextCall(s, c, fault), d)
  {
    if !fault && (c.pc.PutUser? || c.pc.PutWallet?) {
      PutApart(s, c, d);
    } else if !fault && (c.pc.DrawUser? || c.pc.DrawWallet?) {
      DrawApart(s, c, d);
    } else {
      OtherStepKeepsKeys(s, c, fault);
    }
  }

  lemma DrawApart(s: State, c: Call, d: Call)
    requires Shape(c) && Fresh(s.db, s.nextUser, s.nextWallet, d) && Apart(c, d)
    requires c.pc.DrawUser? || c.pc.DrawWallet?
    ensures Apart(NextCall(s, c, false), d)
  {
  }

  // Every other step keeps the request's ids, and its rows or gives them up.
  lemma OtherStepKeepsKeys(s: State, c: Call, fault: bool)
    requires fault || !(c.pc.PutUser? || c.pc.PutWallet? || c.pc.DrawUser? || c.pc.DrawWallet?)
    ensures var c' := NextCall(s, c, fault);
            c'.req == c.req && c'.uid == c.uid && c'.wid == c.wid
              && (c'.writes == c.writes || c'.writes == EMPTY_TABLES)
  {
  }

  lemma PutApart(s: State, c: Call, d: Call)
    requires Shape(c) && Shape(d) && Apart(c, d) && (c.pc.PutUser? || c.pc.PutWallet?)
    requires c.pc.PutUser? ==> !UserClash(d.writes.users, UserRow(c))
    requires c.pc.PutWallet? ==> !WalletClash(d.writes.wallets, WalletRow(c))
    ensures Apart(NextCall(s, c, false), d)
  {
    if c.pc.PutUser? && d.writes.users != [] {
      assert UserRow(d) in d.writes.users;
    } else if c.pc.PutWallet? && d.writes.wallets != [] {
      assert WalletRow(d) in d.writes.wallets;
    }
  }

  // A commit publishes exactly what the request, run alone on the tables as
  // they are at that moment, would have done: its earlier checks still hold.
  lemma CommitIsSerial(base: Tables, s: State, i: nat)
    requires TablesOk(base, s) && CallsOk(base, s)
    requires i < |s.calls| && s.calls[i].pc.Commit?
    ensures var c := s.calls[i];
            Serial(s.db, c.req, Drawn(c.uid), Drawn(c.wid)) == Served(CommitReply(c), Append(s.db, c.writes))
  {
    var c := s.calls[i];
    assert CallOk(base, s, c);
    if c.req.CreateWallet? {
      assert c.writes.users == [];
      assert s.db.users + c.writes.users == s.db.users;
    }
  }

  lemma CommitStepKeepsTables(base: Tables, s: State, l: Label)
    requires TablesOk(base, s) && CallsOk(base, s)
    requires CanStep(s, l) && Lands(s, l)
    ensures TablesOk(base, Step(s, l))
  {
    var c, s' := s.calls[l.call], Step(s, l);
    assert CallOk(base, s, c);
    CommitIsSerial(base, s, l.call);
    SerialKeepsConstraints(s.db, c.req, Drawn(c.uid), Drawn(c.wid));
  }

  lemma CommitStepKeepsCalls(base: Tables, s: State, l: Label)
    requires TablesOk(base, s) && CallsOk(base, s)
    requires CanStep(s, l) && Lands(s, l)
    ensures CallsOk(base, Step(s, l))
  {
    var c, s' := s.calls[l.call], Step(s, l);
    var c' := s'.calls[l.call];
    assert CallOk(base, s, c);
    assert c' == Finish(c, if l.lost then Failed(DatabaseError) else CommitReply(c), l.lost).(lost := l.lost);
    AppendedRows(s.db.users, s'.db.users, s.db.wallets, s'.db.wallets);
    CommittedCallOk(base, s, l);
    forall j | 0 <= j < |s.calls| && j != l.call
      ensures CallOk(base, s', s'.calls[j])
      ensures Apart(c', s'.calls[j]) && Apart(s'.calls[j], c')
    {
      assert Apart(c, s.calls[j]) && CallOk(base, s, s.calls[j]);
      OtherCallOk(base, s, l, j);
    }
  }

  lemma CommittedCallOk(base: Tables, s: State, l: Label)
    requires TablesOk(base, s) && CallsOk(base, s)
    requires CanStep(s, l) && Lands(s, l)
    ensures CallOk(base, Step(s, l), Step(s, l).calls[l.call])
  {
    var c, s' := s.calls[l.call], Step(s, l);
    assert CallOk(base, s, c);
    assert WalletRow(c) in c.writes.wallets;
    assert c.req.CreateUser? ==> UserRow(c) in c.writes.users;
    if c.req.CreateWallet? {
      assert Orphan(s.db, c.req.userId);
    }
  }

  // Publishing one request's rows takes no key that another has drawn or holds.
  lemma OtherCallOk(base: Tables, s: State, l: Label, j: nat)
    requires TablesOk(base, s) && CallsOk(base, s)
    requires CanStep(s, l) && Lands(s, l)
    requires j < |s.calls| && j != l.call
    ensures CallOk(base, Step(s, l), s.calls[j])
  {
    var c, d, s' := s.calls[l.call], s.calls[j], Step(s, l);
    assert CallOk(base, s, c) && CallOk(base, s, d) && Apart(c, d);
    AppendedRows(s.db.users, s'.db.users, s.db.wallets, s'.db.wallets);
  }

  lemma LocalStepLandsNothing(s: State, l: Label)
    requires CanStep(s, l) && Shape(s.calls[l.call]) && !Lands(s, l)
    ensures !Landed(s.calls[l.call]) && !Landed(Step(s, l).calls[l.call])
  {
  }

  lemma LocalStepKeepsLog(base: Tables, s: State, l: Label)
    requires LogOk(base, s) && CanStep(s, l) && Shape(s.calls[l.call])
    requires !Lands(s, l)
    ensures LogOk(base, Step(s, l))
  {
    var s' := Step(s, l);
    LocalStepLandsNothing(s, l);
    forall k | 0 <= k < |s.log| ensures EntryOk(s', s.log[k]) {
      assert EntryOk(s, s.log[k]);
    }
    forall i | 0 <= i < |s'.calls| && Landed(s'.calls[i]) ensures CommitEntry(i, s'.calls[i]) in s'.log {
      assert CommitEntry(i, s.calls[i]) in s.log;
    }
  }

  lemma ReplaySnoc(base: Tables, log: seq<Entry>, e: Entry, t: Tables, t': Tables)
    requires Replay(base, log) == Some(t) && Serial(t, e.req, e.uid, e.wid) == Served(e.reply, t') && e.reply.Commits()
    ensures Replay(base, log + [e]) == Some(t')
  {
    assert (log + [e])[..|log|] == log;
  }

  lemma CommitAddsEntry(base: Tables, s: State, l: Label)
    requires CanStep(s, l) && Lands(s, l) && CallOk(base, s, s.calls[l.call])
    ensures var s' := Step(s, l);
            && s'.log == s.log + [CommitEntry(l.call, s'.calls[l.call])]
            && EntryOk(s', CommitEntry(l.call, s'.calls[l.call]))
            && CommitEntry(l.call, s'.calls[l.call]) == CommitEntry(l.call, s.calls[l.call])
  {
  }

  // The history grows by one entry, the request's own, which replays.
  lemma CommitIsReplayed(base: Tables, s: State, l: Label)
    requires TablesOk(base, s) && CallsOk(base, s) && LogOk(base, s)
    requires CanStep(s, l) && Lands(s, l)
    ensures var s' := Step(s, l);
            && Replay(base, s'.log) == Some(s'.db) && s'.log == s.log + [CommitEntry(l.call, s'.calls[l.call])]
            && EntryOk(s', s'.log[|s.log|])
  {
    var e := CommitEntry(l.call, s.calls[l.call]);
    CommitIsSerial(base, s, l.call);
    CommitAddsEntry(base, s, l);
    ReplaySnoc(base, s.log, e, s.db, Step(s, l).db);
  }

  // The entries before it stay true, and are of other requests.
  lemma OlderEntriesStay(base: Tables, s: State, l: Label, k: nat)
    requires CallsOk(base, s) && LogOk(base, s) && k < |s.log|
    requires CanStep(s, l) && Lands(s, l)
    ensures EntryOk(Step(s, l), s.log[k]) && s.log[k].call != l.call
  {
    assert EntryOk(s, s.log[k]);
  }

  lemma CommitStepKeepsLog(base: Tables, s: State, l: Label)
    requires TablesOk(base, s) && CallsOk(base, s) && LogOk(base, s)
    requires CanStep(s, l) && Lands(s, l)
    ensures LogOk(base, Step(s, l))
  {
    var s' := Step(s, l);
    CommitIsReplayed(base, s, l);
    forall k | 0 <= k < |s.log| ensures EntryOk(s', s'.log[k]) && s'.log[k].call != l.call {
      OlderEntriesStay(base, s, l, k);
    }
    forall j | 0 <= j < |s'.calls| && Landed(s'.calls[j]) ensures CommitEntry(j, s'.calls[j]) in s'.log {
      if j == l.call {
        assert s'.log[|s.log|] == CommitEntry(l.call, s'.calls[l.call]);
      } else {
        assert CommitEntry(j, s.calls[j]) in s.log;
      }
    }
  }

  lemma NextId(n: nat)
    ensures (n % TWO_64 + 1) % TWO_64 == (n + 1) % TWO_64
  {
  }

  lemma StepKeepsIds(s: State, l: Label)
    requires IdsOk(s) && CanStep(s, l)
    ensures IdsOk(Step(s, l))
  {
    var s' := Step(s, l);
    NextId(s.begun);
    var c, c' := s.calls[l.call], s'.calls[l.call];
    assert c'.order == if Begins(c, l.fault) then Some(s.begun + 1) else c.order;
    assert c'.txId == if Begins(c, l.fault) then s'.txSeq else c.txId;
  }

  lemma StepKeepsInv(base: Tables, s: State, l: Label)
    requires Inv(base, s) && CanStep(s, l)
    ensures Inv(base, Step(s, l))
  {
    if Lands(s, l) {
      CommitStepKeepsTables(base, s, l);
      CommitStepKeepsCalls(base, s, l);
      CommitStepKeepsLog(base, s, l);
    } else {
      LocalStepKeepsCalls(base, s, l);
      assert CallOk(base, s, s.calls[l.call]);
      LocalStepKeepsLog(base, s, l);
    }
    StepKeepsIds(s, l);
  }

  lemma {:induction false} RunKeepsInv(base: Tables, s: State, run: seq<Label>)
    requires Inv(base, s) && IsRun(s, run)
    ensures Inv(base, After(s, run))
    decreases |run|
  {
    if run != [] {
      StepKeepsInv(base, s, run[0]);
      RunKeepsInv(base, Step(s, run[0]), run[1..]);
    }
  }
}
