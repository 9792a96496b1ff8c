/**
 Any number of requests running against one database, statement by statement.

 Each request is a program counter. A writing request opens a transaction, holds
 its rows in a private write set, sees the committed tables plus that set (READ
 COMMITTED), and publishes the set when it commits. An INSERT is three steps, as
 in PostgreSQL: draw the id from the sequence (never given back), enter the row
 under its unique keys (waiting while another open transaction holds one of
 them), and check the foreign key at the end of the statement.

 A label picks the request that moves and whether the step fails for a reason
 outside the tables: a lost connection, a timeout, a cancelled wait. A COMMIT
 that fails may have taken effect, with only its acknowledgement lost.
 */
module Protocol {
  import opened Options
  import opened Store

  datatype Pc =
    | Start
    | Check
    | DrawUser
    | PutUser
    | DrawWallet
    | PutWallet
    | RefCheck
    | Commit
    | Rollback
    | ReadWallet
    | Finished

  // `order` counts transactions from the first one begun, `lost` says that the
  // commit took effect unacknowledged; both are history only.
  datatype Call = Call(
    req: Request,
    pc: Pc,
    order: Option<nat>,
    txId: int,
    uid: Option<int>,
    wid: Option<int>,
    writes: Tables,
    found: Option<User>,
    reply: Option<Reply>,
    faulted: bool,
    lost: bool)

  // One line of the commit history.
  datatype Entry = Entry(call: nat, req: Request, uid: int, wid: int, reply: Reply)

  datatype State = State(
    db: Tables,
    nextUser: int,
    nextWallet: int,
    txSeq: int,
    begun: nat,
    calls: seq<Call>,
    log: seq<Entry>)

  datatype Label = Label(call: nat, fault: bool, lost: bool := false)

  function NewCall(req: Request): Call {
    Call(req, Start, None, 0, None, None, EMPTY_TABLES, None, None, false, false)
  }

  // ---- The rows a request inserts ----

  function Drawn(id: Option<int>): int {
    if id.Some? then id.value else 0
  }

  function NameOf(req: Request): string {
    if req.CreateUser? then req.name else ""
  }

  function EmailOf(req: Request): string {
    if req.CreateUser? then req.email else ""
  }

  // The user a wallet row points at: the one just inserted, or the one asked for.
  function OwnerOf(c: Call): int {
    if c.req.CreateWallet? then c.req.userId else Drawn(c.uid)
  }

  function UserRow(c: Call): User {
    User(Drawn(c.uid), NameOf(c.req), EmailOf(c.req))
  }

  function WalletRow(c: Call): Wallet {
    Wallet(Drawn(c.wid), OwnerOf(c), 0)
  }

  function Visible(db: Tables, c: Call): Tables {
    Append(db, c.writes)
  }

  // ---- Waiting ----

  // j holds, uncommitted, a key that i is about to insert.
  predicate WaitsFor(s: State, i: nat, j: nat) {
    && i < |s.calls| && j < |s.calls| && i != j
    && var c, d := s.calls[i], s.calls[j];
       || (c.pc.PutUser? && UserClash(d.writes.users, UserRow(c)))
       || (c.pc.PutWallet? && WalletClash(d.writes.wallets, WalletRow(c)))
  }

  predicate Blocked(s: State, i: nat) {
    exists j: nat :: j < |s.calls| && WaitsFor(s, i, j)
  }

  // ---- Steps ----

  predicate CanStep(s: State, l: Label) {
    && l.call < |s.calls|
    && !s.calls[l.call].pc.Finished?
    && (l.fault || !Blocked(s, l.call))
    && (l.lost ==> l.fault && s.calls[l.call].pc.Commit?)
  }

  // A commit that takes effect, acknowledged or not.
  predicate Lands(s: State, l: Label)
    requires CanStep(s, l)
  {
    s.calls[l.call].pc.Commit? && (!l.fault || l.lost)
  }

  // The statement failed or the callback returned an error: the error is fixed,
  // the rollback is still to run.
  function Abort(c: Call, error: Error, fault: bool): Call {
    c.(pc := Rollback, reply := Some(Failed(error)), faulted := c.faulted || fault)
  }

  function Finish(c: Call, reply: Reply, fault: bool): Call {
    c.(pc := Finished, reply := Some(reply), writes := EMPTY_TABLES, faulted := c.faulted || fault)
  }

  function CommitReply(c: Call): Reply {
    if c.req.CreateWallet? then WalletCreated(OwnerOf(c), 0)
    else UserCreated(Drawn(c.uid), NameOf(c.req), EmailOf(c.req))
  }

  function CommitEntry(i: nat, c: Call): Entry {
    Entry(i, c.req, Drawn(c.uid), Drawn(c.wid), CommitReply(c))
  }

  // What a step does to the request itself, given the tables and counters.
  function NextCall(s: State, c: Call, fault: bool): Call {
    var seen := Visible(s.db, c);
    match c.pc
    case Start =>
      (match c.req
       case CreateUser(_, _) => BeginCall(s, c, fault)
       case CreateWallet(_) => BeginCall(s, c, fault)
       case GetUser(id) =>
         if fault || !HasUser(s.db.users, id) then Finish(c, Failed(UserNotFound), fault)
         else c.(pc := ReadWallet, found := Some(FindUser(s.db.users, id)))
       case GetWallet(owner) =>
         if fault || !HasWalletFor(s.db.wallets, owner) then Finish(c, Failed(WalletNotFound), fault)
         else Finish(c, WalletFound(owner, FindWallet(s.db.wallets, owner).balance), false))
    case Check =>
      if fault then Abort(c, DatabaseError, true)
      else if c.req.CreateWallet? then
        if HasWalletFor(seen.wallets, c.req.userId) then Abort(c, WalletAlreadyExists, false)
        else c.(pc := DrawWallet)
      else
        if HasEmail(seen.users, EmailOf(c.req)) then Abort(c, UserAlreadyExists, false)
        else c.(pc := DrawUser)
    case DrawUser =>
      if fault || s.nextUser > MAX_BIGINT then Abort(c, DatabaseError, fault)
      else c.(pc := PutUser, uid := Some(s.nextUser))
    case PutUser =>
      if fault || UserClash(seen.users, UserRow(c)) then Abort(c, DatabaseError, fault)
      else c.(pc := DrawWallet, writes := c.writes.(users := c.writes.users + [UserRow(c)]))
    case DrawWallet =>
      if fault || s.nextWallet > MAX_BIGINT then Abort(c, DatabaseError, fault)
      else c.(pc := PutWallet, wid := Some(s.nextWallet))
    case PutWallet =>
      if fault || WalletClash(seen.wallets, WalletRow(c)) then Abort(c, DatabaseError, fault)
      else c.(pc := RefCheck, writes := c.writes.(wallets := c.writes.wallets + [WalletRow(c)]))
    case RefCheck =>
      if fault || !HasUser(seen.users, OwnerOf(c)) then Abort(c, DatabaseError, fault)
      else c.(pc := Commit)
    case Commit =>
      if fault then Finish(c, Failed(DatabaseError), true)
      else Finish(c, CommitReply(c), false)
    case Rollback =>
      Finish(c, if c.reply.Some? then c.reply.value else Failed(DatabaseError), false)
    case ReadWallet =>
      // The error of the balance read is dropped and zero is answered.
      var u := if c.found.Some? then c.found.value else User(0, "", "");
      var balance := if fault then 0 else BalanceOf(s.db.wallets, u.id);
      Finish(c, UserFound(u.id, u.name, u.email, balance), fault)
    case Finished => c
  }

  // A failed BEGIN runs no callback and takes no transaction id.
  function BeginCall(s: State, c: Call, fault: bool): Call {
    if fault then Finish(c, Failed(DatabaseError), true)
    else c.(pc := Check, order := Some(s.begun + 1), txId := (s.txSeq + 1) % TWO_64)
  }

  predicate Begins(c: Call, fault: bool) {
    c.pc.Start? && c.req.Writes() && !fault
  }

  function Step(s: State, l: Label): State
    requires CanStep(s, l)
  {
    var c := s.calls[l.call];
    var c' := NextCall(s, c, l.fault).(lost := c.lost || l.lost);
    var commits := Lands(s, l);
    State(
      if commits then Append(s.db, c.writes) else s.db,
      if c.pc.DrawUser? && c'.pc.PutUser? then s.nextUser + 1 else s.nextUser,
      if c.pc.DrawWallet? && c'.pc.PutWallet? then s.nextWallet + 1 else s.nextWallet,
      if Begins(c, l.fault) then (s.txSeq + 1) % TWO_64 else s.txSeq,
      if Begins(c, l.fault) then s.begun + 1 else s.begun,
      s.calls[l.call := c'],
      if commits then s.log + [CommitEntry(l.call, c)] else s.log)
  }

  // ---- Runs ----

  // Any requests at all, over any tables that satisfy the declared constraints
  // and sequences that stand above every stored id.
  ghost predicate Init(base: Tables, s: State) {
    && s.db == base
    && ConstraintsHold(base)
    && (forall u :: u in base.users ==> u.id < s.nextUser)
    && (forall w :: w in base.wallets ==> w.id < s.nextWallet)
    && s.txSeq == 0 && s.begun == 0 && s.log == []
    && forall i :: 0 <= i < |s.calls| ==> s.calls[i] == NewCall(s.calls[i].req)
  }

  predicate IsRun(s: State, run: seq<Label>)
    decreases |run|
  {
    run == [] || (CanStep(s, run[0]) && IsRun(Step(s, run[0]), run[1..]))
  }

  function After(s: State, run: seq<Label>): State
    requires IsRun(s, run)
    decreases |run|
  {
    if run == [] then s else After(Step(s, run[0]), run[1..])
  }

  lemma {:induction false} RunPrefix(s: State, run: seq<Label>, k: nat)
    requires IsRun(s, run) && k <= |run|
    ensures IsRun(s, run[..k])
    ensures IsRun(After(s, run[..k]), run[k..])
    ensures After(After(s, run[..k]), run[k..]) == After(s, run)
    decreases |run|
  {
    if k == 0 {
      assert run[..0] == [] && run[0..] == run;
    } else {
      RunPrefix(Step(s, run[0]), run[1..], k - 1);
      assert run[..k][1..] == run[1..][..k - 1];
      assert run[1..][k - 1..] == run[k..];
    }
  }

  lemma RunCons(s: State, l: Label, tail: seq<Label>)
    requires CanStep(s, l) && IsRun(Step(s, l), tail)
    ensures IsRun(s, [l] + tail) && After(s, [l] + tail) == After(Step(s, l), tail)
  {
    assert ([l] + tail)[1..] == tail;
  }

  lemma {:induction false} RunAppend(s: State, run: seq<Label>, more: seq<Label>)
    requires IsRun(s, run) && IsRun(After(s, run), more)
    ensures IsRun(s, run + more) && After(s, run + more) == After(After(s, run), more)
    decreases |run|
  {
    if run == [] {
      assert run + more == more;
    } else {
      RunAppend(Step(s, run[0]), run[1..], more);
      AppendCons(s, run, more);
    }
  }

  lemma AppendCons(s: State, run: seq<Label>, more: seq<Label>)
    requires run != [] && CanStep(s, run[0]) && IsRun(Step(s, run[0]), run[1..] + more)
    ensures IsRun(s, run + more) && After(s, run + more) == After(Step(s, run[0]), run[1..] + more)
  {
    assert run + more == [run[0]] + (run[1..] + more);
    RunCons(s, run[0], run[1..] + more);
  }

  // The last step of a run, seen from the state before it.
  lemma SplitLast(s0: State, run: seq<Label>)
    requires IsRun(s0, run) && run != []
    ensures var n := |run| - 1;
            && IsRun(s0, run[..n]) && CanStep(After(s0, run[..n]), run[n])
            && After(s0, run) == Step(After(s0, run[..n]), run[n])
  {
    var n := |run| - 1;
    RunPrefix(s0, run, n);
    assert run[n..] == [run[n]] && run[n..][1..] == [];
  }
}
