/**
 The two tables, the constraints the migrations declare on them, and the meaning
 of one request run alone against them.

 Tables are sequences of rows in commit order. Nothing in the type makes keys
 unique: uniqueness is proved of the reachable tables, not assumed.
 */
module Store {

  datatype User = User(id: int, name: string, email: string)

  datatype Wallet = Wallet(id: int, userId: int, balance: int)

  datatype Tables = Tables(users: seq<User>, wallets: seq<Wallet>)

  const EMPTY_TABLES := Tables([], [])

  // BIGSERIAL columns draw from a sequence that ends here.
  const MAX_BIGINT: int := 0x7FFF_FFFF_FFFF_FFFF

  // The counter of transaction ids is an unsigned 64-bit integer.
  const TWO_64: int := 0x1_0000_0000_0000_0000

  function Pow2(n: nat): int {
    if n == 0 then 1 else 2 * Pow2(n - 1)
  }

  lemma {:induction false} Doubling(n: nat, k: nat)
    ensures Pow2(n + k) == Pow2(n) * Pow2(k)
  {
    if n > 0 {
      Doubling(n - 1, k);
    }
  }

  // Both widths are what their types say: 63 bits and a sign, and 64 bits.
  lemma Widths()
    ensures MAX_BIGINT + 1 == Pow2(63) && TWO_64 == Pow2(64)
  {
    assert Pow2(4) == 16;
    Doubling(4, 4);
    Doubling(8, 8);
    Doubling(16, 16);
    Doubling(32, 32);
    assert Pow2(64) == 2 * Pow2(63);
  }

  predicate HasUser(users: seq<User>, id: int) {
    exists u :: u in users && u.id == id
  }

  predicate HasEmail(users: seq<User>, email: string) {
    exists u :: u in users && u.email == email
  }

  predicate HasWallet(wallets: seq<Wallet>, id: int) {
    exists w :: w in wallets && w.id == id
  }

  predicate HasWalletFor(wallets: seq<Wallet>, userId: int) {
    exists w :: w in wallets && w.userId == userId
  }

  // PRIMARY KEY (id) and UNIQUE (email) on users.
  predicate UserClash(users: seq<User>, row: User) {
    HasUser(users, row.id) || HasEmail(users, row.email)
  }

  // PRIMARY KEY (id) and UNIQUE (user_id) on wallets.
  predicate WalletClash(wallets: seq<Wallet>, row: Wallet) {
    HasWallet(wallets, row.id) || HasWalletFor(wallets, row.userId)
  }

  function FindUser(users: seq<User>, id: int): (u: User)
    requires HasUser(users, id)
    ensures u in users && u.id == id
  {
    if users[0].id == id then users[0] else FindUser(users[1..], id)
  }

  function FindWallet(wallets: seq<Wallet>, userId: int): (w: Wallet)
    requires HasWalletFor(wallets, userId)
    ensures w in wallets && w.userId == userId
  {
    if wallets[0].userId == userId then wallets[0] else FindWallet(wallets[1..], userId)
  }

  // The balance a reader is told: zero when the user has no wallet row.
  function BalanceOf(wallets: seq<Wallet>, userId: int): int {
    if HasWalletFor(wallets, userId) then FindWallet(wallets, userId).balance else 0
  }

  function Append(t: Tables, more: Tables): Tables {
    Tables(t.users + more.users, t.wallets + more.wallets)
  }

  ghost predicate UniqueUsers(users: seq<User>) {
    forall i, j :: 0 <= i < j < |users| ==> users[i].id != users[j].id && users[i].email != users[j].email
  }

  ghost predicate UniqueWallets(wallets: seq<Wallet>) {
    forall i, j :: 0 <= i < j < |wallets| ==>
      wallets[i].id != wallets[j].id && wallets[i].userId != wallets[j].userId
  }

  ghost predicate ForeignKeysHold(t: Tables) {
    forall w :: w in t.wallets ==> HasUser(t.users, w.userId)
  }

  // What the declared constraints promise of committed tables.
  ghost predicate ConstraintsHold(t: Tables) {
    UniqueUsers(t.users) && UniqueWallets(t.wallets) && ForeignKeysHold(t)
  }

  // A user row without a wallet row: no request of this program makes one.
  ghost predicate Orphan(t: Tables, id: int) {
    HasUser(t.users, id) && !HasWalletFor(t.wallets, id)
  }

  // ---- Requests and replies ----

  datatype Request =
    | CreateUser(name: string, email: string)
    | CreateWallet(userId: int)
    | GetUser(id: int)
    | GetWallet(owner: int)
  {
    // The requests that run inside a unit of work.
    predicate Writes() {
      CreateUser? || CreateWallet?
    }
  }

  datatype Error =
    | UserAlreadyExists
    | WalletAlreadyExists
    | UserNotFound
    | WalletNotFound
    | DatabaseError
    | TransactorNotConfigured
    | AppError(code: int)

  datatype Reply =
    | UserCreated(id: int, name: string, email: string)
    | WalletCreated(userId: int, balance: int)
    | UserFound(foundId: int, foundName: string, foundEmail: string, walletBalance: int)
    | WalletFound(owner: int, held: int)
    | Failed(error: Error)
  {
    predicate Commits() {
      UserCreated? || WalletCreated?
    }
  }

  datatype Served = Served(reply: Reply, after: Tables)

  // One request as a single atomic operation. The ids are the ones the two
  // sequences hand out; a reading request ignores them.
  function Serial(t: Tables, req: Request, uid: int, wid: int): Served {
    match req
    case CreateUser(name, email) =>
      var user := User(uid, name, email);
      var wallet := Wallet(wid, uid, 0);
      if HasEmail(t.users, email) then Served(Failed(UserAlreadyExists), t)
      else if UserClash(t.users, user) || WalletClash(t.wallets, wallet) then Served(Failed(DatabaseError), t)
      else Served(UserCreated(uid, name, email), Tables(t.users + [user], t.wallets + [wallet]))
    case CreateWallet(userId) =>
      var wallet := Wallet(wid, userId, 0);
      if HasWalletFor(t.wallets, userId) then Served(Failed(WalletAlreadyExists), t)
      else if WalletClash(t.wallets, wallet) || !HasUser(t.users, userId) then Served(Failed(DatabaseError), t)
      else Served(WalletCreated(userId, 0), Tables(t.users, t.wallets + [wallet]))
    case GetUser(id) =>
      if HasUser(t.users, id) then
        var u := FindUser(t.users, id);
        Served(UserFound(u.id, u.name, u.email, BalanceOf(t.wallets, u.id)), t)
      else Served(Failed(UserNotFound), t)
    case GetWallet(owner) =>
      if HasWalletFor(t.wallets, owner) then
        Served(WalletFound(owner, FindWallet(t.wallets, owner).balance), t)
      else Served(Failed(WalletNotFound), t)
  }

  // Whatever a request does alone, the declared constraints survive it, and
  // it can only turn an orphan into a user with a wallet, never make one.
  lemma SerialKeepsConstraints(t: Tables, req: Request, uid: int, wid: int)
    requires ConstraintsHold(t)
    ensures ConstraintsHold(Serial(t, req, uid, wid).after)
    ensures forall id :: Orphan(Serial(t, req, uid, wid).after, id) ==> Orphan(t, id)
    ensures !Serial(t, req, uid, wid).reply.Commits() ==> Serial(t, req, uid, wid).after == t
  {
    var t' := Serial(t, req, uid, wid).after;
    if t' != t {
      match req
      case CreateUser(name, email) =>
        assert t'.users == t.users + [User(uid, name, email)];
        var w := Wallet(wid, uid, 0);
        assert t'.wallets == t.wallets + [w];
        assert User(uid, name, email) in t'.users && w in t'.wallets;
        AppendedRows(t.users, t'.users, t.wallets, t'.wallets);
      case CreateWallet(userId) =>
        AppendedRows(t.users, t'.users, t.wallets, t'.wallets);
      case _ =>
    }
  }

  // The declared constraints admit a row exactly when its keys are not stored,
  // and a wallet's user is.
  lemma AdmittedIff(t: Tables, u: User, w: Wallet)
    requires ConstraintsHold(t)
    ensures ConstraintsHold(Append(t, Tables([u], []))) <==> !UserClash(t.users, u)
    ensures ConstraintsHold(Append(t, Tables([], [w]))) <==> !WalletClash(t.wallets, w) && HasUser(t.users, w.userId)
  {
    var users, wallets := t.users + [u], t.wallets + [w];
    assert Append(t, Tables([u], [])) == Tables(users, t.wallets);
    assert Append(t, Tables([], [w])) == Tables(t.users, wallets);
    AppendedRows(t.users, users, t.wallets, wallets);
    UserAdmitted(t.users, u);
    WalletAdmitted(t.wallets, w);
    assert w in wallets;
    assert forall v :: v in wallets <==> v in t.wallets || v == w;
  }

  lemma UserAdmitted(users: seq<User>, u: User)
    requires UniqueUsers(users)
    ensures UniqueUsers(users + [u]) <==> !UserClash(users, u)
  {
    var more := users + [u];
    if UserClash(users, u) {
      var v :| v in users && (v.id == u.id || v.email == u.email);
      var i :| 0 <= i < |users| && users[i] == v;
      assert more[i] == v && more[|users|] == u;
    } else {
      forall i | 0 <= i < |users| ensures more[i].id != u.id && more[i].email != u.email {
        assert users[i] in users;
      }
    }
  }

  lemma WalletAdmitted(wallets: seq<Wallet>, w: Wallet)
    requires UniqueWallets(wallets)
    ensures UniqueWallets(wallets + [w]) <==> !WalletClash(wallets, w)
  {
    var more := wallets + [w];
    if WalletClash(wallets, w) {
      var v :| v in wallets && (v.id == w.id || v.userId == w.userId);
      var i :| 0 <= i < |wallets| && wallets[i] == v;
      assert more[i] == v && more[|wallets|] == w;
    } else {
      forall i | 0 <= i < |wallets| ensures more[i].id != w.id && more[i].userId != w.userId {
        assert wallets[i] in wallets;
      }
    }
  }

  // ---- The same in the rows alone ----

  // A user and a wallet of balance zero were added, under keys not stored before.
  ghost predicate UserAdded(before: Tables, after: Tables, reply: Reply, name: string, email: string) {
    && reply.UserCreated? && reply.name == name && reply.email == email
    && (forall u :: u in before.users ==> u.email != email && u.id != reply.id)
    && (forall w :: w in before.wallets ==> w.userId != reply.id)
    && after.users == before.users + [User(reply.id, name, email)]
    && |after.wallets| == |before.wallets| + 1 && before.wallets <= after.wallets
    && after.wallets[|before.wallets|].userId == reply.id && after.wallets[|before.wallets|].balance == 0
  }

  ghost predicate WalletAdded(before: Tables, after: Tables, reply: Reply, userId: int) {
    && reply.WalletCreated? && reply.userId == userId && reply.balance == 0
    && (exists u :: u in before.users && u.id == userId)
    && (forall w :: w in before.wallets ==> w.userId != userId)
    && after.users == before.users
    && |after.wallets| == |before.wallets| + 1 && before.wallets <= after.wallets
    && after.wallets[|before.wallets|].userId == userId && after.wallets[|before.wallets|].balance == 0
  }

  // A stored user is answered with its row, and with the balance of its wallet
  // row if it has one and that was read.
  ghost predicate UserRead(t: Tables, id: int, reply: Reply, balanceRead: bool) {
    if exists u :: u in t.users && u.id == id then
      && reply.UserFound? && reply.foundId == id && User(id, reply.foundName, reply.foundEmail) in t.users
      && if balanceRead && exists w :: w in t.wallets && w.userId == id
         then exists w :: w in t.wallets && w.userId == id && w.balance == reply.walletBalance
         else reply.walletBalance == 0
    else reply == Failed(UserNotFound)
  }

  ghost predicate WalletRead(t: Tables, userId: int, reply: Reply) {
    if exists w :: w in t.wallets && w.userId == userId then
      && reply.WalletFound? && reply.owner == userId
      && exists w :: w in t.wallets && w.userId == userId && w.balance == reply.held
    else reply == Failed(WalletNotFound)
  }

  // The two atomic reads, for whatever tables.
  lemma SerialIsRead(t: Tables, id: int)
    ensures UserRead(t, id, Serial(t, GetUser(id), 0, 0).reply, true)
    ensures var found := Serial(t, GetUser(id), 0, 0).reply;
            found.UserFound? ==> UserRead(t, id, found.(walletBalance := 0), false)
    ensures WalletRead(t, id, Serial(t, GetWallet(id), 0, 0).reply)
  {
    if HasWalletFor(t.wallets, id) {
      assert FindWallet(t.wallets, id) in t.wallets;
    }
    if HasUser(t.users, id) {
      var u := FindUser(t.users, id);
      assert u == User(id, u.name, u.email);
    }
  }

  // Above every stored id there is always a next one.
  ghost predicate IdsBelow(t: Tables, nextUser: int, nextWallet: int) {
    && (forall u :: u in t.users ==> u.id < nextUser)
    && (forall w :: w in t.wallets ==> w.id < nextWallet)
  }

  // With fresh ids CreateUser adds its rows exactly when the email is new, and
  // CreateWallet exactly when the user is there and has no wallet.
  lemma SerialWrites(t: Tables, req: Request, uid: int, wid: int)
    requires ConstraintsHold(t) && IdsBelow(t, uid, wid)
    ensures var r := Serial(t, req, uid, wid);
            && (req.CreateUser? ==>
                  if forall u :: u in t.users ==> u.email != req.email
                  then UserAdded(t, r.after, r.reply, req.name, req.email)
                  else r.reply == Failed(UserAlreadyExists) && r.after == t)
            && (req.CreateWallet? ==>
                  if exists w :: w in t.wallets && w.userId == req.userId
                  then r.reply == Failed(WalletAlreadyExists) && r.after == t
                  else if exists u :: u in t.users && u.id == req.userId
                  then WalletAdded(t, r.after, r.reply, req.userId)
                  else r.reply == Failed(DatabaseError) && r.after == t)
  {
    if req.CreateUser? {
      forall w | w in t.wallets ensures w.userId != uid {
        assert HasUser(t.users, w.userId);
      }
    }
  }

  // A stored user is read with its own name and email and its wallet's balance,
  // a stored wallet with its balance; what is not stored is not found.
  lemma SerialReads(t: Tables, u: User, w: Wallet, id: int)
    requires ConstraintsHold(t)
    ensures u in t.users && w in t.wallets && w.userId == u.id ==>
              Serial(t, GetUser(u.id), 0, 0) == Served(UserFound(u.id, u.name, u.email, w.balance), t)
    ensures u in t.users && (forall v :: v in t.wallets ==> v.userId != u.id) ==>
              Serial(t, GetUser(u.id), 0, 0) == Served(UserFound(u.id, u.name, u.email, 0), t)
    ensures w in t.wallets ==> Serial(t, GetWallet(w.userId), 0, 0) == Served(WalletFound(w.userId, w.balance), t)
    ensures (forall v :: v in t.users ==> v.id != id) ==>
              Serial(t, GetUser(id), 0, 0) == Served(Failed(UserNotFound), t)
    ensures (forall v :: v in t.wallets ==> v.userId != id) ==>
              Serial(t, GetWallet(id), 0, 0) == Served(Failed(WalletNotFound), t)
  {
    if u in t.users {
      FindUserUnique(t.users, u);
    }
    if w in t.wallets {
      FindWalletUnique(t.wallets, w);
    }
  }

  // What CreateUser added is what GetUser and GetWallet then read.
  lemma CreatedIsRead(before: Tables, after: Tables, reply: Reply, name: string, email: string)
    requires ConstraintsHold(after) && UserAdded(before, after, reply, name, email)
    ensures Serial(after, GetUser(reply.id), 0, 0).reply == UserFound(reply.id, name, email, 0)
    ensures Serial(after, GetWallet(reply.id), 0, 0).reply == WalletFound(reply.id, 0)
  {
    var u, w := after.users[|before.users|], after.wallets[|before.wallets|];
    assert u in after.users && w in after.wallets;
    SerialReads(after, u, w, 0);
  }

  // Keys present in a table stay present when rows are appended.
  lemma AppendedRows(us: seq<User>, us': seq<User>, ws: seq<Wallet>, ws': seq<Wallet>)
    requires us <= us' && ws <= ws'
    ensures forall id :: HasUser(us, id) ==> HasUser(us', id)
    ensures forall id :: HasWalletFor(ws, id) ==> HasWalletFor(ws', id)
    ensures forall u :: u in us ==> u in us'
    ensures forall w :: w in ws ==> w in ws'
  {
    forall id | HasUser(us, id) ensures HasUser(us', id) {
      var u :| u in us && u.id == id;
      assert u in us';
    }
    forall id | HasWalletFor(ws, id) ensures HasWalletFor(ws', id) {
      var w :| w in ws && w.userId == id;
      assert w in ws';
    }
  }

  // With unique ids a lookup does not depend on where the row sits.
  lemma FindUserUnique(users: seq<User>, u: User)
    requires UniqueUsers(users) && u in users
    ensures HasUser(users, u.id) && FindUser(users, u.id) == u
  {
    var f := FindUser(users, u.id);
    var i :| 0 <= i < |users| && users[i] == u;
    var j :| 0 <= j < |users| && users[j] == f;
    assert i < j || j < i || i == j;
  }

  lemma FindWalletUnique(wallets: seq<Wallet>, w: Wallet)
    requires UniqueWallets(wallets) && w in wallets
    ensures HasWalletFor(wallets, w.userId) && FindWallet(wallets, w.userId) == w
  {
    var f := FindWallet(wallets, w.userId);
    var i :| 0 <= i < |wallets| && wallets[i] == w;
    var j :| 0 <= j < |wallets| && wallets[j] == f;
    assert i < j || j < i || i == j;
  }
}
