/**
 The request context: a chain of key/value links, with the transaction, the
 principal and the request id as three of its keys.
 */
module RequestContext {
  import opened Options

  // A database handle: none, the connection pool, or the n-th transaction.
  datatype Handle = NoHandle | Pool | Tx(number: nat)

  datatype TxState = TxState(db: Handle, id: int)

  datatype Principal = Principal(userId: int, subject: string, issuedAt: int, expiresAt: int)

  datatype Key = TxKey | PrincipalKey | RequestIdKey | OtherKey(n: nat)

  datatype Value =
    | TxValue(state: TxState)
    | PrincipalValue(principal: Option<Principal>)
    | RequestIdValue(id: string)
    | OtherValue(n: int)

  datatype Context = Background | WithValue(parent: Context, key: Key, value: Value)

  // The innermost link for a key wins.
  function Lookup(ctx: Context, key: Key): Option<Value> {
    match ctx
    case Background => None
    case WithValue(parent, k, v) => if k == key then Some(v) else Lookup(parent, key)
  }

  // ---- database ----

  function FromState(ctx: Context): Option<TxState> {
    match Lookup(ctx, TxKey)
    case Some(TxValue(state)) => Some(state)
    case _ => None
  }

  function WithTxState(ctx: Context, db: Handle, id: int): Context {
    WithValue(ctx, TxKey, TxValue(TxState(db, id)))
  }

  function WithTx(ctx: Context, db: Handle): Context {
    match FromState(ctx)
    case Some(state) => WithTxState(ctx, db, state.id)
    case None => WithTxState(ctx, db, 0)
  }

  // The handle a repository works on: the context's, or its own.
  function DB(ctx: Context, fallback: Handle): Handle {
    match FromState(ctx)
    case Some(state) => state.db
    case None => fallback
  }

  datatype Scope = Scope(ctx: Context, db: Handle)

  function Use<T>(scope: Scope, factory: Handle -> T): T {
    factory(scope.db)
  }

  // ---- authn; a missing context is a nil interface there ----

  function NewContext(ctx: Option<Context>, principal: Option<Principal>): Context {
    WithValue(if ctx.Some? then ctx.value else Background, PrincipalKey, PrincipalValue(principal))
  }

  function PrincipalOf(ctx: Option<Context>): Option<Principal> {
    if ctx.None? then None
    else
      match Lookup(ctx.value, PrincipalKey)
      case Some(PrincipalValue(principal)) => principal
      case _ => None
  }

  // ---- requestid ----

  function RequestIdOf(ctx: Option<Context>): string {
    if ctx.None? then ""
    else
      match Lookup(ctx.value, RequestIdKey)
      case Some(RequestIdValue(id)) => id
      case _ => ""
  }

  // What the transport offers: the two header spellings, empty when absent.
  datatype Transport = Transport(primary: string, alternate: string)

  function FromTransport(transport: Option<Transport>): string {
    match transport
    case None => ""
    case Some(t) => if t.primary != "" then t.primary else t.alternate
  }

  // The middleware: an id already in the context, else the caller's header,
  // else a generated one; echoed in the reply and passed on in the context.
  method RequestIdServer(ctx: Context, transport: Option<Transport>, generated: string)
    returns (ctx': Context, replyHeader: Option<string>)
    ensures RequestIdOf(Some(ctx')) ==
            if RequestIdOf(Some(ctx)) != "" then RequestIdOf(Some(ctx))
            else if FromTransport(transport) != "" then FromTransport(transport)
            else generated
    ensures RequestIdOf(Some(ctx)) == "" && transport.Some? ==>
              RequestIdOf(Some(ctx')) ==
              if transport.value.primary != "" then transport.value.primary
              else if transport.value.alternate != "" then transport.value.alternate
              else generated
    ensures RequestIdOf(Some(ctx)) == "" && transport.None? ==> RequestIdOf(Some(ctx')) == generated
    ensures replyHeader == if transport.Some? then Some(RequestIdOf(Some(ctx'))) else None
    ensures FromState(ctx') == FromState(ctx) && PrincipalOf(Some(ctx')) == PrincipalOf(Some(ctx))
    ensures generated != "" ==> RequestIdOf(Some(ctx')) != ""
  {
    var requestId := RequestIdOf(Some(ctx));
    if requestId == "" {
      requestId := FromTransport(transport);
    }
    if requestId == "" {
      requestId := generated;
    }
    replyHeader := None;
    if transport.Some? {
      replyHeader := Some(requestId);
    }
    ctx' := WithValue(ctx, RequestIdKey, RequestIdValue(requestId));
  }

  // ---- Contexts derived from one another ----

  // The ways the program extends a context.
  datatype Link =
    | PrincipalLink(principal: Option<Principal>)
    | RequestIdLink(id: string)
    | OtherLink(n: nat, value: int)
    | SwapTx(db: Handle)

  function Extend(ctx: Context, links: seq<Link>): Context {
    if links == [] then ctx
    else
      var before := Extend(ctx, links[..|links| - 1]);
      match links[|links| - 1]
      case PrincipalLink(p) => NewContext(Some(before), p)
      case RequestIdLink(id) => WithValue(before, RequestIdKey, RequestIdValue(id))
      case OtherLink(n, v) => WithValue(before, OtherKey(n), OtherValue(v))
      case SwapTx(db) => WithTx(before, db)
  }

  // What the last link of each kind says, looked for from the end.
  function LastSwap(links: seq<Link>): Option<Handle> {
    if links == [] then None
    else if links[|links| - 1].SwapTx? then Some(links[|links| - 1].db)
    else LastSwap(links[..|links| - 1])
  }

  function LastPrincipal(links: seq<Link>): Option<Option<Principal>> {
    if links == [] then None
    else if links[|links| - 1].PrincipalLink? then Some(links[|links| - 1].principal)
    else LastPrincipal(links[..|links| - 1])
  }

  function LastRequestId(links: seq<Link>): Option<string> {
    if links == [] then None
    else if links[|links| - 1].RequestIdLink? then Some(links[|links| - 1].id)
    else LastRequestId(links[..|links| - 1])
  }

  // The three keys never disturb each other: each lookup is decided by the
  // last link of its own kind, and swapping the handle keeps an inherited id.
  lemma {:induction false} KeysAreIndependent(ctx: Context, links: seq<Link>)
    ensures FromState(Extend(ctx, links)) ==
            (match LastSwap(links)
             case Some(db) => Some(TxState(db, if FromState(ctx).Some? then FromState(ctx).value.id else 0))
             case None => FromState(ctx))
    ensures PrincipalOf(Some(Extend(ctx, links))) ==
            (match LastPrincipal(links)
             case Some(p) => p
             case None => PrincipalOf(Some(ctx)))
    ensures RequestIdOf(Some(Extend(ctx, links))) ==
            (match LastRequestId(links)
             case Some(id) => id
             case None => RequestIdOf(Some(ctx)))
  {
    if links != [] {
      KeysAreIndependent(ctx, links[..|links| - 1]);
    }
  }

  // A context without a link of some kind has no value of that kind, and a
  // repository then works on its own handle; so does a missing context.
  lemma NothingCarried(links: seq<Link>, own: Handle)
    ensures LastSwap(links).None? ==> DB(Extend(Background, links), own) == own
    ensures LastPrincipal(links).None? ==> PrincipalOf(Some(Extend(Background, links))).None?
    ensures LastRequestId(links).None? ==> RequestIdOf(Some(Extend(Background, links))) == ""
    ensures PrincipalOf(None).None? && RequestIdOf(None) == ""
  {
    KeysAreIndependent(Background, links);
  }

  // A principal is read back from the context it was put into, missing or not.
  lemma PrincipalRoundTrip(ctx: Option<Context>, p: Option<Principal>)
    ensures PrincipalOf(Some(NewContext(ctx, p))) == p
    ensures ctx.Some? ==> FromState(NewContext(ctx, p)) == FromState(ctx.value)
  {
  }

  // A scope is coherent when its context carries the handle it hands out.
  predicate Coherent(scope: Scope) {
    FromState(scope.ctx).Some? && FromState(scope.ctx).value.db == scope.db
  }

  // In any context derived from a coherent scope without swapping the handle,
  // a repository made from the scope and one with a handle of its own both
  // work on the scope's transaction.
  lemma RoutingIsCoherent(scope: Scope, links: seq<Link>, own: Handle)
    requires Coherent(scope) && forall k :: 0 <= k < |links| ==> !links[k].SwapTx?
    ensures Use(scope, h => h) == scope.db && DB(Extend(scope.ctx, links), Use(scope, h => h)) == scope.db
    ensures DB(Extend(scope.ctx, links), own) == scope.db
    ensures FromState(Extend(scope.ctx, links)) == FromState(scope.ctx)
  {
    KeysAreIndependent(scope.ctx, links);
    NoSwap(links);
  }

  lemma {:induction false} NoSwap(links: seq<Link>)
    requires forall k :: 0 <= k < |links| ==> !links[k].SwapTx?
    ensures LastSwap(links).None?
  {
    if links != [] {
      NoSwap(links[..|links| - 1]);
    }
  }
}
