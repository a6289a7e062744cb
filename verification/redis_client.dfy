/**
 * The client side of the remote list store: the handful of list commands the
 * queue issues against its one key, how a reply is classified as success or
 * failure, and the connect / reconnect / liveness-probe life cycle.
 *
 * The network is an oracle: every command meets a `Fault`, which says whether
 * the server answered normally, not at all, or with an error-typed reply.
 * A command that got no reply or an error reply is taken not to have changed
 * the list.
 */
module RedisClient {
  import opened Wrappers
  import opened Messages

  /** How one round trip went. */
  datatype Fault = Healthy | NoReply | ErrorReply

  /** The reply kinds the queue distinguishes. */
  datatype Reply =
    | StatusReply
    | IntegerReply(n: int)
    | ArrayReply(items: seq<Msg>)
    | BulkReply(item: Msg)
    | NilReply
    | ErrReply

  /** The list commands issued against the queue's key. */
  datatype ListCommand =
    | LLen              // LLEN key
    | LRangeHead        // LRANGE key 0 0
    | RPush(item: Msg)  // RPUSH key <serialised message>
    | LPop              // LPOP key

  /** The reply (None when none arrived) and the list afterwards. */
  datatype Outcome = Outcome(reply: Option<Reply>, store: seq<Msg>)

  /** What a server that answers normally replies to `cmd` on list `store`. */
  function Respond(store: seq<Msg>, cmd: ListCommand): Reply
  {
    match cmd
    case LLen => IntegerReply(|store|)
    case LRangeHead => ArrayReply(if store == [] then [] else store[..1])
    case RPush(item) => IntegerReply(|store| + 1)
    case LPop => if store == [] then NilReply else BulkReply(store[0])
  }

  /** The list after a normally answered `cmd`. */
  function Apply(store: seq<Msg>, cmd: ListCommand): seq<Msg>
  {
    match cmd
    case RPush(item) => store + [item]
    case LPop => if store == [] then [] else store[1..]
    case _ => store
  }

  /** What reaches the client when the server would have answered `normal`. */
  function Deliver(fault: Fault, normal: Reply): Option<Reply>
  {
    match fault
    case Healthy => Some(normal)
    case NoReply => None
    case ErrorReply => Some(ErrReply)
  }

  function Execute(store: seq<Msg>, cmd: ListCommand, fault: Fault): Outcome
  {
    Outcome(Deliver(fault, Respond(store, cmd)),
            if fault == Healthy then Apply(store, cmd) else store)
  }

  /** `_send_redis_command`: true iff a reply arrived and it is not an error. */
  function SendCommand(reply: Option<Reply>): (ok: bool)
    ensures reply == None ==> !ok
    ensures reply == Some(ErrReply) ==> !ok
    ensures reply.Some? && reply.value != ErrReply ==> ok
  {
    reply.Some? && !reply.value.ErrReply?
  }

  /** `_get_redis_reply`: the reply when it is a non-error one, nothing otherwise. */
  function GetReply(reply: Option<Reply>): (r: Option<Reply>)
    ensures r.Some? <==> SendCommand(reply)
    ensures r.Some? ==> r == reply && r.value != ErrReply
  {
    if SendCommand(reply) then reply else None
  }

  /**
   * A command counts as sent exactly when the round trip was healthy: the
   * client cannot tell a lost reply from a rejected command, and a list
   * command that failed leaves the list as it was.
   */
  lemma CommandSucceedsIffHealthy(store: seq<Msg>, cmd: ListCommand, fault: Fault)
    ensures SendCommand(Execute(store, cmd, fault).reply) <==> fault == Healthy
    ensures GetReply(Execute(store, cmd, fault).reply).Some? <==> fault == Healthy
    ensures fault != Healthy ==> Execute(store, cmd, fault).store == store
  {
  }

  // ---------------------------------------------------------------------
  // Connection life cycle
  // ---------------------------------------------------------------------

  /** Immutable connection configuration. */
  datatype Options = Options(host: string, port: int, connTimeout: int, auth: Option<string>, keyprefix: string)

  /** The client context: none, or one that may carry a connection error. */
  datatype Context = NoContext | Context(err: bool)

  datatype Server = Server(options: Options, ctx: Context)

  /**
   * The oracle for one connection attempt: whether opening the context
   * failed, and how the AUTH and PING round trips went.
   */
  datatype ConnectAttempt = ConnectAttempt(ctxError: bool, authFault: Fault, pingFault: Fault)

  /** A server state together with the boolean an operation reported. */
  datatype Status = Status(server: Server, ok: bool)

  /** A PING or AUTH: no reply ever arrives on a context that carries an error. */
  function ControlCommand(ctx: Context, fault: Fault): (ok: bool)
    ensures ok <==> ctx == Context(false) && fault == Healthy
  {
    ctx == Context(false) && SendCommand(Deliver(fault, StatusReply))
  }

  /**
   * `_redis_connect`: open a context, authenticate when a password is
   * configured, then ping. The new context is kept even when a step fails.
   */
  function Connect(s: Server, a: ConnectAttempt): (r: Status)
    ensures r.server == s.(ctx := Context(a.ctxError))
    ensures r.ok ==> !a.ctxError && a.pingFault == Healthy
    ensures r.ok && s.options.auth.Some? ==> a.authFault == Healthy
    ensures !a.ctxError && a.pingFault == Healthy && (s.options.auth.Some? ==> a.authFault == Healthy) ==> r.ok
  {
    var conn := s.(ctx := Context(a.ctxError));
    if conn.ctx.err then Status(conn, false)
    else if s.options.auth.Some? && !ControlCommand(conn.ctx, a.authFault) then Status(conn, false)
    else if !ControlCommand(conn.ctx, a.pingFault) then Status(conn, false)
    else Status(conn, true)
  }

  /** `_redis_disconnect`: release the context, if there is one. */
  function Disconnect(s: Server): (r: Server)
    ensures r.ctx == NoContext && r.options == s.options
  {
    s.(ctx := NoContext)
  }

  /** Disconnecting twice is the same as disconnecting once. */
  lemma DisconnectIdempotent(s: Server)
    ensures Disconnect(Disconnect(s)) == Disconnect(s)
  {
  }

  /** `_redis_reconnect`: drop the old context, then connect afresh. */
  function Reconnect(s: Server, a: ConnectAttempt): (r: Status)
    ensures r.server.ctx == Context(a.ctxError) && r.server.options == s.options
    ensures r.ok == Connect(s, a).ok
  {
    Connect(Disconnect(s), a)
  }

  /**
   * `_is_redis_connection_alive`: ping; only if the ping fails, make one
   * reconnect attempt and report its result. There is no second attempt.
   */
  function IsAlive(s: Server, pingFault: Fault, a: ConnectAttempt): (r: Status)
    requires s.ctx.Context?
    ensures ControlCommand(s.ctx, pingFault) ==> r == Status(s, true)
    ensures !ControlCommand(s.ctx, pingFault) ==> r == Reconnect(s, a)
    ensures r.ok <==> (!s.ctx.err && pingFault == Healthy) || Connect(s, a).ok
  {
    if ControlCommand(s.ctx, pingFault) then Status(s, true)
    else Reconnect(s, a)
  }

  /** `_redis_server_new`: connect once at construction, ignoring the outcome. */
  function NewServer(options: Options, a: ConnectAttempt): (s: Server)
    ensures s.options == options && s.ctx.Context?
    ensures s.ctx == Context(a.ctxError)
  {
    Connect(Server(options, NoContext), a).server
  }
}
