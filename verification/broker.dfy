/**
 * The broker service (`MessengerService`) as a sequential state machine.
 *
 * The registry maps each nickname to the inbound channel of its session. A
 * session's `queue` is everything pushed into that channel, in push order;
 * `closed` says the client has dropped its receiving end, which is what makes
 * `UnboundedSender::send` fail and `is_closed` answer true. A session evicted
 * from the registry is closed and nothing can reach it any more, so the model
 * forgets it.
 */
module Broker {
  import opened Wrappers
  import opened Messages
  import opened LogStore

  /** One registered client's inbound channel. */
  datatype Session = Session(queue: seq<Message>, closed: bool)

  /** The channel a fresh registration creates: empty, receiver held. */
  const Fresh := Session([], false)

  /** Registry plus the Redis keyspace. */
  datatype Server = Server(clients: map<string, Session>, store: Store)

  /** Why an `Internal` status was returned. */
  datatype Cause = DeliveryFailed | StoreFailed | HistoryFailed

  /** The gRPC status a call ends with; `Ok` is `MessageResponse { success: true }` or the returned stream. */
  datatype Status = Ok | NotFound | AlreadyExists | Internal(cause: Cause)

  /** The state after a call and the status it returned. */
  datatype Step = Step(server: Server, status: Status)

  /** `nick` is registered and its client still holds the receiving end. */
  predicate Live(s: Server, nick: string)
  {
    nick in s.clients && !s.clients[nick].closed
  }

  /** `UnboundedSender::send`: fails when the receiver is gone, otherwise the message joins the end of the queue. */
  function Deliver(session: Session, m: Message): (r: Option<Session>)
    ensures r.Some? <==> !session.closed
    ensures r.Some? ==> !r.value.closed && r.value.queue == session.queue + [m]
  {
    if session.closed then None else Some(session.(queue := session.queue + [m]))
  }

  /**
   * The replay loop of `receive_messages`: push the history messages one by
   * one and stop at the first push that fails.
   */
  function Replay(session: Session, history: seq<Message>): (r: Session)
    ensures r.closed == session.closed
    ensures session.closed ==> r == session
    ensures !session.closed ==> r.queue == session.queue + history
    decreases |history|
  {
    if history == [] then session
    else
      match Deliver(session, history[0])
      case None => session
      case Some(next) =>
        assert session.queue + history == next.queue + history[1..];
        Replay(next, history[1..])
  }

  /** `send_message`: route `m` to its recipient's channel, then record it in both logs. */
  function Send(s: Server, m: Message, link: Link): (r: Step)
    // The store never changes unless the recipient's channel accepted the message.
    ensures !Live(s, m.recipient) ==> r.server == s
    // The lookup does not look at liveness: an unknown nickname is NotFound,
    // a registered but dropped one fails the push.
    ensures m.recipient !in s.clients ==> r.status == NotFound
    ensures m.recipient in s.clients && s.clients[m.recipient].closed ==> r.status == Internal(DeliveryFailed)
    // A live recipient receives the message at the end of its queue; no other channel changes.
    ensures Live(s, m.recipient) ==>
              && r.server.clients.Keys == s.clients.Keys
              && r.server.clients[m.recipient] == Session(s.clients[m.recipient].queue + [m], false)
              && (forall n :: n in s.clients && n != m.recipient ==> r.server.clients[n] == s.clients[n])
    // After the push, the outcome is decided by the store alone.
    ensures Live(s, m.recipient) ==>
              && r.server.store == StoreMessage(s.store, m, link).store
              && (r.status == Ok <==> Affords(link, 2 * Cost(m)))
              && (r.status != Ok ==> r.status == Internal(StoreFailed))
  {
    if m.recipient in s.clients then
      match Deliver(s.clients[m.recipient], m)
      case None => Step(s, Internal(DeliveryFailed))
      case Some(session) =>
        var w := StoreMessage(s.store, m, link);
        Step(Server(s.clients[m.recipient := session], w.store), if w.ok then Ok else Internal(StoreFailed))
    else
      Step(s, NotFound)
  }

  /**
   * `receive_messages`: admit a session for `nick`. A live entry refuses the
   * call; a stale one is evicted and the registration retried, which then
   * finds the slot vacant, so the retry happens at most once. On a vacant slot
   * the new channel is inserted first and the stored history replayed into it;
   * when the history cannot be read the call fails and its receiver is
   * dropped, leaving a closed entry behind.
   */
  function Register(s: Server, nick: string, link: Link): (r: Step)
    // Registration only reads the store.
    ensures r.server.store == s.store
    // A live session is never replaced.
    ensures Live(s, nick) ==> r == Step(s, AlreadyExists)
    // Otherwise `nick` ends up with a new entry and every other entry is kept.
    ensures !Live(s, nick) ==>
              && r.server.clients.Keys == s.clients.Keys + {nick}
              && (forall n :: n in s.clients && n != nick ==> r.server.clients[n] == s.clients[n])
    // With the history readable, the new live channel holds the decodable stored messages in stored order.
    ensures !Live(s, nick) && Up(link) ==>
              && r.status == Ok
              && r.server.clients[nick] == Session(DecodeAll(LogOf(s.store, nick).entries), false)
    // Without it, the call fails and the fresh entry is already stale.
    ensures !Live(s, nick) && !Up(link) ==>
              r.status == Internal(HistoryFailed) && r.server.clients[nick] == Session([], true)
    decreases if nick in s.clients then 1 else 0
  {
    if nick in s.clients then
      if s.clients[nick].closed then Register(Evict(s, nick), nick, link)
      else Step(s, AlreadyExists)
    else
      var inserted := s.clients[nick := Fresh];
      match History(s.store, nick, link)
      case None => Step(s.(clients := inserted[nick := Fresh.(closed := true)]), Internal(HistoryFailed))
      case Some(history) => Step(s.(clients := inserted[nick := Replay(Fresh, history)]), Ok)
  }

  /** `Entry::remove` on a stale registry entry. */
  function Evict(s: Server, nick: string): (r: Server)
    ensures nick !in r.clients
    ensures r.store == s.store
    ensures forall n :: n != nick ==> (n in r.clients <==> n in s.clients)
    ensures forall n :: n in r.clients ==> r.clients[n] == s.clients[n]
  {
    s.(clients := s.clients - {nick})
  }

  /** The client drops its inbound stream: its channel closes, and the registry is not told. */
  function Disconnect(s: Server, nick: string): (r: Server)
    ensures !Live(r, nick)
    ensures r.store == s.store
    ensures r.clients.Keys == s.clients.Keys
    ensures nick in s.clients ==> r.clients[nick].queue == s.clients[nick].queue
    ensures forall n :: n in s.clients && n != nick ==> r.clients[n] == s.clients[n]
  {
    if nick in s.clients then s.(clients := s.clients[nick := s.clients[nick].(closed := true)]) else s
  }
}
