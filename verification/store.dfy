/**
 * The persistent per-user message log kept in Redis: one list per user under
 * the key `user:<name>:messages`, appended with RPUSH, given a whole-key
 * expiry with EXPIREAT, and read back in full with LRANGE 0 -1.
 *
 * Redis failures are an input. A `Link` says how many of the Redis commands
 * issued by one broker call still succeed. The first one that fails may or may
 * not have taken effect (`applied`: Redis ran it but the reply was lost), and
 * the broker call stops after it (the `?` operator in the source).
 */
module LogStore {
  import opened Wrappers
  import opened Messages

  /** One Redis list together with the absolute expiry (epoch seconds) of its key. */
  datatype Log = Log(entries: seq<Entry>, expiry: Option<int>)

  /** The Redis keyspace, as far as the broker uses it. */
  type Store = map<string, Log>

  /** The list of a key that does not exist: empty and without expiry. */
  const EmptyLog := Log([], None)

  /** The Redis key holding a user's log. */
  function Key(user: string): (k: string)
    ensures |k| == |user| + 14
    ensures k[5..5 + |user|] == user
  {
    "user:" + user + ":messages"
  }

  /** Distinct users never share a key, so the store can be read per user. */
  lemma KeyInjective(u: string, v: string)
    requires Key(u) == Key(v)
    ensures u == v
  {
  }

  /** The log of `user`; a missing key reads as the empty list. */
  function LogOf(s: Store, user: string): Log
  {
    if Key(user) in s then s[Key(user)] else EmptyLog
  }

  /**
   * The Redis connection as one broker call sees it. On a failing link the
   * first `budget` commands of the call succeed and the next one reports an
   * error; `applied` says whether that command took effect all the same (the
   * command ran but its reply was lost).
   */
  datatype Link =
    | Healthy
    | FailsAfter(budget: nat, applied: bool)

  /** Command number `k` of the call (counting from 0) reports success. */
  predicate Succeeds(link: Link, k: nat)
  {
    link.Healthy? || k < link.budget
  }

  /** Command number `k` of the call takes effect, whether or not it reports success. */
  predicate Lands(link: Link, k: nat)
  {
    Succeeds(link, k) || (link.FailsAfter? && k == link.budget && link.applied)
  }

  /** The next command on this link succeeds. */
  predicate Up(link: Link)
  {
    Succeeds(link, 0)
  }

  /** The link after one successful command. */
  function Spend(link: Link): (l: Link)
    requires Up(link)
    ensures l.Healthy? <==> link.Healthy?
    ensures l.FailsAfter? ==> l.budget == link.budget - 1 && l.applied == link.applied
  {
    match link
    case Healthy => Healthy
    case FailsAfter(n, applied) => FailsAfter(n - 1, applied)
  }

  /** The next `n` commands on this link all succeed. */
  predicate Affords(link: Link, n: nat)
  {
    link.Healthy? || link.budget >= n
  }

  /** Redis commands issued to store one message for one user: RPUSH, plus EXPIREAT when an expiry is asked for. */
  function Cost(m: Message): (n: nat)
    ensures n == 1 <==> m.deleteTimestamp == 0
    ensures 1 <= n <= 2
  {
    if m.deleteTimestamp != 0 then 2 else 1
  }

  /** The store after a sequence of commands, the link left for the next command, and whether all succeeded. */
  datatype Written = Written(store: Store, link: Link, ok: bool)

  /** RPUSH: append one entry to a user's list, creating the key when missing; the key's expiry is kept. */
  function RPush(s: Store, user: string, e: Entry): (r: Store)
    ensures Key(user) in r
    ensures LogOf(r, user) == LogOf(s, user).(entries := LogOf(s, user).entries + [e])
    ensures forall u :: u != user ==> LogOf(r, u) == LogOf(s, u)
  {
    var log := LogOf(s, user);
    var r := s[Key(user) := log.(entries := log.entries + [e])];
    assert forall u :: u != user ==> LogOf(r, u) == LogOf(s, u) by {
      forall u | u != user ensures LogOf(r, u) == LogOf(s, u) {
        if Key(u) == Key(user) { KeyInjective(u, user); }
      }
    }
    r
  }

  /**
   * EXPIREAT: set (overwrite) the absolute expiry of a user's key. On a key
   * that does not exist Redis answers 0 and creates nothing.
   */
  function ExpireAt(s: Store, user: string, t: int): (r: Store)
    ensures Key(user) !in s ==> r == s
    ensures Key(user) in s ==> Key(user) in r && LogOf(r, user) == LogOf(s, user).(expiry := Some(t))
    ensures forall u :: u != user ==> LogOf(r, u) == LogOf(s, u)
  {
    if Key(user) !in s then s else
    var log := LogOf(s, user);
    var r := s[Key(user) := log.(expiry := Some(t))];
    assert forall u :: u != user ==> LogOf(r, u) == LogOf(s, u) by {
      forall u | u != user ensures LogOf(r, u) == LogOf(s, u) {
        if Key(u) == Key(user) { KeyInjective(u, user); }
      }
    }
    r
  }

  /**
   * `store_message_for`: append the encoded message to `user`'s list and, when
   * the message carries a non-zero delete timestamp, set the key's expiry to
   * it. RPUSH is command 0 of this call and EXPIREAT command 1.
   */
  function StoreFor(s: Store, m: Message, user: string, link: Link): (w: Written)
    // The call reports success exactly when the link affords its commands.
    ensures w.ok <==> Affords(link, Cost(m))
    // Nobody else's log changes.
    ensures forall u :: u != user ==> LogOf(w.store, u) == LogOf(s, u)
    // An RPUSH that does not take effect leaves the store as it was; one that does appends exactly one entry.
    ensures !Lands(link, 0) ==> w.store == s
    ensures LogOf(w.store, user).entries
            == LogOf(s, user).entries + (if Lands(link, 0) then [Encode(m)] else [])
    // The expiry is overwritten by a non-zero timestamp exactly when EXPIREAT took effect.
    ensures LogOf(w.store, user).expiry
            == if m.deleteTimestamp != 0 && Lands(link, 1) then Some(m.deleteTimestamp) else LogOf(s, user).expiry
    // After success the link has paid for exactly the commands issued.
    ensures w.ok ==> (w.link.Healthy? <==> link.Healthy?)
    ensures w.ok && w.link.FailsAfter? ==>
              w.link.budget == link.budget - Cost(m) && w.link.applied == link.applied
  {
    if !Up(link) then
      Written(if Lands(link, 0) then RPush(s, user, Encode(m)) else s, link, false)
    else
      var pushed := RPush(s, user, Encode(m));
      var link1 := Spend(link);
      if m.deleteTimestamp == 0 then Written(pushed, link1, true)
      else if !Up(link1) then
        Written(if Lands(link, 1) then ExpireAt(pushed, user, m.deleteTimestamp) else pushed, link1, false)
      else Written(ExpireAt(pushed, user, m.deleteTimestamp), Spend(link1), true)
  }

  /**
   * `store_message`: record the message in the recipient's log, then in the
   * sender's. The recipient's commands come first, so the sender's RPUSH is
   * command `Cost(m)` of the call and its EXPIREAT command `Cost(m) + 1`.
   */
  function StoreMessage(s: Store, m: Message, link: Link): (w: Written)
    ensures w.ok <==> Affords(link, 2 * Cost(m))
    // Third parties' logs never change.
    ensures forall u :: u != m.sender && u != m.recipient ==> LogOf(w.store, u) == LogOf(s, u)
    // Whatever the outcome, each party's log holds the effect of exactly those of its commands that took effect.
    ensures m.sender != m.recipient ==>
              && LogOf(w.store, m.recipient).entries
                 == LogOf(s, m.recipient).entries + (if Lands(link, 0) then [Encode(m)] else [])
              && LogOf(w.store, m.recipient).expiry
                 == (if m.deleteTimestamp != 0 && Lands(link, 1) then Some(m.deleteTimestamp)
                     else LogOf(s, m.recipient).expiry)
              && LogOf(w.store, m.sender).entries
                 == LogOf(s, m.sender).entries + (if Lands(link, Cost(m)) then [Encode(m)] else [])
              && LogOf(w.store, m.sender).expiry
                 == (if m.deleteTimestamp != 0 && Lands(link, Cost(m) + 1) then Some(m.deleteTimestamp)
                     else LogOf(s, m.sender).expiry)
    ensures m.sender == m.recipient ==>
              && LogOf(w.store, m.sender).entries
                 == LogOf(s, m.sender).entries + (if Lands(link, 0) then [Encode(m)] else [])
                    + (if Lands(link, Cost(m)) then [Encode(m)] else [])
              && LogOf(w.store, m.sender).expiry
                 == (if m.deleteTimestamp != 0 && Lands(link, 1) then Some(m.deleteTimestamp)
                     else LogOf(s, m.sender).expiry)
    // On success each party's log gains one entry, and a self-addressed message two.
    ensures w.ok && m.sender != m.recipient ==>
              && LogOf(w.store, m.recipient).entries == LogOf(s, m.recipient).entries + [Encode(m)]
              && LogOf(w.store, m.sender).entries == LogOf(s, m.sender).entries + [Encode(m)]
    ensures w.ok && m.sender == m.recipient ==>
              LogOf(w.store, m.sender).entries == LogOf(s, m.sender).entries + [Encode(m), Encode(m)]
    // On success both expiries equal a non-zero timestamp; a zero timestamp leaves them alone.
    ensures w.ok && m.deleteTimestamp != 0 ==>
              LogOf(w.store, m.recipient).expiry == Some(m.deleteTimestamp)
              && LogOf(w.store, m.sender).expiry == Some(m.deleteTimestamp)
    ensures m.deleteTimestamp == 0 ==>
              LogOf(w.store, m.recipient).expiry == LogOf(s, m.recipient).expiry
              && LogOf(w.store, m.sender).expiry == LogOf(s, m.sender).expiry
  {
    var first := StoreFor(s, m, m.recipient, link);
    if !first.ok then
      assert !Lands(link, Cost(m)) && !Lands(link, Cost(m) + 1);
      first
    else
      var second := StoreFor(first.store, m, m.sender, first.link);
      assert Lands(first.link, 0) <==> Lands(link, Cost(m));
      assert Lands(first.link, 1) <==> Lands(link, Cost(m) + 1);
      assert second.ok <==> Affords(link, 2 * Cost(m));
      assert m.sender == m.recipient ==>
        LogOf(second.store, m.sender).entries
        == LogOf(s, m.sender).entries + [Encode(m)] + (if Lands(link, Cost(m)) then [Encode(m)] else []);
      second
  }

  /** `get_message_history`: the decodable messages of a user's list, in stored order; None when LRANGE fails. */
  function History(s: Store, user: string, link: Link): (h: Option<seq<Message>>)
    ensures h.Some? <==> Up(link)
    ensures h.Some? ==> |h.value| <= |LogOf(s, user).entries|
    ensures h.Some? ==> forall m :: m in h.value ==> Encode(m) in LogOf(s, user).entries
  {
    if Up(link) then Some(DecodeAll(LogOf(s, user).entries)) else None
  }

  /** Once its RPUSH has taken effect, storing a message for a user puts it at the end of that user's readable history. */
  lemma StoreForExtendsHistory(s: Store, m: Message, user: string, link: Link, read: Link)
    requires Lands(link, 0) && Up(read)
    ensures History(StoreFor(s, m, user, link).store, user, read).value
            == History(s, user, read).value + [m]
  {
    AppendEncoded(LogOf(s, user).entries, m);
  }
}
