/**
 * Properties of the broker that relate several calls: the registry discipline,
 * reconnect and replay, and the relation between what a session received and
 * what its owner's log recorded.
 */
module BrokerProperties {
  import opened Wrappers
  import opened Messages
  import opened LogStore
  import opened Broker
  import opened Subsequence

  /**
   * Every message a registered session received is in its owner's readable
   * history, in the same relative order. The model runs calls one at a time;
   * two concurrent sends to one recipient may store in the other order.
   */
  predicate DeliveredIsRecorded(s: Server)
  {
    forall n :: n in s.clients ==> IsSubseq(s.clients[n].queue, DecodeAll(LogOf(s.store, n).entries))
  }

  /** The server as it starts: nobody registered, whatever Redis already holds. */
  lemma StartIsRecorded(store: Store)
    ensures DeliveredIsRecorded(Server(map[], store))
  {
  }

  /** A stale entry is evicted and the retry lands on a vacant slot, so it does not recurse again. */
  lemma StaleRegistrationRetriesOnce(s: Server, nick: string, link: Link)
    requires nick in s.clients && s.clients[nick].closed
    ensures nick !in Evict(s, nick).clients
    ensures Register(s, nick, link) == Register(Evict(s, nick), nick, link)
  {
  }

  /** No registration, for any nickname, replaces or closes a live session. */
  lemma RegisterKeepsLiveSessions(s: Server, nick: string, link: Link, n: string)
    requires Live(s, n)
    ensures Live(Register(s, nick, link).server, n)
    ensures Register(s, nick, link).server.clients[n] == s.clients[n]
  {
  }

  /** Sending never closes, opens, adds or removes a registry entry. */
  lemma SendKeepsRegistry(s: Server, m: Message, link: Link, n: string)
    ensures n in Send(s, m, link).server.clients <==> n in s.clients
    ensures n in s.clients ==> (Live(Send(s, m, link).server, n) <==> Live(s, n))
  {
  }

  /** Once its client has disconnected, a nickname can register again. */
  lemma ReconnectAfterDisconnect(s: Server, nick: string, link: Link)
    requires Up(link)
    ensures Register(Disconnect(s, nick), nick, link).status == Ok
    ensures Live(Register(Disconnect(s, nick), nick, link).server, nick)
  {
  }

  /**
   * Replay order is stored order: a message delivered to a live recipient with
   * a healthy store, after the recipient reconnects, comes back at the end of
   * the replayed history, twice when it was addressed to its own sender (both
   * writes of `store_message` go to the same key). This order is the one of
   * calls run one at a time.
   */
  lemma SendThenReconnectReplays(s: Server, m: Message, link: Link, read: Link)
    requires Live(s, m.recipient)
    requires Affords(link, 2 * Cost(m)) && Up(read)
    ensures
      var sent := Send(s, m, link).server;
      var back := Register(Disconnect(sent, m.recipient), m.recipient, read).server;
      back.clients[m.recipient].queue
      == DecodeAll(LogOf(s.store, m.recipient).entries) + (if m.sender == m.recipient then [m, m] else [m])
  {
    var sent := Send(s, m, link).server;
    var before := LogOf(s.store, m.recipient).entries;
    AppendEncoded(before, m);
    if m.sender == m.recipient {
      assert before + [Encode(m), Encode(m)] == before + [Encode(m)] + [Encode(m)];
      AppendEncoded(before + [Encode(m)], m);
    }
    assert LogOf(Disconnect(sent, m.recipient).store, m.recipient) == LogOf(sent.store, m.recipient);
  }

  /** Registration keeps the invariant, whether or not the history can be read. */
  lemma RegisterKeepsRecorded(s: Server, nick: string, link: Link)
    requires DeliveredIsRecorded(s)
    ensures DeliveredIsRecorded(Register(s, nick, link).server)
  {
    var r := Register(s, nick, link).server;
    forall n | n in r.clients
      ensures IsSubseq(r.clients[n].queue, DecodeAll(LogOf(r.store, n).entries))
    {
      if n == nick && !Live(s, nick) {
        SubseqRefl(DecodeAll(LogOf(s.store, nick).entries));
      }
    }
  }

  /** A disconnect keeps the invariant. */
  lemma DisconnectKeepsRecorded(s: Server, nick: string)
    requires DeliveredIsRecorded(s)
    ensures DeliveredIsRecorded(Disconnect(s, nick))
  {
  }

  /** A send that is not answered with a storage failure keeps the invariant. */
  lemma SendKeepsRecorded(s: Server, m: Message, link: Link)
    requires DeliveredIsRecorded(s)
    requires Send(s, m, link).status != Internal(StoreFailed)
    ensures DeliveredIsRecorded(Send(s, m, link).server)
  {
    var r := Send(s, m, link).server;
    if Live(s, m.recipient) {
      forall n | n in r.clients
        ensures IsSubseq(r.clients[n].queue, DecodeAll(LogOf(r.store, n).entries))
      {
        var before := LogOf(s.store, n).entries;
        var after := LogOf(r.store, n).entries;
        var q := s.clients[n].queue;
        if n == m.recipient && m.sender != m.recipient {
          AppendEncoded(before, m);
          SubseqAppend(q, DecodeAll(before), m);
        } else if n == m.recipient {
          assert after == before + [Encode(m)] + [Encode(m)];
          AppendEncoded(before, m);
          AppendEncoded(before + [Encode(m)], m);
          SubseqAppend(q, DecodeAll(before), m);
          SubseqExtend(q + [m], DecodeAll(before) + [m], [m]);
        } else if n == m.sender {
          AppendEncoded(before, m);
          SubseqExtend(q, DecodeAll(before), [m]);
        }
      }
    }
  }

  /**
   * The documented divergence: a storage failure after the push leaves the
   * message in the recipient's channel but not in the recipient's log.
   */
  lemma StoreFailureBreaksRecorded()
    ensures
      var alice := Server(map["alice" := Fresh], map[]);
      var m := Message("bob", "alice", "hi", 0);
      && DeliveredIsRecorded(alice)
      && Send(alice, m, FailsAfter(0, false)).status == Internal(StoreFailed)
      && Send(alice, m, FailsAfter(0, false)).server.clients["alice"].queue == [m]
      && !DeliveredIsRecorded(Send(alice, m, FailsAfter(0, false)).server)
  {
  }

  /**
   * A storage error is not proof that nothing was stored: when the sender's
   * RPUSH ran but its reply was lost, the call answers Internal although the
   * message is in the recipient's channel and in both logs.
   */
  lemma LostReplyStillRecords(s: Server, m: Message)
    requires Live(s, m.recipient) && m.sender != m.recipient && m.deleteTimestamp == 0
    ensures Send(s, m, FailsAfter(1, true)).status == Internal(StoreFailed)
    ensures Send(s, m, FailsAfter(1, true)).server.clients[m.recipient].queue == s.clients[m.recipient].queue + [m]
    ensures LogOf(Send(s, m, FailsAfter(1, true)).server.store, m.recipient).entries
            == LogOf(s.store, m.recipient).entries + [Encode(m)]
    ensures LogOf(Send(s, m, FailsAfter(1, true)).server.store, m.sender).entries
            == LogOf(s.store, m.sender).entries + [Encode(m)]
  {
  }
}
