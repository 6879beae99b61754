/**
 * The `Message` record exchanged between clients and the way the broker keeps
 * it in a user's log. The log stores opaque blobs; a blob written by the
 * broker is the encoding of a message, and anything else in the list is a
 * blob that does not decode. The wire format itself is not modelled: an
 * entry remembers the message it encodes.
 */
module Messages {
  import opened Wrappers

  /** One direct message. A `deleteTimestamp` of 0 means "no expiry requested". */
  datatype Message = Message(sender: string, recipient: string, content: string, deleteTimestamp: int)

  /** One element of a user's stored list. */
  datatype Entry = Encoded(message: Message) | Undecodable(blob: seq<bv8>)

  /** Decoding an entry: only encoded messages decode. */
  function Decode(e: Entry): (r: Option<Message>)
    ensures r.Some? <==> e.Encoded?
  {
    match e
    case Encoded(m) => Some(m)
    case Undecodable(_) => None
  }

  /** Encoding a message for storage; decoding gives it back unchanged. */
  function Encode(m: Message): (e: Entry)
    ensures Decode(e) == Some(m)
  {
    Encoded(m)
  }

  /** True when every entry of `es` is the encoding of some message. */
  predicate AllEncoded(es: seq<Entry>)
  {
    forall i :: 0 <= i < |es| ==> Decode(es[i]).Some?
  }

  /**
   * The messages of a stored list, in stored order, with the entries that do
   * not decode skipped.
   */
  function DecodeAll(es: seq<Entry>): (ms: seq<Message>)
    ensures |ms| <= |es|
    ensures |ms| == |es| <==> AllEncoded(es)
    ensures forall m :: m in ms ==> Encode(m) in es
    decreases |es|
  {
    if es == [] then []
    else
      var rest := DecodeAll(es[1..]);
      assert forall m :: m in rest ==> Encode(m) in es by {
        forall m | m in rest ensures Encode(m) in es {
          assert Encode(m) in es[1..];
        }
      }
      match Decode(es[0])
      case Some(m) => [m] + rest
      case None => rest
  }

  /** The encodings of `ms`, one entry per message, in order. */
  function EncodeAll(ms: seq<Message>): (es: seq<Entry>)
    ensures |es| == |ms|
    ensures forall i :: 0 <= i < |ms| ==> es[i] == Encode(ms[i])
  {
    seq(|ms|, i requires 0 <= i < |ms| => Encode(ms[i]))
  }

  /** Decoding distributes over concatenation of stored lists. */
  lemma {:induction false} DecodeAllAppend(a: seq<Entry>, b: seq<Entry>)
    ensures DecodeAll(a + b) == DecodeAll(a) + DecodeAll(b)
    decreases |a|
  {
    if a == [] {
      assert a + b == b;
    } else {
      assert (a + b)[1..] == a[1..] + b;
      assert (a + b)[0] == a[0];
      DecodeAllAppend(a[1..], b);
    }
  }

  /** Storing the encodings of a sequence of messages and reading them back is the identity. */
  lemma {:induction false} DecodeEncodeAll(ms: seq<Message>)
    ensures DecodeAll(EncodeAll(ms)) == ms
    decreases |ms|
  {
    if ms != [] {
      var es := EncodeAll(ms);
      assert es[1..] == EncodeAll(ms[1..]);
      DecodeEncodeAll(ms[1..]);
      assert ms == [ms[0]] + ms[1..];
    }
  }

  /** Appending one encoded message to a list appends exactly that message to its decoding. */
  lemma AppendEncoded(es: seq<Entry>, m: Message)
    ensures DecodeAll(es + [Encode(m)]) == DecodeAll(es) + [m]
  {
    DecodeAllAppend(es, [Encode(m)]);
    assert [Encode(m)][1..] == [];
  }
}
