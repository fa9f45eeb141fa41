/** The chat server end to end: what the producer loop forwards is what the consumer thread gets. */
module ChatDelivery {
  import C = ChatHistory
  import R = RingProtocol

  /** The values that are still between the two threads. */
  ghost function Underway(s: R.State): seq<string> { R.Fifo(s) + R.InHand(s) }

  /**
   Whatever the interleaving, while the producer hands over what the conversation forwards, the consumer has got a
   prefix of it, in order and nothing else: each message as it came, and after each LOAD the replay of the history.
   When all is handed over and nothing is under way, it has got all of it.
   */
  lemma ConversationDelivered(ms: seq<C.Message>, slots: seq<string>, es: seq<R.Event>)
    requires |slots| > 0 && R.IsRun(R.Init(slots), es) && R.Offered(es) <= C.Forwarded(ms)
    ensures var s := R.After(R.Init(slots), es);
            && s.gets <= C.Forwarded(ms)
            && s.gets + Underway(s) == C.Forwarded(ms)[..|R.Offered(es)|]
            && (s.gets == C.Forwarded(ms) <==> R.Offered(es) == C.Forwarded(ms) && Underway(s) == [])
  {
    var s := R.After(R.Init(slots), es);
    R.DeliversInOrder(slots, es);
    assert s.gets + Underway(s) == s.gets + R.Fifo(s) + R.InHand(s) == R.Offered(es);
  }

  /** By number: message k of the conversation, and no more entries than there are messages and replayed messages. */
  lemma MessageDelivered(ms: seq<C.Message>, slots: seq<string>, es: seq<R.Event>, k: nat)
    requires |slots| > 0 && R.IsRun(R.Init(slots), es) && R.Offered(es) <= C.Forwarded(ms) && k < |ms|
    ensures var gets, at := R.After(R.Init(slots), es).gets, k + |C.Replays(ms[..k])|;
            |gets| <= |ms| + |C.Replays(ms)| && (at < |gets| ==> gets[at] == ms[k].text)
  {
    ConversationDelivered(ms, slots, es);
    C.ForwardedLength(ms);
    C.MessageForwarded(ms, k);
  }

  /** Behind a LOAD: the latest ordinary message before it of each class modulo 512. */
  lemma ReplayDelivered(
      ms: seq<C.Message>, slots: seq<string>, es: seq<R.Event>, k: nat, p: seq<nat>, i: nat, j: int)
    requires |slots| > 0 && R.IsRun(R.Init(slots), es) && R.Offered(es) <= C.Forwarded(ms)
    requires k < |ms| && ms[k].load && C.Ordinary(ms[..k], p)
    requires i < |p| && j == |p| - 1 - (|p| - 1 - i) % 512
    ensures var gets, at := R.After(R.Init(slots), es).gets, k + |C.Replays(ms[..k])| + 1;
            0 <= j < |p| && p[j] < k && (at + i < |gets| ==> gets[at + i] == ms[p[j]].text)
  {
    ConversationDelivered(ms, slots, es);
    C.ReplayForwarded(ms, k, p, i, j);
  }
}
