/**
 The chat server's producer loop: it forwards every message, keeps the last 512 in a key-value store, and
 replays them on request.
 */
module ChatHistory {
  import opened Decimal

  const KEY_MAX := 512

  /** `load` tells whether the "msg" field of the message reads LOAD. */
  datatype Message = Message(text: string, load: bool)

  function Key(i: nat): string { "key" + Itoa(i) }

  lemma KeyInjective(a: nat, b: nat)
    ensures Key(a) == Key(b) <==> a == b
  {
    ItoaInjective(a, b);
    if Key(a) == Key(b) { assert Key(a)[3..] == Key(b)[3..]; }
  }

  // ----- what a replay delivers -----

  /** The last of n messages whose number agrees with i modulo 512. */
  function Latest(n: nat, i: nat): (j: nat)
    requires i < n
    ensures i <= j < n && j % KEY_MAX == i % KEY_MAX && n <= j + KEY_MAX
  {
    n - 1 - (n - 1 - i) % KEY_MAX
  }

  function Replay(h: seq<string>): (r: seq<string>)
    ensures |r| == |h|
  {
    seq(|h|, i requires 0 <= i < |h| => h[Latest(|h|, i)])
  }

  /** Up to 512 messages the replay is the history. */
  lemma ShortHistoryExact(h: seq<string>)
    requires |h| <= 512
    ensures Replay(h) == h
  {
    forall i | 0 <= i < |h| ensures Replay(h)[i] == h[i] {
      assert Latest(|h|, i) == i;
    }
  }

  lemma {:induction false} Periodic(h: seq<string>, i: nat, j: nat)
    requires i <= j < |h| && i % KEY_MAX == j % KEY_MAX
    requires forall k :: KEY_MAX <= k < |h| ==> h[k - KEY_MAX] == h[k]
    ensures h[i] == h[j]
    decreases j
  {
    if i < j { Periodic(h, i, j - KEY_MAX); }
  }

  /** Beyond that, exactly when the history repeats itself every 512 messages. */
  lemma ReplayExactIff(h: seq<string>)
    ensures Replay(h) == h <==> forall i :: 512 <= i < |h| ==> h[i - 512] == h[i]
  {
    if Replay(h) == h {
      forall i | KEY_MAX <= i < |h| ensures h[i - KEY_MAX] == h[i] {
        assert Latest(|h|, i - KEY_MAX) == Latest(|h|, i);
        assert Replay(h)[i - KEY_MAX] == Replay(h)[i];
      }
    }
    if forall i :: KEY_MAX <= i < |h| ==> h[i - KEY_MAX] == h[i] {
      forall i | 0 <= i < |h| ensures Replay(h)[i] == h[i] {
        Periodic(h, i, Latest(|h|, i));
      }
    }
  }

  /** One more message moves the latest of its own class only. */
  lemma LatestNext(n: nat, i: nat)
    requires i <= n
    ensures Latest(n + 1, i) == if i % KEY_MAX == n % KEY_MAX then n else Latest(n, i)
  {
  }

  // ----- what a conversation delivers -----

  function History(ms: seq<Message>): seq<string> {
    if ms == [] then []
    else History(ms[..|ms| - 1]) + if ms[|ms| - 1].load then [] else [ms[|ms| - 1].text]
  }

  /** Every message is forwarded as it comes; a LOAD is followed by the replay of the history so far. */
  function Forwarded(ms: seq<Message>): seq<string> {
    if ms == [] then []
    else
      var before, m := ms[..|ms| - 1], ms[|ms| - 1];
      Forwarded(before) + [m.text] + if m.load then Replay(History(before)) else []
  }

  // ----- what these are, without their recursion -----

  ghost predicate Increasing(p: seq<nat>) { forall i, j :: 0 <= i < j < |p| ==> p[i] < p[j] }

  /** The positions of the messages that are no LOAD, in order. */
  ghost predicate Ordinary(ms: seq<Message>, p: seq<nat>) {
    && Increasing(p)
    && (forall i :: 0 <= i < |p| ==> p[i] < |ms| && !ms[p[i]].load)
    && (forall k {:trigger k in p} :: 0 <= k < |ms| && !ms[k].load ==> k in p)
  }

  /** Each message of the one kind with each later one of the other: what all replays together forward. */
  ghost function Replays(ms: seq<Message>): set<(nat, nat)> {
    set i: nat, j: nat | i < j < |ms| && !ms[i].load && ms[j].load :: (i, j)
  }

  lemma OrdinaryExists(ms: seq<Message>) returns (p: seq<nat>)
    ensures Ordinary(ms, p)
  {
    if ms == [] {
      p := [];
    } else {
      var n := |ms| - 1;
      var q := OrdinaryExists(ms[..n]);
      p := if ms[n].load then q else q + [n];
      forall k | 0 <= k < |ms| && !ms[k].load ensures k in p {
        if k < n { assert !ms[..n][k].load; }
      }
    }
  }

  lemma OrdinaryFront(ms: seq<Message>, p: seq<nat>) returns (q: seq<nat>)
    requires Ordinary(ms, p) && ms != []
    ensures Ordinary(ms[..|ms| - 1], q) && p == if ms[|ms| - 1].load then q else q + [|ms| - 1]
  {
    var n := |ms| - 1;
    if !ms[n].load {
      assert n in p;
      q := p[..|p| - 1];
      var i :| 0 <= i < |p| && p[i] == n;
      assert forall k :: 0 <= k < |p| - 1 ==> p[k] < p[|p| - 1];
      forall k | 0 <= k < n && !ms[..n][k].load ensures k in q { assert k in p && k != p[|p| - 1]; }
    } else {
      q := p;
      forall i | 0 <= i < |p| ensures p[i] < n { assert p[i] != n; }
      forall k | 0 <= k < n && !ms[..n][k].load ensures k in p { assert !ms[k].load; }
    }
  }

  lemma FirstOrdinary(ms: seq<Message>, p: seq<nat>)
    requires Ordinary(ms, p)
    ensures p != [] ==> p[0] < |ms|
  {
  }

  /** The texts of a history, by position. */
  ghost predicate TextsAt(h: seq<string>, ms: seq<Message>, p: seq<nat>) {
    |h| == |p| && forall i :: 0 <= i < |p| ==> p[i] < |ms| && h[i] == ms[p[i]].text
  }

  lemma TextsKept(h: seq<string>, ms: seq<Message>, p: seq<nat>)
    requires ms != [] && TextsAt(h, ms[..|ms| - 1], p)
    ensures TextsAt(h, ms, p)
  {
  }

  lemma TextsAppend(h: seq<string>, ms: seq<Message>, p: seq<nat>)
    requires ms != [] && TextsAt(h, ms[..|ms| - 1], p)
    ensures TextsAt(h + [ms[|ms| - 1].text], ms, p + [|ms| - 1])
  {
  }

  lemma HistoryNext(ms: seq<Message>, h: seq<string>)
    requires ms != [] && h == History(ms[..|ms| - 1])
    ensures History(ms) == if ms[|ms| - 1].load then h else h + [ms[|ms| - 1].text]
  {
  }

  /** The history is the texts of the messages that are no LOAD, in order. */
  lemma {:induction false} HistoryIs(ms: seq<Message>, p: seq<nat>)
    requires Ordinary(ms, p)
    ensures TextsAt(History(ms), ms, p)
  {
    if ms == [] {
      FirstOrdinary(ms, p);
    } else {
      var q := OrdinaryFront(ms, p);
      HistoryIs(ms[..|ms| - 1], q);
      var h := History(ms[..|ms| - 1]);
      HistoryNext(ms, h);
      if ms[|ms| - 1].load { TextsKept(h, ms, q); } else { TextsAppend(h, ms, q); }
    }
  }

  lemma {:induction false} ForwardedPrefix(a: seq<Message>, b: seq<Message>)
    ensures Forwarded(a) <= Forwarded(a + b)
    decreases |b|
  {
    if b == [] {
      assert a + b == a;
    } else {
      ForwardedPrefix(a, b[..|b| - 1]);
      assert (a + b)[..|a + b| - 1] == a + b[..|b| - 1];
    }
  }

  /** Each ordinary message before a LOAD, with that LOAD. */
  ghost function Pairs(p: seq<nat>, n: nat): set<(nat, nat)> { set i | i in p :: (i, n) }

  lemma PairsAppend(p: seq<nat>, last: nat, n: nat)
    ensures Pairs(p + [last], n) == Pairs(p, n) + {(last, n)}
  {
    forall x ensures x in Pairs(p + [last], n) <==> x in Pairs(p, n) + {(last, n)} {
      assert x.0 in p + [last] <==> x.0 in p || x.0 == last;
    }
  }

  lemma {:induction false} PairsCount(p: seq<nat>, n: nat)
    requires Increasing(p)
    ensures |Pairs(p, n)| == |p|
  {
    if p != [] {
      var q, last := p[..|p| - 1], p[|p| - 1];
      PairsCount(q, n);
      assert p == q + [last];
      PairsAppend(q, last, n);
      assert forall i :: 0 <= i < |q| ==> q[i] < last;
      assert (last, n) !in Pairs(q, n);
    }
  }

  lemma ReplaysAppend(a: seq<Message>, m: Message, p: seq<nat>, x: (nat, nat))
    requires Ordinary(a, p)
    ensures x in Replays(a + [m]) <==> x in Replays(a) || (m.load && x in Pairs(p, |a|))
  {
    var n, ms := |a|, a + [m];
    if x.0 < x.1 < n {
      assert ms[x.0] == a[x.0] && ms[x.1] == a[x.1];
    } else if x.0 < x.1 == n {
      assert ms[x.0] == a[x.0] && ms[x.1] == m;
    }
  }

  lemma ReplaysNext(a: seq<Message>, m: Message, p: seq<nat>)
    requires Ordinary(a, p)
    ensures |Replays(a + [m])| == |Replays(a)| + if m.load then |p| else 0
  {
    var more := if m.load then Pairs(p, |a|) else {};
    forall x ensures x in Replays(a + [m]) <==> x in Replays(a) + more { ReplaysAppend(a, m, p, x); }
    assert Replays(a + [m]) == Replays(a) + more;
    assert Replays(a) !! more;
    PairsCount(p, |a|);
  }

  /** The latest of the classes modulo 512, by number. */
  lemma ReplayAt(ms: seq<Message>, p: seq<nat>, i: nat, j: int)
    requires Ordinary(ms, p) && i < |p| && j == |p| - 1 - (|p| - 1 - i) % 512
    ensures |Replay(History(ms))| == |p| && 0 <= j < |p| && p[j] < |ms| && Replay(History(ms))[i] == ms[p[j]].text
  {
    HistoryIs(ms, p);
    assert Latest(|p|, i) == j;
    assert Replay(History(ms))[i] == History(ms)[j];
  }

  /** One message of a conversation at its place. */
  lemma ForwardedNext(ms: seq<Message>, a: seq<Message>, m: Message, p: seq<nat>)
    requires ms == a + [m] && Ordinary(a, p)
    ensures |Forwarded(ms)| == |Forwarded(a)| + 1 + (if m.load then |p| else 0)
    ensures Forwarded(a) + [m.text] <= Forwarded(ms)
    ensures m.load ==> Forwarded(ms)[|Forwarded(a)| + 1..] == Replay(History(a))
  {
    HistoryIs(a, p);
    assert ms[..|ms| - 1] == a && ms[|ms| - 1] == m;
  }

  lemma LengthNext(ms: seq<Message>, a: seq<Message>, m: Message, p: seq<nat>)
    requires ms == a + [m] && Ordinary(a, p)
    ensures |Forwarded(ms)| == |Forwarded(a)| + 1 + (if m.load then |p| else 0)
  {
    ForwardedNext(ms, a, m, p);
  }

  /**
   One entry for each message, and one for each LOAD with each ordinary message before it; so nothing else is
   forwarded.
   */
  lemma {:induction false} ForwardedLength(ms: seq<Message>)
    ensures |Forwarded(ms)| == |ms| + |Replays(ms)|
  {
    if ms == [] {
      assert Replays(ms) == {};
    } else {
      var a, m := ms[..|ms| - 1], ms[|ms| - 1];
      ForwardedLength(a);
      var p := OrdinaryExists(a);
      assert ms == a + [m];
      LengthNext(ms, a, m, p);
      ReplaysNext(a, m, p);
    }
  }

  lemma EntryAt(f: seq<string>, text: string, g: seq<string>, h: seq<string>)
    requires f + [text] <= g <= h
    ensures |f| < |h| && h[|f|] == text
  {
    assert (f + [text])[|f|] == text;
  }

  /** Where the messages before k end, and what comes then. */
  lemma PrefixAt(ms: seq<Message>, k: nat, p: seq<nat>)
    requires k < |ms| && Ordinary(ms[..k], p)
    ensures |Forwarded(ms[..k])| == k + |Replays(ms[..k])|
    ensures Forwarded(ms[..k]) + [ms[k].text] <= Forwarded(ms[..k + 1]) <= Forwarded(ms)
    ensures |Forwarded(ms[..k + 1])| == k + |Replays(ms[..k])| + 1 + (if ms[k].load then |p| else 0)
  {
    var a, b := ms[..k], ms[..k + 1];
    assert b == a + [ms[k]] && ms == b + ms[k + 1..];
    ForwardedLength(a);
    ForwardedNext(b, a, ms[k], p);
    ForwardedPrefix(b, ms[k + 1..]);
  }

  /** Message k of a conversation is forwarded behind the k before it and the replays that they asked for. */
  lemma MessageForwarded(ms: seq<Message>, k: nat)
    requires k < |ms|
    ensures var at := k + |Replays(ms[..k])|; at < |Forwarded(ms)| && Forwarded(ms)[at] == ms[k].text
  {
    var p := OrdinaryExists(ms[..k]);
    PrefixAt(ms, k, p);
    EntryAt(Forwarded(ms[..k]), ms[k].text, Forwarded(ms[..k + 1]), Forwarded(ms));
  }

  lemma EntryBehind(f: seq<string>, x: nat, r: seq<string>, i: nat)
    requires x <= |f| && f[x..] == r && i < |r|
    ensures x + i < |f| && f[x + i] == r[i]
  {
  }

  /**
   A LOAD is followed by as many entries as there were ordinary messages, of which the i-th is the latest of those whose
   number agrees with i modulo 512.
   */
  lemma ReplayForwarded(ms: seq<Message>, k: nat, p: seq<nat>, i: nat, j: int)
    requires k < |ms| && ms[k].load && Ordinary(ms[..k], p)
    requires i < |p| && j == |p| - 1 - (|p| - 1 - i) % 512
    ensures var at := k + |Replays(ms[..k])| + 1;
            && at + i < |Forwarded(ms)| && 0 <= j < |p| && p[j] < k
            && Forwarded(ms)[at + i] == ms[p[j]].text
  {
    var a, b := ms[..k], ms[..k + 1];
    assert b == a + [ms[k]];
    PrefixAt(ms, k, p);
    ForwardedNext(b, a, ms[k], p);
    ReplayAt(a, p, i, j);
    EntryBehind(Forwarded(b), |Forwarded(a)| + 1, Replay(History(a)), i);
    assert a[p[j]] == ms[p[j]];
  }

  /** The i-th session key still leads to a message, the latest of its class. */
  ghost predicate Kept(h: seq<string>, session: seq<string>, store: map<string, string>, i: nat)
    requires i < |h| == |session|
  {
    session[i] == Key(i % KEY_MAX) && session[i] in store && store[session[i]] == h[Latest(|h|, i)]
  }

  lemma KeptNext(h: seq<string>, session: seq<string>, store: map<string, string>, msg: string, i: nat)
    requires |h| == |session| && i <= |h| && (i < |h| ==> Kept(h, session, store, i))
    ensures var key := Key(|h| % KEY_MAX); Kept(h + [msg], session + [key], store[key := msg], i)
  {
    LatestNext(|h|, i);
    KeyInjective(i % KEY_MAX, |h| % KEY_MAX);
  }

  class ChatServer {
    var sessionCount: int
    var session: seq<string>
    var store: map<string, string>
    var pool: seq<string>   // what PutData was called with, in order

    ghost var history: seq<string>

    ghost predicate Valid()
      reads this
    {
      && sessionCount == |history| % KEY_MAX
      && |session| == |history|
      && forall i :: 0 <= i < |history| ==> Kept(history, session, store, i)
    }

    constructor (db: map<string, string>)
      ensures Valid() && history == [] && pool == [] && store == db
    {
      sessionCount := 0;
      session := [];
      store := db;
      pool := [];
      history := [];
    }

    method PutData(msg: string)
      modifies this`pool
      ensures pool == old(pool) + [msg]
    {
      pool := pool + [msg];
    }

    /** LOAD: look up every session key in turn and forward what the store holds. */
    method Load()
      requires Valid()
      modifies this`pool
      ensures pool == old(pool) + Replay(history)
    {
      var i := 0;
      while i < |session|
        invariant 0 <= i <= |session| && pool == old(pool) + Replay(history)[..i]
      {
        assert Kept(history, session, store, i);
        var out := store[session[i]];
        PutData(out);
        assert Replay(history)[..i + 1] == Replay(history)[..i] + [Replay(history)[i]];
        i := i + 1;
      }
      assert Replay(history)[..i] == Replay(history);
    }

    method Keep(msg: string)
      requires Valid()
      modifies this`sessionCount, this`session, this`store, this`history
      ensures Valid() && history == old(history) + [msg]
      ensures store == old(store)[Key(|old(history)| % KEY_MAX) := msg]
    {
      ghost var h, keys, db := history, session, store;
      var tmp := "key" + Itoa(sessionCount);
      sessionCount := sessionCount + 1;
      sessionCount := sessionCount % KEY_MAX;
      session := session + [tmp];
      store := store[tmp := msg];
      history := history + [msg];
      assert session == keys + [Key(|h| % KEY_MAX)] && store == db[Key(|h| % KEY_MAX) := msg];
      forall i | 0 <= i < |history| ensures Kept(history, session, store, i) {
        KeptNext(h, keys, db, msg, i);
      }
    }

    method Receive(m: Message)
      requires Valid()
      modifies this
      ensures Valid()
      ensures history == old(history) + if m.load then [] else [m.text]
      ensures pool == old(pool) + [m.text] + if m.load then Replay(old(history)) else []
    {
      PutData(m.text);
      if m.load {
        Load();
      } else {
        Keep(m.text);
      }
    }

    /** The producer loop over the messages that arrive. */
    method ProductRun(ms: seq<Message>)
      requires Valid() && history == [] && pool == []
      modifies this
      ensures Valid() && history == History(ms) && pool == Forwarded(ms)
    {
      var i := 0;
      while i < |ms|
        invariant 0 <= i <= |ms| && Valid()
        invariant history == History(ms[..i]) && pool == Forwarded(ms[..i])
      {
        assert ms[..i + 1][..i] == ms[..i];
        Receive(ms[i]);
        i := i + 1;
      }
      assert ms[..i] == ms;
    }
  }
}
