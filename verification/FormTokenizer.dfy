/**
 The form tokenizer of weather_server/wwwroot/cgi/register.cpp: it marks values and cuts fields in the buffer it
 walks over.
 */
module FormTokenizer {
  import opened HttpStream

  // ----- what the fields of a text are -----

  function UpTo(s: string, c: char): string {
    if s == "" || s[0] == c then "" else [s[0]] + UpTo(s[1..], c)
  }

  /** For each '=', the text from there to the next '&'. */
  function Values(s: string): seq<string> {
    if s == "" then []
    else (if s[0] == '=' then [UpTo(s[1..], '&')] else []) + Values(s[1..])
  }

  /** Positions just behind each '=', counted from `base`. */
  function Starts(s: string, base: nat): seq<nat> {
    if s == "" then []
    else (if s[0] == '=' then [base + 1] else []) + Starts(s[1..], base + 1)
  }

  lemma {:induction false} StartsCount(s: string, base: nat)
    ensures |Starts(s, base)| == |Values(s)|
  {
    if s != "" { StartsCount(s[1..], base + 1); }
  }

  /** The i-th start marks the i-th value. */
  lemma {:induction false} StartMarksValue(s: string, base: nat, i: nat)
    requires i < |Values(s)| == |Starts(s, base)|
    ensures var p := Starts(s, base)[i]; base < p <= base + |s| && Values(s)[i] == UpTo(s[p - base..], '&')
  {
    var k := if s[0] == '=' then 1 else 0;
    StartsCount(s[1..], base + 1);
    if i >= k {
      StartMarksValue(s[1..], base + 1, i - k);
      var p := Starts(s[1..], base + 1)[i - k];
      assert s[1..][p - base - 1..] == s[p - base..];
    }
  }

  lemma {:induction false} UpToIs(s: string, c: char)
    ensures var u := UpTo(s, c); u <= s && c !in u && (u == s || s[|u|] == c)
  {
    if s != "" && s[0] != c { UpToIs(s[1..], c); }
  }

  /** The positions of the '=' signs from j on, in order. */
  ghost predicate MarksFrom(s: string, j: nat, p: seq<nat>) {
    && (forall a, b :: 0 <= a < b < |p| ==> p[a] < p[b])
    && (forall a :: 0 <= a < |p| ==> j <= p[a] < |s| && s[p[a]] == '=')
    && (forall k {:trigger k in p} :: j <= k < |s| && s[k] == '=' ==> k in p)
  }

  lemma FirstMark(s: string, j: nat, p: seq<nat>)
    requires MarksFrom(s, j, p) && j < |s|
    ensures s[j] == '=' ==> p != [] && p[0] == j && MarksFrom(s, j + 1, p[1..])
    ensures s[j] != '=' ==> MarksFrom(s, j + 1, p)
  {
    if s[j] == '=' {
      assert j in p;
      assert forall a :: 0 < a < |p| ==> p[0] < p[a];
      forall k | j + 1 <= k < |s| && s[k] == '=' ensures k in p[1..] { assert k in p; }
    } else {
      forall a | 0 <= a < |p| ensures j + 1 <= p[a] { assert p[a] != j; }
      forall k | j + 1 <= k < |s| && s[k] == '=' ensures k in p { assert k in p; }
    }
  }

  lemma NoMark(s: string, j: nat, p: seq<nat>)
    requires MarksFrom(s, j, p)
    ensures p != [] ==> j < |s|
  {
    assert p != [] ==> j <= p[0];
  }

  lemma {:induction false} StartsAre(s: string, j: nat, p: seq<nat>)
    requires MarksFrom(s, j, p) && j <= |s|
    ensures |Starts(s[j..], j)| == |p| && forall i :: 0 <= i < |p| ==> Starts(s[j..], j)[i] == p[i] + 1
    decreases |s| - j
  {
    if j == |s| {
      NoMark(s, j, p);
    } else {
      FirstMark(s, j, p);
      assert s[j..][1..] == s[j + 1..];
      StartsAre(s, j + 1, if s[j] == '=' then p[1..] else p);
    }
  }

  lemma ValuesCount(s: string, p: seq<nat>)
    requires MarksFrom(s, 0, p)
    ensures |Values(s)| == |p|
  {
    assert s[0..] == s;
    StartsAre(s, 0, p);
    StartsCount(s, 0);
  }

  /** There is one value for each '=': what stands between it and the next '&', or the end. */
  lemma ValueAt(s: string, p: seq<nat>, i: nat)
    requires MarksFrom(s, 0, p) && i < |p|
    ensures |Values(s)| == |p|
    ensures var v, at := Values(s)[i], p[i] + 1;
            && at + |v| <= |s| && v == s[at..at + |v|] && '&' !in v && (at + |v| < |s| ==> s[at + |v|] == '&')
  {
    assert s[0..] == s;
    StartsAre(s, 0, p);
    StartsCount(s, 0);
    StartMarksValue(s, 0, i);
    UpToIs(s[p[i] + 1..], '&');
  }

  // ----- the pass over the buffer -----

  function Cut(s: string): (r: string)
    ensures |r| == |s|
  {
    seq(|s|, i requires 0 <= i < |s| => if s[i] == '&' then '\0' else s[i])
  }

  /** After the pass, a C string that starts anywhere in the text ends at the next '&'. */
  lemma {:induction false} CutFields(s: string, rest: string, p: nat)
    requires '\0' !in s && p <= |s| && rest != "" && rest[0] == '\0'
    ensures CStr((Cut(s) + rest)[p..]) == UpTo(s[p..], '&')
    decreases |s| - p
  {
    var b := Cut(s) + rest;
    if p < |s| {
      assert s[p] in s;
      assert b[p..][0] == Cut(s)[p];
      assert b[p..][1..] == b[p + 1..] && s[p..][1..] == s[p + 1..];
      CutFields(s, rest, p + 1);
    } else {
      assert b[p..] == rest;
    }
  }

  lemma CStrText(b: string, n: nat)
    requires n < |b| && b[n] == '\0' && '\0' !in b[..n]
    ensures CStr(b) == b[..n]
    decreases n
  {
    if n > 0 {
      assert b[..n][0] == b[0];
      assert b[1..][..n - 1] == b[..n][1..];
      CStrText(b[1..], n - 1);
    }
  }

  lemma {:induction false} CStrEnd(b: string)
    requires '\0' in b
    ensures var n := |CStr(b)|; n < |b| && b[n] == '\0' && '\0' !in b[..n] && CStr(b) == b[..n]
  {
    if b[0] != '\0' {
      CStrEnd(b[1..]);
      var n := |CStr(b)|;
      assert b[..n] == [b[0]] + b[1..][..n - 1];
    } else {
      assert b[..0] == "";
    }
  }

  /** The state of the pass in front of position j. */
  ghost predicate Passed(text: string, b: string, tail: string, data: seq<nat>, j: nat)
  {
    && j <= |text| && b == Cut(text[..j]) + text[j..] + tail
    && Starts(text, 0) == data + Starts(text[j..], j)
  }

  function Marked(data: seq<nat>, p: nat): seq<nat> { data + [p] }

  lemma PassedStep(text: string, b: string, tail: string, data: seq<nat>, j: nat)
    requires Passed(text, b, tail, data, j) && j < |text|
    ensures b[j] == text[j]
    ensures Passed(text, if text[j] == '&' then b[j := '\0'] else b, tail,
                   if text[j] == '=' then Marked(data, j + 1) else data, j + 1)
  {
    assert text[j..][1..] == text[j + 1..];
    assert data + ([j + 1] + Starts(text[j + 1..], j + 1)) == data + [j + 1] + Starts(text[j + 1..], j + 1);
    assert data + ([] + Starts(text[j + 1..], j + 1)) == data + Starts(text[j + 1..], j + 1);
    var c := if text[j] == '&' then '\0' else text[j];
    assert Cut(text[..j + 1]) == Cut(text[..j]) + [c];
    assert text[j..] == [text[j]] + text[j + 1..];
    assert b[j := c] == Cut(text[..j]) + [c] + text[j + 1..] + tail;
  }

  /** The buffer after the turn at j. */
  function Written(b: string, j: nat): string
    requires j < |b|
  {
    if b[j] == '&' then b[j := '\0'] else b
  }

  /** The positions marked after the turn at j. */
  function Noted(b: string, data: seq<nat>, j: nat): seq<nat>
    requires j < |b|
  {
    if b[j] == '=' then Marked(data, j + 1) else data
  }

  /** One turn of the pass. */
  method MarkOrCut(arg: array<char>, data: array<nat>, cur: nat, i: nat) returns (j: nat)
    requires cur < arg.Length && i <= data.Length && (arg[cur] == '=' ==> i < data.Length)
    modifies arg, data
    ensures arg[..] == Written(old(arg[..]), cur)
    ensures j == i + (if old(arg[cur]) == '=' then 1 else 0) <= data.Length
    ensures data[..j] == Noted(old(arg[..]), old(data[..i]), cur)
  {
    j := i;
    if arg[cur] == '=' {
      data[j] := cur + 1;
      j := j + 1;
    } else if arg[cur] == '&' {
      arg[cur] := '\0';
    }
  }

  lemma NextChar(text: string, b: string, tail: string, data: seq<nat>, j: nat)
    requires Passed(text, b, tail, data, j) && '\0' !in text && tail != "" && tail[0] == '\0'
    ensures j < |b| && (b[j] == '\0' <==> j == |text|)
  {
    if j < |text| { assert text[j] in text; }
  }

  lemma PassBegins(text: string, b: string, tail: string)
    requires b == text + tail && '\0' !in text && tail != "" && tail[0] == '\0'
    ensures Passed(text, b, tail, [], 0) && (b[0] == '\0' <==> 0 == |text|)
  {
    assert Cut(text[..0]) + text[0..] + tail == b;
    assert [] + Starts(text[0..], 0) == Starts(text, 0);
    NextChar(text, b, tail, [], 0);
  }

  lemma RoomForMark(text: string, b: string, tail: string, data: seq<nat>, j: nat)
    requires Passed(text, b, tail, data, j) && j < |text| && text[j] == '='
    ensures |data| < |Starts(text, 0)|
  {
    assert |Starts(text, 0)| == |data| + |Starts(text[j..], j)|;
  }

  lemma PassEnds(text: string, b: string, tail: string, data: seq<nat>)
    requires Passed(text, b, tail, data, |text|) && '\0' !in text && tail != "" && tail[0] == '\0'
    ensures |data| == |Values(text)|
    ensures forall k :: 0 <= k < |data| ==> data[k] < |b| && CStr(b[data[k]..]) == Values(text)[k]
  {
    assert text[..|text|] == text && text[|text|..] == "";
    assert b == Cut(text) + tail && data == Starts(text, 0);
    StartsCount(text, 0);
    forall k | 0 <= k < |data| ensures data[k] < |b| && CStr(b[data[k]..]) == Values(text)[k] {
      StartMarksValue(text, 0, k);
      CutFields(text, tail, data[k]);
    }
  }

  /** In front of a turn: the pass has come to j, which holds a terminator exactly at the end of the text. */
  ghost predicate Turn(text: string, b: string, tail: string, data: seq<nat>, j: nat) {
    Passed(text, b, tail, data, j) && j < |b| && (b[j] == '\0' <==> j == |text|)
  }

  lemma PassedTurn(text: string, b: string, tail: string, data: seq<nat>, j: nat)
    requires Turn(text, b, tail, data, j) && b[j] != '\0'
    requires '\0' !in text && tail != "" && tail[0] == '\0'
    ensures Turn(text, Written(b, j), tail, Noted(b, data, j), j + 1)
    ensures j < |text| && (b[j] == '=' ==> |data| < |Starts(text, 0)|)
  {
    PassedStep(text, b, tail, data, j);
    if b[j] == '=' { RoomForMark(text, b, tail, data, j); }
    NextChar(text, Written(b, j), tail, Noted(b, data, j), j + 1);
  }

  method Pass(arg: array<char>, data: array<nat>, ghost text: string, ghost tail: string) returns (i: nat)
    requires Turn(text, arg[..], tail, [], 0) && |Starts(text, 0)| <= data.Length
    requires '\0' !in text && tail != "" && tail[0] == '\0'
    modifies arg, data
    ensures i <= data.Length && Turn(text, arg[..], tail, data[..i], |text|)
  {
    i := 0;
    var cur: nat := 0;
    while arg[cur] != '\0'
      invariant cur < arg.Length && i <= data.Length
      invariant Turn(text, arg[..], tail, data[..i], cur)
      decreases |text| - cur
    {
      PassedTurn(text, arg[..], tail, data[..i], cur);
      i := MarkOrCut(arg, data, cur, i);
      cur := cur + 1;
    }
  }

  /**
   One pass, in place. Although it keeps writing into the buffer while it hands out positions in it,
   afterwards every position denotes the whole value that stood there, and no more.
   */
  method Tokenize(arg: array<char>, data: array<nat>) returns (i: nat)
    requires '\0' in arg[..] && |Values(CStr(arg[..]))| <= data.Length
    modifies arg, data
    ensures i == |Values(old(CStr(arg[..])))| <= data.Length
    ensures forall k :: 0 <= k < i ==> data[k] < arg.Length && CStr(arg[data[k]..]) == Values(old(CStr(arg[..])))[k]
  {
    ghost var b, text := arg[..], CStr(arg[..]);
    CStrEnd(b);
    ghost var tail := b[|text|..];
    StartsCount(text, 0);
    PassBegins(text, b, tail);
    i := Pass(arg, data, text, tail);
    PassEnds(text, arg[..], tail, data[..i]);
    forall k | 0 <= k < i ensures data[k] < arg.Length && CStr(arg[data[k]..]) == Values(text)[k] {
      assert arg[..][data[..i][k]..] == arg[data[k]..];
    }
  }

  // ----- round trip -----

  datatype Pair = Pair(name: string, value: string)

  predicate Safe(s: string) { '=' !in s && '&' !in s && '\0' !in s }

  predicate SafePairs(ps: seq<Pair>) { forall p <- ps :: Safe(p.name) && Safe(p.value) }

  /** A form as it is submitted: name=value fields separated by '&'. */
  function Form(ps: seq<Pair>): string {
    if ps == [] then ""
    else ps[0].name + "=" + ps[0].value + if |ps| == 1 then "" else "&" + Form(ps[1..])
  }

  lemma {:induction false} ValuesSkip(a: string, b: string)
    requires '=' !in a
    ensures Values(a + b) == Values(b)
  {
    if a == "" {
      assert a + b == b;
    } else {
      assert (a + b)[0] == a[0] && (a + b)[1..] == a[1..] + b && a[0] in a;
      ValuesSkip(a[1..], b);
    }
  }

  lemma {:induction false} UpToSafe(a: string, b: string, c: char)
    requires c !in a && (b == "" || b[0] == c)
    ensures UpTo(a + b, c) == a
  {
    if a == "" {
      assert a + b == b;
    } else {
      assert (a + b)[0] == a[0] && (a + b)[1..] == a[1..] + b && a[0] in a;
      UpToSafe(a[1..], b, c);
    }
  }

  /** The first field of a form, and the rest of it. */
  lemma FirstValue(p: Pair, more: string)
    requires Safe(p.name) && Safe(p.value) && (more == "" || more[0] == '&')
    ensures Values(p.name + ("=" + (p.value + more))) == [p.value] + Values(more)
  {
    var s := "=" + (p.value + more);
    ValuesSkip(p.name, s);
    assert s[1..] == p.value + more;
    UpToSafe(p.value, more, '&');
    ValuesSkip(p.value, more);
  }

  function Submitted(ps: seq<Pair>): (r: seq<string>)
    ensures |r| == |ps| && forall i :: 0 <= i < |ps| ==> r[i] == ps[i].value
  {
    if ps == [] then [] else [ps[0].value] + Submitted(ps[1..])
  }

  /** The values recovered from a form are the values submitted, all of them, in order. */
  lemma {:induction false} FormValues(ps: seq<Pair>)
    requires SafePairs(ps)
    ensures Values(Form(ps)) == Submitted(ps)
  {
    if ps != [] {
      var p, more := ps[0], if |ps| == 1 then "" else "&" + Form(ps[1..]);
      assert Safe(p.name) && Safe(p.value);
      assert Form(ps) == p.name + ("=" + (p.value + more));
      FirstValue(p, more);
      FormValues(ps[1..]);
      if |ps| > 1 { ValuesSkip("&", Form(ps[1..])); }
    }
  }

  lemma {:induction false} FormHasNoNul(ps: seq<Pair>)
    requires SafePairs(ps)
    ensures '\0' !in Form(ps)
  {
    if ps != [] { FormHasNoNul(ps[1..]); }
  }
}
