/**
 Reading lines from a byte stream as http/httpd.c does: CRLF, a lone CR and LF all end a line, and a long line
 comes in pieces.
 */
module HttpStream {

  /** The next character after line ends are made LF, and the bytes left; a CR looks one byte ahead. */
  function Next(s: string): (char, string)
    requires s != ""
  {
    if s[0] != '\r' then (s[0], s[1..])
    else if |s| > 1 && s[1] == '\n' then ('\n', s[2..])
    else ('\n', s[1..])
  }

  function Norm(s: string): string
    decreases |s|
  {
    if s == "" then "" else [Next(s).0] + Norm(Next(s).1)
  }

  /** At most m characters, up to and including a line end, and the bytes left. */
  function ReadLine(s: string, m: nat): (r: (string, string))
    ensures |r.1| <= |s| && (m > 0 && s != "" ==> |r.1| < |s|)
    ensures |r.0| <= m && forall i :: 0 <= i < |r.0| - 1 ==> r.0[i] != '\n'
    decreases |s|
  {
    if m == 0 || s == "" then ("", s)
    else
      var (c, rest) := Next(s);
      if c == '\n' then ("\n", rest)
      else var (line, left) := ReadLine(rest, m - 1); ([c] + line, left)
  }

  /** A line is complete when it ends in LF or fills the space; before that get_line keeps asking for bytes. */
  predicate Complete(line: string, m: nat) {
    |line| == m || (line != "" && line[|line| - 1] == '\n')
  }

  // ----- the normalised stream -----

  predicate CutsCRLF(a: string, b: string) {
    a != "" && a[|a| - 1] == '\r' && b != "" && b[0] == '\n'
  }

  lemma NextConcat(a: string, b: string)
    requires a != "" && !CutsCRLF(a, b)
    ensures Next(a + b) == (Next(a).0, Next(a).1 + b) && !CutsCRLF(Next(a).1, b)
  {
    if a[0] == '\r' && |a| > 1 && a[1] == '\n' {
      assert (a + b)[2..] == a[2..] + b;
    } else {
      assert (a + b)[1..] == a[1..] + b;
    }
  }

  lemma {:induction false} NormConcat(a: string, b: string)
    requires !CutsCRLF(a, b)
    ensures Norm(a + b) == Norm(a) + Norm(b)
    decreases |a|
  {
    if a == "" {
      assert a + b == b;
    } else {
      NextConcat(a, b);
      NormConcat(Next(a).1, b);
      assert [Next(a).0] + (Norm(Next(a).1) + Norm(b)) == [Next(a).0] + Norm(Next(a).1) + Norm(b);
    }
  }

  /** Pieces normalise separately exactly when the cut is not inside a CRLF. */
  lemma NormConcatIff(a: string, b: string)
    ensures Norm(a + b) == Norm(a) + Norm(b) <==> !CutsCRLF(a, b)
  {
    if CutsCRLF(a, b) {
      var x, y := a[..|a| - 1], b[1..];
      assert a == x + "\r" && b == "\n" + y && a + b == x + ("\r\n" + y);
      NormConcat(x, "\r");
      NormConcat(x, "\r\n" + y);
      assert ("\r\n" + y)[2..] == y;
      assert Norm("\r\n" + y) == "\n" + Norm(y) == Norm(b);
      assert |Norm("\r")| == 1;
    } else {
      NormConcat(a, b);
    }
  }

  /** With NormConcatIff this says what becomes of every stream: CRLF and a lone CR are made LF, all else stays. */
  lemma LineEndsMadeLF(c: char)
    ensures Norm("\r\n") == "\n" && Norm("\r") == "\n" && Norm("") == ""
    ensures c != '\r' ==> Norm([c]) == [c]
  {
    var crlf, cr := "\r\n", "\r";
    assert crlf[2..] == "" && cr[1..] == "" && [c][1..] == "";
    assert Next(crlf) == ('\n', "") && Next(cr) == ('\n', "");
  }

  lemma {:induction false} NormHasNoCR(s: string)
    ensures '\r' !in Norm(s) && |Norm(s)| <= |s|
    decreases |s|
  {
    if s != "" { NormHasNoCR(Next(s).1); }
  }

  /** Number of characters up to and including the first LF, or all of them. */
  function LineEnd(t: string): nat {
    if t == "" then 0 else if t[0] == '\n' then 1 else 1 + LineEnd(t[1..])
  }

  lemma {:induction false} LineEndIs(t: string)
    ensures LineEnd(t) <= |t| && forall i :: 0 <= i < LineEnd(t) - 1 ==> t[i] != '\n'
    ensures LineEnd(t) < |t| ==> LineEnd(t) > 0 && t[LineEnd(t) - 1] == '\n'
  {
    if t != "" && t[0] != '\n' { LineEndIs(t[1..]); }
  }

  function Min(a: nat, b: nat): nat { if a < b then a else b }

  lemma {:induction false} ReadLineLosesNothing(s: string, m: nat)
    ensures Norm(s) == ReadLine(s, m).0 + Norm(ReadLine(s, m).1)
    decreases |s|
  {
    if m > 0 && s != "" {
      var (c, rest) := Next(s);
      ReadLineLosesNothing(rest, m - 1);
      var (line, left) := ReadLine(rest, m - 1);
      assert [c] + (line + Norm(left)) == [c] + line + Norm(left);
    }
  }

  lemma LineEndCons(c: char, t: string)
    ensures LineEnd([c] + t) == if c == '\n' then 1 else 1 + LineEnd(t)
  {
    assert ([c] + t)[1..] == t;
  }

  lemma {:induction false} ReadLineIsPrefix(s: string, m: nat)
    ensures LineEnd(Norm(s)) <= |Norm(s)|
    ensures ReadLine(s, m).0 == Norm(s)[..Min(m, LineEnd(Norm(s)))]
    decreases |s|
  {
    LineEndIs(Norm(s));
    if m > 0 && s != "" {
      var (c, rest) := Next(s);
      LineEndCons(c, Norm(rest));
      if c != '\n' { ReadLineIsPrefix(rest, m - 1); }
    }
  }

  /**
   A line read is the next piece of the normalised stream, and nothing of it is lost: no CRLF is split across
   reads.
   */
  lemma ReadLineIsChunk(s: string, m: nat)
    ensures var (line, left) := ReadLine(s, m);
            && Norm(s) == line + Norm(left)
            && LineEnd(Norm(s)) <= |Norm(s)|
            && line == Norm(s)[..Min(m, LineEnd(Norm(s)))]
  {
    ReadLineLosesNothing(s, m);
    ReadLineIsPrefix(s, m);
  }

  // ----- the socket and get_line -----

  function CStr(s: string): string {
    if s == "" || s[0] == '\0' then "" else [s[0]] + CStr(s[1..])
  }

  class Socket {
    const stream: string
    var pos: nat

    ghost predicate Valid()
      reads this
    {
      pos <= |stream|
    }

    ghost function Rest(): string
      reads this
      requires Valid()
    {
      stream[pos..]
    }

    constructor (s: string)
      ensures Valid() && Rest() == s
    {
      stream := s;
      pos := 0;
    }

    /** recv(sock, &c, 1, 0) with c in hand: at the end of the stream it returns 0 and leaves c alone. */
    method Recv(c: char) returns (n: int, d: char)
      requires Valid()
      modifies this
      ensures Valid()
      ensures if old(Rest()) == "" then n == 0 && d == c && Rest() == ""
              else n == 1 && d == old(Rest())[0] && Rest() == old(Rest())[1..]
    {
      if pos < |stream| {
        n, d := 1, stream[pos];
        pos := pos + 1;
      } else {
        n, d := 0, c;
      }
    }

    /** The same with MSG_PEEK. */
    method Peek(c: char) returns (n: int, d: char)
      requires Valid()
      ensures if Rest() == "" then n == 0 && d == c else n == 1 && d == Rest()[0]
    {
      if pos < |stream| {
        n, d := 1, stream[pos];
      } else {
        n, d := 0, c;
      }
    }
  }

  // ----- the loop of get_line -----

  /** In front of a turn: what is stored, the last character, the bytes to come. */
  datatype Loop = Loop(got: string, c: char, s: string)

  predicate Ended(l: Loop, m: nat) { |l.got| >= m || l.c == '\n' }

  /** At the end of the stream recv returns 0, and a turn changes nothing. */
  function Turn(l: Loop): Loop {
    if l.s == "" then l else Loop(l.got + [Next(l.s).0], Next(l.s).0, Next(l.s).1)
  }

  function Turns(l: Loop, m: nat, n: nat): Loop
    decreases n
  {
    if n == 0 || Ended(l, m) then l else Turns(Turn(l), m, n - 1)
  }

  lemma {:induction false} Stuck(l: Loop, m: nat, n: nat)
    requires l.s == ""
    ensures Turns(l, m, n) == l
  {
    if n > 0 { Stuck(l, m, n - 1); }
  }

  /** What is missing of the line arrives. */
  predicate ToCome(l: Loop, m: nat)
    requires |l.got| <= m
  {
    Complete(ReadLine(l.s, m - |l.got|).0, m - |l.got|)
  }

  lemma ToComeNext(l: Loop, m: nat)
    requires l.s != "" && !Ended(l, m) && !Ended(Turn(l), m)
    ensures ToCome(l, m) <==> ToCome(Turn(l), m)
  {
  }

  lemma {:induction false} MoreTurns(l: Loop, m: nat, a: nat, b: nat)
    requires a <= b && Ended(Turns(l, m, a), m)
    ensures Ended(Turns(l, m, b), m)
    decreases a
  {
    if !Ended(l, m) { MoreTurns(Turn(l), m, a - 1, b - 1); }
  }

  /** How many turns it takes, if the line is complete; without that it goes on for ever. */
  lemma {:induction false} EndsIff(l: Loop, m: nat, n: nat)
    requires !Ended(l, m)
    ensures ToCome(l, m) ==> Ended(Turns(l, m, |l.s|), m)
    ensures Ended(Turns(l, m, n), m) ==> ToCome(l, m)
    decreases |l.s|
  {
    if l.s == "" {
      Stuck(l, m, n);
    } else if !Ended(Turn(l), m) {
      ToComeNext(l, m);
      EndsIff(Turn(l), m, if n == 0 then 0 else n - 1);
      if Ended(Turns(Turn(l), m, |Turn(l).s|), m) { MoreTurns(Turn(l), m, |Turn(l).s|, |l.s| - 1); }
    }
  }

  ghost predicate LoopEnds(l: Loop, m: nat) {
    exists n: nat :: Ended(Turns(l, m, n), m)
  }

  /** The loop of get_line ends after some number of turns exactly when the stream holds a complete line. */
  lemma LoopEndsIff(s: string, m: nat)
    ensures LoopEnds(Loop("", '\0', s), m) <==> Complete(ReadLine(s, m).0, m)
  {
    var l := Loop("", '\0', s);
    if m == 0 {
      assert Ended(Turns(l, m, 0), m);
    } else {
      EndsIff(l, m, 0);
      forall n: nat | Ended(Turns(l, m, n), m) ensures Complete(ReadLine(s, m).0, m) { EndsIff(l, m, n); }
      if Complete(ReadLine(s, m).0, m) {
        assert Ended(Turns(l, m, |s|), m);
      }
    }
  }

  /** One turn: the next character is stored, or there is none. */
  method GetChar(sock: Socket, buf: array<char>, i0: nat, c0: char) returns (i: nat, c: char)
    requires sock.Valid() && i0 < buf.Length
    modifies sock, buf
    ensures sock.Valid()
    ensures old(sock.Rest()) == "" ==> sock.Rest() == "" && i == i0 && c == c0 && buf[..] == old(buf[..])
    ensures old(sock.Rest()) != "" ==>
              (c, sock.Rest()) == Next(old(sock.Rest())) && i == i0 + 1 && buf[..] == old(buf[..])[i0 := c]
  {
    var n;
    i := i0;
    n, c := sock.Recv(c0);
    if n > 0 {
      if c == '\r' {
        n, c := sock.Peek(c);
        if n > 0 && c == '\n' {
          n, c := sock.Recv(c);
        } else {
          c := '\n';
        }
      }
      buf[i] := c;
      i := i + 1;
    }
  }

  /** `all` is the line being read and what follows it: part of it is stored, the rest is still to come. */
  ghost predicate Reading(all: (string, string), l: Loop, m: nat) {
    if l.c == '\n' then all == (l.got, l.s)
    else
      && |l.got| <= m && Complete(ReadLine(l.s, m - |l.got|).0, m - |l.got|)
      && all == (l.got + ReadLine(l.s, m - |l.got|).0, ReadLine(l.s, m - |l.got|).1)
  }

  lemma ReadLineStep(s: string, k: nat)
    requires k > 0 && Complete(ReadLine(s, k).0, k)
    ensures s != ""
    ensures Next(s).0 == '\n' ==> ReadLine(s, k) == ("\n", Next(s).1)
    ensures Next(s).0 != '\n' ==>
              var (line, left) := ReadLine(Next(s).1, k - 1);
              ReadLine(s, k) == ([Next(s).0] + line, left) && Complete(line, k - 1)
  {
  }

  lemma ReadingStep(all: (string, string), l: Loop, m: nat)
    requires Reading(all, l, m) && !Ended(l, m)
    ensures l.s != "" && Reading(all, Turn(l), m) && |Turn(l).got| == |l.got| + 1
  {
    var (d, rest) := Next(l.s);
    var k := m - |l.got|;
    ReadLineStep(l.s, k);
    if d == '\n' {
      assert [d] == "\n";
    } else {
      var line := ReadLine(rest, k - 1).0;
      assert l.got + ([d] + line) == l.got + [d] + line;
    }
  }

  lemma ReadingEnds(all: (string, string), l: Loop, m: nat)
    requires Reading(all, l, m) && Ended(l, m)
    ensures all == (l.got, l.s)
  {
    assert l.got + "" == l.got;
  }

  /** The buffer b holds what has arrived, and behind it what b0 held. */
  ghost predicate Stored(b0: string, b: string, l: Loop) {
    |l.got| <= |b0| && b == l.got + b0[|l.got|..]
  }

  lemma StoringStep(b0: string, b: string, l: Loop)
    requires Stored(b0, b, l) && l.s != "" && |l.got| < |b|
    ensures Stored(b0, b[|l.got| := Next(l.s).0], Turn(l))
  {
    var i := |l.got|;
    assert b0[i..] == [b0[i]] + b0[i + 1..];
  }

  /** In front of a turn of get_line, the buffer holds b, which once was b0. */
  ghost predicate Filling(all: (string, string), b0: string, b: string, l: Loop, m: nat) {
    Stored(b0, b, l) && Reading(all, l, m)
  }

  lemma FillingBegins(all: (string, string), s: string, b: string, m: nat)
    requires all == ReadLine(s, m) && Complete(all.0, m)
    ensures Filling(all, b, b, Loop("", '\0', s), m)
  {
    assert "" + all.0 == all.0;
  }

  lemma FillingStep(all: (string, string), b0: string, b: string, l: Loop, m: nat)
    requires Filling(all, b0, b, l, m) && !Ended(l, m) && m < |b|
    ensures l.s != "" && |Turn(l).got| == |l.got| + 1
    ensures Filling(all, b0, b[|l.got| := Next(l.s).0], Turn(l), m)
  {
    ReadingStep(all, l, m);
    StoringStep(b0, b, l);
  }

  lemma FillingEnds(all: (string, string), b0: string, b: string, l: Loop, m: nat)
    requires Filling(all, b0, b, l, m) && Ended(l, m)
    ensures all == (l.got, l.s) && |l.got| <= |b0| && b == l.got + b0[|l.got|..]
  {
    ReadingEnds(all, l, m);
  }

  /** The loop; it ends exactly on the streams that hold a complete line. */
  method FillLine(sock: Socket, buf: array<char>, size: nat) returns (i: nat, ghost line: string)
    requires sock.Valid() && 1 <= size <= buf.Length
    requires Complete(ReadLine(sock.Rest(), size - 1).0, size - 1)
    modifies sock, buf
    ensures sock.Valid() && (line, sock.Rest()) == ReadLine(old(sock.Rest()), size - 1)
    ensures i == |line| < size && buf[..] == line + old(buf[..])[i..]
  {
    ghost var all, b0 := ReadLine(sock.Rest(), size - 1), buf[..];
    ghost var l := Loop("", '\0', sock.Rest());
    line := all.0;
    FillingBegins(all, l.s, b0, size - 1);
    i := 0;
    var c := '\0';
    while i < size - 1 && c != '\n'
      invariant i == |l.got| <= size - 1 && c == l.c
      invariant sock.Valid() && sock.Rest() == l.s
      invariant Filling(all, b0, buf[..], l, size - 1)
      decreases size - i
    {
      FillingStep(all, b0, buf[..], l, size - 1);
      i, c := GetChar(sock, buf, i, c);
      l := Turn(l);
    }
    FillingEnds(all, b0, buf[..], l, size - 1);
  }

  lemma Closed(line: string, b0: string, b: string, i: nat)
    requires i == |line| < |b0| && b == line + b0[i..]
    ensures b[i := '\0'] == line + "\0" + b0[i + 1..]
  {
    assert b0[i..] == [b0[i]] + b0[i + 1..];
  }

  /** The line, a terminator, and behind it the buffer is as it was. */
  method GetLine(sock: Socket, buf: array<char>, size: nat) returns (i: nat)
    requires sock.Valid() && 1 <= size <= buf.Length
    requires Complete(ReadLine(sock.Rest(), size - 1).0, size - 1)
    modifies sock, buf
    ensures sock.Valid()
    ensures var (line, left) := ReadLine(old(sock.Rest()), size - 1);
            && i == |line| < size && sock.Rest() == left
            && buf[..] == line + "\0" + old(buf[..])[i + 1..]
  {
    ghost var b0 := buf[..];
    ghost var line;
    i, line := FillLine(sock, buf, size);
    ghost var b := buf[..];
    Closed(line, b0, b, i);
    buf[i] := '\0';
  }
}
