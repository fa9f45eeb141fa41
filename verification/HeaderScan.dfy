/**
 The two loops of http/httpd.c that read a request's header lines, where exactly they stop, and the copy of the
 body that follows.
 */
module HeaderScan {
  import opened Decimal
  import opened HttpStream

  const BUF_SIZE := 1024
  const PIECE := 1022   // get_line(sock, buf, sizeof(buf) - 1) returns at most this many characters

  /** Both loops find their blank line before the stream ends. */
  ghost predicate Terminated(s: string)
    decreases |s|
  {
    var (line, left) := ReadLine(s, PIECE);
    s != "" && Complete(line, PIECE) && (line == "\n" || Terminated(left))
  }

  // ----- clean_hander -----

  function Skip(s: string): string
    decreases |s|
  {
    var (line, left) := ReadLine(s, PIECE);
    if s == "" || line == "\n" then left else Skip(left)
  }

  /** What strcmp sees: a line with its terminator, in a buffer that may hold more behind it. */
  lemma CStrOfLine(b: string, i: nat)
    requires i < |b| && b[i] == '\0'
    requires i > 0 && (b[i - 1] == '\n' || i == PIECE) && forall k :: 0 <= k < i - 1 ==> b[k] != '\n'
    ensures CStr(b) == "\n" <==> b[..i] == "\n"
  {
    if CStr(b) == "\n" {
      assert CStr(b)[0] == b[0];
    }
    if b[..i] == "\n" {
      assert b[0] == b[..i][0] && i == |b[..i]|;
      assert CStr(b[1..]) == "";
    }
  }

  // ----- the header loop of excu_cgi -----

  function Lower(c: char): char { if 'A' <= c <= 'Z' then c + ('a' - 'A') else c }

  predicate SameLetters(a: string, b: string) {
    |a| == |b| && forall i :: 0 <= i < |a| ==> Lower(a[i]) == Lower(b[i])
  }

  const LENGTH_FIELD := "Content-Length: "

  predicate IsLength(line: string) {
    |line| >= 16 && SameLetters(line[..16], LENGTH_FIELD)
  }

  /** Each character of f is one of the two that stand at its place. */
  predicate EitherCase(f: string, lower: string, upper: string) {
    |f| == |lower| == |upper| && forall k :: 0 <= k < |f| ==> f[k] == lower[k] || f[k] == upper[k]
  }

  /** A small letter and its capital, or twice the same character that is no letter. */
  predicate BothCases(l: char, u: char) {
    if 'a' <= l <= 'z' then u as int + 32 == l as int else u == l && !('A' <= l <= 'Z')
  }

  lemma LowerIff(c: char, d: char, l: char, u: char)
    requires Lower(d) == l && BothCases(l, u)
    ensures Lower(c) == Lower(d) <==> c == l || c == u
  {
  }

  lemma SameLettersIff(f: string, name: string, lower: string, upper: string)
    requires |name| == |lower| == |upper|
    requires forall k :: 0 <= k < |name| ==> Lower(name[k]) == lower[k] && BothCases(lower[k], upper[k])
    ensures SameLetters(f, name) <==> EitherCase(f, lower, upper)
  {
    if |f| == |name| {
      forall k | 0 <= k < |name|
        ensures Lower(f[k]) == Lower(name[k]) <==> f[k] == lower[k] || f[k] == upper[k]
      {
        LowerIff(f[k], name[k], lower[k], upper[k]);
      }
    }
  }

  /**
   A line is a Content-Length field exactly when it begins with that name, a colon and a blank, in any letter
   case.
   */
  lemma IsLengthIff(line: string)
    ensures IsLength(line) <==> |line| >= 16 && EitherCase(line[..16], "content-length: ", "CONTENT-LENGTH: ")
  {
    if |line| >= 16 { SameLettersIff(line[..16], LENGTH_FIELD, "content-length: ", "CONTENT-LENGTH: "); }
  }

  /** The declared length, the last one winning, and the bytes left. */
  function ScanPost(s: string, clength: int): (int, string)
    decreases |s|
  {
    var (line, left) := ReadLine(s, PIECE);
    if s == "" || line == "\n" then (clength, left)
    else ScanPost(left, if IsLength(line) then Atoi(line[16..]) else clength)
  }

  lemma {:induction false} DigitsStopAt(a: string, c: char, b: string, acc: nat)
    requires !IsDigit(c)
    ensures DigitsValue(a + [c] + b, acc) == DigitsValue(a, acc)
  {
    if a != "" && IsDigit(a[0]) {
      assert (a + [c] + b)[1..] == a[1..] + [c] + b;
      DigitsStopAt(a[1..], c, b, 10 * acc + (a[0] - '0') as nat);
    }
  }

  lemma {:induction false} AtoiStopsAt(a: string, c: char, b: string)
    requires !IsDigit(c) && (!IsSpace(c) || b == "") && c != '-' && c != '+'
    ensures Atoi(a + [c] + b) == Atoi(a)
  {
    var s := a + [c] + b;
    if a == "" {
      assert s[0] == c;
      assert s[1..] == b;
    } else {
      assert s[0] == a[0] && s[1..] == a[1..] + [c] + b;
      if IsSpace(a[0]) {
        AtoiStopsAt(a[1..], c, b);
      } else {
        DigitsStopAt(a, c, b, 0);
        DigitsStopAt(a[1..], c, b, 0);
      }
    }
  }

  /** The field test and atoi read the buffer; they see the line only. */
  lemma LengthInBuffer(b: string, i: nat)
    requires 16 <= |b| && i < |b| && b[i] == '\0'
    ensures IsLength(b) <==> IsLength(b[..i])
    ensures IsLength(b) ==> Atoi(b[16..]) == Atoi(b[..i][16..])
  {
    if i < 16 {
      assert b[..16][i] == '\0';
    } else {
      assert b[..i][..16] == b[..16];
      assert b[16..] == b[..i][16..] + ['\0'] + b[i + 1..];
      AtoiStopsAt(b[..i][16..], '\0', b[i + 1..]);
    }
  }

  /** One get_line of either loop, and what strcmp, strncasecmp and atoi will make of the buffer. */
  method ReadPiece(sock: Socket, buf: array<char>) returns (n: nat, ghost line: string)
    requires sock.Valid() && buf.Length == BUF_SIZE && sock.Rest() != ""
    requires Complete(ReadLine(sock.Rest(), PIECE).0, PIECE)
    modifies sock, buf
    ensures sock.Valid() && (line, sock.Rest()) == ReadLine(old(sock.Rest()), PIECE) && n == |line| > 0
    ensures CStr(buf[..]) == "\n" <==> line == "\n"
    ensures IsLength(buf[..]) <==> IsLength(line)
    ensures IsLength(line) ==> Atoi(buf[16..]) == Atoi(line[16..])
  {
    line := ReadLine(sock.Rest(), PIECE).0;
    n := GetLine(sock, buf, BUF_SIZE - 1);
    ghost var b := buf[..];
    assert b[..n] == line && b[n] == '\0';
    CStrOfLine(b, n);
    LengthInBuffer(b, n);
  }

  method CleanHeader(sock: Socket)
    requires sock.Valid() && Terminated(sock.Rest())
    modifies sock
    ensures sock.Valid() && sock.Rest() == Skip(old(sock.Rest()))
  {
    var buf := new char[BUF_SIZE](_ => '\0');
    ghost var s := sock.Rest();
    var ret; ghost var line;
    ret, line := ReadPiece(sock, buf);
    while ret != 1 && CStr(buf[..]) != "\n"
      invariant sock.Valid() && s != "" && Skip(s) == Skip(old(sock.Rest())) && Terminated(s)
      invariant (line, sock.Rest()) == ReadLine(s, PIECE) && ret == |line|
      invariant CStr(buf[..]) == "\n" <==> line == "\n"
      decreases |sock.Rest()|
    {
      s := sock.Rest();
      ret, line := ReadPiece(sock, buf);
    }
  }

  method PostScan(sock: Socket) returns (clength: int)
    requires sock.Valid() && Terminated(sock.Rest())
    modifies sock
    ensures sock.Valid() && (clength, sock.Rest()) == ScanPost(old(sock.Rest()), 0)
  {
    var buf := new char[BUF_SIZE](_ => '\0');
    clength := 0;
    ghost var s := sock.Rest();
    var readnum; ghost var line;
    readnum, line := ReadPiece(sock, buf);
    while readnum > 0 && CStr(buf[..]) != "\n"
      invariant sock.Valid() && s != "" && ScanPost(s, clength) == ScanPost(old(sock.Rest()), 0) && Terminated(s)
      invariant (line, sock.Rest()) == ReadLine(s, PIECE) && readnum == |line| > 0
      invariant CStr(buf[..]) == "\n" <==> line == "\n"
      invariant IsLength(buf[..]) <==> IsLength(line)
      invariant IsLength(line) ==> Atoi(buf[16..]) == Atoi(line[16..])
      decreases |sock.Rest()|
    {
      if IsLength(buf[..]) {
        clength := Atoi(buf[16..]);
      }
      s := sock.Rest();
      readnum, line := ReadPiece(sock, buf);
    }
  }

  /** GET and POST leave the stream at the same place, whatever it holds. */
  lemma {:induction false} ScannersAgree(s: string, clength: int)
    ensures ScanPost(s, clength).1 == Skip(s)
    decreases |s|
  {
    var (line, left) := ReadLine(s, PIECE);
    if s != "" && line != "\n" {
      ScannersAgree(left, if IsLength(line) then Atoi(line[16..]) else clength);
    }
  }

  // ----- where they stop -----

  /** A line of n characters, its LF included, ends a header. */
  predicate StopsAfter(n: nat) { n > 0 && (n - 1) % PIECE == 0 }

  /** On the normalised stream: through the first line whose length is a multiple of 1022. */
  function SkipLines(t: string): string
    decreases |t|
  {
    LineEndIs(t);
    var n := LineEnd(t);
    if n == 0 then "" else if StopsAfter(n) && t[n - 1] == '\n' then t[n..] else SkipLines(t[n..])
  }

  lemma LineEndDrop(t: string, m: nat)
    requires m < LineEnd(t) && LineEnd(t) <= |t|
    ensures LineEnd(t[m..]) == LineEnd(t) - m
    decreases m
  {
    if m > 0 {
      assert t[m..] == t[1..][m - 1..];
      LineEndDrop(t[1..], m - 1);
    }
  }

  lemma DropTwice(t: string, a: nat, b: nat)
    requires a < b <= |t|
    ensures t[a..][b - a..] == t[b..] && t[a..][b - a - 1] == t[b - 1]
  {
  }

  lemma StopsShift(n: nat)
    requires n > PIECE
    ensures StopsAfter(n) <==> StopsAfter(n - PIECE)
  {
    var x: int := n - 1 - PIECE;
    assert (x + 1022) % 1022 == x % 1022;
  }

  /** A piece of a longer line does not move the stop. */
  lemma SkipPiece(t: string, n: nat)
    requires n == LineEnd(t) && PIECE < n <= |t| && t[n - 1] == '\n'
    ensures SkipLines(t) == SkipLines(t[PIECE..])
  {
    LineEndDrop(t, PIECE);
    DropTwice(t, PIECE, n);
    StopsShift(n);
  }

  lemma SkipWhole(t: string, n: nat)
    requires n == LineEnd(t) && 0 < n <= PIECE && n <= |t| && t[n - 1] == '\n'
    ensures SkipLines(t) == if n == 1 then t[n..] else SkipLines(t[n..])
  {
    assert StopsAfter(n) <==> n == 1;
  }

  /** Some line of the normalised stream ends a header. */
  predicate HasStop(t: string)
    decreases |t|
  {
    LineEndIs(t);
    var n := LineEnd(t);
    n > 0 && t[n - 1] == '\n' && (StopsAfter(n) || HasStop(t[n..]))
  }

  lemma StopPiece(t: string, n: nat)
    requires n == LineEnd(t) && PIECE < n <= |t|
    ensures HasStop(t) <==> HasStop(t[PIECE..])
  {
    LineEndDrop(t, PIECE);
    DropTwice(t, PIECE, n);
    StopsShift(n);
  }

  /** The first piece of a text, as the loops see it. */
  lemma PieceOf(t: string, line: string)
    requires LineEnd(t) <= |t| && line == t[..Min(PIECE, LineEnd(t))]
    ensures line == "\n" <==> LineEnd(t) == 1 && t[0] == '\n'
    ensures Complete(line, PIECE) <==> LineEnd(t) >= PIECE || (LineEnd(t) > 0 && t[LineEnd(t) - 1] == '\n')
  {
    LineEndIs(t);
  }

  /** The first piece read, seen on the normalised stream. */
  lemma FirstPiece(s: string)
    ensures var t := Norm(s); var n := LineEnd(t);
            n <= |t| && ReadLine(s, PIECE).0 == t[..Min(PIECE, n)] && Norm(ReadLine(s, PIECE).1) == t[Min(PIECE, n)..]
    ensures s != "" <==> LineEnd(Norm(s)) > 0
  {
    var (line, left) := ReadLine(s, PIECE);
    ReadLineIsChunk(s, PIECE);
    assert (line + Norm(left))[|line|..] == Norm(left);
  }

  /**
   The loops end exactly on the streams in which, after normalisation, some line has a length that is a multiple
   of 1022.
   */
  lemma {:induction false} TerminatedIff(s: string)
    ensures Terminated(s) <==> HasStop(Norm(s))
    decreases |s|
  {
    var t := Norm(s);
    var n := LineEnd(t);
    var left := ReadLine(s, PIECE).1;
    FirstPiece(s);
    PieceOf(t, ReadLine(s, PIECE).0);
    LineEndIs(t);
    if n > 0 {
      TerminatedIff(left);
      if n > PIECE {
        StopPiece(t, n);
      } else if t[n - 1] == '\n' {
        assert StopsAfter(n) <==> n == 1;
      } else {
        assert Norm(left) == "";
      }
    }
  }

  /** Exact stopping point, for every stream on which the loops end. */
  lemma {:induction false} StopsAtMultiple(s: string)
    requires Terminated(s)
    ensures Norm(Skip(s)) == SkipLines(Norm(s))
    decreases |s|
  {
    var (line, left) := ReadLine(s, PIECE);
    var n := LineEnd(Norm(s));
    FirstPiece(s);
    PieceOf(Norm(s), line);
    TerminatedIff(s);
    LineEndIs(Norm(s));
    if line != "\n" { StopsAtMultiple(left); }
    if n > PIECE { SkipPiece(Norm(s), n); } else { SkipWhole(Norm(s), n); }
  }
}
