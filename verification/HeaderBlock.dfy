/** What the header loops do on a header block as a client sends it, and the copy of the body to the CGI program. */
module HeaderBlock {
  import opened Decimal
  import opened HttpStream
  import opened HeaderScan

  /** A line of text and its end, CRLF or a bare LF. */
  datatype Line = Line(text: string, crlf: bool)

  predicate Plain(text: string) { '\r' !in text && '\n' !in text }

  function Raw(l: Line): string { l.text + if l.crlf then "\r\n" else "\n" }

  function Block(ls: seq<Line>): string {
    if ls == [] then "" else Raw(ls[0]) + Block(ls[1..])
  }

  ghost predicate AllPlain(ls: seq<Line>) { forall l <- ls :: Plain(l.text) }

  // ----- one line -----

  lemma ReadEmpty(crlf: bool, rest: string, m: nat)
    requires m > 0
    ensures ReadLine(Raw(Line("", crlf)) + rest, m) == ("\n", rest)
  {
    var s := Raw(Line("", crlf)) + rest;
    assert Raw(Line("", crlf)) == if crlf then "\r\n" else "\n";
    assert if crlf then s[2..] == rest else s[1..] == rest;
    assert Next(s) == ('\n', rest);
  }

  /** A line that fits is read whole; of a longer one the first m characters, and the rest stays a line. */
  lemma {:induction false} ReadPlain(l: Line, rest: string, m: nat)
    requires Plain(l.text) && m > 0
    ensures |l.text| < m ==> ReadLine(Raw(l) + rest, m) == (l.text + "\n", rest)
    ensures |l.text| >= m ==> ReadLine(Raw(l) + rest, m) == (l.text[..m], Raw(l.(text := l.text[m..])) + rest)
    decreases |l.text|
  {
    var s := Raw(l) + rest;
    if l.text == "" {
      ReadEmpty(l.crlf, rest, m);
      assert l.text + "\n" == "\n";
    } else {
      var c, tail := l.text[0], l.(text := l.text[1..]);
      assert s[0] == c && c in l.text && s[1..] == Raw(tail) + rest;
      assert Next(s) == (c, s[1..]);
      if m > 1 {
        ReadPlain(tail, rest, m - 1);
        if |l.text| >= m {
          assert l.text[1..][m - 1..] == l.text[m..] && [c] + l.text[1..][..m - 1] == l.text[..m];
        } else {
          assert [c] + (l.text[1..] + "\n") == l.text + "\n";
        }
      } else {
        assert ReadLine(s[1..], 0) == ("", s[1..]);
        assert [c] + "" == l.text[..1];
      }
    }
  }

  lemma {:induction false} SkipLine(l: Line, rest: string)
    requires Plain(l.text)
    ensures Skip(Raw(l) + rest) == if |l.text| % PIECE == 0 then rest else Skip(rest)
    decreases |l.text|
  {
    ReadPlain(l, rest, PIECE);
    if |l.text| >= PIECE {
      SkipLine(l.(text := l.text[PIECE..]), rest);
    } else if l.text != "" {
      assert (l.text + "\n")[0] == l.text[0] && l.text[0] in l.text;
    }
  }

  // ----- the whole block -----

  lemma {:induction false} SkipShortens(s: string)
    ensures |Skip(s)| <= |s|
    decreases |s|
  {
    if s != "" && ReadLine(s, PIECE).0 != "\n" { SkipShortens(ReadLine(s, PIECE).1); }
  }

  /**
   The loop stops at the blank line, and the body is next, exactly when no header line has a length that is a
   multiple of 1022.
   */
  lemma {:induction false} StopsAtBlankLineIff(ls: seq<Line>, crlf: bool, body: string)
    requires AllPlain(ls)
    ensures Skip(Block(ls) + (Raw(Line("", crlf)) + body)) == body <==> forall l <- ls :: |l.text| % 1022 != 0
    ensures |Skip(Block(ls) + (Raw(Line("", crlf)) + body))| >= |body|
  {
    var tail := Raw(Line("", crlf)) + body;
    if ls == [] {
      SkipLine(Line("", crlf), body);
      assert Block(ls) + tail == tail;
    } else {
      var rest := Block(ls[1..]) + tail;
      assert Block(ls) + tail == Raw(ls[0]) + rest;
      SkipLine(ls[0], rest);
      StopsAtBlankLineIff(ls[1..], crlf, body);
    }
  }

  // ----- the declared length -----

  /** A line longer than the buffer is read in pieces of 1022 characters, and each is looked at as if it were a line. */
  function DeclaredIn(text: string, clength: int): int
    decreases |text|
  {
    var piece := text[..Min(PIECE, |text|)];
    var n := if IsLength(piece) then Atoi(piece[16..]) else clength;
    if |text| <= PIECE then n else DeclaredIn(text[PIECE..], n)
  }

  /** Content-Length as the header block declares it: the last such piece counts. */
  function Declared(ls: seq<Line>, clength: int): int {
    if ls == [] then clength else Declared(ls[1..], DeclaredIn(ls[0].text, clength))
  }

  lemma LengthOfText(text: string)
    ensures IsLength(text + "\n") <==> IsLength(text)
    ensures IsLength(text) ==> Atoi((text + "\n")[16..]) == Atoi(text[16..])
  {
    if |text| >= 16 {
      assert (text + "\n")[..16] == text[..16];
      assert (text + "\n")[16..] == text[16..] + ['\n'] + "";
      AtoiStopsAt(text[16..], '\n', "");
    } else {
      assert |text| == 15 ==> (text + "\n")[..16][15] == '\n';
    }
  }

  /** One turn of the POST loop on a piece that is not a blank line. */
  lemma ScanPiece(s: string, clength: int)
    requires s != "" && Complete(ReadLine(s, PIECE).0, PIECE) && ReadLine(s, PIECE).0 != "\n"
    ensures var (line, left) := ReadLine(s, PIECE);
            && ScanPost(s, clength) == ScanPost(left, if IsLength(line) then Atoi(line[16..]) else clength)
            && (Terminated(s) <==> Terminated(left))
  {
  }

  lemma LastPieces(n: nat)
    requires n > PIECE
    ensures n % PIECE == (n - PIECE) % PIECE
  {
    var x: int := n - PIECE;
    assert (x + 1022) % 1022 == x % 1022;
  }

  lemma ScanShortLine(l: Line, rest: string, clength: int)
    requires Plain(l.text) && 0 < |l.text| < PIECE
    ensures ScanPost(Raw(l) + rest, clength) == ScanPost(rest, DeclaredIn(l.text, clength))
    ensures Terminated(Raw(l) + rest) <==> Terminated(rest)
  {
    ReadPlain(l, rest, PIECE);
    assert (l.text + "\n")[0] == l.text[0] && l.text[0] in l.text;
    ScanPiece(Raw(l) + rest, clength);
    assert l.text[..|l.text|] == l.text;
    LengthOfText(l.text);
  }

  lemma ScanLongLine(l: Line, rest: string, clength: int, piece: string, tail: Line)
    requires Plain(l.text) && |l.text| > PIECE
    requires piece == l.text[..PIECE] && tail == l.(text := l.text[PIECE..])
    ensures var n := if IsLength(piece) then Atoi(piece[16..]) else clength;
            && ScanPost(Raw(l) + rest, clength) == ScanPost(Raw(tail) + rest, n)
            && DeclaredIn(l.text, clength) == DeclaredIn(tail.text, n)
    ensures Terminated(Raw(l) + rest) <==> Terminated(Raw(tail) + rest)
  {
    ReadPlain(l, rest, PIECE);
    assert piece[0] == l.text[0] && l.text[0] in l.text;
    ScanPiece(Raw(l) + rest, clength);
  }

  /** A header line whose length is no multiple of 1022 is scanned to its end. */
  lemma {:induction false} ScanLine(l: Line, rest: string, clength: int)
    requires Plain(l.text) && |l.text| % PIECE != 0
    ensures ScanPost(Raw(l) + rest, clength) == ScanPost(rest, DeclaredIn(l.text, clength))
    ensures Terminated(Raw(l) + rest) <==> Terminated(rest)
    decreases |l.text|
  {
    if |l.text| < PIECE {
      ScanShortLine(l, rest, clength);
    } else {
      var piece, tail := l.text[..PIECE], l.(text := l.text[PIECE..]);
      ScanLongLine(l, rest, clength, piece, tail);
      LastPieces(|l.text|);
      ScanLine(tail, rest, if IsLength(piece) then Atoi(piece[16..]) else clength);
    }
  }

  /** Where the POST loop stops in front of the body, it has found the declared length. */
  lemma {:induction false} ScanBlock(ls: seq<Line>, crlf: bool, body: string, clength: int)
    requires AllPlain(ls) && forall l <- ls :: |l.text| % PIECE != 0
    ensures var s := Block(ls) + (Raw(Line("", crlf)) + body);
            ScanPost(s, clength) == (Declared(ls, clength), body) && Terminated(s)
  {
    var tail := Raw(Line("", crlf)) + body;
    if ls == [] {
      ReadPlain(Line("", crlf), body, PIECE);
      assert Block(ls) + tail == tail;
    } else {
      var rest := Block(ls[1..]) + tail;
      assert Block(ls) + tail == Raw(ls[0]) + rest;
      ScanLine(ls[0], rest, clength);
      ScanBlock(ls[1..], crlf, body, DeclaredIn(ls[0].text, clength));
    }
  }

  /** No piece of the line is a Content-Length field. */
  predicate Silent(text: string)
    decreases |text|
  {
    !IsLength(text[..Min(PIECE, |text|)]) && (|text| > PIECE ==> Silent(text[PIECE..]))
  }

  lemma {:induction false} SilentDeclares(text: string, clength: int)
    requires Silent(text)
    ensures DeclaredIn(text, clength) == clength
    decreases |text|
  {
    if |text| > PIECE { SilentDeclares(text[PIECE..], clength); }
  }

  lemma {:induction false} DeclaredUnchanged(ls: seq<Line>, clength: int)
    requires forall l <- ls :: Silent(l.text)
    ensures Declared(ls, clength) == clength
  {
    if ls != [] {
      SilentDeclares(ls[0].text, clength);
      DeclaredUnchanged(ls[1..], clength);
    }
  }

  lemma {:induction false} DeclaredConcat(before: seq<Line>, after: seq<Line>, clength: int)
    ensures Declared(before + after, clength) == Declared(after, Declared(before, clength))
  {
    if before == [] {
      assert before + after == after;
    } else {
      assert (before + after)[1..] == before[1..] + after;
      DeclaredConcat(before[1..], after, DeclaredIn(before[0].text, clength));
    }
  }

  lemma FieldDeclares(f: string, n: nat, clength: int)
    requires EitherCase(f, "content-length: ", "CONTENT-LENGTH: ") && |f + Itoa(n)| <= 1022
    ensures DeclaredIn(f + Itoa(n), clength) == n
  {
    var text := f + Itoa(n);
    assert |f| == 16 && text[..|text|] == text;
    assert text[..16] == f && text[16..] == Itoa(n);
    IsLengthIff(text);
    AtoiItoa(n, "");
    assert Itoa(n) + "" == Itoa(n);
  }

  lemma {:induction false} FrontPassed(front: string, text: string, n: int, clength: int)
    requires |front| % PIECE == 0 && text != "" && forall c :: DeclaredIn(text, c) == n
    ensures DeclaredIn(front + text, clength) == n
    decreases |front|
  {
    if front == "" {
      assert front + text == text;
    } else {
      assert |front| >= PIECE;
      assert (front + text)[PIECE..] == front[PIECE..] + text;
      if |front| > PIECE { LastPieces(|front|); }
      var piece := (front + text)[..PIECE];
      FrontPassed(front[PIECE..], text, n, if IsLength(piece) then Atoi(piece[16..]) else clength);
    }
  }

  /**
   A Content-Length field, in any letter case, with a decimal number declares it, if no field follows; and it does so
   not only as a line of its own, but also in the middle of another, behind any multiple of 1022 characters.
   */
  lemma {:induction false} DeclaresLength(
      before: seq<Line>, front: string, f: string, n: nat, crlf: bool, after: seq<Line>, clength: int)
    requires EitherCase(f, "content-length: ", "CONTENT-LENGTH: ")
    requires |front| % 1022 == 0 && |f + Itoa(n)| <= 1022
    requires forall l <- after :: Silent(l.text)
    ensures Declared(before + [Line(front + (f + Itoa(n)), crlf)] + after, clength) == n
  {
    var line := Line(front + (f + Itoa(n)), crlf);
    var c := Declared(before, clength);
    assert before + [line] + after == before + ([line] + after);
    DeclaredConcat(before, [line] + after, clength);
    assert ([line] + after)[1..] == after;
    forall k: int ensures DeclaredIn(f + Itoa(n), k) == n { FieldDeclares(f, n, k); }
    FrontPassed(front, f + Itoa(n), n, c);
    DeclaredUnchanged(after, n);
  }

  /** A short line that does not begin with the field's name declares nothing. */
  lemma OtherLineIsSilent(text: string)
    requires |text| <= 1022
    requires |text| >= 16 ==> !EitherCase(text[..16], "content-length: ", "CONTENT-LENGTH: ")
    ensures Silent(text)
  {
    assert text[..|text|] == text;
    IsLengthIff(text);
  }

  // ----- the body -----

  /** clength turns of recv and write; when the stream runs dry the last character is written again. */
  function Copied(s: string, clength: int, ch: char): string
    decreases clength
  {
    if clength <= 0 then ""
    else if s == "" then [ch] + Copied(s, clength - 1, ch)
    else [s[0]] + Copied(s[1..], clength - 1, s[0])
  }

  lemma {:induction false} CopiedIs(s: string, clength: nat, ch: char)
    ensures clength <= |s| ==> Copied(s, clength, ch) == s[..clength]
    ensures clength > |s| ==>
              Copied(s, clength, ch) == s + seq(clength - |s|, i => if s == "" then ch else s[|s| - 1])
    decreases clength
  {
    if clength > 0 {
      if s == "" {
        CopiedIs(s, clength - 1, ch);
      } else {
        CopiedIs(s[1..], clength - 1, s[0]);
      }
    }
  }

  /** The bytes left after n turns of recv. */
  function Consumed(s: string, n: int): string { if n <= 0 then s else s[Min(n, |s|)..] }

  /** In front of turn i: what is written, and what is still to come from s. */
  ghost predicate Copying(s0: string, clength: int, i: nat, s: string, ch: char, written: string) {
    && (i == 0 || i <= clength) && s == Consumed(s0, i)
    && written + Copied(s, clength - i, ch) == Copied(s0, clength, '\0')
  }

  lemma CopyingStep(s0: string, clength: int, i: nat, s: string, ch: char, written: string)
    requires Copying(s0, clength, i, s, ch, written) && i < clength
    ensures var (d, rest) := if s == "" then (ch, s) else (s[0], s[1..]);
            Copying(s0, clength, i + 1, rest, d, written + [d])
  {
    var (d, rest) := if s == "" then (ch, s) else (s[0], s[1..]);
    assert written + ([d] + Copied(rest, clength - i - 1, d)) == written + [d] + Copied(rest, clength - i - 1, d);
  }

  method CopyBody(sock: Socket, clength: int) returns (written: string)
    requires sock.Valid()
    modifies sock
    ensures sock.Valid() && written == Copied(old(sock.Rest()), clength, '\0')
    ensures sock.Rest() == Consumed(old(sock.Rest()), clength)
  {
    written := "";
    var i, ch := 0, '\0';
    ghost var s0 := sock.Rest();
    assert "" + Copied(s0, clength, ch) == Copied(s0, clength, ch);
    while i < clength
      invariant 0 <= i && sock.Valid() && Copying(s0, clength, i, sock.Rest(), ch, written)
    {
      CopyingStep(s0, clength, i, sock.Rest(), ch, written);
      var n;
      n, ch := sock.Recv(ch);
      written := written + [ch];
      i := i + 1;
    }
    assert written + "" == written;
  }
}
