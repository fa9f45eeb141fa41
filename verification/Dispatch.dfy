/**
 HandleSock and excu_cgi in http/httpd.c: from the bytes of a request to the page or the program that answers
 it, and the program's input.
 */
module Dispatch {
  import opened HttpStream
  import opened HeaderScan
  import opened HeaderBlock
  import opened RequestLine

  // ----- the file system, as stat and execl see it -----

  datatype Program = Register | OtherProgram

  datatype File = Missing | Directory | Document | Executable(program: Program)

  type Site = string -> File

  // ----- which file and which way -----

  /** A program gets the query for GET; for POST it gets the body later. */
  datatype Target =
    | Refused
    | NotFound
    | Page(path: string)
    | GetCgi(path: string, query: string)
    | PostCgi(path: string)

  predicate IsGet(m: string) { SameLetters(m, "GET") }

  predicate IsPost(m: string) { SameLetters(m, "POST") }

  function TargetOf(m: string, u: string, site: Site): (t: Target)
    requires |u| < FIELD_SIZE
    ensures t.Page? || t.GetCgi? || t.PostCgi? ==> |t.path| <= 282
  {
    if !IsGet(m) && !IsPost(m) then Refused
    else
      var path := PathOf(if IsGet(m) then PathPart(u) else u);
      var file := path + if site(path).Directory? then "/index.html" else "";
      if site(path).Missing? then NotFound
      else if IsPost(m) then PostCgi(file)
      else if '?' in u || site(path).Executable? then GetCgi(file, QueryPart(u))
      else Page(file)
  }

  lemma MethodIff(m: string)
    ensures IsGet(m) <==> EitherCase(m, "get", "GET")
    ensures IsPost(m) <==> EitherCase(m, "post", "POST")
    ensures !(IsGet(m) && IsPost(m))
  {
    SameLettersIff(m, "GET", "get", "GET");
    SameLettersIff(m, "POST", "post", "POST");
  }

  lemma RefusedIff(m: string, u: string, site: Site)
    requires |u| < FIELD_SIZE
    ensures TargetOf(m, u, site).Refused? <==> !EitherCase(m, "get", "GET") && !EitherCase(m, "post", "POST")
  {
    MethodIff(m);
  }

  /** The file behind a path: a directory stands for its index. */
  function FileAt(path: string, site: Site): string { path + if site(path).Directory? then "/index.html" else "" }

  /**
   GET of a path, with a query or without: what stat finds there decides between not found, a program with the query,
   and a page. Without a query only an executable file is a program.
   */
  lemma GetTarget(m: string, p: string, q: string, marked: bool, site: Site)
    requires EitherCase(m, "get", "GET") && '?' !in p
    requires |p| + (if marked then 1 + |q| else 0) < FIELD_SIZE
    ensures var t := TargetOf(m, if marked then p + "?" + q else p, site);
            var f, file := site(PathOf(p)), FileAt(PathOf(p), site);
            && (t == NotFound <==> f == Missing)
            && (t == GetCgi(file, if marked then q else "") <==> f != Missing && (marked || f.Executable?))
            && (t == Page(file) <==> f != Missing && !marked && !f.Executable?)
  {
    MethodIff(m);
    var u := if marked then p + "?" + q else p;
    SplitUnique(u, p, q);
    if marked { assert u[|p|] == '?'; }
  }

  lemma PostTarget(m: string, u: string, site: Site)
    requires EitherCase(m, "post", "POST") && |u| < FIELD_SIZE
    ensures TargetOf(m, u, site) ==
            if site(PathOf(u)) == Missing then NotFound else PostCgi(FileAt(PathOf(u), site))
  {
    MethodIff(m);
  }

  /** For GET the URL is cut in place; `query` is left where the program's argument starts. */
  method ReadQuery(url: array<char>, get: bool) returns (cgi: bool, query: nat)
    requires '\0' in url[..] && |CStr(url[..])| < FIELD_SIZE
    modifies url
    ensures var u := old(CStr(url[..]));
            && (cgi <==> !get || '?' in u)
            && '\0' in url[..] && CStr(url[..]) == (if get then PathPart(u) else u) && |CStr(url[..])| < FIELD_SIZE
            && query < url.Length && (get ==> CStr(url[query..]) == QueryPart(u))
  {
    cgi, query := !get, 0;
    if get {
      ghost var u := CStr(url[..]);
      cgi, query := SplitQuery(url);
      SplitUnique(u, CStr(url[..]), CStr(url[query..]));
    } else {
      assert url[..][0] == url[0];
    }
  }

  /** From the URL to the file: root, default names, stat. */
  method ReadPath(url: string, site: Site) returns (found: bool, executable: bool, path: string)
    requires |url| < FIELD_SIZE
    ensures var p := PathOf(url);
            && (found <==> !site(p).Missing?) && (executable <==> site(p).Executable?)
            && path == p + if site(p).Directory? then "/index.html" else ""
  {
    var buf := new char[BUF_SIZE](_ => '\0');
    var len := BuildPath(buf, url);
    var st := site(buf[..len]);
    found, executable := !st.Missing?, st.Executable?;
    if st.Directory? {
      len := Append(buf, len, "/index.html");
    }
    path := buf[..len];
  }

  /** Everything between the first line and the answer: whatever the line holds, no index leaves its buffer. */
  method Resolve(buf: array<char>, site: Site) returns (t: Target)
    requires buf.Length == LINE_SIZE
    ensures t == TargetOf(ParsedMethod(buf[..]), ParsedUrl(buf[..]), site)
    ensures t.Page? || t.GetCgi? || t.PostCgi? ==> |t.path| <= 282 < BUF_SIZE
  {
    var meth := new char[FIELD_SIZE](_ => '\0');
    var url := new char[FIELD_SIZE](_ => '\0');
    ParseRequestLine(buf, meth, url);
    var m := CStr(meth[..]);
    if !IsGet(m) && !IsPost(m) {
      return Refused;
    }
    var cgi, query := ReadQuery(url, IsGet(m));
    var found, executable, path := ReadPath(CStr(url[..]), site);
    if !found {
      return NotFound;
    }
    if cgi || executable {
      return if IsPost(m) then PostCgi(path) else GetCgi(path, CStr(url[query..]));
    }
    return Page(path);
  }

  // ----- the answer -----

  /** The answers: the error page, a file, or a program with its argument. */
  datatype Answer =
    | ErrorPage
    | StaticPage(path: string)
    | RunGet(path: string, query: string)
    | RunPost(path: string, clength: int, input: string)

  function FirstTarget(s: string, site: Site): Target {
    var b := Buffer(ReadLine(s, BUF_SIZE).0);
    TargetOf(ParsedMethod(b), ParsedUrl(b), site)
  }

  /** What a stream is answered with, and the bytes left; the error page scans the header itself, once more. */
  function Answered(s: string, site: Site): (Answer, string) {
    var header := ReadLine(s, BUF_SIZE).1;
    match FirstTarget(s, site)
    case Refused => (ErrorPage, header)
    case NotFound => (ErrorPage, header)
    case Page(path) => (StaticPage(path), Skip(header))
    case GetCgi(path, query) => (RunGet(path, query), Skip(header))
    case PostCgi(path) =>
      var (n, rest) := ScanPost(header, 0);
      if n == 0 then (ErrorPage, rest) else (RunPost(path, n, Copied(rest, n, '\0')), Consumed(rest, n))
  }

  /** The stream holds a first line and a header that the loops can get to the end of. */
  ghost predicate Enough(s: string) {
    Complete(ReadLine(s, BUF_SIZE).0, BUF_SIZE) && Terminated(ReadLine(s, BUF_SIZE).1)
  }

  method ReadFirstLine(sock: Socket, site: Site) returns (t: Target)
    requires sock.Valid() && Enough(sock.Rest())
    modifies sock
    ensures sock.Valid() && t == FirstTarget(old(sock.Rest()), site)
    ensures sock.Rest() == ReadLine(old(sock.Rest()), BUF_SIZE).1
  {
    var buf := new char[LINE_SIZE](_ => '\0');
    ghost var line := ReadLine(sock.Rest(), BUF_SIZE).0;
    var _ := GetLine(sock, buf, LINE_SIZE);
    assert buf[..] == Buffer(line);
    t := Resolve(buf, site);
  }

  /** excu_cgi */
  method ExecuteCgi(sock: Socket, t: Target) returns (a: Answer)
    requires sock.Valid() && Terminated(sock.Rest()) && (t.GetCgi? || t.PostCgi?)
    modifies sock
    ensures sock.Valid()
    ensures var s := old(sock.Rest()); var (n, rest) := ScanPost(s, 0);
            if t.GetCgi? then a == RunGet(t.path, t.query) && sock.Rest() == Skip(s)
            else if n == 0 then a == ErrorPage && sock.Rest() == rest
            else a == RunPost(t.path, n, Copied(rest, n, '\0')) && sock.Rest() == Consumed(rest, n)
  {
    if t.GetCgi? {
      CleanHeader(sock);
      return RunGet(t.path, t.query);
    }
    var clength := PostScan(sock);
    if clength == 0 {
      return ErrorPage;
    }
    var input := CopyBody(sock, clength);
    return RunPost(t.path, clength, input);
  }

  method HandleSock(sock: Socket, site: Site) returns (a: Answer)
    requires sock.Valid() && Enough(sock.Rest())
    modifies sock
    ensures sock.Valid() && (a, sock.Rest()) == Answered(old(sock.Rest()), site)
  {
    var t := ReadFirstLine(sock, site);
    match t
    case Refused => a := ErrorPage;
    case NotFound => a := ErrorPage;
    case Page(path) => CleanHeader(sock); a := StaticPage(path);
    case _ => a := ExecuteCgi(sock, t);
  }

  // ----- requests as clients send them -----

  /** `first` and `blank` tell whether those lines end in CRLF; `rest` is all that follows the header. */
  datatype Message = Message(
    meth: string, url: string, version: string, first: bool, header: seq<Line>, blank: bool, rest: string)

  function HeadOf(m: Message): Line { Line(m.meth + " " + m.url + " " + m.version, m.first) }

  function HeaderOf(m: Message): string { Block(m.header) + (Raw(Line("", m.blank)) + m.rest) }

  function Stream(m: Message): string { Raw(HeadOf(m)) + HeaderOf(m) }

  /** The first line fits its buffers, and no header line has a length at which a header loop stops. */
  ghost predicate Fits(m: Message) {
    && Token(m.meth) && |m.meth| < FIELD_SIZE && Token(m.url) && |m.url| < FIELD_SIZE
    && Plain(m.version) && |HeadOf(m).text| < BUF_SIZE
    && AllPlain(m.header) && forall l <- m.header :: |l.text| % PIECE != 0
  }

  lemma PlainConcat(a: string, b: string)
    requires Plain(a) && Plain(b)
    ensures Plain(a + b)
  {
  }

  lemma HeadIsPlain(m: Message)
    requires Fits(m)
    ensures Plain(HeadOf(m).text)
  {
    PlainConcat(m.meth, " ");
    PlainConcat(m.meth + " ", m.url);
    PlainConcat(m.meth + " " + m.url, " ");
    PlainConcat(m.meth + " " + m.url + " ", m.version);
  }

  lemma HeadParsed(m: Message, b: string)
    requires Fits(m) && b == Buffer(HeadOf(m).text + "\n")
    ensures ParsedMethod(b) == m.meth && ParsedUrl(b) == m.url
  {
    var tail := " " + m.version + "\n";
    assert HeadOf(m).text + "\n" == PrintedLine(m.meth, " ", m.url, tail);
    assert tail[..1] == " ";
    RequestLineRoundTripIff(m.meth, " ", m.url, tail);
  }

  /** Method and URL are found as they were sent, and the header is next. */
  lemma MessageRead(m: Message, site: Site)
    requires Fits(m)
    ensures ReadLine(Stream(m), BUF_SIZE).1 == HeaderOf(m)
    ensures FirstTarget(Stream(m), site) == TargetOf(m.meth, m.url, site)
    ensures Enough(Stream(m))
  {
    HeadIsPlain(m);
    ReadPlain(HeadOf(m), HeaderOf(m), BUF_SIZE);
    HeadParsed(m, Buffer(HeadOf(m).text + "\n"));
    ScanBlock(m.header, m.blank, m.rest, 0);
  }

  /**
   POST to an existing file: the program there gets as many bytes of what follows the header as declared; if
   there are fewer, all, padded.
   */
  lemma PostAnswered(m: Message, site: Site, path: string)
    requires Fits(m) && TargetOf(m.meth, m.url, site) == PostCgi(path)
    ensures Enough(Stream(m))
    ensures var n := Declared(m.header, 0);
            && (n == 0 ==> Answered(Stream(m), site) == (ErrorPage, m.rest))
            && (0 < n <= |m.rest| ==> Answered(Stream(m), site) == (RunPost(path, n, m.rest[..n]), m.rest[n..]))
            && (n < 0 ==> Answered(Stream(m), site) == (RunPost(path, n, ""), m.rest))
    ensures Declared(m.header, 0) > |m.rest| ==>
              var (a, left) := Answered(Stream(m), site);
              && a.RunPost? && a.path == path && |a.input| == a.clength == Declared(m.header, 0)
              && m.rest <= a.input && left == ""
  {
    var n := Declared(m.header, 0);
    MessageRead(m, site);
    ScanBlock(m.header, m.blank, m.rest, 0);
    if n > 0 { CopiedIs(m.rest, n, '\0'); }
  }

  /**
   GET of a program or with a '?': the program gets the text behind the first '?', and what follows the header
   is untouched.
   */
  lemma GetAnswered(m: Message, site: Site, path: string, query: string)
    requires Fits(m) && TargetOf(m.meth, m.url, site) == GetCgi(path, query)
    ensures Enough(Stream(m)) && Answered(Stream(m), site) == (RunGet(path, query), m.rest)
    ensures '?' in m.url ==> exists p :: '?' !in p && m.url == p + "?" + query
    ensures '?' !in m.url ==> query == ""
  {
    MessageRead(m, site);
    ScanBlock(m.header, m.blank, m.rest, 0);
    ScannersAgree(HeaderOf(m), 0);
    SplitUnique(m.url, PathPart(m.url), query);
  }

  // ----- error pages -----

  /** k header scans one after another find their ends. */
  ghost predicate ScansEnd(s: string, k: nat)
    decreases k
  {
    k == 0 || (Terminated(s) && ScansEnd(Skip(s), k - 1))
  }

  /**
   Every header scan that HandleSock makes ends: sending an error page is one, and for a missing file there is
   another behind it.
   */
  ghost predicate HandlerEnds(s: string, site: Site) {
    && Enough(s)
    && var header := ReadLine(s, BUF_SIZE).1;
       match FirstTarget(s, site)
       case Refused => ScansEnd(header, 1)
       case NotFound => ScansEnd(header, 2)
       case PostCgi(_) => ScanPost(header, 0).0 == 0 ==> ScansEnd(ScanPost(header, 0).1, 1)
       case _ => true
  }

  /**
   A request for a missing file, or a POST that declares no length or 0, is handled to the end only if
   what follows its header has itself a line whose length is a multiple of 1022; every other request is.
   */
  lemma HandlerEndsIff(m: Message, site: Site)
    requires Fits(m)
    ensures HandlerEnds(Stream(m), site) <==>
            var t := TargetOf(m.meth, m.url, site);
            (t.NotFound? || (t.PostCgi? && Declared(m.header, 0) == 0)) ==> HasStop(Norm(m.rest))
  {
    MessageRead(m, site);
    ScanBlock(m.header, m.blank, m.rest, 0);
    ScannersAgree(HeaderOf(m), 0);
    TerminatedIff(m.rest);
    var h := HeaderOf(m);
    assert ScansEnd(h, 1) <==> Terminated(h);
    assert ScansEnd(h, 2) <==> Terminated(h) && ScansEnd(Skip(h), 1);
    assert ScansEnd(m.rest, 1) <==> Terminated(m.rest);
  }

  // ----- the answer, from what was sent and what stat finds -----

  /** The path part of what a request asks for; only GET knows a query. */
  ghost predicate AsksFor(m: Message, p: string) {
    if EitherCase(m.meth, "get", "GET") then '?' !in p && exists q :: m.url == p || m.url == p + "?" + q
    else m.url == p
  }

  /** The way chosen for URL u with path part p, when stat finds f there and the file meant is `file`. */
  predicate Chosen(t: Target, get: bool, post: bool, u: string, p: string, f: File, file: string) {
    && (t == Refused <==> !get && !post)
    && (t == NotFound <==> (get || post) && f == Missing)
    && (t.GetCgi? <==> get && f != Missing && (u != p || f.Executable?))
    && (t == Page(file) <==> get && f != Missing && u == p && !f.Executable?)
    && (t.Page? ==> t == Page(file))
    && (t == PostCgi(file) <==> post && f != Missing)
    && (t.PostCgi? ==> t == PostCgi(file))
    && (t.GetCgi? ==> t.path == file && u == p + if u == p then "" else "?" + t.query)
    && (t.GetCgi? && u == p ==> t.query == "")
  }

  lemma ChosenForGet(m: string, u: string, p: string, q: string, site: Site)
    requires EitherCase(m, "get", "GET") && '?' !in p && (u == p || u == p + "?" + q)
    requires |p| <= |u| < FIELD_SIZE
    ensures Chosen(TargetOf(m, u, site), true, false, u, p, site(PathOf(p)), FileAt(PathOf(p), site))
  {
    MethodIff(m);
    assert u != p ==> p + "?" + q == p + ("?" + q);
    GetTarget(m, p, if u == p then "" else q, u != p, site);
  }

  lemma ChosenForOther(m: string, u: string, site: Site)
    requires |u| < FIELD_SIZE && !EitherCase(m, "get", "GET")
    ensures Chosen(TargetOf(m, u, site), false, EitherCase(m, "post", "POST"),
                   u, u, site(PathOf(u)), FileAt(PathOf(u), site))
  {
    MethodIff(m);
    if EitherCase(m, "post", "POST") { PostTarget(m, u, site); }
  }

  lemma TargetFor(m: Message, p: string, site: Site)
    requires Fits(m) && AsksFor(m, p)
    ensures |p| < FIELD_SIZE
    ensures Chosen(TargetOf(m.meth, m.url, site), EitherCase(m.meth, "get", "GET"), EitherCase(m.meth, "post", "POST"),
                   m.url, p, site(PathOf(p)), FileAt(PathOf(p), site))
  {
    MethodIff(m.meth);
    if EitherCase(m.meth, "get", "GET") {
      var q :| m.url == p || m.url == p + "?" + q;
      ChosenForGet(m.meth, m.url, p, q, site);
    } else {
      ChosenForOther(m.meth, m.url, site);
    }
  }

  lemma HeaderSkipped(m: Message)
    requires Fits(m)
    ensures Skip(HeaderOf(m)) == m.rest && ScanPost(HeaderOf(m), 0) == (Declared(m.header, 0), m.rest)
  {
    ScanBlock(m.header, m.blank, m.rest, 0);
    ScannersAgree(HeaderOf(m), 0);
  }

  /** From target to answer, with the header gone where the answer is not the error page at once. */
  lemma AnsweredBy(m: Message, site: Site, t: Target)
    requires Fits(m) && t == TargetOf(m.meth, m.url, site)
    ensures Answered(Stream(m), site) ==
            match t
            case Refused => (ErrorPage, HeaderOf(m))
            case NotFound => (ErrorPage, HeaderOf(m))
            case Page(path) => (StaticPage(path), m.rest)
            case GetCgi(path, query) => (RunGet(path, query), m.rest)
            case PostCgi(path) =>
              var n := Declared(m.header, 0);
              if n == 0 then (ErrorPage, m.rest)
              else (RunPost(path, n, Copied(m.rest, n, '\0')), Consumed(m.rest, n))
  {
    MessageRead(m, site);
    HeaderSkipped(m);
  }

  /**
   A file is sent for exactly the GETs without '?' of a file that is there and not executable; the header is
   skipped.
   */
  lemma PageAnsweredIff(m: Message, p: string, site: Site)
    requires Fits(m) && AsksFor(m, p) && |p| < FIELD_SIZE
    ensures var (a, left) := Answered(Stream(m), site); var f := site(PathOf(p));
            && (a.StaticPage? <==>
                  EitherCase(m.meth, "get", "GET") && m.url == p && f != Missing && !f.Executable?)
            && (a.StaticPage? ==> a.path == FileAt(PathOf(p), site) && left == m.rest)
  {
    TargetFor(m, p, site);
    AnsweredBy(m, site, TargetOf(m.meth, m.url, site));
  }

  /**
   A program is run for exactly the GETs of an executable file or with a '?', with the query, and the header is
   skipped.
   */
  lemma GetRunIff(m: Message, p: string, site: Site)
    requires Fits(m) && AsksFor(m, p) && |p| < FIELD_SIZE
    ensures var (a, left) := Answered(Stream(m), site); var f := site(PathOf(p));
            && (a.RunGet? <==>
                  EitherCase(m.meth, "get", "GET") && f != Missing && (m.url != p || f.Executable?))
            && (a.RunGet? ==> a.path == FileAt(PathOf(p), site) && left == m.rest)
            && (a.RunGet? ==> m.url == p + if m.url == p then "" else "?" + a.query)
            && (a.RunGet? && m.url == p ==> a.query == "")
  {
    TargetFor(m, p, site);
    AnsweredBy(m, site, TargetOf(m.meth, m.url, site));
  }

  /** A program is run for exactly the POSTs of a file that is there that declare a length other than 0. */
  lemma PostRunIff(m: Message, site: Site)
    requires Fits(m)
    ensures var a, n := Answered(Stream(m), site).0, Declared(m.header, 0);
            && (a.RunPost? <==>
                  EitherCase(m.meth, "post", "POST") && site(PathOf(m.url)) != Missing && n != 0)
            && (a.RunPost? ==> a.path == FileAt(PathOf(m.url), site) && a.clength == n)
  {
    MethodIff(m.meth);
    if IsPost(m.meth) { PostTarget(m.meth, m.url, site); }
    AnsweredBy(m, site, TargetOf(m.meth, m.url, site));
  }

  /**
   The error page answers exactly the requests by another method, those for a missing file, and the POSTs that declare
   length 0 or none. Only the last have read their header by then.
   */
  lemma ErrorAnsweredIff(m: Message, p: string, site: Site)
    requires Fits(m) && AsksFor(m, p) && |p| < FIELD_SIZE
    ensures var (a, left) := Answered(Stream(m), site); var missing := site(PathOf(p)) == Missing;
            var get, post := EitherCase(m.meth, "get", "GET"), EitherCase(m.meth, "post", "POST");
            && (a.ErrorPage? <==> (!get && !post) || missing || (post && Declared(m.header, 0) == 0))
            && (a.ErrorPage? ==> left == if (!get && !post) || missing then HeaderOf(m) else m.rest)
  {
    TargetFor(m, p, site);
    AnsweredBy(m, site, TargetOf(m.meth, m.url, site));
  }
}
