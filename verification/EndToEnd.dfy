/** From the bytes of requests to the list of recipients: the server and the registration program together. */
module EndToEnd {
  import opened Decimal
  import opened HttpStream
  import opened HeaderScan
  import opened HeaderBlock
  import opened Dispatch
  import opened FormTokenizer
  import opened Registration
  import RequestLine

  // ----- the registration program -----

  /** "%d" of any number */
  function Printed(n: int): string { if n < 0 then "-" + Itoa(-n) else Itoa(n) }

  lemma AtoiPrinted(n: int)
    ensures Atoi(Printed(n)) == n
  {
    if n < 0 {
      assert Printed(n)[1..] == Itoa(-n);
      ItoaValue(-n);
    } else {
      AtoiItoa(n, "");
      assert Itoa(n) + "" == Itoa(n);
    }
  }

  /** Input that register.cpp has room for: its buffers are not checked. */
  ghost predicate FormOk(input: string) {
    |input| < 1024 && (CStr(input) != "" ==> 2 <= |Values(CStr(input))| <= 10)
  }

  /** What it stores: the second field of the form, nothing for an empty one. */
  function Stored(input: string): seq<string> {
    var values := Values(CStr(input));
    if CStr(input) != "" && |values| >= 2 then [values[1]] else []
  }

  /** In text: what stands between the second '=' and the next '&', or the end. */
  lemma StoredIs(input: string, p: seq<nat>)
    requires MarksFrom(CStr(input), 0, p)
    ensures |Values(CStr(input))| == |p|
    ensures |p| < 2 ==> Stored(input) == []
    ensures |p| >= 2 ==>
              var text, at := CStr(input), p[1] + 1;
              exists n :: at <= n <= |text| && Stored(input) == [text[at..n]]
                          && '&' !in text[at..n] && (n < |text| ==> text[n] == '&')
  {
    var text := CStr(input);
    if p == [] { ValuesCount(text, p); } else { ValueAt(text, p, 0); }
    if |p| >= 2 {
      ValueAt(text, p, 1);
      var at := p[1] + 1;
      assert Stored(input) == [text[at..at + |Values(text)[1]|]];
    }
  }

  /** main for POST, on the bytes from the pipe and the length from the environment. */
  method RunRegister(input: string, contentLength: string, reg: Registry, ghost emails: seq<string>)
    requires FormOk(input) && (Atoi(contentLength) == |input| || (Atoi(contentLength) < 0 && input == ""))
    requires reg.Holds(emails) && |emails| + 1 <= 9999999
    modifies reg
    ensures reg.Holds(emails + Stored(input))
  {
    FitsEightBytes(|emails| + 1);
    var pipe := new Socket(input);
    var post := new char[1024](_ => '\0');
    ReadBody(pipe, Atoi(contentLength), post);
    assert input[..|input|] == input;
    assert post[|input|] in post[..];
    RequestLine.CStrFilled(post[..], |input|, input);
    var ok := reg.ExecCalc(post, emails);
    assert emails + [] == emails;
  }

  // ----- one request -----

  /** The program that an answer starts: execl finds it at the path. */
  predicate Starts(a: Answer, site: Site, p: Program) {
    (a.RunGet? || a.RunPost?) && site(a.path) == Executable(p)
  }

  /**
   What a request has stored. For GET register.cpp looks for CONTENT_LENGTH, which nobody has set, and
   ends before it touches the store.
   */
  function Registered(s: string, site: Site): seq<string> {
    var a := Answered(s, site).0;
    if a.RunPost? && Starts(a, site, Register) then Stored(a.input) else []
  }

  ghost predicate InputOk(s: string, site: Site) {
    var a := Answered(s, site).0;
    a.RunPost? && Starts(a, site, Register) ==> FormOk(a.input)
  }

  lemma InputLength(s: string, site: Site)
    ensures var a := Answered(s, site).0; a.RunPost? ==> |a.input| == a.clength || (a.clength < 0 && a.input == "")
  {
    var a := Answered(s, site).0;
    if a.RunPost? && a.clength >= 0 { CopiedIs(ScanPost(ReadLine(s, BUF_SIZE).1, 0).1, a.clength, '\0'); }
  }

  method Serve(sock: Socket, site: Site, reg: Registry, ghost emails: seq<string>)
    requires sock.Valid() && Enough(sock.Rest()) && InputOk(sock.Rest(), site)
    requires reg.Holds(emails) && |emails| + 1 <= 9999999
    modifies sock, reg
    ensures reg.Holds(emails + Registered(old(sock.Rest()), site))
  {
    InputLength(sock.Rest(), site);
    var a := HandleSock(sock, site);
    assert emails + [] == emails;
    if a.RunPost? && Starts(a, site, Register) {
      AtoiPrinted(a.clength);
      RunRegister(a.input, Printed(a.clength), reg, emails);
    }
  }

  // ----- many requests -----

  function AllRegistered(streams: seq<string>, site: Site): (es: seq<string>)
    ensures |es| <= |streams|
  {
    if streams == [] then []
    else AllRegistered(streams[..|streams| - 1], site) + Registered(streams[|streams| - 1], site)
  }

  method ServeEach(streams: seq<string>, site: Site, reg: Registry)
    requires |streams| <= 9999999 && reg.Holds([])
    requires forall s <- streams :: Enough(s) && InputOk(s, site)
    modifies reg
    ensures reg.Holds(AllRegistered(streams, site))
  {
    var i := 0;
    while i < |streams|
      invariant 0 <= i <= |streams| && reg.Holds(AllRegistered(streams[..i], site))
    {
      assert streams[..i + 1][..i] == streams[..i];
      var sock := new Socket(streams[i]);
      Serve(sock, site, reg, AllRegistered(streams[..i], site));
      i := i + 1;
    }
    assert streams[..i] == streams;
  }

  // ----- submissions of the form -----

  /**
   A request that carries the registration form, by whatever method and to whatever URL; `extra` are bytes
   behind it.
   */
  datatype Submission = Submission(
    meth: string, url: string, version: string, first: bool, header: seq<Line>, blank: bool,
    name: Pair, mailField: string, address: string, more: seq<Pair>, extra: string)

  function Fields(r: Submission): seq<Pair>
    requires Bytes(r.address)
  {
    [r.name, Pair(r.mailField, Encode(r.address))] + r.more
  }

  function Body(r: Submission): string
    requires Bytes(r.address)
  {
    Form(Fields(r))
  }

  function Sent(r: Submission): Message
    requires Bytes(r.address)
  {
    Message(r.meth, r.url, r.version, r.first, r.header, r.blank, Body(r) + r.extra)
  }

  ghost predicate WellFormed(r: Submission) {
    && Bytes(r.address) && Fits(Sent(r))
    && Safe(r.name.name) && Safe(r.name.value) && Safe(r.mailField) && SafePairs(r.more) && |r.more| <= 8
    && Declared(r.header, 0) == |Body(r)| < 1024
  }

  // ----- which submissions register -----

  lemma FieldsAreSafe(r: Submission)
    requires WellFormed(r)
    ensures SafePairs(Fields(r))
  {
    EncodedIsSafe(r.address);
    forall p | p in Fields(r) ensures Safe(p.name) && Safe(p.value) {
      assert p == r.name || p == Fields(r)[1] || p in r.more;
    }
  }

  lemma BodyStored(r: Submission)
    requires WellFormed(r)
    ensures Body(r) != "" && FormOk(Body(r)) && Stored(Body(r)) == [Encode(r.address)]
  {
    FieldsAreSafe(r);
    FormHasNoNul(Fields(r));
    FormValues(Fields(r));
    RequestLine.CStrPrefix(Body(r), "");
    assert Submitted(Fields(r))[1] == Fields(r)[1].value;
  }

  /** The URL leads to the registration program. */
  predicate Reaches(u: string, site: Site)
    requires |u| < RequestLine.FIELD_SIZE
  {
    !site(RequestLine.PathOf(u)).Missing? && site(FileAt(RequestLine.PathOf(u), site)) == Executable(Register)
  }

  /**
   A submission registers its address exactly when it is a POST, in any letter case, and stat and execl find
   the registration program behind its URL; any other stores nothing.
   */
  lemma SubmissionRegisters(r: Submission, site: Site)
    requires WellFormed(r)
    ensures Enough(Stream(Sent(r))) && InputOk(Stream(Sent(r)), site)
    ensures Registered(Stream(Sent(r)), site) ==
            if EitherCase(r.meth, "post", "POST") && Reaches(r.url, site) then [Encode(r.address)] else []
  {
    var m := Sent(r);
    var t := TargetOf(m.meth, m.url, site);
    MessageRead(m, site);
    BodyStored(r);
    MethodIff(r.meth);
    if t.PostCgi? {
      PostAnswered(m, site, t.path);
      assert m.rest[..|Body(r)|] == Body(r);
    }
  }

  lemma ActionPath()
    ensures RequestLine.PathOf("/cgi/register") == "wwwroot/cgi/register"
  {
    RequestLine.PathOfIs("/cgi/register");
    assert "wwwroot" + "/cgi/register" == "wwwroot/cgi/register";
  }

  /** As a string, the path of the form's action comes from that URL only, and is no directory's default name. */
  lemma OnlyRegisterUrl(u: string, tail: string)
    requires |u| < RequestLine.FIELD_SIZE && (tail == "" || tail == "/index.html")
    ensures RequestLine.PathOf(u) + tail == "wwwroot/cgi/register" <==> u == "/cgi/register" && tail == ""
  {
    var path := RequestLine.PathOf(u) + tail;
    ActionPath();
    RequestLine.PathOfIs(u);
    if path == "wwwroot/cgi/register" {
      assert path[|path| - 1] == 'r';
      assert tail == "" && RequestLine.PathOf(u) == path == "wwwroot" + u;
      assert path[7..] == u && "wwwroot/cgi/register"[7..] == "/cgi/register";
    }
  }

  /** A spelling of a URL whose path stat and execl find the program at reaches it. */
  lemma SpellingReaches(u: string, path: string, site: Site)
    requires |u| < RequestLine.FIELD_SIZE && path == "wwwroot" + u && path[|path| - 1] != '/'
    requires site(path) == Executable(Register)
    ensures Reaches(u, site)
  {
    RequestLine.PathFromBase(path, u);
    assert path + "" == path;
  }

  lemma BothSpellingsReach(u: string, site: Site)
    requires u == "/cgi/register" || u == "//cgi/register"
    requires site("wwwroot//cgi/register") == site("wwwroot/cgi/register") == Executable(Register)
    ensures Reaches(u, site)
  {
    if u == "/cgi/register" {
      assert "wwwroot" + "/cgi/register" == "wwwroot/cgi/register";
      SpellingReaches(u, "wwwroot/cgi/register", site);
    } else {
      assert "wwwroot" + "//cgi/register" == "wwwroot//cgi/register";
      SpellingReaches(u, "wwwroot//cgi/register", site);
    }
  }

  /**
   The form's action reaches the program installed at that path, and so does the spelling with a doubled slash
   on a file system that finds the same file there, as POSIX ones do.
   */
  lemma BothSpellingsRegister(r: Submission, site: Site)
    requires WellFormed(r) && EitherCase(r.meth, "post", "POST")
    requires r.url == "/cgi/register" || r.url == "//cgi/register"
    requires site("wwwroot//cgi/register") == site("wwwroot/cgi/register") == Executable(Register)
    ensures Registered(Stream(Sent(r)), site) == [Encode(r.address)]
  {
    BothSpellingsReach(r.url, site);
    SubmissionRegisters(r, site);
  }

  // ----- the history -----

  function Address(r: Submission, site: Site): seq<string>
    requires |r.url| < RequestLine.FIELD_SIZE
  {
    if EitherCase(r.meth, "post", "POST") && Reaches(r.url, site) then [r.address] else []
  }

  ghost predicate AllWellFormed(rs: seq<Submission>) {
    forall i :: 0 <= i < |rs| ==> WellFormed(rs[i])
  }

  /** The addresses of the submissions that POST to the registration program, in order. */
  ghost function Addresses(rs: seq<Submission>, site: Site): seq<string>
    requires AllWellFormed(rs)
  {
    if rs == [] then [] else Addresses(rs[..|rs| - 1], site) + Address(rs[|rs| - 1], site)
  }

  /** The streams are well-formed submissions as they come over the wire. */
  ghost predicate Arrive(streams: seq<string>, rs: seq<Submission>) {
    |streams| == |rs| && AllWellFormed(rs) && forall i :: 0 <= i < |rs| ==> streams[i] == Stream(Sent(rs[i]))
  }

  ghost predicate Encoded(es: seq<string>, addresses: seq<string>) {
    |es| == |addresses| && forall k :: 0 <= k < |es| ==> Bytes(addresses[k]) && es[k] == Encode(addresses[k])
  }

  lemma AllServed(streams: seq<string>, rs: seq<Submission>, site: Site)
    requires Arrive(streams, rs)
    ensures forall s <- streams :: Enough(s) && InputOk(s, site)
  {
    forall i | 0 <= i < |streams| ensures Enough(streams[i]) && InputOk(streams[i], site) {
      SubmissionRegisters(rs[i], site);
    }
  }

  lemma SubmissionEncoded(stream: string, r: Submission, site: Site)
    requires WellFormed(r) && stream == Stream(Sent(r))
    ensures Encoded(Registered(stream, site), Address(r, site))
  {
    SubmissionRegisters(r, site);
  }

  lemma EncodedConcat(es: seq<string>, addresses: seq<string>, fs: seq<string>, more: seq<string>)
    requires Encoded(es, addresses) && Encoded(fs, more)
    ensures Encoded(es + fs, addresses + more)
  {
  }

  lemma {:induction false} HistoryRegisters(streams: seq<string>, rs: seq<Submission>, site: Site)
    requires Arrive(streams, rs)
    ensures Encoded(AllRegistered(streams, site), Addresses(rs, site))
  {
    if rs != [] {
      var n := |rs| - 1;
      assert Arrive(streams[..n], rs[..n]);
      HistoryRegisters(streams[..n], rs[..n], site);
      SubmissionEncoded(streams[n], rs[n], site);
      EncodedConcat(AllRegistered(streams[..n], site), Addresses(rs[..n], site),
                    Registered(streams[n], site), Address(rs[n], site));
    }
  }

  /**
   Any well-formed submissions one after another into a fresh store, then the mailing list: it has one entry for each
   POST to the registration program, in order. The entry is what Images makes of the address, and so the address itself
   exactly when that consists of unreserved characters and '@'.
   */
  method RegisterAll(streams: seq<string>, site: Site, db: map<string, string>, ghost rs: seq<Submission>)
    returns (toList: seq<string>)
    requires "UserCount" in db && db["UserCount"] == "0"
    requires Arrive(streams, rs) && |streams| <= 9999999
    ensures |toList| == |Addresses(rs, site)|
    ensures forall k :: 0 <= k < |toList| ==>
              var address := Addresses(rs, site)[k];
              Bytes(address) && toList[k] == Images(address) && (toList[k] == address <==> Addressable(address))
  {
    AllServed(streams, rs, site);
    HistoryRegisters(streams, rs, site);
    var reg := new Registry(db);
    ServeEach(streams, site, reg);
    toList := reg.Recipients(AllRegistered(streams, site));
    forall k | 0 <= k < |toList|
      ensures var address := Addresses(rs, site)[k];
              Bytes(address) && toList[k] == Images(address) && (toList[k] == address <==> Addressable(address))
    {
      var address := Addresses(rs, site)[k];
      ReplaceEncode(address);
      AddressRoundTripIff(address);
    }
  }
}
