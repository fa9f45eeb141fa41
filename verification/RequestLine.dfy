/** The request line in http/httpd.c: method, URL, query string and file path, cut out of fixed buffers in place. */
module RequestLine {
  import opened Decimal
  import opened HttpStream
  import opened HeaderScan

  const LINE_SIZE := 1025    // char buf[BUF_SIZE + 1]
  const FIELD_SIZE := 255    // char method[255], url[255]

  /** First position from j on that is blank (or, with `blank`, is not), but at most `stop`. */
  function SpanEnd(b: string, j: nat, stop: nat, blank: bool): (k: nat)
    requires j <= stop <= |b|
    ensures j <= k <= stop
    ensures forall i :: j <= i < k ==> IsSpace(b[i]) == blank
    ensures k < stop ==> IsSpace(b[k]) != blank
    decreases stop - j
  {
    if j == stop || IsSpace(b[j]) != blank then j else SpanEnd(b, j + 1, stop, blank)
  }

  function MethodEnd(b: string): nat
    requires |b| == LINE_SIZE
  {
    SpanEnd(b, 0, FIELD_SIZE - 1, false)
  }

  function UrlStart(b: string): (k: nat)
    requires |b| == LINE_SIZE
    ensures k < LINE_SIZE
  {
    SpanEnd(b, MethodEnd(b), LINE_SIZE - 1, true)
  }

  function UrlEnd(b: string): (k: nat)
    requires |b| == LINE_SIZE
    ensures UrlStart(b) <= k < LINE_SIZE && k - UrlStart(b) < FIELD_SIZE
  {
    SpanEnd(b, UrlStart(b), Min(UrlStart(b) + FIELD_SIZE - 1, LINE_SIZE - 1), false)
  }

  lemma {:induction false} CStrShorter(s: string)
    ensures |CStr(s)| <= |s|
  {
    if s != "" { CStrShorter(s[1..]); }
  }

  function ParsedMethod(b: string): (m: string)
    requires |b| == LINE_SIZE
    ensures |m| < FIELD_SIZE
  {
    CStrShorter(b[..MethodEnd(b)]);
    CStr(b[..MethodEnd(b)])
  }

  function ParsedUrl(b: string): (u: string)
    requires |b| == LINE_SIZE
    ensures |u| < FIELD_SIZE
  {
    CStrShorter(b[UrlStart(b)..UrlEnd(b)]);
    CStr(b[UrlStart(b)..UrlEnd(b)])
  }

  lemma {:induction false} CStrPrefix(a: string, rest: string)
    ensures CStr(a + ['\0'] + rest) == CStr(a)
    ensures '\0' !in a ==> CStr(a) == a
  {
    if a != "" {
      assert (a + ['\0'] + rest)[1..] == a[1..] + ['\0'] + rest;
      CStrPrefix(a[1..], rest);
      assert '\0' !in a ==> a[0] in a;
    }
  }

  lemma CStrFilled(s: string, i: nat, a: string)
    requires i < |s| && s[i] == '\0' && s[..i] == a
    ensures CStr(s) == CStr(a) && ('\0' !in a ==> CStr(s) == a)
  {
    assert s == a + ['\0'] + s[i + 1..];
    CStrPrefix(a, s[i + 1..]);
  }

  method ReadMethod(buf: array<char>, meth: array<char>) returns (j: nat)
    requires buf.Length == LINE_SIZE && meth.Length == FIELD_SIZE && buf != meth
    modifies meth
    ensures CStr(meth[..]) == ParsedMethod(buf[..]) && '\0' in meth[..] && j == MethodEnd(buf[..])
  {
    ghost var b := buf[..];
    var i := 0;
    j := 0;
    while !IsSpace(buf[j]) && i < meth.Length - 1
      invariant 0 <= i == j <= FIELD_SIZE - 1 && meth[..i] == b[..j]
      invariant SpanEnd(b, j, FIELD_SIZE - 1, false) == MethodEnd(b)
      decreases FIELD_SIZE - i
    {
      meth[i] := buf[j];
      i, j := i + 1, j + 1;
    }
    meth[i] := '\0';
    assert meth[..][i] == '\0';
    CStrFilled(meth[..], i, b[..j]);
  }

  method ReadUrl(buf: array<char>, j0: nat, url: array<char>)
    requires buf.Length == LINE_SIZE && url.Length == FIELD_SIZE && buf != url && j0 == UrlStart(buf[..])
    modifies url
    ensures CStr(url[..]) == ParsedUrl(buf[..]) && '\0' in url[..]
  {
    ghost var b := buf[..];
    var i, j := 0, j0;
    while !IsSpace(buf[j]) && i < url.Length - 1 && j < buf.Length - 1
      invariant 0 <= i < FIELD_SIZE && j0 <= j < LINE_SIZE && j == j0 + i && url[..i] == b[j0..j]
      invariant SpanEnd(b, j, Min(j0 + FIELD_SIZE - 1, LINE_SIZE - 1), false) == UrlEnd(b)
      decreases LINE_SIZE - j
    {
      url[i] := buf[j];
      i, j := i + 1, j + 1;
    }
    url[i] := '\0';
    assert url[..][i] == '\0';
    CStrFilled(url[..], i, b[j0..j]);
  }

  /** The three scanning loops; no index leaves its buffer, whatever the first line holds. */
  method ParseRequestLine(buf: array<char>, meth: array<char>, url: array<char>)
    requires buf.Length == LINE_SIZE && meth.Length == url.Length == FIELD_SIZE
    requires buf != meth && buf != url && meth != url
    modifies meth, url
    ensures CStr(meth[..]) == ParsedMethod(buf[..]) && '\0' in meth[..]
    ensures CStr(url[..]) == ParsedUrl(buf[..]) && '\0' in url[..]
  {
    ghost var b := buf[..];
    var j := ReadMethod(buf, meth);
    ghost var m := meth[..];
    assert buf[..] == b;
    while IsSpace(buf[j]) && j < buf.Length - 1
      invariant 0 <= j <= LINE_SIZE - 1 && SpanEnd(b, j, LINE_SIZE - 1, true) == UrlStart(b)
      decreases LINE_SIZE - j
    {
      j := j + 1;
    }
    ReadUrl(buf, j, url);
    assert meth[..] == m && buf[..] == b;
  }

  // ----- round trip -----

  /** A token that no blank and no terminator interrupts. */
  predicate Token(s: string) { s != "" && forall c <- s :: !IsSpace(c) && c != '\0' }

  /** The first line as get_line leaves it in the zeroed buffer: at most 1024 characters. */
  function Buffer(line: string): (b: string)
    ensures |b| == LINE_SIZE
  {
    var kept := line[..Min(|line|, LINE_SIZE - 1)];
    kept + seq(LINE_SIZE - |kept|, _ => '\0')
  }

  /** A request line: what stands behind the URL, the protocol version, is looked at by nothing. */
  function PrintedLine(m: string, gap: string, u: string, tail: string): string { m + gap + u + tail }

  predicate Blank(s: string) { s != "" && forall c <- s :: c in " \t\n\r" || c as int == 11 || c as int == 12 }

  /** From i to j all characters are blanks, or none is. */
  predicate All(b: string, i: nat, j: nat, blank: bool) {
    i <= j <= |b| && forall x :: i <= x < j ==> IsSpace(b[x]) == blank
  }

  lemma SpanIs(b: string, j: nat, stop: nat, blank: bool, k: nat)
    requires j <= k <= stop <= |b| && All(b, j, k, blank)
    requires k == stop || IsSpace(b[k]) != blank
    ensures SpanEnd(b, j, stop, blank) == k
  {
  }

  /**
   For every buffer: the method is what stands in front of the first blank, at most 254 characters; the URL is what
   stands between the blanks behind it and the next one, at most 254 characters; and both end at a terminator.
   */
  lemma ParsedIs(b: string, i: nat, j: nat, k: nat)
    requires |b| == 1025 && i <= 254 && i <= j <= k <= 1024 && k - j <= 254
    requires All(b, 0, i, false) && All(b, i, j, true) && All(b, j, k, false)
    requires (i < 254 ==> IsSpace(b[i])) && (j < 1024 ==> !IsSpace(b[j]))
    requires k < 1024 && k - j < 254 ==> IsSpace(b[k])
    ensures ParsedMethod(b) == CStr(b[..i]) && ParsedUrl(b) == CStr(b[j..k])
  {
    SpanIs(b, 0, FIELD_SIZE - 1, false, i);
    assert MethodEnd(b) == i;
    SpanIs(b, i, LINE_SIZE - 1, true, j);
    assert UrlStart(b) == j;
    SpanIs(b, j, Min(j + FIELD_SIZE - 1, LINE_SIZE - 1), false, k);
    assert UrlEnd(b) == k;
  }

  lemma TokenAt(b: string, i: nat, s: string)
    requires Token(s) && i + |s| <= |b| && b[i..i + |s|] == s
    ensures All(b, i, i + |s|, false) && CStr(s) == s
  {
    CStrPrefix(s, "");
    forall x | i <= x < i + |s| ensures !IsSpace(b[x]) { assert b[x] == b[i..i + |s|][x - i] && s[x - i] in s; }
  }

  lemma BlankAt(b: string, i: nat, s: string)
    requires Blank(s) && i + |s| <= |b| && b[i..i + |s|] == s
    ensures All(b, i, i + |s|, true)
  {
    forall x | i <= x < i + |s| ensures IsSpace(b[x]) { assert b[x] == b[i..i + |s|][x - i] && s[x - i] in s; }
  }

  /** The line is in the buffer as far as it fits. */
  lemma BufferHolds(line: string, front: string, s: string, behind: string)
    requires line == front + s + behind && |front| + |s| <= 1024
    ensures Buffer(line)[|front|..|front| + |s|] == s
  {
    assert line[|front|..|front| + |s|] == s;
  }

  lemma MethodHeld(m: string, gap: string, u: string, tail: string)
    requires |m| <= 1024
    ensures Buffer(PrintedLine(m, gap, u, tail))[0..|m|] == m
  {
    assert PrintedLine(m, gap, u, tail) == "" + m + (gap + u + tail);
    BufferHolds(PrintedLine(m, gap, u, tail), "", m, gap + u + tail);
  }

  lemma GapHeld(m: string, gap: string, u: string, tail: string, n: nat)
    requires n <= |gap| && |m| + n <= 1024
    ensures Buffer(PrintedLine(m, gap, u, tail))[|m|..|m| + n] == gap[..n]
  {
    assert PrintedLine(m, gap, u, tail) == m + gap[..n] + (gap[n..] + u + tail);
    BufferHolds(PrintedLine(m, gap, u, tail), m, gap[..n], gap[n..] + u + tail);
  }

  lemma UrlHeld(m: string, gap: string, u: string, tail: string, n: nat)
    requires n <= |u| && |m| + |gap| + n <= 1024
    ensures Buffer(PrintedLine(m, gap, u, tail))[|m| + |gap|..|m| + |gap| + n] == u[..n]
  {
    assert PrintedLine(m, gap, u, tail) == (m + gap) + u[..n] + (u[n..] + tail);
    BufferHolds(PrintedLine(m, gap, u, tail), m + gap, u[..n], u[n..] + tail);
  }

  lemma TailHeld(m: string, gap: string, u: string, tail: string)
    requires tail != "" && |m| + |gap| + |u| < 1024
    ensures Buffer(PrintedLine(m, gap, u, tail))[|m| + |gap| + |u|] == tail[0]
  {
    var line := PrintedLine(m, gap, u, tail);
    assert line == (m + gap + u) + tail[..1] + tail[1..];
    BufferHolds(line, m + gap + u, tail[..1], tail[1..]);
    var k := |m| + |gap| + |u|;
    assert Buffer(line)[k] == Buffer(line)[k..k + 1][0];
  }

  /** A method whole in the buffer and a gap behind it: the URL begins behind the gap, or at the end of the buffer. */
  lemma UrlStartIs(m: string, gap: string, u: string, tail: string, b: string)
    requires Token(m) && Blank(gap) && Token(u) && |m| <= 254 && b == Buffer(PrintedLine(m, gap, u, tail))
    ensures UrlStart(b) == Min(|m| + |gap|, 1024) && ParsedMethod(b) == m
  {
    var n := Min(|m| + |gap|, 1024) - |m|;
    MethodHeld(m, gap, u, tail);
    GapHeld(m, gap, u, tail, n);
    TokenAt(b, 0, m);
    forall c | c in gap[..n] ensures c in gap { }
    BlankAt(b, |m|, gap[..n]);
    assert IsSpace(b[|m|]);
    SpanIs(b, 0, FIELD_SIZE - 1, false, |m|);
    assert MethodEnd(b) == |m| && b[..|m|] == b[0..|m|];
    if |m| + n < 1024 {
      UrlHeld(m, gap, u, tail, 1);
      assert u[0] in u && b[|m| + n] == b[|m| + n..|m| + n + 1][0] == u[..1][0];
    }
    SpanIs(b, |m|, LINE_SIZE - 1, true, |m| + n);
  }

  lemma UrlFound(b: string, j: nat, u: string)
    requires |b| == 1025 && UrlStart(b) == j && Token(u) && |u| <= 254 && j + |u| <= 1024 && b[j..j + |u|] == u
    requires j + |u| < 1024 ==> IsSpace(b[j + |u|])
    ensures ParsedUrl(b) == u
  {
    TokenAt(b, j, u);
    SpanIs(b, j, Min(j + FIELD_SIZE - 1, LINE_SIZE - 1), false, j + |u|);
    assert UrlEnd(b) == j + |u|;
  }

  lemma FieldsParsed(m: string, gap: string, u: string, tail: string, b: string)
    requires Token(m) && Blank(gap) && Token(u) && tail != "" && Blank(tail[..1])
    requires |m| <= 254 && |u| <= 254 && |m| + |gap| + |u| <= 1024 && b == Buffer(PrintedLine(m, gap, u, tail))
    ensures ParsedMethod(b) == m && ParsedUrl(b) == u
  {
    UrlStartIs(m, gap, u, tail, b);
    UrlHeld(m, gap, u, tail, |u|);
    if |m| + |gap| + |u| < 1024 {
      TailHeld(m, gap, u, tail);
      assert tail[..1][0] in tail[..1];
    }
    UrlFound(b, |m| + |gap|, u);
  }

  /**
   Printing a request line and parsing it gives method and URL back exactly when both have at most 254 characters and
   stand, with the blanks between them, in the first 1024.
   */
  lemma RequestLineRoundTripIff(m: string, gap: string, u: string, tail: string)
    requires Token(m) && Blank(gap) && Token(u) && tail != "" && Blank(tail[..1])
    ensures var b := Buffer(PrintedLine(m, gap, u, tail));
            ParsedMethod(b) == m && ParsedUrl(b) == u <==>
            |m| <= 254 && |u| <= 254 && |m| + |gap| + |u| <= 1024
  {
    var b := Buffer(PrintedLine(m, gap, u, tail));
    if |m| <= 254 && |u| <= 254 {
      if |m| + |gap| + |u| <= 1024 {
        FieldsParsed(m, gap, u, tail, b);
      } else {
        UrlStartIs(m, gap, u, tail, b);
        CStrShorter(b[UrlStart(b)..UrlEnd(b)]);
      }
    }
  }

  // ----- the query string -----

  function Find(s: string, c: char): (k: nat)
    ensures k <= |s| && c !in s[..k] && (k < |s| ==> s[k] == c)
  {
    if s == "" || s[0] == c then 0
    else
      var k := 1 + Find(s[1..], c);
      assert s[..k] == [s[0]] + s[1..][..k - 1];
      k
  }

  function PathPart(u: string): string { u[..Find(u, '?')] }

  function QueryPart(u: string): string { if '?' in u then u[Find(u, '?') + 1..] else "" }

  lemma {:induction false} FirstIs(s: string, c: char, k: nat)
    requires k < |s| && s[k] == c && c !in s[..k]
    ensures Find(s, c) == k
  {
    if k > 0 {
      assert s[..k][0] == s[0] && s[..k][1..] == s[1..][..k - 1];
      FirstIs(s[1..], c, k - 1);
    }
  }

  /** There is one way to write a URL as path, '?' and query when the path has no '?'. */
  lemma SplitUnique(u: string, path: string, query: string)
    requires '?' !in path
    ensures u == path + "?" + query <==> '?' in u && path == PathPart(u) && query == QueryPart(u)
    ensures u == path ==> PathPart(u) == u && QueryPart(u) == ""
  {
    if u == path + "?" + query {
      assert u[|path|] == '?' && u[..|path|] == path && u[|path| + 1..] == query;
      FirstIs(u, '?', |path|);
    } else if '?' in u {
      assert u == PathPart(u) + "?" + QueryPart(u);
    }
  }

  function Terminator(s: string): (k: nat)
    requires '\0' in s
    ensures k < |s| && s[k] == '\0' && '\0' !in s[..k]
  {
    Find(s, '\0')
  }

  lemma QueryCut(u: string, v: string, q: nat, end: nat)
    requires q < end < |u| && u[end] == '\0' && '\0' !in u[..end] && u[q] == '?' && '?' !in u[..q]
    requires v == u[q := '\0']
    ensures CStr(v) == u[..q] && CStr(u) == CStr(v) + "?" + CStr(v[q + 1..])
  {
    var a, c, w := u[..q], u[q + 1..end], v[q + 1..];
    assert u[..end] == a + ['?'] + c;
    assert '\0' !in a && '\0' !in c;
    CStrFilled(u, end, a + ['?'] + c);
    CStrFilled(v, q, a);
    assert w[..end - q - 1] == c;
    CStrFilled(w, end - q - 1, c);
  }

  /** For GET, the URL is cut at its first '?', which becomes a terminator; `query` points behind it. */
  method SplitQuery(url: array<char>) returns (cgi: bool, query: nat)
    requires '\0' in url[..]
    modifies url
    ensures cgi <==> '?' in old(CStr(url[..]))
    ensures cgi ==> query < url.Length && old(CStr(url[..])) == CStr(url[..]) + "?" + CStr(url[query..])
    ensures '?' !in CStr(url[..]) && '\0' in url[..]
    ensures !cgi ==> url[..] == old(url[..]) && query < url.Length && CStr(url[query..]) == ""
  {
    ghost var u := url[..];
    var end := Terminator(u);
    query := 0;
    cgi := false;
    while url[query] != '\0'
      invariant 0 <= query <= end && url[..] == u
      invariant '?' !in u[..query]
      decreases end - query
    {
      if url[query] == '?' {
        cgi := true;
        url[query] := '\0';
        query := query + 1;
        QueryCut(u, url[..], query - 1, end);
        return;
      }
      query := query + 1;
    }
    assert url[query..] == u[query..];
    CStrFilled(u, end, u[..end]);
    CStrPrefix(u[..end], "");
  }

  // ----- the file path -----

  /** sprintf or strcat: a string written at `at`, with its terminator. */
  method Append(dst: array<char>, at: nat, s: string) returns (len: nat)
    requires at + |s| < dst.Length
    modifies dst
    ensures len == at + |s| && dst[..len] == old(dst[..at]) + s && dst[len] == '\0'
  {
    forall k | 0 <= k < |s| { dst[at + k] := s[k]; }
    len := at + |s|;
    dst[len] := '\0';
  }

  /** Root and URL, and a default file name when that ends in '/'. */
  function PathOf(url: string): (p: string)
    requires |url| < FIELD_SIZE
    ensures |p| <= 7 + 254 + 10
  {
    var base := "wwwroot" + url;
    if base[|base| - 1] == '/' then base + "index.html" else base
  }

  /** Said with nothing but strings. */
  lemma PathOfIs(url: string)
    requires |url| < FIELD_SIZE
    ensures url == "" || url[|url| - 1] != '/' ==> PathOf(url) == "wwwroot" + url
    ensures url != "" && url[|url| - 1] == '/' ==> PathOf(url) == "wwwroot" + url + "index.html"
  {
    var base := "wwwroot" + url;
    assert base[|base| - 1] == if url == "" then 't' else url[|url| - 1];
  }

  lemma PathFromBase(base: string, url: string)
    requires |url| < FIELD_SIZE && base == "wwwroot" + url
    ensures PathOf(url) == if base[|base| - 1] == '/' then base + "index.html" else base
    ensures 7 <= |base| < 262
  {
  }

  method BuildPath(path: array<char>, url: string) returns (len: nat)
    requires path.Length == BUF_SIZE && |url| < FIELD_SIZE
    modifies path
    ensures len < path.Length && path[..len] == PathOf(url) && path[len] == '\0'
  {
    len := Append(path, 0, "wwwroot");
    len := Append(path, len, url);
    ghost var base := path[..len];
    PathFromBase(base, url);
    var slash := path[len - 1] == '/';
    assert slash <==> base[|base| - 1] == '/';
    if slash {
      len := Append(path, len, "index.html");
    }
  }
}
