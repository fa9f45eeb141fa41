/**
 The registration program: user counter and addresses in a key-value store, and the list of recipients rebuilt
 from them.
 */
module Registration {
  import opened Decimal
  import opened HttpStream
  import opened FormTokenizer

  // ----- addresses on the wire -----

  predicate Unreserved(c: char) {
    'a' <= c <= 'z' || 'A' <= c <= 'Z' || IsDigit(c) || c == '*' || c == '-' || c == '.' || c == '_'
  }

  predicate Bytes(s: string) { forall i :: 0 <= i < |s| ==> s[i] as int < 256 }

  predicate Addressable(s: string) { forall i :: 0 <= i < |s| ==> Unreserved(s[i]) || s[i] == '@' }

  function Hex(d: nat): char
    requires d < 16
  {
    if d < 10 then '0' + d as char else 'A' + (d - 10) as char
  }

  /** application/x-www-form-urlencoded, as the browser submits the form. */
  function EncodeChar(c: char): string
    requires c as int < 256
  {
    if Unreserved(c) then [c] else if c == ' ' then "+" else ['%', Hex(c as int / 16), Hex(c as int % 16)]
  }

  function Encode(s: string): string
    requires Bytes(s)
  {
    if s == "" then "" else EncodeChar(s[0]) + Encode(s[1..])
  }

  /** message.replace('%40', '@') */
  function Replace40(s: string): string {
    if s == "" then ""
    else if |s| >= 3 && s[..3] == "%40" then "@" + Replace40(s[3..])
    else [s[0]] + Replace40(s[1..])
  }

  /** What becomes of one character on the way through the form and the replacement. */
  function Image(c: char): string
    requires c as int < 256
  {
    if c == '@' then "@" else EncodeChar(c)
  }

  function Images(s: string): string
    requires Bytes(s)
  {
    if s == "" then "" else Image(s[0]) + Images(s[1..])
  }

  lemma ReplacePlain(c: char, rest: string)
    requires c != '%'
    ensures Replace40([c] + rest) == [c] + Replace40(rest)
  {
    var s := [c] + rest;
    assert s[1..] == rest;
    if |s| >= 3 { assert s[..3][0] == c; }
  }

  lemma ReplaceChar(c: char, rest: string)
    requires c as int < 256
    ensures Replace40(EncodeChar(c) + rest) == Image(c) + Replace40(rest)
  {
    if Unreserved(c) {
      ReplacePlain(c, rest);
    } else if c == ' ' {
      ReplacePlain('+', rest);
    } else {
      var h, l := Hex(c as int / 16), Hex(c as int % 16);
      var s := EncodeChar(c) + rest;
      assert s[..3] == ['%', h, l] && s[3..] == rest && s[1..] == [h] + ([l] + rest);
      if c == '@' {
        assert s[..3] == "%40";
      } else {
        assert ['%', h, l] != "%40" by {
          assert "%40"[1] == '4' && "%40"[2] == '0' && ['%', h, l][1] == h && ['%', h, l][2] == l;
        }
        ReplacePlain(h, [l] + rest);
        ReplacePlain(l, rest);
        assert ['%'] + ([h] + ([l] + Replace40(rest))) == ['%', h, l] + Replace40(rest);
      }
    }
  }

  lemma {:induction false} ReplaceEncode(s: string)
    requires Bytes(s)
    ensures Replace40(Encode(s)) == Images(s)
  {
    if s != "" {
      ReplaceEncode(s[1..]);
      ReplaceChar(s[0], Encode(s[1..]));
    }
  }

  lemma {:induction false} ImagesSame(s: string)
    requires Bytes(s)
    ensures |Images(s)| >= |s|
    ensures Images(s) == s <==> Addressable(s)
  {
    if s != "" {
      ImagesSame(s[1..]);
      assert s == [s[0]] + s[1..];
      assert Addressable(s) <==> (Unreserved(s[0]) || s[0] == '@') && Addressable(s[1..]);
      if |Image(s[0])| == 1 {
        assert Images(s) == s <==> Image(s[0]) == [s[0]] && Images(s[1..]) == s[1..] by {
          assert Images(s)[0] == Image(s[0])[0] && Images(s)[1..] == Images(s[1..]);
        }
      } else {
        assert !(Unreserved(s[0]) || s[0] == '@');
      }
    }
  }

  /** An address survives the form and the replacement exactly when it is made of unreserved characters and '@'. */
  lemma AddressRoundTripIff(s: string)
    requires Bytes(s)
    ensures Replace40(Encode(s)) == s <==> Addressable(s)
  {
    ReplaceEncode(s);
    ImagesSame(s);
  }

  /** An encoded address can stand in a form. */
  lemma {:induction false} EncodedIsSafe(s: string)
    requires Bytes(s)
    ensures Safe(Encode(s))
  {
    if s != "" { EncodedIsSafe(s[1..]); }
  }

  // ----- the same, character by character -----

  lemma CapitalIs(c: char)
    ensures 'A' <= c <= 'Z' <==> c in "ABCDEFGHIJKLMNOPQRSTUVWXYZ"
  {
    var capitals := "ABCDEFGHIJKLMNOPQRSTUVWXYZ";
    if 'A' <= c <= 'Z' { assert capitals[(c - 'A') as int] == c; }
  }

  lemma SmallIs(c: char)
    ensures 'a' <= c <= 'z' <==> c in "abcdefghijklmnopqrstuvwxyz"
  {
    var smalls := "abcdefghijklmnopqrstuvwxyz";
    if 'a' <= c <= 'z' { assert smalls[(c - 'a') as int] == c; }
  }

  lemma UnreservedIs(c: char)
    ensures Unreserved(c) <==>
            c in "ABCDEFGHIJKLMNOPQRSTUVWXYZ" || c in "abcdefghijklmnopqrstuvwxyz" || c in "0123456789" || c in "*-._"
  {
    CapitalIs(c);
    SmallIs(c);
    CharClasses(c);
  }

  lemma HexIs(d: nat)
    requires d < 16
    ensures Hex(d) == "0123456789ABCDEF"[d]
  {
  }

  /** What the browser sends for one character, and what is left of it in the mailing list. */
  lemma EncodeCharIs(c: char)
    requires c as int < 256
    ensures Unreserved(c) ==> EncodeChar(c) == [c]
    ensures c == ' ' ==> EncodeChar(c) == "+"
    ensures !Unreserved(c) && c != ' ' ==>
              EncodeChar(c) == ['%', "0123456789ABCDEF"[c as int / 16], "0123456789ABCDEF"[c as int % 16]]
    ensures Image(c) == if c == '@' then "@" else EncodeChar(c)
  {
    HexIs(c as int / 16);
    HexIs(c as int % 16);
  }

  predicate At40(s: string, i: int) { 0 <= i <= |s| - 3 && s[i] == '%' && s[i + 1] == '4' && s[i + 2] == '0' }

  ghost predicate Contains40(s: string) { exists i :: At40(s, i) }

  lemma At40Is(s: string)
    ensures At40(s, 0) <==> |s| >= 3 && s[..3] == "%40"
  {
    if |s| >= 3 { assert s[..3] == [s[0], s[1], s[2]]; }
  }

  lemma NoneAtFront(s: string, rest: string)
    requires !Contains40(s) && s != ""
    ensures !At40(s, 0) && !At40(s + "%40" + rest, 0) && !Contains40(s[1..])
  {
    var t := s + "%40" + rest;
    assert !At40(s, 0);
    assert |s| < 3 ==> t[|s|] == '%';
    forall i ensures !At40(s[1..], i) { assert !At40(s, i + 1); }
  }

  /**
   For every string, not only for encoded addresses: each %40 is replaced, from the left, and nothing else is
   touched.
   */
  lemma {:induction false} ReplaceIs(s: string, rest: string)
    requires !Contains40(s)
    ensures Replace40(s) == s
    ensures Replace40(s + "%40" + rest) == s + "@" + Replace40(rest)
  {
    var t := s + "%40" + rest;
    if s == "" {
      assert t[..3] == "%40" && t[3..] == rest;
      assert s + "@" + Replace40(rest) == "@" + Replace40(rest);
    } else {
      NoneAtFront(s, rest);
      At40Is(s);
      At40Is(t);
      assert t[0] == s[0] && t[1..] == s[1..] + "%40" + rest;
      ReplaceIs(s[1..], rest);
      assert s == [s[0]] + s[1..];
      assert [s[0]] + (s[1..] + "@" + Replace40(rest)) == s + "@" + Replace40(rest);
    }
  }

  // ----- the store -----

  const USER_COUNT := "UserCount"

  function UserKey(i: nat): string { "user" + Itoa(i) }

  lemma UserKeysDistinct(i: nat, j: nat)
    ensures UserKey(i) == UserKey(j) <==> i == j
    ensures UserKey(i) != USER_COUNT
  {
    ItoaInjective(i, j);
    assert UserKey(i)[4..] == Itoa(i) && UserKey(j)[4..] == Itoa(j);
    assert UserKey(i)[0] == 'u' && USER_COUNT[0] == 'U';
  }

  function Decoded(emails: seq<string>): (r: seq<string>)
    ensures |r| == |emails|
  {
    seq(|emails|, i requires 0 <= i < |emails| => Replace40(emails[i]))
  }

  class Registry {
    var db: map<string, string>

    /** The store holds exactly these registrations, in this order. */
    ghost predicate Holds(emails: seq<string>)
      reads this
    {
      && USER_COUNT in db && db[USER_COUNT] == Itoa(|emails|)
      && forall i: nat :: i < |emails| ==> UserKey(i) in db && db[UserKey(i)] == emails[i]
    }

    constructor (db: map<string, string>)
      requires USER_COUNT in db && db[USER_COUNT] == "0"
      ensures Holds([])
    {
      this.db := db;
    }

    /** The second half of exec_calc. Both numbers are printed into eight bytes. */
    method Register(email: string, ghost emails: seq<string>) returns (out: string)
      requires Holds(emails) && |Itoa(|emails| + 1)| + 1 <= 8
      modifies this
      ensures Holds(emails + [email]) && out == (emails + [email])[0]
      ensures db == old(db)["UserCount" := Itoa(|emails| + 1)]["user" + Itoa(|emails|) := email]
      ensures forall k :: k in old(db) && k != USER_COUNT && k != UserKey(|emails|) ==> k in db && db[k] == old(db)[k]
    {
      AtoiItoa(|emails|, "");
      assert Itoa(|emails|) + "" == Itoa(|emails|);
      var count := Atoi(db[USER_COUNT]);
      var user := "user" + Itoa(count);
      count := count + 1;
      db := db[USER_COUNT := Itoa(count)];
      db := db[user := email];
      forall i: nat | i < |emails| + 1 ensures UserKey(i) in db && db[UserKey(i)] == (emails + [email])[i] {
        UserKeysDistinct(i, |emails|);
      }
      UserKeysDistinct(|emails|, 0);
      out := db[UserKey(0)];
    }

    /** ShowWeather.py: the loop that rebuilds the list. */
    method Recipients(ghost emails: seq<string>) returns (toList: seq<string>)
      requires Holds(emails)
      ensures toList == Decoded(emails)
    {
      AtoiItoa(|emails|, "");
      assert Itoa(|emails|) + "" == Itoa(|emails|);
      var users := Atoi(db[USER_COUNT]);
      toList := [];
      for i := 0 to users
        invariant |toList| == i && forall j :: 0 <= j < i ==> toList[j] == Replace40(emails[j])
      {
        assert UserKey(i) in db;
        var message := db["user" + Itoa(i)];
        toList := toList + [Replace40(message)];
      }
    }

    /**
     exec_calc; an empty argument ends the program with nothing stored. The source has room for ten fields and
     uses the second.
     */
    method ExecCalc(arg: array<char>, ghost emails: seq<string>) returns (ok: bool)
      requires '\0' in arg[..]
      requires CStr(arg[..]) != "" ==> 2 <= |Values(CStr(arg[..]))| <= 10
      requires Holds(emails) && |Itoa(|emails| + 1)| + 1 <= 8
      modifies this, arg
      ensures ok <==> old(CStr(arg[..])) != ""
      ensures Holds(if ok then emails + [old(Values(CStr(arg[..])))[1]] else emails)
    {
      if arg[0] == '\0' {
        return false;
      }
      ok := true;
      var data := new nat[10];
      ghost var values := Values(CStr(arg[..]));
      var n := Tokenize(arg, data);
      assert CStr(arg[data[1]..]) == values[1];
      var email := CStr(arg[data[1]..]);
      var _ := Register(email, emails);
    }
  }

  /** The loop in main that fetches the body from the pipe; its buffer has 1024 bytes, one for the terminator. */
  method ReadBody(pipe: Socket, clength: int, post: array<char>)
    requires pipe.Valid() && clength <= |pipe.Rest()| && clength < post.Length && 0 < post.Length
    modifies pipe, post
    ensures var n := if clength < 0 then 0 else clength;
            post[..n] == old(pipe.Rest())[..n] && post[n] == '\0'
  {
    ghost var s := pipe.Rest();
    var i, ch := 0, '\0';
    while i < clength
      invariant 0 <= i <= |s| && (i <= clength || i == 0)
      invariant pipe.Valid() && pipe.Rest() == s[i..] && post[..i] == s[..i]
    {
      var n;
      n, ch := pipe.Recv(ch);
      post[i] := ch;
      i := i + 1;
    }
    post[i] := '\0';
  }
}
