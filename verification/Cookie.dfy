/** The session cookie: reading a Cookie header and writing a Set-Cookie header. */
module Cookie {
  import opened Text

  /** The characters strings.TrimSpace removes. */
  predicate IsSpace(c: char) {
    || c == ' ' || '\t' <= c <= '\r' || c == '\U{85}' || c == '\U{A0}' || c == '\U{1680}'
    || '\U{2000}' <= c <= '\U{200A}' || c == '\U{2028}' || c == '\U{2029}'
    || c == '\U{202F}' || c == '\U{205F}' || c == '\U{3000}'
  }

  function TrimLeft(s: string): string {
    if |s| > 0 && IsSpace(s[0]) then TrimLeft(s[1..]) else s
  }

  function TrimRight(s: string): string {
    if |s| > 0 && IsSpace(s[|s| - 1]) then TrimRight(s[..|s| - 1]) else s
  }

  function TrimSpace(s: string): string { TrimRight(TrimLeft(s)) }

  const NAME := "X-Session-Id"
  const PREFIX := "X-Session-Id="

  predicate HasPrefix(s: string) { PREFIX <= s }

  /** strings.SplitN(s, "=", 2): the text before and after the first '='. */
  function SplitTwo(s: string): (parts: seq<string>)
    ensures 1 <= |parts| <= 2
    ensures '=' in s ==> |parts| == 2
  {
    if |s| == 0 then [""]
    else if s[0] == '=' then ["", s[1..]]
    else
      var rest := SplitTwo(s[1..]);
      [[s[0]] + rest[0]] + rest[1..]
  }

  lemma {:induction false} SplitTwoAt(p: string, v: string)
    requires '=' !in p
    ensures SplitTwo(p + "=" + v) == [p, v]
  {
    var s := p + "=" + v;
    if |p| == 0 {
      assert s[1..] == v;
    } else {
      SplitTwoAt(p[1..], v);
      assert s[1..] == p[1..] + "=" + v;
      assert [p[0]] + p[1..] == p;
    }
  }

  /** The value a trimmed cookie piece carries, if it is the session cookie. */
  function SessionValue(piece: string): (v: string)
    requires HasPrefix(piece)
    ensures v == piece[|PREFIX|..]
  {
    var v := piece[|PREFIX|..];
    assert piece == NAME + "=" + v;
    SplitTwoAt(NAME, v);
    assert '=' in piece by { assert piece[|NAME|] == '='; }
    SplitTwo(piece)[1]
  }

  /** What the scan finds in the pieces of a header: the first session cookie, or "". */
  function FirstSession(pieces: seq<string>): string {
    if |pieces| == 0 then ""
    else if HasPrefix(TrimSpace(pieces[0])) then TrimSpace(pieces[0])[|PREFIX|..]
    else FirstSession(pieces[1..])
  }

  method ExtractSID(cookieHeader: string) returns (sid: string)
    ensures sid == FirstSession(Split(cookieHeader, ';'))
  {
    var cookies := Split(cookieHeader, ';');
    var i := 0;
    while i < |cookies|
      invariant 0 <= i <= |cookies|
      invariant FirstSession(cookies) == FirstSession(cookies[i..])
    {
      var cookie := TrimSpace(cookies[i]);
      if HasPrefix(cookie) {
        return SessionValue(cookie);
      }
      i := i + 1;
    }
    return "";
  }

  function FormSetCookie(sid: string, maxAgeSeconds: int): string {
    PREFIX + sid + "; HttpOnly; Path=/; Max-Age=" + Decimal(if sid == "" then 0 else maxAgeSeconds)
  }

  // ---- A header made of well-formed pairs -------------------------------------------------

  datatype Pair = Pair(name: string, value: string)

  /** A cookie pair in the sense of section 4.1.1 of RFC 6265, with a wider alphabet for the value. */
  predicate WellFormed(p: Pair) {
    && |p.name| > 0 && '=' !in p.name && ';' !in p.name && !IsSpace(p.name[0])
    && ';' !in p.value
    && (|p.value| > 0 ==> !IsSpace(p.value[|p.value| - 1]))
  }

  function PairText(p: Pair): string { p.name + "=" + p.value }

  /** Pairs with any white space around each. */
  datatype Piece = Piece(before: string, pair: Pair, after: string)

  predicate AllSpace(s: string) {
    forall c :: c in s ==> IsSpace(c) && c != ';'
  }

  predicate ValidPiece(p: Piece) {
    AllSpace(p.before) && WellFormed(p.pair) && AllSpace(p.after)
  }

  function PieceText(p: Piece): string { p.before + PairText(p.pair) + p.after }

  function PieceTexts(ps: seq<Piece>): (ts: seq<string>)
    ensures |ts| == |ps| && forall i :: 0 <= i < |ps| ==> ts[i] == PieceText(ps[i])
  {
    seq(|ps|, i requires 0 <= i < |ps| => PieceText(ps[i]))
  }

  /** The value of the first pair with the session cookie's name, or "". */
  function FirstNamed(ps: seq<Piece>): string {
    if |ps| == 0 then ""
    else if ps[0].pair.name == NAME then ps[0].pair.value
    else FirstNamed(ps[1..])
  }

  lemma {:induction false} TrimLeftSpaces(a: string, s: string)
    requires AllSpace(a)
    requires |s| > 0 ==> !IsSpace(s[0])
    ensures TrimLeft(a + s) == s
  {
    if |a| == 0 {
      assert a + s == s;
    } else {
      assert (a + s)[1..] == a[1..] + s;
      TrimLeftSpaces(a[1..], s);
    }
  }

  lemma {:induction false} TrimRightSpaces(s: string, b: string)
    requires AllSpace(b)
    requires |s| > 0 ==> !IsSpace(s[|s| - 1])
    ensures TrimRight(s + b) == s
  {
    if |b| == 0 {
      assert s + b == s;
    } else {
      assert (s + b)[..|s + b| - 1] == s + b[..|b| - 1];
      assert IsSpace(b[|b| - 1]);
      TrimRightSpaces(s, b[..|b| - 1]);
    }
  }

  lemma PieceTrims(p: Piece)
    requires ValidPiece(p)
    ensures TrimSpace(PieceText(p)) == PairText(p.pair)
  {
    var t := PairText(p.pair);
    assert t[0] == p.pair.name[0];
    assert !IsSpace(t[|t| - 1]) by {
      if |p.pair.value| > 0 { assert t[|t| - 1] == p.pair.value[|p.pair.value| - 1]; }
      else { assert t[|t| - 1] == '='; }
    }
    assert PieceText(p) == p.before + (t + p.after);
    TrimLeftSpaces(p.before, t + p.after);
    TrimRightSpaces(t, p.after);
  }

  lemma PairPrefix(p: Pair)
    requires WellFormed(p)
    ensures HasPrefix(PairText(p)) <==> p.name == NAME
    ensures p.name == NAME ==> PairText(p)[|PREFIX|..] == p.value
  {
    var t := PairText(p);
    SplitTwoAt(p.name, p.value);
    if HasPrefix(t) {
      var rest := t[|PREFIX|..];
      assert t == NAME + "=" + rest;
      SplitTwoAt(NAME, rest);
    }
  }

  lemma {:induction false} FirstSessionIsFirstNamed(ps: seq<Piece>)
    requires forall p :: p in ps ==> ValidPiece(p)
    ensures FirstSession(PieceTexts(ps)) == FirstNamed(ps)
  {
    if |ps| > 0 {
      assert ps[0] in ps;
      PieceTrims(ps[0]);
      PairPrefix(ps[0].pair);
      assert PieceTexts(ps)[1..] == PieceTexts(ps[1..]);
      FirstSessionIsFirstNamed(ps[1..]);
    }
  }

  lemma PieceHasNoSemicolon(p: Piece)
    requires ValidPiece(p)
    ensures ';' !in PieceText(p)
  {
  }

  /** The parser on any semicolon-joined list of well-formed pairs. */
  lemma ExtractFromPairs(ps: seq<Piece>)
    requires |ps| > 0 && forall p :: p in ps ==> ValidPiece(p)
    ensures FirstSession(Split(Join(PieceTexts(ps), ';'), ';')) == FirstNamed(ps)
  {
    var ts := PieceTexts(ps);
    forall t | t in ts ensures ';' !in t {
      var i :| 0 <= i < |ts| && t == ts[i];
      PieceHasNoSemicolon(ps[i]);
    }
    SplitJoin(ts, ';');
    FirstSessionIsFirstNamed(ps);
  }

  // ---- The parser after the printer -------------------------------------------------------

  lemma {:induction false} TrimRightShortens(s: string)
    ensures |TrimRight(s)| <= |s|
    ensures TrimRight(s) == s <==> |s| == 0 || !IsSpace(s[|s| - 1])
  {
    if |s| > 0 && IsSpace(s[|s| - 1]) {
      TrimRightShortens(s[..|s| - 1]);
    }
  }

  lemma {:induction false} TrimRightKeeps(p: string, s: string)
    requires |p| > 0 && !IsSpace(p[|p| - 1])
    ensures TrimRight(p + s) == p + TrimRight(s)
  {
    if |s| == 0 {
      assert p + s == p;
    } else if IsSpace(s[|s| - 1]) {
      assert (p + s)[..|p + s| - 1] == p + s[..|s| - 1];
      TrimRightKeeps(p, s[..|s| - 1]);
    }
  }

  lemma PrefixTrims(s: string)
    ensures TrimSpace(PREFIX + s) == PREFIX + TrimRight(s)
  {
    assert (PREFIX + s)[0] == 'X';
    assert PREFIX[|PREFIX| - 1] == '=';
    TrimRightKeeps(PREFIX, s);
  }

  function UpToSemicolon(s: string): (r: string)
    ensures ';' !in r && r <= s
    ensures r == s <==> ';' !in s
  {
    if |s| == 0 || s[0] == ';' then "" else [s[0]] + UpToSemicolon(s[1..])
  }

  lemma {:induction false} FirstPart(s: string, t: string)
    ensures Split(s + ";" + t, ';')[0] == UpToSemicolon(s)
  {
    var u := s + ";" + t;
    if |s| > 0 {
      assert u[1..] == s[1..] + ";" + t;
      FirstPart(s[1..], t);
    }
  }

  lemma ReadBackBefore(sid: string, tail: string)
    ensures FirstSession(Split(PREFIX + sid + ";" + tail, ';')) == TrimRight(UpToSemicolon(sid))
  {
    var value := TrimRight(UpToSemicolon(sid));
    FirstPart(PREFIX + sid, tail);
    UpToInPrefix(sid);
    PrefixTrims(UpToSemicolon(sid));
    assert (PREFIX + value)[|PREFIX|..] == value;
  }

  lemma JoinFour(a: string, b: string, c: string, d: string)
    ensures Join([a, b, c, d], ';') == a + [';'] + b + [';'] + c + [';'] + d
  {
    assert [a, b, c, d][1..] == [b, c, d] && [b, c, d][1..] == [c, d] && [c, d][1..] == [d];
    assert Join([c, d], ';') == c + [';'] + d;
    assert Join([b, c, d], ';') == b + [';'] + (c + [';'] + d);
  }

  lemma SetCookieParts(sid: string, n: nat)
    ensures PREFIX + sid + "; HttpOnly; Path=/; Max-Age=" + Decimal(n) ==
      "X-Session-Id=" + sid + [';'] + " HttpOnly" + [';'] + " Path=/" + [';'] + (" Max-Age=" + Decimal(n))
  {
    hide Decimal;
    assert "; HttpOnly; Path=/; Max-Age=" == [';'] + " HttpOnly" + [';'] + " Path=/" + [';'] + " Max-Age=";
  }

  lemma SplitFour(a: string, b: string, c: string, d: string)
    requires ';' !in a && ';' !in b && ';' !in c && ';' !in d
    ensures Split(a + [';'] + b + [';'] + c + [';'] + d, ';') == [a, b, c, d]
  {
    hide Split, Join;
    JoinFour(a, b, c, d);
    SplitJoin([a, b, c, d], ';');
  }

  /** The attributes of a Set-Cookie value: the pair, HttpOnly, the whole site, and the age in seconds. */
  lemma SetCookieShape(sid: string, age: nat)
    requires ';' !in sid
    ensures var n := if sid == "" then 0 else age;
            && Split(FormSetCookie(sid, age), ';') ==
               ["X-Session-Id=" + sid, " HttpOnly", " Path=/", " Max-Age=" + Decimal(n)]
            && AllDigits(Decimal(n)) && Number(Decimal(n)) == n && (n > 0 ==> Decimal(n)[0] != '0')
  {
    hide Split, Decimal, Number;
    var n := if sid == "" then 0 else age;
    DecimalReads(n);
    SetCookieParts(sid, n);
    SplitFour("X-Session-Id=" + sid, " HttpOnly", " Path=/", " Max-Age=" + Decimal(n));
  }

  /** What a client that sends the Set-Cookie value back as a Cookie header is read as. */
  lemma ReadBack(sid: string, age: int)
    ensures FirstSession(Split(FormSetCookie(sid, age), ';')) == TrimRight(UpToSemicolon(sid))
  {
    var rest := " HttpOnly; Path=/; Max-Age=" + Decimal(if sid == "" then 0 else age);
    ReadBackBefore(sid, rest);
    FormShape(sid, age);
  }

  lemma FormShape(sid: string, age: int)
    ensures FormSetCookie(sid, age) ==
      PREFIX + sid + ";" + (" HttpOnly; Path=/; Max-Age=" + Decimal(if sid == "" then 0 else age))
  {
  }

  lemma UpToInPrefix(sid: string)
    ensures UpToSemicolon(PREFIX + sid) == PREFIX + UpToSemicolon(sid)
  {
    UpToKeeps(PREFIX, sid);
  }

  lemma {:induction false} UpToKeeps(p: string, s: string)
    requires ';' !in p
    ensures UpToSemicolon(p + s) == p + UpToSemicolon(s)
  {
    if |p| == 0 {
      assert p + s == s;
    } else {
      assert (p + s)[1..] == p[1..] + s;
      UpToKeeps(p[1..], s);
    }
  }

  /** The sid survives the round trip exactly when it has no ';' and no trailing white space. */
  lemma SidRoundTrip(sid: string, age: int)
    ensures FirstSession(Split(FormSetCookie(sid, age), ';')) == sid <==>
      ';' !in sid && (|sid| > 0 ==> !IsSpace(sid[|sid| - 1]))
  {
    ReadBack(sid, age);
    TrimRightShortens(UpToSemicolon(sid));
  }
}
