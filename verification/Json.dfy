/** JSON values, the tokens the encoder writes for them, and reading the tokens back. */
module Json {
  import opened Text

  datatype Token =
    | ObjStart | ObjEnd | ArrStart | ArrEnd | Key(name: string)
    | StrTok(s: string) | IntTok(n: int) | FracTok(r: real) | BoolTok(b: bool) | NullTok

  /** A number is written as an integer whenever it is one. */
  datatype Json =
    | Str(s: string) | Int(n: int) | Frac(r: real) | Bool(b: bool) | Null
    | Obj(members: seq<Member>) | Arr(items: seq<Json>)

  datatype Member = Member(key: string, value: Json)

  // ---- Tokens of a value, and back ------------------------------------------------------

  function Tokens(j: Json): (ts: seq<Token>)
    ensures |ts| > 0
    decreases j, 1
  {
    match j
    case Str(s) => [StrTok(s)]
    case Int(n) => [IntTok(n)]
    case Frac(r) => [FracTok(r)]
    case Bool(b) => [BoolTok(b)]
    case Null => [NullTok]
    case Obj(members) => [ObjStart] + MemberTokens(members) + [ObjEnd]
    case Arr(items) => [ArrStart] + ItemTokens(items) + [ArrEnd]
  }

  function MemberTokens(ms: seq<Member>): seq<Token>
    decreases ms, 0
  {
    if ms == [] then [] else [Key(ms[0].key)] + Tokens(ms[0].value) + MemberTokens(ms[1..])
  }

  function ItemTokens(js: seq<Json>): seq<Token>
    decreases js, 0
  {
    if js == [] then [] else Tokens(js[0]) + ItemTokens(js[1..])
  }

  /** One value off the front of the tokens, with what follows it. */
  function ParseValue(ts: seq<Token>): (r: Option<(Json, seq<Token>)>)
    ensures r.Some? ==> |r.value.1| < |ts|
    decreases |ts|, 0
  {
    if |ts| == 0 then None
    else match ts[0]
      case StrTok(s) => Some((Str(s), ts[1..]))
      case IntTok(n) => Some((Int(n), ts[1..]))
      case FracTok(r) => Some((Frac(r), ts[1..]))
      case BoolTok(b) => Some((Bool(b), ts[1..]))
      case NullTok => Some((Null, ts[1..]))
      case ObjStart =>
        (match ParseMembers(ts[1..]) case Some((ms, rest)) => Some((Obj(ms), rest)) case None => None)
      case ArrStart =>
        (match ParseItems(ts[1..]) case Some((js, rest)) => Some((Arr(js), rest)) case None => None)
      case _ => None
  }

  /** Keys and values up to the closing token. */
  function ParseMembers(ts: seq<Token>): (r: Option<(seq<Member>, seq<Token>)>)
    ensures r.Some? ==> |r.value.1| < |ts|
    decreases |ts|, 1
  {
    if |ts| == 0 then None
    else if ts[0] == ObjEnd then Some(([], ts[1..]))
    else if ts[0].Key? then
      (match ParseValue(ts[1..])
       case None => None
       case Some((v, rest)) =>
         (match ParseMembers(rest)
          case None => None
          case Some((ms, rest')) => Some(([Member(ts[0].name, v)] + ms, rest'))))
    else None
  }

  function ParseItems(ts: seq<Token>): (r: Option<(seq<Json>, seq<Token>)>)
    ensures r.Some? ==> |r.value.1| < |ts|
    decreases |ts|, 1
  {
    if |ts| == 0 then None
    else if ts[0] == ArrEnd then Some(([], ts[1..]))
    else
      (match ParseValue(ts)
       case None => None
       case Some((v, rest)) =>
         (match ParseItems(rest)
          case None => None
          case Some((js, rest')) => Some(([v] + js, rest'))))
  }

  /** What was written is read back, whatever follows. */
  lemma {:induction false} ParseTokens(j: Json, rest: seq<Token>)
    ensures ParseValue(Tokens(j) + rest) == Some((j, rest))
    decreases j, 1
  {
    var ts := Tokens(j) + rest;
    match j
    case Obj(members) =>
      ParseMemberTokens(members, rest);
      assert ts[1..] == MemberTokens(members) + ([ObjEnd] + rest);
    case Arr(items) =>
      ParseItemTokens(items, rest);
      assert ts[1..] == ItemTokens(items) + ([ArrEnd] + rest);
    case _ =>
      assert ts[1..] == rest;
  }

  lemma {:induction false} ParseMemberTokens(ms: seq<Member>, rest: seq<Token>)
    ensures ParseMembers(MemberTokens(ms) + ([ObjEnd] + rest)) == Some((ms, rest))
    decreases ms, 0
  {
    var ts := MemberTokens(ms) + ([ObjEnd] + rest);
    if ms == [] {
      assert ts == [ObjEnd] + rest;
    } else {
      var tail := MemberTokens(ms[1..]) + ([ObjEnd] + rest);
      assert ts == [Key(ms[0].key)] + (Tokens(ms[0].value) + tail);
      assert ts[1..] == Tokens(ms[0].value) + tail;
      ParseTokens(ms[0].value, tail);
      ParseMemberTokens(ms[1..], rest);
      assert ms == [ms[0]] + ms[1..];
    }
  }

  lemma FirstToken(j: Json)
    ensures Tokens(j)[0] != ArrEnd && Tokens(j)[0] != ObjEnd
  {
  }

  lemma {:induction false} ParseItemTokens(js: seq<Json>, rest: seq<Token>)
    ensures ParseItems(ItemTokens(js) + ([ArrEnd] + rest)) == Some((js, rest))
    decreases js, 0
  {
    var ts := ItemTokens(js) + ([ArrEnd] + rest);
    if js == [] {
      assert ts == [ArrEnd] + rest;
    } else {
      var tail := ItemTokens(js[1..]) + ([ArrEnd] + rest);
      assert ts == Tokens(js[0]) + tail;
      FirstToken(js[0]);
      ParseTokens(js[0], tail);
      ParseItemTokens(js[1..], rest);
      assert js == [js[0]] + js[1..];
    }
  }

  // ---- Looking up members ---------------------------------------------------------------

  /** The value of a key: the last one wins. */
  function Get(ms: seq<Member>, key: string): Option<Json> {
    if ms == [] then None
    else if ms[|ms| - 1].key == key then Some(ms[|ms| - 1].value)
    else Get(ms[..|ms| - 1], key)
  }

  predicate Has(ms: seq<Member>, key: string) {
    Get(ms, key).Some?
  }

  predicate UniqueKeys(ms: seq<Member>) {
    forall i, j :: 0 <= i < j < |ms| ==> ms[i].key != ms[j].key
  }

  /** No object in the value repeats a key. */
  predicate UniqueDeep(j: Json) {
    match j
    case Obj(ms) => UniqueKeys(ms) && forall m :: m in ms ==> UniqueDeep(m.value)
    case Arr(js) => forall x :: x in js ==> UniqueDeep(x)
    case _ => true
  }

  lemma GetSnoc(ms: seq<Member>, m: Member, key: string)
    ensures Get(ms + [m], key) == if m.key == key then Some(m.value) else Get(ms, key)
  {
    assert (ms + [m])[..|ms + [m]| - 1] == ms;
  }

  /** In an object without repeated keys, lookup is membership. */
  lemma {:induction false} GetIsMember(ms: seq<Member>, key: string)
    requires UniqueKeys(ms)
    ensures forall v :: Get(ms, key) == Some(v) <==> Member(key, v) in ms
    decreases |ms|
  {
    if ms != [] {
      var init, last := ms[..|ms| - 1], ms[|ms| - 1];
      Snoc(ms);
      GetIsMember(init, key);
      assert forall i :: 0 <= i < |init| ==> init[i] == ms[i] && init[i].key != last.key;
    }
  }

  // ---- Objects written field by field ---------------------------------------------------

  /** A field of a struct: written unless it is an unset optional. */
  datatype Field = Field(key: string, value: Option<Json>)

  function Present(fs: seq<Field>): (ms: seq<Member>) {
    if fs == [] then []
    else
      var last := fs[|fs| - 1];
      Present(fs[..|fs| - 1]) + (if last.value.Some? then [Member(last.key, last.value.value)] else [])
  }

  predicate DistinctFields(fs: seq<Field>) {
    forall i, j :: 0 <= i < j < |fs| ==> fs[i].key != fs[j].key
  }

  lemma {:induction false} PresentMembers(fs: seq<Field>)
    ensures forall m :: m in Present(fs) <==> exists i :: 0 <= i < |fs| && fs[i] == Field(m.key, Some(m.value))
    decreases |fs|
  {
    if fs != [] {
      var n := |fs| - 1;
      PresentMembers(fs[..n]);
      forall m ensures m in Present(fs) <==> exists i :: 0 <= i < |fs| && fs[i] == Field(m.key, Some(m.value)) {
        if m in Present(fs[..n]) {
          var i :| 0 <= i < n && fs[..n][i] == Field(m.key, Some(m.value));
          assert fs[i] == Field(m.key, Some(m.value));
        } else if m in Present(fs) {
          assert fs[n] == Field(m.key, Some(m.value));
        }
        if i :| 0 <= i < |fs| && fs[i] == Field(m.key, Some(m.value)) {
          if i < n { assert fs[..n][i] == Field(m.key, Some(m.value)); }
        }
      }
    }
  }

  lemma {:induction false} PresentUnique(fs: seq<Field>)
    requires DistinctFields(fs)
    ensures UniqueKeys(Present(fs))
    decreases |fs|
  {
    if fs != [] {
      var n := |fs| - 1;
      PresentUnique(fs[..n]);
      PresentMembers(fs[..n]);
      var before := Present(fs[..n]);
      forall i | 0 <= i < |before| ensures before[i].key != fs[n].key {
        assert before[i] in before;
        var k :| 0 <= k < n && fs[..n][k] == Field(before[i].key, Some(before[i].value));
      }
    }
  }

  /** Each field is found as it was written. */
  lemma GetPresent(fs: seq<Field>, i: nat)
    requires DistinctFields(fs) && i < |fs|
    ensures Get(Present(fs), fs[i].key) == fs[i].value
  {
    PresentUnique(fs);
    PresentMembers(fs);
    GetIsMember(Present(fs), fs[i].key);
    assert forall k :: 0 <= k < |fs| && fs[k].key == fs[i].key ==> k == i;
    if fs[i].value.Some? {
      assert fs[i] == Field(fs[i].key, Some(fs[i].value.value));
      assert Member(fs[i].key, fs[i].value.value) in Present(fs);
    } else {
      assert forall v :: Member(fs[i].key, v) !in Present(fs);
    }
  }

  // ---- The encoder ----------------------------------------------------------------------

  function FieldTokens(f: Field): seq<Token> {
    if f.value.None? then [] else [Key(f.key)] + Tokens(f.value.value)
  }

  /** The buffer after the fields have been written, one after another. */
  function Written(buf: seq<Token>, fs: seq<Field>): seq<Token> {
    if fs == [] then buf else Written(buf, fs[..|fs| - 1]) + FieldTokens(fs[|fs| - 1])
  }

  lemma {:induction false} MemberTokensSnoc(ms: seq<Member>, m: Member)
    ensures MemberTokens(ms + [m]) == MemberTokens(ms) + ([Key(m.key)] + Tokens(m.value))
  {
    if ms == [] {
      assert [m][1..] == [];
      assert MemberTokens([m]) == [Key(m.key)] + Tokens(m.value) + [];
    } else {
      assert (ms + [m])[0] == ms[0] && (ms + [m])[1..] == ms[1..] + [m];
      MemberTokensSnoc(ms[1..], m);
    }
  }

  lemma {:induction false} WrittenIsTokens(buf: seq<Token>, fs: seq<Field>)
    ensures Written(buf, fs) == buf + MemberTokens(Present(fs))
    decreases |fs|
  {
    if fs != [] {
      var init, last := fs[..|fs| - 1], fs[|fs| - 1];
      WrittenIsTokens(buf, init);
      if last.value.Some? {
        hide Tokens;
        MemberTokensSnoc(Present(init), Member(last.key, last.value.value));
        Assoc(buf, MemberTokens(Present(init)), FieldTokens(last));
      } else {
        assert Present(init) + [] == Present(init);
      }
    }
  }

  /** A struct written between its object tokens is the tokens of its object. */
  lemma ObjectWritten(buf: seq<Token>, fs: seq<Field>)
    ensures Written(buf + [ObjStart], fs) + [ObjEnd] == buf + Tokens(Obj(Present(fs)))
  {
    WrittenIsTokens(buf + [ObjStart], fs);
  }

  lemma WriteNext(buf: seq<Token>, fs: seq<Field>, k: nat)
    requires k < |fs|
    ensures Written(buf, fs[..k + 1]) == Written(buf, fs[..k]) + FieldTokens(fs[k])
  {
    assert fs[..k + 1][..k] == fs[..k];
  }

  lemma {:induction false} ItemTokensSnoc(js: seq<Json>, j: Json)
    ensures ItemTokens(js + [j]) == ItemTokens(js) + Tokens(j)
  {
    if js == [] {
      assert [j][1..] == [];
      assert ItemTokens([j]) == Tokens(j) + [];
    } else {
      assert (js + [j])[0] == js[0] && (js + [j])[1..] == js[1..] + [j];
      ItemTokensSnoc(js[1..], j);
    }
  }

  /** jx.Encoder: every call appends to the buffer. */
  class Encoder {
    var toks: seq<Token>

    constructor ()
      ensures toks == []
    {
      toks := [];
    }

    method Put(t: Token)
      modifies this
      ensures toks == old(toks) + [t]
    {
      toks := toks + [t];
    }

    /** FieldStart and one scalar. */
    method Scalar(key: string, value: Token, ghost j: Json)
      requires Tokens(j) == [value]
      modifies this
      ensures toks == old(toks) + FieldTokens(Field(key, Some(j)))
    {
      toks := toks + [Key(key)];
      toks := toks + [value];
    }
  }
}
