/** The session hashes in Redis, the service calls over them and the session part of the handlers. */
module Sessions {
  import opened Backend
  import opened Text
  import opened Rfc3339

  type Sid = string

  datatype Field = CreatedAt | UpdatedAt | UserId

  /** One hash field with its own expiry. */
  datatype Cell = Cell(text: string, expires: int)

  type Hashes = map<Sid, map<Field, Cell>>

  /** HGET: a field that was never set or has expired is absent. */
  function FieldText(h: Hashes, sid: Sid, f: Field, now: int): Option<string> {
    if sid in h && f in h[sid] && now < h[sid][f].expires then Some(h[sid][f].text) else None
  }

  /** A session can be read: its creation time is there. */
  predicate Live(h: Hashes, sid: Sid, now: int) {
    FieldText(h, sid, CreatedAt, now).Some?
  }

  function CreatedText(h: Hashes, sid: Sid, now: int): string
    requires Live(h, sid, now)
  {
    h[sid][CreatedAt].text
  }

  function UserOf(h: Hashes, sid: Sid, now: int): string {
    var n := FieldText(h, sid, UserId, now);
    if n.Some? then n.value else ""
  }

  /** The three fields can be read with these texts until the given time, and none of them from then on. */
  ghost predicate Stands(h: Hashes, sid: Sid, created: string, updated: string, user: string, until: int) {
    forall t: int ::
      && FieldText(h, sid, CreatedAt, t) == (if t < until then Some(created) else None)
      && FieldText(h, sid, UpdatedAt, t) == (if t < until then Some(updated) else None)
      && FieldText(h, sid, UserId, t) == (if t < until then Some(user) else None)
  }

  /** Every field of every other session reads as before, at any time. */
  ghost predicate OthersKept(h: Hashes, h': Hashes, sid: Sid) {
    forall x, f, t: int :: x != sid ==> FieldText(h', x, f, t) == FieldText(h, x, f, t)
  }

  datatype Value = Value(createdAt: Instant, updatedAt: Instant, user: string)

  /** setValue: HSETEX writes the three fields with one expiry. */
  function SetValue(h: Hashes, sid: Sid, v: Value, now: int, ttl: nat): Hashes {
    var fields := if sid in h then h[sid] else map[];
    h[sid := fields[CreatedAt := Cell(Format(v.createdAt), now + ttl)]
                [UpdatedAt := Cell(Format(v.updatedAt), now + ttl)]
                [UserId := Cell(v.user, now + ttl)]]
  }

  lemma SetValueStands(h: Hashes, sid: Sid, v: Value, now: int, ttl: nat)
    ensures Stands(SetValue(h, sid, v, now, ttl), sid, Format(v.createdAt), Format(v.updatedAt), v.user, now + ttl)
    ensures OthersKept(h, SetValue(h, sid, v, now, ttl), sid)
  {
    hide Format;
  }

  // ---- The storage calls, as functions --------------------------------------------------

  datatype Extended = Kept(sid: Sid) | Created(sid: Sid) | Failed

  /** What SetOrUpdate decides from the text it read: which session to write, with which values. */
  function Target(read: Option<string>, sid: Sid, newSid: Sid, v: Value): Option<(Sid, Value)> {
    match read
    case None => Some((newSid, v))
    case Some(text) =>
      (match Parse(text)
       case None => None
       case Some(t) => Some((sid, v.(createdAt := t))))
  }

  /** The hashes after an uninterrupted SetOrUpdate. */
  function Updated(h: Hashes, sid: Sid, newSid: Sid, v: Value, now: int, ttl: nat, ok: bool, w: Write): Hashes {
    var target := Target(FieldText(h, sid, CreatedAt, now), sid, newSid, v);
    if !ok || target.None? || w.Lost? then h else SetValue(h, target.value.0, target.value.1, now, ttl)
  }

  function UpdateAnswer(h: Hashes, sid: Sid, newSid: Sid, v: Value, now: int, ok: bool, w: Write): Extended {
    var read := FieldText(h, sid, CreatedAt, now);
    if !ok || Target(read, sid, newSid, v).None? || !w.Acked? then Failed
    else if read.None? then Created(newSid) else Kept(sid)
  }

  /**
   * The id a call answers is the id it wrote: the requested one if that was live, with its creation text
   * kept, else the fresh one; and the session stands there with the new user until now plus TTL.
   */
  lemma AnswerIsWritten(h: Hashes, sid: Sid, newSid: Sid, v: Value, now: int, ttl: nat, ok: bool, w: Write)
    ensures var r, h' := UpdateAnswer(h, sid, newSid, v, now, ok, w), Updated(h, sid, newSid, v, now, ttl, ok, w);
            && (!r.Failed? <==> ok && w.Acked? && (Live(h, sid, now) ==> Parse(CreatedText(h, sid, now)).Some?))
            && (r.Kept? ==>
                  r.sid == sid && Live(h, sid, now) &&
                  Stands(h', sid, CreatedText(h, sid, now), Format(v.updatedAt), v.user, now + ttl))
            && (r.Created? ==>
                  r.sid == newSid && !Live(h, sid, now) &&
                  Stands(h', newSid, Format(v.createdAt), Format(v.updatedAt), v.user, now + ttl))
            && (!r.Failed? ==> OthersKept(h, h', r.sid))
            && (r.Failed? && !w.Unacked? ==> h' == h)
  {
    hide Format, Parse, SetValue, Stands, OthersKept;
    var text := FieldText(h, sid, CreatedAt, now);
    if text.Some? && Parse(text.value).Some? { FormatParse(text.value); }
    var target := Target(text, sid, newSid, v);
    if target.Some? { SetValueStands(h, target.value.0, target.value.1, now, ttl); }
  }

  datatype Got = Session(value: Value) | NoSession | GetError

  /** HMGET of the three fields; a missing user reads as "". */
  function Read(h: Hashes, sid: Sid, now: int, ok: bool): Got {
    if !ok then GetError
    else
      var c, u, n := FieldText(h, sid, CreatedAt, now), FieldText(h, sid, UpdatedAt, now),
        FieldText(h, sid, UserId, now);
      if c.None? || u.None? then NoSession
      else if Parse(c.value).None? || Parse(u.value).None? then GetError
      else Session(Value(Parse(c.value).value, Parse(u.value).value, if n.Some? then n.value else ""))
  }

  class SessionStorage {
    var hashes: Hashes

    constructor ()
      ensures hashes == map[]
    {
      hashes := map[];
    }

    method Set(sid: Sid, v: Value, now: int, ttl: nat, w: Write) returns (ok: bool)
      modifies this
      ensures ok <==> w.Acked?
      ensures hashes == if w.Lost? then old(hashes) else SetValue(old(hashes), sid, v, now, ttl)
    {
      if !w.Lost? {
        hashes := SetValue(hashes, sid, v, now, ttl);
      }
      ok := w.Acked?;
    }

    /** With the mutex held and nobody else writing in between. */
    method SetOrUpdate(sid: Sid, newSid: Sid, v: Value, now: int, ttl: nat, ok: bool, w: Write) returns (r: Extended)
      modifies this
      ensures hashes == Updated(old(hashes), sid, newSid, v, now, ttl, ok, w)
      ensures r == UpdateAnswer(old(hashes), sid, newSid, v, now, ok, w)
      ensures r.Kept? ==>
        r.sid == sid && Live(old(hashes), sid, now) &&
        Stands(hashes, sid, CreatedText(old(hashes), sid, now), Format(v.updatedAt), v.user, now + ttl)
      ensures r.Created? ==>
        r.sid == newSid && !Live(old(hashes), sid, now) &&
        Stands(hashes, newSid, Format(v.createdAt), Format(v.updatedAt), v.user, now + ttl)
      ensures !r.Failed? ==> OthersKept(old(hashes), hashes, r.sid)
    {
      hide Format, Parse, SetValue, FieldText, Stands, OthersKept;
      AnswerIsWritten(hashes, sid, newSid, v, now, ttl, ok, w);
      if !ok { return Failed; }
      var createdAtRaw := FieldText(hashes, sid, CreatedAt, now);
      if createdAtRaw.None? {
        var done := Set(newSid, v, now, ttl, w);
        return if done then Created(newSid) else Failed;
      }
      var createdAt := Parse(createdAtRaw.value);
      if createdAt.None? { return Failed; }
      var done := Set(sid, Value(createdAt.value, v.updatedAt, v.user), now, ttl, w);
      r := if done then Kept(sid) else Failed;
    }

    method Get(sid: Sid, now: int, ok: bool) returns (r: Got)
      ensures r == Read(hashes, sid, now, ok)
    {
      hide Format, Parse, FieldText;
      if !ok { return GetError; }
      var c := FieldText(hashes, sid, CreatedAt, now);
      var u := FieldText(hashes, sid, UpdatedAt, now);
      var n := FieldText(hashes, sid, UserId, now);
      if c.None? || u.None? { return NoSession; }
      var createdAt, updatedAt := Parse(c.value), Parse(u.value);
      if createdAt.None? || updatedAt.None? { return GetError; }
      var userID := "";
      if n.Some? { userID := n.value; }
      r := Session(Value(createdAt.value, updatedAt.value, userID));
    }

    method Delete(sid: Sid, w: Write) returns (ok: bool)
      modifies this
      ensures ok <==> w.Acked?
      ensures hashes == if w.Lost? then old(hashes) else old(hashes) - {sid}
    {
      if !w.Lost? {
        hashes := hashes - {sid};
      }
      ok := w.Acked?;
    }
  }

  // ---- The handlers' use of the store ---------------------------------------------------

  /** A fresh session for a user: CreateSession. */
  function CreatedFor(h: Hashes, newSid: Sid, user: string, now: Instant, ttl: nat, w: Write): Hashes {
    if w.Lost? then h else SetValue(h, newSid, Value(now, now, user), now, ttl)
  }

  /** CreateOrExtendSession. */
  function ExtendedFor(h: Hashes, sid: Sid, newSid: Sid, user: string, now: Instant, ttl: nat, ok: bool,
      w: Write): Hashes {
    Updated(h, sid, newSid, Value(now, now, user), now, ttl, ok, w)
  }

  /** How a request with this cookie binds a session to a user: POST /session binds "", login its user. */
  function Bound(h: Hashes, sid: Sid, newSid: Sid, user: string, now: Instant, ttl: nat, ok: bool, w: Write): Hashes {
    if sid == "" then CreatedFor(h, newSid, user, now, ttl, w) else ExtendedFor(h, sid, newSid, user, now, ttl, ok, w)
  }

  datatype Reply = Replied(created: bool, cookie: Sid) | Unauthorized | InternalError

  function BoundReply(h: Hashes, sid: Sid, newSid: Sid, user: string, now: Instant, ok: bool, w: Write): Reply {
    if sid == "" then (if w.Acked? then Replied(true, newSid) else InternalError)
    else match UpdateAnswer(h, sid, newSid, Value(now, now, user), now, ok, w)
      case Failed => InternalError
      case Created(s) => Replied(true, s)
      case Kept(s) => Replied(false, s)
  }

  /**
   * The cookie of a reply names the session that was written for the request's user, live until now plus
   * TTL: the requested one if it was live, else the fresh one, and only then it is called created.
   */
  lemma ReplyIsWritten(h: Hashes, sid: Sid, newSid: Sid, user: string, now: Instant, ttl: nat, ok: bool, w: Write)
    ensures var r := BoundReply(h, sid, newSid, user, now, ok, w);
            var h' := Bound(h, sid, newSid, user, now, ttl, ok, w);
            var kept := sid != "" && Live(h, sid, now);
            && (r.Replied? || r.InternalError?)
            && (r.Replied? <==> w.Acked? && (sid == "" || ok) && (kept ==> Parse(CreatedText(h, sid, now)).Some?))
            && (r.Replied? ==>
                  && r.cookie == (if kept then sid else newSid) && r.created == !kept
                  && Stands(h', r.cookie, if kept then CreatedText(h, sid, now) else Format(now), Format(now), user,
                            now + ttl)
                  && OthersKept(h, h', r.cookie))
  {
    hide Format, Parse, SetValue, Stands, OthersKept, FieldText;
    if sid == "" {
      SetValueStands(h, newSid, Value(now, now, user), now, ttl);
    } else {
      AnswerIsWritten(h, sid, newSid, Value(now, now, user), now, ttl, ok, w);
    }
  }

  datatype Access = Allowed(user: string) | Denied | Faulted

  /** validateReactionSession and its copies: the user of a live, bound session. */
  function Authorized(h: Hashes, sid: Sid, now: int, ok: bool): Access {
    if sid == "" then Denied
    else match Read(h, sid, now, ok)
      case Session(v) => if v.user == "" then Denied else Allowed(v.user)
      case NoSession => Denied
      case GetError => Faulted
  }

  class Handler {
    const store: SessionStorage
    const ttl: nat

    constructor (store: SessionStorage, ttl: nat)
      ensures this.store == store && this.ttl == ttl
    {
      this.store, this.ttl := store, ttl;
    }

    method CreateSession(newSid: Sid, user: string, now: Instant, w: Write) returns (r: Reply)
      modifies store
      ensures store.hashes == CreatedFor(old(store.hashes), newSid, user, now, ttl, w)
      ensures r == if w.Acked? then Replied(true, newSid) else InternalError
    {
      var ok := store.Set(newSid, Value(now, now, user), now, ttl, w);
      r := if ok then Replied(true, newSid) else InternalError;
    }

    method CreateOrExtendSession(sid: Sid, newSid: Sid, user: string, now: Instant, ok: bool,
        w: Write) returns (r: Extended)
      modifies store
      ensures store.hashes == ExtendedFor(old(store.hashes), sid, newSid, user, now, ttl, ok, w)
      ensures r == UpdateAnswer(old(store.hashes), sid, newSid, Value(now, now, user), now, ok, w)
      ensures r.Kept? ==> r.sid == sid && Live(old(store.hashes), sid, now)
      ensures r.Created? ==> r.sid == newSid && !Live(old(store.hashes), sid, now)
      ensures !r.Failed? && ttl > 0 ==> Live(store.hashes, r.sid, now) && UserOf(store.hashes, r.sid, now) == user
    {
      AnswerIsWritten(store.hashes, sid, newSid, Value(now, now, user), now, ttl, ok, w);
      hide Format, Parse, SetValue, Updated, UpdateAnswer;
      r := store.SetOrUpdate(sid, newSid, Value(now, now, user), now, ttl, ok, w);
    }

    method APISession(sid: Sid, newSid: Sid, now: Instant, ok: bool, w: Write) returns (r: Reply)
      modifies store
      ensures store.hashes == Bound(old(store.hashes), sid, newSid, "", now, ttl, ok, w)
      ensures r == BoundReply(old(store.hashes), sid, newSid, "", now, ok, w)
      ensures r.Replied? ==> r.created == !(sid != "" && Live(old(store.hashes), sid, now))
      ensures r.Replied? ==> r.cookie == if r.created then newSid else sid
      ensures r.Replied? && ttl > 0 ==> Live(store.hashes, r.cookie, now) && UserOf(store.hashes, r.cookie, now) == ""
    {
      ReplyIsWritten(store.hashes, sid, newSid, "", now, ttl, ok, w);
      hide Format, Parse, SetValue, Updated, OthersKept;
      if sid == "" {
        r := CreateSession(newSid, "", now, w);
        return;
      }
      var session := CreateOrExtendSession(sid, newSid, "", now, ok, w);
      r := match session
        case Failed => InternalError
        case Created(s) => Replied(true, s)
        case Kept(s) => Replied(false, s);
    }

    /** After the credentials have been checked. */
    method APILogin(sid: Sid, newSid: Sid, user: string, now: Instant, ok: bool, w: Write) returns (r: Reply)
      modifies store
      ensures store.hashes == Bound(old(store.hashes), sid, newSid, user, now, ttl, ok, w)
      ensures r.Replied? || r.InternalError?
      ensures r.Replied? <==> BoundReply(old(store.hashes), sid, newSid, user, now, ok, w).Replied?
      ensures r.Replied? ==> r.cookie == BoundReply(old(store.hashes), sid, newSid, user, now, ok, w).cookie
      ensures r.Replied? ==> r.cookie == if sid != "" && Live(old(store.hashes), sid, now) then sid else newSid
      ensures r.Replied? && ttl > 0 ==> Live(store.hashes, r.cookie, now) && UserOf(store.hashes, r.cookie, now) == user
    {
      ReplyIsWritten(store.hashes, sid, newSid, user, now, ttl, ok, w);
      hide Format, Parse, SetValue, Updated, OthersKept;
      if sid == "" {
        r := CreateSession(newSid, user, now, w);
        return;
      }
      var session := CreateOrExtendSession(sid, newSid, user, now, ok, w);
      r := if session.Failed? then InternalError else Replied(false, session.sid);
    }

    /** A registration binds a new session only when the request carried none. */
    method APIRegister(sid: Sid, newSid: Sid, user: string, now: Instant, w: Write) returns (r: Reply)
      modifies store
      ensures store.hashes == if sid == "" then CreatedFor(old(store.hashes), newSid, user, now, ttl, w)
          else old(store.hashes)
      ensures r == if sid != "" then Replied(true, sid) else if w.Acked? then Replied(true, newSid) else InternalError
    {
      if sid == "" {
        r := CreateSession(newSid, user, now, w);
        return;
      }
      r := Replied(true, sid);
    }

    method APILogout(sid: Sid, w: Write) returns (r: Reply)
      modifies store
      ensures store.hashes == if sid == "" || w.Lost? then old(store.hashes) else old(store.hashes) - {sid}
      ensures r == if sid == "" then Unauthorized else if w.Acked? then Replied(false, sid) else InternalError
    {
      if sid == "" { return Unauthorized; }
      var ok := store.Delete(sid, w);
      r := if ok then Replied(false, sid) else InternalError;
    }

    method ValidateSession(sid: Sid, now: Instant, ok: bool) returns (access: Access)
      ensures access == Authorized(store.hashes, sid, now, ok)
    {
      if sid == "" { return Denied; }
      var session := store.Get(sid, now, ok);
      if !session.Session? {
        return if session.NoSession? then Denied else Faulted;
      }
      if session.value.user == "" { return Denied; }
      return Allowed(session.value.user);
    }

    /** An authenticated action: validate, act, extend. `later` is the clock when the action is done. */
    method Act(sid: Sid, newSid: Sid, now: Instant, later: Instant, get: bool, done: bool, ok: bool, w: Write)
      returns (access: Access)
      modifies store
      ensures access == Authorized(old(store.hashes), sid, now, get)
      ensures store.hashes == if access.Allowed? && done
                              then ExtendedFor(old(store.hashes), sid, newSid, access.user, later, ttl, ok, w)
                              else old(store.hashes)
    {
      access := ValidateSession(sid, now, get);
      if !access.Allowed? || !done { return; }
      var _ := CreateOrExtendSession(sid, newSid, access.user, later, ok, w);
    }
  }
}
