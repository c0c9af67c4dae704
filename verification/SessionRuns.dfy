/** Runs of session calls, every storage call atomic. */
module SessionRuns {
  import opened Backend
  import opened Rfc3339
  import opened Text
  import opened Sessions

  /** Every stored hash has exactly the three fields, with one expiry. */
  ghost predicate Whole(h: Hashes) {
    forall sid :: sid in h ==>
      h[sid].Keys == {CreatedAt, UpdatedAt, UserId} &&
      h[sid][CreatedAt].expires == h[sid][UpdatedAt].expires == h[sid][UserId].expires
  }

  /** Both times of every stored hash can be read back. */
  ghost predicate TimesParse(h: Hashes) {
    forall sid :: sid in h ==>
      CreatedAt in h[sid] && Parse(h[sid][CreatedAt].text).Some? && UpdatedAt in h[sid] &&
        Parse(h[sid][UpdatedAt].text).Some?
  }

  /** All three fields are readable, or none is. */
  lemma AllOrNone(h: Hashes, sid: Sid, now: int)
    requires Whole(h)
    ensures forall f: Field :: FieldText(h, sid, f, now).Some? <==> Live(h, sid, now)
  {
    if sid in h {
      assert CreatedAt in h[sid].Keys && UpdatedAt in h[sid].Keys && UserId in h[sid].Keys;
      forall f: Field ensures FieldText(h, sid, f, now).Some? <==> Live(h, sid, now) {
        match f case CreatedAt => case UpdatedAt => case UserId =>
      }
    }
  }

  lemma SetValueWhole(h: Hashes, sid: Sid, v: Value, now: int, ttl: nat)
    requires Whole(h)
    ensures Whole(SetValue(h, sid, v, now, ttl))
  {
    hide Format;
    var h' := SetValue(h, sid, v, now, ttl);
    assert h'[sid].Keys == {CreatedAt, UpdatedAt, UserId};
  }

  lemma SetValueParses(h: Hashes, sid: Sid, v: Value, now: int, ttl: nat)
    requires TimesParse(h) && FourDigitYear(v.createdAt) && FourDigitYear(v.updatedAt)
    ensures TimesParse(SetValue(h, sid, v, now, ttl))
  {
    hide Format, Parse, FourDigitYear;
    ParseFormat(v.createdAt);
    ParseFormat(v.updatedAt);
  }

  // ---- Storage calls one at a time ------------------------------------------------------

  datatype State = State(hashes: Hashes, now: Instant, issued: set<Sid>)

  /** Every storage call the service makes; new SIDs are drawn fresh. */
  datatype Call =
    | Create(newSid: Sid, user: string, w: Write)
    | Extend(sid: Sid, newSid: Sid, user: string, ok: bool, w: Write)
    | Delete(sid: Sid, w: Write)
    | Pass(seconds: nat)

  predicate Enabled(s: State, c: Call) {
    match c
    case Create(newSid, user, w) => newSid !in s.issued
    case Extend(sid, newSid, user, ok, w) => newSid !in s.issued
    case Delete(sid, w) => true
    case Pass(seconds) => s.now + seconds < 315601142400 && FourDigitYear(s.now + seconds)
  }

  function Next(s: State, c: Call, ttl: nat): State
    requires Enabled(s, c)
  {
    match c
    case Create(newSid, user, w) =>
      State(CreatedFor(s.hashes, newSid, user, s.now, ttl, w), s.now, s.issued + {newSid})
    case Extend(sid, newSid, user, ok, w) =>
      State(ExtendedFor(s.hashes, sid, newSid, user, s.now, ttl, ok, w), s.now, s.issued + {newSid})
    case Delete(sid, w) => s.(hashes := if w.Lost? then s.hashes else s.hashes - {sid})
    case Pass(seconds) => s.(now := s.now + seconds)
  }

  ghost predicate Possible(s: State, calls: seq<Call>, ttl: nat)
    decreases |calls|
  {
    |calls| == 0 || (Enabled(s, calls[0]) && Possible(Next(s, calls[0], ttl), calls[1..], ttl))
  }

  ghost function Run(s: State, calls: seq<Call>, ttl: nat): State
    requires Possible(s, calls, ttl)
    decreases |calls|
  {
    if |calls| == 0 then s else Run(Next(s, calls[0], ttl), calls[1..], ttl)
  }

  /** The clock shows a year 0 to 9999, and only SIDs the service has issued are ever stored. */
  ghost predicate Inv(s: State) {
    && FourDigitYear(s.now)
    && Whole(s.hashes)
    && TimesParse(s.hashes)
    && forall sid :: sid in s.hashes ==> sid in s.issued
  }

  lemma NextKeepsInv(s: State, c: Call, ttl: nat)
    requires Inv(s) && Enabled(s, c)
    ensures Inv(Next(s, c, ttl))
  {
    hide Format, Parse, FourDigitYear;
    var v := if c.Create? || c.Extend? then Value(s.now, s.now, c.user) else Value(s.now, s.now, "");
    match c
    case Create(newSid, user, w) =>
      SetValueWhole(s.hashes, newSid, v, s.now, ttl);
      SetValueParses(s.hashes, newSid, v, s.now, ttl);
    case Extend(sid, newSid, user, ok, w) =>
      var text := FieldText(s.hashes, sid, CreatedAt, s.now);
      var target := Target(text, sid, newSid, v);
      if target.Some? {
        if text.Some? { FormatParse(text.value); }
        SetValueWhole(s.hashes, target.value.0, target.value.1, s.now, ttl);
        SetValueParses(s.hashes, target.value.0, target.value.1, s.now, ttl);
      }
    case Delete(sid, w) =>
    case Pass(seconds) =>
  }

  lemma {:induction false} RunKeepsInv(s: State, calls: seq<Call>, ttl: nat)
    requires Inv(s) && Possible(s, calls, ttl)
    ensures Inv(Run(s, calls, ttl))
    decreases |calls|
  {
    if |calls| > 0 {
      NextKeepsInv(s, calls[0], ttl);
      RunKeepsInv(Next(s, calls[0], ttl), calls[1..], ttl);
    }
  }

  lemma LiveIsIssued(s: State, sid: Sid)
    requires Inv(s) && Live(s.hashes, sid, s.now)
    ensures sid in s.issued
  {
  }

  /** One call never brings an issued, dead SID back. */
  lemma DeadStaysDeadOnce(s: State, c: Call, sid: Sid, ttl: nat)
    requires Inv(s) && Enabled(s, c) && sid in s.issued && !Live(s.hashes, sid, s.now)
    ensures sid in Next(s, c, ttl).issued && !Live(Next(s, c, ttl).hashes, sid, Next(s, c, ttl).now)
  {
    hide Format, Parse, FourDigitYear;
  }

  /** A deleted or expired SID never becomes live again. */
  lemma {:induction false} DeadStaysDead(s: State, calls: seq<Call>, sid: Sid, ttl: nat)
    requires Inv(s) && Possible(s, calls, ttl) && sid in s.issued && !Live(s.hashes, sid, s.now)
    ensures !Live(Run(s, calls, ttl).hashes, sid, Run(s, calls, ttl).now)
    decreases |calls|
  {
    if |calls| > 0 {
      DeadStaysDeadOnce(s, calls[0], sid, ttl);
      NextKeepsInv(s, calls[0], ttl);
      DeadStaysDead(Next(s, calls[0], ttl), calls[1..], sid, ttl);
    }
  }

  /** An acknowledged logout is final for its SID. */
  lemma LogoutIsFinal(s: State, sid: Sid, w: Write, calls: seq<Call>, ttl: nat)
    requires Inv(s) && sid in s.issued && !w.Lost?
    requires Possible(Next(s, Delete(sid, w), ttl), calls, ttl)
    ensures var v := Run(Next(s, Delete(sid, w), ttl), calls, ttl);
            !Live(v.hashes, sid, v.now)
  {
    var d := Next(s, Delete(sid, w), ttl);
    NextKeepsInv(s, Delete(sid, w), ttl);
    DeadStaysDead(d, calls, sid, ttl);
  }

  /** One call keeps the creation text of a session that is still live after it. */
  lemma CreationTextKeptOnce(s: State, c: Call, sid: Sid, ttl: nat)
    requires Inv(s) && Enabled(s, c) && Live(s.hashes, sid, s.now)
    ensures var v := Next(s, c, ttl);
            Live(v.hashes, sid, v.now) ==> CreatedText(v.hashes, sid, v.now) == CreatedText(s.hashes, sid, s.now)
  {
    hide Format, Parse, FourDigitYear;
    FormatParse(CreatedText(s.hashes, sid, s.now));
  }

  /** Over any run, a session that is still live carries its creation text to the letter. */
  lemma {:induction false} CreationTextKept(s: State, calls: seq<Call>, sid: Sid, ttl: nat)
    requires Inv(s) && Possible(s, calls, ttl) && Live(s.hashes, sid, s.now)
    ensures var v := Run(s, calls, ttl);
            Live(v.hashes, sid, v.now) ==> CreatedText(v.hashes, sid, v.now) == CreatedText(s.hashes, sid, s.now)
    decreases |calls|
  {
    if |calls| > 0 {
      var v := Next(s, calls[0], ttl);
      NextKeepsInv(s, calls[0], ttl);
      if Live(v.hashes, sid, v.now) {
        CreationTextKeptOnce(s, calls[0], sid, ttl);
        CreationTextKept(v, calls[1..], sid, ttl);
      } else {
        assert sid in v.issued by { hide Next; IssuedGrows(s, calls[0], ttl); }
        DeadStaysDead(v, calls[1..], sid, ttl);
      }
    }
  }

  lemma IssuedGrows(s: State, c: Call, ttl: nat)
    requires Enabled(s, c)
    ensures s.issued <= Next(s, c, ttl).issued
  {
  }

  // ---- Sessions and users ---------------------------------------------------------------

  /** An action is allowed exactly for a live SID bound to a non-empty user, when the read succeeds. */
  lemma AllowedExactly(s: State, sid: Sid, ok: bool)
    requires Inv(s)
    ensures Authorized(s.hashes, sid, s.now, ok).Allowed? <==>
            ok && sid != "" && Live(s.hashes, sid, s.now) && UserOf(s.hashes, sid, s.now) != ""
    ensures Authorized(s.hashes, sid, s.now, ok).Allowed? ==>
            Authorized(s.hashes, sid, s.now, ok).user == UserOf(s.hashes, sid, s.now)
    ensures Authorized(s.hashes, sid, s.now, ok) == Faulted <==> sid != "" && !ok
    ensures Authorized(s.hashes, sid, s.now, ok) == Denied <==>
            sid == "" || (ok && !(Live(s.hashes, sid, s.now) && UserOf(s.hashes, sid, s.now) != ""))
  {
    hide Format, Parse, FourDigitYear;
    AllOrNone(s.hashes, sid, s.now);
  }

  /** A read that succeeds gives the stored texts' times and user of a live session, and says if there is none. */
  lemma ReadExactly(s: State, sid: Sid, ok: bool)
    requires Inv(s)
    ensures var r := Read(s.hashes, sid, s.now, ok);
            && (r == GetError <==> !ok)
            && (r == NoSession <==> ok && !Live(s.hashes, sid, s.now))
            && (r.Session? ==>
                  && FieldText(s.hashes, sid, CreatedAt, s.now) == Some(Format(r.value.createdAt))
                  && FieldText(s.hashes, sid, UpdatedAt, s.now) == Some(Format(r.value.updatedAt))
                  && FieldText(s.hashes, sid, UserId, s.now) == Some(r.value.user))
  {
    hide Format, Parse, FourDigitYear;
    AllOrNone(s.hashes, sid, s.now);
    if Live(s.hashes, sid, s.now) {
      FormatParse(FieldText(s.hashes, sid, CreatedAt, s.now).value);
      FormatParse(FieldText(s.hashes, sid, UpdatedAt, s.now).value);
    }
  }

  /** A session created for a user is live until now plus TTL and allows that user, unless the user is empty. */
  lemma FreshSession(s: State, newSid: Sid, user: string, w: Write, get: bool, ttl: nat)
    requires Inv(s) && newSid !in s.issued && newSid != "" && !w.Lost? && ttl > 0
    ensures var v := Next(s, Create(newSid, user, w), ttl);
            && Inv(v)
            && Stands(v.hashes, newSid, Format(s.now), Format(s.now), user, s.now + ttl)
            && (forall t: int :: Live(v.hashes, newSid, t) <==> t < s.now + ttl)
            && (Authorized(v.hashes, newSid, v.now, get) == Allowed(user) <==> get && user != "")
  {
    hide Format, Parse, FourDigitYear, Authorized;
    var v := Next(s, Create(newSid, user, w), ttl);
    NextKeepsInv(s, Create(newSid, user, w), ttl);
    SetValueStands(s.hashes, newSid, Value(s.now, s.now, user), s.now, ttl);
    AllowedExactly(v, newSid, get);
    assert UserOf(v.hashes, newSid, v.now) == user;
  }

  /** Extending a live session: creation text kept, user set, every field lives for the TTL from now. */
  lemma ExtendLive(s: State, sid: Sid, newSid: Sid, user: string, w: Write, ttl: nat)
    requires Inv(s) && Live(s.hashes, sid, s.now) && newSid !in s.issued && !w.Lost?
    ensures var h := Next(s, Extend(sid, newSid, user, true, w), ttl).hashes;
            h == s.hashes[sid := map[CreatedAt := Cell(CreatedText(s.hashes, sid, s.now), s.now + ttl),
                                     UpdatedAt := Cell(Format(s.now), s.now + ttl),
                                     UserId := Cell(user, s.now + ttl)]]
  {
    hide Format, Parse, FourDigitYear;
    FormatParse(CreatedText(s.hashes, sid, s.now));
    var h := Next(s, Extend(sid, newSid, user, true, w), ttl).hashes;
    assert h[sid].Keys == s.hashes[sid].Keys;
    assert h[sid] == map[CreatedAt := Cell(CreatedText(s.hashes, sid, s.now), s.now + ttl),
                         UpdatedAt := Cell(Format(s.now), s.now + ttl),
                         UserId := Cell(user, s.now + ttl)];
  }

  /**
   * An action allowed in `s` that, after any calls in between, extends its SID while it is still live:
   * creation text and user are those read at the start, and the session lives for the TTL from now.
   */
  lemma ActionExtends(s: State, get: bool, sid: Sid, between: seq<Call>, newSid: Sid, w: Write, ttl: nat)
    requires Inv(s) && Authorized(s.hashes, sid, s.now, get).Allowed? && Possible(s, between, ttl)
    requires var m := Run(s, between, ttl); Live(m.hashes, sid, m.now) && newSid !in m.issued
    requires !w.Lost? && ttl > 0
    ensures var user := Authorized(s.hashes, sid, s.now, get).user;
            var m := Run(s, between, ttl);
            var v := Next(m, Extend(sid, newSid, user, true, w), ttl);
            && Live(v.hashes, sid, v.now)
            && FieldText(v.hashes, sid, CreatedAt, v.now) == FieldText(s.hashes, sid, CreatedAt, s.now)
            && UserOf(v.hashes, sid, v.now) == UserOf(s.hashes, sid, s.now) != ""
            && forall t: int :: Live(v.hashes, sid, t) <==> t < m.now + ttl
  {
    hide Format, Parse, FourDigitYear, Authorized, Run, Possible, Inv, ExtendedFor;
    AllowedExactly(s, sid, get);
    RunKeepsInv(s, between, ttl);
    CreationTextKept(s, between, sid, ttl);
    ExtendLive(Run(s, between, ttl), sid, newSid, UserOf(s.hashes, sid, s.now), w, ttl);
  }

  /** The user of a session that stays live: replaced by an extension of its id that takes effect, else kept. */
  lemma UserAfterCall(s: State, c: Call, sid: Sid, ttl: nat)
    requires Inv(s) && Enabled(s, c) && Live(s.hashes, sid, s.now)
    requires Live(Next(s, c, ttl).hashes, sid, Next(s, c, ttl).now)
    ensures var v := Next(s, c, ttl);
            UserOf(v.hashes, sid, v.now) ==
            if c.Extend? && c.sid == sid && c.ok && !c.w.Lost? then c.user else UserOf(s.hashes, sid, s.now)
  {
    hide Format, Parse, FourDigitYear;
    NextKeepsInv(s, c, ttl);
    AllOrNone(s.hashes, sid, s.now);
    AllOrNone(Next(s, c, ttl).hashes, sid, Next(s, c, ttl).now);
  }
}
