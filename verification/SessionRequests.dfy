/**
 * Requests interleaved at their storage calls: an authenticated action reads its session, and other
 * requests run before it extends the session for the user it read.
 */
module SessionRequests {
  import opened Backend
  import opened Text
  import opened Rfc3339
  import opened Sessions
  import opened SessionRuns

  /**
   * An action between its read and its extension. `since` is who the session belongs to going by
   * logins and POST /session alone, counted from the read; the service does not keep it.
   */
  datatype Flight = Flight(sid: Sid, user: string, since: string)

  datatype Server = Server(store: State, flights: map<nat, Flight>)

  datatype Move =
    | PostSession(sid: Sid, newSid: Sid, ok: bool, w: Write)
    | Login(sid: Sid, newSid: Sid, user: string, ok: bool, w: Write)
    | Register(sid: Sid, newSid: Sid, user: string, w: Write)
    | Logout(sid: Sid, w: Write)
    | Begin(job: nat, sid: Sid, get: bool)
    | End(job: nat, newSid: Sid, ok: bool, w: Write)
    | GiveUp(job: nat)
    | Idle(seconds: nat)

  /** The storage call a move makes that can change the hashes. */
  function CallOf(flights: map<nat, Flight>, m: Move): Option<Call>
    requires m.End? ==> m.job in flights
  {
    match m
    case PostSession(sid, newSid, ok, w) =>
      Some(if sid == "" then Create(newSid, "", w) else Extend(sid, newSid, "", ok, w))
    case Login(sid, newSid, user, ok, w) =>
      Some(if sid == "" then Create(newSid, user, w) else Extend(sid, newSid, user, ok, w))
    case Register(sid, newSid, user, w) => if sid == "" then Some(Create(newSid, user, w)) else None
    case Logout(sid, w) => if sid == "" then None else Some(Delete(sid, w))
    case End(job, newSid, ok, w) => Some(Extend(flights[job].sid, newSid, flights[job].user, ok, w))
    case Idle(seconds) => Some(Pass(seconds))
    case _ => None
  }

  predicate CanMove(s: Server, m: Move) {
    && (m.Begin? ==> m.job !in s.flights)
    && (m.End? || m.GiveUp? ==> m.job in s.flights)
    && (CallOf(s.flights, m).Some? ==> Enabled(s.store, CallOf(s.flights, m).value))
  }

  /** The user a login or POST /session binds a live id to, if it does. */
  function BoundTo(s: State, m: Move, sid: Sid): Option<string> {
    if sid == "" || !Live(s.hashes, sid, s.now) then None
    else match m
      case PostSession(x, newSid, ok, w) => if x == sid && ok && !w.Lost? then Some("") else None
      case Login(x, newSid, user, ok, w) => if x == sid && ok && !w.Lost? then Some(user) else None
      case _ => None
  }

  function Followed(s: Server, m: Move): map<nat, Flight> {
    map job | job in s.flights ::
      var f := s.flights[job];
      f.(since := if BoundTo(s.store, m, f.sid).Some? then BoundTo(s.store, m, f.sid).value else f.since)
  }

  function StoreAfter(s: Server, m: Move, ttl: nat): State
    requires CanMove(s, m)
  {
    if CallOf(s.flights, m).Some? then Next(s.store, CallOf(s.flights, m).value, ttl) else s.store
  }

  function FlightsAfter(s: Server, m: Move): map<nat, Flight> {
    match m
    case Begin(job, sid, get) =>
      var access := Authorized(s.store.hashes, sid, s.store.now, get);
      if access.Allowed? then s.flights[job := Flight(sid, access.user, access.user)] else s.flights
    case End(job, newSid, ok, w) => s.flights - {job}
    case GiveUp(job) => s.flights - {job}
    case _ => Followed(s, m)
  }

  function Step(s: Server, m: Move, ttl: nat): Server
    requires CanMove(s, m)
  {
    Server(StoreAfter(s, m, ttl), FlightsAfter(s, m))
  }

  ghost predicate CanRun(s: Server, moves: seq<Move>, ttl: nat)
    decreases |moves|
  {
    |moves| == 0 || (CanMove(s, moves[0]) && CanRun(Step(s, moves[0], ttl), moves[1..], ttl))
  }

  // ---- Handlers and moves ---------------------------------------------------------------

  /** The hashes a handler's method leaves, in terms of the state its storage call finds. */
  ghost function HandlerHashes(s: Server, m: Move, ttl: nat): Hashes
    requires m.End? ==> m.job in s.flights
  {
    var h, now := s.store.hashes, s.store.now;
    match m
    case PostSession(sid, newSid, ok, w) => Bound(h, sid, newSid, "", now, ttl, ok, w)
    case Login(sid, newSid, user, ok, w) => Bound(h, sid, newSid, user, now, ttl, ok, w)
    case Register(sid, newSid, user, w) => if sid == "" then CreatedFor(h, newSid, user, now, ttl, w) else h
    case Logout(sid, w) => if sid == "" || w.Lost? then h else h - {sid}
    case End(job, newSid, ok, w) => ExtendedFor(h, s.flights[job].sid, newSid, s.flights[job].user, now, ttl, ok, w)
    case _ => h
  }

  /** What a handler's method does to the hashes is what the move does. */
  lemma HandlersMakeTheirMoves(s: Server, m: Move, ttl: nat)
    requires CanMove(s, m)
    ensures Step(s, m, ttl).store.hashes == HandlerHashes(s, m, ttl)
  {
    hide Format, Parse, FourDigitYear, Authorized, ExtendedFor, CreatedFor, Followed;
  }

  // ---- The invariant --------------------------------------------------------------------

  ghost predicate Steady(s: Server) {
    Inv(s.store) && forall job :: job in s.flights ==>
      s.flights[job].sid in s.store.issued && s.flights[job].sid != "" && s.flights[job].user != ""
  }

  lemma StoreKeepsInv(s: Server, m: Move, ttl: nat)
    requires Inv(s.store) && CanMove(s, m)
    ensures Inv(StoreAfter(s, m, ttl)) && s.store.issued <= StoreAfter(s, m, ttl).issued
  {
    var c := CallOf(s.flights, m);
    if c.Some? { NextKeepsInv(s.store, c.value, ttl); IssuedGrows(s.store, c.value, ttl); }
    hide Inv, Next, Enabled;
  }

  lemma BegunOnIssued(s: State, sid: Sid, get: bool)
    requires Inv(s) && Authorized(s.hashes, sid, s.now, get).Allowed?
    ensures sid in s.issued && sid != "" && Authorized(s.hashes, sid, s.now, get).user != ""
  {
    hide Inv, Live, Authorized;
    AllowedExactly(s, sid, get);
    LiveIsIssued(s, sid);
  }

  lemma StepKeepsSteady(s: Server, m: Move, ttl: nat)
    requires Steady(s) && CanMove(s, m)
    ensures Steady(Step(s, m, ttl))
  {
    hide Inv, StoreAfter, Live, Authorized, BoundTo, Enabled;
    StoreKeepsInv(s, m, ttl);
    if m.Begin? && Authorized(s.store.hashes, m.sid, s.store.now, m.get).Allowed? {
      BegunOnIssued(s.store, m.sid, m.get);
    }
  }

  // ---- Who changes the user of a live session -------------------------------------------

  ghost predicate LiveThrough(s: Server, m: Move, sid: Sid, ttl: nat)
    requires CanMove(s, m)
  {
    Live(s.store.hashes, sid, s.store.now) && Live(StoreAfter(s, m, ttl).hashes, sid, StoreAfter(s, m, ttl).now)
  }

  function User(s: State, sid: Sid): string { UserOf(s.hashes, sid, s.now) }

  ghost predicate Changes(s: Server, m: Move, sid: Sid, ttl: nat)
    requires CanMove(s, m)
  {
    LiveThrough(s, m, sid, ttl) && User(StoreAfter(s, m, ttl), sid) != User(s.store, sid)
  }

  /** The end of an action on the id whose extension takes effect. */
  predicate Extends(s: Server, m: Move, sid: Sid) {
    m.End? && m.job in s.flights && s.flights[m.job].sid == sid && m.ok && !m.w.Lost?
  }

  lemma UserAfterMove(s: Server, m: Move, sid: Sid, ttl: nat)
    requires Steady(s) && CanMove(s, m) && LiveThrough(s, m, sid, ttl) && sid != ""
    ensures User(StoreAfter(s, m, ttl), sid) ==
      if BoundTo(s.store, m, sid).Some? then BoundTo(s.store, m, sid).value
      else if Extends(s, m, sid) then s.flights[m.job].user
      else User(s.store, sid)
  {
    hide Inv, Next, Live, UserOf, Enabled;
    var c := CallOf(s.flights, m);
    if c.Some? { UserAfterCall(s.store, c.value, sid, ttl); }
  }

  /**
   * A move changes the user of a session that stays live exactly when it is a login or POST /session
   * with another user, or the end of an action whose remembered user is no longer the session's.
   */
  lemma RebindsExactly(s: Server, m: Move, sid: Sid, ttl: nat)
    requires Steady(s) && CanMove(s, m) && LiveThrough(s, m, sid, ttl) && sid != ""
    ensures Changes(s, m, sid, ttl) <==>
      || (BoundTo(s.store, m, sid).Some? && BoundTo(s.store, m, sid).value != User(s.store, sid))
      || (Extends(s, m, sid) && s.flights[m.job].user != User(s.store, sid))
  {
    UserAfterMove(s, m, sid, ttl);
    hide Live, UserOf, StoreAfter, CanMove, Steady;
  }

  /**
   * Where logins name a user, a move leaves a live session that had one without one exactly when it is
   * a POST /session on it that takes effect.
   */
  lemma OnlyPostSessionClears(s: Server, m: Move, sid: Sid, ttl: nat)
    requires Steady(s) && CanMove(s, m) && LiveThrough(s, m, sid, ttl) && sid != ""
    requires m.Login? ==> m.user != ""
    requires User(s.store, sid) != ""
    ensures User(StoreAfter(s, m, ttl), sid) == "" <==> m.PostSession? && BoundTo(s.store, m, sid).Some?
  {
    UserAfterMove(s, m, sid, ttl);
    hide Live, UserOf, StoreAfter, CanMove, Inv;
  }

  /** No POST /session on the id takes effect, and logins name a user. */
  ghost predicate NothingClears(s: Server, moves: seq<Move>, sid: Sid, ttl: nat)
    requires CanRun(s, moves, ttl)
    decreases |moves|
  {
    |moves| == 0 ||
    ((moves[0].Login? ==> moves[0].user != "") &&
     (moves[0].PostSession? ==> BoundTo(s.store, moves[0], sid).None?) &&
     NothingClears(Step(s, moves[0], ttl), moves[1..], sid, ttl))
  }

  ghost function RunMoves(s: Server, moves: seq<Move>, ttl: nat): Server
    requires CanRun(s, moves, ttl)
    decreases |moves|
  {
    if |moves| == 0 then s else RunMoves(Step(s, moves[0], ttl), moves[1..], ttl)
  }

  /** Through any such run, however requests interleave, a session that stays live keeps some user. */
  lemma {:induction false} BoundStaysBound(s: Server, moves: seq<Move>, sid: Sid, ttl: nat)
    requires Steady(s) && CanRun(s, moves, ttl) && NothingClears(s, moves, sid, ttl)
    requires sid != "" && Live(s.store.hashes, sid, s.store.now) && User(s.store, sid) != ""
    ensures var t := RunMoves(s, moves, ttl).store;
            Live(t.hashes, sid, t.now) ==> User(t, sid) != ""
    decreases |moves|
  {
    hide Inv, Live, UserOf, Next, BoundTo;
    if |moves| > 0 {
      var m, t := moves[0], Step(s, moves[0], ttl);
      StepKeepsSteady(s, m, ttl);
      if Live(t.store.hashes, sid, t.store.now) {
        OnlyPostSessionClears(s, m, sid, ttl);
        BoundStaysBound(t, moves[1..], sid, ttl);
      } else {
        LiveIsIssued(s.store, sid);
        StoreKeepsInv(s, m, ttl);
        DeadStaysDeadInRun(t, moves[1..], sid, ttl);
      }
    }
  }

  lemma {:induction false} DeadStaysDeadInRun(s: Server, moves: seq<Move>, sid: Sid, ttl: nat)
    requires Steady(s) && CanRun(s, moves, ttl) && sid in s.store.issued && !Live(s.store.hashes, sid, s.store.now)
    ensures !Live(RunMoves(s, moves, ttl).store.hashes, sid, RunMoves(s, moves, ttl).store.now)
    decreases |moves|
  {
    hide Inv, Live, Next, Enabled;
    if |moves| > 0 {
      StepKeepsSteady(s, moves[0], ttl);
      StoreKeepsInv(s, moves[0], ttl);
      if Live(StoreAfter(s, moves[0], ttl).hashes, sid, StoreAfter(s, moves[0], ttl).now) {
        LiveBefore(s, moves[0], sid, ttl);
      }
      DeadStaysDeadInRun(Step(s, moves[0], ttl), moves[1..], sid, ttl);
    }
  }

  // ---- Which runs keep to logins and POST /session ----------------------------------------

  /** The end of an action changes the user of its session. */
  ghost predicate Undoes(s: Server, m: Move, ttl: nat)
    requires CanMove(s, m)
  {
    m.End? && Changes(s, m, s.flights[m.job].sid, ttl)
  }

  /** In the run only logins and POST /session change the user of a session that stays live. */
  ghost predicate OnlyBindingsChange(s: Server, moves: seq<Move>, ttl: nat)
    requires CanRun(s, moves, ttl)
    decreases |moves|
  {
    |moves| == 0 ||
    ((forall sid :: sid != "" && Changes(s, moves[0], sid, ttl) ==> BoundTo(s.store, moves[0], sid).Some?) &&
     OnlyBindingsChange(Step(s, moves[0], ttl), moves[1..], ttl))
  }

  /** An action extends a live session that logins and POST /session gave to another user after it read it. */
  predicate Crossed(s: Server, m: Move) {
    && m.End? && m.job in s.flights && m.ok && !m.w.Lost?
    && Live(s.store.hashes, s.flights[m.job].sid, s.store.now)
    && s.flights[m.job].since != s.flights[m.job].user
  }

  ghost predicate Uncrossed(s: Server, moves: seq<Move>, ttl: nat)
    requires CanRun(s, moves, ttl)
    decreases |moves|
  {
    |moves| == 0 || (!Crossed(s, moves[0]) && Uncrossed(Step(s, moves[0], ttl), moves[1..], ttl))
  }

  /** Every live session belongs to whom logins and POST /session gave it since each read in flight. */
  ghost predicate Tracked(s: Server) {
    forall job :: job in s.flights && Live(s.store.hashes, s.flights[job].sid, s.store.now) ==>
      User(s.store, s.flights[job].sid) == s.flights[job].since
  }

  lemma OnlyItsOwn(s: Server, m: Move, ttl: nat)
    requires Steady(s) && CanMove(s, m)
    ensures (forall sid :: sid != "" && Changes(s, m, sid, ttl) ==> BoundTo(s.store, m, sid).Some?) <==>
            !Undoes(s, m, ttl)
  {
    hide Inv, StoreAfter, Live, UserOf;
    forall sid | sid != "" && LiveThrough(s, m, sid, ttl)
      ensures User(StoreAfter(s, m, ttl), sid) ==
        if BoundTo(s.store, m, sid).Some? then BoundTo(s.store, m, sid).value
        else if Extends(s, m, sid) then s.flights[m.job].user
        else User(s.store, sid)
    {
      UserAfterMove(s, m, sid, ttl);
    }
  }

  /** An extension that takes effect leaves its session live and with the user it wrote. */
  lemma ExtensionGives(s: State, sid: Sid, newSid: Sid, user: string, w: Write, ttl: nat)
    requires Inv(s) && Live(s.hashes, sid, s.now) && newSid !in s.issued && !w.Lost? && ttl > 0
    ensures var v := Next(s, Extend(sid, newSid, user, true, w), ttl);
            && Inv(v) && Live(v.hashes, sid, v.now) && User(v, sid) == user
            && v.issued == s.issued + {newSid} && v.now == s.now
  {
    hide Inv, ExtendedFor, Format, Parse, FourDigitYear;
    NextKeepsInv(s, Extend(sid, newSid, user, true, w), ttl);
    ExtendLive(s, sid, newSid, user, w, ttl);
  }

  lemma ExtendedIsLive(s: Server, m: Move, ttl: nat)
    requires Steady(s) && CanMove(s, m) && m.End? && m.ok && !m.w.Lost? && ttl > 0
    requires Live(s.store.hashes, s.flights[m.job].sid, s.store.now)
    ensures LiveThrough(s, m, s.flights[m.job].sid, ttl)
  {
    hide Inv, Live, Next, UserOf;
    ExtensionGives(s.store, s.flights[m.job].sid, m.newSid, s.flights[m.job].user, m.w, ttl);
  }

  lemma CrossedUndoes(s: Server, m: Move, ttl: nat)
    requires Steady(s) && Tracked(s) && CanMove(s, m) && ttl > 0
    ensures Undoes(s, m, ttl) <==> Crossed(s, m)
  {
    hide Inv, StoreAfter, Live, UserOf;
    if m.End? {
      var sid := s.flights[m.job].sid;
      if LiveThrough(s, m, sid, ttl) { UserAfterMove(s, m, sid, ttl); }
      if Crossed(s, m) { ExtendedIsLive(s, m, ttl); }
    }
  }

  lemma LiveBefore(s: Server, m: Move, sid: Sid, ttl: nat)
    requires Steady(s) && CanMove(s, m) && sid in s.store.issued
    requires Live(StoreAfter(s, m, ttl).hashes, sid, StoreAfter(s, m, ttl).now)
    ensures Live(s.store.hashes, sid, s.store.now)
  {
    hide Inv, Next, Live, Enabled;
    var c := CallOf(s.flights, m);
    if c.Some? && !Live(s.store.hashes, sid, s.store.now) { DeadStaysDeadOnce(s.store, c.value, sid, ttl); }
  }

  lemma NewFlightTracked(s: Server, m: Move)
    requires Steady(s) && m.Begin? && Authorized(s.store.hashes, m.sid, s.store.now, m.get).Allowed?
    ensures User(s.store, m.sid) == Authorized(s.store.hashes, m.sid, s.store.now, m.get).user
  {
    hide Inv, Live, Authorized;
    AllowedExactly(s.store, m.sid, m.get);
  }

  lemma StepKeepsTracked(s: Server, m: Move, ttl: nat)
    requires Steady(s) && Tracked(s) && CanMove(s, m) && !Undoes(s, m, ttl)
    ensures Tracked(Step(s, m, ttl))
  {
    hide Inv, Live, UserOf, Authorized, Enabled, Next;
    var t := Step(s, m, ttl);
    forall job | job in t.flights && Live(t.store.hashes, t.flights[job].sid, t.store.now)
      ensures User(t.store, t.flights[job].sid) == t.flights[job].since
    {
      if job in s.flights {
        var sid := s.flights[job].sid;
        LiveBefore(s, m, sid, ttl);
        UserAfterMove(s, m, sid, ttl);
      } else {
        NewFlightTracked(s, m);
      }
    }
  }

  /**
   * Only logins and POST /session change the user of a live session, in exactly the runs in which no
   * action extends a session that they gave to another user between its read and its extension.
   */
  lemma {:induction false} OnlyBindingsChangeExactly(s: Server, moves: seq<Move>, ttl: nat)
    requires Steady(s) && Tracked(s) && CanRun(s, moves, ttl) && ttl > 0
    ensures OnlyBindingsChange(s, moves, ttl) <==> Uncrossed(s, moves, ttl)
    decreases |moves|
  {
    hide Steady, Tracked, Changes, Crossed, Step, CanMove, BoundTo;
    if |moves| > 0 {
      var m := moves[0];
      OnlyItsOwn(s, m, ttl);
      CrossedUndoes(s, m, ttl);
      if !Undoes(s, m, ttl) {
        StepKeepsSteady(s, m, ttl);
        StepKeepsTracked(s, m, ttl);
        OnlyBindingsChangeExactly(Step(s, m, ttl), moves[1..], ttl);
      }
    }
  }

  /** No login or POST /session takes effect on an id while an action on it is in flight. */
  ghost predicate Quiet(s: Server, moves: seq<Move>, ttl: nat)
    requires CanRun(s, moves, ttl)
    decreases |moves|
  {
    |moves| == 0 ||
    ((forall job :: job in s.flights ==> BoundTo(s.store, moves[0], s.flights[job].sid).None?) &&
     Quiet(Step(s, moves[0], ttl), moves[1..], ttl))
  }

  lemma {:induction false} QuietIsUncrossed(s: Server, moves: seq<Move>, ttl: nat)
    requires CanRun(s, moves, ttl) && Quiet(s, moves, ttl)
    requires forall job :: job in s.flights ==> s.flights[job].since == s.flights[job].user
    ensures Uncrossed(s, moves, ttl)
    decreases |moves|
  {
    hide BoundTo, Authorized, StoreAfter, CanMove, Live;
    if |moves| > 0 {
      QuietIsUncrossed(Step(s, moves[0], ttl), moves[1..], ttl);
    }
  }

  /** So it holds in every run that starts with no action in flight and is quiet. */
  lemma QuietRunsKeepToBindings(s: Server, moves: seq<Move>, ttl: nat)
    requires Inv(s.store) && s.flights == map[] && CanRun(s, moves, ttl) && ttl > 0 && Quiet(s, moves, ttl)
    ensures OnlyBindingsChange(s, moves, ttl)
  {
    QuietIsUncrossed(s, moves, ttl);
    OnlyBindingsChangeExactly(s, moves, ttl);
  }

  /** It does not hold in general: an action that read its session before a login undoes the login. */
  lemma ActionUndoesLogin(s: Server, sid: Sid, job: nat, user: string, newSid: Sid, otherSid: Sid, ttl: nat)
    requires Inv(s.store) && s.flights == map[] && ttl > 0 && sid != ""
    requires Live(s.store.hashes, sid, s.store.now) && User(s.store, sid) != "" && user != User(s.store, sid)
    requires newSid !in s.store.issued && otherSid !in s.store.issued && newSid != otherSid
    ensures var begin, login := Begin(job, sid, true), Login(sid, newSid, user, true, Acked);
            var end := End(job, otherSid, true, Acked);
            && CanMove(s, begin)
            && var a := Step(s, begin, ttl);
            && CanMove(a, login)
            && var b := Step(a, login, ttl);
            && User(b.store, sid) == user
            && CanMove(b, end)
            && var c := Step(b, end, ttl);
            && Live(c.store.hashes, sid, c.store.now) && User(c.store, sid) == User(s.store, sid)
  {
    hide Inv, Live, UserOf, Authorized, Next;
    var a := Step(s, Begin(job, sid, true), ttl);
    AllowedExactly(s.store, sid, true);
    ExtensionGives(s.store, sid, newSid, user, Acked, ttl);
    var b := Step(a, Login(sid, newSid, user, true, Acked), ttl);
    ExtensionGives(b.store, sid, otherSid, User(s.store, sid), Acked, ttl);
  }

  /** An action that nothing interrupts leaves what the handler's method leaves. */
  lemma ActionAlone(s: Server, job: nat, sid: Sid, newSid: Sid, get: bool, ok: bool, w: Write, ttl: nat)
    requires job !in s.flights && newSid !in s.store.issued
    ensures var access := Authorized(s.store.hashes, sid, s.store.now, get);
            var t := Step(s, Begin(job, sid, get), ttl);
            && CanMove(s, Begin(job, sid, get)) && t.store == s.store
            && (job in t.flights <==> access.Allowed?)
            && (access.Allowed? ==>
                  && CanMove(t, End(job, newSid, ok, w)) && Step(t, End(job, newSid, ok, w), ttl).flights == s.flights
                  && Step(t, End(job, newSid, ok, w), ttl).store.hashes ==
                     ExtendedFor(s.store.hashes, sid, newSid, access.user, s.store.now, ttl, ok, w))
  {
    hide Format, Parse, FourDigitYear, Authorized, ExtendedFor;
  }
}
