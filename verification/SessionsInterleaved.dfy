/**
 * SetOrUpdate split into its read and its write, interleaved with Set, Delete, expiry and any number
 * of other SetOrUpdates. The mutex is left out: what holds here holds with it and across processes.
 */
module SessionsInterleaved {
  import opened Backend
  import opened Text
  import opened Rfc3339
  import opened Sessions
  import opened SessionRuns

  /** A SetOrUpdate between its read and its write: its request and the text it read. */
  datatype Update = Update(sid: Sid, newSid: Sid, v: Value, read: Option<string>)

  /** `stored` remembers every creation text ever written under a SID; the service does not keep it. */
  datatype Shared = Shared(hashes: Hashes, now: Instant, issued: set<Sid>, updates: map<nat, Update>,
    stored: set<(Sid, string)>)

  datatype Move =
    | SetFresh(newSid: Sid, v: Value, w: Write)
    | ReadCreated(job: nat, sid: Sid, newSid: Sid, v: Value)
    | WriteBack(job: nat, w: Write)
    | Remove(sid: Sid, w: Write)
    | Tick(seconds: nat)

  function Planned(u: Update): Option<(Sid, Value)> {
    Target(u.read, u.sid, u.newSid, u.v)
  }

  /** A text that cannot be parsed ends the call, so a waiting update always has a plan. */
  predicate Allowed(s: Shared, m: Move) {
    match m
    case SetFresh(newSid, v, w) => newSid !in s.issued
    case ReadCreated(job, sid, newSid, v) =>
      job !in s.updates && newSid !in s.issued &&
      Planned(Update(sid, newSid, v, FieldText(s.hashes, sid, CreatedAt, s.now))).Some?
    case WriteBack(job, w) => job in s.updates && Planned(s.updates[job]).Some?
    case Remove(sid, w) => true
    case Tick(seconds) => s.now + seconds < 315601142400
  }

  /** The one write of a Set or SetOrUpdate. */
  function Written(s: Shared, sid: Sid, v: Value, w: Write, ttl: nat): Shared {
    if w.Lost? then s
    else s.(hashes := SetValue(s.hashes, sid, v, s.now, ttl), stored := s.stored + {(sid, Format(v.createdAt))})
  }

  function After(s: Shared, m: Move, ttl: nat): Shared
    requires Allowed(s, m)
  {
    match m
    case SetFresh(newSid, v, w) => Written(s.(issued := s.issued + {newSid}), newSid, v, w, ttl)
    case ReadCreated(job, sid, newSid, v) =>
      s.(issued := s.issued + {newSid},
         updates := s.updates[job := Update(sid, newSid, v, FieldText(s.hashes, sid, CreatedAt, s.now))])
    case WriteBack(job, w) =>
      var plan := Planned(s.updates[job]).value;
      Written(s.(updates := s.updates - {job}), plan.0, plan.1, w, ttl)
    case Remove(sid, w) => if w.Lost? then s else s.(hashes := s.hashes - {sid})
    case Tick(seconds) => s.(now := s.now + seconds)
  }

  ghost predicate Reachable(s: Shared, moves: seq<Move>, t: Shared, ttl: nat)
    decreases |moves|
  {
    if |moves| == 0 then t == s
    else Allowed(s, moves[0]) && Reachable(After(s, moves[0], ttl), moves[1..], t, ttl)
  }

  ghost predicate Empty(s: Shared) {
    s.hashes == map[] && s.updates == map[] && s.stored == {} && s.issued == {}
  }

  // ---- The invariant --------------------------------------------------------------------

  ghost predicate OneText(stored: set<(Sid, string)>) {
    forall a, b :: a in stored && b in stored && a.0 == b.0 ==> a.1 == b.1
  }

  ghost predicate EverStored(s: Shared, sid: Sid) {
    exists text :: (sid, text) in s.stored
  }

  /** An update that read a text rewrites that text; one that read none writes a SID of its own. */
  ghost predicate Sound(s: Shared, u: Update) {
    if u.read.Some? then (u.sid, u.read.value) in s.stored && Parse(u.read.value).Some? && u.sid != u.newSid
    else u.newSid in s.issued && !EverStored(s, u.newSid)
  }

  ghost predicate OwnSids(updates: map<nat, Update>) {
    forall i, j :: i in updates && j in updates && i != j && updates[i].read.None? && updates[j].read.None? ==>
      updates[i].newSid != updates[j].newSid
  }

  ghost predicate Good(s: Shared) {
    && Whole(s.hashes)
    && (forall sid :: sid in s.hashes && CreatedAt in s.hashes[sid] ==>
      (sid, s.hashes[sid][CreatedAt].text) in s.stored)
    && OneText(s.stored)
    && (forall a :: a in s.stored ==> a.0 in s.issued)
    && (forall job :: job in s.updates ==> Sound(s, s.updates[job]))
    && OwnSids(s.updates)
  }

  lemma EmptyIsGood(s: Shared)
    requires Empty(s)
    ensures Good(s)
  {
  }

  /** A write is harmless when its SID never held another creation text. */
  lemma WrittenKeepsStore(s: Shared, sid: Sid, v: Value, w: Write, ttl: nat)
    requires Good(s) && sid in s.issued
    requires forall text :: (sid, text) in s.stored ==> text == Format(v.createdAt)
    ensures var t := Written(s, sid, v, w, ttl);
            && Whole(t.hashes)
            && (forall x :: x in t.hashes && CreatedAt in t.hashes[x] ==> (x, t.hashes[x][CreatedAt].text) in t.stored)
            && OneText(t.stored)
            && (forall a :: a in t.stored ==> a.0 in t.issued)
  {
    hide Format, Parse;
    SetValueWhole(s.hashes, sid, v, s.now, ttl);
  }

  /** Other updates stay sound when a SID that none of them is about to create is written. */
  lemma WrittenKeepsSound(s: Shared, sid: Sid, v: Value, w: Write, ttl: nat, u: Update)
    requires Sound(s, u) && (u.read.None? ==> u.newSid != sid)
    ensures Sound(Written(s, sid, v, w, ttl), u)
  {
    hide Format, Parse;
  }

  lemma PlanText(s: Shared, u: Update)
    requires Good(s) && Sound(s, u) && Planned(u).Some?
    ensures forall text :: (Planned(u).value.0, text) in s.stored ==> text == Format(Planned(u).value.1.createdAt)
    ensures u.read.Some? ==> Planned(u).value.0 == u.sid && Format(Planned(u).value.1.createdAt) == u.read.value
    ensures u.read.None? ==> Planned(u).value == (u.newSid, u.v)
    ensures Planned(u).value.0 in s.issued
  {
    if u.read.Some? { FormatParse(u.read.value); }
    hide Format, Parse;
  }

  lemma WriteBackKeepsGood(s: Shared, job: nat, w: Write, ttl: nat)
    requires Good(s) && Allowed(s, WriteBack(job, w))
    ensures Good(After(s, WriteBack(job, w), ttl))
  {
    hide Format, Parse;
    var u := s.updates[job];
    var plan := Planned(u).value;
    PlanText(s, u);
    var s' := s.(updates := s.updates - {job});
    assert Good(s') by {
      forall j | j in s'.updates ensures Sound(s', s'.updates[j]) { assert Sound(s, s.updates[j]); }
    }
    WrittenKeepsStore(s', plan.0, plan.1, w, ttl);
    var t := Written(s', plan.0, plan.1, w, ttl);
    forall j | j in t.updates
      ensures Sound(t, t.updates[j])
    {
      assert Sound(s', s'.updates[j]);
      WrittenKeepsSound(s', plan.0, plan.1, w, ttl, s'.updates[j]);
    }
  }

  lemma SetFreshKeepsGood(s: Shared, newSid: Sid, v: Value, w: Write, ttl: nat)
    requires Good(s) && newSid !in s.issued
    ensures Good(After(s, SetFresh(newSid, v, w), ttl))
  {
    hide Format, Parse;
    var s' := s.(issued := s.issued + {newSid});
    assert Good(s') by {
      forall j | j in s'.updates ensures Sound(s', s'.updates[j]) { assert Sound(s, s.updates[j]); }
    }
    WrittenKeepsStore(s', newSid, v, w, ttl);
    var t := Written(s', newSid, v, w, ttl);
    forall j | j in t.updates
      ensures Sound(t, t.updates[j])
    {
      assert Sound(s, s.updates[j]);
      WrittenKeepsSound(s', newSid, v, w, ttl, s'.updates[j]);
    }
  }

  lemma ReadKeepsGood(s: Shared, job: nat, sid: Sid, newSid: Sid, v: Value, ttl: nat)
    requires Good(s) && Allowed(s, ReadCreated(job, sid, newSid, v))
    ensures Good(After(s, ReadCreated(job, sid, newSid, v), ttl))
  {
    hide Format, Parse;
    var t := After(s, ReadCreated(job, sid, newSid, v), ttl);
    assert Sound(t, t.updates[job]);
    forall j | j in t.updates
      ensures Sound(t, t.updates[j])
    {
      if j != job { assert Sound(s, s.updates[j]); }
    }
    forall i, j | i in t.updates && j in t.updates && i != j && t.updates[i].read.None? && t.updates[j].read.None?
      ensures t.updates[i].newSid != t.updates[j].newSid
    {
      if i != job { assert Sound(s, s.updates[i]); }
      if j != job { assert Sound(s, s.updates[j]); }
    }
  }

  lemma AfterKeepsGood(s: Shared, m: Move, ttl: nat)
    requires Good(s) && Allowed(s, m)
    ensures Good(After(s, m, ttl))
  {
    match m
    case SetFresh(newSid, v, w) => SetFreshKeepsGood(s, newSid, v, w, ttl);
    case ReadCreated(job, sid, newSid, v) => ReadKeepsGood(s, job, sid, newSid, v, ttl);
    case WriteBack(job, w) => WriteBackKeepsGood(s, job, w, ttl);
    case Remove(sid, w) =>
      hide Format, Parse;
      var t := After(s, m, ttl);
      forall j | j in t.updates ensures Sound(t, t.updates[j]) { assert Sound(s, s.updates[j]); }
    case Tick(seconds) =>
      hide Format, Parse;
      var t := After(s, m, ttl);
      forall j | j in t.updates ensures Sound(t, t.updates[j]) { assert Sound(s, s.updates[j]); }
  }

  lemma {:induction false} RunKeepsGood(s: Shared, moves: seq<Move>, t: Shared, ttl: nat)
    requires Good(s) && Reachable(s, moves, t, ttl)
    ensures Good(t)
    decreases |moves|
  {
    if |moves| > 0 {
      AfterKeepsGood(s, moves[0], ttl);
      RunKeepsGood(After(s, moves[0], ttl), moves[1..], t, ttl);
    }
  }

  // ---- What every interleaving keeps ----------------------------------------------------

  /** All creation texts ever stored for a SID are identical, and a session has all its fields or none. */
  lemma OneCreationText(s: Shared, moves: seq<Move>, t: Shared, ttl: nat)
    requires Empty(s) && Reachable(s, moves, t, ttl)
    ensures forall a, b :: a in t.stored && b in t.stored && a.0 == b.0 ==> a.1 == b.1
    ensures forall sid, f: Field :: FieldText(t.hashes, sid, f, t.now).Some? <==> Live(t.hashes, sid, t.now)
    ensures forall sid :: Live(t.hashes, sid, t.now) ==> (sid, CreatedText(t.hashes, sid, t.now)) in t.stored
  {
    hide Format, Parse, FieldText, Reachable;
    EmptyIsGood(s);
    RunKeepsGood(s, moves, t, ttl);
    forall sid, f: Field ensures FieldText(t.hashes, sid, f, t.now).Some? <==> Live(t.hashes, sid, t.now) {
      AllOrNone(t.hashes, sid, t.now);
    }
    forall sid | Live(t.hashes, sid, t.now) ensures (sid, CreatedText(t.hashes, sid, t.now)) in t.stored {
      LiveIsStored(t, sid);
    }
  }

  lemma LiveIsStored(s: Shared, sid: Sid)
    requires Good(s) && Live(s.hashes, sid, s.now)
    ensures (sid, CreatedText(s.hashes, sid, s.now)) in s.stored
  {
  }

  /** A waiting update that saw the session alive. */
  predicate Holds(u: Update, sid: Sid) {
    u.read.Some? && u.sid == sid
  }

  lemma WrittenLive(s: Shared, target: Sid, v: Value, w: Write, ttl: nat, sid: Sid)
    ensures Live(Written(s, target, v, w, ttl).hashes, sid, s.now) <==>
            if target == sid && !w.Lost? then ttl > 0 else Live(s.hashes, sid, s.now)
  {
    hide Format;
  }

  lemma StoredIsIssued(s: Shared, sid: Sid)
    requires Good(s) && EverStored(s, sid)
    ensures sid in s.issued
  {
    var text :| (sid, text) in s.stored;
  }

  /** A dead session comes back exactly when an update that read it alive writes it afterwards. */
  lemma RevivedExactly(s: Shared, m: Move, sid: Sid, ttl: nat)
    requires Good(s) && Allowed(s, m) && EverStored(s, sid) && !Live(s.hashes, sid, s.now)
    ensures var t := After(s, m, ttl);
            Live(t.hashes, sid, t.now) <==> m.WriteBack? && Holds(s.updates[m.job], sid) && !m.w.Lost? && ttl > 0
  {
    StoredIsIssued(s, sid);
    match m
    case SetFresh(newSid, v, w) =>
      WrittenLive(s.(issued := s.issued + {newSid}), newSid, v, w, ttl, sid);
      hide Good, Live, Written;
    case WriteBack(job, w) =>
      var u := s.updates[job];
      assert Sound(s, u);
      PlanText(s, u);
      WrittenLive(s.(updates := s.updates - {job}), Planned(u).value.0, Planned(u).value.1, w, ttl, sid);
      hide Good, Live, Written, Planned, Parse, Format;
    case _ =>
      hide Good, Planned, Format, Parse;
  }

  ghost predicate NobodyHolds(s: Shared, sid: Sid) {
    forall job :: job in s.updates ==> !Holds(s.updates[job], sid)
  }

  /** A session that died with no update holding it is dead for good, whatever runs concurrently. */
  lemma {:induction false} DeadWithoutHolderStaysDead(s: Shared, moves: seq<Move>, t: Shared, sid: Sid, ttl: nat)
    requires Good(s) && Reachable(s, moves, t, ttl)
    requires EverStored(s, sid) && !Live(s.hashes, sid, s.now) && NobodyHolds(s, sid)
    ensures !Live(t.hashes, sid, t.now)
    decreases |moves|
  {
    hide Format, Parse, Good;
    if |moves| > 0 {
      var v := After(s, moves[0], ttl);
      RevivedExactly(s, moves[0], sid, ttl);
      AfterKeepsGood(s, moves[0], ttl);
      DeadWithoutHolderStaysDead(v, moves[1..], t, sid, ttl);
    }
  }

  /**
   * The split is visible exactly when liveness changed between the read and the write: otherwise the
   * write leaves the hashes an uninterrupted SetOrUpdate would have left at that moment.
   */
  lemma SplitIsAtomicExactly(s: Shared, job: nat, w: Write, ttl: nat)
    requires Good(s) && Allowed(s, WriteBack(job, w)) && ttl > 0
    ensures var u := s.updates[job];
            After(s, WriteBack(job, w), ttl).hashes == Updated(s.hashes, u.sid, u.newSid, u.v, s.now, ttl, true, w) <==>
            w.Lost? || (Live(s.hashes, u.sid, s.now) <==> u.read.Some?)
  {
    hide Format, Parse;
    var u := s.updates[job];
    assert Sound(s, u);
    PlanText(s, u);
    if Live(s.hashes, u.sid, s.now) { LiveIsStored(s, u.sid); }
    if w.Lost? {
    } else if Live(s.hashes, u.sid, s.now) <==> u.read.Some? {
      assert FieldText(s.hashes, u.sid, CreatedAt, s.now) == u.read;
    } else {
      var t := After(s, WriteBack(job, w), ttl);
      WrittenLive(s.(updates := s.updates - {job}), Planned(u).value.0, Planned(u).value.1, w, ttl, Planned(u).value.0);
      assert Live(t.hashes, Planned(u).value.0, s.now);
      OtherWriteIsElsewhere(s, u, ttl, w);
    }
  }

  /** When liveness changed, an uninterrupted call would not make the planned SID live. */
  lemma OtherWriteIsElsewhere(s: Shared, u: Update, ttl: nat, w: Write)
    requires Good(s) && Sound(s, u) && Planned(u).Some? && !(Live(s.hashes, u.sid, s.now) <==> u.read.Some?)
    ensures !Live(Updated(s.hashes, u.sid, u.newSid, u.v, s.now, ttl, true, w), Planned(u).value.0, s.now)
  {
    hide Format, Parse;
    PlanText(s, u);
    if Live(s.hashes, u.sid, s.now) { LiveIsStored(s, u.sid); }
    if Live(s.hashes, u.newSid, s.now) { LiveIsStored(s, u.newSid); }
  }
}
