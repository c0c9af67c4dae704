/** Whole runs of the review service, and what one review call changes. */
module ReviewRuns {
  import opened Backend
  import opened Text
  import opened TitleCache
  import opened EventStore
  import opened Reviews
  import opened CallRuns

  datatype Call =
    | AddEventCall(id: Id, doc: Doc, insert: Write)
    | PatchEvent(req: string, caller: User, patch: Patch, ok: bool, w: Write)
    | Create(create: CreateReq, createdAt: int, createFaults: CreateFaults)
    | Update(update: UpdateReq, updatedAt: int, updateFaults: UpdateFaults)
    | Read(title: Title, readFaults: ReadFaults)
    | Wait(seconds: nat)

  /** Event ids are fresh and canonical, and review ids are fresh. */
  ghost predicate Legal(w: W, c: Call) {
    match c
    case AddEventCall(id, doc, insert) => id !in w.events && IsCanonical(id)
    case Create(q, now, f) => forall k :: k in w.rows ==> w.rows[k].id != q.id
    case _ => true
  }

  ghost function StepsOf(w: W, c: Call, ttl: nat): seq<Step<Review>> {
    match c
    case AddEventCall(id, doc, insert) => if insert.Lost? then [] else [AddEvent(id, doc)]
    case PatchEvent(req, caller, p, ok, o) =>
      (match PatchTarget(w.events, req, caller, p, o)
       case None => []
       case Some(id) => [EditEvent(id, Patched(w.events[id], p))])
    case Create(q, now, f) => CreateSteps(w, q, now, f, ttl)
    case Update(q, now, f) => UpdateSteps(w, q, now, f, ttl)
    case Read(title, f) => ReadSteps(w, title, f, ttl, Summarize, Summary(0, 0))
    case Wait(seconds) => [Elapse(seconds)]
  }

  ghost function Machine(ttl: nat): Service<Call, Review, Summary> {
    Service((w, c) => Legal(w, c), (w, c) => StepsOf(w, c, ttl), Summarize)
  }

  // ---- The shape of one call ------------------------------------------------------------

  /** The row a call stores, if any. */
  ghost function Stored(w: W, c: Call): Option<(RowKey, Review)> {
    match c
    case Create(q, now, f) =>
      if Find(w.events, q.event, f.getEvent).Found? && Inserts(w.rows, RowKey(q.event, q.user), f.check, f.insert)
      then Some((RowKey(q.event, q.user), Review(q.id, q.rating, q.comment, now, now))) else None
    case Update(q, now, f) =>
      if Find(w.events, q.event, f.getEvent).Found? && f.get && Owns(w.rows, q) && f.reread && !f.write.Lost?
      then Some((RowKey(q.event, q.user), Rewritten(w.rows[RowKey(q.event, q.user)], q.rating, q.comment, now)))
        else None
    case _ => None
  }

  /** The title whose entry a storing call overwrites, if it gets that far. */
  ghost function Refreshed(w: W, c: Call): Option<Title> {
    var acked := match c
      case Create(q, now, f) => f.insert.Acked?
      case Update(q, now, f) => f.write.Acked?
      case _ => false;
    var req := match c case Create(q, now, f) => q.event case Update(q, now, f) => q.event case _ => "";
    var f := match c
      case Create(q, now, f) => f.cache
      case Update(q, now, f) => f.cache
      case _ => CacheFaults(false, false, false, Lost);
    var found := Find(w.events, req, f.getEvent);
    if Stored(w, c).Some? && acked && found.Found? && f.list && f.stats &&
      !f.publish.Lost? then Some(found.doc.title) else None
  }

  lemma StoringSteps(w: W, c: Call, ttl: nat)
    requires c.Create? || c.Update?
    ensures StepsOf(w, c, ttl) ==
      if Stored(w, c).None? then []
      else if Refreshed(w, c).None? then [PutRow(Stored(w, c).value.0, Stored(w, c).value.1)]
      else [PutRow(Stored(w, c).value.0, Stored(w, c).value.1), Publish(Refreshed(w, c).value, ttl)]
  {
  }

  lemma CallPossible(w: W, c: Call, ttl: nat)
    requires WellKeyed(w) && Legal(w, c)
    ensures Possible(w, StepsOf(w, c, ttl), Summarize)
  {
    match c
    case AddEventCall(id, doc, insert) => RunOne(w, AddEvent(id, doc), Summarize);
    case PatchEvent(req, caller, p, ok, o) =>
      var t := PatchTarget(w.events, req, caller, p, o);
      if t.Some? { RunOne(w, EditEvent(t.value, Patched(w.events[t.value], p)), Summarize); }
    case Read(title, f) => RunOne(w, Publish(title, ttl), Summarize);
    case Wait(seconds) => RunOne(w, Elapse(seconds), Summarize);
    case _ =>
      StoringSteps(w, c, ttl);
      if Stored(w, c).Some? {
        var put := PutRow(Stored(w, c).value.0, Stored(w, c).value.1);
        RunOne(w, put, Summarize);
        if Refreshed(w, c).Some? { RunTwo(w, put, Publish(Refreshed(w, c).value, ttl), Summarize); }
      }
  }

  /** A review call whose row was stored under the title but whose own cache refresh did not go through. */
  ghost predicate FailedRefresh(w: W, c: Call, title: Title) {
    Stored(w, c).Some? && Stored(w, c).value.0.event in EventsOf(w.events, title) && Refreshed(w, c).None?
  }

  lemma PendingIsFailedRefresh(w: W, c: Call, title: Title, ttl: nat)
    ensures Pending(w, StepsOf(w, c, ttl), title, Summarize) ==> FailedRefresh(w, c, title)
  {
    var steps := StepsOf(w, c, ttl);
    if c.Create? || c.Update? {
      StoringSteps(w, c, ttl);
      if |steps| == 2 && Stored(w, c).value.0.event in EventsOf(w.events, title) {
        assert steps[1].Publish? && steps[1].title == title;
      } else if |steps| > 0 {
        assert Run(w, steps[..0], Summarize) == w;
      }
    }
  }

  lemma MachineIsSane(ttl: nat)
    ensures Machine(ttl).Sane()
  {
    forall w: W, c: Call | WellKeyed(w) && Legal(w, c) ensures Possible(w, StepsOf(w, c, ttl), Summarize) {
      CallPossible(w, c, ttl);
    }
  }

  /** Whether the refresh of an event's summary takes effect, and what it writes. */
  ghost function RefreshedCache(v: W, title: Title, f: CacheFaults, ttl: nat): map<Title, Entry<Summary>> {
    if f.getEvent && f.list && f.stats && !f.publish.Lost?
    then v.cache[title := Entry(Recount(v, title, Summarize), v.now + ttl)] else v.cache
  }

  lemma PublishAfter(w: W, put: Step<Review>, title: Title, ttl: nat)
    requires put.PutRow?
    ensures var u := Apply(w, put, Summarize);
            Run(w, [put, Publish(title, ttl)], Summarize) ==
            u.(cache := u.cache[title := Entry(Recount(u, title, Summarize), u.now + ttl)])
  {
    RunTwo(w, put, Publish(title, ttl), Summarize);
  }

  /** What a create for a stored event leaves: its row unless the check saw one, then the refreshed summary. */
  lemma CreateExactly(w: W, q: CreateReq, now: int, f: CreateFaults, ttl: nat, id: Id)
    requires WellKeyed(w) && id in w.events && Spells(q.event, id)
    ensures var v := Run(w, CreateSteps(w, q, now, f, ttl), Summarize);
            var key := RowKey(q.event, q.user);
            var stored := f.getEvent && !(f.check && key in w.rows) && !f.insert.Lost?;
            var u := if stored then w.(rows := w.rows[key := Review(q.id, q.rating, q.comment, now, now)]) else w;
            v == if stored && f.insert.Acked?
                 then u.(cache := RefreshedCache(u, w.events[id].title, f.cache, ttl)) else u
  {
    hide Canonical, Summarize;
    FindExactly(w.events, q.event, f.getEvent);
    FindExactly(w.events, q.event, f.cache.getEvent);
    var put := PutRow(RowKey(q.event, q.user), Review(q.id, q.rating, q.comment, now, now));
    RunOne(w, put, Summarize);
    PublishAfter(w, put, w.events[id].title, ttl);
  }

  /** What an update for a stored event leaves: the caller's own review rewritten, then the refreshed summary. */
  lemma UpdateExactly(w: W, q: UpdateReq, now: int, f: UpdateFaults, ttl: nat, id: Id)
    requires WellKeyed(w) && id in w.events && Spells(q.event, id)
    ensures var v := Run(w, UpdateSteps(w, q, now, f, ttl), Summarize);
            var key := RowKey(q.event, q.user);
            var own := key in w.rows && w.rows[key].id == q.review;
            var stored := f.getEvent && f.get && f.reread && !f.write.Lost? && own;
            var u := if stored then w.(rows := w.rows[key := Rewritten(w.rows[key], q.rating, q.comment, now)]) else w;
            v == if stored && f.write.Acked?
                 then u.(cache := RefreshedCache(u, w.events[id].title, f.cache, ttl)) else u
  {
    hide Canonical, Summarize, Rewritten;
    FindExactly(w.events, q.event, f.getEvent);
    FindExactly(w.events, q.event, f.cache.getEvent);
    var key := RowKey(q.event, q.user);
    if key in w.rows {
      var put := PutRow(key, Rewritten(w.rows[key], q.rating, q.comment, now));
      RunOne(w, put, Summarize);
      PublishAfter(w, put, w.events[id].title, ttl);
    }
  }

  /** What an update answers: by whose review the requested id is, and by which of its calls fail. */
  lemma UpdateStatusExactly(w: W, q: UpdateReq, f: UpdateFaults)
    requires WellKeyed(w) && UniqueIds(w.rows)
    ensures var s := UpdateStatus(w.events, w.rows, q, f);
            var event := exists id :: id in w.events && Spells(q.event, id);
            var own := RowKey(q.event, q.user) in w.rows && w.rows[RowKey(q.event, q.user)].id == q.review;
            var other := exists k :: k in w.rows && k.event == q.event && k.user != q.user && w.rows[k].id == q.review;
            && (s == Ok <==> event && own && f.getEvent && f.get && f.reread && f.write.Acked?)
            && (s == Forbidden <==> event && other && f.getEvent && f.get)
            && (s == NotFound <==> f.getEvent && (!event || (f.get && !own && !other)))
            && (s == Ok || s == Forbidden || s == NotFound || s == Internal)
  {
    hide Canonical;
    FindExactly(w.events, q.event, f.getEvent);
    if Resolve(w.events, q.event).Some? { assert Spells(q.event, Resolve(w.events, q.event).value); }
    if Names(w.rows, q) {
      var k :| k in w.rows && k.event == q.event && w.rows[k].id == q.review;
      assert k == RowKey(q.event, k.user);
    }
  }

  /** Creating and patching events leaves what the event store's methods leave, and waiting moves the clock. */
  lemma EventCallsExactly(w: W, id: Id, doc: Doc, insert: Write, req: string, caller: User, p: Patch, ok: bool,
      o: Write, seconds: nat, ttl: nat)
    ensures Machine(ttl).After(w, AddEventCall(id, doc, insert)) ==
      if insert.Lost? then w else w.(events := w.events[id := doc])
    ensures Machine(ttl).After(w, PatchEvent(req, caller, p, ok, o)) ==
      match PatchTarget(w.events, req, caller, p, o)
      case None => w
      case Some(x) => w.(events := w.events[x := Patched(w.events[x], p)])
    ensures Machine(ttl).After(w, Wait(seconds)) == w.(now := w.now + seconds)
  {
    hide Summarize, Patched;
    RunOne(w, AddEvent(id, doc), Summarize);
    RunOne(w, Elapse(seconds), Summarize);
    var t := PatchTarget(w.events, req, caller, p, o);
    if t.Some? { RunOne(w, EditEvent(t.value, Patched(w.events[t.value], p)), Summarize); }
  }

  // ---- Coherence ------------------------------------------------------------------------

  ghost predicate LeftStale(w: W, calls: seq<Call>, title: Title, ttl: nat) {
    exists i :: 0 <= i < |calls|
      && FailedRefresh(Machine(ttl).Before(w, calls, i), calls[i], title)
      && forall j :: i < j < |calls| ==> !Machine(ttl).OverwrittenAt(w, calls, j, title)
  }

  /** The published summary is the recount in every run, unless a refresh failed and nothing overwrote it. */
  lemma CacheIsRecount(w: W, calls: seq<Call>, title: Title, ttl: nat)
    requires Empty(w) && Machine(ttl).LegalRun(w, calls)
    ensures Coherent(Machine(ttl).RunCalls(w, calls), title, Summarize) || LeftStale(w, calls, title, ttl)
  {
    var m := Machine(ttl);
    MachineIsSane(ttl);
    m.CacheIsRecount(w, calls, title);
    if m.LeftStale(w, calls, title) {
      var i :| 0 <= i < |calls| && m.FailedAt(w, calls, i, title)
        && forall j :: i < j < |calls| ==> !m.OverwrittenAt(w, calls, j, title);
      PendingIsFailedRefresh(m.Before(w, calls, i), calls[i], title, ttl);
    }
  }

  // ---- Rows over a run ------------------------------------------------------------------

  lemma RowsAfter(w: W, c: Call, ttl: nat)
    ensures Machine(ttl).After(w, c).rows ==
      if Stored(w, c).None? then w.rows else w.rows[Stored(w, c).value.0 := Stored(w, c).value.1]
    ensures forall e :: e in w.events ==> e in Machine(ttl).After(w, c).events
  {
    match c
    case AddEventCall(id, doc, insert) => RunOne(w, AddEvent(id, doc), Summarize);
    case PatchEvent(req, caller, p, ok, o) =>
      var t := PatchTarget(w.events, req, caller, p, o);
      if t.Some? { RunOne(w, EditEvent(t.value, Patched(w.events[t.value], p)), Summarize); }
    case Read(title, f) => RunOne(w, Publish(title, ttl), Summarize);
    case Wait(seconds) => RunOne(w, Elapse(seconds), Summarize);
    case _ =>
      StoringSteps(w, c, ttl);
      if Stored(w, c).Some? {
        var put := PutRow(Stored(w, c).value.0, Stored(w, c).value.1);
        RunOne(w, put, Summarize);
        if Refreshed(w, c).Some? { RunTwo(w, put, Publish(Refreshed(w, c).value, ttl), Summarize); }
      }
  }

  /** Ids stay unique, so a review id names one row. */
  lemma CallKeepsUniqueIds(w: W, c: Call, ttl: nat)
    requires UniqueIds(w.rows) && Legal(w, c)
    ensures UniqueIds(Machine(ttl).After(w, c).rows)
  {
    RowsAfter(w, c, ttl);
  }

  lemma {:induction false} RunKeepsUniqueIds(w: W, calls: seq<Call>, ttl: nat)
    requires UniqueIds(w.rows) && Machine(ttl).LegalRun(w, calls)
    ensures UniqueIds(Machine(ttl).RunCalls(w, calls).rows)
    decreases |calls|
  {
    if |calls| > 0 {
      var m, before := Machine(ttl), calls[..|calls| - 1];
      m.PrefixLegal(w, calls);
      RunKeepsUniqueIds(w, before, ttl);
      CallKeepsUniqueIds(m.RunCalls(w, before), calls[|calls| - 1], ttl);
    }
  }

  /**
   * An update that is reported done changed exactly one row: the one whose id was requested. It
   * keeps id, creation time and author (the author is in the key).
   */
  lemma UpdateRewritesRequested(w: W, q: UpdateReq, now: int, f: UpdateFaults, ttl: nat)
    requires UniqueIds(w.rows) && Stored(w, Update(q, now, f)).Some?
    ensures var v := Machine(ttl).After(w, Update(q, now, f));
            var key := RowKey(q.event, q.user);
            && v.rows.Keys == w.rows.Keys && key in w.rows
            && (forall k :: k in w.rows ==> (w.rows[k].id == q.review <==> k == key))
            && (forall k :: k in w.rows && k != key ==> v.rows[k] == w.rows[k])
            && v.rows[key].id == q.review && v.rows[key].createdAt == w.rows[key].createdAt
            && (q.rating.Some? ==> v.rows[key].rating == q.rating.value)
            && (q.rating.None? ==> v.rows[key].rating == w.rows[key].rating)
            && (q.comment.Some? ==> v.rows[key].comment == q.comment.value)
            && (q.comment.None? ==> v.rows[key].comment == w.rows[key].comment)
            && v.rows[key].updatedAt == now
  {
    RowsAfter(w, Update(q, now, f), ttl);
  }

  lemma TotalPut(rows: Table, k: RowKey, r: Review)
    ensures k in rows ==> Total(rows[k := r]) == Total(rows) + r.rating - rows[k].rating && |rows[k := r]| == |rows|
    ensures k !in rows ==> Total(rows[k := r]) == Total(rows) + r.rating && |rows[k := r]| == |rows| + 1
  {
    TotalWithout(rows[k := r], k);
    Smaller(rows[k := r], k);
    if k in rows {
      TotalWithout(rows, k);
      Smaller(rows, k);
      assert rows[k := r] - {k} == rows - {k};
    } else {
      assert rows[k := r] - {k} == rows;
    }
  }

  lemma EventsAfterStore(w: W, c: Call, ttl: nat)
    requires Stored(w, c).Some?
    ensures Machine(ttl).After(w, c).events == w.events
  {
    StoringSteps(w, c, ttl);
    var put := PutRow(Stored(w, c).value.0, Stored(w, c).value.1);
    RunOne(w, put, Summarize);
    if Refreshed(w, c).Some? { RunTwo(w, put, Publish(Refreshed(w, c).value, ttl), Summarize); }
  }

  /**
   * From a right, readable entry: one call leaves it right exactly unless the call stores a review of
   * the title that moves the summary, and its own refresh fails.
   */
  lemma StaysCoherentExactly(w: W, c: Call, title: Title, ttl: nat)
    requires WellKeyed(w) && Legal(w, c)
    requires Cached(w, title).Some? && Coherent(w, title, Summarize)
    ensures Coherent(Machine(ttl).After(w, c), title, Summarize) <==>
      !(FailedRefresh(w, c, title) && MovesSummary(w, Stored(w, c).value, title))
  {
    if FailedRefresh(w, c, title) {
      StoringSteps(w, c, ttl);
      var (key, row) := Stored(w, c).value;
      RunOne(w, PutRow(key, row), Summarize);
    } else {
      CallPossible(w, c, ttl);
      PendingIsFailedRefresh(w, c, title, ttl);
      EntryCurrentUnlessPending(w, StepsOf(w, c, ttl), title, Summarize);
    }
  }

  /** The summary of the title's reviews is another one with the new row. */
  ghost predicate MovesSummary(w: W, stored: (RowKey, Review), title: Title) {
    Summarize(RowsUnder(w.events, w.rows[stored.0 := stored.1], title)) != Recount(w, title, Summarize)
  }

  /**
   * A stored update leaves the count of its title and moves the sum by new minus old rating, if the
   * request spells the event id as it is stored; under another spelling the title does not change.
   */
  lemma UpdateDelta(w: W, q: UpdateReq, now: int, f: UpdateFaults, title: Title, ttl: nat)
    requires Stored(w, Update(q, now, f)).Some?
    ensures var key := RowKey(q.event, q.user);
            var v := Machine(ttl).After(w, Update(q, now, f));
            var was, later := RowsUnder(w.events, w.rows, title), RowsUnder(v.events, v.rows, title);
            key in v.rows && |later| == |was| &&
            Total(later) == Total(was) + (if q.event in EventsOf(w.events,
              title) then v.rows[key].rating - w.rows[key].rating else 0)
  {
    var c := Update(q, now, f);
    var key, row := Stored(w, c).value.0, Stored(w, c).value.1;
    RowsAfter(w, c, ttl);
    EventsAfterStore(w, c, ttl);
    RowsUnderPut(w.events, w.rows, key, row, title);
    TotalPut(RowsUnder(w.events, w.rows, title), key, row);
  }

  /** Raising one rating never lowers the published rating. */
  lemma RaisingRatingNeverLowers(w: W, q: UpdateReq, now: int, f: UpdateFaults, title: Title, ttl: nat)
    requires Stored(w, Update(q, now, f)).Some?
    requires q.rating.Some? ==> w.rows[RowKey(q.event, q.user)].rating <= q.rating.value
    ensures var v := Machine(ttl).After(w, Update(q, now, f));
            Recount(w, title, Summarize).count == Recount(v, title, Summarize).count &&
            Recount(w, title, Summarize).tenths <= Recount(v, title, Summarize).tenths
  {
    var v := Machine(ttl).After(w, Update(q, now, f));
    var was, later := RowsUnder(w.events, w.rows, title), RowsUnder(v.events, v.rows, title);
    RowsAfter(w, Update(q, now, f), ttl);
    UpdateDelta(w, q, now, f, title, ttl);
    if |was| > 0 {
      RoundMonotone(10 * Total(was), 10 * Total(later), |was|);
    }
  }

  /** Over a run a review keeps its id, author and creation time. */
  ghost predicate Keeps(v: W, w: W) {
    forall k :: k in v.rows ==>
      k in w.rows && w.rows[k].id == v.rows[k].id && w.rows[k].createdAt == v.rows[k].createdAt
  }

  /** Every existence check of a create reads the table. */
  ghost predicate Checked(c: Call) {
    c.Create? ==> c.createFaults.check
  }

  /** One call replaces a stored review exactly when it is a create whose existence check failed. */
  lemma ReplacedExactly(w: W, c: Call, ttl: nat)
    requires Legal(w, c)
    ensures Keeps(w, Machine(ttl).After(w, c)) <==>
      !(c.Create? && !c.createFaults.check && !c.createFaults.insert.Lost? &&
        RowKey(c.create.event, c.create.user) in w.rows
        && Find(w.events, c.create.event, c.createFaults.getEvent).Found?)
  {
    RowsAfter(w, c, ttl);
    if c.Create? && Stored(w, c).Some? && RowKey(c.create.event, c.create.user) in w.rows {
      assert Machine(ttl).After(w, c).rows[RowKey(c.create.event, c.create.user)].id == c.create.id;
    }
  }

  lemma {:induction false} ReviewsKeepIdentity(w: W, calls: seq<Call>, ttl: nat)
    requires Machine(ttl).LegalRun(w, calls) && forall c :: c in calls ==> Checked(c)
    ensures Keeps(w, Machine(ttl).RunCalls(w, calls))
    decreases |calls|
  {
    if |calls| > 0 {
      var m, before, c := Machine(ttl), calls[..|calls| - 1], calls[|calls| - 1];
      m.PrefixLegal(w, calls);
      ReviewsKeepIdentity(w, before, ttl);
      assert c in calls;
      ReplacedExactly(m.RunCalls(w, before), c, ttl);
    }
  }

  /** The rating a read answers with lies in the range of the ratings under the title. */
  lemma ReadRatingInRange(w: W, calls: seq<Call>, title: Title, f: ReadFaults, lo: int, hi: int, ttl: nat)
    requires Empty(w) && Machine(ttl).LegalRun(w, calls) && !LeftStale(w, calls, title, ttl)
    requires var v := Machine(ttl).RunCalls(w, calls);
             && RowsUnder(v.events, v.rows, title) != map[]
             && forall k :: k in RowsUnder(v.events, v.rows, title) ==> lo <= v.rows[k].rating <= hi
    ensures var r := ReadAnswer(Machine(ttl).RunCalls(w, calls), title, f, Summarize, Summary(0, 0));
            r.Some? ==> 10 * lo <= r.value.tenths <= 10 * hi
  {
    var v := Machine(ttl).RunCalls(w, calls);
    CacheIsRecount(w, calls, title, ttl);
    RatingInRange(RowsUnder(v.events, v.rows, title), lo, hi);
  }
}
