/** Whole runs of the reaction service: coherence of the cache, and what one reaction changes. */
module ReactionRuns {
  import opened Backend
  import opened Text
  import opened TitleCache
  import opened EventStore
  import opened Reactions
  import opened CallRuns

  type W = World<int, Counts>

  /** One service call, with how each of its backend calls ends. */
  datatype Call =
    | Create(id: Id, doc: Doc, insert: Write)
    | PatchEvent(req: string, caller: User, patch: Patch, ok: bool, w: Write)
    | React(req: string, user: User, value: int, faults: ReactFaults)
    | Annotate(titles: seq<Title>, lookups: seq<ReadFaults>)
    | Wait(seconds: nat)

  /** Event ids are fresh; the service reacts with 1 or -1 only. */
  ghost predicate Legal(w: W, c: Call) {
    match c
    case Create(id, doc, insert) => id !in w.events && IsCanonical(id)
    case React(req, user, value, f) => value == LIKE || value == DISLIKE
    case Annotate(titles, lookups) => |lookups| == |titles|
    case _ => true
  }

  ghost function StepsOf(w: W, c: Call, ttl: nat): seq<Step<int>> {
    match c
    case Create(id, doc, insert) => if insert.Lost? then [] else [AddEvent(id, doc)]
    case PatchEvent(req, caller, p, ok, o) =>
      (match PatchTarget(w.events, req, caller, p, o)
       case None => []
       case Some(id) => [EditEvent(id, Patched(w.events[id], p))])
    case React(req, user, value, f) => ReactSteps(w, req, user, value, f, ttl)
    case Annotate(titles, lookups) =>
      if |lookups| == |titles| then AnnotateSteps(w, titles, lookups, 0, {}, ttl) else []
    case Wait(seconds) => [Elapse(seconds)]
  }

  /** The reaction service as a machine over its calls. */
  ghost function Machine(ttl: nat): Service<Call, int, Counts> {
    Service((w, c) => Legal(w, c), (w, c) => StepsOf(w, c, ttl), Tally)
  }

  // ---- One call -------------------------------------------------------------------------

  lemma {:induction false} AnnotatePublishes(w: W, titles: seq<Title>, lookups: seq<ReadFaults>, i: nat,
      seen: set<Title>, ttl: nat)
    requires |lookups| == |titles| && i <= |titles|
    ensures forall s :: s in AnnotateSteps(w, titles, lookups, i, seen, ttl) ==> s.Publish?
    decreases |titles| - i
  {
    if i < |titles| {
      if titles[i] in seen {
        AnnotatePublishes(w, titles, lookups, i + 1, seen, ttl);
      } else {
        var s := ReadSteps(w, titles[i], lookups[i], ttl, Tally, ZERO);
        AnnotatePublishes(Run(w, s, Tally), titles, lookups, i + 1, seen + {titles[i]}, ttl);
      }
    }
  }

  lemma {:induction false} PublishesPossible(w: W, steps: seq<Step<int>>)
    requires forall s :: s in steps ==> s.Publish?
    ensures Possible(w, steps, Tally)
    decreases |steps|
  {
    if |steps| > 0 {
      assert steps[0] in steps;
      PublishesPossible(Apply(w, steps[0], Tally), steps[1..]);
    }
  }

  lemma CallPossible(w: W, c: Call, ttl: nat)
    requires WellKeyed(w) && Legal(w, c)
    ensures Possible(w, StepsOf(w, c, ttl), Tally)
  {
    match c
    case Create(id, doc, insert) => RunOne(w, AddEvent(id, doc), Tally);
    case PatchEvent(req, caller, p, ok, o) =>
      var t := PatchTarget(w.events, req, caller, p, o);
      if t.Some? { RunOne(w, EditEvent(t.value, Patched(w.events[t.value], p)), Tally); }
    case React(req, user, value, f) =>
      var found := Find(w.events, req, f.getEvent);
      if found.Found? {
        RunOne(w, PutRow(RowKey(req, user), value), Tally);
        RunTwo(w, PutRow(RowKey(req, user), value), Publish(found.doc.title, ttl), Tally);
      }
    case Annotate(titles, lookups) =>
      AnnotatePublishes(w, titles, lookups, 0, {}, ttl);
      PublishesPossible(w, StepsOf(w, c, ttl));
    case Wait(seconds) => RunOne(w, Elapse(seconds), Tally);
  }

  /** A reaction whose row was stored but whose own recount or cache write did not go through. */
  ghost predicate FailedReaction(w: W, c: Call, title: Title) {
    && c.React?
    && c.req in EventsOf(w.events, title)
    && c.faults.getEvent && !c.faults.upsert.Lost?
    && !(c.faults.upsert.Acked? && c.faults.list && c.faults.count && !c.faults.publish.Lost?)
  }

  /** Within one call only a half-failed reaction leaves a stored row unpublished. */
  lemma PendingIsFailedReaction(w: W, c: Call, title: Title, ttl: nat)
    requires Legal(w, c)
    ensures Pending(w, StepsOf(w, c, ttl), title, Tally) ==> FailedReaction(w, c, title)
  {
    var steps := StepsOf(w, c, ttl);
    if c.Annotate? {
      AnnotatePublishes(w, c.titles, c.lookups, 0, {}, ttl);
      assert forall i :: 0 <= i < |steps| ==> steps[i] in steps;
    } else if c.React? && |steps| == 2 && c.req in EventsOf(w.events, title) {
      assert steps[1].Publish? && steps[1].title == title;
    } else if c.React? && |steps| > 0 {
      assert Run(w, steps[..0], Tally) == w;
    }
  }

  lemma MachineIsSane(ttl: nat)
    ensures Machine(ttl).Sane()
  {
    forall w: W, c: Call | WellKeyed(w) && Legal(w, c) ensures Possible(w, StepsOf(w, c, ttl), Tally) {
      CallPossible(w, c, ttl);
    }
  }

  /** Creating and patching events leaves what the event store's methods leave, and waiting moves the clock. */
  lemma EventCallsExactly(w: W, id: Id, doc: Doc, insert: Write, req: string, caller: User, p: Patch, ok: bool,
      o: Write, seconds: nat, ttl: nat)
    ensures Machine(ttl).After(w, Create(id, doc, insert)) ==
      if insert.Lost? then w else w.(events := w.events[id := doc])
    ensures Machine(ttl).After(w, PatchEvent(req, caller, p, ok, o)) ==
      match PatchTarget(w.events, req, caller, p, o)
      case None => w
      case Some(x) => w.(events := w.events[x := Patched(w.events[x], p)])
    ensures Machine(ttl).After(w, Wait(seconds)) == w.(now := w.now + seconds)
  {
    hide Tally, Patched;
    RunOne(w, AddEvent(id, doc), Tally);
    RunOne(w, Elapse(seconds), Tally);
    var t := PatchTarget(w.events, req, caller, p, o);
    if t.Some? { RunOne(w, EditEvent(t.value, Patched(w.events[t.value], p)), Tally); }
  }

  // ---- Coherence ------------------------------------------------------------------------

  /** Some reaction failed half-way and no later call has overwritten the entry of its title. */
  ghost predicate LeftStale(w: W, calls: seq<Call>, title: Title, ttl: nat) {
    exists i :: 0 <= i < |calls|
      && FailedReaction(Machine(ttl).Before(w, calls, i), calls[i], title)
      && forall j :: i < j < |calls| ==> !Machine(ttl).OverwrittenAt(w, calls, j, title)
  }

  /**
   * In every run from an empty service, whatever backend calls fail, a readable cached pair is the
   * recount over the title's events, unless a half-failed reaction has not been overwritten since.
   */
  lemma CacheIsRecount(w: W, calls: seq<Call>, title: Title, ttl: nat)
    requires Empty(w) && Machine(ttl).LegalRun(w, calls)
    ensures Coherent(Machine(ttl).RunCalls(w, calls), title, Tally) || LeftStale(w, calls, title, ttl)
  {
    var m := Machine(ttl);
    MachineIsSane(ttl);
    m.CacheIsRecount(w, calls, title);
    if m.LeftStale(w, calls, title) {
      var i :| 0 <= i < |calls| && m.FailedAt(w, calls, i, title)
        && forall j :: i < j < |calls| ==> !m.OverwrittenAt(w, calls, j, title);
      assert m.legal(m.Before(w, calls, i), calls[i]);
      PendingIsFailedReaction(m.Before(w, calls, i), calls[i], title, ttl);
    }
  }

  /** So an annotated read that answers at all answers with the recount. */
  lemma ReadIsRecount(w: W, calls: seq<Call>, title: Title, f: ReadFaults, ttl: nat)
    requires Empty(w) && Machine(ttl).LegalRun(w, calls) && !LeftStale(w, calls, title, ttl)
    ensures var v := Machine(ttl).RunCalls(w, calls);
            ReadAnswer(v, title, f, Tally, ZERO).Some? ==>
              ReadAnswer(v, title, f, Tally, ZERO).value == Recount(v, title, Tally)
  {
    CacheIsRecount(w, calls, title, ttl);
  }

  // ---- What one reaction changes --------------------------------------------------------

  ghost predicate Ballots(rows: Rows) {
    forall k :: k in rows ==> rows[k] == LIKE || rows[k] == DISLIKE
  }

  function VoteOf(rows: Rows, k: RowKey): Option<int> {
    if k in rows then Some(rows[k]) else None
  }

  /** First reaction: one more. Flip: one moved across. Repeat: no change. */
  function Changed(c: Counts, before: Option<int>, vote: int): Counts
    requires before == Some(LIKE) ==> c.likes > 0
    requires before == Some(DISLIKE) ==> c.dislikes > 0
  {
    if before == Some(vote) then c
    else if before == Some(LIKE) then Bump(c.(likes := c.likes - 1), vote)
    else if before == Some(DISLIKE) then Bump(c.(dislikes := c.dislikes - 1), vote)
    else Bump(c, vote)
  }

  lemma VoterCounts(rows: Rows, k: RowKey)
    requires k in rows
    ensures rows[k] == LIKE ==> Tally(rows).likes > 0
    ensures rows[k] == DISLIKE ==> Tally(rows).dislikes > 0
  {
    assert k in Votes(rows, rows[k]);
  }

  lemma TallyPut(rows: Rows, k: RowKey, vote: int)
    requires Ballots(rows)
    ensures VoteOf(rows, k) == Some(LIKE) ==> Tally(rows).likes > 0
    ensures VoteOf(rows, k) == Some(DISLIKE) ==> Tally(rows).dislikes > 0
    ensures Tally(rows[k := vote]) == Changed(Tally(rows), VoteOf(rows, k), vote)
  {
    if k in rows {
      VoterCounts(rows, k);
      var without := rows - {k};
      assert without[k := rows[k]] == rows;
      assert without[k := vote] == rows[k := vote];
      ScanOne(without, k, rows[k]);
      ScanOne(without, k, vote);
    } else {
      ScanOne(rows, k, vote);
    }
  }

  lemma ReactLeavesRows(w: W, req: string, user: User, value: int, f: ReactFaults, ttl: nat)
    requires Find(w.events, req, f.getEvent).Found? && !f.upsert.Lost?
    ensures var v := Run(w, ReactSteps(w, req, user, value, f, ttl), Tally);
            v.events == w.events && v.rows == w.rows[RowKey(req, user) := value]
  {
    RunOne(w, PutRow(RowKey(req, user), value), Tally);
    RunTwo(w, PutRow(RowKey(req, user), value), Publish(Find(w.events, req, f.getEvent).doc.title, ttl), Tally);
  }

  lemma KeysCanonical(w: W)
    requires WellKeyed(w)
    ensures forall id :: id in w.events ==> IsCanonical(id)
  {
  }

  /** What a reaction to a stored event does and answers, for every way its calls can end. */
  lemma ReactExactly(w: W, req: string, user: User, value: int, f: ReactFaults, ttl: nat, id: Id)
    requires WellKeyed(w) && id in w.events && Spells(req, id)
    ensures var v := Run(w, ReactSteps(w, req, user, value, f, ttl), Tally);
            var title := w.events[id].title;
            var stored := f.getEvent && !f.upsert.Lost?;
            var counted := f.getEvent && f.upsert.Acked? && f.list && f.count;
            && v.events == w.events && v.now == w.now
            && v.rows == (if stored then w.rows[RowKey(req, user) := value] else w.rows)
            && v.cache == (if counted && !f.publish.Lost?
                           then w.cache[title := Entry(Recount(v, title, Tally), w.now + ttl)] else w.cache)
            && ReactStatus(w.events, req, f) == if counted && f.publish.Acked? then Ok else Internal
  {
    hide Canonical, Resolve, WellKeyed, Spells, Tally;
    assert forall x :: x in w.events ==> IsCanonical(x) by { KeysCanonical(w); }
    FindExactly(w.events, req, f.getEvent);
    hide IsCanonical, Find;
    var put := PutRow(RowKey(req, user), value);
    RunOne(w, put, Tally);
    RunTwo(w, put, Publish(w.events[id].title, ttl), Tally);
  }

  /** A reaction to an event that is not stored changes nothing and says so, if the lookup succeeds. */
  lemma ReactToNothing(w: W, req: string, user: User, value: int, f: ReactFaults, ttl: nat)
    requires WellKeyed(w) && forall id :: id in w.events ==> !Spells(req, id)
    ensures Run(w, ReactSteps(w, req, user, value, f, ttl), Tally) == w
    ensures ReactStatus(w.events, req, f) == if f.getEvent then NotFound else Internal
  {
    FindExactly(w.events, req, f.getEvent);
  }

  /**
   * The recount after a stored reaction is the one before with exactly this user's change, if and
   * only if the request spells the event id as it is stored (or the change is nil anyway).
   */
  lemma ReactionDelta(w: W, req: string, user: User, value: int, f: ReactFaults, ttl: nat)
    requires WellKeyed(w) && Ballots(w.rows) && (value == LIKE || value == DISLIKE)
    requires Find(w.events, req, f.getEvent).Found? && !f.upsert.Lost?
    ensures var found := Find(w.events, req, f.getEvent);
            var title := found.doc.title;
            var own := VoteOf(RowsUnder(w.events, w.rows, title), RowKey(found.id, user));
            var c := Recount(w, title, Tally);
            && (own == Some(LIKE) ==> c.likes > 0) && (own == Some(DISLIKE) ==> c.dislikes > 0)
            && (Recount(Run(w, ReactSteps(w, req, user, value, f, ttl), Tally), title, Tally) == Changed(c, own, value)
                <==> req == found.id || own == Some(value))
  {
    var found := Find(w.events, req, f.getEvent);
    var title := found.doc.title;
    var under := RowsUnder(w.events, w.rows, title);
    ReactLeavesRows(w, req, user, value, f, ttl);
    RowsUnderPut(w.events, w.rows, RowKey(req, user), value, title);
    TallyPut(under, RowKey(found.id, user), value);
    if req != found.id {
      assert req !in w.events;
      var own := VoteOf(under, RowKey(found.id, user));
      assert own != Some(value) ==> Changed(Tally(under), own, value) != Tally(under);
    }
  }

  /** The exception is needed: a half-failed change shows at once in an entry that was right. */
  lemma HalfFailureShows(w: W, req: string, user: User, value: int, f: ReactFaults, ttl: nat)
    requires WellKeyed(w) && Ballots(w.rows) && (value == LIKE || value == DISLIKE)
    requires req in w.events && VoteOf(w.rows, RowKey(req, user)) != Some(value)
    requires FailedReaction(w, React(req, user, value, f), w.events[req].title)
    requires Cached(w, w.events[req].title).Some? && Coherent(w, w.events[req].title, Tally)
    ensures !Coherent(Run(w, ReactSteps(w, req, user, value, f, ttl), Tally), w.events[req].title, Tally)
  {
    var title := w.events[req].title;
    var under := RowsUnder(w.events, w.rows, title);
    RunOne(w, PutRow(RowKey(req, user), value), Tally);
    RowsUnderPut(w.events, w.rows, RowKey(req, user), value, title);
    TallyPut(under, RowKey(req, user), value);
    assert VoteOf(under, RowKey(req, user)) == VoteOf(w.rows, RowKey(req, user));
    assert Changed(Tally(under), VoteOf(under, RowKey(req, user)), value) != Tally(under);
  }

  /**
   * From a right, readable entry: one call leaves it right exactly unless the call is a half-failed
   * reaction that changes the vote.
   */
  lemma StaysCoherentExactly(w: W, c: Call, title: Title, ttl: nat)
    requires WellKeyed(w) && Ballots(w.rows) && Legal(w, c)
    requires Cached(w, title).Some? && Coherent(w, title, Tally)
    ensures Coherent(Machine(ttl).After(w, c), title, Tally) <==>
      !(FailedReaction(w, c, title) && VoteOf(w.rows, RowKey(c.req, c.user)) != Some(c.value))
  {
    if !FailedReaction(w, c, title) {
      CallPossible(w, c, ttl);
      PendingIsFailedReaction(w, c, title, ttl);
      EntryCurrentUnlessPending(w, StepsOf(w, c, ttl), title, Tally);
    } else if VoteOf(w.rows, RowKey(c.req, c.user)) == Some(c.value) {
      RepeatChangesNothing(w, c, title, ttl);
    } else {
      HalfFailureShows(w, c.req, c.user, c.value, c.faults, ttl);
    }
  }

  lemma RepeatChangesNothing(w: W, c: Call, title: Title, ttl: nat)
    requires FailedReaction(w, c, title) && VoteOf(w.rows, RowKey(c.req, c.user)) == Some(c.value)
    ensures Machine(ttl).After(w, c) == w
  {
    RunOne(w, PutRow(RowKey(c.req, c.user), c.value), Tally);
    assert w.rows[RowKey(c.req, c.user) := c.value] == w.rows;
  }

  /** An upper-case spelling is another spelling of the same id. */
  lemma UpperCaseSpelling()
    ensures var id, req := seq(24, i => 'a'), seq(24, i => 'A');
            IsCanonical(id) && IsObjectIdHex(req) && Canonical(req) == id && req != id
  {
    assert seq(24, i => 'a')[0] != seq(24, i => 'A')[0];
  }

  /** Such a spelling is accepted and its reaction stored, but the first total it publishes is (0, 0). */
  lemma UncountedSpelling(id: Id, req: string, doc: Doc, user: User, value: int)
    requires IsCanonical(id) && IsObjectIdHex(req) && Canonical(req) == id && req != id
    requires value == LIKE || value == DISLIKE
    ensures var w: W := World(map[id := doc], map[], map[], 0);
            var f := ReactFaults(true, Acked, Acked, true, true, Acked);
            var v := Run(w, ReactSteps(w, req, user, value, f, 60), Tally);
            ReactStatus(w.events, req, f) == Ok && v.rows == map[RowKey(req, user) := value]
            && Cached(v, doc.title) == Some(Counts(0, 0))
  {
    var w: W := World(map[id := doc], map[], map[], 0);
    var f := ReactFaults(true, Acked, Acked, true, true, Acked);
    assert Resolve(w.events, req) == Some(id);
    RunTwo(w, PutRow(RowKey(req, user), value), Publish(doc.title, 60), Tally);
    assert RowsUnder(w.events, w.rows, doc.title) == map[];
    ZeroPublishedExactly(w, req, user, value, f, 60);
  }

  // ---- Totals and pairs -----------------------------------------------------------------

  lemma BallotsAreCounted(rows: Rows)
    requires Ballots(rows)
    ensures Tally(rows).likes + Tally(rows).dislikes == |rows|
  {
    assert rows.Keys == Votes(rows, LIKE) + Votes(rows, DISLIKE);
    assert Votes(rows, LIKE) !! Votes(rows, DISLIKE);
    assert |rows| == |rows.Keys|;
  }

  /** Likes plus dislikes is the number of (event, user) pairs that reacted under the title. */
  lemma TotalIsPairs(w: W, title: Title)
    requires Ballots(w.rows)
    ensures Recount(w, title, Tally).likes + Recount(w, title, Tally).dislikes == |RowsUnder(w.events, w.rows, title)|
  {
    BallotsAreCounted(RowsUnder(w.events, w.rows, title));
  }

  ghost predicate Grows(v: W, w: W) {
    && (forall e :: e in v.events ==> e in w.events && w.events[e].title == v.events[e].title)
    && (forall k :: k in v.rows ==> k in w.rows)
    && (Ballots(v.rows) ==> Ballots(w.rows))
  }

  ghost predicate GoodStep(s: Step<int>) {
    s.PutRow? ==> s.row == LIKE || s.row == DISLIKE
  }

  lemma {:induction false} StepsGrow(w: W, steps: seq<Step<int>>)
    requires Possible(w, steps, Tally) && forall s :: s in steps ==> GoodStep(s)
    ensures Grows(w, Run(w, steps, Tally))
    decreases |steps|
  {
    if |steps| > 0 {
      assert GoodStep(steps[0]) by { assert steps[0] in steps; }
      StepsGrow(Apply(w, steps[0], Tally), steps[1..]);
    }
  }

  lemma CallGrows(w: W, c: Call, ttl: nat)
    requires WellKeyed(w) && Legal(w, c)
    ensures Grows(w, Machine(ttl).After(w, c))
  {
    CallPossible(w, c, ttl);
    if c.Annotate? { AnnotatePublishes(w, c.titles, c.lookups, 0, {}, ttl); }
    StepsGrow(w, StepsOf(w, c, ttl));
  }

  lemma {:induction false} RunGrows(w: W, calls: seq<Call>, ttl: nat)
    requires WellKeyed(w) && Machine(ttl).LegalRun(w, calls)
    ensures Grows(w, Machine(ttl).RunCalls(w, calls))
    decreases |calls|
  {
    if |calls| > 0 {
      var m, before := Machine(ttl), calls[..|calls| - 1];
      MachineIsSane(ttl);
      m.PrefixLegal(w, calls);
      RunGrows(w, before, ttl);
      m.RunKeepsWellKeyed(w, before);
      CallGrows(m.RunCalls(w, before), calls[|calls| - 1], ttl);
    }
  }

  /** The total of a title never decreases over a run. */
  lemma TotalNeverFalls(w: W, calls: seq<Call>, title: Title, ttl: nat)
    requires WellKeyed(w) && Ballots(w.rows) && Machine(ttl).LegalRun(w, calls)
    ensures var v := Machine(ttl).RunCalls(w, calls);
            Recount(w, title, Tally).likes + Recount(w, title, Tally).dislikes <=
            Recount(v, title, Tally).likes + Recount(v, title, Tally).dislikes
  {
    var v := Machine(ttl).RunCalls(w, calls);
    RunGrows(w, calls, ttl);
    TotalIsPairs(w, title);
    TotalIsPairs(v, title);
    PairsGrow(w, v, title);
  }

  lemma PairsGrow(w: W, v: W, title: Title)
    requires Grows(w, v)
    ensures |RowsUnder(w.events, w.rows, title)| <= |RowsUnder(v.events, v.rows, title)|
  {
    SubsetSize(RowsUnder(w.events, w.rows, title).Keys, RowsUnder(v.events, v.rows, title).Keys);
  }

  // ---- A cached pair is never (0, 0) ----------------------------------------------------

  lemma ZeroMeansNoRows(rows: Rows)
    requires Ballots(rows)
    ensures Tally(rows) == Counts(0, 0) <==> rows == map[]
  {
    BallotsAreCounted(rows);
  }

  /** A reaction publishes (0, 0) exactly when its spelling is uncounted and the title has no row. */
  lemma ZeroPublishedExactly(w: W, req: string, user: User, value: int, f: ReactFaults, ttl: nat)
    requires WellKeyed(w) && Ballots(w.rows) && (value == LIKE || value == DISLIKE)
    requires Find(w.events, req, f.getEvent).Found?
    requires f.upsert.Acked? && f.list && f.count && !f.publish.Lost?
    ensures var title := Find(w.events, req, f.getEvent).doc.title;
            var v := Run(w, ReactSteps(w, req, user, value, f, ttl), Tally);
            title in v.cache &&
            (v.cache[title].value == Counts(0, 0) <==> req !in w.events && RowsUnder(w.events, w.rows, title) == map[])
  {
    var found := Find(w.events, req, f.getEvent);
    var rows := w.rows[RowKey(req, user) := value];
    RunTwo(w, PutRow(RowKey(req, user), value), Publish(found.doc.title, ttl), Tally);
    RowsUnderPut(w.events, w.rows, RowKey(req, user), value, found.doc.title);
    ZeroMeansNoRows(RowsUnder(w.events, rows, found.doc.title));
    if req in w.events {
      assert RowKey(req, user) in RowsUnder(w.events, rows, found.doc.title);
    }
  }

  ghost predicate NoZero(w: W) {
    forall t :: t in w.cache ==> w.cache[t].value != Counts(0, 0)
  }

  /** Every reaction of the run names its event by the stored id. */
  ghost predicate Spelled(w: W, c: Call) {
    c.React? && Resolve(w.events, c.req).Some? ==> c.req in w.events
  }

  lemma {:induction false} AnnotateKeepsNoZero(w: W, titles: seq<Title>, lookups: seq<ReadFaults>, i: nat,
      seen: set<Title>, ttl: nat)
    requires |lookups| == |titles| && i <= |titles| && NoZero(w)
    ensures NoZero(Run(w, AnnotateSteps(w, titles, lookups, i, seen, ttl), Tally))
    decreases |titles| - i
  {
    if i < |titles| {
      if titles[i] in seen {
        AnnotateKeepsNoZero(w, titles, lookups, i + 1, seen, ttl);
      } else {
        var v := Run(w, ReadSteps(w, titles[i], lookups[i], ttl, Tally, ZERO), Tally);
        RunOne(w, Publish(titles[i], ttl), Tally);
        AnnotateOne(w, titles, lookups, i, seen, ttl);
        AnnotateKeepsNoZero(v, titles, lookups, i + 1, seen + {titles[i]}, ttl);
      }
    }
  }

  lemma CallKeepsNoZero(w: W, c: Call, ttl: nat)
    requires WellKeyed(w) && Ballots(w.rows) && Legal(w, c) && NoZero(w) && Spelled(w, c)
    ensures NoZero(Machine(ttl).After(w, c))
  {
    match c
    case Create(id, doc, insert) => RunOne(w, AddEvent(id, doc), Tally);
    case PatchEvent(req, caller, p, ok, o) =>
      var t := PatchTarget(w.events, req, caller, p, o);
      if t.Some? { RunOne(w, EditEvent(t.value, Patched(w.events[t.value], p)), Tally); }
    case React(req, user, value, f) =>
      var found := Find(w.events, req, f.getEvent);
      if found.Found? {
        RunOne(w, PutRow(RowKey(req, user), value), Tally);
        RunTwo(w, PutRow(RowKey(req, user), value), Publish(found.doc.title, ttl), Tally);
        if f.upsert.Acked? && f.list && f.count && !f.publish.Lost? {
          ZeroPublishedExactly(w, req, user, value, f, ttl);
        }
      }
    case Annotate(titles, lookups) => AnnotateKeepsNoZero(w, titles, lookups, 0, {}, ttl);
    case Wait(seconds) => RunOne(w, Elapse(seconds), Tally);
  }

  ghost predicate SpelledRun(w: W, calls: seq<Call>, ttl: nat) {
    forall i :: 0 <= i < |calls| ==> Spelled(Machine(ttl).Before(w, calls, i), calls[i])
  }

  /** Over whole runs no cached pair is (0, 0). */
  lemma {:induction false} NeverCachesZero(w: W, calls: seq<Call>, ttl: nat)
    requires Empty(w) && Machine(ttl).LegalRun(w, calls) && SpelledRun(w, calls, ttl)
    ensures NoZero(Machine(ttl).RunCalls(w, calls))
    decreases |calls|
  {
    if |calls| > 0 {
      var m, before := Machine(ttl), calls[..|calls| - 1];
      MachineIsSane(ttl);
      m.PrefixLegal(w, calls);
      forall i | 0 <= i < |before| ensures Spelled(m.Before(w, before, i), before[i]) {
        m.BeforePrefix(w, calls, i);
      }
      NeverCachesZero(w, before, ttl);
      m.RunKeepsWellKeyed(w, before);
      RunGrows(w, before, ttl);
      assert m.Before(w, calls, |calls| - 1) == m.RunCalls(w, before);
      CallKeepsNoZero(m.RunCalls(w, before), calls[|calls| - 1], ttl);
    }
  }
}
