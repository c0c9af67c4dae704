/** Reactions and cache fills interleaved at their backend calls. */
module ReactionsInterleaved {
  import opened TitleCache
  import opened Reactions
  import opened CacheInterleaved

  type Shared = State<int, Counts, Counts>

  /** Votes are tallied per partition and added; the pair is published as it is, and (0, 0) is not filled. */
  ghost function Reacting(ttl: nat): Counter<int, Counts, Counts> {
    Counter(Tally, (a, b) => Add(a, b), ZERO, c => c, c => c != ZERO, ttl)
  }

  lemma ReactingIsLawful(ttl: nat)
    ensures Reacting(ttl).Lawful()
  {
    TallyNone();
    forall a: Rows, b: Rows | a.Keys !! b.Keys ensures Tally(a + b) == Add(Tally(a), Tally(b)) {
      TallySplit(a, b);
    }
  }

  /** Every cached pair, in every interleaving, is explained by instants of its writer's operation. */
  lemma EveryEntryExplained(s: Shared, moves: seq<Move<int>>, t: Shared, title: Title, ttl: nat)
    requires Initial(s) && Reacting(ttl).Reached(s, moves, t) && title in t.cache
    ensures Reacting(ttl).GoodCell(t.hist, title, t.cache[title])
  {
    Reacting(ttl).EveryEntryExplained(s, moves, t, title);
  }

  /** No readable pair is older than its TTL plus the duration of the operation that wrote it. */
  lemma NoReadableEntryIsOld(s: Shared, moves: seq<Move<int>>, t: Shared, title: Title, k: nat, ttl: nat)
    requires Initial(s) && Reacting(ttl).Reached(s, moves, t)
    requires |t.hist| > 0 && Readable(t, title).Some? && k < |t.cache[title].at|
    ensures var c := t.cache[title];
            c.began < |t.hist| && c.wrote < |t.hist| && c.at[k] < |t.hist| &&
            Now(t).time < t.hist[c.at[k]].time + ttl + (t.hist[c.wrote].time - t.hist[c.began].time)
  {
    Reacting(ttl).NoReadableEntryIsOld(s, moves, t, title, k);
  }

  /** If no row under the title has been stored since the writer began, the pair is the recount. */
  lemma QuietEntryIsRecount(s: Shared, moves: seq<Move<int>>, t: Shared, title: Title, ttl: nat)
    requires Initial(s) && Reacting(ttl).Reached(s, moves, t) && |t.hist| > 0 && title in t.cache
    requires forall i :: t.cache[title].began <= i < |t.hist| ==> RowsAt(t.hist[i], title) == RowsAt(Now(t), title)
    ensures t.cache[title].value == Tally(RowsAt(Now(t), title))
  {
    ReactingIsLawful(ttl);
    Reacting(ttl).QuietEntryIsRecount(s, moves, t, title);
  }

  // ---- Calls that nothing interrupts ------------------------------------------------------

  lemma RefreshedIsPublished(w: World<int, Counts>, title: Title, ttl: nat)
    ensures Reacting(ttl).Refreshed(w, title) == Run(w, [Publish(title, ttl)], Tally)
  {
    hide Tally, RowsUnder;
    RunOne(w, Publish(title, ttl), Tally);
  }

  /** A reaction that nothing interrupts leaves what the serial call leaves. */
  lemma ReactionAlone(s: Shared, j: nat, req: string, user: User, value: int, ids: seq<Id>, f: ReactFaults, ttl: nat)
    returns (moves: seq<Move<int>>, t: Shared)
    requires |s.hist| > 0 && j !in s.jobs && Resolve(Now(s).events, req).Some?
    requires f.getEvent && f.upsert.Acked? && f.list && f.count && !f.publish.Lost?
    requires IsListing(ids, EventsOf(Now(s).events, Now(s).events[Resolve(Now(s).events, req).value].title))
    ensures Reacting(ttl).Reached(s, [BeginWrite(j, req), StoreRow(j, user, value), ListEvents(j, ids)] + moves, t)
    ensures var w := Reacting(ttl).View(s);
            |t.hist| > 0 && Reacting(ttl).View(t) == Run(w, ReactSteps(w, req, user, value, f, ttl), Tally)
  {
    hide Tally, Resolve, EventsOf, RowsUnder;
    ReactingIsLawful(ttl);
    moves, t := Reacting(ttl).WriterAlone(s, j, req, user, value, ids);
    var w := Reacting(ttl).View(s);
    var title := w.events[Resolve(w.events, req).value].title;
    var put := PutRow(RowKey(req, user), value);
    RunTwo(w, put, Publish(title, ttl), Tally);
    RunOne(Apply(w, put, Tally), Publish(title, ttl), Tally);
    RefreshedIsPublished(Apply(w, put, Tally), title, ttl);
    var first, rest: seq<Move<int>> := [BeginWrite(j, req), StoreRow(j, user, value)], [ListEvents(j, ids)];
    assert first + (rest + moves) == [BeginWrite(j, req), StoreRow(j, user, value), ListEvents(j, ids)] + moves;
  }

  /** A read that misses and fills, when nothing interrupts it, leaves what the serial read leaves. */
  lemma FillAlone(s: Shared, j: nat, title: Title, ids: seq<Id>, f: ReadFaults, ttl: nat)
    returns (moves: seq<Move<int>>, t: Shared)
    requires |s.hist| > 0 && j !in s.jobs && IsListing(ids, EventsOf(Now(s).events, title))
    requires Readable(s, title).None? && Tally(RowsAt(Now(s), title)) != ZERO
    requires f.get && f.list && f.count && !f.publish.Lost?
    ensures Reacting(ttl).Reached(s, [BeginFill(j, title), ListEvents(j, ids)] + moves, t)
    ensures var w := Reacting(ttl).View(s);
            |t.hist| > 0 && Reacting(ttl).View(t) == Run(w, ReadSteps(w, title, f, ttl, Tally, ZERO), Tally)
  {
    hide Tally, EventsOf, RowsUnder;
    ReactingIsLawful(ttl);
    moves, t := Reacting(ttl).FillAlone(s, j, title, ids);
    RefreshedIsPublished(Reacting(ttl).View(s), title, ttl);
    var first, rest: seq<Move<int>> := [BeginFill(j, title)], [ListEvents(j, ids)];
    assert first + (rest + moves) == [BeginFill(j, title), ListEvents(j, ids)] + moves;
  }
}
