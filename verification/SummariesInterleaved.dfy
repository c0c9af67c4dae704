/** Review writes, their cache refreshes and cache fills interleaved at their backend calls. */
module SummariesInterleaved {
  import opened TitleCache
  import opened Reviews
  import opened CacheInterleaved

  type Shared = State<Review, Stats, Summary>

  /** Counts and sums are added up per partition and then averaged; a title without reviews is not filled. */
  ghost function Reviewing(ttl: nat): Counter<Review, Stats, Summary> {
    Counter(StatsOf, (a, b) => AddStats(a, b), Stats(0, 0), (s: Stats) => Summary(s.count, Average(s.sum, s.count)),
            (s: Stats) => s.count > 0, ttl)
  }

  lemma ReviewingIsLawful(ttl: nat)
    ensures Reviewing(ttl).Lawful()
  {
    StatsNone();
    forall a: Table, b: Table | a.Keys !! b.Keys ensures StatsOf(a + b) == AddStats(StatsOf(a), StatsOf(b)) {
      StatsJoin(a, b);
    }
  }

  /** Every cached summary averages per-event counts and sums that each held during its writer's operation. */
  lemma EverySummaryExplained(s: Shared, moves: seq<Move<Review>>, t: Shared, title: Title, ttl: nat)
    requires Initial(s) && Reviewing(ttl).Reached(s, moves, t) && title in t.cache
    ensures Reviewing(ttl).GoodCell(t.hist, title, t.cache[title])
  {
    Reviewing(ttl).EveryEntryExplained(s, moves, t, title);
  }

  /** No readable summary is older than its TTL plus the duration of the operation that wrote it. */
  lemma NoReadableSummaryIsOld(s: Shared, moves: seq<Move<Review>>, t: Shared, title: Title, k: nat, ttl: nat)
    requires Initial(s) && Reviewing(ttl).Reached(s, moves, t)
    requires |t.hist| > 0 && Readable(t, title).Some? && k < |t.cache[title].at|
    ensures var c := t.cache[title];
            c.began < |t.hist| && c.wrote < |t.hist| && c.at[k] < |t.hist| &&
            Now(t).time < t.hist[c.at[k]].time + ttl + (t.hist[c.wrote].time - t.hist[c.began].time)
  {
    Reviewing(ttl).NoReadableEntryIsOld(s, moves, t, title, k);
  }

  /** If no review under the title has been stored since the writer began, the summary is the recount. */
  lemma QuietSummaryIsRecount(s: Shared, moves: seq<Move<Review>>, t: Shared, title: Title, ttl: nat)
    requires Initial(s) && Reviewing(ttl).Reached(s, moves, t) && |t.hist| > 0 && title in t.cache
    requires forall i :: t.cache[title].began <= i < |t.hist| ==> RowsAt(t.hist[i], title) == RowsAt(Now(t), title)
    ensures t.cache[title].value == Summarize(RowsAt(Now(t), title))
  {
    ReviewingIsLawful(ttl);
    Reviewing(ttl).QuietEntryIsRecount(s, moves, t, title);
  }

  /** And then its rating lies in the range of the ratings under the title. */
  lemma QuietRatingInRange(s: Shared, moves: seq<Move<Review>>, t: Shared, title: Title, lo: int, hi: int, ttl: nat)
    requires Initial(s) && Reviewing(ttl).Reached(s, moves, t) && |t.hist| > 0 && title in t.cache
    requires forall i :: t.cache[title].began <= i < |t.hist| ==> RowsAt(t.hist[i], title) == RowsAt(Now(t), title)
    requires var rows := RowsAt(Now(t), title);
             rows != map[] && forall k :: k in rows ==> lo <= rows[k].rating <= hi
    ensures 10 * lo <= t.cache[title].value.tenths <= 10 * hi
  {
    QuietSummaryIsRecount(s, moves, t, title, ttl);
    RatingInRange(RowsAt(Now(t), title), lo, hi);
  }

  // ---- Calls that nothing interrupts ------------------------------------------------------

  lemma RefreshedIsPublished(w: World<Review, Summary>, title: Title, ttl: nat)
    ensures Reviewing(ttl).Refreshed(w, title) == Run(w, [Publish(title, ttl)], Summarize)
  {
    hide StatsOf, RowsUnder;
    RunOne(w, Publish(title, ttl), Summarize);
    SummarizeIsAverage(RowsUnder(w.events, w.rows, title));
  }

  lemma SummarizeIsAverage(rows: Table)
    ensures var s := StatsOf(rows); Summarize(rows) == Summary(s.count, Average(s.sum, s.count))
  {
  }

  /** A stored row and its refresh, when nothing interrupts them, leave what two serial writes leave. */
  lemma StoreAlone(s: Shared, j: nat, req: string, user: User, review: Review, ids: seq<Id>, ttl: nat)
    returns (moves: seq<Move<Review>>, t: Shared)
    requires |s.hist| > 0 && j !in s.jobs && Resolve(Now(s).events, req).Some?
    requires IsListing(ids, EventsOf(Now(s).events, Now(s).events[Resolve(Now(s).events, req).value].title))
    ensures Reviewing(ttl).Reached(s, [BeginWrite(j, req), StoreRow(j, user, review), ListEvents(j, ids)] + moves, t)
    ensures var w := Reviewing(ttl).View(s);
            var title := w.events[Resolve(w.events, req).value].title;
            |t.hist| > 0 && Reviewing(ttl).View(t) ==
              Run(w, [PutRow(RowKey(req, user), review), Publish(title, ttl)], Summarize)
  {
    hide StatsOf, Summarize, Resolve, EventsOf, RowsUnder;
    ReviewingIsLawful(ttl);
    moves, t := Reviewing(ttl).WriterAlone(s, j, req, user, review, ids);
    var w := Reviewing(ttl).View(s);
    var title := w.events[Resolve(w.events, req).value].title;
    var put := PutRow(RowKey(req, user), review);
    RunTwo(w, put, Publish(title, ttl), Summarize);
    RunOne(Apply(w, put, Summarize), Publish(title, ttl), Summarize);
    RefreshedIsPublished(Apply(w, put, Summarize), title, ttl);
    var first, rest: seq<Move<Review>> := [BeginWrite(j, req), StoreRow(j, user, review)], [ListEvents(j, ids)];
    assert first + (rest + moves) == [BeginWrite(j, req), StoreRow(j, user, review), ListEvents(j, ids)] + moves;
  }

  lemma StepsAlone(put: Step<Review>, title: Title, ttl: nat)
    ensures [put] + [Publish(title, ttl)] == [put, Publish(title, ttl)]
  {
  }

  /** Every call of a request's refresh takes effect. */
  ghost predicate Refreshes(f: CacheFaults) {
    f.getEvent && f.list && f.stats && !f.publish.Lost?
  }

  /** A create that nothing interrupts leaves what the serial call leaves. */
  lemma CreateAlone(s: Shared, j: nat, q: CreateReq, now: int, ids: seq<Id>, f: CreateFaults, ttl: nat)
    returns (moves: seq<Move<Review>>, t: Shared)
    requires |s.hist| > 0 && j !in s.jobs && Resolve(Now(s).events, q.event).Some? && Refreshes(f.cache)
    requires f.getEvent && f.insert.Acked? && !(f.check && RowKey(q.event, q.user) in Now(s).rows)
    requires IsListing(ids, EventsOf(Now(s).events, Now(s).events[Resolve(Now(s).events, q.event).value].title))
    ensures var review := Review(q.id, q.rating, q.comment, now, now);
            Reviewing(ttl).Reached(s,
              [BeginWrite(j, q.event), StoreRow(j, q.user, review), ListEvents(j, ids)] + moves, t)
    ensures var w := Reviewing(ttl).View(s);
            |t.hist| > 0 && Reviewing(ttl).View(t) == Run(w, CreateSteps(w, q, now, f, ttl), Summarize)
  {
    hide StatsOf, Summarize, Resolve, EventsOf, RowsUnder, Run;
    var w, review := Reviewing(ttl).View(s), Review(q.id, q.rating, q.comment, now, now);
    moves, t := StoreAlone(s, j, q.event, q.user, review, ids, ttl);
    StepsAlone(PutRow(RowKey(q.event, q.user), review), w.events[Resolve(w.events, q.event).value].title, ttl);
  }

  /** An update of the caller's own review that nothing interrupts leaves what the serial call leaves. */
  lemma UpdateAlone(s: Shared, j: nat, q: UpdateReq, now: int, ids: seq<Id>, f: UpdateFaults, ttl: nat)
    returns (moves: seq<Move<Review>>, t: Shared)
    requires |s.hist| > 0 && j !in s.jobs && Resolve(Now(s).events, q.event).Some? && Refreshes(f.cache)
    requires f.getEvent && f.get && f.reread && f.write.Acked? && Owns(Now(s).rows, q)
    requires IsListing(ids, EventsOf(Now(s).events, Now(s).events[Resolve(Now(s).events, q.event).value].title))
    ensures var review := Rewritten(Now(s).rows[RowKey(q.event, q.user)], q.rating, q.comment, now);
            Reviewing(ttl).Reached(s,
              [BeginWrite(j, q.event), StoreRow(j, q.user, review), ListEvents(j, ids)] + moves, t)
    ensures var w := Reviewing(ttl).View(s);
            |t.hist| > 0 && Reviewing(ttl).View(t) == Run(w, UpdateSteps(w, q, now, f, ttl), Summarize)
  {
    hide StatsOf, Summarize, Resolve, EventsOf, RowsUnder, Run, Rewritten;
    var w, review := Reviewing(ttl).View(s), Rewritten(Now(s).rows[RowKey(q.event, q.user)], q.rating, q.comment, now);
    moves, t := StoreAlone(s, j, q.event, q.user, review, ids, ttl);
    StepsAlone(PutRow(RowKey(q.event, q.user), review), w.events[Resolve(w.events, q.event).value].title, ttl);
  }
}
