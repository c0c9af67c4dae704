/** Reviews: the review rows, the published average per title, and the service over them. */
module Reviews {
  import opened Backend
  import opened Text
  import opened TitleCache
  import opened EventStore

  /** Times are the milliseconds Cassandra keeps. */
  datatype Review = Review(id: string, rating: int, comment: string, createdAt: int, updatedAt: int)

  type Table = map<RowKey, Review>

  /** The published summary; the rating is kept in tenths. */
  datatype Summary = Summary(count: nat, tenths: int)

  // ---- Averages -------------------------------------------------------------------------

  /** math.Round of a quotient: to the nearest integer, halves away from zero. */
  function RoundQuotient(num: int, den: nat): int
    requires den > 0
  {
    if num >= 0 then (2 * num + den) / (2 * den) else -((-2 * num + den) / (2 * den))
  }

  /** The average of `count` ratings with the given sum, in tenths. */
  function Average(sum: int, count: nat): int {
    if count > 0 then RoundQuotient(10 * sum, count) else 0
  }

  lemma QuotientBounds(a: int, b: nat)
    requires b > 0
    ensures a / b * b <= a < a / b * b + b
  {
  }

  lemma MulMono(a: int, b: int, den: nat)
    requires a <= b
    ensures a * den <= b * den
  {
  }

  lemma Cancel(a: int, b: int, den: nat)
    requires a * den < b * den + den
    ensures a <= b
  {
    if a >= b + 1 {
      MulMono(b + 1, a, den);
    }
  }

  lemma DivMono(a: int, b: int, den: nat)
    requires den > 0 && a <= b
    ensures a / den <= b / den
  {
    QuotientBounds(a, den);
    QuotientBounds(b, den);
    Cancel(a / den, b / den, den);
  }

  /** Within half a unit of the exact quotient, and on a tie the integer away from zero. */
  lemma RoundNear(num: int, den: nat)
    requires den > 0
    ensures var diff := 2 * (RoundQuotient(num, den) * den) - 2 * num;
            if num >= 0 then -(den as int) < diff <= den else -(den as int) <= diff < den
  {
    if num >= 0 {
      QuotientBounds(2 * num + den, 2 * den);
    } else {
      QuotientBounds(-2 * num + den, 2 * den);
      var q := (-2 * num + den) / (2 * den);
      assert -q * den == -(q * den);
    }
  }

  /** So no other integer is the rounded quotient. */
  lemma RoundUnique(num: int, den: nat, r: int)
    requires den > 0
    requires var diff := 2 * (r * den) - 2 * num;
             if num >= 0 then -(den as int) < diff <= den else -(den as int) <= diff < den
    ensures r == RoundQuotient(num, den)
  {
    hide RoundQuotient;
    var q := RoundQuotient(num, den);
    RoundNear(num, den);
    Cancel(r, q, den);
    Cancel(q, r, den);
  }

  lemma RoundMonotone(m: int, n: int, den: nat)
    requires den > 0 && m <= n
    ensures RoundQuotient(m, den) <= RoundQuotient(n, den)
  {
    if m >= 0 {
      DivMono(2 * m + den, 2 * n + den, 2 * den);
    } else if n < 0 {
      DivMono(-2 * n + den, -2 * m + den, 2 * den);
    } else {
      DivMono(0, -2 * m + den, 2 * den);
      DivMono(0, 2 * n + den, 2 * den);
    }
  }

  lemma RoundWhole(k: int, den: nat)
    requires den > 0
    ensures RoundQuotient(k * den, den) == k
  {
    RoundNear(k * den, den);
    var r := RoundQuotient(k * den, den);
    Cancel(r, k, den) by { assert 2 * (r * den) - 2 * (k * den) <= den; }
    Cancel(k, r, den) by { assert 2 * (k * den) - 2 * (r * den) <= den; }
  }

  // ---- Sums over a table ----------------------------------------------------------------

  ghost function Total(rows: Table): int {
    if rows == map[] then 0
    else
      var k :| k in rows;
      rows[k].rating + Total(rows - {k})
  }

  lemma {:induction false} TotalWithout(rows: Table, k: RowKey)
    requires k in rows
    ensures Total(rows) == rows[k].rating + Total(rows - {k})
    decreases |rows|
  {
    var j :| j in rows && Total(rows) == rows[j].rating + Total(rows - {j});
    if j != k {
      TotalWithout(rows - {j}, k);
      TotalWithout(rows - {k}, j);
      assert rows - {j} - {k} == rows - {k} - {j};
    }
  }

  lemma RemoveFromJoin(a: Table, b: Table, k: RowKey)
    requires k !in a
    ensures a + b - {k} == a + (b - {k})
  {
  }

  lemma Smaller(rows: Table, k: RowKey)
    requires k in rows
    ensures |rows - {k}| == |rows| - 1
  {
    assert (rows - {k}).Keys == rows.Keys - {k};
  }

  lemma {:induction false} TotalJoin(a: Table, b: Table)
    requires a.Keys !! b.Keys
    ensures Total(a + b) == Total(a) + Total(b)
    decreases |b|
  {
    if b == map[] {
      assert a + b == a;
    } else {
      var k :| k in b;
      TotalWithout(b, k);
      TotalWithout(a + b, k);
      RemoveFromJoin(a, b, k);
      Smaller(b, k);
      TotalJoin(a, b - {k});
    }
  }

  lemma OneLess(x: int, n: int)
    ensures x * (n - 1) == x * n - x
  {
  }

  /** Every rating between `lo` and `hi` bounds the sum. */
  lemma {:induction false} TotalBetween(rows: Table, lo: int, hi: int)
    requires forall k :: k in rows ==> lo <= rows[k].rating <= hi
    ensures lo * |rows| <= Total(rows) <= hi * |rows|
    decreases |rows|
  {
    if rows != map[] {
      var k :| k in rows;
      TotalWithout(rows, k);
      TotalBetween(rows - {k}, lo, hi);
      Smaller(rows, k);
      OneLess(lo, |rows|);
      OneLess(hi, |rows|);
    }
  }

  ghost function Summarize(rows: Table): Summary {
    Summary(|rows|, Average(Total(rows), |rows|))
  }

  /** The published rating stays in the range of the ratings. */
  lemma RatingInRange(rows: Table, lo: int, hi: int)
    requires rows != map[] && forall k :: k in rows ==> lo <= rows[k].rating <= hi
    ensures 10 * lo <= Summarize(rows).tenths <= 10 * hi
  {
    TotalBetween(rows, lo, hi);
    AverageInRange(Total(rows), |rows|, lo, hi);
  }

  lemma AverageInRange(sum: int, n: nat, lo: int, hi: int)
    requires n > 0 && lo * n <= sum <= hi * n
    ensures 10 * lo <= Average(sum, n) <= 10 * hi
  {
    hide RoundQuotient;
    RoundWhole(10 * lo, n);
    RoundWhole(10 * hi, n);
    assert 10 * lo * n == 10 * (lo * n);
    assert 10 * hi * n == 10 * (hi * n);
    RoundMonotone(10 * lo * n, 10 * sum, n);
    RoundMonotone(10 * sum, 10 * hi * n, n);
  }

  /** It is within half a tenth of the exact mean: |tenths/10 - sum/count| <= 1/20. */
  lemma RatingNearMean(rows: Table)
    requires rows != map[]
    ensures var s := Summarize(rows);
            var diff := 2 * (s.tenths * |rows|) - 20 * Total(rows);
            && s.count == |rows|
            && if Total(rows) >= 0 then -(|rows| as int) < diff <= |rows| else -(|rows| as int) <= diff < |rows|
  {
    RoundNear(10 * Total(rows), |rows|);
  }

  // ---- Partition by partition -----------------------------------------------------------

  datatype Stats = Stats(count: nat, sum: int)

  ghost function StatsOf(rows: Table): Stats { Stats(|rows|, Total(rows)) }

  function AddStats(a: Stats, b: Stats): Stats { Stats(a.count + b.count, a.sum + b.sum) }

  ghost function StatsEach(rows: Table, ids: seq<Id>): Stats {
    if ids == [] then Stats(0, 0)
    else AddStats(StatsEach(rows, ids[..|ids| - 1]), StatsOf(Partition(rows, ids[|ids| - 1])))
  }

  lemma StatsJoin(a: Table, b: Table)
    requires a.Keys !! b.Keys
    ensures StatsOf(a + b) == AddStats(StatsOf(a), StatsOf(b))
  {
    hide Total;
    TotalJoin(a, b);
    JoinSize(a, b);
  }

  lemma JoinSize(a: Table, b: Table)
    requires a.Keys !! b.Keys
    ensures |a + b| == |a| + |b|
  {
    assert (a + b).Keys == a.Keys + b.Keys;
    assert |(a + b).Keys| == |a + b|;
  }

  lemma StatsOne(rows: Table, k: RowKey, r: Review)
    requires k !in rows
    ensures StatsOf(rows[k := r]) == AddStats(StatsOf(rows), Stats(1, r.rating))
  {
    TotalWithout(rows[k := r], k);
    Smaller(rows[k := r], k);
    assert rows[k := r] - {k} == rows;
  }

  lemma StatsNone()
    ensures StatsOf(map[]) == Stats(0, 0)
  {
  }

  lemma StatsStep(rows: Table, before: seq<Id>, last: Id)
    requires last !in before
    requires StatsEach(rows, before) == StatsOf(RowsIn(rows, before))
    ensures StatsEach(rows, before + [last]) == StatsOf(RowsIn(rows, before + [last]))
  {
    var ids := before + [last];
    assert ids[..|ids| - 1] == before;
    RowsInSplit(rows, before, last);
    StatsJoin(RowsIn(rows, before), Partition(rows, last));
  }

  lemma {:induction false} StatsEachIsStats(rows: Table, ids: seq<Id>)
    requires forall i, j :: 0 <= i < j < |ids| ==> ids[i] != ids[j]
    ensures StatsEach(rows, ids) == StatsOf(RowsIn(rows, ids))
    decreases |ids|
  {
    if ids == [] {
      NoRowsIn(rows);
    } else {
      Snoc(ids);
      StatsEachIsStats(rows, ids[..|ids| - 1]);
      StatsStep(rows, ids[..|ids| - 1], ids[|ids| - 1]);
    }
  }

  lemma SummaryIsRecount(w: World<Review, Summary>, ids: seq<Id>, title: Title)
    requires IsListing(ids, EventsOf(w.events, title))
    ensures var s := StatsEach(w.rows, ids);
            Summary(s.count, Average(s.sum, s.count)) == Recount(w, title, Summarize)
  {
    StatsEachIsStats(w.rows, ids);
    ListedRows(w.events, w.rows, ids, title);
  }

  // ---- Stores ---------------------------------------------------------------------------

  datatype Fetched = Row(user: User, review: Review) | NoRow | ReadError

  datatype Inserted = New(id: string) | Exists | Failed

  function Rewritten(r: Review, rating: Option<int>, comment: Option<string>, now: int): Review {
    r.(rating := if rating.Some? then rating.value else r.rating,
       comment := if comment.Some? then comment.value else r.comment,
       updatedAt := now)
  }

  /** The row an insert writes: none if the check saw a row, or if the write is lost. */
  predicate Inserts(rows: Table, key: RowKey, check: bool, w: Write) {
    !(check && key in rows) && !w.Lost?
  }

  class ReviewTable {
    var rows: Table

    constructor ()
      ensures rows == map[]
    {
      rows := map[];
    }

    /** Any error of the existence check is taken for "no such row". */
    method CreateReview(eventID: Id, userID: User, rating: int, comment: string, now: int, id: string, check: bool,
        w: Write)
      returns (r: Inserted)
      modifies this
      ensures r == if check && RowKey(eventID, userID) in old(rows) then Exists else if w.Acked? then New(id)
          else Failed
      ensures rows == if Inserts(old(rows), RowKey(eventID, userID), check, w)
                      then old(rows)[RowKey(eventID, userID) := Review(id, rating, comment, now, now)] else old(rows)
    {
      var key := RowKey(eventID, userID);
      if check && key in rows { return Exists; }
      if !w.Lost? {
        rows := rows[key := Review(id, rating, comment, now, now)];
      }
      r := if w.Acked? then New(id) else Failed;
    }

    /** Scan the event's partition for the review id. */
    method GetReview(eventID: Id, reviewID: string, ok: bool) returns (r: Fetched)
      ensures !ok ==> r == ReadError
      ensures r.Row? ==>
        RowKey(eventID, r.user) in rows && rows[RowKey(eventID, r.user)] == r.review && r.review.id == reviewID
      ensures ok && r.NoRow? ==> forall k :: k in rows && k.event == eventID ==> rows[k].id != reviewID
      ensures ok ==> !r.ReadError?
    {
      if !ok { return ReadError; }
      var partition := Partition(rows, eventID);
      var iter := partition.Keys;
      while iter != {}
        invariant iter <= partition.Keys
        invariant forall k :: k in partition && k !in iter ==> partition[k].id != reviewID
        decreases iter
      {
        var k :| k in iter;
        if partition[k].id == reviewID {
          return Row(k.user, partition[k]);
        }
        iter := iter - {k};
      }
      assert forall k :: k in rows && k.event == eventID ==> k in partition;
      return NoRow;
    }

    method UpdateReview(eventID: Id, userID: User, rating: Option<int>, comment: Option<string>, now: int, ok: bool,
        w: Write)
      returns (s: Status)
      modifies this
      ensures s == if !ok then Internal else if RowKey(eventID, userID) !in old(rows) then NotFound
                   else if w.Acked? then Ok else Internal
      ensures rows == if ok && RowKey(eventID, userID) in old(rows) && !w.Lost?
                      then old(rows)[RowKey(eventID, userID) :=
                             Rewritten(old(rows)[RowKey(eventID, userID)], rating, comment, now)]
                      else old(rows)
    {
      var key := RowKey(eventID, userID);
      if !ok { return Internal; }
      if key !in rows { return NotFound; }
      if !w.Lost? {
        rows := rows[key := Rewritten(rows[key], rating, comment, now)];
      }
      s := if w.Acked? then Ok else Internal;
    }

    method GetReviewStatsByEventIDs(eventIDs: seq<Id>, ok: bool) returns (stats: Option<Stats>)
      ensures stats.Some? <==> ok
      ensures ok ==> stats.value == StatsEach(rows, eventIDs)
    {
      hide StatsOf, Partition;
      if !ok { return None; }
      var total := Stats(0, 0);
      for i := 0 to |eventIDs|
        invariant total == StatsEach(rows, eventIDs[..i])
      {
        assert eventIDs[..i + 1][..i] == eventIDs[..i];
        var one := ScanRatings(eventIDs[i]);
        total := AddStats(total, one);
      }
      assert eventIDs[..|eventIDs|] == eventIDs;
      return Some(total);
    }

    method ScanRatings(eventID: Id) returns (stats: Stats)
      ensures stats == StatsOf(Partition(rows, eventID))
    {
      hide StatsOf;
      var partition := Partition(rows, eventID);
      var iter := partition.Keys;
      ghost var scanned: Table := map[];
      StatsNone();
      var count: nat, sum := 0, 0;
      while iter != {}
        invariant scanned == partition - iter && iter <= partition.Keys
        invariant Stats(count, sum) == StatsOf(scanned)
        decreases iter
      {
        var k :| k in iter;
        StatsOne(scanned, k, partition[k]);
        count, sum := count + 1, sum + partition[k].rating;
        scanned := scanned[k := partition[k]];
        iter := iter - {k};
      }
      assert scanned == partition;
      stats := Stats(count, sum);
    }
  }

  // ---- What each operation writes -------------------------------------------------------

  type W = World<Review, Summary>

  /** How the calls of updateReviewCache end. */
  datatype CacheFaults = CacheFaults(getEvent: bool, list: bool, stats: bool, publish: Write)

  ghost function CacheSteps(w: W, req: string, f: CacheFaults, ttl: nat): seq<Step<Review>> {
    var found := Find(w.events, req, f.getEvent);
    if found.Found? && f.list && f.stats && !f.publish.Lost? then [Publish(found.doc.title, ttl)] else []
  }

  datatype CreateReq = CreateReq(event: string, user: User, rating: int, comment: string, id: string)

  datatype CreateFaults = CreateFaults(getEvent: bool, check: bool, insert: Write, cache: CacheFaults)

  /** The row is written before its acknowledgement decides whether the cache is refreshed. */
  ghost function CreateSteps(w: W, q: CreateReq, now: int, f: CreateFaults, ttl: nat): seq<Step<Review>> {
    var key := RowKey(q.event, q.user);
    if !Find(w.events, q.event, f.getEvent).Found? || !Inserts(w.rows, key, f.check, f.insert) then []
    else [PutRow(key, Review(q.id, q.rating, q.comment, now, now))] +
         (if f.insert.Acked? then CacheSteps(w, q.event, f.cache, ttl) else [])
  }

  datatype UpdateReq = UpdateReq(event: string, review: string, user: User, rating: Option<int>,
    comment: Option<string>)

  datatype UpdateFaults = UpdateFaults(getEvent: bool, get: bool, reread: bool, write: Write, cache: CacheFaults)

  /** The review the request names, seen from the caller: theirs, someone else's, or nobody's. */
  ghost predicate Owns(rows: Table, q: UpdateReq) {
    RowKey(q.event, q.user) in rows && rows[RowKey(q.event, q.user)].id == q.review
  }

  /** The review exists under the event, whoever wrote it. */
  ghost predicate Names(rows: Table, q: UpdateReq) {
    exists k :: k in rows && k.event == q.event && rows[k].id == q.review
  }

  ghost function UpdateStatus(docs: map<Id, Doc>, rows: Table, q: UpdateReq, f: UpdateFaults): Status {
    var found := Find(docs, q.event, f.getEvent);
    if found.Missing? || (found.Found? && f.get && !Names(rows, q)) then NotFound
    else if found.Found? && f.get && !Owns(rows, q) then Forbidden
    else if found.Found? && f.get && f.reread && f.write.Acked? then Ok
    else Internal
  }

  ghost function UpdateSteps(w: W, q: UpdateReq, now: int, f: UpdateFaults, ttl: nat): seq<Step<Review>> {
    var key := RowKey(q.event, q.user);
    if !Find(w.events, q.event, f.getEvent).Found? || !f.get || !Owns(w.rows, q) || !f.reread || f.write.Lost? then []
    else [PutRow(key, Rewritten(w.rows[key], q.rating, q.comment, now))] +
         (if f.write.Acked? then CacheSteps(w, q.event, f.cache, ttl) else [])
  }

  /** Review ids are unique: a fresh id is given to every insert. */
  ghost predicate UniqueIds(rows: Table) {
    forall j, k :: j in rows && k in rows && rows[j].id == rows[k].id ==> j == k
  }

  class ReviewService {
    const store: EventStore
    const table: ReviewTable
    const cache: CacheStore<Summary>
    const ttl: nat

    constructor (store: EventStore, table: ReviewTable, cache: CacheStore<Summary>, ttl: nat)
      ensures this.store == store && this.table == table && this.cache == cache && this.ttl == ttl
    {
      this.store, this.table, this.cache, this.ttl := store, table, cache, ttl;
    }

    ghost function World(now: nat): W
      reads store, table, cache
    {
      TitleCache.World(store.docs, table.rows, cache.entries, now)
    }

    method CreateReview(q: CreateReq, now: nat, f: CreateFaults) returns (s: Status)
      modifies table, cache
      ensures World(now) == Run(old(World(now)), CreateSteps(old(World(now)), q, now, f, ttl), Summarize)
      ensures var found := Find(store.docs, q.event, f.getEvent);
              s == if found.Missing? then NotFound else if found.Broken? then Internal
                   else if f.check && RowKey(q.event, q.user) in old(table.rows) then AlreadyExists
                   else if f.insert.Acked? then Ok else Internal
    {
      ghost var w := World(now);
      var found := store.GetEvent(q.event, f.getEvent);
      if found.Missing? { return NotFound; }
      if found.Broken? { return Internal; }
      var r := table.CreateReview(q.event, q.user, q.rating, q.comment, now, q.id, f.check, f.insert);
      ghost var put := PutRow(RowKey(q.event, q.user), Review(q.id, q.rating, q.comment, now, now));
      RunOne(w, put, Summarize);
      if r.Exists? { return AlreadyExists; }
      if r.Failed? {
        assert [put] + [] == [put];
        return Internal;
      }
      RunAppend(w, [put], CacheSteps(w, q.event, f.cache, ttl), Summarize);
      UpdateReviewCache(q.event, now, f.cache);
      s := Ok;
    }

    method UpdateReview(q: UpdateReq, now: nat, f: UpdateFaults) returns (s: Status)
      requires UniqueIds(table.rows)
      modifies table, cache
      ensures World(now) == Run(old(World(now)), UpdateSteps(old(World(now)), q, now, f, ttl), Summarize)
      ensures s == UpdateStatus(store.docs, old(table.rows), q, f)
    {
      ghost var w := World(now);
      var found := store.GetEvent(q.event, f.getEvent);
      if found.Missing? { return NotFound; }
      if found.Broken? { return Internal; }
      var fetched := table.GetReview(q.event, q.review, f.get);
      if fetched.NoRow? { return NotFound; }
      if fetched.ReadError? { return Internal; }
      ghost var seen := RowKey(q.event, fetched.user);
      if fetched.user != q.user {
        assert seen in table.rows && table.rows[seen].id == q.review;
        return Forbidden;
      }
      ghost var put := PutRow(seen, Rewritten(table.rows[seen], q.rating, q.comment, now));
      RunOne(w, put, Summarize);
      s := table.UpdateReview(q.event, q.user, q.rating, q.comment, now, f.reread, f.write);
      if s != Ok {
        assert [put] + [] == [put];
        return;
      }
      RunAppend(w, [put], CacheSteps(w, q.event, f.cache, ttl), Summarize);
      UpdateReviewCache(q.event, now, f.cache);
    }

    /** Errors here are only logged by the callers. */
    method UpdateReviewCache(req: string, now: nat, f: CacheFaults)
      modifies cache
      ensures World(now) == Run(old(World(now)), CacheSteps(old(World(now)), req, f, ttl), Summarize)
    {
      var found := store.GetEvent(req, f.getEvent);
      if !found.Found? { return; }
      var summary := ReviewsByTitleNoCache(found.doc.title, now, f.list, f.stats);
      if summary.None? { return; }
      RunOne(World(now), Publish(found.doc.title, ttl), Summarize);
      var _ := cache.Set(found.doc.title, summary.value, now, ttl, f.publish);
    }

    method ReviewsByTitleNoCache(title: Title, ghost now: nat, list: bool, stats: bool) returns (r: Option<Summary>)
      ensures r == if list && stats then Some(Recount(World(now), title, Summarize)) else None
    {
      var ids := store.GetEventsByTitle(title, list);
      if ids.None? { return None; }
      var s := table.GetReviewStatsByEventIDs(ids.value, stats);
      if s.None? { return None; }
      SummaryIsRecount(World(now), ids.value, title);
      r := Some(Summary(s.value.count, Average(s.value.sum, s.value.count)));
    }

    method GetReviewsByTitle(title: Title, now: nat, f: ReadFaults) returns (r: Option<Summary>)
      modifies cache
      ensures World(now) == Run(old(World(now)), ReadSteps(old(World(now)), title, f, ttl, Summarize, Summary(0, 0)),
          Summarize)
      ensures r == ReadAnswer(old(World(now)), title, f, Summarize, Summary(0, 0))
    {
      var cached := cache.Get(title, now, f.get);
      if cached.None? { return None; }
      if cached.value.Some? { return cached.value; }
      var summary := ReviewsByTitleNoCache(title, now, f.list, f.count);
      if summary.None? { return None; }
      if summary.value.count > 0 {
        RunOne(World(now), Publish(title, ttl), Summarize);
        var ok := cache.Set(title, summary.value, now, ttl, f.publish);
        if !ok { return None; }
      }
      r := summary;
    }
  }
}
