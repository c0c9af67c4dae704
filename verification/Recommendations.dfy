/** From scored event ids to the list a user sees: fetch, keep one event per title, rank, cache. */
module Recommendations {
  import opened Backend
  import opened Text
  import opened Rfc3339
  import opened TitleCache
  import opened EventStore
  import opened LikeGraph

  datatype EventData = EventData(id: Id, title: Title, category: string, price: int, description: string,
                                 address: string, city: string, createdAt: Instant, createdBy: User,
                                 startedAt: Instant, finishedAt: Instant)

  // ---- Deduplication by title -----------------------------------------------------------

  /** Position of the title's entry, or the length. */
  function IndexOf(events: seq<EventData>, title: Title): (i: nat)
    ensures i <= |events|
    ensures i < |events| ==> events[i].title == title
    ensures forall j :: 0 <= j < i ==> events[j].title != title
  {
    if |events| == 0 then 0
    else if events[0].title == title then 0
    else 1 + IndexOf(events[1..], title)
  }

  /** One turn of the loop: replace a later-starting entry in place, or append. */
  function Put(result: seq<EventData>, e: EventData): (r: seq<EventData>) {
    var i := IndexOf(result, e.title);
    if i == |result| then result + [e]
    else if e.startedAt < result[i].startedAt then result[i := e]
    else result
  }

  function PutAll(result: seq<EventData>, events: seq<EventData>): seq<EventData>
    decreases |events|
  {
    if events == [] then result else Put(PutAll(result, events[..|events| - 1]), events[|events| - 1])
  }

  function Dedup(events: seq<EventData>): seq<EventData> { PutAll([], events) }

  predicate TitlesDistinct(events: seq<EventData>) {
    forall i, j :: 0 <= i < j < |events| ==> events[i].title != events[j].title
  }

  /** The map of the loop points at each title's only entry. */
  ghost predicate Indexes(seen: map<Title, nat>, result: seq<EventData>) {
    && TitlesDistinct(result)
    && (forall t :: t in seen ==> seen[t] < |result| && result[seen[t]].title == t)
    && (forall i :: 0 <= i < |result| ==> result[i].title in seen)
  }

  lemma PutFound(seen: map<Title, nat>, result: seq<EventData>, e: EventData)
    requires Indexes(seen, result) && e.title in seen
    ensures seen[e.title] < |result|
    ensures Put(result, e) ==
      if e.startedAt < result[seen[e.title]].startedAt then result[seen[e.title] := e] else result
    ensures Indexes(seen, Put(result, e))
  {
    hide IndexOf;
  }

  lemma PutNew(seen: map<Title, nat>, result: seq<EventData>, e: EventData)
    requires Indexes(seen, result) && e.title !in seen
    ensures Put(result, e) == result + [e]
    ensures Indexes(seen[e.title := |result|], result + [e])
  {
    hide IndexOf;
  }

  method DeduplicateByTitle(events: seq<EventData>) returns (result: seq<EventData>)
    ensures result == Dedup(events)
  {
    hide Put;
    var seen: map<Title, nat> := map[];
    result := [];
    for k := 0 to |events|
      invariant result == PutAll([], events[..k])
      invariant Indexes(seen, result)
    {
      hide Indexes;
      assert events[..k + 1][..k] == events[..k];
      var event := events[k];
      if event.title in seen {
        PutFound(seen, result, event);
        var idx := seen[event.title];
        if event.startedAt < result[idx].startedAt {
          result := result[idx := event];
        }
      } else {
        PutNew(seen, result, event);
        seen := seen[event.title := |result|];
        result := result + [event];
      }
    }
    assert events[..|events|] == events;
  }

  /** The event kept for its title: earliest start, first fetched on a tie. */
  ghost predicate Wins(events: seq<EventData>, k: nat) {
    k < |events| && forall j :: 0 <= j < |events| && events[j].title == events[k].title ==>
      events[k].startedAt <= events[j].startedAt && (j < k ==> events[k].startedAt < events[j].startedAt)
  }

  ghost predicate Kept(events: seq<EventData>, e: EventData) {
    exists k: nat :: Wins(events, k) && events[k] == e
  }

  /** One kept event per title, in the order the titles first appear. */
  ghost predicate IsDedup(events: seq<EventData>, r: seq<EventData>) {
    && (forall i :: 0 <= i < |r| ==> Kept(events, r[i]))
    && (forall e :: e in events ==> exists i :: 0 <= i < |r| && r[i].title == e.title)
    && (forall i, j :: 0 <= i < j < |r| ==> IndexOf(events, r[i].title) < IndexOf(events, r[j].title))
  }

  lemma {:induction false} IndexOfAppend(a: seq<EventData>, b: seq<EventData>, title: Title)
    ensures IndexOf(a + b, title) == if IndexOf(a, title) < |a| then IndexOf(a, title) else |a| + IndexOf(b, title)
  {
    if |a| == 0 {
      assert a + b == b;
    } else {
      assert (a + b)[1..] == a[1..] + b;
      IndexOfAppend(a[1..], b, title);
    }
  }

  lemma KeptAppend(events: seq<EventData>, e: EventData, r: EventData)
    requires Kept(events, r)
    requires r.title == e.title ==> r.startedAt <= e.startedAt
    ensures Kept(events + [e], r)
  {
    var k: nat :| Wins(events, k) && events[k] == r;
    assert Wins(events + [e], k);
  }

  lemma NewlyKept(events: seq<EventData>, e: EventData)
    requires forall j :: 0 <= j < |events| && events[j].title == e.title ==> e.startedAt < events[j].startedAt
    ensures Kept(events + [e], e)
  {
    assert Wins(events + [e], |events|);
  }

  lemma KeptAppears(events: seq<EventData>, x: EventData)
    requires Kept(events, x)
    ensures IndexOf(events, x.title) < |events|
  {
    var k: nat :| Wins(events, k) && events[k] == x;
  }

  /** Where the titles of a deduplicated list first appear, before and after one more event. */
  lemma PlacesStay(events: seq<EventData>, r: seq<EventData>, e: EventData)
    requires forall i :: 0 <= i < |r| ==> Kept(events, r[i])
    ensures forall i :: 0 <= i < |r| ==>
      IndexOf(events, r[i].title) < |events| && IndexOf(events + [e], r[i].title) == IndexOf(events, r[i].title)
  {
    hide Kept;
    forall i | 0 <= i < |r|
      ensures IndexOf(events, r[i].title) < |events| && IndexOf(events + [e], r[i].title) == IndexOf(events, r[i].title)
    {
      KeptAppears(events, r[i]);
      IndexOfAppend(events, [e], r[i].title);
    }
  }

  /** A title without an entry has not been fetched. */
  lemma NoEntryNoEvent(events: seq<EventData>, r: seq<EventData>, title: Title)
    requires IsDedup(events, r) && IndexOf(r, title) == |r|
    ensures IndexOf(events, title) == |events|
    ensures forall j :: 0 <= j < |events| ==> events[j].title != title
  {
    forall j | 0 <= j < |events| ensures events[j].title != title {
      assert events[j] in events;
      var y :| 0 <= y < |r| && r[y].title == events[j].title;
    }
  }

  lemma StepKept(events: seq<EventData>, r: seq<EventData>, e: EventData, j: nat)
    requires forall i :: 0 <= i < |r| ==> Kept(events, r[i])
    requires TitlesDistinct(r) && j < |Put(r, e)|
    requires IndexOf(r, e.title) == |r| ==> forall j :: 0 <= j < |events| ==> events[j].title != e.title
    ensures Kept(events + [e], Put(r, e)[j])
  {
    hide Kept;
    var p, i := Put(r, e), IndexOf(r, e.title);
    if j < |r| && p[j] == r[j] {
      KeptAppend(events, e, r[j]);
    } else if i < |r| {
      LaterThanKept(events, r[i], e);
      NewlyKept(events, e);
    } else {
      NewlyKept(events, e);
    }
  }

  lemma LaterThanKept(events: seq<EventData>, kept: EventData, e: EventData)
    requires Kept(events, kept) && kept.title == e.title && e.startedAt < kept.startedAt
    ensures forall j :: 0 <= j < |events| && events[j].title == e.title ==> e.startedAt < events[j].startedAt
  {
  }

  lemma StepCovers(r: seq<EventData>, e: EventData, title: Title)
    requires title == e.title || exists j :: 0 <= j < |r| && r[j].title == title
    ensures exists j :: 0 <= j < |Put(r, e)| && Put(r, e)[j].title == title
  {
    var p, i := Put(r, e), IndexOf(r, e.title);
    if title == e.title {
      assert p[i].title == e.title;
    } else {
      var y :| 0 <= y < |r| && r[y].title == title;
      assert p[y].title == title;
    }
  }

  lemma StepOrder(events: seq<EventData>, r: seq<EventData>, e: EventData)
    requires IsDedup(events, r)
    ensures var p := Put(r, e);
            forall i, j :: 0 <= i < j < |p| ==> IndexOf(events + [e], p[i].title) < IndexOf(events + [e], p[j].title)
  {
    hide Kept, IndexOf;
    var p := Put(r, e);
    forall j | 0 <= j < |p|
      ensures j < |r| ==>
        IndexOf(events, r[j].title) < |events| && IndexOf(events + [e], p[j].title) == IndexOf(events, r[j].title)
      ensures j == |r| ==> IndexOf(events + [e], p[j].title) == |events|
    {
      PlaceOf(events, r, e, j);
    }
  }

  /** Replacing keeps the titles; appending adds one that had no entry. */
  lemma PutTitles(r: seq<EventData>, e: EventData)
    ensures |r| <= |Put(r, e)| <= |r| + 1
    ensures forall j :: 0 <= j < |r| ==> Put(r, e)[j].title == r[j].title
    ensures |Put(r, e)| > |r| ==> IndexOf(r, e.title) == |r| && Put(r, e)[|r|].title == e.title
  {
  }

  lemma PlaceOf(events: seq<EventData>, r: seq<EventData>, e: EventData, j: nat)
    requires IsDedup(events, r) && j < |Put(r, e)|
    ensures j < |r| ==> IndexOf(events, r[j].title) < |events| &&
                        IndexOf(events + [e], Put(r, e)[j].title) == IndexOf(events, r[j].title)
    ensures j >= |r| ==> j == |r| && IndexOf(events + [e], Put(r, e)[j].title) == |events|
  {
    PutTitles(r, e);
    hide Kept, Put;
    if j < |r| {
      PlacesStay(events, r, e);
    } else {
      NoEntryNoEvent(events, r, e.title);
      IndexOfAppend(events, [e], e.title);
    }
  }

  lemma DistinctOfDedup(events: seq<EventData>, r: seq<EventData>)
    requires IsDedup(events, r)
    ensures TitlesDistinct(r)
  {
    hide Kept;
    forall i, j | 0 <= i < j < |r| ensures r[i].title != r[j].title {
      assert IndexOf(events, r[i].title) < IndexOf(events, r[j].title);
    }
  }

  lemma DedupStep(events: seq<EventData>, r: seq<EventData>, e: EventData)
    requires IsDedup(events, r)
    ensures IsDedup(events + [e], Put(r, e))
  {
    hide Kept, Put;
    StepOrder(events, r, e);
    DistinctOfDedup(events, r);
    if IndexOf(r, e.title) == |r| { NoEntryNoEvent(events, r, e.title); }
    forall j | 0 <= j < |Put(r, e)| ensures Kept(events + [e], Put(r, e)[j]) { StepKept(events, r, e, j); }
    forall x | x in events + [e] ensures exists j :: 0 <= j < |Put(r, e)| && Put(r, e)[j].title == x.title {
      StepCovers(r, e, x.title);
    }
  }

  /** The loop keeps exactly one event per title, each the earliest, in first-appearance order. */
  lemma {:induction false} DedupIsDedup(events: seq<EventData>)
    ensures IsDedup(events, Dedup(events))
    decreases |events|
  {
    if events != [] {
      Snoc(events);
      DedupIsDedup(events[..|events| - 1]);
      DedupStep(events[..|events| - 1], Dedup(events[..|events| - 1]), events[|events| - 1]);
    }
  }

  // ---- Deduplication is incremental -----------------------------------------------------

  lemma {:induction false} PutAllAppend(r: seq<EventData>, a: seq<EventData>, b: seq<EventData>)
    ensures PutAll(r, a + b) == PutAll(PutAll(r, a), b)
    decreases |b|
  {
    if b == [] {
      assert a + b == a;
    } else {
      var n := |b| - 1;
      assert (a + b)[..|a + b| - 1] == a + b[..n];
      PutAllAppend(r, a, b[..n]);
    }
  }

  lemma {:induction false} DistinctAppend(r: seq<EventData>, s: seq<EventData>)
    requires TitlesDistinct(r + s)
    ensures PutAll(r, s) == r + s
    decreases |s|
  {
    if s == [] {
      assert r + s == r;
    } else {
      var n := |s| - 1;
      assert r + s == (r + s[..n]) + [s[n]];
      DistinctInit(r + s[..n], s[n]);
      DistinctAppend(r, s[..n]);
    }
  }

  lemma DistinctInit(a: seq<EventData>, x: EventData)
    requires TitlesDistinct(a + [x])
    ensures TitlesDistinct(a) && IndexOf(a, x.title) == |a|
  {
    assert (a + [x])[|a|] == x;
    assert forall i :: 0 <= i < |a| ==> (a + [x])[i] == a[i];
  }

  lemma DedupDistinct(events: seq<EventData>)
    ensures TitlesDistinct(Dedup(events))
  {
    DedupIsDedup(events);
    DistinctOfDedup(events, Dedup(events));
  }

  /** Deduplicating a deduplicated prefix with the rest gives the same list; so it is idempotent. */
  lemma DedupIncremental(a: seq<EventData>, b: seq<EventData>)
    ensures Dedup(a + b) == Dedup(Dedup(a) + b)
    ensures Dedup(Dedup(a)) == Dedup(a)
  {
    DedupDistinct(a);
    assert [] + Dedup(a) == Dedup(a);
    DistinctAppend([], Dedup(a));
    PutAllAppend([], a, b);
    PutAllAppend([], Dedup(a), b);
  }

  // ---- Ranking --------------------------------------------------------------------------

  /** Sum of the scores recommended for a title. */
  function TitleScore(recs: seq<Recommended>, title: Title): int {
    if recs == [] then 0
    else TitleScore(recs[..|recs| - 1], title) + (if recs[|recs| - 1].title == title then recs[|recs| - 1].score else 0)
  }

  method TotalScores(recs: seq<Recommended>) returns (titleScore: map<Title, int>)
    ensures forall t :: ScoreIn(titleScore, t) == TitleScore(recs, t)
  {
    titleScore := map[];
    for i := 0 to |recs|
      invariant forall t :: ScoreIn(titleScore, t) == TitleScore(recs[..i], t)
    {
      assert recs[..i + 1][..i] == recs[..i];
      titleScore := titleScore[recs[i].title := ScoreIn(titleScore, recs[i].title) + recs[i].score];
    }
    assert recs[..|recs|] == recs;
  }

  /** A missing map key reads as zero. */
  function ScoreIn(m: map<Title, int>, t: Title): int {
    if t in m then m[t] else 0
  }

  /** Place `e` behind every element that does not score less. */
  function Insert(sorted: seq<EventData>, e: EventData, score: map<Title, int>): seq<EventData> {
    if sorted == [] || ScoreIn(score, sorted[|sorted| - 1].title) >= ScoreIn(score, e.title) then sorted + [e]
    else Insert(sorted[..|sorted| - 1], e, score) + [sorted[|sorted| - 1]]
  }

  /** sort.SliceStable by descending score, as insertion from the left. */
  function StableSort(events: seq<EventData>, score: map<Title, int>): seq<EventData> {
    if events == [] then []
    else Insert(StableSort(events[..|events| - 1], score), events[|events| - 1], score)
  }

  /** Higher total first; equal totals in the order their titles were first fetched. */
  ghost predicate RanksBefore(fetched: seq<EventData>, recs: seq<Recommended>, x: EventData, y: EventData) {
    var a, b := TitleScore(recs, x.title), TitleScore(recs, y.title);
    a > b || (a == b && IndexOf(fetched, x.title) < IndexOf(fetched, y.title))
  }

  ghost predicate Ranked(fetched: seq<EventData>, recs: seq<Recommended>, out: seq<EventData>) {
    forall i, j :: 0 <= i < j < |out| ==> RanksBefore(fetched, recs, out[i], out[j])
  }

  /** The list: every title of a fetched event once, as its kept event, in rank order. */
  ghost predicate IsRecommendation(fetched: seq<EventData>, recs: seq<Recommended>, out: seq<EventData>) {
    && (forall e :: e in out ==> Kept(fetched, e))
    && (forall e :: e in fetched ==> exists r :: r in out && r.title == e.title)
    && Ranked(fetched, recs, out)
  }

  lemma {:induction false} InsertKeeps(sorted: seq<EventData>, e: EventData, score: map<Title, int>)
    ensures |Insert(sorted, e, score)| == |sorted| + 1
    ensures forall x :: x in Insert(sorted, e, score) <==> x == e || x in sorted
    decreases |sorted|
  {
    if !(sorted == [] || ScoreIn(score, sorted[|sorted| - 1].title) >= ScoreIn(score, e.title)) {
      Snoc(sorted);
      InsertKeeps(sorted[..|sorted| - 1], e, score);
    }
  }

  lemma {:induction false} InsertRanks(fetched: seq<EventData>, recs: seq<Recommended>, sorted: seq<EventData>,
      e: EventData, score: map<Title, int>)
    requires forall t :: ScoreIn(score, t) == TitleScore(recs, t)
    requires Ranked(fetched, recs, sorted)
    requires forall x :: x in sorted ==> IndexOf(fetched, x.title) < IndexOf(fetched, e.title)
    ensures Ranked(fetched, recs, Insert(sorted, e, score))
    decreases |sorted|
  {
    hide TitleScore, IndexOf;
    if sorted == [] {
    } else if ScoreIn(score, sorted[|sorted| - 1].title) >= ScoreIn(score, e.title) {
      forall i | 0 <= i < |sorted| ensures RanksBefore(fetched, recs, sorted[i], e) {
        assert sorted[i] in sorted;
        if i < |sorted| - 1 { assert RanksBefore(fetched, recs, sorted[i], sorted[|sorted| - 1]); }
      }
    } else {
      var init, last := sorted[..|sorted| - 1], sorted[|sorted| - 1];
      InsertRanks(fetched, recs, init, e, score);
      InsertKeeps(init, e, score);
      var p := Insert(init, e, score);
      forall i | 0 <= i < |p| ensures RanksBefore(fetched, recs, p[i], last) {
        assert p[i] in p;
        if p[i] != e {
          var k :| 0 <= k < |init| && init[k] == p[i];
          assert sorted[k] == p[i];
        }
      }
    }
  }

  lemma {:induction false} SortRanks(fetched: seq<EventData>, recs: seq<Recommended>, d: seq<EventData>,
      score: map<Title, int>)
    requires forall t :: ScoreIn(score, t) == TitleScore(recs, t)
    requires forall i, j :: 0 <= i < j < |d| ==> IndexOf(fetched, d[i].title) < IndexOf(fetched, d[j].title)
    ensures Ranked(fetched, recs, StableSort(d, score))
    ensures forall x :: x in StableSort(d, score) <==> x in d
    decreases |d|
  {
    if d != [] {
      hide TitleScore, IndexOf, Ranked, Insert;
      var init, last := d[..|d| - 1], d[|d| - 1];
      Snoc(d);
      SortRanks(fetched, recs, init, score);
      forall x | x in StableSort(init, score) ensures IndexOf(fetched, x.title) < IndexOf(fetched, last.title) {
        var k :| 0 <= k < |init| && init[k] == x;
        assert d[k] == x;
      }
      InsertRanks(fetched, recs, StableSort(init, score), last, score);
      InsertKeeps(StableSort(init, score), last, score);
    }
  }

  /** Deduplicating and sorting the fetched events yields the recommendation list. */
  lemma PipelineRecommends(fetched: seq<EventData>, recs: seq<Recommended>, score: map<Title, int>)
    requires forall t :: ScoreIn(score, t) == TitleScore(recs, t)
    ensures IsRecommendation(fetched, recs, StableSort(Dedup(fetched), score))
  {
    var d := Dedup(fetched);
    DedupIsDedup(fetched);
    SortRanks(fetched, recs, d, score);
    forall e | e in fetched ensures exists r :: r in StableSort(d, score) && r.title == e.title {
      var i :| 0 <= i < |d| && d[i].title == e.title;
      assert d[i] in StableSort(d, score);
    }
  }

  lemma NothingRecommended()
    ensures IsRecommendation([], [], [])
  {
  }

  // ---- The list is unique ---------------------------------------------------------------

  lemma KeptUnique(events: seq<EventData>, x: EventData, y: EventData)
    requires Kept(events, x) && Kept(events, y) && x.title == y.title
    ensures x == y
  {
    var i: nat :| Wins(events, i) && events[i] == x;
    var j: nat :| Wins(events, j) && events[j] == y;
    assert events[i].title == events[j].title;
  }

  lemma SameMembers(fetched: seq<EventData>, recs: seq<Recommended>, a: seq<EventData>, b: seq<EventData>)
    requires IsRecommendation(fetched, recs, a) && IsRecommendation(fetched, recs, b)
    ensures forall e :: e in a ==> e in b
  {
    forall e | e in a ensures e in b {
      var k: nat :| Wins(fetched, k) && fetched[k] == e;
      assert e in fetched;
      var r :| r in b && r.title == e.title;
      KeptUnique(fetched, e, r);
    }
  }

  lemma {:induction false} RankedUnique(fetched: seq<EventData>, recs: seq<Recommended>, a: seq<EventData>,
      b: seq<EventData>)
    requires Ranked(fetched, recs, a) && Ranked(fetched, recs, b)
    requires forall e :: e in a <==> e in b
    ensures a == b
    decreases |a|
  {
    HeadIsMember(a);
    HeadIsMember(b);
    if a != [] {
      HeadRanksFirst(fetched, recs, a, b[0]);
      HeadRanksFirst(fetched, recs, b, a[0]);
      TailMembers(fetched, recs, a, b);
      RankedUnique(fetched, recs, a[1..], b[1..]);
      assert a == [a[0]] + a[1..] && b == [b[0]] + b[1..];
    }
  }

  lemma HeadRanksFirst(fetched: seq<EventData>, recs: seq<Recommended>, s: seq<EventData>, x: EventData)
    requires Ranked(fetched, recs, s) && x in s
    ensures x == s[0] || RanksBefore(fetched, recs, s[0], x)
  {
  }

  lemma HeadIsMember<T>(s: seq<T>)
    ensures |s| > 0 ==> s[0] in s
  {
  }

  lemma TailMembers(fetched: seq<EventData>, recs: seq<Recommended>, a: seq<EventData>, b: seq<EventData>)
    requires Ranked(fetched, recs, a) && Ranked(fetched, recs, b)
    requires forall e :: e in a <==> e in b
    requires |a| > 0 && |b| > 0 && a[0] == b[0]
    ensures forall e :: e in a[1..] <==> e in b[1..]
  {
    forall e ensures e in a[1..] <==> e in a && e != a[0] { TailOf(fetched, recs, a, e); }
    forall e ensures e in b[1..] <==> e in b && e != b[0] { TailOf(fetched, recs, b, e); }
  }

  lemma TailOf(fetched: seq<EventData>, recs: seq<Recommended>, a: seq<EventData>, e: EventData)
    requires Ranked(fetched, recs, a) && |a| > 0
    ensures e in a[1..] <==> e in a && e != a[0]
  {
    assert a == [a[0]] + a[1..];
    if e in a[1..] {
      var k :| 0 <= k < |a[1..]| && a[1..][k] == e;
      assert RanksBefore(fetched, recs, a[0], a[k + 1]);
    }
  }

  /** There is one such list, so the pipeline's answer is fixed by what was fetched and scored. */
  lemma RecommendationUnique(fetched: seq<EventData>, recs: seq<Recommended>, a: seq<EventData>, b: seq<EventData>)
    requires IsRecommendation(fetched, recs, a) && IsRecommendation(fetched, recs, b)
    ensures a == b
  {
    SameMembers(fetched, recs, a, b);
    SameMembers(fetched, recs, b, a);
    RankedUnique(fetched, recs, a, b);
  }

  // ---- Totals in terms of the graph -----------------------------------------------------

  /** Over the events, and over the other users who like each: how many likes they share with the user. */
  ghost function CommonLikes(likes: set<Like>, user: User, ids: set<Id>): nat {
    if ids == {} then 0
    else
      var e :| e in ids;
      CommonTotal(likes, user, LikersOf(likes, e) - {user}) + CommonLikes(likes, user, ids - {e})
  }

  /** The events the query recommends under a title. */
  ghost function Candidates(likes: set<Like>, titles: map<Id, Title>, user: User, title: Title): set<Id> {
    set e | e in titles && titles[e] == title && Score(likes, user, e) > 0
  }

  lemma {:induction false} CommonLikesWithout(likes: set<Like>, user: User, ids: set<Id>, e: Id)
    requires e in ids
    ensures CommonLikes(likes, user, ids) ==
      CommonTotal(likes, user, LikersOf(likes, e) - {user}) + CommonLikes(likes, user, ids - {e})
    decreases ids
  {
    hide CommonTotal, LikersOf;
    var x :| x in ids && CommonLikes(likes, user, ids) ==
      CommonTotal(likes, user, LikersOf(likes, x) - {user}) + CommonLikes(likes, user, ids - {x});
    if x != e {
      CommonLikesWithout(likes, user, ids - {x}, e);
      CommonLikesWithout(likes, user, ids - {e}, x);
      assert ids - {x} - {e} == ids - {e} - {x};
    }
  }

  ghost function ListedIds(recs: seq<Recommended>, title: Title): set<Id> {
    set i | 0 <= i < |recs| && recs[i].title == title :: recs[i].id
  }

  lemma {:induction false} TitleScoreOfListed(likes: set<Like>, user: User, recs: seq<Recommended>, title: Title)
    requires forall i :: 0 <= i < |recs| ==>
      recs[i].score == CommonTotal(likes, user, LikersOf(likes, recs[i].id) - {user})
    requires forall i, j :: 0 <= i < j < |recs| ==> recs[i].id != recs[j].id
    ensures TitleScore(recs, title) == CommonLikes(likes, user, ListedIds(recs, title))
    decreases |recs|
  {
    hide CommonTotal, LikersOf;
    if recs == [] {
      assert ListedIds(recs, title) == {};
    } else {
      var init, last := recs[..|recs| - 1], recs[|recs| - 1];
      TitleScoreOfListed(likes, user, init, title);
      ListedSnoc(recs, title);
      if last.title == title {
        assert ListedIds(recs, title) - {last.id} == ListedIds(init, title);
        CommonLikesWithout(likes, user, ListedIds(recs, title), last.id);
      }
    }
  }

  lemma ListedSnoc(recs: seq<Recommended>, title: Title)
    requires |recs| > 0 && forall i, j :: 0 <= i < j < |recs| ==> recs[i].id != recs[j].id
    ensures var init, last := recs[..|recs| - 1], recs[|recs| - 1];
            && last.id !in ListedIds(init, title)
            && ListedIds(recs, title) ==
               if last.title == title then ListedIds(init, title) + {last.id} else ListedIds(init, title)
  {
    var init, last := recs[..|recs| - 1], recs[|recs| - 1];
    forall e
      ensures e in ListedIds(recs, title) <==> e in ListedIds(init, title) || (last.title == title && e == last.id)
    {
      if e in ListedIds(recs, title) {
        var i :| 0 <= i < |recs| && recs[i].title == title && recs[i].id == e;
        if i < |init| { assert init[i] == recs[i]; }
      }
      if e in ListedIds(init, title) {
        var i :| 0 <= i < |init| && init[i].title == title && init[i].id == e;
        assert recs[i] == init[i];
      }
      if last.title == title && e == last.id { assert recs[|recs| - 1].id == e; }
    }
  }

  /** The total of a title is the sum of the common likes over its recommended events in the graph. */
  lemma TotalIsCommonLikes(likes: set<Like>, titles: map<Id, Title>, user: User, recs: seq<Recommended>, title: Title)
    requires IsRanking(likes, titles, user, recs)
    ensures TitleScore(recs, title) == CommonLikes(likes, user, Candidates(likes, titles, user, title))
  {
    forall i | 0 <= i < |recs|
      ensures recs[i].score == CommonTotal(likes, user, LikersOf(likes, recs[i].id) - {user})
    {
      ScoreIsCommonLikes(likes, user, recs[i].id);
    }
    TitleScoreOfListed(likes, user, recs, title);
    hide Score, CommonTotal, LikersOf, TitleScore, CommonLikes;
    forall e ensures e in ListedIds(recs, title) <==> e in Candidates(likes, titles, user, title) {
      if e in Candidates(likes, titles, user, title) {
        var i :| 0 <= i < |recs| && recs[i].id == e;
        assert recs[i].title == title;
      }
    }
    assert ListedIds(recs, title) == Candidates(likes, titles, user, title);
  }

  // ---- Documents and the cached form ----------------------------------------------------

  /** time.Time{}: the first instant of year 1. */
  function ZeroTime(): (t: Instant)
    ensures FourDigitYear(t)
  {
    var c := Civil(1, 1, 1, 0, 0, 0);
    InRange(c);
    CivilUnique(c, SecondsOf(c));
    SecondsOf(c)
  }

  /** toTime and mustParseTime: text that does not parse becomes the zero time. */
  function TimeOf(text: string): (t: Instant)
    ensures FourDigitYear(t)
  {
    match Parse(text)
    case Some(t) => FormatParse(text); t
    case None => ZeroTime()
  }

  function OrEmpty(s: Option<string>): string { if s.Some? then s.value else "" }

  /** mapEvent and mapEventData. */
  function MapEvent(id: Id, d: Doc): EventData {
    EventData(id, d.title, OrEmpty(d.category), if d.price.Some? then d.price.value else 0, d.description, d.address,
              OrEmpty(d.city), TimeOf(d.createdAt), d.owner, TimeOf(d.startedAt), TimeOf(d.finishedAt))
  }

  /** One event as it is cached; every time is text. */
  datatype CachedEvent = CachedEvent(id: Id, title: Title, category: string, price: int, description: string,
                                     city: string, address: string, createdAt: string, createdBy: User,
                                     startedAt: string, finishedAt: string)

  function Save(e: EventData): CachedEvent {
    CachedEvent(e.id, e.title, e.category, e.price, e.description, e.city, e.address,
                Format(e.createdAt), e.createdBy, Format(e.startedAt), Format(e.finishedAt))
  }

  function Restore(c: CachedEvent): EventData {
    EventData(c.id, c.title, c.category, c.price, c.description, c.address, c.city,
              if c.createdAt != "" then TimeOf(c.createdAt) else ZeroTime(), c.createdBy,
              TimeOf(c.startedAt), TimeOf(c.finishedAt))
  }

  predicate FormatsBack(e: EventData) {
    FourDigitYear(e.createdAt) && FourDigitYear(e.startedAt) && FourDigitYear(e.finishedAt)
  }

  lemma SaveRestore(e: EventData)
    requires FormatsBack(e)
    ensures Restore(Save(e)) == e
  {
    ParseFormat(e.createdAt);
    ParseFormat(e.startedAt);
    ParseFormat(e.finishedAt);
    assert |Format(e.createdAt)| > 0;
  }

  function SaveAll(es: seq<EventData>): seq<CachedEvent> {
    seq(|es|, i requires 0 <= i < |es| => Save(es[i]))
  }

  function RestoreAll(cs: seq<CachedEvent>): seq<EventData> {
    seq(|cs|, i requires 0 <= i < |cs| => Restore(cs[i]))
  }

  lemma SaveRestoreAll(es: seq<EventData>)
    requires forall e :: e in es ==> FormatsBack(e)
    ensures RestoreAll(SaveAll(es)) == es
  {
    forall i | 0 <= i < |es| ensures RestoreAll(SaveAll(es))[i] == es[i] {
      assert es[i] in es;
      SaveRestore(es[i]);
    }
  }

  // ---- The service ----------------------------------------------------------------------

  /** GetEvent for each recommended id in turn; a failing lookup is skipped. */
  function Fetch(docs: map<Id, Doc>, recs: seq<Recommended>, up: seq<bool>): (es: seq<EventData>)
    requires |up| == |recs|
    ensures forall e :: e in es ==> FormatsBack(e)
    decreases |recs|
  {
    if recs == [] then []
    else
      var n := |recs| - 1;
      var before := Fetch(docs, recs[..n], up[..n]);
      match Find(docs, recs[n].id, up[n])
      case Found(id, doc) => before + [MapEvent(id, doc)]
      case _ => before
  }

  /** The event carries what the stored document holds; absent fields read as empty, bad times as the zero time. */
  ghost predicate Shows(e: EventData, id: Id, d: Doc) {
    && e.id == id && e.title == d.title && e.description == d.description
    && e.address == d.address && e.createdBy == d.owner
    && Some(e.category) == (if d.category.Some? then d.category else Some(""))
    && Some(e.city) == (if d.city.Some? then d.city else Some(""))
    && Some(e.price) == (if d.price.Some? then d.price else Some(0))
    && ShowsTime(e.createdAt, d.createdAt) && ShowsTime(e.startedAt, d.startedAt)
    && ShowsTime(e.finishedAt, d.finishedAt)
  }

  ghost predicate ShowsTime(t: Instant, text: string) {
    if Parse(text).Some? then Some(t) == Parse(text) else CivilOf(t) == Civil(1, 1, 1, 0, 0, 0)
  }

  lemma TimeOfShows(text: string)
    ensures ShowsTime(TimeOf(text), text)
  {
    var c := Civil(1, 1, 1, 0, 0, 0);
    InRange(c);
    CivilUnique(c, SecondsOf(c));
    hide Parse, CivilOf;
  }

  lemma MapEventShows(id: Id, d: Doc)
    ensures Shows(MapEvent(id, d), id, d)
  {
    hide ShowsTime, TimeOf;
    TimeOfShows(d.createdAt);
    TimeOfShows(d.startedAt);
    TimeOfShows(d.finishedAt);
  }

  /** The lookup of this position succeeds and finds the stored event. */
  ghost predicate LooksUp(docs: map<Id, Doc>, recs: seq<Recommended>, up: seq<bool>, i: nat, id: Id) {
    i < |recs| && i < |up| && up[i] && id in docs && Spells(recs[i].id, id)
  }

  /**
   * The fetched events stand for exactly the positions `ps`, in increasing order: those whose lookup
   * succeeds and finds a stored event, each showing that event.
   */
  ghost predicate FetchedAt(docs: map<Id, Doc>, recs: seq<Recommended>, up: seq<bool>, es: seq<EventData>,
      ps: seq<nat>) {
    && |ps| == |es|
    && (forall j, k :: 0 <= j < k < |ps| ==> ps[j] < ps[k])
    && (forall k :: 0 <= k < |ps| ==>
          LooksUp(docs, recs, up, ps[k], es[k].id) && Shows(es[k], es[k].id, docs[es[k].id]))
    && (forall i: nat, id :: LooksUp(docs, recs, up, i, id) ==> i in ps)
  }

  /** Looking up one more position adds its event at the end if that succeeds, and nothing otherwise. */
  lemma FetchedNext(docs: map<Id, Doc>, recs: seq<Recommended>, up: seq<bool>, n: nat, before: seq<EventData>,
      ps: seq<nat>)
    requires n + 1 == |recs| == |up| && forall id :: id in docs ==> IsCanonical(id)
    requires FetchedAt(docs, recs[..n], up[..n], before, ps)
    ensures var found := Find(docs, recs[n].id, up[n]);
            if found.Found? then FetchedAt(docs, recs, up, before + [MapEvent(found.id, found.doc)], ps + [n])
            else FetchedAt(docs, recs, up, before, ps)
  {
    hide Shows, Spells, IsCanonical, MapEvent;
    FindExactly(docs, recs[n].id, up[n]);
    FindSpells(docs, recs[n].id, up[n]);
    EarlierLooks(docs, recs, up, n);
    forall k | 0 <= k < |ps| ensures ps[k] < n { assert LooksUp(docs, recs[..n], up[..n], ps[k], before[k].id); }
    var found := Find(docs, recs[n].id, up[n]);
    hide Find;
    if found.Found? {
      MapEventShows(found.id, found.doc);
      MapEventId(found.id, found.doc);
    }
  }

  lemma NoneFetched(docs: map<Id, Doc>)
    ensures FetchedAt(docs, [], [], Fetch(docs, [], []), [])
  {
  }

  /** Fetching keeps one event per position whose lookup succeeds, in order, and drops only the others. */
  lemma {:induction false} FetchExactly(docs: map<Id, Doc>, recs: seq<Recommended>, up: seq<bool>)
    returns (ps: seq<nat>)
    requires |up| == |recs| && forall id :: id in docs ==> IsCanonical(id)
    ensures FetchedAt(docs, recs, up, Fetch(docs, recs, up), ps)
    decreases |recs|
  {
    hide IsCanonical, MapEvent, Find, FetchedAt;
    ps := [];
    if recs == [] {
      NoneFetched(docs);
    } else {
      var n := |recs| - 1;
      ps := FetchExactly(docs, recs[..n], up[..n]);
      FetchedNext(docs, recs, up, n, Fetch(docs, recs[..n], up[..n]), ps);
      if Find(docs, recs[n].id, up[n]).Found? { ps := ps + [n]; }
    }
  }

  lemma MapEventId(id: Id, d: Doc)
    ensures MapEvent(id, d).id == id
  {
  }

  lemma FindSpells(docs: map<Id, Doc>, req: string, ok: bool)
    ensures Find(docs, req, ok).Found? ==>
      var id := Find(docs, req, ok).id; ok && id in docs && Spells(req, id) && Find(docs, req, ok).doc == docs[id]
  {
  }

  lemma EarlierLooks(docs: map<Id, Doc>, recs: seq<Recommended>, up: seq<bool>, n: nat)
    requires n < |recs| == |up|
    ensures forall i: nat, id :: i < n ==>
      (LooksUp(docs, recs[..n], up[..n], i, id) <==> LooksUp(docs, recs, up, i, id))
    ensures forall i: nat, id :: LooksUp(docs, recs[..n], up[..n], i, id) ==> i < n
  {
    hide Spells;
  }

  /** One request, and how its backend calls end. */
  datatype Request = Request(user: User, now: nat, docs: map<Id, Doc>, recs: seq<Recommended>, up: seq<bool>,
                             get: bool, query: bool, publish: Write)

  type Entries = map<User, Entry<seq<CachedEvent>>>

  predicate Hits(entries: Entries, user: User, now: nat) {
    user in entries && now < entries[user].expires
  }

  ghost predicate Misses(entries: Entries, q: Request) {
    q.get && !Hits(entries, q.user, q.now) && q.query
  }

  /** What a request answers: the restored entry, an error, or the one recommendation list. */
  ghost predicate Answers(entries: Entries, q: Request, r: Option<seq<EventData>>)
    requires |q.up| == |q.recs|
  {
    if !q.get then r == None
    else if Hits(entries, q.user, q.now) then r == Some(RestoreAll(entries[q.user].value))
    else if !q.query then r == None
    else r.Some? && IsRecommendation(Fetch(q.docs, q.recs, q.up), q.recs, r.value)
  }

  ghost function Later(entries: Entries, q: Request, r: Option<seq<EventData>>, ttl: nat): Entries {
    if Misses(entries, q) && r.Some? && !q.publish.Lost?
    then entries[q.user := Entry(SaveAll(r.value), q.now + ttl)] else entries
  }

  class RecommendationService {
    const store: EventStore
    const graph: LikeGraph
    const ttl: nat
    var entries: Entries

    constructor (store: EventStore, graph: LikeGraph, ttl: nat)
      ensures this.store == store && this.graph == graph && this.ttl == ttl && entries == map[]
    {
      this.store, this.graph, this.ttl, entries := store, graph, ttl, map[];
    }

    method GetRecommendations(q: Request, records: seq<Record>) returns (r: Option<seq<EventData>>)
      requires q.docs == store.docs && q.recs == ParseRecords(records) && |q.up| == |q.recs|
      modifies this`entries
      ensures Answers(old(entries), q, r)
      ensures entries == Later(old(entries), q, r, ttl)
    {
      hide IsRecommendation, StableSort, Dedup, TitleScore, ParseRecords;
      NothingRecommended();
      if !q.get { return None; }
      if Hits(entries, q.user, q.now) {
        return Some(RestoreAll(entries[q.user].value));
      }
      var recommended := graph.GetRecommendedEventIDs(q.user, q.query, records);
      if recommended.None? { return None; }
      if |recommended.value| == 0 {
        if !q.publish.Lost? {
          entries := entries[q.user := Entry([], q.now + ttl)];
        }
        assert SaveAll([]) == [];
        return Some([]);
      }
      var fetched := FetchEvents(q.recs, q.up);
      var events := DeduplicateByTitle(fetched);
      var titleScore := TotalScores(q.recs);
      PipelineRecommends(fetched, q.recs, titleScore);
      events := StableSort(events, titleScore);
      if !q.publish.Lost? {
        entries := entries[q.user := Entry(SaveAll(events), q.now + ttl)];
      }
      r := Some(events);
    }

    method FetchEvents(recs: seq<Recommended>, up: seq<bool>) returns (events: seq<EventData>)
      requires |up| == |recs|
      ensures events == Fetch(store.docs, recs, up)
    {
      events := [];
      for i := 0 to |recs|
        invariant events == Fetch(store.docs, recs[..i], up[..i])
      {
        assert recs[..i + 1][..i] == recs[..i] && up[..i + 1][..i] == up[..i];
        var found := store.GetEvent(recs[i].id, up[i]);
        if found.Found? {
          events := events + [MapEvent(found.id, found.doc)];
        }
      }
      assert recs[..|recs|] == recs && up[..|recs|] == up;
    }
  }

  /**
   * On a miss every recommended event whose lookup succeeds has its title in the answer, and every event
   * answered is one of them, as it is stored.
   */
  lemma MissAnswersFetched(entries: Entries, q: Request, r: Option<seq<EventData>>)
    requires |q.up| == |q.recs| && (forall id :: id in q.docs ==> IsCanonical(id))
    requires Misses(entries, q) && Answers(entries, q, r)
    ensures r.Some?
    ensures forall i: nat, id :: LooksUp(q.docs, q.recs, q.up, i, id) ==>
      exists e :: e in r.value && e.title == q.docs[id].title
    ensures forall e :: e in r.value ==>
      e.id in q.docs && Shows(e, e.id, q.docs[e.id]) && exists i: nat :: LooksUp(q.docs, q.recs, q.up, i, e.id)
  {
    hide Shows, LooksUp, Fetch, IsCanonical, IsRecommendation;
    forall i: nat, id | LooksUp(q.docs, q.recs, q.up, i, id)
      ensures id in q.docs && exists e :: e in r.value && e.title == q.docs[id].title
    {
      ListsEvery(q.docs, q.recs, q.up, r.value, i, id);
    }
    forall e | e in r.value
      ensures e.id in q.docs && Shows(e, e.id, q.docs[e.id]) && exists i: nat :: LooksUp(q.docs, q.recs, q.up, i, e.id)
    {
      ListsOnly(q.docs, q.recs, q.up, r.value, e);
    }
  }

  lemma ListsEvery(docs: map<Id, Doc>, recs: seq<Recommended>, up: seq<bool>, out: seq<EventData>, i: nat, id: Id)
    requires |up| == |recs| && (forall x :: x in docs ==> IsCanonical(x)) && LooksUp(docs, recs, up, i, id)
    requires IsRecommendation(Fetch(docs, recs, up), recs, out)
    ensures id in docs && exists e :: e in out && e.title == docs[id].title
  {
    hide Shows, LooksUp, Fetch, IsCanonical, Ranked, Kept;
    var fetched := Fetch(docs, recs, up);
    var ps := FetchExactly(docs, recs, up);
    var k :| 0 <= k < |ps| && ps[k] == i;
    SameLookup(docs, recs, up, i, id, fetched[k].id);
    ShowsTitle(fetched[k], id, docs[id]);
    assert fetched[k] in fetched;
  }

  lemma ListsOnly(docs: map<Id, Doc>, recs: seq<Recommended>, up: seq<bool>, out: seq<EventData>, e: EventData)
    requires |up| == |recs| && (forall x :: x in docs ==> IsCanonical(x)) && e in out
    requires IsRecommendation(Fetch(docs, recs, up), recs, out)
    ensures e.id in docs && Shows(e, e.id, docs[e.id]) && exists i: nat :: LooksUp(docs, recs, up, i, e.id)
  {
    hide Shows, Fetch, IsCanonical, Ranked, Kept;
    var fetched := Fetch(docs, recs, up);
    var ps := FetchExactly(docs, recs, up);
    KeptIsFetched(fetched, e);
    var k :| 0 <= k < |fetched| && fetched[k] == e;
    assert LooksUp(docs, recs, up, ps[k], e.id);
  }

  lemma KeptIsFetched(events: seq<EventData>, e: EventData)
    requires Kept(events, e)
    ensures e in events
  {
  }

  lemma SameLookup(docs: map<Id, Doc>, recs: seq<Recommended>, up: seq<bool>, i: nat, id: Id, id': Id)
    requires forall x :: x in docs ==> IsCanonical(x)
    requires LooksUp(docs, recs, up, i, id) && LooksUp(docs, recs, up, i, id')
    ensures id == id' && id in docs
  {
    FindExactly(docs, recs[i].id, true);
  }

  lemma ShowsTitle(e: EventData, id: Id, d: Doc)
    requires Shows(e, id, d)
    ensures e.title == d.title
  {
  }

  /**
   * A miss lists its titles by the common likes of the graph: non-increasing, and in the order the titles
   * were first fetched where they are equal.
   */
  lemma MissRanksByCommonLikes(g: LikeGraph, entries: Entries, q: Request, records: seq<Record>,
      r: Option<seq<EventData>>)
    requires g.Valid() && g.IsAnswer(q.user, records) && q.recs == ParseRecords(records) && |q.up| == |q.recs|
    requires Misses(entries, q) && Answers(entries, q, r)
    ensures r.Some? && forall i, j :: 0 <= i < j < |r.value| ==>
      var a := CommonLikes(g.likes, q.user, Candidates(g.likes, g.titles, q.user, r.value[i].title));
      var b := CommonLikes(g.likes, q.user, Candidates(g.likes, g.titles, q.user, r.value[j].title));
      var fetched := Fetch(q.docs, q.recs, q.up);
      a > b || (a == b && IndexOf(fetched, r.value[i].title) < IndexOf(fetched, r.value[j].title))
  {
    hide IsRanking, CommonLikes, Candidates, TitleScore, IndexOf, Fetch, ParseRecords;
    AnswerIsRanking(g, q.user, records);
    var fetched := Fetch(q.docs, q.recs, q.up);
    forall i, j | 0 <= i < j < |r.value|
      ensures RanksBefore(fetched, q.recs, r.value[i], r.value[j])
      ensures TitleScore(q.recs, r.value[i].title) ==
        CommonLikes(g.likes, q.user, Candidates(g.likes, g.titles, q.user, r.value[i].title))
      ensures TitleScore(q.recs, r.value[j].title) ==
        CommonLikes(g.likes, q.user, Candidates(g.likes, g.titles, q.user, r.value[j].title))
    {
      TotalIsCommonLikes(g.likes, g.titles, q.user, q.recs, r.value[i].title);
      TotalIsCommonLikes(g.likes, g.titles, q.user, q.recs, r.value[j].title);
    }
  }

  // ---- Runs -----------------------------------------------------------------------------

  /** A run of requests with their answers, each state following from the one before. */
  ghost predicate IsRun(states: seq<Entries>, qs: seq<Request>, rs: seq<Option<seq<EventData>>>, ttl: nat) {
    && |states| == |qs| + 1 && |rs| == |qs|
    && (forall i :: 0 <= i < |qs| ==> |qs[i].up| == |qs[i].recs|)
    && (forall i :: 0 <= i < |qs| ==> Answers(states[i], qs[i], rs[i]))
    && (forall i :: 0 <= i < |qs| ==> states[i + 1] == Later(states[i], qs[i], rs[i], ttl))
    && (forall i, j :: 0 <= i < j < |qs| ==> qs[i].now <= qs[j].now)
  }

  lemma MissedListFormatsBack(entries: Entries, q: Request, r: Option<seq<EventData>>)
    requires |q.up| == |q.recs| && Answers(entries, q, r) && Misses(entries, q)
    ensures r.Some? && forall e :: e in r.value ==> FormatsBack(e)
  {
    var fetched := Fetch(q.docs, q.recs, q.up);
    forall e | e in r.value ensures FormatsBack(e) {
      var k: nat :| Wins(fetched, k) && fetched[k] == e;
      assert e in fetched;
    }
  }

  lemma {:induction false} EntryStays(states: seq<Entries>, qs: seq<Request>, rs: seq<Option<seq<EventData>>>,
      ttl: nat, i: nat, j: nat)
    requires IsRun(states, qs, rs, ttl) && i < j < |qs|
    requires Misses(states[i], qs[i]) && !qs[i].publish.Lost? && qs[j].now < qs[i].now + ttl
    ensures qs[i].user in states[j] && rs[i].Some?
    ensures states[j][qs[i].user] == Entry(SaveAll(rs[i].value), qs[i].now + ttl)
    decreases j
  {
    if j > i + 1 {
      EntryStays(states, qs, rs, ttl, i, j - 1);
      assert states[j - 1 + 1] == Later(states[j - 1], qs[j - 1], rs[j - 1], ttl);
    }
  }

  /**
   * Until the entry expires every hit returns, field for field, the list the filling miss returned,
   * the empty list included, whatever other requests and edits happen in between.
   */
  lemma HitsRepeatTheMiss(states: seq<Entries>, qs: seq<Request>, rs: seq<Option<seq<EventData>>>, ttl: nat, i: nat,
      j: nat)
    requires IsRun(states, qs, rs, ttl) && i < j < |qs|
    requires Misses(states[i], qs[i]) && !qs[i].publish.Lost?
    requires qs[j].user == qs[i].user && qs[j].now < qs[i].now + ttl && qs[j].get
    ensures rs[j] == rs[i]
  {
    EntryStays(states, qs, rs, ttl, i, j);
    MissedListFormatsBack(states[i], qs[i], rs[i]);
    SaveRestoreAll(rs[i].value);
  }

  /** The request missed and its list was cached for its user. */
  ghost predicate Fills(states: seq<Entries>, qs: seq<Request>, i: nat, user: User) {
    i < |states| && i < |qs| && qs[i].user == user && Misses(states[i], qs[i]) && !qs[i].publish.Lost?
  }

  lemma {:induction false} FilledBy(states: seq<Entries>, qs: seq<Request>, rs: seq<Option<seq<EventData>>>, ttl: nat,
      user: User, j: nat) returns (i: nat)
    requires IsRun(states, qs, rs, ttl) && states[0] == map[] && j <= |qs| && user in states[j]
    ensures i < j && Fills(states, qs, i, user) && states[j][user].expires == qs[i].now + ttl
    decreases j
  {
    assert states[j - 1 + 1] == Later(states[j - 1], qs[j - 1], rs[j - 1], ttl);
    if Fills(states, qs, j - 1, user) {
      i := j - 1;
      assert Answers(states[i], qs[i], rs[i]);
    } else {
      i := FilledBy(states, qs, rs, ttl, user, j - 1);
    }
  }

  /** From an empty cache a request finds a list exactly if its user's list was cached less than the TTL ago. */
  lemma HitsExactly(states: seq<Entries>, qs: seq<Request>, rs: seq<Option<seq<EventData>>>, ttl: nat, j: nat)
    requires IsRun(states, qs, rs, ttl) && states[0] == map[] && j < |qs|
    ensures Hits(states[j], qs[j].user, qs[j].now) <==>
      exists i: nat :: i < j && Fills(states, qs, i, qs[j].user) && qs[j].now < qs[i].now + ttl
  {
    hide Answers, Misses, Later;
    if Hits(states[j], qs[j].user, qs[j].now) {
      var i := FilledBy(states, qs, rs, ttl, qs[j].user, j);
    }
    if i: nat :| i < j && Fills(states, qs, i, qs[j].user) && qs[j].now < qs[i].now + ttl {
      EntryStays(states, qs, rs, ttl, i, j);
    }
  }
}
