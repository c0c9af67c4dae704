/** Likes and dislikes: the reaction rows, the cached totals per title, and the service over them. */
module Reactions {
  import opened Backend
  import opened Text
  import opened TitleCache
  import opened EventStore
  import opened LikeGraph

  type Rows = map<RowKey, int>

  datatype Counts = Counts(likes: nat, dislikes: nat)

  const LIKE := 1
  const DISLIKE := -1

  ghost function Votes(rows: Rows, vote: int): set<RowKey> {
    set k | k in rows && rows[k] == vote
  }

  ghost function Tally(rows: Rows): Counts {
    Counts(|Votes(rows, LIKE)|, |Votes(rows, DISLIKE)|)
  }

  const ZERO := Counts(0, 0)

  function Add(a: Counts, b: Counts): Counts { Counts(a.likes + b.likes, a.dislikes + b.dislikes) }

  /** One partition after another, as the service reads them. */
  ghost function CountEach(rows: Rows, ids: seq<Id>): Counts {
    if ids == [] then Counts(0, 0)
    else Add(CountEach(rows, ids[..|ids| - 1]), Tally(Partition(rows, ids[|ids| - 1])))
  }

  lemma VotesSplit(a: Rows, b: Rows, vote: int)
    requires a.Keys !! b.Keys
    ensures |Votes(a + b, vote)| == |Votes(a, vote)| + |Votes(b, vote)|
  {
    assert Votes(a + b, vote) == Votes(a, vote) + Votes(b, vote);
  }

  lemma TallySplit(a: Rows, b: Rows)
    requires a.Keys !! b.Keys
    ensures Tally(a + b) == Add(Tally(a), Tally(b))
  {
    VotesSplit(a, b, LIKE);
    VotesSplit(a, b, DISLIKE);
  }

  lemma TallyNone()
    ensures Tally(map[]) == Counts(0, 0)
  {
    assert Votes(map[], LIKE) == {} && Votes(map[], DISLIKE) == {};
  }

  lemma CountStep(rows: Rows, before: seq<Id>, last: Id)
    requires last !in before
    requires CountEach(rows, before) == Tally(RowsIn(rows, before))
    ensures CountEach(rows, before + [last]) == Tally(RowsIn(rows, before + [last]))
  {
    var ids := before + [last];
    assert ids[..|ids| - 1] == before;
    calc {
      CountEach(rows, ids);
      Add(Tally(RowsIn(rows, before)), Tally(Partition(rows, last)));
      { RowsInSplit(rows, before, last); TallySplit(RowsIn(rows, before), Partition(rows, last)); }
      Tally(RowsIn(rows, before) + Partition(rows, last));
      { RowsInSplit(rows, before, last); }
      Tally(RowsIn(rows, ids));
    }
  }

  /** Over distinct ids the partition-by-partition count is the count of all those rows. */
  lemma {:induction false} CountEachIsTally(rows: Rows, ids: seq<Id>)
    requires forall i, j :: 0 <= i < j < |ids| ==> ids[i] != ids[j]
    ensures CountEach(rows, ids) == Tally(RowsIn(rows, ids))
    decreases |ids|
  {
    if ids == [] {
      NoRowsIn(rows);
      TallyNone();
    } else {
      Snoc(ids);
      CountEachIsTally(rows, ids[..|ids| - 1]);
      CountStep(rows, ids[..|ids| - 1], ids[|ids| - 1]);
    }
  }

  /** For the ids of a title, that is the recount. */
  lemma CountIsRecount(w: World<int, Counts>, ids: seq<Id>, title: Title)
    requires IsListing(ids, EventsOf(w.events, title))
    ensures CountEach(w.rows, ids) == Recount(w, title, Tally)
  {
    CountEachIsTally(w.rows, ids);
    ListedRows(w.events, w.rows, ids, title);
  }

  // ---- Stores ---------------------------------------------------------------------------

  class ReactionTable {
    var rows: Rows

    constructor ()
      ensures rows == map[]
    {
      rows := map[];
    }

    method UpsertReaction(eventID: Id, userID: User, likeValue: int, w: Write) returns (ok: bool)
      modifies this
      ensures ok <==> w.Acked?
      ensures rows == if w.Lost? then old(rows) else old(rows)[RowKey(eventID, userID) := likeValue]
    {
      if !w.Lost? {
        rows := rows[RowKey(eventID, userID) := likeValue];
      }
      ok := w.Acked?;
    }

    method CountByEventIDs(eventIDs: seq<Id>, ok: bool) returns (counts: Option<Counts>)
      ensures counts.Some? <==> ok
      ensures ok ==> counts.value == CountEach(rows, eventIDs)
    {
      hide Tally, Partition;
      if !ok { return None; }
      var likes: nat, dislikes: nat := 0, 0;
      for i := 0 to |eventIDs|
        invariant CountEach(rows, eventIDs[..i]) == Counts(likes, dislikes)
      {
        assert eventIDs[..i + 1][..i] == eventIDs[..i];
        var scanned := ScanPartition(eventIDs[i]);
        likes, dislikes := likes + scanned.likes, dislikes + scanned.dislikes;
      }
      assert eventIDs[..|eventIDs|] == eventIDs;
      return Some(Counts(likes, dislikes));
    }

    /** The inner scan: the rows of one partition, in whatever order they come. */
    method ScanPartition(eventID: Id) returns (counts: Counts)
      ensures counts == Tally(Partition(rows, eventID))
    {
      var partition := Partition(rows, eventID);
      var iter := partition.Keys;
      ghost var scanned: Rows := map[];
      var likes: nat, dislikes: nat := 0, 0;
      TallyNone();
      while iter != {}
        invariant scanned == partition - iter && iter <= partition.Keys
        invariant Counts(likes, dislikes) == Tally(scanned)
        decreases iter
      {
        var k :| k in iter;
        var likeValue := partition[k];
        ScanOne(scanned, k, likeValue);
        if likeValue == 1 {
          likes := likes + 1;
        } else if likeValue == -1 {
          dislikes := dislikes + 1;
        }
        scanned := scanned[k := likeValue];
        iter := iter - {k};
      }
      assert scanned == partition;
      counts := Counts(likes, dislikes);
    }
  }

  /** The totals after one more row. */
  function Bump(c: Counts, vote: int): Counts {
    if vote == LIKE then c.(likes := c.likes + 1)
    else if vote == DISLIKE then c.(dislikes := c.dislikes + 1)
    else c
  }

  lemma VotesOne(rows: Rows, k: RowKey, vote: int, v: int)
    requires k !in rows
    ensures |Votes(rows[k := vote], v)| == |Votes(rows, v)| + (if v == vote then 1 else 0)
  {
    assert Votes(rows[k := vote], v) == Votes(rows, v) + (if v == vote then {k} else {});
  }

  lemma ScanOne(rows: Rows, k: RowKey, vote: int)
    requires k !in rows
    ensures Tally(rows[k := vote]) == Bump(Tally(rows), vote)
  {
    VotesOne(rows, k, vote, LIKE);
    VotesOne(rows, k, vote, DISLIKE);
  }

  // ---- What each operation writes -------------------------------------------------------

  /** How the backend calls of one reaction end, in the order they are made. */
  datatype ReactFaults = ReactFaults(getEvent: bool, upsert: Write, graph: Write, list: bool, count: bool,
    publish: Write)

  ghost function ReactSteps(w: World<int, Counts>, req: string, user: User, value: int, f: ReactFaults,
      ttl: nat): seq<Step<int>> {
    var found := Find(w.events, req, f.getEvent);
    if !found.Found? || f.upsert.Lost? then []
    else if f.upsert.Unacked? || !f.list || !f.count || f.publish.Lost? then [PutRow(RowKey(req, user), value)]
    else [PutRow(RowKey(req, user), value), Publish(found.doc.title, ttl)]
  }

  function ReactStatus(events: map<Id, Doc>, req: string, f: ReactFaults): Status {
    var found := Find(events, req, f.getEvent);
    if found.Missing? then NotFound
    else if found.Found? && f.upsert.Acked? && f.list && f.count && f.publish.Acked? then Ok
    else Internal
  }

  /** One read per title not yet seen, from the `i`th event on; the first failure ends the loop. */
  ghost function AnnotateSteps(w: World<int, Counts>, titles: seq<Title>, faults: seq<ReadFaults>, i: nat,
      seen: set<Title>, ttl: nat): seq<Step<int>>
    requires |faults| == |titles| && i <= |titles|
    decreases |titles| - i
  {
    if i == |titles| then []
    else if titles[i] in seen then AnnotateSteps(w, titles, faults, i + 1, seen, ttl)
    else
      var s := ReadSteps(w, titles[i], faults[i], ttl, Tally, ZERO);
      if ReadAnswer(w, titles[i], faults[i], Tally, ZERO).None? then s
      else s + AnnotateSteps(Run(w, s, Tally), titles, faults, i + 1, seen + {titles[i]}, ttl)
  }

  /** The pair published for a title when nothing fails. */
  ghost function Shown(w: World<int, Counts>, title: Title): Counts {
    if Cached(w, title).Some? then Cached(w, title).value else Recount(w, title, Tally)
  }

  /** A read changes at most the entry of its own title, and never what any title shows. */
  lemma ReadKeeps(w: World<int, Counts>, title: Title, f: ReadFaults, ttl: nat)
    ensures Run(w, ReadSteps(w, title, f, ttl, Tally, ZERO), Tally).(cache := w.cache) == w
    ensures forall t :: t != title ==> Shown(Run(w, ReadSteps(w, title, f, ttl, Tally, ZERO), Tally), t) == Shown(w, t)
    ensures ReadAnswer(w, title, f, Tally, ZERO).Some? ==> ReadAnswer(w, title, f, Tally, ZERO).value == Shown(w, title)
  {
    RunOne(w, Publish(title, ttl), Tally);
    var v := Apply(w, Publish(title, ttl), Tally);
    forall t | t != title ensures Shown(v, t) == Shown(w, t) {
      assert RowsUnder(v.events, v.rows, t) == RowsUnder(w.events, w.rows, t);
    }
  }

  lemma AnnotateOne(w: World<int, Counts>, titles: seq<Title>, faults: seq<ReadFaults>, i: nat, seen: set<Title>,
      ttl: nat)
    requires |faults| == |titles| && i < |titles| && titles[i] !in seen
    ensures var s := ReadSteps(w, titles[i], faults[i], ttl, Tally, ZERO);
            var v := Run(w, s, Tally);
            Run(w, AnnotateSteps(w, titles, faults, i, seen, ttl), Tally) ==
            if ReadAnswer(w, titles[i], faults[i], Tally, ZERO).None? then v
            else Run(v, AnnotateSteps(v, titles, faults, i + 1, seen + {titles[i]}, ttl), Tally)
  {
    var s := ReadSteps(w, titles[i], faults[i], ttl, Tally, ZERO);
    RunAppend(w, s, AnnotateSteps(Run(w, s, Tally), titles, faults, i + 1, seen + {titles[i]}, ttl), Tally);
  }

  /** The loop over the titles after `i` of them, on its way to `goal`. */
  ghost predicate Looked(goal: World<int, Counts>, w0: World<int, Counts>, w: World<int, Counts>, titles: seq<Title>,
      faults: seq<ReadFaults>, i: nat, byTitle: map<Title, Counts>, ttl: nat)
    requires |faults| == |titles| && i <= |titles|
  {
    && goal == Run(w, AnnotateSteps(w, titles, faults, i, byTitle.Keys, ttl), Tally)
    && w.(cache := w0.cache) == w0
    && (forall k :: 0 <= k < i ==> titles[k] in byTitle)
    && (forall t :: t in byTitle ==> t in titles[..i] && byTitle[t] == Shown(w0, t))
    && (forall t :: t !in byTitle ==> EntryOf(w, t) == EntryOf(w0, t))
    && (forall k :: 0 <= k < i && titles[k] !in titles[..k] ==>
          Answerable(w0, titles[k], faults[k]) && EntryOf(w, titles[k]) == EntryAfter(w0, titles[k], ttl))
  }

  /** Every backend call that a read of the title makes succeeds. */
  ghost predicate Answerable(w: World<int, Counts>, title: Title, f: ReadFaults) {
    f.get && (Cached(w, title).Some? || (f.list && f.count && (Recount(w, title, Tally) == ZERO || f.publish.Acked?)))
  }

  /** The title's entry after a read that answered: filled on a miss that is not (0, 0), else as it was. */
  ghost function EntryAfter(w: World<int, Counts>, title: Title, ttl: nat): Option<Entry<Counts>> {
    if Cached(w, title).None? && Recount(w, title, Tally) != ZERO
    then Some(Entry(Recount(w, title, Tally), w.now + ttl)) else EntryOf(w, title)
  }

  /** Reads of titles with the same entry, over the same rows and clock, go alike. */
  lemma SameEntrySameRead(w: World<int, Counts>, v: World<int, Counts>, title: Title, f: ReadFaults, ttl: nat)
    requires v.(cache := w.cache) == w && EntryOf(v, title) == EntryOf(w, title)
    ensures Cached(v, title) == Cached(w, title) && Recount(v, title, Tally) == Recount(w, title, Tally)
    ensures Shown(v, title) == Shown(w, title)
    ensures Answerable(v, title, f) == Answerable(w, title, f) && EntryAfter(v, title, ttl) == EntryAfter(w, title, ttl)
  {
    assert v.rows == w.rows && v.events == w.events && v.now == w.now;
  }

  /** One read, in the terms of the loop. */
  lemma ReadOnce(w: World<int, Counts>, title: Title, f: ReadFaults, ttl: nat)
    ensures var v := Run(w, ReadSteps(w, title, f, ttl, Tally, ZERO), Tally);
            var r := ReadAnswer(w, title, f, Tally, ZERO);
            && v.(cache := w.cache) == w
            && (forall t :: t != title ==> EntryOf(v, t) == EntryOf(w, t))
            && (r.Some? <==> Answerable(w, title, f))
            && (r.Some? ==> r.value == Shown(w, title) && EntryOf(v, title) == EntryAfter(w, title, ttl))
  {
    hide ReadSteps, ReadAnswer, Recount, Run;
    ReadExactly(w, title, f, ttl, Tally, ZERO);
  }

  lemma LookedStart(w0: World<int, Counts>, titles: seq<Title>, faults: seq<ReadFaults>, ttl: nat)
    requires |faults| == |titles|
    ensures Looked(Run(w0, AnnotateSteps(w0, titles, faults, 0, {}, ttl), Tally), w0, w0, titles, faults, 0, map[], ttl)
  {
    hide Shown, AnnotateSteps;
    var none: map<Title, Counts> := map[];
    assert none.Keys == {};
  }

  lemma LookedBefore(goal: World<int, Counts>, w0: World<int, Counts>, w: World<int, Counts>, titles: seq<Title>,
      faults: seq<ReadFaults>, i: nat, byTitle: map<Title, Counts>, ttl: nat)
    requires |faults| == |titles| && i < |titles| && titles[i] in byTitle
    requires Looked(goal, w0, w, titles, faults, i, byTitle, ttl)
    ensures Looked(goal, w0, w, titles, faults, i + 1, byTitle, ttl)
  {
    hide Shown, Answerable, EntryAfter, EntryOf, ReadAnswer, ReadSteps, Run;
  }

  lemma LookedNext(goal: World<int, Counts>, w0: World<int, Counts>, w: World<int, Counts>, titles: seq<Title>,
      faults: seq<ReadFaults>, i: nat, byTitle: map<Title, Counts>, ttl: nat)
    requires |faults| == |titles| && i < |titles| && titles[i] !in byTitle
    requires Looked(goal, w0, w, titles, faults, i, byTitle, ttl)
    ensures var v := Run(w, ReadSteps(w, titles[i], faults[i], ttl, Tally, ZERO), Tally);
            var answer := ReadAnswer(w, titles[i], faults[i], Tally, ZERO);
            titles[i] !in titles[..i] &&
            if answer.None? then goal == v && !Answerable(w0, titles[i], faults[i])
            else Looked(goal, w0, v, titles, faults, i + 1, byTitle[titles[i] := answer.value], ttl)
  {
    hide Shown, ReadAnswer, ReadSteps, AnnotateSteps, Answerable, EntryAfter, EntryOf, Run;
    AnnotateOne(w, titles, faults, i, byTitle.Keys, ttl);
    ReadOnce(w, titles[i], faults[i], ttl);
    SameEntrySameRead(w0, w, titles[i], faults[i], ttl);
    var v, answer := Run(w, ReadSteps(w, titles[i], faults[i], ttl, Tally, ZERO), Tally),
      ReadAnswer(w, titles[i], faults[i], Tally, ZERO);
    assert titles[i] !in titles[..i];
    if answer.Some? { LookedOn(goal, w0, w, v, titles, faults, i, byTitle, answer.value, ttl); }
  }

  /** The same for any world that differs from the last one as a read that answers leaves it. */
  lemma LookedOn(goal: World<int, Counts>, w0: World<int, Counts>, w: World<int, Counts>, v: World<int, Counts>,
      titles: seq<Title>, faults: seq<ReadFaults>, i: nat, byTitle: map<Title, Counts>, counts: Counts, ttl: nat)
    requires |faults| == |titles| && i < |titles| && titles[i] !in byTitle
    requires Looked(goal, w0, w, titles, faults, i, byTitle, ttl)
    requires goal == Run(v, AnnotateSteps(v, titles, faults, i + 1, byTitle.Keys + {titles[i]}, ttl), Tally)
    requires v.(cache := w.cache) == w && forall t :: t != titles[i] ==> EntryOf(v, t) == EntryOf(w, t)
    requires Answerable(w0, titles[i], faults[i]) && counts == Shown(w0, titles[i])
    requires EntryOf(v, titles[i]) == EntryAfter(w0, titles[i], ttl)
    ensures Looked(goal, w0, v, titles, faults, i + 1, byTitle[titles[i] := counts], ttl)
  {
    hide Shown, AnnotateSteps, Answerable, EntryAfter, EntryOf, Run;
    assert titles[..i + 1] == titles[..i] + [titles[i]];
    assert byTitle[titles[i] := counts].Keys == byTitle.Keys + {titles[i]};
  }

  lemma LookedAll(goal: World<int, Counts>, w0: World<int, Counts>, w: World<int, Counts>, titles: seq<Title>,
      faults: seq<ReadFaults>, byTitle: map<Title, Counts>, ttl: nat)
    requires |faults| == |titles| && Looked(goal, w0, w, titles, faults, |titles|, byTitle, ttl)
    ensures goal == w && forall t :: t in titles ==> t in byTitle && byTitle[t] == Shown(w0, t)
    ensures forall k :: 0 <= k < |titles| && titles[k] !in titles[..k] ==>
      Answerable(w0, titles[k], faults[k])
    ensures forall t :: t in titles ==> EntryOf(w, t) == EntryAfter(w0, t, ttl)
    ensures forall t :: t !in titles ==> EntryOf(w, t) == EntryOf(w0, t)
  {
    hide Shown, Answerable, EntryAfter, EntryOf;
    assert titles[..|titles|] == titles;
    forall t | t in titles ensures EntryOf(w, t) == EntryAfter(w0, t, ttl) {
      var k := FirstOccurrence(titles, t);
    }
  }

  lemma {:induction false} FirstOccurrence(titles: seq<Title>, t: Title) returns (k: nat)
    requires t in titles
    ensures k < |titles| && titles[k] == t && t !in titles[..k]
    decreases |titles|
  {
    var n := |titles| - 1;
    if t in titles[..n] {
      k := FirstOccurrence(titles[..n], t);
      assert titles[..n][..k] == titles[..k];
    } else {
      Snoc(titles);
      k := n;
    }
  }

  // ---- The service ----------------------------------------------------------------------

  class EventService {
    const store: EventStore
    const table: ReactionTable
    const cache: CacheStore<Counts>
    const graph: LikeGraph
    const ttl: nat

    constructor (store: EventStore, table: ReactionTable, cache: CacheStore<Counts>, graph: LikeGraph, ttl: nat)
      ensures this.store == store && this.table == table && this.cache == cache && this.graph == graph &&
          this.ttl == ttl
    {
      this.store, this.table, this.cache, this.graph, this.ttl := store, table, cache, graph, ttl;
    }

    ghost function World(now: nat): World<int, Counts>
      reads store, table, cache
    {
      TitleCache.World(store.docs, table.rows, cache.entries, now)
    }

    method CreateEvent(id: Id, doc: Doc, now: nat, insert: Write, graphWrite: Write) returns (s: Status)
      requires id !in store.docs && IsCanonical(id)
      modifies store, graph
      ensures World(now) == if insert.Lost? then old(World(now)) else Apply(old(World(now)), AddEvent(id, doc), Tally)
      ensures s == if insert.Acked? then Ok else Internal
      ensures graph.likes == old(graph.likes) && graph.users == old(graph.users)
      ensures graph.titles == if insert.Acked? && !graphWrite.Lost? then old(graph.titles)[id := doc.title]
          else old(graph.titles)
    {
      var ok := store.Create(id, doc, insert);
      if !ok { return Internal; }
      graph.CreateEvent(id, doc.title, graphWrite);
      s := Ok;
    }

    method ReactToEvent(req: string, user: User, value: int, now: nat, f: ReactFaults) returns (s: Status)
      requires graph.Valid()
      modifies table, cache, graph
      ensures World(now) == Run(old(World(now)), ReactSteps(old(World(now)), req, user, value, f, ttl), Tally)
      ensures s == ReactStatus(store.docs, req, f)
      ensures graph.Valid()
      ensures var found := Find(store.docs, req, f.getEvent);
              var linked := found.Found? && f.upsert.Acked? && value == LIKE && !f.graph.Lost?;
              && graph.likes == (if linked then old(graph.likes) + {(user, req)} else old(graph.likes))
              && graph.titles == (if linked then old(graph.titles)[req := found.doc.title] else old(graph.titles))
    {
      ghost var w := World(now);
      var found := store.GetEvent(req, f.getEvent);
      if found.Missing? { return NotFound; }
      if found.Broken? { return Internal; }
      var stored := table.UpsertReaction(req, user, value, f.upsert);
      RunOne(w, PutRow(RowKey(req, user), value), Tally);
      if !stored { return Internal; }
      if value == LIKE {
        graph.AddLike(user, req, found.doc.title, f.graph);
      }
      var ok := Refresh(found.doc.title, now, f.list, f.count, f.publish);
      RunTwo(w, PutRow(RowKey(req, user), value), Publish(found.doc.title, ttl), Tally);
      s := if ok then Ok else Internal;
    }

    /** Recount, then overwrite the entry, whatever it held. */
    method Refresh(title: Title, now: nat, list: bool, count: bool, publish: Write) returns (ok: bool)
      modifies cache
      ensures World(now) == if list && count &&
          !publish.Lost? then Apply(old(World(now)), Publish(title, ttl), Tally) else old(World(now))
      ensures ok <==> list && count && publish.Acked?
    {
      var counts := ReactionsByTitleNoCache(title, now, list, count);
      if counts.None? { return false; }
      ok := cache.Set(title, counts.value, now, ttl, publish);
    }

    method ReactionsByTitleNoCache(title: Title, ghost now: nat, list: bool, count: bool) returns (r: Option<Counts>)
      ensures r == if list && count then Some(Recount(World(now), title, Tally)) else None
    {
      var ids := store.GetEventsByTitle(title, list);
      if ids.None? { return None; }
      r := table.CountByEventIDs(ids.value, count);
      CountIsRecount(World(now), ids.value, title);
    }

    method ReactionsByTitle(title: Title, now: nat, f: ReadFaults) returns (r: Option<Counts>)
      modifies cache
      ensures World(now) == Run(old(World(now)), ReadSteps(old(World(now)), title, f, ttl, Tally, ZERO), Tally)
      ensures r == ReadAnswer(old(World(now)), title, f, Tally, ZERO)
    {
      var cached := cache.Get(title, now, f.get);
      if cached.None? { return None; }
      if cached.value.Some? { return cached.value; }
      var counts := ReactionsByTitleNoCache(title, now, f.list, f.count);
      if counts.None? { return None; }
      if counts.value.likes > 0 || counts.value.dislikes > 0 {
        RunOne(World(now), Publish(title, ttl), Tally);
        var ok := cache.Set(title, counts.value, now, ttl, f.publish);
        if !ok { return None; }
      }
      r := counts;
    }

    /** One lookup per distinct title; the first failure ends the loop. */
    method ReactionsByTitles(titles: seq<Title>, now: nat, faults: seq<ReadFaults>)
      returns (r: Option<map<Title, Counts>>)
      requires |faults| == |titles|
      modifies cache
      ensures World(now) == Run(old(World(now)), AnnotateSteps(old(World(now)), titles, faults, 0, {}, ttl), Tally)
      ensures r.Some? <==> forall i :: 0 <= i < |titles| && titles[i] !in titles[..i] ==>
        faults[i].get && (Cached(old(World(now)), titles[i]).Some? ||
          (faults[i].list && faults[i].count &&
           (Recount(old(World(now)), titles[i], Tally) == Counts(0, 0) || faults[i].publish.Acked?)))
      ensures r.Some? ==> forall t :: t in titles ==> t in r.value && r.value[t] == Shown(old(World(now)), t)
      ensures r.Some? ==> forall t :: t in titles ==> EntryOf(World(now), t) == EntryAfter(old(World(now)), t, ttl)
      ensures r.Some? ==> forall t :: t !in titles ==> EntryOf(World(now), t) == EntryOf(old(World(now)), t)
    {
      hide Shown, ReadAnswer, ReadSteps, AnnotateSteps, Looked, EntryAfter, EntryOf, Recount, Cached;
      ghost var w0 := World(now);
      ghost var goal := Run(w0, AnnotateSteps(w0, titles, faults, 0, {}, ttl), Tally);
      var byTitle: map<Title, Counts> := map[];
      var i := 0;
      LookedStart(w0, titles, faults, ttl);
      while i < |titles|
        invariant 0 <= i <= |titles|
        invariant Looked(goal, w0, World(now), titles, faults, i, byTitle, ttl)
      {
        var title := titles[i];
        if title in byTitle {
          LookedBefore(goal, w0, World(now), titles, faults, i, byTitle, ttl);
        } else {
          LookedNext(goal, w0, World(now), titles, faults, i, byTitle, ttl);
          var counts := ReactionsByTitle(title, now, faults[i]);
          if counts.None? { return None; }
          byTitle := byTitle[title := counts.value];
        }
        i := i + 1;
      }
      LookedAll(goal, w0, World(now), titles, faults, byTitle, ttl);
      r := Some(byTitle);
    }

    /** The reaction part of GetEvents: every event gets the pair of its title. */
    method AnnotateReactions(titles: seq<Title>, now: nat, faults: seq<ReadFaults>) returns (r: Option<seq<Counts>>)
      requires |faults| == |titles|
      modifies cache
      ensures World(now) == Run(old(World(now)), AnnotateSteps(old(World(now)), titles, faults, 0, {}, ttl), Tally)
      ensures r.Some? <==> forall i :: 0 <= i < |titles| && titles[i] !in titles[..i] ==>
        faults[i].get && (Cached(old(World(now)), titles[i]).Some? ||
          (faults[i].list && faults[i].count &&
           (Recount(old(World(now)), titles[i], Tally) == Counts(0, 0) || faults[i].publish.Acked?)))
      ensures r.Some? ==> |r.value| == |titles|
      ensures r.Some? ==> forall i :: 0 <= i < |titles| ==> r.value[i] == Shown(old(World(now)), titles[i])
    {
      hide Shown, AnnotateSteps, EntryAfter, EntryOf, Recount, Cached;
      ghost var w0 := World(now);
      var reactionsByTitle := ReactionsByTitles(titles, now, faults);
      if reactionsByTitle.None? { return None; }
      var pairs := [];
      for i := 0 to |titles|
        invariant |pairs| == i
        invariant forall k :: 0 <= k < i ==> pairs[k] == Shown(w0, titles[k])
      {
        pairs := pairs + [reactionsByTitle.value[titles[i]]];
      }
      r := Some(pairs);
    }
  }
}
