/**
 * A title's aggregate and its cache with every operation broken into its backend calls, interleaved in
 * any order. Each partition read, row write and cache write is atomic; a job can stop after any call.
 */
module CacheInterleaved {
  import opened Text
  import opened TitleCache

  /** What the stores hold from one change to the next. */
  datatype Frame<R> = Frame(time: nat, events: map<Id, Doc>, rows: map<RowKey, R>)

  /** A writer stores a row under the id its request spells and then refreshes the entry; a fill only reads. */
  datatype Kind = Writer(req: string, stored: bool) | Fill

  /** Before the title's events are listed, and while their partitions are being counted. */
  datatype Phase<P> =
    | Begun
    | Counting(ids: seq<Id>, listedAt: nat, at: seq<nat>, total: P)

  /** `began`, `listedAt` and `at` are positions in the history; the service does not keep them. */
  datatype Job<P> = Job(title: Title, kind: Kind, began: nat, phase: Phase<P>)

  /** A cache entry together with where its value comes from. */
  datatype Cell<A> =
    Cell(value: A, expires: nat, ids: seq<Id>, listedAt: nat, at: seq<nat>, began: nat, wrote: nat)

  datatype State<R, P, A> = State(hist: seq<Frame<R>>, cache: map<Title, Cell<A>>, jobs: map<nat, Job<P>>)

  datatype Move<R> =
    | BeginWrite(job: nat, req: string)
    | StoreRow(job: nat, user: User, row: R)
    | BeginFill(job: nat, title: Title)
    | ListEvents(job: nat, ids: seq<Id>)
    | CountNext(job: nat)
    | WriteCache(job: nat)
    | Stop(job: nat)
    | CreateEvent(id: Id, doc: Doc)
    | EditEvent(id: Id, doc: Doc)
    | Pass(seconds: nat)

  function Now<R, P, A>(s: State<R, P, A>): Frame<R>
    requires |s.hist| > 0
  {
    s.hist[|s.hist| - 1]
  }

  function Readable<R, P, A>(s: State<R, P, A>, title: Title): Option<A>
    requires |s.hist| > 0
  {
    if title in s.cache && Now(s).time < s.cache[title].expires then Some(s.cache[title].value) else None
  }

  ghost predicate Initial<R, P, A>(s: State<R, P, A>) {
    |s.hist| == 1 && s.hist[0].rows == map[] && s.hist[0].events == map[] && s.cache == map[] && s.jobs == map[]
  }

  ghost predicate GoodInstants(at: seq<nat>, from: nat, to: nat) {
    forall k :: 0 <= k < |at| ==> from <= at[k] <= to
  }

  /** Time does not run back; events stay, keep their titles, and rows stay. */
  ghost predicate Monotone<R>(hist: seq<Frame<R>>) {
    forall i, j :: 0 <= i <= j < |hist| ==>
      && hist[i].time <= hist[j].time
      && hist[i].events.Keys <= hist[j].events.Keys
      && hist[i].rows.Keys <= hist[j].rows.Keys
      && forall e :: e in hist[i].events ==> hist[i].events[e].title == hist[j].events[e].title
  }

  lemma MonotoneExtends<R>(hist: seq<Frame<R>>, f: Frame<R>)
    requires |hist| > 0 && Monotone(hist) && Monotone([hist[|hist| - 1], f])
    ensures Monotone(hist + [f])
  {
    var h := hist + [f];
    var two := [hist[|hist| - 1], f];
    assert two[0] == hist[|hist| - 1] && two[1] == f;
    forall i, j | 0 <= i <= j < |h|
      ensures && h[i].time <= h[j].time && h[i].events.Keys <= h[j].events.Keys && h[i].rows.Keys <= h[j].rows.Keys
              && forall e :: e in h[i].events ==> h[i].events[e].title == h[j].events[e].title
    {
      if j == |hist| && i < j {
        assert hist[i].events.Keys <= two[0].events.Keys <= two[1].events.Keys;
      }
    }
  }

  /** The rows that count for a title at a point of the history. */
  ghost function RowsAt<R>(f: Frame<R>, title: Title): map<RowKey, R> {
    RowsUnder(f.events, f.rows, title)
  }

  lemma PartitionAt<R>(f: Frame<R>, title: Title, id: Id)
    requires id in EventsOf(f.events, title)
    ensures Partition(f.rows, id) == Partition(RowsAt(f, title), id)
  {
  }

  lemma SamePartition<R>(hist: seq<Frame<R>>, title: Title, id: Id, i: nat, j: nat)
    requires Monotone(hist) && i <= j < |hist| && id in EventsOf(hist[i].events, title)
    requires RowsAt(hist[i], title) == RowsAt(hist[j], title)
    ensures Partition(hist[i].rows, id) == Partition(hist[j].rows, id)
  {
    assert id in EventsOf(hist[j].events, title);
    PartitionAt(hist[i], title, id);
    PartitionAt(hist[j], title, id);
  }

  /**
   * How an aggregate is counted: partition by partition, then turned into the published value; a fill
   * writes only counts that are worth caching.
   */
  datatype Counter<!R(!new), !P(!new), !A(!new)> = Counter(
    ghost part: map<RowKey, R> -> P, ghost add: (P, P) -> P, ghost zero: P,
    ghost value: P -> A, ghost worth: P -> bool, ttl: nat)
  {
    /** Counting rows apart and adding is counting them together. */
    ghost predicate Lawful() {
      && part(map[]) == zero
      && forall a: map<RowKey, R>, b: map<RowKey, R> :: a.Keys !! b.Keys ==> part(a + b) == add(part(a), part(b))
    }

    ghost function Recount(f: Frame<R>, title: Title): A {
      value(part(RowsAt(f, title)))
    }

    // ---- Moves ------------------------------------------------------------------------

    ghost predicate Enabled(s: State<R, P, A>, m: Move<R>)
      requires |s.hist| > 0
    {
      match m
      case BeginWrite(j, req) => j !in s.jobs && Resolve(Now(s).events, req).Some?
      case StoreRow(j, user, row) =>
        j in s.jobs && s.jobs[j].phase.Begun? && s.jobs[j].kind.Writer? && !s.jobs[j].kind.stored
      case BeginFill(j, title) => j !in s.jobs && Readable(s, title).None?
      case ListEvents(j, ids) =>
        j in s.jobs && s.jobs[j].phase.Begun? && (s.jobs[j].kind.Writer? ==> s.jobs[j].kind.stored) &&
        IsListing(ids, EventsOf(Now(s).events, s.jobs[j].title))
      case CountNext(j) => j in s.jobs && s.jobs[j].phase.Counting? && |s.jobs[j].phase.at| < |s.jobs[j].phase.ids|
      case WriteCache(j) =>
        j in s.jobs && s.jobs[j].phase.Counting? && |s.jobs[j].phase.at| == |s.jobs[j].phase.ids| &&
        (s.jobs[j].kind.Fill? ==> worth(s.jobs[j].phase.total))
      case Stop(j) => j in s.jobs
      case CreateEvent(id, doc) => id !in Now(s).events && IsCanonical(id)
      case EditEvent(id, doc) => id in Now(s).events && doc.title == Now(s).events[id].title
      case Pass(seconds) => true
    }

    ghost function Next(s: State<R, P, A>, m: Move<R>): State<R, P, A>
      requires |s.hist| > 0 && Enabled(s, m)
    {
      var now := Now(s);
      var here := |s.hist| - 1;
      match m
      case BeginWrite(j, req) =>
        var title := now.events[Resolve(now.events, req).value].title;
        s.(jobs := s.jobs[j := Job(title, Writer(req, false), here, Begun)])
      case StoreRow(j, user, row) =>
        var k := s.jobs[j].kind;
        s.(hist := s.hist + [now.(rows := now.rows[RowKey(k.req, user) := row])],
           jobs := s.jobs[j := s.jobs[j].(kind := k.(stored := true))])
      case BeginFill(j, title) => s.(jobs := s.jobs[j := Job(title, Fill, here, Begun)])
      case ListEvents(j, ids) => s.(jobs := s.jobs[j := s.jobs[j].(phase := Counting(ids, here, [], zero))])
      case CountNext(j) =>
        var p := s.jobs[j].phase;
        var counted := add(p.total, part(Partition(now.rows, p.ids[|p.at|])));
        s.(jobs := s.jobs[j := s.jobs[j].(phase := p.(at := p.at + [here], total := counted))])
      case WriteCache(j) =>
        var p := s.jobs[j].phase;
        var cell := Cell(value(p.total), now.time + ttl, p.ids, p.listedAt, p.at, s.jobs[j].began, here);
        s.(cache := s.cache[s.jobs[j].title := cell],
           jobs := s.jobs - {j})
      case Stop(j) => s.(jobs := s.jobs - {j})
      case CreateEvent(id, doc) => s.(hist := s.hist + [now.(events := now.events[id := doc])])
      case EditEvent(id, doc) => s.(hist := s.hist + [now.(events := now.events[id := doc])])
      case Pass(seconds) => s.(hist := s.hist + [now.(time := now.time + seconds)])
    }

    ghost predicate Reached(s: State<R, P, A>, moves: seq<Move<R>>, t: State<R, P, A>)
      requires |s.hist| > 0
      decreases |moves|
    {
      if |moves| == 0 then t == s
      else Enabled(s, moves[0]) && Reached(Next(s, moves[0]), moves[1..], t)
    }

    // ---- The invariant ----------------------------------------------------------------

    /** The sum of the listed events' counts, each at its own instant. */
    ghost function SumAt(hist: seq<Frame<R>>, ids: seq<Id>, at: seq<nat>): P
      requires |at| <= |ids| && (forall k :: 0 <= k < |at| ==> at[k] < |hist|)
      decreases |at|
    {
      if |at| == 0 then zero
      else
        var k := |at| - 1;
        add(SumAt(hist, ids, at[..k]), part(Partition(hist[at[k]].rows, ids[k])))
    }

    ghost predicate Explained(hist: seq<Frame<R>>, title: Title, ids: seq<Id>, listedAt: nat, at: seq<nat>,
        began: nat, end: nat)
    {
      && began <= listedAt <= end < |hist|
      && IsListing(ids, EventsOf(hist[listedAt].events, title))
      && |at| <= |ids| && GoodInstants(at, listedAt, end)
    }

    ghost predicate GoodJob(hist: seq<Frame<R>>, job: Job<P>) {
      && job.began < |hist|
      && (job.phase.Counting? ==>
            && Explained(hist, job.title, job.phase.ids, job.phase.listedAt, job.phase.at, job.began, |hist| - 1)
            && job.phase.total == SumAt(hist, job.phase.ids, job.phase.at))
    }

    /**
     * The value is made of a sum over the event list its writer read, of per-event counts that each held
     * at some instant during the writing operation.
     */
    ghost predicate GoodCell(hist: seq<Frame<R>>, title: Title, c: Cell<A>) {
      && Explained(hist, title, c.ids, c.listedAt, c.at, c.began, c.wrote)
      && c.value == value(SumAt(hist, c.ids, c.at))
      && |c.at| == |c.ids|
      && c.expires == hist[c.wrote].time + ttl
    }

    ghost predicate Inv(s: State<R, P, A>) {
      && |s.hist| > 0 && Monotone(s.hist)
      && (forall j :: j in s.jobs ==> GoodJob(s.hist, s.jobs[j]))
      && (forall t :: t in s.cache ==> GoodCell(s.hist, t, s.cache[t]))
    }

    lemma {:induction false} SumAtExtends(hist: seq<Frame<R>>, f: Frame<R>, ids: seq<Id>, at: seq<nat>)
      requires |at| <= |ids| && (forall k :: 0 <= k < |at| ==> at[k] < |hist|)
      ensures SumAt(hist + [f], ids, at) == SumAt(hist, ids, at)
      decreases |at|
    {
      if |at| > 0 {
        SumAtExtends(hist, f, ids, at[..|at| - 1]);
      }
    }

    lemma ExplainedExtends(hist: seq<Frame<R>>, f: Frame<R>, title: Title, ids: seq<Id>, listedAt: nat,
        at: seq<nat>, began: nat, end: nat, end': nat)
      requires Explained(hist, title, ids, listedAt, at, began, end) && end <= end' <= |hist|
      ensures Explained(hist + [f], title, ids, listedAt, at, began, end')
      ensures SumAt(hist + [f], ids, at) == SumAt(hist, ids, at)
    {
      SumAtExtends(hist, f, ids, at);
      assert (hist + [f])[listedAt] == hist[listedAt];
    }

    /** One more frame leaves every job and entry explained. */
    lemma FrameKeeps(s: State<R, P, A>, f: Frame<R>)
      requires Inv(s) && Monotone([Now(s), f])
      ensures Inv(s.(hist := s.hist + [f]))
    {
      hide SumAt;
      MonotoneExtends(s.hist, f);
      forall j | j in s.jobs ensures GoodJob(s.hist + [f], s.jobs[j]) {
        var job := s.jobs[j];
        if job.phase.Counting? {
          ExplainedExtends(s.hist, f, job.title, job.phase.ids, job.phase.listedAt, job.phase.at,
                           job.began, |s.hist| - 1, |s.hist|);
        }
      }
      forall t | t in s.cache ensures GoodCell(s.hist + [f], t, s.cache[t]) {
        var c := s.cache[t];
        ExplainedExtends(s.hist, f, t, c.ids, c.listedAt, c.at, c.began, c.wrote, c.wrote);
      }
    }

    lemma JobKeeps(s: State<R, P, A>, j: nat, job: Job<P>)
      requires Inv(s) && GoodJob(s.hist, job)
      ensures Inv(s.(jobs := s.jobs[j := job]))
    {
      hide GoodCell, GoodJob;
    }

    lemma ListedIsGood(hist: seq<Frame<R>>, job: Job<P>, ids: seq<Id>)
      requires GoodJob(hist, job) && IsListing(ids, EventsOf(hist[|hist| - 1].events, job.title))
      ensures GoodJob(hist, job.(phase := Counting(ids, |hist| - 1, [], zero)))
    {
    }

    lemma CountKeeps(hist: seq<Frame<R>>, job: Job<P>)
      requires |hist| > 0 && GoodJob(hist, job) && job.phase.Counting? && |job.phase.at| < |job.phase.ids|
      ensures var p := job.phase;
              var here := |hist| - 1;
              GoodJob(hist, job.(phase := p.(at := p.at + [here],
                                             total := add(p.total, part(Partition(hist[here].rows, p.ids[|p.at|]))))))
    {
      var at := job.phase.at + [|hist| - 1];
      assert at[..|at| - 1] == job.phase.at;
    }

    lemma StoreKeeps(s: State<R, P, A>, m: Move<R>)
      requires Inv(s) && m.StoreRow? && Enabled(s, m)
      ensures Inv(Next(s, m))
    {
      hide SumAt, Explained, Partition, IsListing, EventsOf, Resolve;
      var s' := Next(s, m);
      FrameKeeps(s, Now(s'));
      JobKeeps(s.(hist := s'.hist), m.job, s'.jobs[m.job]);
    }

    lemma WriteKeeps(s: State<R, P, A>, j: nat)
      requires Inv(s) && Enabled(s, WriteCache(j))
      ensures Inv(Next(s, WriteCache(j)))
    {
      hide SumAt, Explained, Partition, IsListing, EventsOf, Resolve;
    }

    /** The moves that only start or advance a job. */
    lemma JobMoveKeeps(s: State<R, P, A>, m: Move<R>)
      requires Inv(s) && Enabled(s, m) && (m.BeginWrite? || m.BeginFill? || m.ListEvents? || m.CountNext?)
      ensures Inv(Next(s, m))
    {
      hide SumAt, Explained, Partition, IsListing, EventsOf, Resolve;
      var s' := Next(s, m);
      if m.ListEvents? { ListedIsGood(s.hist, s.jobs[m.job], m.ids); }
      if m.CountNext? { CountKeeps(s.hist, s.jobs[m.job]); }
      JobKeeps(s, m.job, s'.jobs[m.job]);
    }

    /** Every single backend call keeps every entry and every half-done count explained. */
    lemma NextKeeps(s: State<R, P, A>, m: Move<R>)
      requires Inv(s) && Enabled(s, m)
      ensures Inv(Next(s, m))
    {
      hide SumAt, Explained, Partition, IsListing, EventsOf, Resolve;
      match m
      case StoreRow(j, user, row) => StoreKeeps(s, m);
      case CreateEvent(id, doc) => FrameKeeps(s, Now(Next(s, m)));
      case EditEvent(id, doc) => FrameKeeps(s, Now(Next(s, m)));
      case Pass(seconds) => FrameKeeps(s, Now(Next(s, m)));
      case WriteCache(j) => WriteKeeps(s, j);
      case Stop(j) =>
      case _ => JobMoveKeeps(s, m);
    }

    lemma NonEmpty(s: State<R, P, A>)
      requires Inv(s)
      ensures |s.hist| > 0
    {
    }

    lemma {:induction false} ReachedKeeps(s: State<R, P, A>, moves: seq<Move<R>>, t: State<R, P, A>)
      requires Inv(s) && Reached(s, moves, t)
      ensures Inv(t)
      decreases |moves|
    {
      hide Inv, Next, Enabled;
      NonEmpty(s);
      if |moves| > 0 {
        NextKeeps(s, moves[0]);
        NonEmpty(Next(s, moves[0]));
        ReachedKeeps(Next(s, moves[0]), moves[1..], t);
      }
    }

    // ---- What every interleaving guarantees -------------------------------------------

    /** In every interleaving a cached value is explained by instants of its writer's operation. */
    lemma EveryEntryExplained(s: State<R, P, A>, moves: seq<Move<R>>, t: State<R, P, A>, title: Title)
      requires Initial(s) && Reached(s, moves, t) && title in t.cache
      ensures GoodCell(t.hist, title, t.cache[title]) && Monotone(t.hist)
    {
      ReachedKeeps(s, moves, t);
    }

    /** No readable value uses a count older than the TTL plus the duration of the operation that wrote it. */
    lemma NoReadableEntryIsOld(s: State<R, P, A>, moves: seq<Move<R>>, t: State<R, P, A>, title: Title, k: nat)
      requires Initial(s) && Reached(s, moves, t)
      requires |t.hist| > 0 && Readable(t, title).Some? && k < |t.cache[title].at|
      ensures var c := t.cache[title];
              c.began < |t.hist| && c.wrote < |t.hist| && c.at[k] < |t.hist| &&
              Now(t).time < t.hist[c.at[k]].time + ttl + (t.hist[c.wrote].time - t.hist[c.began].time)
    {
      hide SumAt, Reached, IsListing, EventsOf;
      EveryEntryExplained(s, moves, t, title);
    }

    ghost function EachPart(rows: map<RowKey, R>, ids: seq<Id>): P {
      if ids == [] then zero
      else add(EachPart(rows, ids[..|ids| - 1]), part(Partition(rows, ids[|ids| - 1])))
    }

    lemma {:induction false} EachPartIsPart(rows: map<RowKey, R>, ids: seq<Id>)
      requires Lawful() && forall i, j :: 0 <= i < j < |ids| ==> ids[i] != ids[j]
      ensures EachPart(rows, ids) == part(RowsIn(rows, ids))
      decreases |ids|
    {
      if ids == [] {
        NoRowsIn(rows);
      } else {
        var before, last := ids[..|ids| - 1], ids[|ids| - 1];
        Snoc(ids);
        EachPartIsPart(rows, before);
        RowsInSplit(rows, before, last);
        hide RowsIn, Partition;
        assert part(RowsIn(rows, before) + Partition(rows, last)) ==
          add(EachPart(rows, before), part(Partition(rows, last)));
      }
    }

    lemma {:induction false} QuietSum(hist: seq<Frame<R>>, title: Title, ids: seq<Id>, listedAt: nat, at: seq<nat>)
      requires Monotone(hist) && listedAt < |hist| && |at| <= |ids|
      requires IsListing(ids, EventsOf(hist[listedAt].events, title))
      requires GoodInstants(at, listedAt, |hist| - 1)
      requires forall i :: listedAt <= i < |hist| ==> RowsAt(hist[i], title) == RowsAt(hist[listedAt], title)
      ensures SumAt(hist, ids, at) == EachPart(hist[listedAt].rows, ids[..|at|])
      decreases |at|
    {
      hide RowsAt, Partition;
      if |at| > 0 {
        var k := |at| - 1;
        QuietSum(hist, title, ids, listedAt, at[..k]);
        assert ids[..|at|][..k] == ids[..k] && ids[..|at|][k] == ids[k];
        SamePartition(hist, title, ids[k], listedAt, at[k]);
      }
    }

    lemma QuietCell(hist: seq<Frame<R>>, title: Title, c: Cell<A>)
      requires Lawful() && Monotone(hist) && GoodCell(hist, title, c)
      requires forall i :: c.began <= i < |hist| ==> RowsAt(hist[i], title) == RowsAt(hist[|hist| - 1], title)
      ensures c.value == Recount(hist[|hist| - 1], title)
    {
      hide SumAt, Partition, Monotone, EventsOf, RowsUnder, EachPart, Lawful;
      QuietSum(hist, title, c.ids, c.listedAt, c.at);
      assert c.ids[..|c.at|] == c.ids;
      EachPartIsPart(hist[c.listedAt].rows, c.ids);
      ListedRows(hist[c.listedAt].events, hist[c.listedAt].rows, c.ids, title);
    }

    /**
     * If no row under the title has been stored since the writer began, the entry is the recount:
     * a wrong entry always has a row written while, or after, it was being computed.
     */
    lemma QuietEntryIsRecount(s: State<R, P, A>, moves: seq<Move<R>>, t: State<R, P, A>, title: Title)
      requires Lawful() && Initial(s) && Reached(s, moves, t) && |t.hist| > 0 && title in t.cache
      requires forall i :: t.cache[title].began <= i < |t.hist| ==> RowsAt(t.hist[i], title) == RowsAt(Now(t), title)
      ensures t.cache[title].value == Recount(Now(t), title)
    {
      hide SumAt, Reached, Monotone, RowsUnder, Recount, Lawful;
      EveryEntryExplained(s, moves, t, title);
      QuietCell(t.hist, title, t.cache[title]);
    }

    // ---- Jobs that nothing interrupts ---------------------------------------------------

    /** The stores as serial calls see them. */
    ghost function View(s: State<R, P, A>): World<R, A>
      requires |s.hist| > 0
    {
      World(Now(s).events, Now(s).rows, map t | t in s.cache :: Entry(s.cache[t].value, s.cache[t].expires),
            Now(s).time)
    }

    /** The entry of a title overwritten with its recount. */
    ghost function Refreshed(w: World<R, A>, title: Title): World<R, A> {
      w.(cache := w.cache[title := Entry(value(part(RowsUnder(w.events, w.rows, title))), w.now + ttl)])
    }

    /** A title can be read here exactly when serial calls can read it, with the same value. */
    lemma ReadableSeen(s: State<R, P, A>, title: Title)
      requires |s.hist| > 0
      ensures Readable(s, title) == Cached(View(s), title)
    {
    }

    /** What one move changes in the stores: a row, an event, the clock or, for a cache write, its own entry. */
    lemma MoveSeen(s: State<R, P, A>, m: Move<R>)
      requires |s.hist| > 0 && Enabled(s, m)
      ensures |Next(s, m).hist| > 0
      ensures var w, v := View(s), View(Next(s, m));
              match m
              case StoreRow(j, user, row) => v == w.(rows := w.rows[RowKey(s.jobs[j].kind.req, user) := row])
              case CreateEvent(id, doc) => v == w.(events := w.events[id := doc])
              case EditEvent(id, doc) => v == w.(events := w.events[id := doc])
              case Pass(seconds) => v == w.(now := w.now + seconds)
              case WriteCache(j) =>
                var entry := Entry(value(s.jobs[j].phase.total), w.now + ttl);
                v == w.(cache := w.cache[s.jobs[j].title := entry])
              case _ => v == w
    {
      hide Partition, IsListing, EventsOf, Resolve;
    }

    lemma {:induction false} ReachedJoin(s: State<R, P, A>, a: seq<Move<R>>, t: State<R, P, A>, b: seq<Move<R>>,
        u: State<R, P, A>)
      requires |s.hist| > 0 && |t.hist| > 0 && Reached(s, a, t) && Reached(t, b, u)
      ensures Reached(s, a + b, u)
      decreases |a|
    {
      hide Enabled, Next;
      if a == [] {
        assert a + b == b;
      } else {
        assert (a + b)[0] == a[0] && (a + b)[1..] == a[1..] + b;
        HistoryStays(s, a[0]);
        ReachedJoin(Next(s, a[0]), a[1..], t, b, u);
      }
    }

    lemma HistoryStays(s: State<R, P, A>, m: Move<R>)
      requires |s.hist| > 0 && Enabled(s, m)
      ensures |Next(s, m).hist| > 0
    {
    }

    /** A job that has listed its events can count them all at once. */
    lemma {:induction false} CountAll(s: State<R, P, A>, j: nat) returns (moves: seq<Move<R>>, t: State<R, P, A>)
      requires |s.hist| > 0 && j in s.jobs && s.jobs[j].phase.Counting?
      requires |s.jobs[j].phase.at| <= |s.jobs[j].phase.ids|
      requires var p := s.jobs[j].phase; p.total == EachPart(Now(s).rows, p.ids[..|p.at|])
      ensures Reached(s, moves, t) && forall m :: m in moves ==> m == CountNext(j)
      ensures t.hist == s.hist && t.cache == s.cache && j in t.jobs && t.jobs == s.jobs[j := t.jobs[j]]
      ensures t.jobs[j].title == s.jobs[j].title && t.jobs[j].kind == s.jobs[j].kind && t.jobs[j].phase.Counting?
      ensures var p := t.jobs[j].phase;
              p.ids == s.jobs[j].phase.ids && |p.at| == |p.ids| && p.total == EachPart(Now(s).rows, p.ids)
      decreases |s.jobs[j].phase.ids| - |s.jobs[j].phase.at|
    {
      var p := s.jobs[j].phase;
      moves, t := [], s;
      if |p.at| == |p.ids| {
        assert p.ids[..|p.at|] == p.ids;
      } else {
        assert p.ids[..|p.at| + 1][..|p.at|] == p.ids[..|p.at|];
        var v := Next(s, CountNext(j));
        var rest, u := CountAll(v, j);
        moves, t := [CountNext(j)] + rest, u;
        assert moves[1..] == rest;
      }
    }

    /** What it then writes is the recount. */
    lemma WriteAlone(s: State<R, P, A>, j: nat)
      requires Lawful() && |s.hist| > 0 && Enabled(s, WriteCache(j))
      requires var p := s.jobs[j].phase;
               p.total == EachPart(Now(s).rows, p.ids) && IsListing(p.ids, EventsOf(Now(s).events, s.jobs[j].title))
      ensures View(Next(s, WriteCache(j))) == Refreshed(View(s), s.jobs[j].title)
    {
      hide Lawful, EachPart, EventsOf, Partition, RowsUnder;
      var p := s.jobs[j].phase;
      EachPartIsPart(Now(s).rows, p.ids);
      ListedRows(Now(s).events, Now(s).rows, p.ids, s.jobs[j].title);
    }

    lemma CountAndWrite(s: State<R, P, A>, j: nat) returns (moves: seq<Move<R>>, t: State<R, P, A>)
      requires Lawful() && |s.hist| > 0 && j in s.jobs && s.jobs[j].phase.Counting?
      requires s.jobs[j].phase.at == [] && s.jobs[j].phase.total == zero
      requires IsListing(s.jobs[j].phase.ids, EventsOf(Now(s).events, s.jobs[j].title))
      requires s.jobs[j].kind.Fill? ==> worth(EachPart(Now(s).rows, s.jobs[j].phase.ids))
      ensures Reached(s, moves, t) && |t.hist| > 0
      ensures View(t) == Refreshed(View(s), s.jobs[j].title) && t.jobs == s.jobs - {j}
    {
      hide Lawful, EventsOf, Partition, RowsUnder, IsListing, Refreshed;
      assert s.jobs[j].phase.ids[..0] == [];
      var counts, counted := CountAll(s, j);
      WriteAlone(counted, j);
      t := Next(counted, WriteCache(j));
      var last: seq<Move<R>> := [WriteCache(j)];
      assert last[1..] == [];
      ReachedJoin(s, counts, counted, last, t);
      moves := counts + last;
    }

    /** From listing to writing: a job that nothing interrupts overwrites the entry with the recount. */
    lemma RefreshAlone(s: State<R, P, A>, j: nat, ids: seq<Id>) returns (moves: seq<Move<R>>, t: State<R, P, A>)
      requires Lawful() && |s.hist| > 0 && Enabled(s, ListEvents(j, ids))
      requires s.jobs[j].kind.Fill? ==> worth(part(RowsAt(Now(s), s.jobs[j].title)))
      ensures Reached(s, [ListEvents(j, ids)] + moves, t) && |t.hist| > 0
      ensures View(t) == Refreshed(View(s), s.jobs[j].title) && t.jobs == s.jobs - {j}
    {
      hide EachPart, EventsOf, Partition, RowsUnder, Lawful, Refreshed;
      EachPartIsPart(Now(s).rows, ids);
      ListedRows(Now(s).events, Now(s).rows, ids, s.jobs[j].title);
      moves, t := CountAndWrite(Next(s, ListEvents(j, ids)), j);
      assert ([ListEvents(j, ids)] + moves)[1..] == moves;
    }

    /** A writer that nothing interrupts puts its row and overwrites the entry with the new recount. */
    lemma WriterAlone(s: State<R, P, A>, j: nat, req: string, user: User, row: R, ids: seq<Id>)
      returns (moves: seq<Move<R>>, t: State<R, P, A>)
      requires Lawful() && |s.hist| > 0 && j !in s.jobs && Resolve(Now(s).events, req).Some?
      requires var title := Now(s).events[Resolve(Now(s).events, req).value].title;
               IsListing(ids, EventsOf(Now(s).events, title))
      ensures Reached(s, [BeginWrite(j, req), StoreRow(j, user, row)] + ([ListEvents(j, ids)] + moves), t)
      ensures |t.hist| > 0
      ensures var w := View(s);
              var title := w.events[Resolve(w.events, req).value].title;
              View(t) == Refreshed(w.(rows := w.rows[RowKey(req, user) := row]), title) && t.jobs == s.jobs
    {
      hide Lawful, EventsOf, Partition, RowsUnder, IsListing;
      var begun := Next(s, BeginWrite(j, req));
      var stored := Next(begun, StoreRow(j, user, row));
      moves, t := RefreshAlone(stored, j, ids);
      ReachedTwo(s, BeginWrite(j, req), StoreRow(j, user, row), [ListEvents(j, ids)] + moves, t);
    }

    lemma ReachedTwo(s: State<R, P, A>, m: Move<R>, n: Move<R>, moves: seq<Move<R>>, t: State<R, P, A>)
      requires |s.hist| > 0 && Enabled(s, m) && |Next(s, m).hist| > 0 && Enabled(Next(s, m), n)
      requires |Next(Next(s, m), n).hist| > 0 && Reached(Next(Next(s, m), n), moves, t)
      ensures Reached(s, [m, n] + moves, t)
    {
      hide Enabled, Next;
      assert ([m, n] + moves)[1..] == [n] + moves && ([n] + moves)[1..] == moves;
      assert Reached(Next(s, m), [n] + moves, t);
    }

    /** A fill that nothing interrupts overwrites the entry with a recount that is worth it. */
    lemma FillAlone(s: State<R, P, A>, j: nat, title: Title, ids: seq<Id>)
      returns (moves: seq<Move<R>>, t: State<R, P, A>)
      requires Lawful() && |s.hist| > 0 && j !in s.jobs && Readable(s, title).None?
      requires IsListing(ids, EventsOf(Now(s).events, title)) && worth(part(RowsAt(Now(s), title)))
      ensures Reached(s, [BeginFill(j, title)] + ([ListEvents(j, ids)] + moves), t) && |t.hist| > 0
      ensures View(t) == Refreshed(View(s), title) && t.jobs == s.jobs
    {
      hide Lawful, EventsOf, Partition, RowsUnder, IsListing;
      var begun := Next(s, BeginFill(j, title));
      moves, t := RefreshAlone(begun, j, ids);
      assert ([BeginFill(j, title)] + ([ListEvents(j, ids)] + moves))[1..] == [ListEvents(j, ids)] + moves;
    }
  }
}
