/**
 * Events, rows keyed by (event id, user) and a per-title cache of an aggregate of those rows.
 * Reactions and reviews both follow this protocol; `agg` is the aggregate each of them counts.
 * The cache key is the title itself: the MD5 hash of the title is taken to be injective.
 */
module TitleCache {
  import opened Backend
  import opened Text

  type Id = string
  type Title = string
  type User = string

  /** Primary key ((event_id), created_by) of a row. */
  datatype RowKey = RowKey(event: Id, user: User)

  /** A stored event document; times are RFC 3339 text. */
  datatype Doc = Doc(title: Title, owner: User, category: Option<string>, price: Option<int>, city: Option<string>,
                     description: string, address: string, createdAt: string, startedAt: string, finishedAt: string)

  // ---- Spellings of an event id ---------------------------------------------------------

  predicate IsHexChar(c: char) {
    '0' <= c <= '9' || 'a' <= c <= 'f' || 'A' <= c <= 'F'
  }

  function LowerHex(c: char): char {
    if 'A' <= c <= 'F' then (c as int - 'A' as int + 'a' as int) as char else c
  }

  predicate IsObjectIdHex(s: string) {
    |s| == 24 && forall i :: 0 <= i < 24 ==> IsHexChar(s[i])
  }

  /** ObjectIDFromHex followed by Hex: the spelling the service itself prints. */
  function Canonical(s: string): (r: string)
    ensures |r| == |s|
    ensures IsObjectIdHex(s) ==> IsObjectIdHex(r)
  {
    seq(|s|, i requires 0 <= i < |s| => LowerHex(s[i]))
  }

  predicate IsCanonical(s: string) {
    IsObjectIdHex(s) && Canonical(s) == s
  }

  function HexValue(c: char): nat
    requires IsHexChar(c)
  {
    if c <= '9' then c as int - '0' as int
    else if c <= 'F' then c as int - 'A' as int + 10
    else c as int - 'a' as int + 10
  }

  /** Two spellings are of the same id exactly when they agree digit by digit in value. */
  lemma SameIdExactly(s: string, t: string)
    requires IsObjectIdHex(s) && IsObjectIdHex(t)
    ensures Canonical(s) == Canonical(t) <==> forall i :: 0 <= i < 24 ==> HexValue(s[i]) == HexValue(t[i])
    ensures IsCanonical(Canonical(s)) && forall i :: 0 <= i < 24 ==> !('A' <= Canonical(s)[i] <= 'F')
    ensures forall i :: 0 <= i < 24 ==> HexValue(Canonical(s)[i]) == HexValue(s[i])
  {
    hide HexValue, LowerHex, IsHexChar;
    forall i | 0 <= i < 24 ensures
      && IsHexChar(Canonical(s)[i]) && IsHexChar(Canonical(t)[i])
      && HexValue(Canonical(s)[i]) == HexValue(s[i]) && !('A' <= Canonical(s)[i] <= 'F')
      && LowerHex(Canonical(s)[i]) == Canonical(s)[i]
      && (Canonical(s)[i] == Canonical(t)[i] <==> HexValue(s[i]) == HexValue(t[i]))
    {
      LowerHexKeepsValue(s[i]);
      LowerHexKeepsValue(t[i]);
    }
    assert Canonical(Canonical(s)) == Canonical(s);
    assert (forall i :: 0 <= i < 24 ==> Canonical(s)[i] == Canonical(t)[i]) ==> Canonical(s) == Canonical(t);
  }

  lemma LowerHexKeepsValue(c: char)
    requires IsHexChar(c)
    ensures IsHexChar(LowerHex(c)) && HexValue(LowerHex(c)) == HexValue(c) && !('A' <= LowerHex(c) <= 'F')
    ensures LowerHex(LowerHex(c)) == LowerHex(c)
    ensures forall d :: IsHexChar(d) && HexValue(d) == HexValue(c) ==> LowerHex(d) == LowerHex(c)
  {
  }

  /** Lookup by `_id in [id, ObjectID(id)]`: a stored id is found under any spelling of its hex digits. */
  function Resolve(events: map<Id, Doc>, req: string): (r: Option<Id>)
    ensures r.Some? ==> r.value in events
  {
    if req in events then Some(req)
    else if IsObjectIdHex(req) && Canonical(req) in events then Some(Canonical(req))
    else None
  }

  // ---- State and steps ------------------------------------------------------------------

  datatype Entry<A> = Entry(value: A, expires: nat)

  datatype World<R, A> = World(events: map<Id, Doc>, rows: map<RowKey, R>, cache: map<Title, Entry<A>>, now: nat)

  ghost function EventsOf(events: map<Id, Doc>, title: Title): set<Id> {
    set e | e in events && events[e].title == title
  }

  ghost function RowsUnder<R>(events: map<Id, Doc>, rows: map<RowKey, R>, title: Title): map<RowKey, R> {
    map k | k in rows && k.event in EventsOf(events, title) :: rows[k]
  }

  lemma RowsUnderPut<R>(events: map<Id, Doc>, rows: map<RowKey, R>, k: RowKey, row: R, title: Title)
    ensures RowsUnder(events, rows[k := row], title) ==
      if k.event in EventsOf(events, title) then RowsUnder(events, rows, title)[k := row]
      else RowsUnder(events, rows, title)
  {
  }

  ghost predicate Empty<R, A>(w: World<R, A>) {
    w.events == map[] && w.rows == map[] && w.cache == map[]
  }

  /** The slow answer: the aggregate of every row of every event with the title. */
  ghost function Recount<R, A>(w: World<R, A>, title: Title, agg: map<RowKey, R> -> A): A {
    agg(RowsUnder(w.events, w.rows, title))
  }

  /** What a cache read returns. */
  function Cached<R, A>(w: World<R, A>, title: Title): Option<A> {
    if title in w.cache && w.now < w.cache[title].expires then Some(w.cache[title].value) else None
  }

  /** The writes a service operation is made of, each with its effect on the stores. */
  datatype Step<R> =
    | AddEvent(id: Id, doc: Doc)
    | EditEvent(id: Id, doc: Doc)
    | PutRow(key: RowKey, row: R)
    | Publish(title: Title, ttl: nat)
    | Elapse(seconds: nat)

  /** Fresh canonical ids; edits keep the title; rows only under the request id of a found event. */
  ghost predicate Enabled<R, A>(w: World<R, A>, s: Step<R>) {
    match s
    case AddEvent(id, doc) => id !in w.events && IsCanonical(id)
    case EditEvent(id, doc) => id in w.events && doc.title == w.events[id].title
    case PutRow(key, row) => Resolve(w.events, key.event).Some?
    case Publish(title, ttl) => true
    case Elapse(d) => true
  }

  ghost function Apply<R, A>(w: World<R, A>, s: Step<R>, agg: map<RowKey, R> -> A): World<R, A> {
    match s
    case AddEvent(id, doc) => w.(events := w.events[id := doc])
    case EditEvent(id, doc) => w.(events := w.events[id := doc])
    case PutRow(key, row) => w.(rows := w.rows[key := row])
    case Publish(title, ttl) => w.(cache := w.cache[title := Entry(Recount(w, title, agg), w.now + ttl)])
    case Elapse(d) => w.(now := w.now + d)
  }

  ghost predicate Possible<R, A(!new)>(w: World<R, A>, steps: seq<Step<R>>, agg: map<RowKey, R> -> A)
    decreases |steps|
  {
    |steps| == 0 || (Enabled(w, steps[0]) && Possible(Apply(w, steps[0], agg), steps[1..], agg))
  }

  ghost function Run<R, A(!new)>(w: World<R, A>, steps: seq<Step<R>>, agg: map<RowKey, R> -> A): World<R, A>
    decreases |steps|
  {
    if |steps| == 0 then w else Run(Apply(w, steps[0], agg), steps[1..], agg)
  }

  lemma {:induction false} RunAppend<R, A(!new)>(w: World<R, A>, a: seq<Step<R>>, b: seq<Step<R>>,
      agg: map<RowKey, R> -> A)
    ensures Run(w, a + b, agg) == Run(Run(w, a, agg), b, agg)
    ensures Possible(w, a + b, agg) <==> Possible(w, a, agg) && Possible(Run(w, a, agg), b, agg)
    decreases |a|
  {
    if |a| == 0 {
      assert a + b == b;
    } else {
      assert (a + b)[0] == a[0] && (a + b)[1..] == a[1..] + b;
      RunAppend(Apply(w, a[0], agg), a[1..], b, agg);
    }
  }

  lemma RunOne<R, A(!new)>(w: World<R, A>, s: Step<R>, agg: map<RowKey, R> -> A)
    ensures Run(w, [s], agg) == Apply(w, s, agg)
    ensures Enabled(w, s) ==> Possible(w, [s], agg)
  {
    assert [s][1..] == [];
  }

  lemma RunTwo<R, A(!new)>(w: World<R, A>, s: Step<R>, t: Step<R>, agg: map<RowKey, R> -> A)
    ensures Run(w, [s, t], agg) == Apply(Apply(w, s, agg), t, agg)
    ensures Enabled(w, s) && Enabled(Apply(w, s, agg), t) ==> Possible(w, [s, t], agg)
  {
    assert [s, t][1..] == [t];
    RunOne(Apply(w, s, agg), t, agg);
  }

  /** Seconds that pass in a sequence of writes. */
  function Passed<R>(steps: seq<Step<R>>): nat {
    if |steps| == 0 then 0 else (if steps[0].Elapse? then steps[0].seconds else 0) + Passed(steps[1..])
  }

  predicate Publishes<R>(steps: seq<Step<R>>, title: Title) {
    exists i :: 0 <= i < |steps| && steps[i].Publish? && steps[i].title == title
  }

  lemma {:induction false} EntryUntouched<R, A(!new)>(w: World<R, A>, steps: seq<Step<R>>, title: Title,
      agg: map<RowKey, R> -> A)
    requires !Publishes(steps, title)
    ensures var v := Run(w, steps, agg);
            && v.now == w.now + Passed(steps)
            && (title in v.cache <==> title in w.cache)
            && (title in w.cache ==> v.cache[title] == w.cache[title])
    decreases |steps|
  {
    if |steps| > 0 {
      var rest := steps[1..];
      assert forall i :: 0 <= i < |rest| ==> rest[i] == steps[i + 1];
      assert !(steps[0].Publish? && steps[0].title == title);
      EntryUntouched(Apply(w, steps[0], agg), rest, title, agg);
    }
  }

  /**
   * A published value is what reads of the title return, whatever else is written, exactly until the
   * TTL has passed; after that they find nothing.
   */
  lemma PublishedUntilExpiry<R, A(!new)>(w: World<R, A>, title: Title, ttl: nat, steps: seq<Step<R>>,
      agg: map<RowKey, R> -> A)
    requires !Publishes(steps, title)
    ensures Cached(Run(Apply(w, Publish(title, ttl), agg), steps, agg), title) ==
            if Passed(steps) < ttl then Some(Recount(w, title, agg)) else None
  {
    EntryUntouched(Apply(w, Publish(title, ttl), agg), steps, title, agg);
  }

  // ---- Reading an aggregate -------------------------------------------------------------

  /** How the backend calls of one read end. */
  datatype ReadFaults = ReadFaults(get: bool, list: bool, count: bool, publish: Write)

  /** Only a miss with a non-zero recount fills the cache. */
  ghost predicate FillsCache<R, A>(w: World<R, A>, title: Title, f: ReadFaults, agg: map<RowKey, R> -> A, zero: A) {
    f.get && Cached(w, title).None? && f.list && f.count && Recount(w, title, agg) != zero
  }

  ghost function ReadSteps<R, A>(w: World<R, A>, title: Title, f: ReadFaults, ttl: nat,
      agg: map<RowKey, R> -> A, zero: A): seq<Step<R>>
  {
    if FillsCache(w, title, f, agg, zero) && !f.publish.Lost? then [Publish(title, ttl)] else []
  }

  /** The cached value, else the recount; an error whenever a call it needs fails. */
  ghost function ReadAnswer<R, A>(w: World<R, A>, title: Title, f: ReadFaults,
      agg: map<RowKey, R> -> A, zero: A): Option<A>
  {
    if !f.get then None
    else if Cached(w, title).Some? then Cached(w, title)
    else if !f.list || !f.count || (FillsCache(w, title, f, agg, zero) && !f.publish.Acked?) then None
    else Some(Recount(w, title, agg))
  }

  function EntryOf<R, A>(w: World<R, A>, title: Title): Option<Entry<A>> {
    if title in w.cache then Some(w.cache[title]) else None
  }

  /**
   * A read answers exactly if its cache lookup succeeds and there is a readable entry, or listing and
   * counting succeed and the recount is zero or its cache write is acknowledged. It answers the entry,
   * else the recount, and only a miss with a recount that is not zero can write: that recount, for the TTL.
   */
  lemma ReadExactly<R, A(!new)>(w: World<R, A>, title: Title, f: ReadFaults, ttl: nat, agg: map<RowKey, R> -> A,
      zero: A)
    ensures var r := ReadAnswer(w, title, f, agg, zero);
            && (r.Some? <==>
                  && f.get
                  && (Cached(w, title).Some? ||
                      (f.list && f.count && (Recount(w, title, agg) == zero || f.publish.Acked?))))
            && (r.Some? ==>
                  r.value == if Cached(w, title).Some? then Cached(w, title).value else Recount(w, title, agg))
    ensures var v := Run(w, ReadSteps(w, title, f, ttl, agg, zero), agg);
            var fills := f.get && Cached(w, title).None? && f.list && f.count && Recount(w, title, agg) != zero;
            v == if fills && !f.publish.Lost?
                 then w.(cache := w.cache[title := Entry(Recount(w, title, agg), w.now + ttl)]) else w
  {
    RunOne(w, Publish(title, ttl), agg);
  }

  /** The cache entries in Redis: two hash fields and an expiry per title. */
  class CacheStore<A> {
    var entries: map<Title, Entry<A>>

    constructor ()
      ensures entries == map[]
    {
      entries := map[];
    }

    /** HMGET of both fields; an expired or missing entry is redis.Nil. */
    method Get(title: Title, now: nat, ok: bool) returns (r: Option<Option<A>>)
      ensures r == if !ok then None
                   else if title in entries && now < entries[title].expires then Some(Some(entries[title].value))
                   else Some(None)
    {
      if !ok { return None; }
      if title in entries && now < entries[title].expires {
        return Some(Some(entries[title].value));
      }
      return Some(None);
    }

    /** HSET and EXPIRE in one transaction. */
    method Set(title: Title, value: A, now: nat, ttl: nat, w: Write) returns (ok: bool)
      modifies this
      ensures ok <==> w.Acked?
      ensures entries == if w.Lost? then old(entries) else old(entries)[title := Entry(value, now + ttl)]
    {
      if !w.Lost? {
        entries := entries[title := Entry(value, now + ttl)];
      }
      ok := w.Acked?;
    }
  }

  // ---- Rows by partition ----------------------------------------------------------------

  /** The rows of one event: one partition of the table. */
  function Partition<R>(rows: map<RowKey, R>, id: Id): map<RowKey, R> {
    map k | k in rows && k.event == id :: rows[k]
  }

  ghost function RowsIn<R>(rows: map<RowKey, R>, ids: seq<Id>): map<RowKey, R> {
    map k | k in rows && k.event in ids :: rows[k]
  }

  ghost predicate IsListing(ids: seq<Id>, s: set<Id>) {
    && (forall e :: e in ids <==> e in s)
    && (forall i, j :: 0 <= i < j < |ids| ==> ids[i] != ids[j])
  }

  lemma RowsInSplit<R>(rows: map<RowKey, R>, before: seq<Id>, last: Id)
    requires last !in before
    ensures RowsIn(rows, before).Keys !! Partition(rows, last).Keys
    ensures RowsIn(rows, before + [last]) == RowsIn(rows, before) + Partition(rows, last)
  {
  }

  lemma NoRowsIn<R>(rows: map<RowKey, R>)
    ensures RowsIn(rows, []) == map[]
  {
  }

  lemma ListedRows<R>(events: map<Id, Doc>, rows: map<RowKey, R>, ids: seq<Id>, title: Title)
    requires IsListing(ids, EventsOf(events, title))
    ensures RowsIn(rows, ids) == RowsUnder(events, rows, title)
  {
  }

  // ---- Invariants of every run ----------------------------------------------------------

  /** Event ids are canonical and every row's key names a stored event in some spelling. */
  ghost predicate WellKeyed<R, A>(w: World<R, A>) {
    && (forall e :: e in w.events ==> IsCanonical(e))
    && (forall k :: k in w.rows ==> Resolve(w.events, k.event).Some?)
  }

  lemma StepKeepsKeys<R, A>(w: World<R, A>, s: Step<R>, agg: map<RowKey, R> -> A)
    requires WellKeyed(w) && Enabled(w, s)
    ensures WellKeyed(Apply(w, s, agg))
  {
  }

  /** A fresh canonical id has no rows yet, under its own spelling. */
  lemma FreshHasNoRows<R, A>(w: World<R, A>, id: Id, user: User)
    requires WellKeyed(w) && id !in w.events && IsCanonical(id)
    ensures RowKey(id, user) !in w.rows
  {
    assert Resolve(w.events, RowKey(id, user).event).None?;
  }

  /** Which steps change the rows that count for a title. */
  ghost predicate Touches<R, A>(w: World<R, A>, s: Step<R>, title: Title) {
    s.PutRow? && s.key.event in EventsOf(w.events, title)
  }

  lemma UntouchedRows<R, A>(w: World<R, A>, s: Step<R>, title: Title, agg: map<RowKey, R> -> A)
    requires WellKeyed(w) && Enabled(w, s) && !Touches(w, s, title)
    ensures RowsUnder(Apply(w, s, agg).events, Apply(w, s, agg).rows, title) == RowsUnder(w.events, w.rows, title)
  {
    var w' := Apply(w, s, agg);
    if s.AddEvent? {
      forall k | k in w.rows ensures k.event != s.id {
        FreshHasNoRows(w, s.id, k.user);
      }
    }
    forall k | k in w.rows && !(s.PutRow? && k == s.key)
      ensures k.event in EventsOf(w'.events, title) <==> k.event in EventsOf(w.events, title)
    {
    }
  }

  /** A row under the title was stored after the last time the title's entry was overwritten. */
  ghost predicate Pending<R, A(!new)>(w: World<R, A>, steps: seq<Step<R>>, title: Title, agg: map<RowKey, R> -> A)
  {
    exists i :: 0 <= i < |steps| && Touches(Run(w, steps[..i], agg), steps[i], title)
      && forall j :: i < j < |steps| ==> !(steps[j].Publish? && steps[j].title == title)
  }

  /** Every entry that can be read is the recount. */
  ghost predicate Coherent<R, A>(w: World<R, A>, title: Title, agg: map<RowKey, R> -> A) {
    Cached(w, title).Some? ==> Cached(w, title).value == Recount(w, title, agg)
  }

  lemma {:induction false} RunKeepsKeys<R, A(!new)>(w: World<R, A>, steps: seq<Step<R>>, agg: map<RowKey, R> -> A)
    requires WellKeyed(w) && Possible(w, steps, agg)
    ensures WellKeyed(Run(w, steps, agg))
    decreases |steps|
  {
    if |steps| > 0 {
      StepKeepsKeys(w, steps[0], agg);
      RunKeepsKeys(Apply(w, steps[0], agg), steps[1..], agg);
    }
  }

  /** The stored entry (whether or not it has expired) is the recount unless a row is pending. */
  ghost predicate EntryCurrent<R, A>(w: World<R, A>, title: Title, agg: map<RowKey, R> -> A) {
    title in w.cache ==> w.cache[title].value == Recount(w, title, agg)
  }

  lemma PendingStays<R, A(!new)>(w: World<R, A>, before: seq<Step<R>>, s: Step<R>, title: Title,
      agg: map<RowKey, R> -> A)
    requires Pending(w, before, title, agg) && !(s.Publish? && s.title == title)
    ensures Pending(w, before + [s], title, agg)
  {
    var steps := before + [s];
    var i :| 0 <= i < |before| && Touches(Run(w, before[..i], agg), before[i], title)
      && forall j :: i < j < |before| ==> !(before[j].Publish? && before[j].title == title);
    assert steps[..i] == before[..i];
    assert Touches(Run(w, steps[..i], agg), steps[i], title);
  }

  lemma TouchIsPending<R, A(!new)>(w: World<R, A>, before: seq<Step<R>>, s: Step<R>, title: Title,
      agg: map<RowKey, R> -> A)
    requires Touches(Run(w, before, agg), s, title)
    ensures Pending(w, before + [s], title, agg)
  {
    var steps := before + [s];
    assert steps[..|before|] == before;
    assert Touches(Run(w, steps[..|before|], agg), steps[|before|], title);
  }

  lemma LastStep<R, A(!new)>(w: World<R, A>, steps: seq<Step<R>>, agg: map<RowKey, R> -> A)
    requires |steps| > 0 && Possible(w, steps, agg)
    ensures var before, s := steps[..|steps| - 1], steps[|steps| - 1];
            && Possible(w, before, agg) && Enabled(Run(w, before, agg), s)
            && Run(w, steps, agg) == Apply(Run(w, before, agg), s, agg)
  {
    var before, s := steps[..|steps| - 1], steps[|steps| - 1];
    assert steps == before + [s];
    RunAppend(w, before, [s], agg);
    RunOne(Run(w, before, agg), s, agg);
  }

  lemma PublishedIsCurrent<R, A>(w: World<R, A>, title: Title, ttl: nat, agg: map<RowKey, R> -> A)
    ensures EntryCurrent(Apply(w, Publish(title, ttl), agg), title, agg)
  {
    var v := Apply(w, Publish(title, ttl), agg);
    assert RowsUnder(v.events, v.rows, title) == RowsUnder(w.events, w.rows, title);
  }

  lemma StaysCurrent<R, A>(w: World<R, A>, s: Step<R>, title: Title, agg: map<RowKey, R> -> A)
    requires WellKeyed(w) && Enabled(w, s) && !Touches(w, s, title) && !(s.Publish? && s.title == title)
    requires EntryCurrent(w, title, agg)
    ensures EntryCurrent(Apply(w, s, agg), title, agg)
  {
    UntouchedRows(w, s, title, agg);
  }

  lemma PublishesBefore<R>(before: seq<Step<R>>, s: Step<R>, title: Title)
    requires !(s.Publish? && s.title == title)
    ensures Publishes(before + [s], title) ==> Publishes(before, title)
  {
    if Publishes(before + [s], title) {
      var j :| 0 <= j < |before + [s]| && (before + [s])[j].Publish? && (before + [s])[j].title == title;
      assert before[j].Publish? && before[j].title == title;
    }
  }

  lemma {:induction false} EntryCurrentUnlessPending<R, A(!new)>(w: World<R, A>, steps: seq<Step<R>>, title: Title,
      agg: map<RowKey, R> -> A)
    requires WellKeyed(w) && Possible(w, steps, agg)
    requires EntryCurrent(w, title, agg) || Publishes(steps, title)
    requires !Pending(w, steps, title, agg)
    ensures EntryCurrent(Run(w, steps, agg), title, agg)
    decreases |steps|
  {
    if |steps| > 0 {
      hide Run, Possible, WellKeyed, EntryCurrent, Enabled, Apply, Touches, Pending, Publishes;
      var before, s := steps[..|steps| - 1], steps[|steps| - 1];
      var v := Run(w, before, agg);
      LastStep(w, steps, agg);
      RunKeepsKeys(w, before, agg);
      if s.Publish? && s.title == title {
        PublishedIsCurrent(v, title, s.ttl, agg);
      } else {
        assert steps == before + [s];
        if Pending(w, before, title, agg) { PendingStays(w, before, s, title, agg); }
        if Touches(v, s, title) { TouchIsPending(w, before, s, title, agg); }
        PublishesBefore(before, s, title);
        EntryCurrentUnlessPending(w, before, title, agg);
        StaysCurrent(v, s, title, agg);
      }
    }
  }

  /**
   * In every run a readable entry equals the recount, unless a row under the title was stored
   * after the last overwrite of that entry.
   */
  lemma CoherentUnlessPending<R, A(!new)>(w: World<R, A>, steps: seq<Step<R>>, title: Title, agg: map<RowKey, R> -> A)
    requires WellKeyed(w) && w.cache == map[] && Possible(w, steps, agg)
    ensures Coherent(Run(w, steps, agg), title, agg) || Pending(w, steps, title, agg)
  {
    if !Pending(w, steps, title, agg) {
      EntryCurrentUnlessPending(w, steps, title, agg);
    }
  }
}
