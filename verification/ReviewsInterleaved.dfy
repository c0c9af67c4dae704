/**
 * Review creation and update broken into their reads and writes and interleaved in any order. A create
 * checks for a row and then inserts; an update finds the review, reads the row again and writes it back.
 */
module ReviewsInterleaved {
  import opened Backend
  import opened Text
  import opened TitleCache
  import opened Reviews

  /**
   * `clash` is history: the check missed a stored row because it failed, or another insert under the
   * same key has taken effect since the check. So is `rated`: the rating of the review going by creates
   * and by updates that give one, counted from the read.
   */
  datatype Job =
    | Creating(key: RowKey, review: Review, clash: bool)
    | Looked(key: RowKey, wanted: string)
    | Updating(key: RowKey, wanted: string, read: Review, rated: int)

  /** `stored` is history: under which key and with which creation time an id was ever stored. */
  datatype State = State(rows: Table, jobs: map<nat, Job>, ids: set<string>, stored: set<(string, RowKey, int)>)

  datatype Move =
    | Check(job: nat, key: RowKey, review: Review, ok: bool)
    | Insert(job: nat, w: Write)
    | Look(job: nat, key: RowKey, wanted: string, ok: bool)
    | Reread(job: nat, ok: bool)
    | WriteBack(job: nat, rating: Option<int>, comment: Option<string>, now: int, w: Write)
    | Stop(job: nat)

  /** A new review gets a fresh id. */
  predicate CanMove(s: State, m: Move) {
    match m
    case Check(job, key, review, ok) => job !in s.jobs && review.id !in s.ids
    case Insert(job, w) => job in s.jobs && s.jobs[job].Creating?
    case Look(job, key, wanted, ok) => job !in s.jobs
    case Reread(job, ok) => job in s.jobs && s.jobs[job].Looked?
    case WriteBack(job, rating, comment, now, w) => job in s.jobs && s.jobs[job].Updating?
    case Stop(job) => job in s.jobs
  }

  function Put(s: State, key: RowKey, r: Review): State {
    s.(rows := s.rows[key := r], stored := s.stored + {(r.id, key, r.createdAt)})
  }

  /** The jobs waiting under the key, after an insert or after an update that gives a rating or none. */
  function Noted(jobs: map<nat, Job>, key: RowKey, inserted: bool, rating: Option<int>): map<nat, Job> {
    map j | j in jobs ::
      if jobs[j].key != key then jobs[j]
      else if jobs[j].Creating? && inserted then jobs[j].(clash := true)
      else if jobs[j].Updating? && rating.Some? then jobs[j].(rated := rating.value)
      else jobs[j]
  }

  function Step(s: State, m: Move): State
    requires CanMove(s, m)
  {
    match m
    case Check(job, key, review, ok) =>
      var t := s.(ids := s.ids + {review.id});
      if ok && key in s.rows then t else t.(jobs := t.jobs[job := Creating(key, review, key in s.rows)])
    case Insert(job, w) =>
      var j := s.jobs[job];
      var t := s.(jobs := s.jobs - {job});
      if w.Lost? then t else Put(t.(jobs := Noted(t.jobs, j.key, true, Some(j.review.rating))), j.key, j.review)
    case Look(job, key, wanted, ok) =>
      if ok && key in s.rows && s.rows[key].id == wanted then s.(jobs := s.jobs[job := Looked(key, wanted)]) else s
    case Reread(job, ok) =>
      var j := s.jobs[job];
      if !ok || j.key !in s.rows then s.(jobs := s.jobs - {job})
      else s.(jobs := s.jobs[job := Updating(j.key, j.wanted, s.rows[j.key], s.rows[j.key].rating)])
    case WriteBack(job, rating, comment, now, w) =>
      var j := s.jobs[job];
      var t := s.(jobs := s.jobs - {job});
      if w.Lost? then t
      else Put(t.(jobs := Noted(t.jobs, j.key, false, rating)), j.key, Rewritten(j.read, rating, comment, now))
    case Stop(job) => s.(jobs := s.jobs - {job})
  }

  ghost predicate CanRun(s: State, moves: seq<Move>)
    decreases |moves|
  {
    |moves| == 0 || (CanMove(s, moves[0]) && CanRun(Step(s, moves[0]), moves[1..]))
  }

  ghost function Run(s: State, moves: seq<Move>): State
    requires CanRun(s, moves)
    decreases |moves|
  {
    if |moves| == 0 then s else Run(Step(s, moves[0]), moves[1..])
  }

  ghost predicate Initial(s: State) {
    s.rows == map[] && s.jobs == map[] && s.stored == {}
  }

  // ---- The invariant --------------------------------------------------------------------

  /** An id names one review: one key, one creation time. */
  ghost predicate OneReviewPerId(stored: set<(string, RowKey, int)>) {
    forall a, b :: a in stored && b in stored && a.0 == b.0 ==> a == b
  }

  ghost predicate NewId(s: State, id: string) {
    id in s.ids && forall a :: a in s.stored ==> a.0 != id
  }

  ghost predicate Sound(s: State, j: Job) {
    match j
    case Creating(key, review, clash) => NewId(s, review.id) && (clash <==> key in s.rows)
    case Looked(key, wanted) => key in s.rows
    case Updating(key, wanted, read, rated) => key in s.rows && (read.id, key, read.createdAt) in s.stored
  }

  ghost predicate OwnIds(jobs: map<nat, Job>) {
    forall i, j :: i in jobs && j in jobs && i != j && jobs[i].Creating? && jobs[j].Creating? ==>
      jobs[i].review.id != jobs[j].review.id
  }

  ghost predicate Good(s: State) {
    && OneReviewPerId(s.stored)
    && (forall a :: a in s.stored ==> a.0 in s.ids)
    && (forall k :: k in s.rows ==> (s.rows[k].id, k, s.rows[k].createdAt) in s.stored)
    && (forall j :: j in s.jobs ==> Sound(s, s.jobs[j]))
    && OwnIds(s.jobs)
  }

  lemma NotedKeepsOwn(jobs: map<nat, Job>, key: RowKey, inserted: bool, rating: Option<int>)
    requires OwnIds(jobs)
    ensures OwnIds(Noted(jobs, key, inserted, rating))
  {
  }

  /** A stored row keeps the history good if its id is new, or already names this review. */
  lemma PutKeepsStored(s: State, key: RowKey, r: Review)
    requires Good(s) && r.id in s.ids
    requires NewId(s, r.id) || (r.id, key, r.createdAt) in s.stored
    ensures var t := Put(s, key, r);
            && OneReviewPerId(t.stored)
            && (forall a :: a in t.stored ==> a.0 in t.ids)
            && (forall k :: k in t.rows ==> (t.rows[k].id, k, t.rows[k].createdAt) in t.stored)
  {
    hide Sound, OwnIds;
  }

  lemma InsertKeepsSound(s: State, job: nat, w: Write, j: nat)
    requires Good(s) && CanMove(s, Insert(job, w)) && j in s.jobs && j != job
    ensures Sound(Step(s, Insert(job, w)), Step(s, Insert(job, w)).jobs[j])
  {
    hide OneReviewPerId;
    assert Sound(s, s.jobs[j]);
    assert Sound(s, s.jobs[job]);
  }

  lemma InsertKeepsGood(s: State, job: nat, w: Write)
    requires Good(s) && CanMove(s, Insert(job, w))
    ensures Good(Step(s, Insert(job, w)))
  {
    var c := s.jobs[job];
    var t := Step(s, Insert(job, w));
    assert Sound(s, c);
    assert OwnIds(s.jobs - {job});
    NotedKeepsOwn(s.jobs - {job}, c.key, true, Some(c.review.rating));
    PutKeepsStored(s, c.key, c.review);
    forall j | j in t.jobs ensures Sound(t, t.jobs[j]) {
      InsertKeepsSound(s, job, w, j);
    }
    hide Sound, OwnIds, OneReviewPerId, Noted, NewId;
  }

  lemma WriteBackKeepsSound(s: State, m: Move, j: nat)
    requires Good(s) && CanMove(s, m) && m.WriteBack? && j in s.jobs && j != m.job
    ensures Sound(Step(s, m), Step(s, m).jobs[j])
  {
    hide OneReviewPerId, OwnIds;
    assert Sound(s, s.jobs[j]);
    assert Sound(s, s.jobs[m.job]);
  }

  lemma WriteBackKeepsGood(s: State, m: Move)
    requires Good(s) && CanMove(s, m) && m.WriteBack?
    ensures Good(Step(s, m))
  {
    var c := s.jobs[m.job];
    var t := Step(s, m);
    assert Sound(s, c);
    assert OwnIds(s.jobs - {m.job});
    NotedKeepsOwn(s.jobs - {m.job}, c.key, false, m.rating);
    PutKeepsStored(s, c.key, Rewritten(c.read, m.rating, m.comment, m.now));
    forall j | j in t.jobs ensures Sound(t, t.jobs[j]) {
      WriteBackKeepsSound(s, m, j);
    }
    hide Sound, OwnIds, OneReviewPerId, Noted, NewId;
  }

  lemma StepKeepsGood(s: State, m: Move)
    requires Good(s) && CanMove(s, m)
    ensures Good(Step(s, m))
  {
    if m.Insert? {
      InsertKeepsGood(s, m.job, m.w);
    } else if m.WriteBack? {
      WriteBackKeepsGood(s, m);
    } else {
      var t := Step(s, m);
      forall j | j in t.jobs ensures Sound(t, t.jobs[j]) {
        if j in s.jobs { assert Sound(s, s.jobs[j]); }
      }
    }
  }

  lemma {:induction false} RunKeepsGood(s: State, moves: seq<Move>)
    requires Good(s) && CanRun(s, moves)
    ensures Good(Run(s, moves))
    decreases |moves|
  {
    hide Good, Step, CanMove;
    if |moves| > 0 {
      StepKeepsGood(s, moves[0]);
      RunKeepsGood(Step(s, moves[0]), moves[1..]);
    }
  }

  /** In every interleaving a review id is only ever stored under one event and author, with one creation time. */
  lemma IdNamesOneReview(s: State, moves: seq<Move>)
    requires Initial(s) && CanRun(s, moves)
    ensures var t := Run(s, moves);
            && (forall a, b :: a in t.stored && b in t.stored && a.0 == b.0 ==> a == b)
            && (forall k :: k in t.rows ==> (t.rows[k].id, k, t.rows[k].createdAt) in t.stored)
            && (forall k, l :: k in t.rows && l in t.rows && t.rows[k].id == t.rows[l].id ==> k == l)
  {
    RunKeepsGood(s, moves);
  }

  // ---- Replaced reviews -----------------------------------------------------------------

  /** The move puts another review in the place of the stored one. */
  predicate Replaces(s: State, m: Move, key: RowKey)
    requires CanMove(s, m)
  {
    key in s.rows && key in Step(s, m).rows && Step(s, m).rows[key].id != s.rows[key].id
  }

  /** An insert that takes effect although its check failed over a row, or was overtaken. */
  predicate Clashes(s: State, m: Move) {
    m.Insert? && m.job in s.jobs && s.jobs[m.job].Creating? && !m.w.Lost? && s.jobs[m.job].clash
  }

  /** A write-back that takes effect after the row it read was replaced. */
  predicate Revives(s: State, m: Move) {
    && m.WriteBack? && m.job in s.jobs && s.jobs[m.job].Updating? && !m.w.Lost?
    && s.jobs[m.job].key in s.rows && s.rows[s.jobs[m.job].key].id != s.jobs[m.job].read.id
  }

  /** A step replaces a review exactly when it is a clashing insert, or brings back a replaced review. */
  lemma ReplacedExactly(s: State, m: Move, key: RowKey)
    requires Good(s) && CanMove(s, m)
    ensures Replaces(s, m, key) <==> (Clashes(s, m) || Revives(s, m)) && s.jobs[m.job].key == key
  {
    if m.Insert? || m.WriteBack? { assert Sound(s, s.jobs[m.job]); }
    if m.Insert? && key in s.rows { assert (s.rows[key].id, key, s.rows[key].createdAt) in s.stored; }
  }

  /** Every row read by an update still holds the review that was read, and looked up. */
  ghost predicate Fresh(s: State) {
    forall j :: j in s.jobs ==>
      && (s.jobs[j].Looked? ==> s.jobs[j].key in s.rows && s.rows[s.jobs[j].key].id == s.jobs[j].wanted)
      && (s.jobs[j].Updating? ==>
            s.jobs[j].key in s.rows && s.rows[s.jobs[j].key].id == s.jobs[j].read.id == s.jobs[j].wanted)
  }

  lemma InsertKeepsFresh(s: State, job: nat, w: Write)
    requires Good(s) && Fresh(s) && CanMove(s, Insert(job, w)) && !Clashes(s, Insert(job, w))
    ensures Fresh(Step(s, Insert(job, w)))
  {
    hide OneReviewPerId, NewId, OwnIds;
    assert Sound(s, s.jobs[job]);
  }

  lemma WriteBackKeepsFresh(s: State, m: Move)
    requires Fresh(s) && CanMove(s, m) && m.WriteBack?
    ensures Fresh(Step(s, m))
  {
  }

  lemma OtherMovesKeepFresh(s: State, m: Move)
    requires Fresh(s) && CanMove(s, m) && !m.Insert? && !m.WriteBack?
    ensures Fresh(Step(s, m))
  {
    hide Noted;
  }

  lemma StepKeepsFresh(s: State, m: Move)
    requires Good(s) && Fresh(s) && CanMove(s, m) && !Clashes(s, m)
    ensures Fresh(Step(s, m))
  {
    hide Good, Fresh, Step;
    if m.Insert? {
      InsertKeepsFresh(s, m.job, m.w);
    } else if m.WriteBack? {
      WriteBackKeepsFresh(s, m);
    } else {
      OtherMovesKeepFresh(s, m);
    }
  }

  ghost predicate NothingReplaced(s: State, moves: seq<Move>)
    requires CanRun(s, moves)
    decreases |moves|
  {
    |moves| == 0 || ((forall key :: !Replaces(s, moves[0], key)) && NothingReplaced(Step(s, moves[0]), moves[1..]))
  }

  ghost predicate NoClash(s: State, moves: seq<Move>)
    requires CanRun(s, moves)
    decreases |moves|
  {
    |moves| == 0 || (!Clashes(s, moves[0]) && NoClash(Step(s, moves[0]), moves[1..]))
  }

  /** A stored review is never replaced in exactly the runs without a clashing insert. */
  lemma {:induction false} NothingReplacedExactly(s: State, moves: seq<Move>)
    requires Good(s) && Fresh(s) && CanRun(s, moves)
    ensures NothingReplaced(s, moves) <==> NoClash(s, moves)
    decreases |moves|
  {
    hide Good, Step, CanMove;
    if |moves| > 0 {
      var m := moves[0];
      forall key ensures Replaces(s, m, key) <==> (Clashes(s, m) || Revives(s, m)) && s.jobs[m.job].key == key {
        ReplacedExactly(s, m, key);
      }
      assert !Revives(s, m);
      if Clashes(s, m) {
        assert Replaces(s, m, s.jobs[m.job].key);
      } else {
        StepKeepsGood(s, m);
        StepKeepsFresh(s, m);
        NothingReplacedExactly(Step(s, m), moves[1..]);
      }
    }
  }

  ghost predicate Keeps(v: Table, w: Table) {
    forall k :: k in v ==> k in w && w[k].id == v[k].id && w[k].createdAt == v[k].createdAt
  }

  lemma StepKeepsReviews(s: State, m: Move)
    requires Good(s) && Fresh(s) && CanMove(s, m) && !Clashes(s, m)
    ensures Keeps(s.rows, Step(s, m).rows)
    ensures m.WriteBack? ==> s.jobs[m.job].read.id == s.jobs[m.job].wanted
  {
    hide NewId, OwnIds, Noted;
    if m.Insert? || m.WriteBack? { assert Sound(s, s.jobs[m.job]); }
    if m.WriteBack? {
      var key := s.jobs[m.job].key;
      assert (s.rows[key].id, key, s.rows[key].createdAt) in s.stored;
    }
  }

  /** In those runs every stored review keeps id, author and creation time, whatever runs concurrently. */
  lemma {:induction false} RunKeepsReviews(s: State, moves: seq<Move>)
    requires Good(s) && Fresh(s) && CanRun(s, moves) && NoClash(s, moves)
    ensures Keeps(s.rows, Run(s, moves).rows)
    decreases |moves|
  {
    hide Good, Fresh, Step, CanMove, Clashes;
    if |moves| > 0 {
      StepKeepsReviews(s, moves[0]);
      StepKeepsGood(s, moves[0]);
      StepKeepsFresh(s, moves[0]);
      RunKeepsReviews(Step(s, moves[0]), moves[1..]);
    }
  }

  /** Two creates whose checks both run before either insert: the second insert replaces the first review. */
  lemma TwoCreatesClash(s: State, key: RowKey, a: Review, b: Review, i: nat, j: nat)
    requires key !in s.rows && i !in s.jobs && j !in s.jobs && i != j
    requires a.id !in s.ids && b.id !in s.ids && a.id != b.id
    ensures CanMove(s, Check(i, key, a, true))
    ensures var t := Step(s, Check(i, key, a, true));
            && CanMove(t, Check(j, key, b, true))
            && var u := Step(t, Check(j, key, b, true));
            && CanMove(u, Insert(i, Acked))
            && var v := Step(u, Insert(i, Acked));
            && CanMove(v, Insert(j, Acked)) && v.rows[key] == a && Step(v, Insert(j, Acked)).rows[key] == b
            && Replaces(v, Insert(j, Acked), key)
  {
  }

  // ---- Lost ratings ---------------------------------------------------------------------

  /** The move is a create or an update under the key that takes effect and gives a rating. */
  predicate Gives(s: State, m: Move, key: RowKey)
    requires CanMove(s, m)
  {
    && (m.Insert? || m.WriteBack?) && s.jobs[m.job].key == key && !m.w.Lost?
    && (m.WriteBack? ==> m.rating.Some?)
  }

  predicate ChangesRating(s: State, m: Move, key: RowKey)
    requires CanMove(s, m)
  {
    key in s.rows && key in Step(s, m).rows && Step(s, m).rows[key].rating != s.rows[key].rating
  }

  /** An update without a rating writes back a row that has been given another rating since it was read. */
  predicate Restores(s: State, m: Move) {
    && m.WriteBack? && m.job in s.jobs && s.jobs[m.job].Updating? && !m.w.Lost?
    && m.rating.None? && s.jobs[m.job].rated != s.jobs[m.job].read.rating
  }

  /** Every row that is read has the rating that creates and updates gave it since. */
  ghost predicate RatingsTracked(s: State) {
    forall j :: j in s.jobs && s.jobs[j].Updating? ==>
      s.jobs[j].key in s.rows && s.rows[s.jobs[j].key].rating == s.jobs[j].rated
  }

  lemma RatingChanges(s: State, m: Move, key: RowKey)
    requires RatingsTracked(s) && CanMove(s, m)
    ensures ChangesRating(s, m, key) && !Gives(s, m, key) <==> Restores(s, m) && s.jobs[m.job].key == key
  {
    hide Noted;
  }

  lemma StepKeepsRatings(s: State, m: Move)
    requires RatingsTracked(s) && CanMove(s, m) && !Restores(s, m)
    ensures RatingsTracked(Step(s, m))
  {
  }

  /** In the run a stored rating changes only by a create or an update that gives one. */
  ghost predicate OnlyGivenRatings(s: State, moves: seq<Move>)
    requires CanRun(s, moves)
    decreases |moves|
  {
    |moves| == 0 ||
    ((forall key :: ChangesRating(s, moves[0], key) ==> Gives(s, moves[0], key)) &&
     OnlyGivenRatings(Step(s, moves[0]), moves[1..]))
  }

  ghost predicate NothingRestored(s: State, moves: seq<Move>)
    requires CanRun(s, moves)
    decreases |moves|
  {
    |moves| == 0 || (!Restores(s, moves[0]) && NothingRestored(Step(s, moves[0]), moves[1..]))
  }

  /**
   * A given rating is lost again in exactly the runs where an update without a rating writes back a row
   * that a create or another update gave a different rating since it was read.
   */
  lemma {:induction false} OnlyGivenRatingsExactly(s: State, moves: seq<Move>)
    requires RatingsTracked(s) && CanRun(s, moves)
    ensures OnlyGivenRatings(s, moves) <==> NothingRestored(s, moves)
    decreases |moves|
  {
    hide RatingsTracked, ChangesRating, Gives, Step, CanMove;
    if |moves| > 0 {
      var m := moves[0];
      forall key ensures ChangesRating(s, m, key) && !Gives(s, m, key) <==> Restores(s, m) && s.jobs[m.job].key == key {
        RatingChanges(s, m, key);
      }
      if Restores(s, m) {
        assert ChangesRating(s, m, s.jobs[m.job].key) && !Gives(s, m, s.jobs[m.job].key);
      } else {
        StepKeepsRatings(s, m);
        OnlyGivenRatingsExactly(Step(s, m), moves[1..]);
      }
    }
  }

  /** Two updates that both read before either writes: the second, with a comment only, undoes the first's rating. */
  lemma CommentUndoesRating(s: State, key: RowKey, rating: int, comment: string, now: int, i: nat, j: nat)
    requires key in s.rows && i in s.jobs && j in s.jobs && i != j
    requires s.jobs[i] == s.jobs[j] == Looked(key, s.rows[key].id) && rating != s.rows[key].rating
    ensures CanMove(s, Reread(i, true))
    ensures var t := Step(s, Reread(i, true));
            && CanMove(t, Reread(j, true))
            && var u := Step(t, Reread(j, true));
            && CanMove(u, WriteBack(i, Some(rating), None, now, Acked))
            && var v := Step(u, WriteBack(i, Some(rating), None, now, Acked));
            && v.rows[key].rating == rating
            && CanMove(v, WriteBack(j, None, Some(comment), now, Acked))
            && Step(v, WriteBack(j, None, Some(comment), now, Acked)).rows[key].rating == s.rows[key].rating
  {
  }

  // ---- Calls that nothing interrupts ------------------------------------------------------

  /** A create whose insert follows its check writes what the serial create writes. */
  lemma CreateAlone(s: State, job: nat, key: RowKey, review: Review, ok: bool, w: Write)
    requires CanMove(s, Check(job, key, review, ok))
    ensures var t := Step(s, Check(job, key, review, ok));
            if ok && key in s.rows then t.rows == s.rows && t.jobs == s.jobs
            else CanMove(t, Insert(job, w)) && Step(t, Insert(job, w)).jobs.Keys == s.jobs.Keys &&
                 Step(t, Insert(job, w)).rows == if Inserts(s.rows, key, ok, w) then s.rows[key := review] else s.rows
  {
  }

  /** An update whose read and write-back follow its lookup rewrites the caller's own review, and no other row. */
  lemma UpdateAlone(s: State, job: nat, q: UpdateReq, now: int, f: UpdateFaults)
    requires job !in s.jobs
    ensures var key := RowKey(q.event, q.user);
            var t := Step(s, Look(job, key, q.review, f.get));
            if !f.get || !Owns(s.rows, q) then t == s
            else
              && CanMove(t, Reread(job, f.reread))
              && var u := Step(t, Reread(job, f.reread));
              if !f.reread then u.rows == s.rows && u.jobs == s.jobs
              else
                && var back := WriteBack(job, q.rating, q.comment, now, f.write);
                && CanMove(u, back) && Step(u, back).jobs.Keys == s.jobs.Keys
                && Step(u, back).rows == if f.write.Lost? then s.rows
                                         else s.rows[key := Rewritten(s.rows[key], q.rating, q.comment, now)]
  {
    hide Rewritten;
  }
}
