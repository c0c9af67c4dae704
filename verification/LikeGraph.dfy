/** The like graph in Neo4j and the path-count query that ranks events for a user. */
module LikeGraph {
  import opened Backend
  import opened Text
  import opened TitleCache

  type Like = (User, Id)

  ghost function LikedBy(likes: set<Like>, u: User): set<Id> {
    set l | l in likes && l.0 == u :: l.1
  }

  ghost function LikersOf(likes: set<Like>, e: Id): set<User> {
    set l | l in likes && l.1 == e :: l.0
  }

  /** One row of the query per path user -> common -> other -> recommended. */
  datatype Path = Path(common: Id, other: User, recommended: Id)

  /** The paths MATCH finds: `other <> u`, and no LIKED edge from the user to the end. */
  ghost function Paths(likes: set<Like>, u: User, r: Id): set<Path> {
    set e, o | e in LikedBy(likes, u) && o in LikersOf(likes, r) && o in LikersOf(likes, e) &&
               o != u && r !in LikedBy(likes, u) :: Path(e, o, r)
  }

  /** count(*) of the group of `r`. */
  ghost function Score(likes: set<Like>, u: User, r: Id): nat {
    |Paths(likes, u, r)|
  }

  ghost function Common(likes: set<Like>, u: User, o: User): set<Id> {
    LikedBy(likes, u) * LikedBy(likes, o)
  }

  /** Sum over the users of `s` of how many events each likes together with `u`. */
  ghost function CommonTotal(likes: set<Like>, u: User, s: set<User>): nat {
    if s == {} then 0
    else
      var o :| o in s;
      |Common(likes, u, o)| + CommonTotal(likes, u, s - {o})
  }

  ghost function PathsVia(likes: set<Like>, u: User, r: Id, s: set<User>): set<Path> {
    set p | p in Paths(likes, u, r) && p.other in s
  }

  lemma {:induction false} ImageSize(es: set<Id>, o: User, r: Id)
    ensures |set e | e in es :: Path(e, o, r)| == |es|
    decreases es
  {
    if es != {} {
      var e :| e in es;
      ImageSize(es - {e}, o, r);
      var smaller := set x | x in es - {e} :: Path(x, o, r);
      assert (set x | x in es :: Path(x, o, r)) == smaller + {Path(e, o, r)};
    }
  }

  lemma PathsOfOne(likes: set<Like>, u: User, r: Id, o: User)
    requires (u, r) !in likes && (o, r) in likes && o != u
    ensures |PathsVia(likes, u, r, {o})| == |Common(likes, u, o)|
  {
    ImageSize(Common(likes, u, o), o, r);
    assert PathsVia(likes, u, r, {o}) == set e | e in Common(likes, u, o) :: Path(e, o, r) by {
      forall e ensures e in LikedBy(likes, o) <==> (o, e) in likes {}
      forall e ensures o in LikersOf(likes, e) <==> (o, e) in likes {}
      forall e ensures e in LikedBy(likes, u) <==> (u, e) in likes {}
    }
  }

  lemma {:induction false} PathsByUser(likes: set<Like>, u: User, r: Id, s: set<User>)
    requires (u, r) !in likes && u !in s
    requires forall o :: o in s ==> (o, r) in likes
    ensures |PathsVia(likes, u, r, s)| == CommonTotal(likes, u, s)
    decreases s
  {
    hide Paths, Common;
    if s == {} {
      assert PathsVia(likes, u, r, s) == {};
    } else {
      var o :| o in s && CommonTotal(likes, u, s) == |Common(likes, u, o)| + CommonTotal(likes, u, s - {o});
      PathsByUser(likes, u, r, s - {o});
      PathsOfOne(likes, u, r, o);
      assert PathsVia(likes, u, r, s) == PathsVia(likes, u, r, s - {o}) + PathsVia(likes, u, r, {o});
    }
  }

  /** The score of an event the user has not liked: common likes summed over the others who like it. */
  lemma ScoreIsCommonLikes(likes: set<Like>, u: User, r: Id)
    ensures Score(likes, u, r) ==
      if (u, r) in likes then 0 else CommonTotal(likes, u, LikersOf(likes, r) - {u})
  {
    if (u, r) in likes {
      assert r in LikedBy(likes, u);
      assert Paths(likes, u, r) == {};
    } else {
      var others := LikersOf(likes, r) - {u};
      assert r !in LikedBy(likes, u);
      PathsByUser(likes, u, r, others);
      assert PathsVia(likes, u, r, others) == Paths(likes, u, r);
    }
  }

  /** Someone else's like never lowers a score of `u`, so it never removes a candidate. */
  lemma OthersLikesOnlyRaise(likes: set<Like>, u: User, other: User, e: Id, r: Id)
    requires other != u
    ensures Score(likes, u, r) <= Score(likes + {(other, e)}, u, r)
  {
    var more := likes + {(other, e)};
    assert LikedBy(more, u) == LikedBy(likes, u);
    assert forall x :: LikersOf(likes, x) <= LikersOf(more, x);
    assert Paths(likes, u, r) <= Paths(more, u, r);
    SubsetSize(Paths(likes, u, r), Paths(more, u, r));
  }

  // ---- The stored graph -----------------------------------------------------------------

  datatype Value = Null | Str(text: string) | Num(number: int)

  /** One record the driver returns; a field can be null or of another type. */
  datatype Record = Record(id: Value, title: Value, score: Value)

  datatype Recommended = Recommended(id: Id, title: Title, score: int)

  /** parseRecommendationRecord */
  function ParseRecord(r: Record): Option<Recommended> {
    if r.id.Str? && r.title.Str? && r.score.Num?
    then Some(Recommended(r.id.text, r.title.text, r.score.number)) else None
  }

  function ParseRecords(rs: seq<Record>): seq<Recommended> {
    if rs == [] then []
    else
      var before := ParseRecords(rs[..|rs| - 1]);
      match ParseRecord(rs[|rs| - 1])
      case None => before
      case Some(p) => before + [p]
  }

  /** The kept recommendations stand for exactly the positions of the records of the right types, in order. */
  ghost predicate KeptAt(rs: seq<Record>, recs: seq<Recommended>, ps: seq<nat>) {
    && |ps| == |recs|
    && (forall j, k :: 0 <= j < k < |ps| ==> ps[j] < ps[k])
    && (forall i: nat :: i in ps <==> i < |rs| && rs[i].id.Str? && rs[i].title.Str? && rs[i].score.Num?)
    && (forall k :: 0 <= k < |ps| ==>
          ps[k] < |rs| && rs[ps[k]] == Record(Str(recs[k].id), Str(recs[k].title), Num(recs[k].score)))
  }

  lemma NoneKept()
    ensures KeptAt([], ParseRecords([]), [])
  {
  }

  lemma KeptAtNext(rs: seq<Record>, recs: seq<Recommended>, ps: seq<nat>, last: Record)
    requires KeptAt(rs, recs, ps)
    ensures
      var p := ParseRecord(last);
      KeptAt(rs + [last], if p.Some? then recs + [p.value] else recs, if p.Some? then ps + [|rs|] else ps)
  {
    forall k | 0 <= k < |ps| ensures ps[k] < |rs| && (rs + [last])[ps[k]] == rs[ps[k]] { assert ps[k] in ps; }
    var p := ParseRecord(last);
    var more := if p.Some? then ps + [|rs|] else ps;
    forall i: nat
      ensures i in more <==> i < |rs| + 1 && (rs + [last])[i].id.Str? && (rs + [last])[i].title.Str? &&
                             (rs + [last])[i].score.Num?
    {
      assert i in more <==> i in ps || (p.Some? && i == |rs|);
      assert i < |rs| ==> (rs + [last])[i] == rs[i];
    }
  }

  /** A record of the wrong types is skipped, and no other; nothing is reordered. */
  lemma {:induction false} ParseRecordsExactly(rs: seq<Record>) returns (ps: seq<nat>)
    ensures KeptAt(rs, ParseRecords(rs), ps)
    decreases |rs|
  {
    hide ParseRecord, KeptAt;
    if rs == [] {
      ps := [];
      NoneKept();
    } else {
      var n := |rs| - 1;
      ps := ParseRecordsExactly(rs[..n]);
      KeptAtNext(rs[..n], ParseRecords(rs[..n]), ps, rs[n]);
      assert rs == rs[..n] + [rs[n]];
      ps := if ParseRecord(rs[n]).Some? then ps + [n] else ps;
    }
  }

  class LikeGraph {
    var users: set<User>
    var titles: map<Id, Title>
    var likes: set<Like>

    constructor ()
      ensures users == {} && titles == map[] && likes == {}
    {
      users, titles, likes := {}, map[], {};
    }

    /** Every liked event is a node with a title, and every liker a node. */
    ghost predicate Valid()
      reads this
    {
      forall l :: l in likes ==> l.0 in users && l.1 in titles
    }

    method CreateEvent(eventID: Id, title: Title, w: Write)
      modifies this`titles
      ensures titles == if w.Lost? then old(titles) else old(titles)[eventID := title]
    {
      if !w.Lost? {
        titles := titles[eventID := title];
      }
    }

    /** MERGE the user, the event and the edge, and set the title. */
    method AddLike(userID: User, eventID: Id, title: Title, w: Write)
      requires Valid()
      modifies this
      ensures Valid()
      ensures likes == if w.Lost? then old(likes) else old(likes) + {(userID, eventID)}
      ensures titles == if w.Lost? then old(titles) else old(titles)[eventID := title]
      ensures users == if w.Lost? then old(users) else old(users) + {userID}
    {
      if !w.Lost? {
        users := users + {userID};
        titles := titles[eventID := title];
        likes := likes + {(userID, eventID)};
      }
    }

    /** What the query engine may answer: one record per candidate, scores not increasing. */
    ghost predicate IsAnswer(user: User, rs: seq<Record>)
      reads this
      requires Valid()
    {
      && (forall r :: r in rs ==> r.id.Str? && Score(likes, user, r.id.text) > 0 && r.id.text in titles &&
                                  r == Record(r.id, Str(titles[r.id.text]), Num(Score(likes, user, r.id.text))))
      && (forall e {:trigger Score(likes, user, e)} :: Score(likes, user, e) > 0 ==>
        exists r :: r in rs && r.id == Str(e))
      && (forall i, j :: 0 <= i < j < |rs| ==> rs[i].id != rs[j].id && rs[i].score.number >= rs[j].score.number)
    }

    /** The record loop keeps the records of the right types, in order, and skips the others. */
    method GetRecommendedEventIDs(user: User, ok: bool, records: seq<Record>) returns (r: Option<seq<Recommended>>)
      ensures r.Some? <==> ok
      ensures ok ==> r.value == ParseRecords(records)
    {
      if !ok { return None; }
      var recommendations := [];
      for i := 0 to |records|
        invariant recommendations == ParseRecords(records[..i])
      {
        assert records[..i + 1][..i] == records[..i];
        var rec := ParseRecord(records[i]);
        if rec.Some? {
          recommendations := recommendations + [rec.value];
        }
      }
      assert records[..|records|] == records;
      return Some(recommendations);
    }
  }

  /** A recommended event the user has not liked, with its own score and title. */
  ghost predicate IsScored(likes: set<Like>, titles: map<Id, Title>, user: User, rec: Recommended) {
    && rec.score == Score(likes, user, rec.id) && rec.score > 0
    && rec.id in titles && rec.title == titles[rec.id]
    && (user, rec.id) !in likes
  }

  /** The list the query yields: exactly the positively scored events, best first, none liked by the user. */
  ghost predicate IsRanking(likes: set<Like>, titles: map<Id, Title>, user: User, recs: seq<Recommended>) {
    && (forall i :: 0 <= i < |recs| ==> IsScored(likes, titles, user, recs[i]))
    && (forall e {:trigger Score(likes, user, e)} :: Score(likes, user, e) > 0 ==>
      exists i :: 0 <= i < |recs| && recs[i].id == e)
    && (forall i, j :: 0 <= i < j < |recs| ==> recs[i].id != recs[j].id && recs[i].score >= recs[j].score)
  }

  lemma {:induction false} ParseAll(rs: seq<Record>)
    requires forall r :: r in rs ==> ParseRecord(r).Some?
    ensures |ParseRecords(rs)| == |rs|
    ensures forall i :: 0 <= i < |rs| ==> ParseRecord(rs[i]) == Some(ParseRecords(rs)[i])
  {
    if rs != [] {
      ParseAll(rs[..|rs| - 1]);
      assert rs[|rs| - 1] in rs;
    }
  }

  lemma RecordIsScored(g: LikeGraph, user: User, rs: seq<Record>, i: nat)
    requires g.Valid() && g.IsAnswer(user, rs) && i < |rs|
    ensures ParseRecord(rs[i]).Some? && IsScored(g.likes, g.titles, user, ParseRecord(rs[i]).value)
    ensures rs[i].id == Str(ParseRecord(rs[i]).value.id)
    ensures rs[i].score == Num(ParseRecord(rs[i]).value.score)
  {
    assert rs[i] in rs;
    ScoreIsCommonLikes(g.likes, user, rs[i].id.text);
  }

  /** The parsed answer is the ranking by common likes. */
  lemma AnswerIsRanking(g: LikeGraph, user: User, rs: seq<Record>)
    requires g.Valid() && g.IsAnswer(user, rs)
    ensures IsRanking(g.likes, g.titles, user, ParseRecords(rs))
  {
    var recs := ParseRecords(rs);
    forall i | 0 <= i < |rs| ensures ParseRecord(rs[i]).Some? {
      RecordIsScored(g, user, rs, i);
    }
    ParseAll(rs);
    forall i | 0 <= i < |recs|
      ensures IsScored(g.likes, g.titles, user, recs[i])
      ensures rs[i].id == Str(recs[i].id) && rs[i].score == Num(recs[i].score)
    {
      RecordIsScored(g, user, rs, i);
      assert ParseRecord(rs[i]) == Some(recs[i]);
    }
    forall e | Score(g.likes, user, e) > 0 ensures exists i :: 0 <= i < |recs| && recs[i].id == e {
      var r :| r in rs && r.id == Str(e);
      var i :| 0 <= i < |rs| && rs[i] == r;
      assert recs[i].id == e;
    }
  }
}
