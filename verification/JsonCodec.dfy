/** The generated encoders and decoders of the response types, over JSON tokens and trees. */
module JsonCodec {
  import opened Text
  import opened Json
  import opened RequiredFields
  import opened JsonSchema

  type int64 = x: int | -0x8000_0000_0000_0000 <= x < 0x8000_0000_0000_0000

  type int32 = x: int | -0x8000_0000 <= x < 0x8000_0000

  /** An optional field: the value means something only when it is set. */
  datatype Opt<+T> = Opt(value: T, isSet: bool)

  datatype LocationInfo = LocationInfo(address: string, city: Opt<string>)

  datatype EventReactions = EventReactions(likes: int64, dislikes: int64)

  datatype EventReviews = EventReviews(count: int64, rating: real)

  datatype EventData = EventData(
    id: string, title: string, category: Opt<string>, price: Opt<int64>, description: Opt<string>,
    location: LocationInfo, startedAt: string, finishedAt: string, createdAt: string, createdBy: string,
    reactions: Opt<EventReactions>, reviews: Opt<EventReviews>)

  datatype GetEventsResponse = GetEventsResponse(events: seq<EventData>, count: int64)

  datatype ReviewData = ReviewData(id: string, eventId: string, comment: string, createdAt: string, createdBy: string,
                                   rating: int32, updatedAt: string)

  const NO_LOCATION := LocationInfo("", Opt("", false))
  const NO_REACTIONS := EventReactions(0, 0)
  const NO_REVIEWS := EventReviews(0, 0.0)
  const NO_EVENT := EventData("", "", Opt("", false), Opt(0, false), Opt("", false), NO_LOCATION, "", "", "", "",
                              Opt(NO_REACTIONS, false), Opt(NO_REVIEWS, false))

  // ---- Scalars --------------------------------------------------------------------------

  predicate IsInt64(j: Json) {
    j.Int? && -0x8000_0000_0000_0000 <= j.n < 0x8000_0000_0000_0000
  }

  predicate IsInt32(j: Json) {
    j.Int? && -0x8000_0000 <= j.n < 0x8000_0000
  }

  predicate IsNumber(j: Json) { j.Int? || j.Frac? }

  /** Float64 writes an integral number without a fraction. */
  function RealJson(r: real): (j: Json)
    ensures IsNumber(j) && NumberOf(j) == r
  {
    if r == r.Floor as real then Int(r.Floor) else Frac(r)
  }

  function NumberOf(j: Json): real
    requires IsNumber(j)
  {
    if j.Int? then j.n as real else j.r
  }

  function RealToken(r: real): (t: Token)
    ensures Tokens(RealJson(r)) == [t]
  {
    if r == r.Floor as real then IntTok(r.Floor) else FracTok(r)
  }

  function StrIn(ms: seq<Member>, key: string): string {
    match Get(ms, key) case Some(Str(s)) => s case _ => ""
  }

  function OptStrIn(ms: seq<Member>, key: string): Opt<string> {
    match Get(ms, key) case Some(Str(s)) => Opt(s, true) case _ => Opt("", false)
  }

  function Int64In(ms: seq<Member>, key: string): int64 {
    match Get(ms, key) case Some(j) => (if IsInt64(j) then j.n else 0) case None => 0
  }

  function Int32In(ms: seq<Member>, key: string): int32 {
    match Get(ms, key) case Some(j) => (if IsInt32(j) then j.n else 0) case None => 0
  }

  function OptInt64In(ms: seq<Member>, key: string): Opt<int64> {
    match Get(ms, key) case Some(j) => (if IsInt64(j) then Opt(j.n, true) else Opt(0, false)) case None => Opt(0, false)
  }

  function RealIn(ms: seq<Member>, key: string): real {
    match Get(ms, key) case Some(j) => (if IsNumber(j) then NumberOf(j) else 0.0) case None => 0.0
  }

  // ---- LocationInfo ---------------------------------------------------------------------

  const LOCATION := Schema(["address", "city"], [0x01])

  predicate LocationTyped(m: Member) {
    m.key == "address" || m.key == "city" ==> m.value.Str?
  }

  function LocationIn(ms: seq<Member>): LocationInfo {
    LocationInfo(StrIn(ms, "address"), OptStrIn(ms, "city"))
  }

  /** What an object means as a LocationInfo, read by key rather than by position. */
  function LocationOf(j: Json): Decoded<LocationInfo> {
    if !j.Obj? || exists m :: m in j.members && !LocationTyped(m) then Malformed
    else if AbsentNames(j.members, LOCATION) != [] then Missing(AbsentNames(j.members, LOCATION))
    else Good(LocationIn(j.members))
  }

  function LocationFields(v: LocationInfo): seq<Field> {
    [Field("address", Some(Str(v.address))),
     Field("city", if v.city.isSet then Some(Str(v.city.value)) else None)]
  }

  /** Decode works on an existing struct: what the object does not set keeps its value. */
  function LocationFrom(s0: LocationInfo, ms: seq<Member>): LocationInfo {
    LocationInfo(if Has(ms, "address") then StrIn(ms, "address") else s0.address,
                 if OptStrIn(ms, "city").isSet then OptStrIn(ms, "city") else s0.city)
  }

  /** The address is required, so only an old city can survive a second decode. */
  function LocationInto(s0: LocationInfo, j: Json): Decoded<LocationInfo> {
    match LocationOf(j)
    case Good(v) => Good(v.(city := if v.city.isSet then v.city else s0.city))
    case Malformed => Malformed
    case Missing(names) => Missing(names)
  }

  lemma LocationStep(s0: LocationInfo, ms: seq<Member>, m: Member)
    requires LocationTyped(m)
    ensures LocationFrom(s0, ms + [m]) ==
      if m.key == "address" then LocationFrom(s0, ms).(address := m.value.s)
      else if m.key == "city" then LocationFrom(s0, ms).(city := Opt(m.value.s, true))
      else LocationFrom(s0, ms)
  {
    GetSnoc(ms, m, "address");
    GetSnoc(ms, m, "city");
  }

  lemma LocationWhole(s0: LocationInfo, ms: seq<Member>)
    requires AbsentNames(ms, LOCATION) == []
    ensures LocationFrom(s0, ms) ==
      LocationIn(ms).(city := if LocationIn(ms).city.isSet then LocationIn(ms).city else s0.city)
  {
    LocationRequired();
    AbsentBelowEmpty(ms, LOCATION, 8);
    assert !Absent(ms, LOCATION, 0);
  }

  lemma LocationRequired()
    ensures |LOCATION.masks| == 1
    ensures forall k: nat :: k < 8 ==> (Required(LOCATION, k) <==> k == 0)
  {
  }

  method EncodeLocation(e: Encoder, v: LocationInfo)
    modifies e
    ensures e.toks == old(e.toks) + Tokens(Obj(Present(LocationFields(v))))
  {
    ghost var buf, fs := e.toks, LocationFields(v);
    e.Put(ObjStart);
    WriteNext(buf + [ObjStart], fs, 0);
    e.Scalar("address", StrTok(v.address), Str(v.address));
    WriteNext(buf + [ObjStart], fs, 1);
    if v.city.isSet {
      e.Scalar("city", StrTok(v.city.value), Str(v.city.value));
    }
    assert fs[..2] == fs;
    ObjectWritten(buf, fs);
    e.Put(ObjEnd);
  }

  lemma LocationStart(s0: LocationInfo)
    ensures LocationFrom(s0, []) == s0 && Agrees([0], LOCATION, [])
  {
    LocationRequired();
    AgreesStart(LOCATION);
    assert seq(1, i => 0 as bv8) == [0];
  }

  method DecodeLocation(j: Json, s0: LocationInfo) returns (r: Decoded<LocationInfo>)
    ensures r == LocationInto(s0, j)
  {
    LocationRequired();
    hide LocationFrom, LocationIn, Agrees, Mark, Required;
    if !j.Obj? { return Malformed; }
    var s, seen, ms := s0, [0 as bv8], j.members;
    LocationStart(s0);
    for i := 0 to |ms|
      invariant |seen| == 1
      invariant forall k :: 0 <= k < i ==> LocationTyped(ms[k])
      invariant s == LocationFrom(s0, ms[..i]) && Agrees(seen, LOCATION, ms[..i])
    {
      var m := ms[i];
      NextMember(ms, i);
      if LocationTyped(m) { LocationStep(s0, ms[..i], m); }
      if m.key == "address" {
        AgreesMark(seen, LOCATION, ms[..i], m, 0);
        seen := Mark(seen, 0);
        if !m.value.Str? { assert m in j.members; return Malformed; }
        s := s.(address := m.value.s);
      } else {
        AgreesSkip(seen, LOCATION, ms[..i], m);
        if m.key == "city" {
          if !m.value.Str? { assert m in j.members; return Malformed; }
          s := s.(city := Opt(m.value.s, true));
        }
      }
    }
    assert ms[..|ms|] == ms;
    var failures := CheckRequired(seen, LOCATION.masks, LOCATION.names);
    AgreesMissing(seen, LOCATION, ms, 8);
    if failures == [] { LocationWhole(s0, ms); }
    r := if failures != [] then Missing(failures) else Good(s);
  }

  // ---- EventReactions ---------------------------------------------------------------------

  const REACTIONS := Schema(["likes", "dislikes"], [0x03])

  predicate EventReactionsTyped(m: Member) {
    && (m.key == "likes" ==> IsInt64(m.value))
    && (m.key == "dislikes" ==> IsInt64(m.value))
  }

  function EventReactionsIn(ms: seq<Member>): EventReactions {
    EventReactions(Int64In(ms, "likes"), Int64In(ms, "dislikes"))
  }

  function EventReactionsOf(j: Json): Decoded<EventReactions> {
    if !j.Obj? || exists m :: m in j.members && !EventReactionsTyped(m) then Malformed
    else if AbsentNames(j.members, REACTIONS) != [] then Missing(AbsentNames(j.members, REACTIONS))
    else Good(EventReactionsIn(j.members))
  }

  function EventReactionsFields(v: EventReactions): seq<Field> {
    [Field("likes", Some(Int(v.likes))), Field("dislikes", Some(Int(v.dislikes)))]
  }

  function EventReactionsFrom(s0: EventReactions, ms: seq<Member>): EventReactions {
    EventReactions(if Has(ms, "likes") then Int64In(ms, "likes") else s0.likes,
                   if Has(ms, "dislikes") then Int64In(ms, "dislikes") else s0.dislikes)
  }

  lemma EventReactionsStep(s0: EventReactions, ms: seq<Member>, m: Member)
    requires EventReactionsTyped(m)
    ensures EventReactionsFrom(s0, ms + [m]) ==
      if m.key == "likes" then EventReactionsFrom(s0, ms).(likes := m.value.n)
      else if m.key == "dislikes" then EventReactionsFrom(s0, ms).(dislikes := m.value.n)
      else EventReactionsFrom(s0, ms)
  {
    GetSnoc(ms, m, "likes");
    GetSnoc(ms, m, "dislikes");
  }

  /** Both counts are required, so nothing of an old value survives. */
  lemma EventReactionsWhole(s0: EventReactions, ms: seq<Member>)
    requires AbsentNames(ms, REACTIONS) == []
    ensures EventReactionsFrom(s0, ms) == EventReactionsIn(ms)
  {
    EventReactionsRequired();
    AbsentBelowEmpty(ms, REACTIONS, 8);
    assert !Absent(ms, REACTIONS, 0) && !Absent(ms, REACTIONS, 1);
  }

  lemma EventReactionsRequired()
    ensures |REACTIONS.masks| == 1
    ensures forall k: nat :: k < 8 ==> (Required(REACTIONS, k) <==> k < 2)
  {
  }

  method EncodeEventReactions(e: Encoder, v: EventReactions)
    modifies e
    ensures e.toks == old(e.toks) + Tokens(Obj(Present(EventReactionsFields(v))))
  {
    ghost var buf, fs := e.toks, EventReactionsFields(v);
    e.Put(ObjStart);
    WriteNext(buf + [ObjStart], fs, 0);
    e.Scalar("likes", IntTok(v.likes), Int(v.likes));
    WriteNext(buf + [ObjStart], fs, 1);
    e.Scalar("dislikes", IntTok(v.dislikes), Int(v.dislikes));
    assert fs[..2] == fs;
    ObjectWritten(buf, fs);
    e.Put(ObjEnd);
  }

  lemma EventReactionsStart(s0: EventReactions)
    ensures EventReactionsFrom(s0, []) == s0 && Agrees([0], REACTIONS, [])
  {
    EventReactionsRequired();
    AgreesStart(REACTIONS);
    assert seq(1, i => 0 as bv8) == [0];
  }

  method DecodeEventReactions(j: Json, s0: EventReactions) returns (r: Decoded<EventReactions>)
    ensures r == EventReactionsOf(j)
  {
    EventReactionsRequired();
    hide EventReactionsFrom, EventReactionsIn, Agrees, Mark, Required;
    if !j.Obj? { return Malformed; }
    var s, seen, ms := s0, [0 as bv8], j.members;
    EventReactionsStart(s0);
    for i := 0 to |ms|
      invariant |seen| == 1
      invariant forall k :: 0 <= k < i ==> EventReactionsTyped(ms[k])
      invariant s == EventReactionsFrom(s0, ms[..i]) && Agrees(seen, REACTIONS, ms[..i])
    {
      var m := ms[i];
      NextMember(ms, i);
      if EventReactionsTyped(m) { EventReactionsStep(s0, ms[..i], m); }
      if m.key == "likes" {
        AgreesMark(seen, REACTIONS, ms[..i], m, 0);
        seen := Mark(seen, 0);
        if !IsInt64(m.value) { assert m in j.members; return Malformed; }
        s := s.(likes := m.value.n);
      } else if m.key == "dislikes" {
        AgreesMark(seen, REACTIONS, ms[..i], m, 1);
        seen := Mark(seen, 1);
        if !IsInt64(m.value) { assert m in j.members; return Malformed; }
        s := s.(dislikes := m.value.n);
      } else {
        AgreesSkip(seen, REACTIONS, ms[..i], m);
      }
    }
    assert ms[..|ms|] == ms;
    var failures := CheckRequired(seen, REACTIONS.masks, REACTIONS.names);
    AgreesMissing(seen, REACTIONS, ms, 8);
    if failures == [] { EventReactionsWhole(s0, ms); }
    r := if failures != [] then Missing(failures) else Good(s);
  }

  // ---- EventReviews ---------------------------------------------------------------------

  const REVIEWS := Schema(["count", "rating"], [0x03])

  predicate EventReviewsTyped(m: Member) {
    && (m.key == "count" ==> IsInt64(m.value))
    && (m.key == "rating" ==> IsNumber(m.value))
  }

  function EventReviewsIn(ms: seq<Member>): EventReviews {
    EventReviews(Int64In(ms, "count"), RealIn(ms, "rating"))
  }

  function EventReviewsOf(j: Json): Decoded<EventReviews> {
    if !j.Obj? || exists m :: m in j.members && !EventReviewsTyped(m) then Malformed
    else if AbsentNames(j.members, REVIEWS) != [] then Missing(AbsentNames(j.members, REVIEWS))
    else Good(EventReviewsIn(j.members))
  }

  function EventReviewsFields(v: EventReviews): seq<Field> {
    [Field("count", Some(Int(v.count))), Field("rating", Some(RealJson(v.rating)))]
  }

  function EventReviewsFrom(s0: EventReviews, ms: seq<Member>): EventReviews {
    EventReviews(if Has(ms, "count") then Int64In(ms, "count") else s0.count,
                 if Has(ms, "rating") then RealIn(ms, "rating") else s0.rating)
  }

  lemma EventReviewsStep(s0: EventReviews, ms: seq<Member>, m: Member)
    requires EventReviewsTyped(m)
    ensures EventReviewsFrom(s0, ms + [m]) ==
      if m.key == "count" then EventReviewsFrom(s0, ms).(count := m.value.n)
      else if m.key == "rating" then EventReviewsFrom(s0, ms).(rating := NumberOf(m.value))
      else EventReviewsFrom(s0, ms)
  {
    GetSnoc(ms, m, "count");
    GetSnoc(ms, m, "rating");
  }

  lemma EventReviewsWhole(s0: EventReviews, ms: seq<Member>)
    requires AbsentNames(ms, REVIEWS) == []
    ensures EventReviewsFrom(s0, ms) == EventReviewsIn(ms)
  {
    EventReviewsRequired();
    AbsentBelowEmpty(ms, REVIEWS, 8);
    assert !Absent(ms, REVIEWS, 0) && !Absent(ms, REVIEWS, 1);
  }

  lemma EventReviewsRequired()
    ensures |REVIEWS.masks| == 1
    ensures forall k: nat :: k < 8 ==> (Required(REVIEWS, k) <==> k < 2)
  {
  }

  method EncodeEventReviews(e: Encoder, v: EventReviews)
    modifies e
    ensures e.toks == old(e.toks) + Tokens(Obj(Present(EventReviewsFields(v))))
  {
    ghost var buf, fs := e.toks, EventReviewsFields(v);
    e.Put(ObjStart);
    WriteNext(buf + [ObjStart], fs, 0);
    e.Scalar("count", IntTok(v.count), Int(v.count));
    WriteNext(buf + [ObjStart], fs, 1);
    e.Scalar("rating", RealToken(v.rating), RealJson(v.rating));
    assert fs[..2] == fs;
    ObjectWritten(buf, fs);
    e.Put(ObjEnd);
  }

  lemma EventReviewsStart(s0: EventReviews)
    ensures EventReviewsFrom(s0, []) == s0 && Agrees([0], REVIEWS, [])
  {
    EventReviewsRequired();
    AgreesStart(REVIEWS);
    assert seq(1, i => 0 as bv8) == [0];
  }

  method DecodeEventReviews(j: Json, s0: EventReviews) returns (r: Decoded<EventReviews>)
    ensures r == EventReviewsOf(j)
  {
    EventReviewsRequired();
    hide EventReviewsFrom, EventReviewsIn, Agrees, Mark, Required;
    if !j.Obj? { return Malformed; }
    var s, seen, ms := s0, [0 as bv8], j.members;
    EventReviewsStart(s0);
    for i := 0 to |ms|
      invariant |seen| == 1
      invariant forall k :: 0 <= k < i ==> EventReviewsTyped(ms[k])
      invariant s == EventReviewsFrom(s0, ms[..i]) && Agrees(seen, REVIEWS, ms[..i])
    {
      var m := ms[i];
      NextMember(ms, i);
      if EventReviewsTyped(m) { EventReviewsStep(s0, ms[..i], m); }
      if m.key == "count" {
        AgreesMark(seen, REVIEWS, ms[..i], m, 0);
        seen := Mark(seen, 0);
        if !IsInt64(m.value) { assert m in j.members; return Malformed; }
        s := s.(count := m.value.n);
      } else if m.key == "rating" {
        AgreesMark(seen, REVIEWS, ms[..i], m, 1);
        seen := Mark(seen, 1);
        if !IsNumber(m.value) { assert m in j.members; return Malformed; }
        s := s.(rating := NumberOf(m.value));
      } else {
        AgreesSkip(seen, REVIEWS, ms[..i], m);
      }
    }
    assert ms[..|ms|] == ms;
    var failures := CheckRequired(seen, REVIEWS.masks, REVIEWS.names);
    AgreesMissing(seen, REVIEWS, ms, 8);
    if failures == [] { EventReviewsWhole(s0, ms); }
    r := if failures != [] then Missing(failures) else Good(s);
  }

  // ---- EventData ------------------------------------------------------------------------

  const EVENT := Schema(
    ["id", "title", "category", "price", "description", "location", "started_at", "finished_at", "created_at",
      "created_by", "reactions", "reviews"],
    [0xE3, 0x03])

  /**
   * The location an object decodes to. The field is not reset between two occurrences of its key, so
   * a later one without a city keeps the earlier city.
   */
  function LocationAt(ms: seq<Member>): LocationInfo {
    if ms == [] then NO_LOCATION
    else
      var before, last := LocationAt(ms[..|ms| - 1]), ms[|ms| - 1];
      if last.key != "location" then before
      else match LocationInto(before, last.value) case Good(v) => v case _ => NO_LOCATION
  }

  function ReactionsAt(ms: seq<Member>, key: string): Opt<EventReactions> {
    match Get(ms, key)
    case None => Opt(NO_REACTIONS, false)
    case Some(j) => (match EventReactionsOf(j) case Good(v) => Opt(v, true) case _ => Opt(NO_REACTIONS, false))
  }

  function ReviewsAt(ms: seq<Member>, key: string): Opt<EventReviews> {
    match Get(ms, key)
    case None => Opt(NO_REVIEWS, false)
    case Some(j) => (match EventReviewsOf(j) case Good(v) => Opt(v, true) case _ => Opt(NO_REVIEWS, false))
  }

  predicate EventTyped(m: Member) {
    && (m.key in ["id", "title", "category", "description", "started_at", "finished_at", "created_at", "created_by"] ==>
      m.value.Str?)
    && (m.key == "price" ==> IsInt64(m.value))
    && (m.key == "location" ==> LocationOf(m.value).Good?)
    && (m.key == "reactions" ==> EventReactionsOf(m.value).Good?)
    && (m.key == "reviews" ==> EventReviewsOf(m.value).Good?)
  }

  function EventIn(ms: seq<Member>): EventData {
    EventData(StrIn(ms, "id"), StrIn(ms, "title"), OptStrIn(ms, "category"),
              OptInt64In(ms, "price"), OptStrIn(ms, "description"), LocationAt(ms),
              StrIn(ms, "started_at"), StrIn(ms, "finished_at"), StrIn(ms, "created_at"),
              StrIn(ms, "created_by"), ReactionsAt(ms, "reactions"), ReviewsAt(ms, "reviews"))
  }

  function EventOf(j: Json): Decoded<EventData> {
    if !j.Obj? || exists m :: m in j.members && !EventTyped(m) then Malformed
    else if AbsentNames(j.members, EVENT) != [] then Missing(AbsentNames(j.members, EVENT))
    else Good(EventIn(j.members))
  }

  function EventFields(v: EventData): seq<Field> {
    [Field("id", Some(Str(v.id))),
     Field("title", Some(Str(v.title))),
     Field("category", if v.category.isSet then Some(Str(v.category.value)) else None),
     Field("price", if v.price.isSet then Some(Int(v.price.value)) else None),
     Field("description", if v.description.isSet then Some(Str(v.description.value)) else None),
     Field("location", Some(Obj(Present(LocationFields(v.location))))),
     Field("started_at", Some(Str(v.startedAt))),
     Field("finished_at", Some(Str(v.finishedAt))),
     Field("created_at", Some(Str(v.createdAt))),
     Field("created_by", Some(Str(v.createdBy))),
     Field("reactions", if v.reactions.isSet then Some(Obj(Present(EventReactionsFields(v.reactions.value))))
       else None),
     Field("reviews", if v.reviews.isSet then Some(Obj(Present(EventReviewsFields(v.reviews.value)))) else None)]
  }

  function EventJson(v: EventData): Json { Obj(Present(EventFields(v))) }

  /** What one member does to the struct. */
  function PutEvent(s: EventData, m: Member): EventData {
    if m.key == "id" then s.(id := if m.value.Str? then m.value.s else "")
    else if m.key == "title" then s.(title := if m.value.Str? then m.value.s else "")
    else if m.key == "category" then s.(category := if m.value.Str? then Opt(m.value.s, true) else Opt("", false))
    else if m.key == "price" then s.(price := if IsInt64(m.value) then Opt(m.value.n, true) else Opt(0, false))
    else if m.key == "description" then s.(description := if m.value.Str? then Opt(m.value.s, true) else Opt("", false))
    else if m.key == "location" then s.(location := if LocationInto(s.location, m.value).Good?
      then LocationInto(s.location, m.value).value else NO_LOCATION)
    else if m.key == "started_at" then s.(startedAt := if m.value.Str? then m.value.s else "")
    else if m.key == "finished_at" then s.(finishedAt := if m.value.Str? then m.value.s else "")
    else if m.key == "created_at" then s.(createdAt := if m.value.Str? then m.value.s else "")
    else if m.key == "created_by" then s.(createdBy := if m.value.Str? then m.value.s else "")
    else if m.key == "reactions" then
        s.(reactions := if EventReactionsOf(m.value).Good? then Opt(EventReactionsOf(m.value).value, true)
          else Opt(NO_REACTIONS, false))
    else if m.key == "reviews" then
        s.(reviews := if EventReviewsOf(m.value).Good? then Opt(EventReviewsOf(m.value).value, true)
          else Opt(NO_REVIEWS, false))
    else s
  }

  lemma LocationSnoc(ms: seq<Member>, m: Member)
    ensures LocationAt(ms + [m]) ==
      if m.key != "location" then LocationAt(ms)
      else match LocationInto(LocationAt(ms), m.value) case Good(v) => v case _ => NO_LOCATION
  {
    assert (ms + [m])[..|ms + [m]| - 1] == ms;
  }

  lemma {:induction false} NoLocation(ms: seq<Member>)
    requires forall i :: 0 <= i < |ms| ==> ms[i].key != "location"
    ensures LocationAt(ms) == NO_LOCATION && Get(ms, "location") == None
    decreases |ms|
  {
    if ms != [] {
      NoLocation(ms[..|ms| - 1]);
    }
  }

  /** A location that occurs once is the location of its value. */
  lemma {:induction false} LocationOnce(ms: seq<Member>)
    requires UniqueKeys(ms)
    ensures LocationAt(ms) ==
      match Get(ms, "location")
      case None => NO_LOCATION
      case Some(j) => (match LocationOf(j) case Good(v) => v case _ => NO_LOCATION)
    decreases |ms|
  {
    if ms != [] {
      var init, last := ms[..|ms| - 1], ms[|ms| - 1];
      if last.key == "location" {
        NoLocation(init);
      } else {
        LocationOnce(init);
      }
    }
  }

  /** The value of the last location in the object. */
  ghost predicate LastLocation(ms: seq<Member>, v: LocationInfo) {
    Has(ms, "location") && LocationOf(Get(ms, "location").value) == Good(v)
  }

  ghost predicate SomeCity(ms: seq<Member>) {
    exists m :: m in ms && m.key == "location" && LocationOf(m.value).Good? && LocationOf(m.value).value.city.isSet
  }

  lemma {:induction false} CityKept(ms: seq<Member>)
    requires forall m :: m in ms && m.key == "location" ==> LocationOf(m.value).Good?
    ensures LocationAt(ms).city.isSet <==> SomeCity(ms)
    ensures forall v :: LastLocation(ms, v) ==>
      LocationAt(ms) == v.(city := if v.city.isSet then v.city else LocationAt(ms).city)
    decreases |ms|
  {
    hide LocationOf;
    if ms != [] {
      var init, last := ms[..|ms| - 1], ms[|ms| - 1];
      Snoc(ms);
      CityKept(init);
      assert SomeCity(init) ==> SomeCity(ms);
      if last.key == "location" && LocationOf(last.value).value.city.isSet { assert last in ms; }
    }
  }

  /** Repeating the location gives the last one, if and only if that one has a city or none of them has. */
  lemma RepeatedLocation(ms: seq<Member>, v: LocationInfo)
    requires forall m :: m in ms && m.key == "location" ==> LocationOf(m.value).Good?
    requires LastLocation(ms, v)
    ensures LocationAt(ms) == v <==> v.city.isSet || !SomeCity(ms)
  {
    CityKept(ms);
    UnsetCity(Get(ms, "location").value);
    hide LocationOf, SomeCity;
    UnsetCityAt(ms);
  }

  lemma UnsetCity(j: Json)
    ensures LocationOf(j).Good? && !LocationOf(j).value.city.isSet ==> LocationOf(j).value.city == Opt("", false)
  {
  }

  lemma {:induction false} UnsetCityAt(ms: seq<Member>)
    ensures !LocationAt(ms).city.isSet ==> LocationAt(ms).city == Opt("", false)
    decreases |ms|
  {
    hide LocationOf;
    if ms != [] {
      UnsetCityAt(ms[..|ms| - 1]);
      UnsetCity(ms[|ms| - 1].value);
    }
  }

  lemma EventStep(ms: seq<Member>, m: Member)
    ensures EventIn(ms + [m]) == PutEvent(EventIn(ms), m)
  {
    hide LocationAt, LocationInto, LocationOf, EventReactionsOf, EventReviewsOf;
    GetSnoc(ms, m, "id");
    GetSnoc(ms, m, "title");
    GetSnoc(ms, m, "category");
    GetSnoc(ms, m, "price");
    GetSnoc(ms, m, "description");
    LocationSnoc(ms, m);
    GetSnoc(ms, m, "started_at");
    GetSnoc(ms, m, "finished_at");
    GetSnoc(ms, m, "created_at");
    GetSnoc(ms, m, "created_by");
    GetSnoc(ms, m, "reactions");
    GetSnoc(ms, m, "reviews");
  }

  lemma WrittenNone(buf: seq<Token>)
    ensures Written(buf, []) == buf
  {
  }

  lemma EventRequired()
    ensures |EVENT.masks| == 2
    ensures forall k: nat :: k < 16 ==> (Required(EVENT, k) <==> k == 0 || k == 1 || (5 <= k <= 9))
  {
  }

  lemma FieldSome(buf: seq<Token>, key: string, j: Json)
    ensures buf + [Key(key)] + Tokens(j) == buf + FieldTokens(Field(key, Some(j)))
  {
  }

  lemma FieldNone(buf: seq<Token>, key: string)
    ensures buf == buf + FieldTokens(Field(key, None))
  {
  }

  method EncodeEvent(e: Encoder, v: EventData)
    modifies e
    ensures e.toks == old(e.toks) + Tokens(EventJson(v))
  {
    ghost var start, fs := e.toks + [ObjStart], EventFields(v);
    ghost var buf := e.toks;
    ObjectWritten(buf, fs);
    hide FieldTokens, Written, Present, LocationFields, EventReactionsFields, EventReviewsFields, Tokens;
    e.Put(ObjStart);
    WrittenNone(start);
    assert fs[..0] == [];
    EncodeEventHead(e, v, start);
    EncodeEventTail(e, v, start);
    assert fs[..12] == fs;
    e.Put(ObjEnd);
  }

  method EncodeEventHead(e: Encoder, v: EventData, ghost start: seq<Token>)
    requires e.toks == Written(start, EventFields(v)[..0])
    modifies e
    ensures e.toks == Written(start, EventFields(v)[..6])
  {
    hide FieldTokens, Written, Present, LocationFields, EventReactionsFields, EventReviewsFields;
    ghost var fs := EventFields(v);
    WriteNext(start, fs, 0);
    e.Scalar("id", StrTok(v.id), Str(v.id));
    WriteNext(start, fs, 1);
    e.Scalar("title", StrTok(v.title), Str(v.title));
    WriteNext(start, fs, 2);
    FieldNone(e.toks, "category");
    if v.category.isSet {
      e.Scalar("category", StrTok(v.category.value), Str(v.category.value));
    }
    WriteNext(start, fs, 3);
    FieldNone(e.toks, "price");
    if v.price.isSet {
      e.Scalar("price", IntTok(v.price.value), Int(v.price.value));
    }
    WriteNext(start, fs, 4);
    FieldNone(e.toks, "description");
    if v.description.isSet {
      e.Scalar("description", StrTok(v.description.value), Str(v.description.value));
    }
    WriteNext(start, fs, 5);
    FieldSome(e.toks, "location", Obj(Present(LocationFields(v.location))));
    e.Put(Key("location"));
    EncodeLocation(e, v.location);
  }

  method EncodeEventTail(e: Encoder, v: EventData, ghost start: seq<Token>)
    requires e.toks == Written(start, EventFields(v)[..6])
    modifies e
    ensures e.toks == Written(start, EventFields(v)[..12])
  {
    hide FieldTokens, Written, Present, LocationFields, EventReactionsFields, EventReviewsFields;
    ghost var fs := EventFields(v);
    WriteNext(start, fs, 6);
    e.Scalar("started_at", StrTok(v.startedAt), Str(v.startedAt));
    WriteNext(start, fs, 7);
    e.Scalar("finished_at", StrTok(v.finishedAt), Str(v.finishedAt));
    WriteNext(start, fs, 8);
    e.Scalar("created_at", StrTok(v.createdAt), Str(v.createdAt));
    WriteNext(start, fs, 9);
    e.Scalar("created_by", StrTok(v.createdBy), Str(v.createdBy));
    WriteNext(start, fs, 10);
    FieldNone(e.toks, "reactions");
    if v.reactions.isSet {
      FieldSome(e.toks, "reactions", Obj(Present(EventReactionsFields(v.reactions.value))));
      e.Put(Key("reactions"));
      EncodeEventReactions(e, v.reactions.value);
    }
    WriteNext(start, fs, 11);
    FieldNone(e.toks, "reviews");
    if v.reviews.isSet {
      FieldSome(e.toks, "reviews", Obj(Present(EventReviewsFields(v.reviews.value))));
      e.Put(Key("reviews"));
      EncodeEventReviews(e, v.reviews.value);
    }
  }

  /** The decoder's state after a prefix of the members. */
  ghost predicate EventSoFar(s: EventData, seen: seq<bv8>, ms: seq<Member>) {
    s == EventIn(ms) && Agrees(seen, EVENT, ms)
  }

  lemma EventStart()
    ensures EventSoFar(NO_EVENT, [0, 0], [])
  {
    EventRequired();
    AgreesStart(EVENT);
    assert seq(2, i => 0 as bv8) == [0, 0];
  }

  lemma EventMark(s: EventData, seen: seq<bv8>, ms: seq<Member>, m: Member, k: nat)
    requires EventSoFar(s, seen, ms) && |seen| == 2 && k < 12 && Required(EVENT, k) && EVENT.names[k] == m.key
    ensures EventSoFar(PutEvent(s, m), Mark(seen, k), ms + [m])
  {
    EventStep(ms, m);
    EventRequired();
    hide EventIn, PutEvent, Agrees, Mark;
    AgreesMark(seen, EVENT, ms, m, k);
  }

  lemma EventSkip(s: EventData, seen: seq<bv8>, ms: seq<Member>, m: Member)
    requires EventSoFar(s, seen, ms) && |seen| == 2
    requires m.key !in ["id", "title", "location", "started_at", "finished_at", "created_at", "created_by"]
    ensures EventSoFar(PutEvent(s, m), seen, ms + [m])
  {
    EventStep(ms, m);
    EventRequired();
    hide EventIn, PutEvent, Agrees;
    assert forall j: nat :: j < 16 && Required(EVENT, j) ==>
      EVENT.names[j] in ["id", "title", "location", "started_at", "finished_at", "created_at", "created_by"];
    AgreesSkip(seen, EVENT, ms, m);
  }

  lemma EventMissing(s: EventData, seen: seq<bv8>, ms: seq<Member>)
    requires EventSoFar(s, seen, ms) && |seen| == 2
    ensures s == EventIn(ms)
    ensures NamesOf(EVENT.names, MissingBelow(seen, EVENT.masks, 16)) == AbsentNames(ms, EVENT)
  {
    AgreesMissing(seen, EVENT, ms, 16);
  }

  /** What one well-typed member does, key by key. */
  lemma PutEventByKey(s: EventData, m: Member)
    ensures m.key == "id" ==>
      (EventTyped(m) <==> m.value.Str?) && (EventTyped(m) ==> PutEvent(s, m) == s.(id := m.value.s))
    ensures m.key == "title" ==>
      (EventTyped(m) <==> m.value.Str?) && (EventTyped(m) ==> PutEvent(s, m) == s.(title := m.value.s))
    ensures m.key == "category" ==>
      (EventTyped(m) <==> m.value.Str?) && (EventTyped(m) ==> PutEvent(s, m) == s.(category := Opt(m.value.s, true)))
    ensures m.key == "price" ==>
      (EventTyped(m) <==> IsInt64(m.value)) && (EventTyped(m) ==> PutEvent(s, m) == s.(price := Opt(m.value.n, true)))
    ensures m.key == "description" ==>
      (EventTyped(m) <==> m.value.Str?) && (EventTyped(m) ==> PutEvent(s, m) == s.(description := Opt(m.value.s, true)))
    ensures m.key == "location" ==>
      && (EventTyped(m) <==> LocationInto(s.location, m.value).Good?)
      && (EventTyped(m) ==> PutEvent(s, m) == s.(location := LocationInto(s.location, m.value).value))
    ensures m.key == "started_at" ==>
      (EventTyped(m) <==> m.value.Str?) && (EventTyped(m) ==> PutEvent(s, m) == s.(startedAt := m.value.s))
    ensures m.key == "finished_at" ==>
      (EventTyped(m) <==> m.value.Str?) && (EventTyped(m) ==> PutEvent(s, m) == s.(finishedAt := m.value.s))
    ensures m.key == "created_at" ==>
      (EventTyped(m) <==> m.value.Str?) && (EventTyped(m) ==> PutEvent(s, m) == s.(createdAt := m.value.s))
    ensures m.key == "created_by" ==>
      (EventTyped(m) <==> m.value.Str?) && (EventTyped(m) ==> PutEvent(s, m) == s.(createdBy := m.value.s))
    ensures m.key == "reactions" ==>
      && (EventTyped(m) <==> EventReactionsOf(m.value).Good?)
      && (EventTyped(m) ==> PutEvent(s, m) == s.(reactions := Opt(EventReactionsOf(m.value).value, true)))
    ensures m.key == "reviews" ==>
      && (EventTyped(m) <==> EventReviewsOf(m.value).Good?)
      && (EventTyped(m) ==> PutEvent(s, m) == s.(reviews := Opt(EventReviewsOf(m.value).value, true)))
    ensures m.key !in EVENT.names ==> EventTyped(m) && PutEvent(s, m) == s
  {
    hide LocationOf, EventReactionsOf, EventReviewsOf;
  }

  /** Bits and fields after one more member, key by key. */
  lemma EventNext(s: EventData, seen: seq<bv8>, ms: seq<Member>, m: Member)
    requires EventSoFar(s, seen, ms) && |seen| == 2
    ensures m.key == "id" ==> EventSoFar(PutEvent(s, m), Mark(seen, 0), ms + [m])
    ensures m.key == "title" ==> EventSoFar(PutEvent(s, m), Mark(seen, 1), ms + [m])
    ensures m.key == "location" ==> EventSoFar(PutEvent(s, m), Mark(seen, 5), ms + [m])
    ensures m.key == "started_at" ==> EventSoFar(PutEvent(s, m), Mark(seen, 6), ms + [m])
    ensures m.key == "finished_at" ==> EventSoFar(PutEvent(s, m), Mark(seen, 7), ms + [m])
    ensures m.key == "created_at" ==> EventSoFar(PutEvent(s, m), Mark(seen, 8), ms + [m])
    ensures m.key == "created_by" ==> EventSoFar(PutEvent(s, m), Mark(seen, 9), ms + [m])
    ensures m.key !in ["id", "title", "location", "started_at", "finished_at", "created_at", "created_by"] ==>
      EventSoFar(PutEvent(s, m), seen, ms + [m])
  {
    hide EventSoFar, PutEvent, Mark;
    EventRequired();
    if m.key == "id" { EventMark(s, seen, ms, m, 0); }
    else if m.key == "title" { EventMark(s, seen, ms, m, 1); }
    else if m.key == "location" { EventMark(s, seen, ms, m, 5); }
    else if m.key == "started_at" { EventMark(s, seen, ms, m, 6); }
    else if m.key == "finished_at" { EventMark(s, seen, ms, m, 7); }
    else if m.key == "created_at" { EventMark(s, seen, ms, m, 8); }
    else if m.key == "created_by" { EventMark(s, seen, ms, m, 9); }
    else { EventSkip(s, seen, ms, m); }
  }

  /** The callback for one member. */
  method DecodeEventField(s0: EventData, seen0: seq<bv8>, m: Member, ghost ms: seq<Member>)
    returns (ok: bool, s: EventData, seen: seq<bv8>)
    requires |seen0| == 2
    ensures |seen| == 2
    requires EventSoFar(s0, seen0, ms)
    ensures ok <==> EventTyped(m)
    ensures ok ==> EventSoFar(s, seen, ms + [m])
  {
    PutEventByKey(s0, m);
    hide LocationInto, LocationOf, EventReactionsOf, EventReviewsOf, EventSoFar, Mark, PutEvent, EventTyped;
    ok, s, seen := true, s0, seen0;
    EventNext(s0, seen0, ms, m);
    if m.key == "id" {
      seen := Mark(seen, 0);
      ok := m.value.Str?;
      if ok { s := s.(id := m.value.s); }
    } else if m.key == "title" {
      seen := Mark(seen, 1);
      ok := m.value.Str?;
      if ok { s := s.(title := m.value.s); }
    } else if m.key == "category" {
      ok := m.value.Str?;
      if ok { s := s.(category := Opt(m.value.s, true)); }
    } else if m.key == "price" {
      ok := IsInt64(m.value);
      if ok { s := s.(price := Opt(m.value.n, true)); }
    } else if m.key == "description" {
      ok := m.value.Str?;
      if ok { s := s.(description := Opt(m.value.s, true)); }
    } else if m.key == "location" {
      seen := Mark(seen, 5);
      var d := DecodeLocation(m.value, s.location);
      ok := d.Good?;
      if ok { s := s.(location := d.value); }
    } else if m.key == "started_at" {
      seen := Mark(seen, 6);
      ok := m.value.Str?;
      if ok { s := s.(startedAt := m.value.s); }
    } else if m.key == "finished_at" {
      seen := Mark(seen, 7);
      ok := m.value.Str?;
      if ok { s := s.(finishedAt := m.value.s); }
    } else if m.key == "created_at" {
      seen := Mark(seen, 8);
      ok := m.value.Str?;
      if ok { s := s.(createdAt := m.value.s); }
    } else if m.key == "created_by" {
      seen := Mark(seen, 9);
      ok := m.value.Str?;
      if ok { s := s.(createdBy := m.value.s); }
    } else if m.key == "reactions" {
      var d := DecodeEventReactions(m.value, NO_REACTIONS);
      ok := d.Good?;
      if ok { s := s.(reactions := Opt(d.value, true)); }
    } else if m.key == "reviews" {
      var d := DecodeEventReviews(m.value, NO_REVIEWS);
      ok := d.Good?;
      if ok { s := s.(reviews := Opt(d.value, true)); }
    }
  }

  method DecodeEvent(j: Json) returns (r: Decoded<EventData>)
    ensures r == EventOf(j)
  {
    hide EventTyped, EventIn, AbsentNames, EventSoFar;
    if !j.Obj? { return Malformed; }
    var s, seen, ms := NO_EVENT, [0 as bv8, 0], j.members;
    EventStart();
    for i := 0 to |ms|
      invariant |seen| == 2
      invariant forall k :: 0 <= k < i ==> EventTyped(ms[k])
      invariant EventSoFar(s, seen, ms[..i])
    {
      var m := ms[i];
      assert m in ms;
      NextMember(ms, i);
      var ok;
      ok, s, seen := DecodeEventField(s, seen, m, ms[..i]);
      if !ok { return Malformed; }
    }
    assert ms[..|ms|] == ms;
    var failures := CheckRequired(seen, EVENT.masks, EVENT.names);
    EventMissing(s, seen, ms);
    r := if failures != [] then Missing(failures) else Good(s);
  }

  // ---- GetEventsResponse ----------------------------------------------------------------

  const RESPONSE := Schema(["events", "count"], [0x03])

  predicate EventsTyped(j: Json) {
    j.Arr? && forall x :: x in j.items ==> EventOf(x).Good?
  }

  function EventsOf(js: seq<Json>): (es: seq<EventData>)
    requires forall x :: x in js ==> EventOf(x).Good?
  {
    seq(|js|, i requires 0 <= i < |js| => EventOf(js[i]).value)
  }

  predicate ResponseTyped(m: Member) {
    && (m.key == "events" ==> EventsTyped(m.value))
    && (m.key == "count" ==> IsInt64(m.value))
  }

  function EventsIn(ms: seq<Member>): seq<EventData> {
    match Get(ms, "events") case Some(j) => (if EventsTyped(j) then EventsOf(j.items) else []) case None => []
  }

  function ResponseIn(ms: seq<Member>): GetEventsResponse {
    GetEventsResponse(EventsIn(ms), Int64In(ms, "count"))
  }

  function ResponseOf(j: Json): Decoded<GetEventsResponse> {
    if !j.Obj? || exists m :: m in j.members && !ResponseTyped(m) then Malformed
    else if AbsentNames(j.members, RESPONSE) != [] then Missing(AbsentNames(j.members, RESPONSE))
    else Good(ResponseIn(j.members))
  }

  function EventJsons(es: seq<EventData>): seq<Json> {
    seq(|es|, i requires 0 <= i < |es| => EventJson(es[i]))
  }

  function ResponseFields(v: GetEventsResponse): seq<Field> {
    [Field("events", Some(Arr(EventJsons(v.events)))), Field("count", Some(Int(v.count)))]
  }

  lemma ResponseStep(ms: seq<Member>, m: Member)
    ensures ResponseIn(ms + [m]) ==
      if m.key == "events" then ResponseIn(ms).(events := if EventsTyped(m.value) then EventsOf(m.value.items) else [])
      else if m.key == "count" then ResponseIn(ms).(count := if IsInt64(m.value) then m.value.n else 0)
      else ResponseIn(ms)
  {
    hide EventOf;
    GetSnoc(ms, m, "events");
    GetSnoc(ms, m, "count");
  }

  lemma ResponseRequired()
    ensures |RESPONSE.masks| == 1
    ensures forall k: nat :: k < 8 ==> (Required(RESPONSE, k) <==> k < 2)
  {
  }

  method EncodeResponse(e: Encoder, v: GetEventsResponse)
    modifies e
    ensures e.toks == old(e.toks) + Tokens(Obj(Present(ResponseFields(v))))
  {
    hide EventJson, Tokens, Written, Present, FieldTokens;
    ghost var buf, fs, items := e.toks, ResponseFields(v), EventJsons(v.events);
    ghost var start := buf + [ObjStart];
    ObjectWritten(buf, fs);
    WrittenNone(start);
    WriteNext(start, fs, 0);
    WriteNext(start, fs, 1);
    assert fs[..0] == [] && fs[..2] == fs;
    e.Put(ObjStart);
    FieldSome(e.toks, "events", Arr(items));
    ghost var before := e.toks + [Key("events")];
    e.Put(Key("events"));
    e.Put(ArrStart);
    NoItems(before + [ArrStart]);
    for i := 0 to |v.events|
      invariant e.toks == before + [ArrStart] + ItemTokens(items[..i])
    {
      EncodeEvent(e, v.events[i]);
      ItemTokensSnoc(items[..i], items[i]);
      assert items[..i + 1] == items[..i] + [items[i]];
      Assoc(before + [ArrStart], ItemTokens(items[..i]), Tokens(items[i]));
    }
    assert items[..|v.events|] == items;
    ArrayTokens(before, items);
    e.Put(ArrEnd);
    CountTokens(v.count);
    e.Scalar("count", IntTok(v.count), Int(v.count));
    e.Put(ObjEnd);
  }

  lemma NoItems(a: seq<Token>)
    ensures a + ItemTokens([]) == a
  {
  }

  lemma CountTokens(n: int)
    ensures Tokens(Int(n)) == [IntTok(n)]
  {
  }

  lemma ArrayTokens(a: seq<Token>, items: seq<Json>)
    ensures a + [ArrStart] + ItemTokens(items) + [ArrEnd] == a + Tokens(Arr(items))
  {
  }

  method DecodeEvents(j: Json) returns (ok: bool, es: seq<EventData>)
    ensures ok <==> EventsTyped(j)
    ensures ok ==> es == EventsOf(j.items)
  {
    hide EventOf;
    ok, es := false, [];
    if !j.Arr? { return; }
    for i := 0 to |j.items|
      invariant |es| == i && forall k :: 0 <= k < i ==> EventOf(j.items[k]) == Good(es[k])
    {
      assert j.items[i] in j.items;
      var d := DecodeEvent(j.items[i]);
      if !d.Good? { return; }
      es := es + [d.value];
    }
    ok := true;
  }

  method DecodeResponse(j: Json) returns (r: Decoded<GetEventsResponse>)
    ensures r == ResponseOf(j)
  {
    hide EventsTyped, EventsOf, EventOf, Agrees, Mark, BitAt;
    if !j.Obj? { return Malformed; }
    var s, seen, ms := GetEventsResponse([], 0), [0 as bv8], j.members;
    ResponseRequired();
    AgreesStart(RESPONSE);
    assert seq(1, i => 0 as bv8) == seen;
    for i := 0 to |ms|
      invariant |seen| == 1
      invariant forall k :: 0 <= k < i ==> ResponseTyped(ms[k])
      invariant s == ResponseIn(ms[..i]) && Agrees(seen, RESPONSE, ms[..i])
    {
      var m := ms[i];
      assert m in j.members;
      NextMember(ms, i);
      ResponseStep(ms[..i], m);
      if m.key == "events" {
        AgreesMark(seen, RESPONSE, ms[..i], m, 0);
        seen := Mark(seen, 0);
        var ok, es := DecodeEvents(m.value);
        if !ok { return Malformed; }
        s := s.(events := es);
      } else if m.key == "count" {
        AgreesMark(seen, RESPONSE, ms[..i], m, 1);
        seen := Mark(seen, 1);
        if !IsInt64(m.value) { return Malformed; }
        s := s.(count := m.value.n);
      } else {
        AgreesSkip(seen, RESPONSE, ms[..i], m);
      }
    }
    assert ms[..|ms|] == ms;
    var failures := CheckRequired(seen, RESPONSE.masks, RESPONSE.names);
    AgreesMissing(seen, RESPONSE, ms, 8);
    r := if failures != [] then Missing(failures) else Good(s);
  }

  // ---- ReviewData -----------------------------------------------------------------------

  const REVIEW := Schema(["id", "event_id", "comment", "created_at", "created_by", "rating", "updated_at"], [0x7F])

  predicate ReviewTyped(m: Member) {
    && (m.key in ["id", "event_id", "comment", "created_at", "created_by", "updated_at"] ==> m.value.Str?)
    && (m.key == "rating" ==> IsInt32(m.value))
  }

  function ReviewIn(ms: seq<Member>): ReviewData {
    ReviewData(StrIn(ms, "id"), StrIn(ms, "event_id"), StrIn(ms, "comment"), StrIn(ms, "created_at"),
      StrIn(ms, "created_by"), Int32In(ms, "rating"), StrIn(ms, "updated_at"))
  }

  function ReviewOf(j: Json): Decoded<ReviewData> {
    if !j.Obj? || exists m :: m in j.members && !ReviewTyped(m) then Malformed
    else if AbsentNames(j.members, REVIEW) != [] then Missing(AbsentNames(j.members, REVIEW))
    else Good(ReviewIn(j.members))
  }

  function ReviewFields(v: ReviewData): seq<Field> {
    [Field("id", Some(Str(v.id))), Field("event_id", Some(Str(v.eventId))), Field("comment", Some(Str(v.comment))),
      Field("created_at", Some(Str(v.createdAt))), Field("created_by", Some(Str(v.createdBy))),
        Field("rating", Some(Int(v.rating))), Field("updated_at", Some(Str(v.updatedAt)))]
  }

  /** What one member does to the struct. */
  function PutReview(s: ReviewData, m: Member): ReviewData {
    if m.key == "id" then s.(id := if m.value.Str? then m.value.s else "")
    else if m.key == "event_id" then s.(eventId := if m.value.Str? then m.value.s else "")
    else if m.key == "comment" then s.(comment := if m.value.Str? then m.value.s else "")
    else if m.key == "created_at" then s.(createdAt := if m.value.Str? then m.value.s else "")
    else if m.key == "created_by" then s.(createdBy := if m.value.Str? then m.value.s else "")
    else if m.key == "rating" then s.(rating := if IsInt32(m.value) then m.value.n else 0)
    else if m.key == "updated_at" then s.(updatedAt := if m.value.Str? then m.value.s else "")
    else s
  }

  lemma ReviewStep(ms: seq<Member>, m: Member)
    ensures ReviewIn(ms + [m]) == PutReview(ReviewIn(ms), m)
  {
    GetSnoc(ms, m, "id");
    GetSnoc(ms, m, "event_id");
    GetSnoc(ms, m, "comment");
    GetSnoc(ms, m, "created_at");
    GetSnoc(ms, m, "created_by");
    GetSnoc(ms, m, "rating");
    GetSnoc(ms, m, "updated_at");
  }

  lemma ReviewRequired()
    ensures |REVIEW.masks| == 1
    ensures forall k: nat :: k < 8 ==> (Required(REVIEW, k) <==> k < 7)
  {
  }

  method EncodeReview(e: Encoder, v: ReviewData)
    modifies e
    ensures e.toks == old(e.toks) + Tokens(Obj(Present(ReviewFields(v))))
  {
    hide FieldTokens, Written, Present;
    ghost var buf, fs := e.toks, ReviewFields(v);
    ghost var start := buf + [ObjStart];
    ObjectWritten(buf, fs);
    WrittenNone(start);
    assert fs[..0] == [];
    e.Put(ObjStart);
    WriteNext(start, fs, 0);
    e.Scalar("id", StrTok(v.id), Str(v.id));
    WriteNext(start, fs, 1);
    e.Scalar("event_id", StrTok(v.eventId), Str(v.eventId));
    WriteNext(start, fs, 2);
    e.Scalar("comment", StrTok(v.comment), Str(v.comment));
    WriteNext(start, fs, 3);
    e.Scalar("created_at", StrTok(v.createdAt), Str(v.createdAt));
    WriteNext(start, fs, 4);
    e.Scalar("created_by", StrTok(v.createdBy), Str(v.createdBy));
    WriteNext(start, fs, 5);
    e.Scalar("rating", IntTok(v.rating), Int(v.rating));
    WriteNext(start, fs, 6);
    e.Scalar("updated_at", StrTok(v.updatedAt), Str(v.updatedAt));
    assert fs[..7] == fs;
    e.Put(ObjEnd);
  }

  ghost predicate ReviewSoFar(s: ReviewData, seen: seq<bv8>, ms: seq<Member>) {
    s == ReviewIn(ms) && Agrees(seen, REVIEW, ms)
  }

  lemma ReviewStart()
    ensures ReviewSoFar(ReviewData("", "", "", "", "", 0, ""), [0], [])
  {
    ReviewRequired();
    AgreesStart(REVIEW);
    assert seq(1, i => 0 as bv8) == [0];
  }

  lemma ReviewMark(s: ReviewData, seen: seq<bv8>, ms: seq<Member>, m: Member, k: nat)
    requires ReviewSoFar(s, seen, ms) && |seen| == 1 && k < 7 && REVIEW.names[k] == m.key
    ensures ReviewSoFar(PutReview(s, m), Mark(seen, k), ms + [m])
  {
    ReviewStep(ms, m);
    ReviewRequired();
    hide ReviewIn, PutReview, Agrees, Mark;
    AgreesMark(seen, REVIEW, ms, m, k);
  }

  lemma ReviewSkip(s: ReviewData, seen: seq<bv8>, ms: seq<Member>, m: Member)
    requires ReviewSoFar(s, seen, ms) && |seen| == 1 && m.key !in REVIEW.names
    ensures ReviewSoFar(PutReview(s, m), seen, ms + [m])
  {
    ReviewStep(ms, m);
    ReviewRequired();
    hide ReviewIn, PutReview, Agrees;
    assert forall j :: 0 <= j < 7 ==> REVIEW.names[j] in REVIEW.names;
    AgreesSkip(seen, REVIEW, ms, m);
  }

  /** The callback for one member. */
  method DecodeReviewField(s0: ReviewData, seen0: seq<bv8>, m: Member, ghost ms: seq<Member>)
    returns (ok: bool, s: ReviewData, seen: seq<bv8>)
    requires |seen0| == 1 && ReviewSoFar(s0, seen0, ms)
    ensures |seen| == 1 && (ok <==> ReviewTyped(m))
    ensures ok ==> ReviewSoFar(s, seen, ms + [m])
  {
    hide ReviewSoFar, Mark;
    ok, s, seen := true, s0, seen0;
    if m.key == "id" {
      ReviewMark(s0, seen0, ms, m, 0);
      seen := Mark(seen, 0);
      ok := m.value.Str?;
      if ok { s := s.(id := m.value.s); }
    } else if m.key == "event_id" {
      ReviewMark(s0, seen0, ms, m, 1);
      seen := Mark(seen, 1);
      ok := m.value.Str?;
      if ok { s := s.(eventId := m.value.s); }
    } else if m.key == "comment" {
      ReviewMark(s0, seen0, ms, m, 2);
      seen := Mark(seen, 2);
      ok := m.value.Str?;
      if ok { s := s.(comment := m.value.s); }
    } else if m.key == "created_at" {
      ReviewMark(s0, seen0, ms, m, 3);
      seen := Mark(seen, 3);
      ok := m.value.Str?;
      if ok { s := s.(createdAt := m.value.s); }
    } else if m.key == "created_by" {
      ReviewMark(s0, seen0, ms, m, 4);
      seen := Mark(seen, 4);
      ok := m.value.Str?;
      if ok { s := s.(createdBy := m.value.s); }
    } else if m.key == "rating" {
      ReviewMark(s0, seen0, ms, m, 5);
      seen := Mark(seen, 5);
      ok := IsInt32(m.value);
      if ok { s := s.(rating := m.value.n); }
    } else if m.key == "updated_at" {
      ReviewMark(s0, seen0, ms, m, 6);
      seen := Mark(seen, 6);
      ok := m.value.Str?;
      if ok { s := s.(updatedAt := m.value.s); }
    } else {
      ReviewSkip(s0, seen0, ms, m);
    }
  }

  method DecodeReview(j: Json) returns (r: Decoded<ReviewData>)
    ensures r == ReviewOf(j)
  {
    hide ReviewTyped, ReviewIn, AbsentNames, ReviewSoFar;
    if !j.Obj? { return Malformed; }
    var s, seen, ms := ReviewData("", "", "", "", "", 0, ""), [0 as bv8], j.members;
    ReviewStart();
    for i := 0 to |ms|
      invariant |seen| == 1
      invariant forall k :: 0 <= k < i ==> ReviewTyped(ms[k])
      invariant ReviewSoFar(s, seen, ms[..i])
    {
      var m := ms[i];
      assert m in ms;
      NextMember(ms, i);
      var ok;
      ok, s, seen := DecodeReviewField(s, seen, m, ms[..i]);
      if !ok { return Malformed; }
    }
    assert ms[..|ms|] == ms;
    var failures := CheckRequired(seen, REVIEW.masks, REVIEW.names);
    ReviewMissing(s, seen, ms);
    r := if failures != [] then Missing(failures) else Good(s);
  }

  lemma ReviewMissing(s: ReviewData, seen: seq<bv8>, ms: seq<Member>)
    requires ReviewSoFar(s, seen, ms) && |seen| == 1
    ensures s == ReviewIn(ms)
    ensures NamesOf(REVIEW.names, MissingBelow(seen, REVIEW.masks, 8)) == AbsentNames(ms, REVIEW)
  {
    AgreesMissing(seen, REVIEW, ms, 8);
  }
}
