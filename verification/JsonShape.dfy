/**
 * The response types as shapes: which objects decode, and which objects decode to the same value, with
 * field order, unknown keys and required keys at every level.
 */
module JsonShape {
  import opened Text
  import opened Json
  import opened JsonSchema
  import opened RequiredFields
  import opened JsonCodec

  datatype Shape = Text | Int64 | Int32 | Number | Record(fields: seq<Known>) | List(item: Shape)

  /** A key an object type knows. */
  datatype Known = Known(key: string, shape: Shape, required: bool)

  const LOCATION_SHAPE := Record([Known("address", Text, true), Known("city", Text, false)])
  const REACTIONS_SHAPE := Record([Known("likes", Int64, true), Known("dislikes", Int64, true)])
  const REVIEWS_SHAPE := Record([Known("count", Int64, true), Known("rating", Number, true)])
  const EVENT_SHAPE := Record(
    [Known("id", Text, true), Known("title", Text, true), Known("category", Text, false), Known("price", Int64, false),
     Known("description", Text, false), Known("location", LOCATION_SHAPE, true), Known("started_at", Text, true),
     Known("finished_at", Text, true), Known("created_at", Text, true), Known("created_by", Text, true),
     Known("reactions", REACTIONS_SHAPE, false), Known("reviews", REVIEWS_SHAPE, false)])
  const RESPONSE_SHAPE := Record([Known("events", List(EVENT_SHAPE), true), Known("count", Int64, true)])
  const REVIEW_SHAPE := Record(
    [Known("id", Text, true), Known("event_id", Text, true), Known("comment", Text, true),
     Known("created_at", Text, true), Known("created_by", Text, true), Known("rating", Int32, true),
     Known("updated_at", Text, true)])

  /** Every known value is well typed and every required key is there, at every level. */
  predicate Conforms(s: Shape, j: Json)
    decreases s, 1
  {
    match s
    case Text => j.Str?
    case Int64 => IsInt64(j)
    case Int32 => IsInt32(j)
    case Number => IsNumber(j)
    case List(item) => j.Arr? && forall x :: x in j.items ==> Conforms(item, x)
    case Record(fields) => j.Obj? && Typed(fields, j.members) && Complete(fields, j.members)
  }

  predicate Typed(fields: seq<Known>, ms: seq<Member>)
    decreases fields, 0
  {
    forall f, m :: f in fields && m in ms && m.key == f.key ==> Conforms(f.shape, m.value)
  }

  predicate Complete(fields: seq<Known>, ms: seq<Member>) {
    forall f :: f in fields && f.required ==> Has(ms, f.key)
  }

  /**
   * The same value at every known key, at every level: fields may come in another order and unknown
   * keys may differ. No object repeats a key.
   */
  ghost predicate Same(s: Shape, j: Json, j': Json)
    decreases s, 1
  {
    match s
    case Record(fields) =>
      if j.Obj? && j'.Obj? then
        UniqueKeys(j.members) && UniqueKeys(j'.members) && SameFields(fields, j.members, j'.members)
      else !j.Obj? && !j'.Obj?
    case List(item) =>
      if j.Arr? && j'.Arr? then
        |j.items| == |j'.items| && forall i :: 0 <= i < |j.items| ==> Same(item, j.items[i], j'.items[i])
      else !j.Arr? && !j'.Arr?
    case _ => j == j'
  }

  ghost predicate SameFields(fields: seq<Known>, ms: seq<Member>, ms': seq<Member>)
    decreases fields, 0
  {
    forall f :: f in fields ==> SameAt(f.shape, Get(ms, f.key), Get(ms', f.key))
  }

  ghost predicate SameAt(s: Shape, a: Option<Json>, b: Option<Json>)
    decreases s, 2
  {
    if a.Some? && b.Some? then Same(s, a.value, b.value) else a == b
  }

  // ---- Shapes and schemas ---------------------------------------------------------------

  /** The schema of a decoder has the keys of the shape, in order, and requires the same ones. */
  ghost predicate Describes(fields: seq<Known>, c: Schema) {
    && |c.names| == |fields| <= 8 * |c.masks|
    && (forall i :: 0 <= i < |fields| ==> c.names[i] == fields[i].key)
    && (forall k: nat :: k < 8 * |c.masks| ==> (Required(c, k) <==> k < |fields| && fields[k].required))
  }

  lemma AbsentExactly(fields: seq<Known>, c: Schema, ms: seq<Member>)
    requires Describes(fields, c)
    ensures AbsentNames(ms, c) == [] <==> Complete(fields, ms)
  {
    AbsentBelowEmpty(ms, c, 8 * |c.masks|);
    hide Required, Has;
    if Complete(fields, ms) {
      forall k: nat | k < 8 * |c.masks| ensures !Absent(ms, c, k) {
        if k < |fields| { assert fields[k] in fields; }
      }
    } else {
      var f :| f in fields && f.required && !Has(ms, f.key);
      var k :| 0 <= k < |fields| && fields[k] == f;
      assert Absent(ms, c, k);
    }
  }

  lemma {:induction false} SameAbsentBelow(fields: seq<Known>, c: Schema, ms: seq<Member>, ms': seq<Member>, n: nat)
    requires Describes(fields, c) && n <= 8 * |c.masks| && SameFields(fields, ms, ms')
    ensures AbsentBelow(ms, c, n) == AbsentBelow(ms', c, n)
  {
    if n > 0 {
      SameAbsentBelow(fields, c, ms, ms', n - 1);
      if n - 1 < |fields| { assert fields[n - 1] in fields; }
    }
  }

  // ---- Sameness keeps typing ------------------------------------------------------------

  lemma TypedAt(f: Known, ms: seq<Member>)
    requires UniqueKeys(ms)
    ensures (forall m :: m in ms && m.key == f.key ==> Conforms(f.shape, m.value)) <==>
            (Get(ms, f.key).Some? ==> Conforms(f.shape, Get(ms, f.key).value))
  {
    hide Conforms, Get, UniqueKeys;
    GetIsMember(ms, f.key);
    forall m | m in ms && m.key == f.key ensures Get(ms, f.key) == Some(m.value) {
      assert m == Member(f.key, m.value);
    }
    if Get(ms, f.key).Some? { assert Member(f.key, Get(ms, f.key).value) in ms; }
  }

  lemma {:induction false} SameTyped(fields: seq<Known>, ms: seq<Member>, ms': seq<Member>)
    requires UniqueKeys(ms) && UniqueKeys(ms') && SameFields(fields, ms, ms')
    ensures Typed(fields, ms) <==> Typed(fields, ms')
    decreases fields, 0
  {
    forall f | f in fields
      ensures (forall m :: m in ms && m.key == f.key ==> Conforms(f.shape, m.value)) <==>
              (forall m :: m in ms' && m.key == f.key ==> Conforms(f.shape, m.value))
    {
      TypedAt(f, ms);
      TypedAt(f, ms');
      if Get(ms, f.key).Some? { SameConforms(f.shape, Get(ms, f.key).value, Get(ms', f.key).value); }
    }
  }

  lemma SameComplete(fields: seq<Known>, ms: seq<Member>, ms': seq<Member>)
    requires SameFields(fields, ms, ms')
    ensures Complete(fields, ms) <==> Complete(fields, ms')
  {
    hide Get;
  }

  lemma {:induction false} SameConforms(s: Shape, j: Json, j': Json)
    requires Same(s, j, j')
    ensures Conforms(s, j) <==> Conforms(s, j')
    decreases s, 1
  {
    match s
    case Record(fields) =>
      if j.Obj? {
        SameTyped(fields, j.members, j'.members);
        SameComplete(fields, j.members, j'.members);
      }
    case List(item) =>
      if j.Arr? {
        forall i | 0 <= i < |j.items| ensures Conforms(item, j.items[i]) <==> Conforms(item, j'.items[i]) {
          SameConforms(item, j.items[i], j'.items[i]);
        }
      }
    case _ =>
  }

  // ---- Each type against its shape ------------------------------------------------------

  predicate FieldTyped(f: Known, m: Member) {
    m.key == f.key ==> Conforms(f.shape, m.value)
  }

  lemma TypedOne(fields: seq<Known>, m: Member)
    ensures Typed(fields, [m]) <==> forall i :: 0 <= i < |fields| ==> FieldTyped(fields[i], m)
  {
    hide Conforms;
    assert [m][0] in [m];
    if Typed(fields, [m]) {
      forall i | 0 <= i < |fields| ensures FieldTyped(fields[i], m) { assert fields[i] in fields; }
    }
    if forall i :: 0 <= i < |fields| ==> FieldTyped(fields[i], m) {
      forall f, x | f in fields && x in [m] && x.key == f.key ensures Conforms(f.shape, x.value) {
        var i :| 0 <= i < |fields| && fields[i] == f;
        assert FieldTyped(fields[i], m);
      }
    }
  }

  lemma TypedEach(fields: seq<Known>, ms: seq<Member>)
    ensures Typed(fields, ms) <==> forall m :: m in ms ==> Typed(fields, [m])
  {
    hide Conforms;
    assert forall m: Member, x: Member :: x in [m] <==> x == m;
  }

  /** A scalar field that is the same is equal. */
  lemma SameScalar(fields: seq<Known>, i: nat, ms: seq<Member>, ms': seq<Member>)
    requires SameFields(fields, ms, ms') && i < |fields|
    requires fields[i].shape in [Text, Int64, Int32, Number]
    ensures Get(ms, fields[i].key) == Get(ms', fields[i].key)
  {
    assert fields[i] in fields;
    hide Get;
  }

  lemma LocationDescribed()
    ensures Describes(LOCATION_SHAPE.fields, LOCATION)
  {
    LocationRequired();
  }

  lemma LocationTypes(ms: seq<Member>)
    ensures (forall m :: m in ms ==> LocationTyped(m)) <==> Typed(LOCATION_SHAPE.fields, ms)
  {
    var fs := LOCATION_SHAPE.fields;
    forall m ensures LocationTyped(m) <==> Typed(fs, [m]) {
      TypedOne(fs, m);
      assert FieldTyped(fs[0], m) && FieldTyped(fs[1], m) <==> LocationTyped(m);
    }
    TypedEach(fs, ms);
    hide LocationTyped, Typed;
  }

  /** A location decodes exactly when address and city, if there, are strings and the address is there. */
  lemma LocationDecodes(j: Json)
    ensures LocationOf(j).Good? <==> Conforms(LOCATION_SHAPE, j)
  {
    if j.Obj? {
      LocationTypes(j.members);
      LocationDescribed();
      AbsentExactly(LOCATION_SHAPE.fields, LOCATION, j.members);
    }
    hide LocationTyped, Typed, AbsentNames, Complete;
  }

  lemma LocationSame(j: Json, j': Json)
    requires Same(LOCATION_SHAPE, j, j')
    ensures LocationOf(j) == LocationOf(j')
  {
    var fs := LOCATION_SHAPE.fields;
    if j.Obj? {
      SameTyped(fs, j.members, j'.members);
      LocationTypes(j.members);
      LocationTypes(j'.members);
      LocationDescribed();
      SameAbsentBelow(fs, LOCATION, j.members, j'.members, 8);
      SameScalar(fs, 0, j.members, j'.members);
      SameScalar(fs, 1, j.members, j'.members);
    }
    hide LocationTyped, Typed, Get;
  }

  lemma ReactionsDescribed()
    ensures Describes(REACTIONS_SHAPE.fields, REACTIONS)
  {
    EventReactionsRequired();
  }

  lemma ReactionsTypes(ms: seq<Member>)
    ensures (forall m :: m in ms ==> EventReactionsTyped(m)) <==> Typed(REACTIONS_SHAPE.fields, ms)
  {
    var fs := REACTIONS_SHAPE.fields;
    forall m ensures EventReactionsTyped(m) <==> Typed(fs, [m]) {
      TypedOne(fs, m);
      assert FieldTyped(fs[0], m) && FieldTyped(fs[1], m) <==> EventReactionsTyped(m);
    }
    TypedEach(fs, ms);
    hide EventReactionsTyped, Typed;
  }

  lemma ReactionsDecode(j: Json)
    ensures EventReactionsOf(j).Good? <==> Conforms(REACTIONS_SHAPE, j)
  {
    if j.Obj? {
      ReactionsTypes(j.members);
      ReactionsDescribed();
      AbsentExactly(REACTIONS_SHAPE.fields, REACTIONS, j.members);
    }
    hide EventReactionsTyped, Typed, AbsentNames, Complete;
  }

  lemma ReactionsSame(j: Json, j': Json)
    requires Same(REACTIONS_SHAPE, j, j')
    ensures EventReactionsOf(j) == EventReactionsOf(j')
  {
    var fs := REACTIONS_SHAPE.fields;
    if j.Obj? {
      SameTyped(fs, j.members, j'.members);
      ReactionsTypes(j.members);
      ReactionsTypes(j'.members);
      ReactionsDescribed();
      SameAbsentBelow(fs, REACTIONS, j.members, j'.members, 8);
      SameScalar(fs, 0, j.members, j'.members);
      SameScalar(fs, 1, j.members, j'.members);
    }
    hide EventReactionsTyped, Typed, Get;
  }

  lemma ReviewsDescribed()
    ensures Describes(REVIEWS_SHAPE.fields, REVIEWS)
  {
    EventReviewsRequired();
  }

  lemma ReviewsTypes(ms: seq<Member>)
    ensures (forall m :: m in ms ==> EventReviewsTyped(m)) <==> Typed(REVIEWS_SHAPE.fields, ms)
  {
    var fs := REVIEWS_SHAPE.fields;
    forall m ensures EventReviewsTyped(m) <==> Typed(fs, [m]) {
      TypedOne(fs, m);
      assert FieldTyped(fs[0], m) && FieldTyped(fs[1], m) <==> EventReviewsTyped(m);
    }
    TypedEach(fs, ms);
    hide EventReviewsTyped, Typed;
  }

  lemma ReviewsDecode(j: Json)
    ensures EventReviewsOf(j).Good? <==> Conforms(REVIEWS_SHAPE, j)
  {
    if j.Obj? {
      ReviewsTypes(j.members);
      ReviewsDescribed();
      AbsentExactly(REVIEWS_SHAPE.fields, REVIEWS, j.members);
    }
    hide EventReviewsTyped, Typed, AbsentNames, Complete;
  }

  lemma ReviewsSame(j: Json, j': Json)
    requires Same(REVIEWS_SHAPE, j, j')
    ensures EventReviewsOf(j) == EventReviewsOf(j')
  {
    var fs := REVIEWS_SHAPE.fields;
    if j.Obj? {
      SameTyped(fs, j.members, j'.members);
      ReviewsTypes(j.members);
      ReviewsTypes(j'.members);
      ReviewsDescribed();
      SameAbsentBelow(fs, REVIEWS, j.members, j'.members, 8);
      SameScalar(fs, 0, j.members, j'.members);
      SameScalar(fs, 1, j.members, j'.members);
    }
    hide EventReviewsTyped, Typed, Get;
  }

  // ---- Events ---------------------------------------------------------------------------

  lemma EventDescribed()
    ensures Describes(EVENT_SHAPE.fields, EVENT)
  {
    EventRequired();
    hide Required;
  }

  lemma Scalars(j: Json)
    ensures Conforms(Text, j) <==> j.Str?
    ensures Conforms(Int64, j) <==> IsInt64(j)
    ensures Conforms(Int32, j) <==> IsInt32(j)
  {
  }

  /** The keys of an event and the shapes of their values, by position. */
  lemma EventShapes()
    ensures var fs := EVENT_SHAPE.fields;
            && |fs| == 12
            && fs[0] == Known("id", Text, true) && fs[1] == Known("title", Text, true)
            && fs[2] == Known("category", Text, false) && fs[3] == Known("price", Int64, false)
            && fs[4] == Known("description", Text, false) && fs[5] == Known("location", LOCATION_SHAPE, true)
            && fs[6] == Known("started_at", Text, true) && fs[7] == Known("finished_at", Text, true)
            && fs[8] == Known("created_at", Text, true) && fs[9] == Known("created_by", Text, true)
            && fs[10] == Known("reactions", REACTIONS_SHAPE, false) && fs[11] == Known("reviews", REVIEWS_SHAPE, false)
  {
  }

  lemma EventFieldsTyped(m: Member)
    ensures |EVENT_SHAPE.fields| == 12
    ensures EventTyped(m) <==> forall i :: 0 <= i < 12 ==> FieldTyped(EVENT_SHAPE.fields[i], m)
  {
    LocationDecodes(m.value);
    ReactionsDecode(m.value);
    ReviewsDecode(m.value);
    Scalars(m.value);
    EventShapes();
    hide LocationOf, EventReactionsOf, EventReviewsOf, Conforms, IsInt64;
    ByPosition(EVENT_SHAPE.fields, m);
  }

  lemma ByPosition(fs: seq<Known>, m: Member)
    requires |fs| == 12
    ensures (forall i :: 0 <= i < 12 ==> FieldTyped(fs[i], m)) <==>
      && FieldTyped(fs[0], m) && FieldTyped(fs[1], m) && FieldTyped(fs[2], m) && FieldTyped(fs[3], m)
      && FieldTyped(fs[4], m) && FieldTyped(fs[5], m) && FieldTyped(fs[6], m) && FieldTyped(fs[7], m)
      && FieldTyped(fs[8], m) && FieldTyped(fs[9], m) && FieldTyped(fs[10], m) && FieldTyped(fs[11], m)
  {
    hide FieldTyped;
  }

  lemma EventTypes(ms: seq<Member>)
    ensures (forall m :: m in ms ==> EventTyped(m)) <==> Typed(EVENT_SHAPE.fields, ms)
  {
    var fs := EVENT_SHAPE.fields;
    assert |fs| == 12;
    hide EventTyped, FieldTyped, Typed;
    forall m ensures EventTyped(m) <==> Typed(fs, [m]) {
      TypedOne(fs, m);
      EventFieldsTyped(m);
    }
    TypedEach(fs, ms);
  }

  /** An event decodes exactly when it conforms: typing and required keys at both levels. */
  lemma EventDecodes(j: Json)
    ensures EventOf(j).Good? <==> Conforms(EVENT_SHAPE, j)
  {
    if j.Obj? {
      EventTypes(j.members);
      EventDescribed();
      AbsentExactly(EVENT_SHAPE.fields, EVENT, j.members);
    }
    hide EventTyped, Typed, AbsentNames, Complete, EventIn;
  }

  /** A field that is the same is absent from both objects, or has the same value in both. */
  lemma SameField(fields: seq<Known>, i: nat, ms: seq<Member>, ms': seq<Member>)
    requires SameFields(fields, ms, ms') && i < |fields|
    ensures SameAt(fields[i].shape, Get(ms, fields[i].key), Get(ms', fields[i].key))
  {
    assert fields[i] in fields;
  }

  lemma SameNested(fields: seq<Known>, ms: seq<Member>, ms': seq<Member>)
    requires fields == EVENT_SHAPE.fields && SameFields(fields, ms, ms') && UniqueKeys(ms) && UniqueKeys(ms')
    ensures LocationAt(ms) == LocationAt(ms')
    ensures ReactionsAt(ms, "reactions") == ReactionsAt(ms', "reactions")
    ensures ReviewsAt(ms, "reviews") == ReviewsAt(ms', "reviews")
  {
    hide LocationAt, Get, LocationOf, EventReactionsOf, EventReviewsOf, UniqueKeys, Same, SameFields;
    EventShapes();
    SameField(fields, 5, ms, ms');
    SameField(fields, 10, ms, ms');
    SameField(fields, 11, ms, ms');
    LocationOnce(ms);
    LocationOnce(ms');
    if Get(ms, "location").Some? { LocationSame(Get(ms, "location").value, Get(ms', "location").value); }
    if Get(ms, "reactions").Some? { ReactionsSame(Get(ms, "reactions").value, Get(ms', "reactions").value); }
    if Get(ms, "reviews").Some? { ReviewsSame(Get(ms, "reviews").value, Get(ms', "reviews").value); }
  }

  lemma SameScalars(fields: seq<Known>, ms: seq<Member>, ms': seq<Member>)
    requires fields == EVENT_SHAPE.fields && SameFields(fields, ms, ms')
    ensures Get(ms, "id") == Get(ms', "id") && Get(ms, "title") == Get(ms', "title")
    ensures Get(ms, "category") == Get(ms', "category") && Get(ms, "price") == Get(ms', "price")
    ensures Get(ms, "description") == Get(ms', "description") && Get(ms, "started_at") == Get(ms', "started_at")
    ensures Get(ms, "finished_at") == Get(ms', "finished_at") && Get(ms, "created_at") == Get(ms', "created_at")
    ensures Get(ms, "created_by") == Get(ms', "created_by")
  {
    EventShapes();
    hide SameFields, Get;
    SameScalar(fields, 0, ms, ms');
    SameScalar(fields, 1, ms, ms');
    SameScalar(fields, 2, ms, ms');
    SameScalar(fields, 3, ms, ms');
    SameScalar(fields, 4, ms, ms');
    SameScalar(fields, 6, ms, ms');
    SameScalar(fields, 7, ms, ms');
    SameScalar(fields, 8, ms, ms');
    SameScalar(fields, 9, ms, ms');
  }

  lemma EventInSame(ms: seq<Member>, ms': seq<Member>)
    requires SameFields(EVENT_SHAPE.fields, ms, ms') && UniqueKeys(ms) && UniqueKeys(ms')
    ensures EventIn(ms) == EventIn(ms')
  {
    SameScalars(EVENT_SHAPE.fields, ms, ms');
    SameNested(EVENT_SHAPE.fields, ms, ms');
    hide Get, LocationAt, ReactionsAt, ReviewsAt, SameFields, UniqueKeys;
  }

  /** Field order and unknown keys do not matter, neither in the event nor in the objects inside it. */
  lemma EventSame(j: Json, j': Json)
    requires Same(EVENT_SHAPE, j, j')
    ensures EventOf(j) == EventOf(j')
  {
    hide EventTyped, Typed, Get, EventIn, SameFields, UniqueKeys;
    if j.Obj? {
      SameTyped(EVENT_SHAPE.fields, j.members, j'.members);
      EventTypes(j.members);
      EventTypes(j'.members);
      EventDescribed();
      SameAbsentBelow(EVENT_SHAPE.fields, EVENT, j.members, j'.members, 16);
      EventInSame(j.members, j'.members);
    }
  }

  // ---- Responses ------------------------------------------------------------------------

  lemma ResponseDescribed()
    ensures Describes(RESPONSE_SHAPE.fields, RESPONSE)
  {
    ResponseRequired();
  }

  lemma EventsDecode(j: Json)
    ensures EventsTyped(j) <==> Conforms(List(EVENT_SHAPE), j)
  {
    if j.Arr? {
      forall x | x in j.items ensures EventOf(x).Good? <==> Conforms(EVENT_SHAPE, x) { EventDecodes(x); }
    }
    hide EventOf;
  }

  lemma ResponseTypes(ms: seq<Member>)
    ensures (forall m :: m in ms ==> ResponseTyped(m)) <==> Typed(RESPONSE_SHAPE.fields, ms)
  {
    var fs := RESPONSE_SHAPE.fields;
    hide EventsTyped, Conforms, Typed, EVENT_SHAPE;
    forall m ensures ResponseTyped(m) <==> Typed(fs, [m]) {
      TypedOne(fs, m);
      EventsDecode(m.value);
      Scalars(m.value);
      assert FieldTyped(fs[0], m) && FieldTyped(fs[1], m) <==> ResponseTyped(m);
    }
    TypedEach(fs, ms);
  }

  /** A response decodes exactly when it conforms: typing and required keys at all three levels. */
  lemma ResponseDecodes(j: Json)
    ensures ResponseOf(j).Good? <==> Conforms(RESPONSE_SHAPE, j)
  {
    if j.Obj? {
      ResponseTypes(j.members);
      ResponseDescribed();
      AbsentExactly(RESPONSE_SHAPE.fields, RESPONSE, j.members);
    }
    hide ResponseTyped, Typed, AbsentNames, Complete, ResponseIn;
  }

  lemma EventsSame(j: Json, j': Json)
    requires Same(List(EVENT_SHAPE), j, j')
    ensures EventsTyped(j) == EventsTyped(j')
    ensures EventsTyped(j) ==> EventsOf(j.items) == EventsOf(j'.items)
  {
    hide EventOf;
    if j.Arr? {
      forall i | 0 <= i < |j.items| ensures EventOf(j.items[i]) == EventOf(j'.items[i]) {
        EventSame(j.items[i], j'.items[i]);
      }
      assert forall x :: x in j.items ==> exists i :: 0 <= i < |j.items| && j.items[i] == x;
      assert forall x :: x in j'.items ==> exists i :: 0 <= i < |j'.items| && j'.items[i] == x;
    }
  }

  lemma ResponseInSame(ms: seq<Member>, ms': seq<Member>)
    requires SameFields(RESPONSE_SHAPE.fields, ms, ms')
    ensures ResponseIn(ms) == ResponseIn(ms')
  {
    var fs := RESPONSE_SHAPE.fields;
    assert fs[0] in fs;
    SameScalar(fs, 1, ms, ms');
    hide EventsTyped, EventsOf, Get;
    if Get(ms, "events").Some? { EventsSame(Get(ms, "events").value, Get(ms', "events").value); }
  }

  /** The same through arrays of events. */
  lemma ResponseSame(j: Json, j': Json)
    requires Same(RESPONSE_SHAPE, j, j')
    ensures ResponseOf(j) == ResponseOf(j')
  {
    hide ResponseTyped, Typed, Get, ResponseIn, SameFields;
    if j.Obj? {
      SameTyped(RESPONSE_SHAPE.fields, j.members, j'.members);
      ResponseTypes(j.members);
      ResponseTypes(j'.members);
      ResponseDescribed();
      SameAbsentBelow(RESPONSE_SHAPE.fields, RESPONSE, j.members, j'.members, 8);
      ResponseInSame(j.members, j'.members);
    }
  }

  // ---- Reviews --------------------------------------------------------------------------

  lemma ReviewDescribed()
    ensures Describes(REVIEW_SHAPE.fields, REVIEW)
  {
    ReviewRequired();
    hide Required;
  }

  lemma ReviewShapes()
    ensures var fs := REVIEW_SHAPE.fields;
            && |fs| == 7
            && fs[0] == Known("id", Text, true) && fs[1] == Known("event_id", Text, true)
            && fs[2] == Known("comment", Text, true) && fs[3] == Known("created_at", Text, true)
            && fs[4] == Known("created_by", Text, true) && fs[5] == Known("rating", Int32, true)
            && fs[6] == Known("updated_at", Text, true)
  {
  }

  lemma ReviewTypes(ms: seq<Member>)
    ensures (forall m :: m in ms ==> ReviewTyped(m)) <==> Typed(REVIEW_SHAPE.fields, ms)
  {
    var fs := REVIEW_SHAPE.fields;
    ReviewShapes();
    hide Conforms, Typed, IsInt32;
    forall m ensures ReviewTyped(m) <==> Typed(fs, [m]) {
      TypedOne(fs, m);
      Scalars(m.value);
      assert (FieldTyped(fs[0], m) && FieldTyped(fs[1], m) && FieldTyped(fs[2], m) && FieldTyped(fs[3], m) &&
              FieldTyped(fs[4], m) && FieldTyped(fs[5], m) && FieldTyped(fs[6], m)) <==> ReviewTyped(m);
    }
    TypedEach(fs, ms);
  }

  /** A review decodes exactly when its seven fields are there and well typed. */
  lemma ReviewDecodes(j: Json)
    ensures ReviewOf(j).Good? <==> Conforms(REVIEW_SHAPE, j)
  {
    if j.Obj? {
      ReviewTypes(j.members);
      ReviewDescribed();
      AbsentExactly(REVIEW_SHAPE.fields, REVIEW, j.members);
    }
    hide ReviewTyped, Typed, AbsentNames, Complete, ReviewIn;
  }

  lemma ReviewInSame(ms: seq<Member>, ms': seq<Member>)
    requires SameFields(REVIEW_SHAPE.fields, ms, ms')
    ensures ReviewIn(ms) == ReviewIn(ms')
  {
    var fs := REVIEW_SHAPE.fields;
    ReviewShapes();
    hide SameFields, Get;
    SameScalar(fs, 0, ms, ms');
    SameScalar(fs, 1, ms, ms');
    SameScalar(fs, 2, ms, ms');
    SameScalar(fs, 3, ms, ms');
    SameScalar(fs, 4, ms, ms');
    SameScalar(fs, 5, ms, ms');
    SameScalar(fs, 6, ms, ms');
  }

  lemma ReviewSame(j: Json, j': Json)
    requires Same(REVIEW_SHAPE, j, j')
    ensures ReviewOf(j) == ReviewOf(j')
  {
    hide ReviewTyped, Typed, Get, ReviewIn, SameFields;
    if j.Obj? {
      SameTyped(REVIEW_SHAPE.fields, j.members, j'.members);
      ReviewTypes(j.members);
      ReviewTypes(j'.members);
      ReviewDescribed();
      SameAbsentBelow(REVIEW_SHAPE.fields, REVIEW, j.members, j'.members, 8);
      ReviewInSame(j.members, j'.members);
    }
  }

  // ---- Failures -------------------------------------------------------------------------

  /** Malformed: no object, or a known value of the wrong type. Missing: exactly the absent required keys. */
  ghost predicate Reports<T>(fields: seq<Known>, j: Json, d: Decoded<T>) {
    match d
    case Malformed => !j.Obj? || !Typed(fields, j.members)
    case Missing(names) =>
      && j.Obj? && Typed(fields, j.members) && names != []
      && forall name :: name in names <==>
           exists f :: f in fields && f.required && f.key == name && !Has(j.members, f.key)
    case Good(_) => j.Obj? && Typed(fields, j.members) && Complete(fields, j.members)
  }

  lemma {:induction false} AbsentBelowIn(fields: seq<Known>, c: Schema, ms: seq<Member>, n: nat)
    requires Describes(fields, c) && n <= 8 * |c.masks|
    ensures forall k: nat :: k in AbsentBelow(ms, c, n) <==>
      k < n && k < |fields| && fields[k].required && !Has(ms, fields[k].key)
  {
    if n > 0 {
      AbsentBelowIn(fields, c, ms, n - 1);
      hide Has, Required;
    }
  }

  lemma AbsentNamesExactly(fields: seq<Known>, c: Schema, ms: seq<Member>)
    requires Describes(fields, c)
    ensures forall name :: name in AbsentNames(ms, c) <==>
      exists f :: f in fields && f.required && f.key == name && !Has(ms, f.key)
  {
    var ks := AbsentBelow(ms, c, 8 * |c.masks|);
    AbsentBelowIn(fields, c, ms, 8 * |c.masks|);
    hide Has, Required, AbsentBelow;
    forall name ensures name in AbsentNames(ms, c) <==>
      exists f :: f in fields && f.required && f.key == name && !Has(ms, f.key)
    {
      if name in AbsentNames(ms, c) {
        var i :| 0 <= i < |ks| && NameOf(c.names, ks[i]) == name;
        assert ks[i] in ks && fields[ks[i]] in fields;
      }
      if f :| f in fields && f.required && f.key == name && !Has(ms, f.key) {
        var k :| 0 <= k < |fields| && fields[k] == f;
        var i :| 0 <= i < |ks| && ks[i] == k;
        assert AbsentNames(ms, c)[i] == name;
      }
    }
  }

  lemma ReportsFrom<T>(fields: seq<Known>, c: Schema, j: Json, d: Decoded<T>)
    requires Describes(fields, c)
    requires d.Malformed? <==> !j.Obj? || !Typed(fields, j.members)
    requires d.Missing? ==> d.names == AbsentNames(j.members, c) != []
    requires d.Good? ==> AbsentNames(j.members, c) == []
    ensures Reports(fields, j, d)
  {
    hide Typed, AbsentNames, Complete, Has, Describes;
    if !d.Malformed? {
      AbsentExactly(fields, c, j.members);
      AbsentNamesExactly(fields, c, j.members);
    }
  }

  lemma LocationReports(j: Json)
    ensures Reports(LOCATION_SHAPE.fields, j, LocationOf(j))
  {
    if j.Obj? { LocationTypes(j.members); }
    LocationDescribed();
    hide Typed, AbsentNames, LocationIn, LocationTyped, Describes, Reports;
    ReportsFrom(LOCATION_SHAPE.fields, LOCATION, j, LocationOf(j));
  }

  lemma ReactionsReports(j: Json)
    ensures Reports(REACTIONS_SHAPE.fields, j, EventReactionsOf(j))
  {
    if j.Obj? { ReactionsTypes(j.members); }
    ReactionsDescribed();
    hide Typed, AbsentNames, EventReactionsIn, EventReactionsTyped, Describes, Reports;
    ReportsFrom(REACTIONS_SHAPE.fields, REACTIONS, j, EventReactionsOf(j));
  }

  lemma ReviewsReports(j: Json)
    ensures Reports(REVIEWS_SHAPE.fields, j, EventReviewsOf(j))
  {
    if j.Obj? { ReviewsTypes(j.members); }
    ReviewsDescribed();
    hide Typed, AbsentNames, EventReviewsIn, EventReviewsTyped, Describes, Reports;
    ReportsFrom(REVIEWS_SHAPE.fields, REVIEWS, j, EventReviewsOf(j));
  }

  /** Which error an event gives, and which names it reports. */
  lemma EventReports(j: Json)
    ensures Reports(EVENT_SHAPE.fields, j, EventOf(j))
  {
    if j.Obj? { EventTypes(j.members); }
    EventDescribed();
    hide Typed, AbsentNames, EventIn, EventTyped, Describes, Reports;
    ReportsFrom(EVENT_SHAPE.fields, EVENT, j, EventOf(j));
  }

  lemma ResponseReports(j: Json)
    ensures Reports(RESPONSE_SHAPE.fields, j, ResponseOf(j))
  {
    if j.Obj? { ResponseTypes(j.members); }
    ResponseDescribed();
    hide Typed, AbsentNames, ResponseIn, ResponseTyped, Describes, Reports;
    ReportsFrom(RESPONSE_SHAPE.fields, RESPONSE, j, ResponseOf(j));
  }

  lemma ReviewReports(j: Json)
    ensures Reports(REVIEW_SHAPE.fields, j, ReviewOf(j))
  {
    if j.Obj? { ReviewTypes(j.members); }
    ReviewDescribed();
    hide Typed, AbsentNames, ReviewIn, ReviewTyped, Describes, Reports;
    ReportsFrom(REVIEW_SHAPE.fields, REVIEW, j, ReviewOf(j));
  }

  // ---- Which key carries which field ----------------------------------------------------

  lemma {:induction false} GetIn(ms: seq<Member>, key: string)
    ensures Has(ms, key) ==> Member(key, Get(ms, key).value) in ms
    decreases |ms|
  {
    if ms != [] && ms[|ms| - 1].key != key {
      GetIn(ms[..|ms| - 1], key);
    }
  }

  /** An optional scalar is set exactly when its key is there, and then holds its value. */
  ghost predicate Carries(value: Option<Json>, isSet: bool, written: Json, plain: bool) {
    (isSet <==> value.Some?) && (if isSet then value == Some(written) else plain)
  }

  lemma LocationKeys(j: Json, v: LocationInfo)
    requires LocationOf(j) == Good(v)
    ensures j.Obj? && Get(j.members, "address") == Some(Str(v.address))
    ensures Carries(Get(j.members, "city"), v.city.isSet, Str(v.city.value), v.city.value == "")
  {
    LocationDecodes(j);
    GetIn(j.members, "address");
    GetIn(j.members, "city");
    RequiredThere(LOCATION_SHAPE.fields, j, 0);
    assert LocationIn(j.members) == v;
    hide Conforms, Get, AbsentNames;
  }

  lemma RequiredThere(fields: seq<Known>, j: Json, k: nat)
    requires Conforms(Record(fields), j) && k < |fields| && fields[k].required
    ensures Has(j.members, fields[k].key)
  {
    assert fields[k] in fields;
  }

  lemma ReactionsKeys(j: Json, v: EventReactions)
    requires EventReactionsOf(j) == Good(v)
    ensures j.Obj? && Get(j.members, "likes") == Some(Int(v.likes))
    ensures Get(j.members, "dislikes") == Some(Int(v.dislikes))
  {
    ReactionsDecode(j);
    GetIn(j.members, "likes");
    GetIn(j.members, "dislikes");
    RequiredThere(REACTIONS_SHAPE.fields, j, 0);
    RequiredThere(REACTIONS_SHAPE.fields, j, 1);
    assert EventReactionsIn(j.members) == v;
    hide Conforms, Get, AbsentNames;
  }

  lemma ReviewsKeys(j: Json, v: EventReviews)
    requires EventReviewsOf(j) == Good(v)
    ensures j.Obj? && Get(j.members, "count") == Some(Int(v.count))
    ensures Has(j.members, "rating")
    ensures IsNumber(Get(j.members, "rating").value) && NumberOf(Get(j.members, "rating").value) == v.rating
  {
    ReviewsDecode(j);
    GetIn(j.members, "count");
    GetIn(j.members, "rating");
    RequiredThere(REVIEWS_SHAPE.fields, j, 0);
    RequiredThere(REVIEWS_SHAPE.fields, j, 1);
    assert EventReviewsIn(j.members) == v;
    hide Conforms, Get, AbsentNames;
  }

  /** Each field of a decoded event is what stands under its own key. */
  lemma EventKeys(j: Json, v: EventData)
    requires EventOf(j) == Good(v)
    ensures j.Obj?
    ensures var ms := j.members;
            && Get(ms, "id") == Some(Str(v.id)) && Get(ms, "title") == Some(Str(v.title))
            && Get(ms, "started_at") == Some(Str(v.startedAt)) && Get(ms, "finished_at") == Some(Str(v.finishedAt))
            && Get(ms, "created_at") == Some(Str(v.createdAt)) && Get(ms, "created_by") == Some(Str(v.createdBy))
            && Carries(Get(ms, "category"), v.category.isSet, Str(v.category.value), v.category.value == "")
            && Carries(Get(ms, "description"), v.description.isSet, Str(v.description.value), v.description.value == "")
            && Carries(Get(ms, "price"), v.price.isSet, Int(v.price.value), v.price.value == 0)
  {
    var ms := j.members;
    EventDecodes(j);
    EventShapes();
    hide Conforms, Get, AbsentNames, LocationAt, LocationOf, EventReactionsOf, EventReviewsOf, Complete, Typed;
    EventScalarTyped(ms, "id");
    EventScalarTyped(ms, "title");
    EventScalarTyped(ms, "category");
    EventScalarTyped(ms, "price");
    EventScalarTyped(ms, "description");
    EventScalarTyped(ms, "started_at");
    EventScalarTyped(ms, "finished_at");
    EventScalarTyped(ms, "created_at");
    EventScalarTyped(ms, "created_by");
    RequiredThere(EVENT_SHAPE.fields, j, 0);
    RequiredThere(EVENT_SHAPE.fields, j, 1);
    RequiredThere(EVENT_SHAPE.fields, j, 6);
    RequiredThere(EVENT_SHAPE.fields, j, 7);
    RequiredThere(EVENT_SHAPE.fields, j, 8);
    RequiredThere(EVENT_SHAPE.fields, j, 9);
    assert EventIn(ms) == v;
  }

  lemma EventScalarTyped(ms: seq<Member>, key: string)
    requires forall m :: m in ms ==> EventTyped(m)
    ensures Has(ms, key) ==> EventTyped(Member(key, Get(ms, key).value))
  {
    hide EventTyped, Get;
    GetIn(ms, key);
  }

  /** The nested objects of a decoded event are what their keys decode to. */
  lemma EventNestedKeys(j: Json, v: EventData)
    requires EventOf(j) == Good(v)
    ensures j.Obj? && Has(j.members, "location") && LocationOf(Get(j.members, "location").value).Good?
    ensures v.location.address == LocationOf(Get(j.members, "location").value).value.address
    ensures v.reactions.isSet <==> Has(j.members, "reactions")
    ensures v.reactions.isSet ==> EventReactionsOf(Get(j.members, "reactions").value) == Good(v.reactions.value)
    ensures v.reviews.isSet <==> Has(j.members, "reviews")
    ensures v.reviews.isSet ==> EventReviewsOf(Get(j.members, "reviews").value) == Good(v.reviews.value)
  {
    var ms := j.members;
    EventDecodes(j);
    EventShapes();
    hide Conforms, Get, AbsentNames, LocationAt, LocationOf, EventReactionsOf, EventReviewsOf, Complete, Typed;
    EventScalarTyped(ms, "location");
    EventScalarTyped(ms, "reactions");
    EventScalarTyped(ms, "reviews");
    RequiredThere(EVENT_SHAPE.fields, j, 5);
    CityKept(ms);
    assert LastLocation(ms, LocationOf(Get(ms, "location").value).value);
    assert EventIn(ms) == v;
  }

  /** The events of a decoded response are its array, element by element, and the count is under its key. */
  lemma ResponseKeys(j: Json, v: GetEventsResponse)
    requires ResponseOf(j) == Good(v)
    ensures j.Obj? && Has(j.members, "events") && Get(j.members, "events").value.Arr?
    ensures var items := Get(j.members, "events").value.items;
            |items| == |v.events| && forall i :: 0 <= i < |items| ==> EventOf(items[i]) == Good(v.events[i])
    ensures Get(j.members, "count") == Some(Int(v.count))
  {
    ResponseDecodes(j);
    hide Conforms, Get, AbsentNames, EventOf, EVENT_SHAPE;
    GetIn(j.members, "events");
    GetIn(j.members, "count");
    RequiredThere(RESPONSE_SHAPE.fields, j, 0);
    RequiredThere(RESPONSE_SHAPE.fields, j, 1);
    assert ResponseIn(j.members) == v;
    var items := Get(j.members, "events").value.items;
    forall i | 0 <= i < |items| ensures EventOf(items[i]) == Good(v.events[i]) { assert items[i] in items; }
  }

  lemma ReviewKeys(j: Json, v: ReviewData)
    requires ReviewOf(j) == Good(v)
    ensures j.Obj?
    ensures var ms := j.members;
            && Get(ms, "id") == Some(Str(v.id)) && Get(ms, "event_id") == Some(Str(v.eventId))
            && Get(ms, "comment") == Some(Str(v.comment)) && Get(ms, "created_at") == Some(Str(v.createdAt))
            && Get(ms, "created_by") == Some(Str(v.createdBy)) && Get(ms, "rating") == Some(Int(v.rating))
            && Get(ms, "updated_at") == Some(Str(v.updatedAt))
  {
    var ms := j.members;
    ReviewDecodes(j);
    ReviewShapes();
    hide Conforms, Get, AbsentNames;
    GetIn(ms, "id");
    GetIn(ms, "event_id");
    GetIn(ms, "comment");
    GetIn(ms, "created_at");
    GetIn(ms, "created_by");
    GetIn(ms, "rating");
    GetIn(ms, "updated_at");
    var fs := REVIEW_SHAPE.fields;
    RequiredThere(fs, j, 0);
    RequiredThere(fs, j, 1);
    RequiredThere(fs, j, 2);
    RequiredThere(fs, j, 3);
    RequiredThere(fs, j, 4);
    RequiredThere(fs, j, 5);
    RequiredThere(fs, j, 6);
    assert ReviewIn(ms) == v;
  }
}
