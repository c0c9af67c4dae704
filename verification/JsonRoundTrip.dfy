/** What the decoders make of what the encoders write, and of any other layout of the same members. */
module JsonRoundTrip {
  import opened Text
  import opened Json
  import opened JsonSchema
  import opened JsonCodec

  // ---- Values as a decoder can produce them ---------------------------------------------

  /** An unset optional carries nothing. */
  function Normal<T>(o: Opt<T>, zero: T): Opt<T> { if o.isSet then o else Opt(zero, false) }

  function NormalLocation(v: LocationInfo): LocationInfo { v.(city := Normal(v.city, "")) }

  function NormalEvent(v: EventData): EventData {
    v.(category := Normal(v.category, ""), price := Normal(v.price, 0), description := Normal(v.description, ""),
       location := NormalLocation(v.location),
       reactions := Normal(v.reactions, NO_REACTIONS), reviews := Normal(v.reviews, NO_REVIEWS))
  }

  function NormalEvents(es: seq<EventData>): seq<EventData> {
    seq(|es|, i requires 0 <= i < |es| => NormalEvent(es[i]))
  }

  // ---- Objects written field by field ---------------------------------------------------

  /** Every required field is written, under the schema's name for it. */
  ghost predicate Writes(fs: seq<Field>, c: Schema) {
    forall k: nat :: k < 8 * |c.masks| && Required(c, k) ==>
      k < |c.names| && k < |fs| && fs[k].key == c.names[k] && fs[k].value.Some?
  }

  lemma NothingAbsent(fs: seq<Field>, c: Schema)
    requires DistinctFields(fs) && Writes(fs, c)
    ensures AbsentNames(Present(fs), c) == []
  {
    forall k: nat | k < 8 * |c.masks| ensures !Absent(Present(fs), c, k) {
      if Required(c, k) { GetPresent(fs, k); }
    }
    AbsentBelowEmpty(Present(fs), c, 8 * |c.masks|);
  }

  /** A member of a written object is one of its set fields. */
  lemma MemberIsField(fs: seq<Field>, m: Member) returns (i: nat)
    requires m in Present(fs)
    ensures i < |fs| && fs[i] == Field(m.key, Some(m.value))
  {
    PresentMembers(fs);
    i :| 0 <= i < |fs| && fs[i] == Field(m.key, Some(m.value));
  }

  lemma WrittenUnique(fs: seq<Field>)
    requires DistinctFields(fs)
    requires forall i :: 0 <= i < |fs| && fs[i].value.Some? ==> UniqueDeep(fs[i].value.value)
    ensures UniqueDeep(Obj(Present(fs)))
  {
    PresentUnique(fs);
    forall m | m in Present(fs) ensures UniqueDeep(m.value) {
      var i := MemberIsField(fs, m);
    }
  }

  lemma LocationRoundTrip(v: LocationInfo)
    ensures UniqueDeep(Obj(Present(LocationFields(v))))
    ensures LocationOf(Obj(Present(LocationFields(v)))) == Good(NormalLocation(v))
  {
    var fs := LocationFields(v);
    WrittenUnique(fs);
    LocationRequired();
    NothingAbsent(fs, LOCATION);
    GetPresent(fs, 0);
    GetPresent(fs, 1);
    forall m | m in Present(fs) ensures LocationTyped(m) {
      var i := MemberIsField(fs, m);
    }
  }

  lemma ReactionsRoundTrip(v: EventReactions)
    ensures UniqueDeep(Obj(Present(EventReactionsFields(v))))
    ensures EventReactionsOf(Obj(Present(EventReactionsFields(v)))) == Good(v)
  {
    var fs := EventReactionsFields(v);
    WrittenUnique(fs);
    EventReactionsRequired();
    NothingAbsent(fs, REACTIONS);
    GetPresent(fs, 0);
    GetPresent(fs, 1);
    forall m | m in Present(fs) ensures EventReactionsTyped(m) {
      var i := MemberIsField(fs, m);
    }
  }

  lemma ReviewsRoundTrip(v: EventReviews)
    ensures UniqueDeep(Obj(Present(EventReviewsFields(v))))
    ensures EventReviewsOf(Obj(Present(EventReviewsFields(v)))) == Good(v)
  {
    var fs := EventReviewsFields(v);
    WrittenUnique(fs);
    EventReviewsRequired();
    NothingAbsent(fs, REVIEWS);
    GetPresent(fs, 0);
    GetPresent(fs, 1);
    forall m | m in Present(fs) ensures EventReviewsTyped(m) {
      var i := MemberIsField(fs, m);
    }
  }

  lemma EventFieldsDistinct(v: EventData)
    ensures DistinctFields(EventFields(v))
    ensures |EventFields(v)| == |EVENT.names| == 12
    ensures forall i :: 0 <= i < 12 ==> EventFields(v)[i].key == EVENT.names[i]
  {
    hide Present, EventReactionsFields, EventReviewsFields, LocationFields;
  }

  /** Each written field is well typed, and no nested object repeats a key. */
  lemma EventFieldTyped(v: EventData, i: nat)
    requires i < 12
    ensures |EventFields(v)| == 12
    ensures var f := EventFields(v)[i];
            f.value.Some? ==> EventTyped(Member(f.key, f.value.value)) && UniqueDeep(f.value.value)
  {
    LocationRoundTrip(v.location);
    ReactionsRoundTrip(v.reactions.value);
    ReviewsRoundTrip(v.reviews.value);
    hide Present, EventReactionsFields, EventReviewsFields, LocationFields, LocationOf, EventReactionsOf,
      EventReviewsOf;
  }

  /** The written object, key by key. */
  lemma EventGets(v: EventData)
    ensures var fs, ms := EventFields(v), Present(EventFields(v));
            && |fs| == 12
            && Get(ms, "id") == fs[0].value && Get(ms, "title") == fs[1].value
            && Get(ms, "category") == fs[2].value && Get(ms, "price") == fs[3].value
            && Get(ms, "description") == fs[4].value && Get(ms, "location") == fs[5].value
            && Get(ms, "started_at") == fs[6].value && Get(ms, "finished_at") == fs[7].value
            && Get(ms, "created_at") == fs[8].value && Get(ms, "created_by") == fs[9].value
            && Get(ms, "reactions") == fs[10].value && Get(ms, "reviews") == fs[11].value
  {
    EventFieldsDistinct(v);
    GetEach(EventFields(v));
    hide Present, Get, DistinctFields, EventReactionsFields, EventReviewsFields, LocationFields;
  }

  lemma GetEach(fs: seq<Field>)
    requires |fs| == 12 && DistinctFields(fs)
    ensures Get(Present(fs), fs[0].key) == fs[0].value
    ensures Get(Present(fs), fs[1].key) == fs[1].value
    ensures Get(Present(fs), fs[2].key) == fs[2].value
    ensures Get(Present(fs), fs[3].key) == fs[3].value
    ensures Get(Present(fs), fs[4].key) == fs[4].value
    ensures Get(Present(fs), fs[5].key) == fs[5].value
    ensures Get(Present(fs), fs[6].key) == fs[6].value
    ensures Get(Present(fs), fs[7].key) == fs[7].value
    ensures Get(Present(fs), fs[8].key) == fs[8].value
    ensures Get(Present(fs), fs[9].key) == fs[9].value
    ensures Get(Present(fs), fs[10].key) == fs[10].value
    ensures Get(Present(fs), fs[11].key) == fs[11].value
  {
    forall i: nat | i < 12 ensures Get(Present(fs), fs[i].key) == fs[i].value { GetPresent(fs, i); }
    hide Present, Get, DistinctFields;
  }

  lemma EventLocation(v: EventData)
    ensures LocationAt(Present(EventFields(v))) == NormalLocation(v.location)
  {
    EventGets(v);
    EventFieldsDistinct(v);
    PresentUnique(EventFields(v));
    LocationOnce(Present(EventFields(v)));
    LocationRoundTrip(v.location);
    hide Present, LocationFields, LocationOf, Get, UniqueDeep, LocationAt, UniqueKeys, DistinctFields,
      EventReactionsFields, EventReviewsFields;
  }

  lemma EventValues(v: EventData)
    ensures EventIn(Present(EventFields(v))) == NormalEvent(v)
  {
    EventGets(v);
    EventLocation(v);
    ReactionsRoundTrip(v.reactions.value);
    ReviewsRoundTrip(v.reviews.value);
    hide Present, EventReactionsFields, EventReviewsFields, LocationFields, LocationOf, EventReactionsOf,
      EventReviewsOf, Get, UniqueDeep, LocationAt, UniqueKeys, DistinctFields;
  }

  /** Decoding an encoded event gives it back, nested objects and unset optionals included. */
  lemma EventRoundTrip(v: EventData)
    ensures UniqueDeep(EventJson(v))
    ensures EventOf(EventJson(v)) == Good(NormalEvent(v))
  {
    var fs := EventFields(v);
    EventFieldsDistinct(v);
    EventValues(v);
    EventRequired();
    hide EventFields, EventTyped, EventIn;
    forall i | 0 <= i < 12 && fs[i].value.Some?
      ensures EventTyped(Member(fs[i].key, fs[i].value.value)) && UniqueDeep(fs[i].value.value)
    {
      EventFieldTyped(v, i);
    }
    WrittenUnique(fs);
    EventWrites(v);
    NothingAbsent(fs, EVENT);
    forall m | m in Present(fs) ensures EventTyped(m) {
      var i := MemberIsField(fs, m);
      assert m == Member(fs[i].key, fs[i].value.value);
    }
  }

  lemma EventWrites(v: EventData)
    ensures Writes(EventFields(v), EVENT)
  {
    EventRequired();
    EventFieldsDistinct(v);
    hide Present, EventReactionsFields, EventReviewsFields, LocationFields, Required;
  }

  lemma ReviewValues(v: ReviewData)
    ensures ReviewIn(Present(ReviewFields(v))) == v
  {
    var fs := ReviewFields(v);
    ReviewFieldsDistinct(v);
    GetPresent(fs, 0);
    GetPresent(fs, 1);
    GetPresent(fs, 2);
    GetPresent(fs, 3);
    GetPresent(fs, 4);
    GetPresent(fs, 5);
    GetPresent(fs, 6);
    hide Get, Present, DistinctFields;
  }

  lemma ReviewRoundTrip(v: ReviewData)
    ensures UniqueDeep(Obj(Present(ReviewFields(v))))
    ensures ReviewOf(Obj(Present(ReviewFields(v)))) == Good(v)
  {
    hide Get, Present, DistinctFields, AbsentNames, ReviewIn, Writes, UniqueKeys;
    var fs := ReviewFields(v);
    ReviewFieldsDistinct(v);
    ReviewValues(v);
    WrittenUnique(fs);
    NothingAbsent(fs, REVIEW);
    forall m | m in Present(fs) ensures ReviewTyped(m) {
      var i := MemberIsField(fs, m);
    }
  }

  lemma ReviewFieldsDistinct(v: ReviewData)
    ensures DistinctFields(ReviewFields(v)) && Writes(ReviewFields(v), REVIEW)
  {
    ReviewRequired();
  }

  lemma EventsRoundTrip(es: seq<EventData>)
    ensures EventsTyped(Arr(EventJsons(es))) && UniqueDeep(Arr(EventJsons(es)))
    ensures EventsOf(EventJsons(es)) == NormalEvents(es)
  {
    hide EventOf, EventJson, NormalEvent;
    var js := EventJsons(es);
    forall i | 0 <= i < |es| ensures EventOf(js[i]) == Good(NormalEvent(es[i])) && UniqueDeep(js[i]) {
      EventRoundTrip(es[i]);
    }
    forall x | x in js ensures EventOf(x).Good? && UniqueDeep(x) {
      var i :| 0 <= i < |js| && js[i] == x;
    }
  }

  /** The same through a repeated structure: a whole response of events. */
  lemma ResponseRoundTrip(v: GetEventsResponse)
    ensures UniqueDeep(Obj(Present(ResponseFields(v))))
    ensures ResponseOf(Obj(Present(ResponseFields(v)))) == Good(v.(events := NormalEvents(v.events)))
  {
    EventsRoundTrip(v.events);
    var fs := ResponseFields(v);
    hide EventJsons, EventsOf, EventOf, NormalEvents, EventsTyped;
    WrittenUnique(fs);
    ResponseRequired();
    NothingAbsent(fs, RESPONSE);
    GetPresent(fs, 0);
    GetPresent(fs, 1);
    forall m | m in Present(fs) ensures ResponseTyped(m) {
      var i := MemberIsField(fs, m);
    }
  }

  /** Encoder, token stream, parser and decoder together, whatever follows in the stream. */
  method ResponseThroughTokens(v: GetEventsResponse, rest: seq<Token>) returns (back: Decoded<GetEventsResponse>)
    ensures back == Good(v.(events := NormalEvents(v.events)))
  {
    ResponseRoundTrip(v);
    ParseTokens(Obj(Present(ResponseFields(v))), rest);
    hide ResponseOf, Tokens, UniqueDeep, NormalEvents;
    var e := new Encoder();
    EncodeResponse(e, v);
    ghost var j := Obj(Present(ResponseFields(v)));
    assert e.toks == Tokens(j) by { assert [] + Tokens(j) == Tokens(j); }
    var parsed := ParseValue(e.toks + rest);
    back := DecodeResponse(parsed.value.0);
  }
}
