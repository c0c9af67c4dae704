/** The event documents. */
module EventStore {
  import opened Backend
  import opened Text
  import opened TitleCache

  datatype Lookup = Found(id: Id, doc: Doc) | Missing | Broken

  datatype Status = Ok | NotFound | Forbidden | AlreadyExists | Internal

  /** A patch names the fields to change; an empty city removes the field. */
  datatype Patch = Patch(category: Option<string>, city: Option<string>, price: Option<int>)

  function Patched(doc: Doc, p: Patch): Doc {
    doc.(category := if p.category.Some? then p.category else doc.category,
         price := if p.price.Some? then p.price else doc.price,
         city := if p.city.None? then doc.city else if p.city.value == "" then None else p.city)
  }

  function Find(docs: map<Id, Doc>, req: string, ok: bool): Lookup {
    if !ok then Broken
    else match Resolve(docs, req)
      case None => Missing
      case Some(id) => Found(id, docs[id])
  }

  /** A stored id names the event of a request if it is the request, or the canonical form of its hex digits. */
  predicate Spells(req: string, id: Id) {
    id == req || (IsObjectIdHex(req) && id == Canonical(req))
  }

  /** A lookup that succeeds finds the one stored event the request spells, and misses only if there is none. */
  lemma FindExactly(docs: map<Id, Doc>, req: string, ok: bool)
    requires forall id :: id in docs ==> IsCanonical(id)
    ensures forall id :: id in docs && Spells(req, id) ==>
      Find(docs, req, ok) == if ok then Found(id, docs[id]) else Broken
    ensures Find(docs, req, ok) == Missing <==> ok && forall id :: id in docs ==> !Spells(req, id)
    ensures forall id, id' :: id in docs && id' in docs && Spells(req, id) && Spells(req, id') ==> id == id'
  {
  }

  class EventStore {
    var docs: map<Id, Doc>

    constructor ()
      ensures docs == map[]
    {
      docs := map[];
    }

    /** InsertOne; the database supplies the fresh id. */
    method Create(id: Id, doc: Doc, w: Write) returns (ok: bool)
      modifies this
      ensures ok <==> w.Acked?
      ensures docs == if w.Lost? then old(docs) else old(docs)[id := doc]
    {
      if !w.Lost? {
        docs := docs[id := doc];
      }
      ok := w.Acked?;
    }

    method GetEvent(req: string, ok: bool) returns (r: Lookup)
      ensures r == Find(docs, req, ok)
    {
      r := Find(docs, req, ok);
    }

    /** The driver returns the documents in no particular order. */
    method GetEventsByTitle(title: Title, ok: bool) returns (r: Option<seq<Id>>)
      ensures r.Some? <==> ok
      ensures ok ==> IsListing(r.value, EventsOf(docs, title))
    {
      if !ok { return None; }
      var todo, ids := docs.Keys, [];
      while todo != {}
        invariant todo <= docs.Keys
        invariant forall e :: e in ids <==> e in docs && e !in todo && docs[e].title == title
        invariant forall i, j :: 0 <= i < j < |ids| ==> ids[i] != ids[j]
        decreases todo
      {
        var e :| e in todo;
        if docs[e].title == title {
          ids := ids + [e];
        }
        todo := todo - {e};
      }
      return Some(ids);
    }

    method PatchEvent(req: string, caller: User, p: Patch, ok: bool, w: Write) returns (s: Status)
      modifies this
      ensures s == PatchStatus(old(docs), req, caller, p, ok, w)
      ensures docs == match PatchTarget(old(docs), req, caller, p, w)
                      case None => old(docs)
                      case Some(id) => old(docs)[id := Patched(old(docs)[id], p)]
    {
      var found := Resolve(docs, req);
      var matched := found.Some? && docs[found.value].owner == caller;
      if p == Patch(None, None, None) {
        if !ok { return Internal; }
        return if matched then Ok else NotFound;
      }
      if w.Lost? { return Internal; }
      if matched {
        docs := docs[found.value := Patched(docs[found.value], p)];
      }
      if w.Unacked? { return Internal; }
      s := if matched then Ok else NotFound;
    }
  }

  /** The document a patch changes: the one found, if the caller owns it and any field is named. */
  function PatchTarget(docs: map<Id, Doc>, req: string, caller: User, p: Patch, w: Write): (r: Option<Id>)
    ensures r.Some? ==> r.value in docs && docs[r.value].owner == caller
  {
    var found := Resolve(docs, req);
    if p != Patch(None, None, None) && !w.Lost? && found.Some? && docs[found.value].owner == caller
    then found else None
  }

  function PatchStatus(docs: map<Id, Doc>, req: string, caller: User, p: Patch, ok: bool, w: Write): Status {
    var found := Resolve(docs, req);
    if (if p == Patch(None, None, None) then !ok else !w.Acked?) then Internal
    else if found.Some? && docs[found.value].owner == caller then Ok
    else NotFound
  }

  /** What a patch leaves: named fields replaced, an empty city removed, everything else as it was. */
  lemma PatchedExactly(doc: Doc, p: Patch)
    ensures var r := Patched(doc, p);
            && r.(category := doc.category, price := doc.price, city := doc.city) == doc
            && (p.category.Some? ==> r.category == p.category) && (p.category.None? ==> r.category == doc.category)
            && (p.price.Some? ==> r.price == p.price) && (p.price.None? ==> r.price == doc.price)
            && (p.city == Some("") ==> r.city == None) && (p.city.None? ==> r.city == doc.city)
            && (p.city.Some? && p.city != Some("") ==> r.city == p.city)
  {
  }

  /**
   * A patch writes the event the request spells, if the caller owns it, a field is named and the write
   * takes effect; it is answered Ok or NotFound by that ownership whenever its one backend call succeeds.
   */
  lemma PatchExactly(docs: map<Id, Doc>, req: string, caller: User, p: Patch, ok: bool, w: Write)
    requires forall id :: id in docs ==> IsCanonical(id)
    ensures var named := p.category.Some? || p.city.Some? || p.price.Some?;
            var answered := if named then w.Acked? else ok;
            var s := PatchStatus(docs, req, caller, p, ok, w);
            && (s == Ok || s == NotFound || s == Internal)
            && (s == Internal <==> !answered)
            && (s == Ok <==> answered && exists id :: id in docs && Spells(req, id) && docs[id].owner == caller)
            && (forall id :: PatchTarget(docs, req, caller, p, w) == Some(id) <==>
                  named && !w.Lost? && id in docs && Spells(req, id) && docs[id].owner == caller)
  {
    FindExactly(docs, req, true);
    hide Canonical;
    if Resolve(docs, req).Some? { assert Spells(req, Resolve(docs, req).value); }
  }

  /** A patch never moves an event to another title. */
  lemma PatchKeepsTitles(docs: map<Id, Doc>, id: Id, p: Patch, title: Title)
    requires id in docs
    ensures EventsOf(docs[id := Patched(docs[id], p)], title) == EventsOf(docs, title)
  {
  }
}
