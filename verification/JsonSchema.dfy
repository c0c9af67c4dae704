/** Required keys of an object against the bits a decoder has set. */
module JsonSchema {
  import opened Json
  import opened RequiredFields

  /** A decode result; a missing-field error names the fields. */
  datatype Decoded<+T> = Good(value: T) | Malformed | Missing(names: seq<string>)

  /** Field names in index order and the mask of the required ones. */
  datatype Schema = Schema(names: seq<string>, masks: seq<bv8>)

  predicate Required(c: Schema, k: nat)
    requires k < 8 * |c.masks|
  {
    BitAt(c.masks, k)
  }

  predicate Absent(ms: seq<Member>, c: Schema, k: nat)
    requires k < 8 * |c.masks|
  {
    Required(c, k) && (k < |c.names| ==> !Has(ms, c.names[k]))
  }

  /** Required fields below `n` whose key the object lacks, in index order. */
  function AbsentBelow(ms: seq<Member>, c: Schema, n: nat): seq<nat>
    requires n <= 8 * |c.masks|
  {
    if n == 0 then [] else AbsentBelow(ms, c, n - 1) + (if Absent(ms, c, n - 1) then [n - 1] else [])
  }

  /** The names a decoder must report for the object. */
  function AbsentNames(ms: seq<Member>, c: Schema): seq<string> {
    NamesOf(c.names, AbsentBelow(ms, c, 8 * |c.masks|))
  }

  /** Nothing is reported exactly when every required key is there. */
  lemma {:induction false} AbsentBelowEmpty(ms: seq<Member>, c: Schema, n: nat)
    requires n <= 8 * |c.masks|
    ensures AbsentBelow(ms, c, n) == [] <==> forall k: nat :: k < n ==> !Absent(ms, c, k)
  {
    hide Absent;
    if n > 0 {
      AbsentBelowEmpty(ms, c, n - 1);
    }
  }

  // ---- The decoder's bits ---------------------------------------------------------------

  function Mark(seen: seq<bv8>, k: nat): (r: seq<bv8>)
    requires k < 8 * |seen|
    ensures |r| == |seen|
  {
    seen[k / 8 := seen[k / 8] | Mask(k % 8)]
  }

  /** Every required bit says whether its key has been met. */
  ghost predicate Agrees(seen: seq<bv8>, c: Schema, ms: seq<Member>) {
    && |seen| == |c.masks|
    && forall k: nat :: k < 8 * |seen| && Required(c, k) ==> k < |c.names| && (BitAt(seen, k) <==> Has(ms, c.names[k]))
  }

  lemma MarkSets(seen: seq<bv8>, k: nat, j: nat)
    requires k < 8 * |seen| && j < 8 * |seen|
    ensures BitAt(Mark(seen, k), j) <==> BitAt(seen, j) || j == k
  {
    if j / 8 == k / 8 {
      SetBit(seen[k / 8], k % 8, j % 8);
      assert j == 8 * (j / 8) + j % 8 && k == 8 * (k / 8) + k % 8;
    }
  }

  /** Meeting a required key and marking its bit. */
  lemma AgreesMark(seen: seq<bv8>, c: Schema, ms: seq<Member>, m: Member, k: nat)
    requires Agrees(seen, c, ms) && k < 8 * |seen| && k < |c.names| && c.names[k] == m.key
    requires forall j: nat :: j < 8 * |seen| && j < |c.names| && Required(c, j) && c.names[j] == m.key ==> j == k
    ensures Agrees(Mark(seen, k), c, ms + [m])
  {
    hide Mark, BitAt, Has;
    forall j: nat | j < 8 * |seen| && Required(c, j)
      ensures j < |c.names| && (BitAt(Mark(seen, k), j) <==> Has(ms + [m], c.names[j]))
    {
      MarkSets(seen, k, j);
      HasSnoc(ms, m, c.names[j]);
    }
  }

  lemma HasSnoc(ms: seq<Member>, m: Member, key: string)
    ensures Has(ms + [m], key) <==> m.key == key || Has(ms, key)
  {
    GetSnoc(ms, m, key);
  }

  /** Meeting an optional or unknown key leaves the bits. */
  lemma AgreesSkip(seen: seq<bv8>, c: Schema, ms: seq<Member>, m: Member)
    requires Agrees(seen, c, ms)
    requires forall j: nat :: j < 8 * |seen| && j < |c.names| && Required(c, j) ==> c.names[j] != m.key
    ensures Agrees(seen, c, ms + [m])
  {
    hide BitAt, Has;
    forall j: nat | j < 8 * |seen| && Required(c, j)
      ensures j < |c.names| && (BitAt(seen, j) <==> Has(ms + [m], c.names[j]))
    {
      HasSnoc(ms, m, c.names[j]);
    }
  }

  lemma {:induction false} AgreesMissing(seen: seq<bv8>, c: Schema, ms: seq<Member>, n: nat)
    requires Agrees(seen, c, ms) && n <= 8 * |c.masks|
    ensures MissingBelow(seen, c.masks, n) == AbsentBelow(ms, c, n)
  {
    if n > 0 {
      AgreesMissing(seen, c, ms, n - 1);
    }
  }

  lemma ZeroBits(k: nat)
    requires k < 8
    ensures !Bit(0, k)
  {
  }

  /** No bit is set before the first key. */
  lemma AgreesStart(c: Schema)
    requires forall k: nat :: k < 8 * |c.masks| && Required(c, k) ==> k < |c.names|
    ensures Agrees(seq(|c.masks|, i => 0 as bv8), c, [])
  {
    var zero := seq(|c.masks|, i => 0 as bv8);
    forall k: nat | k < 8 * |zero| ensures !BitAt(zero, k) {
      ZeroBits(k % 8);
    }
  }

  lemma NextMember(ms: seq<Member>, i: nat)
    requires i < |ms|
    ensures ms[..i + 1] == ms[..i] + [ms[i]]
  {
  }
}
