/**
 * The check every generated decoder ends with: which required fields were never seen. The decoder
 * keeps one bit per field; the check walks the missing bits with a popcount and trailing zeros.
 */
module RequiredFields {
  import opened Text

  function Mask(k: nat): (m: bv8)
    requires k < 8
  {
    if k == 0 then 1 else if k == 1 then 2 else if k == 2 then 4 else if k == 3 then 8
    else if k == 4 then 16 else if k == 5 then 32 else if k == 6 then 64 else 128
  }

  predicate Bit(x: bv8, k: nat)
    requires k < 8
  {
    x & Mask(k) != 0
  }

  function One(x: bv8, k: nat): nat
    requires k < 8
  {
    if Bit(x, k) then 1 else 0
  }

  /** bits.OnesCount8 */
  function OnesCount8(x: bv8): nat {
    One(x, 0) + One(x, 1) + One(x, 2) + One(x, 3) + One(x, 4) + One(x, 5) + One(x, 6) + One(x, 7)
  }

  /** bits.TrailingZeros8; asked only of a value with a bit set. */
  function TrailingZeros8(x: bv8): (k: nat)
    requires x != 0
    ensures k < 8 && Bit(x, k) && forall j :: 0 <= j < k ==> !Bit(x, j)
  {
    if Bit(x, 0) then 0 else if Bit(x, 1) then 1 else if Bit(x, 2) then 2 else if Bit(x, 3) then 3
    else if Bit(x, 4) then 4 else if Bit(x, 5) then 5 else if Bit(x, 6) then 6 else 7
  }

  lemma SetBit(x: bv8, k: nat, j: nat)
    requires k < 8 && j < 8
    ensures Bit(x | Mask(k), j) <==> Bit(x, j) || j == k
  {
  }

  lemma ClearBit(x: bv8, k: nat, j: nat)
    requires k < 8 && j < 8
    ensures Bit(x & !Mask(k), j) <==> Bit(x, j) && j != k
  {
  }

  lemma MissingBits(seen: bv8, mask: bv8, j: nat)
    requires j < 8
    ensures Bit((seen & mask) ^ mask, j) <==> Bit(mask, j) && !Bit(seen, j)
  {
  }

  lemma ClearCounts(x: bv8, k: nat)
    requires k < 8 && Bit(x, k)
    ensures OnesCount8(x & !Mask(k)) == OnesCount8(x) - 1
  {
    forall j | 0 <= j < 8 ensures One(x & !Mask(k), j) == One(x, j) - (if j == k then 1 else 0) {
      ClearBit(x, k, j);
    }
  }

  lemma CountZero(x: bv8)
    ensures OnesCount8(x) == 0 <==> x == 0
    ensures x == 0 ==> forall j :: 0 <= j < 8 ==> !Bit(x, j)
  {
  }

  // ---- The plain specification ----------------------------------------------------------

  /** Bit `k` of a byte string, byte by byte from the low end. */
  predicate BitAt(bytes: seq<bv8>, k: nat)
    requires k < 8 * |bytes|
  {
    Bit(bytes[k / 8], k % 8)
  }

  /** Required and unseen. */
  predicate Lacks(seen: seq<bv8>, masks: seq<bv8>, k: nat)
    requires |seen| == |masks| && k < 8 * |masks|
  {
    BitAt(masks, k) && !BitAt(seen, k)
  }

  /** Fields below `n` that are required and unseen, in index order. */
  function MissingBelow(seen: seq<bv8>, masks: seq<bv8>, n: nat): seq<nat>
    requires |seen| == |masks| && n <= 8 * |masks|
  {
    if n == 0 then []
    else MissingBelow(seen, masks, n - 1) + (if Lacks(seen, masks, n - 1) then [n - 1] else [])
  }

  /** Exactly the required-but-unseen fields, each once, in index order. */
  lemma {:induction false} MissingBelowIsExact(seen: seq<bv8>, masks: seq<bv8>, n: nat)
    requires |seen| == |masks| && n <= 8 * |masks|
    ensures forall k: nat :: k in MissingBelow(seen, masks, n) <==> k < n && Lacks(seen, masks, k)
    ensures forall i, j :: 0 <= i < j < |MissingBelow(seen, masks, n)| ==>
      MissingBelow(seen, masks, n)[i] < MissingBelow(seen, masks, n)[j]
  {
    if n > 0 {
      MissingBelowIsExact(seen, masks, n - 1);
      hide Lacks;
      var before := MissingBelow(seen, masks, n - 1);
      forall i | 0 <= i < |before| ensures before[i] < n - 1 {
        assert before[i] in before;
      }
    }
  }

  lemma {:induction false} SkipSeen(seen: seq<bv8>, masks: seq<bv8>, m: nat, n: nat)
    requires |seen| == |masks| && m <= n <= 8 * |masks|
    requires forall k :: m <= k < n ==> !Lacks(seen, masks, k)
    ensures MissingBelow(seen, masks, n) == MissingBelow(seen, masks, m)
    decreases n - m
  {
    if m < n {
      SkipSeen(seen, masks, m, n - 1);
    }
  }

  function NameOf(names: seq<string>, k: nat): string {
    if k < |names| then names[k] else Decimal(k)
  }

  function NamesOf(names: seq<string>, ks: seq<nat>): seq<string> {
    seq(|ks|, i requires 0 <= i < |ks| => NameOf(names, ks[i]))
  }

  // ---- The loop -------------------------------------------------------------------------

  /** What is left to report of byte `i`: its missing bits from `p` on. */
  ghost predicate LeftFrom(result: bv8, seen: seq<bv8>, masks: seq<bv8>, i: nat, p: nat)
    requires |seen| == |masks| && i < |masks|
  {
    forall j :: 0 <= j < 8 ==> (Bit(result, j) <==> j >= p && Lacks(seen, masks, 8 * i + j))
  }

  method CheckRequired(seen: seq<bv8>, masks: seq<bv8>, names: seq<string>) returns (failures: seq<string>)
    requires |seen| == |masks|
    ensures failures == NamesOf(names, MissingBelow(seen, masks, 8 * |masks|))
  {
    hide Bit, Lacks, OnesCount8, LeftFrom;
    failures := [];
    for i := 0 to |masks|
      invariant failures == NamesOf(names, MissingBelow(seen, masks, 8 * i))
    {
      var result := (seen[i] & masks[i]) ^ masks[i];
      ghost var p := 0;
      StartByte(seen, masks, i);
      if result != 0 {
        var missed := OnesCount8(result);
        for bitN := 0 to missed
          invariant OnesCount8(result) == missed - bitN
          invariant 0 <= p <= 8
          invariant failures == NamesOf(names, MissingBelow(seen, masks, 8 * i + p))
          invariant LeftFrom(result, seen, masks, i, p)
        {
          CountZero(result);
          var bitIdx := TrailingZeros8(result);
          var fieldIdx := i * 8 + bitIdx;
          Advance(result, seen, masks, names, i, p, bitIdx);
          failures := failures + [NameOf(names, fieldIdx)];
          result := result & !Mask(bitIdx);
          p := bitIdx + 1;
        }
      }
      CountZero(result);
      Rest(result, seen, masks, i, p);
    }
  }

  lemma StartByte(seen: seq<bv8>, masks: seq<bv8>, i: nat)
    requires |seen| == |masks| && i < |masks|
    ensures LeftFrom((seen[i] & masks[i]) ^ masks[i], seen, masks, i, 0)
  {
    var x := (seen[i] & masks[i]) ^ masks[i];
    forall j | 0 <= j < 8 ensures Bit(x, j) <==> Lacks(seen, masks, 8 * i + j) {
      MissingBits(seen[i], masks[i], j);
      assert (8 * i + j) / 8 == i && (8 * i + j) % 8 == j;
    }
  }

  /** Reporting the lowest set bit moves the frontier just past it. */
  lemma Advance(result: bv8, seen: seq<bv8>, masks: seq<bv8>, names: seq<string>, i: nat, p: nat, k: nat)
    requires |seen| == |masks| && i < |masks| && p <= 8
    requires LeftFrom(result, seen, masks, i, p) && result != 0 && k == TrailingZeros8(result)
    ensures p <= k < 8
    ensures LeftFrom(result & !Mask(k), seen, masks, i, k + 1)
    ensures OnesCount8(result & !Mask(k)) == OnesCount8(result) - 1
    ensures NamesOf(names, MissingBelow(seen, masks, 8 * i + k + 1)) ==
            NamesOf(names, MissingBelow(seen, masks, 8 * i + p)) + [NameOf(names, 8 * i + k)]
  {
    hide Lacks, OnesCount8, Bit, Mask, LeftFrom;
    ClearCounts(result, k);
    ClearLowest(result, seen, masks, i, p, k);
    NoneBetween(result, seen, masks, i, p, k);
    SkipSeen(seen, masks, 8 * i + p, 8 * i + k);
  }

  lemma ClearLowest(result: bv8, seen: seq<bv8>, masks: seq<bv8>, i: nat, p: nat, k: nat)
    requires |seen| == |masks| && i < |masks| && k < 8
    requires LeftFrom(result, seen, masks, i, p) && Bit(result, k) && forall j :: 0 <= j < k ==> !Bit(result, j)
    ensures LeftFrom(result & !Mask(k), seen, masks, i, k + 1)
  {
    hide Lacks, Mask, Bit;
    var y := result & !Mask(k);
    forall j | 0 <= j < 8 ensures Bit(y, j) <==> Bit(result, j) && j != k {
      ClearBit(result, k, j);
    }
  }

  lemma NoneBetween(result: bv8, seen: seq<bv8>, masks: seq<bv8>, i: nat, p: nat, k: nat)
    requires |seen| == |masks| && i < |masks| && k < 8
    requires LeftFrom(result, seen, masks, i, p) && Bit(result, k) && forall j :: 0 <= j < k ==> !Bit(result, j)
    ensures p <= k && Lacks(seen, masks, 8 * i + k)
    ensures forall m :: 8 * i + p <= m < 8 * i + k ==> !Lacks(seen, masks, m)
  {
    hide Lacks, Bit;
    forall m | 8 * i + p <= m < 8 * i + k ensures !Lacks(seen, masks, m) {
      assert !Bit(result, m - 8 * i);
      assert m == 8 * i + (m - 8 * i);
    }
  }

  lemma Rest(result: bv8, seen: seq<bv8>, masks: seq<bv8>, i: nat, p: nat)
    requires |seen| == |masks| && i < |masks| && p <= 8
    requires LeftFrom(result, seen, masks, i, p) && result == 0
    ensures MissingBelow(seen, masks, 8 * (i + 1)) == MissingBelow(seen, masks, 8 * i + p)
  {
    CountZero(result);
    hide Lacks;
    forall m | 8 * i + p <= m < 8 * (i + 1) ensures !Lacks(seen, masks, m) {
      assert !Bit(result, m - 8 * i);
      assert m == 8 * i + (m - 8 * i);
    }
    SkipSeen(seen, masks, 8 * i + p, 8 * (i + 1));
  }
}
