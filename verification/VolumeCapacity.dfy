/**
 Capacity arithmetic of block volumes: the size asked for, rounding up to whole GiB in 64-bit
 arithmetic, provisioning and expansion.
 */
module VolumeCapacity {
  import opened Common

  const GIB: int := 0x4000_0000
  const TWO_63: int := 0x8000_0000_0000_0000
  const MINIMUM_VOLUME_SIZE: int := 50 * GIB
  const DEFAULT_VOLUME_SIZE: int := 50 * GIB
  const MAXIMUM_VOLUME_SIZE: int := 32 * 1024 * GIB

  type Int64 = x: int | -0x8000_0000_0000_0000 <= x < 0x8000_0000_0000_0000

  /** Two's complement wrap-around. */
  function Wrap(x: int): Int64 {
    (x + TWO_63) % (2 * TWO_63) - TWO_63
  }

  lemma WrapFits(x: Int64)
    ensures Wrap(x) == x
  {}

  /** Division truncates toward zero. */
  function Divide(a: int, b: int): int
    requires b > 0
  {
    if a >= 0 then a / b else -((-a) / b)
  }

  datatype Range = Range(required: Int64, limit: Int64)

  function Max(a: int, b: int): int {
    if a < b then b else a
  }

  /** The end of ExtractStorage: the comparisons with the largest supported size and what follows. */
  function ExtractSupported(required: int, limit: int): Option<int> {
    var requiredSet, limitSet := 0 < required, 0 < limit;
    if requiredSet && required > MAXIMUM_VOLUME_SIZE then None
    else if !requiredSet && limitSet && limit > MAXIMUM_VOLUME_SIZE then None
    else if requiredSet && limitSet then Some(Max(required, limit))
    else if requiredSet then Some(required)
    else if limitSet then Some(limit)
    else Some(DEFAULT_VOLUME_SIZE)
  }

  /** ExtractStorage, with all cases in the order of the source; None is an error. */
  function ExtractStorage(range: Option<Range>): Option<int> {
    if range.None? then Some(DEFAULT_VOLUME_SIZE)
    else
      var required: int, limit: int := range.value.required, range.value.limit;
      var requiredSet, limitSet := 0 < required, 0 < limit;
      if !requiredSet && !limitSet then Some(DEFAULT_VOLUME_SIZE)
      else if requiredSet && limitSet && limit < required then None
      else if requiredSet && !limitSet then Some(Max(required, MINIMUM_VOLUME_SIZE))
      else if limitSet then Some(Max(limit, MINIMUM_VOLUME_SIZE))
      else ExtractSupported(required, limit)
  }

  function RoundUpSize(bytes: int, unit: int): int
    requires unit > 0
  {
    Divide(Wrap(Wrap(bytes + unit) - 1), unit)
  }

  // ---------- Rounding ----------

  /** The least number of whole GiB that covers the bytes. */
  predicate LeastCovering(gib: int, bytes: int) {
    (gib - 1) * GIB < bytes <= gib * GIB
  }

  /** Rounding is right exactly as long as adding the unit does not overflow. */
  lemma RoundUpIff(bytes: Int64)
    requires bytes > 0
    ensures LeastCovering(RoundUpSize(bytes, GIB), bytes) <==> bytes <= TWO_63 - GIB
    ensures bytes > TWO_63 - GIB ==> RoundUpSize(bytes, GIB) < 0
  {
    var sum := bytes + GIB - 1;
    if bytes <= TWO_63 - GIB {
      assert Wrap(Wrap(bytes + GIB) - 1) == sum;
      assert sum == sum / GIB * GIB + sum % GIB;
    } else {
      assert Wrap(Wrap(bytes + GIB) - 1) == sum - 2 * TWO_63;
      assert 2 * TWO_63 - sum >= GIB;
    }
  }

  // ---------- The size asked for ----------

  /** The size itself: the limit if it is set, else the requirement, but at least 50 GiB; and 50 GiB
      without bounds. */
  lemma ExtractIs(range: Option<Range>)
    requires ExtractStorage(range).Some?
    ensures var n := ExtractStorage(range).value;
            var bound := if range.None? then 0 else if range.value.limit > 0 then range.value.limit
                         else range.value.required;
            n == if bound > 50 * 1024 * 1024 * 1024 then bound else 50 * 1024 * 1024 * 1024
  {}

  /** An error exactly when both bounds are set and contradict each other. A size never lies below
      the minimum or the requirement, and exceeds a limit exactly when that is below the minimum. */
  lemma ExtractMeans(range: Option<Range>)
    ensures ExtractStorage(range).None? <==> range.Some? && 0 < range.value.limit < range.value.required
    ensures ExtractStorage(range).Some? ==>
              var n := ExtractStorage(range).value;
              && n >= MINIMUM_VOLUME_SIZE
              && (range.Some? ==> range.value.required <= n)
              && (range.Some? && range.value.limit > 0 ==>
                  (n <= range.value.limit <==> range.value.limit >= MINIMUM_VOLUME_SIZE))
  {}

  /** The comparisons with the largest supported size are never reached: for every range, whichever
      bounds it sets and however large they are, the exact condition of an error is a limit below
      the requirement, and otherwise a bound above the largest size is taken as it is. */
  lemma NoMaximum(range: Range)
    ensures ExtractStorage(Some(range)).None? <==> 0 < range.limit < range.required
    ensures range.required > MAXIMUM_VOLUME_SIZE && range.limit <= 0 ==>
            ExtractStorage(Some(range)) == Some(range.required)
    ensures range.limit > MAXIMUM_VOLUME_SIZE && range.required <= range.limit ==>
            ExtractStorage(Some(range)) == Some(range.limit)
  {}

  // ---------- Provisioning ----------

  function ProvisionedSize(bytes: int): int {
    var size, least := RoundUpSize(bytes, GIB), RoundUpSize(MINIMUM_VOLUME_SIZE, GIB);
    if least > size then least else size
  }

  /** A new volume has at least the minimum size; it covers the request, and is the least that does
      both, exactly as long as rounding does not overflow. */
  lemma ProvisionedCoversIff(range: Option<Range>)
    requires ExtractStorage(range).Some?
    ensures var n := ExtractStorage(range).value;
            && ProvisionedSize(n) >= 50
            && (LeastCovering(ProvisionedSize(n), n) <==> n <= TWO_63 - GIB)
            && (n > TWO_63 - GIB ==> ProvisionedSize(n) == 50)
  {
    var n := ExtractStorage(range).value;
    ExtractMeans(range);
    RoundUpIff(n);
    RoundUpIff(MINIMUM_VOLUME_SIZE);
  }

  // ---------- Expansion ----------

  /** How the update and the wait for it go; a failing update may still have been applied. */
  datatype Faults = Faults(updateFails: bool, applied: bool, awaitFails: bool)

  datatype Reply = Expanded(capacity: int) | Refused | Error

  /** ControllerExpandVolume: the size in GiB afterwards, and the reply. */
  function Expand(size: Int64, range: Option<Range>, f: Faults): (int, Reply) {
    var bytes := ExtractStorage(range);
    if bytes.None? then (size, Refused)
    else
      var gib := RoundUpSize(bytes.value, GIB);
      if gib <= size then (size, Expanded(Wrap(size * GIB)))
      else if f.updateFails then (if f.applied then gib else size, Error)
      else if f.awaitFails then (gib, Error)
      else (gib, Expanded(bytes.value))
  }

  /** A volume never shrinks. */
  lemma ExpandNeverShrinks(size: Int64, range: Option<Range>, f: Faults)
    ensures Expand(size, range, f).0 >= size
  {}

  lemma SizeFits(size: int)
    requires 0 <= size < TWO_63 / GIB
    ensures 0 <= size * GIB <= TWO_63 - GIB
  {}

  /** What rounding right or wrong means for a volume that is large enough, and for one that grows. */
  lemma CoversIff(size: int, n: int, gib: int)
    requires 0 <= size * GIB <= TWO_63 - GIB && 0 < n
    requires LeastCovering(gib, n) <==> n <= TWO_63 - GIB
    requires n > TWO_63 - GIB ==> gib < 0
    ensures gib <= size ==> (n <= size * GIB <==> n <= TWO_63 - GIB)
    ensures gib > size ==> n <= gib * GIB && n <= TWO_63 - GIB && LeastCovering(gib, n)
  {}

  /** A successful expansion covers the request, reports a capacity between the request and the
      real size, and allocates no whole GiB too many, exactly as long as rounding does not overflow. */
  lemma ExpandCoversIff(size: Int64, range: Option<Range>, f: Faults)
    requires 0 <= size < TWO_63 / GIB && Expand(size, range, f).1.Expanded?
    ensures var n := ExtractStorage(range).value; var (gib, reply) := Expand(size, range, f);
            && (n <= reply.capacity <= gib * GIB <==> n <= TWO_63 - GIB)
            && (gib > size ==> LeastCovering(gib, n))
  {
    var n := ExtractStorage(range).value;
    var gib := RoundUpSize(n, GIB);
    SizeFits(size);
    ExtractMeans(range);
    RoundUpIff(n);
    CoversIff(size, n, gib);
    WrapFits(size * GIB);
  }

  /** A volume that covers the request is left alone, whatever would fail, and its size is reported; a
      smaller one that meets no failure grows to the least size that covers the request, and the
      request is reported; a failure is an error, and the volume has grown unless the update failed
      without being applied. */
  lemma ExpandMeans(size: Int64, range: Option<Range>, f: Faults)
    requires 0 <= size < TWO_63 / GIB && ExtractStorage(range).Some? && ExtractStorage(range).value <= TWO_63 - GIB
    ensures var n := ExtractStorage(range).value; var (gib, reply) := Expand(size, range, f);
            && (n <= size * GIB ==> gib == size && reply == Expanded(size * GIB))
            && (n > size * GIB && !f.updateFails && !f.awaitFails ==> LeastCovering(gib, n) && reply == Expanded(n))
            && (n > size * GIB && (f.updateFails || f.awaitFails) ==>
                  && reply == Error
                  && if f.updateFails && !f.applied then gib == size else LeastCovering(gib, n))
  {
    var n := ExtractStorage(range).value;
    var gib := RoundUpSize(n, GIB);
    SizeFits(size);
    ExtractMeans(range);
    RoundUpIff(n);
    WrapFits(size * GIB);
    GrowsIff(size, n, gib);
  }

  lemma GrowsIff(size: int, n: int, gib: int)
    requires LeastCovering(gib, n)
    ensures gib <= size <==> n <= size * GIB
  {}

  /** Retried after whatever happened, a successful expansion ends at the same size, and once it has
      that size asking again changes nothing. */
  lemma RetryConverges(size: Int64, range: Option<Range>, f: Faults, g: Faults)
    requires 0 <= size < TWO_63 / GIB
    requires 0 <= Expand(size, range, f).0 < TWO_63 / GIB && Expand(Expand(size, range, f).0, range, g).1.Expanded?
    ensures Expand(Expand(size, range, f).0, range, g).0 ==
            var gib := RoundUpSize(ExtractStorage(range).value, GIB); if gib <= size then size else gib
  {}
}
