/** Times are integer milliseconds; rollup buckets are whole hours and whole UTC days. */
module Buckets {
  const HOUR: nat := 3_600_000
  const DAY: nat := 24 * HOUR

  datatype Granularity = Hourly | Daily

  function Size(g: Granularity): (size: nat)
    ensures size % HOUR == 0 && HOUR <= size <= DAY
    ensures size == if g == Hourly then 3_600_000 else 86_400_000
  {
    if g == Hourly then HOUR else DAY
  }

  /** `bucketStart`: the floor to a multiple of the size, also for times before 1970. */
  function BucketStart(t: int, size: nat): (start: int)
    requires size > 0
    ensures start <= t < start + size
  {
    t / size * size
  }

  lemma {:induction false} MultipleOf(k: int, size: nat)
    requires size > 0
    ensures (k * size) % size == 0 && k * size / size == k
  {
    var product: int := k * size;
    assert product == product / size * size + product % size;
    assert (k - product / size) * size == product % size;
    Between(k - product / size, size);
  }

  lemma {:induction false} Between(k: int, size: nat)
    requires size > 0
    ensures k >= 1 ==> k * size >= size
    ensures k <= -1 ==> k * size + size <= 0
  {
    if k >= 1 {
      assert (k - 1) * size >= 0;
    }
    if k <= -1 {
      assert (k + 1) * size <= 0;
    }
  }

  lemma {:induction false} StartIs(t: int, k: int, size: nat)
    requires size > 0 && k * size <= t < k * size + size
    ensures BucketStart(t, size) == k * size
  {
    assert (t / size - k) * size == t / size * size - k * size;
    Between(t / size - k, size);
  }

  /** Buckets start at whole multiples of their size. */
  lemma {:induction false} StartIsMultiple(t: int, size: nat)
    requires size > 0
    ensures BucketStart(t, size) % size == 0
  {
    MultipleOf(t / size, size);
  }
}
