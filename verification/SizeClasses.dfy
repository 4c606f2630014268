/** The table of block sizes: how it is built, and the class a request belongs to. */
module SizeClasses {

  const CLASSID_MIN: nat := 1
  const CLASSID_MAX: nat := 200
  const CHUNK_ALIGN_BYTES: nat := 8

  /** Class 0 is the sentinel; the sizes grow strictly up to the last class. */
  ghost predicate Increasing(maxSize: seq<nat>, last: nat) {
    && CLASSID_MIN <= last < |maxSize|
    && maxSize[0] == 0
    && forall c, d :: 0 <= c < d <= last ==> maxSize[c] < maxSize[d]
  }

  /** The least class that a block of `size` bytes fits, 0 when it fits none. */
  ghost predicate IsClassOf(maxSize: seq<nat>, last: nat, size: nat, id: nat)
    requires last < |maxSize|
  {
    if id == 0 then
      forall c :: CLASSID_MIN <= c <= last ==> maxSize[c] < size
    else
      && CLASSID_MIN <= id <= last
      && size <= maxSize[id]
      && forall c :: CLASSID_MIN <= c < id ==> maxSize[c] < size
  }

  /** A request has exactly one class, so nothing that leads to it (the remembered hint, say) can change it. */
  lemma ClassIsUnique(maxSize: seq<nat>, last: nat, size: nat, a: nat, b: nat)
    requires last < |maxSize|
    requires IsClassOf(maxSize, last, size, a) && IsClassOf(maxSize, last, size, b)
    ensures a == b
  {
  }

  function ClassFrom(maxSize: seq<nat>, last: nat, size: nat, c: nat): (id: nat)
    requires CLASSID_MIN <= c <= last + 1 && last < |maxSize|
    requires forall d :: CLASSID_MIN <= d < c ==> maxSize[d] < size
    ensures IsClassOf(maxSize, last, size, id)
    decreases last - c
  {
    if c > last then 0
    else if size <= maxSize[c] then c
    else ClassFrom(maxSize, last, size, c + 1)
  }

  function ClassOf(maxSize: seq<nat>, last: nat, size: nat): (id: nat)
    requires last < |maxSize|
    ensures IsClassOf(maxSize, last, size, id)
  {
    ClassFrom(maxSize, last, size, CLASSID_MIN)
  }

  /** Rounds a size up to the chunk alignment. */
  function Aligned(size: nat): (r: nat)
    ensures size <= r < size + CHUNK_ALIGN_BYTES && r % CHUNK_ALIGN_BYTES == 0
  {
    if size % CHUNK_ALIGN_BYTES != 0 then size + (CHUNK_ALIGN_BYTES - size % CHUNK_ALIGN_BYTES) else size
  }

  /** `(uint32_t)(size * factor)` for a product in range. */
  function Grown(size: nat, factor: real): (r: nat)
    requires factor >= 1.0
    ensures r as real <= size as real * factor < r as real + 1.0
    ensures r >= size
  {
    assert size as real * factor >= size as real;
    (size as real * factor).Floor
  }

  /** Each block is at least one alignment chunk bigger than the last, already at the smallest size. */
  predicate GrowsByAChunk(least: nat, factor: real) {
    factor >= 1.0 && least as real * (factor - 1.0) >= CHUNK_ALIGN_BYTES as real
  }

  lemma GrownByAChunk(least: nat, size: nat, factor: real)
    requires GrowsByAChunk(least, factor) && least <= size
    ensures Grown(size, factor) >= size + CHUNK_ALIGN_BYTES
    ensures size as real * factor >= (size + CHUNK_ALIGN_BYTES) as real
  {
    assert size as real * (factor - 1.0) >= least as real * (factor - 1.0);
    assert size as real * factor == size as real + size as real * (factor - 1.0);
  }

  /** How many classes the loop of `init` fills before the size passes `bound / factor`. */
  ghost function ClassCount(size: nat, bound: nat, factor: real, least: nat): nat
    requires GrowsByAChunk(least, factor) && least <= size
    decreases bound + 1 - size
  {
    GrownByAChunk(least, size, factor);
    if size as real * factor > bound as real then 0
    else
      GrownByAChunk(least, Aligned(size), factor);
      1 + ClassCount(Grown(Aligned(size), factor), bound, factor, least)
  }

  lemma BoundAsProduct(size: nat, bound: nat, factor: real)
    requires factor >= 1.0
    ensures size as real <= bound as real / factor <==> size as real * factor <= bound as real
  {
    var q := bound as real / factor;
    assert q * factor == bound as real;
    if size as real <= q {
      assert size as real * factor <= q * factor;
    } else {
      assert size as real * factor > q * factor;
    }
  }

  /** One turn of the loop: the block it records is below the bound and below the next size to be tried. */
  lemma NextClass(least: nat, size: nat, bound: nat, factor: real)
    requires GrowsByAChunk(least, factor) && least <= size
    requires size as real * factor <= bound as real
    ensures var s := Aligned(size); s < bound && s < Grown(s, factor)
    ensures ClassCount(size, bound, factor, least) == 1 + ClassCount(Grown(Aligned(size), factor), bound, factor, least)
  {
    GrownByAChunk(least, size, factor);
    GrownByAChunk(least, Aligned(size), factor);
  }

  /** The size from which the class `n` is made: the least one, or the one before it grown. */
  function NextSize(least: nat, factor: real, maxSize: seq<nat>, n: nat): nat
    requires 0 < n <= |maxSize| && factor >= 1.0
  {
    if n == 1 then least else Grown(maxSize[n - 1], factor)
  }

  /** Each class below `n` is the one before it grown and rounded up to a multiple of 8. */
  ghost predicate Rows(least: nat, factor: real, maxSize: seq<nat>, n: nat)
    requires factor >= 1.0
  {
    n <= |maxSize| && forall c :: 1 <= c < n ==> maxSize[c] == Aligned(NextSize(least, factor, maxSize, c))
  }

  lemma NoRows(least: nat, factor: real, maxSize: seq<nat>)
    requires factor >= 1.0 && |maxSize| > 0
    ensures Rows(least, factor, maxSize, 1) && NextSize(least, factor, maxSize, 1) == least
  {
  }

  lemma RowsMore(least: nat, factor: real, maxSize: seq<nat>, n: nat)
    requires factor >= 1.0 && 0 < n < |maxSize| && Rows(least, factor, maxSize, n)
    ensures var size := Aligned(NextSize(least, factor, maxSize, n));
            var more := maxSize[n := size];
            Rows(least, factor, more, n + 1) && NextSize(least, factor, more, n + 1) == Grown(size, factor)
  {
    hide Grown, Aligned;
  }

  lemma RowsLess(least: nat, factor: real, maxSize: seq<nat>, n: nat, bound: nat)
    requires factor >= 1.0 && 0 < n < |maxSize| && Rows(least, factor, maxSize, n)
    ensures var more := maxSize[n := bound];
            Rows(least, factor, more, n) && NextSize(least, factor, more, n) == NextSize(least, factor, maxSize, n)
  {
    hide Grown, Aligned;
  }

  /**
   Builds the table. The loop compares `size <= bound / factor`; the callers' duty is a growth factor that
   makes consecutive classes distinct and keeps the number of classes inside the array.
   */
  method BuildTable(header: nat, itemSizeMax: nat, itemSizeMin: nat, factor: real)
    returns (maxSize: seq<nat>, last: nat)
    requires header > 0 && GrowsByAChunk(header + itemSizeMin, factor)
    requires ClassCount(header + itemSizeMin, header + itemSizeMax, factor, header + itemSizeMin) < CLASSID_MAX - 1
    ensures |maxSize| == CLASSID_MAX
    ensures Increasing(maxSize, last)
    ensures maxSize[last] == header + itemSizeMax
    ensures forall c :: CLASSID_MIN <= c < last ==> maxSize[c] % CHUNK_ALIGN_BYTES == 0
    ensures forall c :: CLASSID_MIN <= c < last ==> maxSize[c] >= header + itemSizeMin
    ensures Rows(header + itemSizeMin, factor, maxSize, last)
    ensures NextSize(header + itemSizeMin, factor, maxSize, last) as real * factor > (header + itemSizeMax) as real
  {
    hide Grown, ClassCount, Aligned, Rows, NextSize;
    var least := header + itemSizeMin;
    var bound := header + itemSizeMax;
    var size := least;
    maxSize := seq(CLASSID_MAX, _ => 0);
    last := CLASSID_MIN;
    NoRows(least, factor, maxSize);
    while last < CLASSID_MAX && size as real <= bound as real / factor
      invariant CLASSID_MIN <= last < CLASSID_MAX && |maxSize| == CLASSID_MAX
      invariant least <= size
      invariant last + ClassCount(size, bound, factor, least) < CLASSID_MAX
      invariant maxSize[0] == 0
      invariant forall c, d :: 0 <= c < d < last ==> maxSize[c] < maxSize[d]
      invariant forall c :: 0 <= c < last ==> maxSize[c] < bound && maxSize[c] < size
      invariant forall c :: CLASSID_MIN <= c < last ==> maxSize[c] % CHUNK_ALIGN_BYTES == 0 && maxSize[c] >= least
      invariant size == NextSize(least, factor, maxSize, last) && Rows(least, factor, maxSize, last)
      decreases CLASSID_MAX - last
    {
      BoundAsProduct(size, bound, factor);
      NextClass(least, size, bound, factor);
      RowsMore(least, factor, maxSize, last);
      size := Aligned(size);
      maxSize := maxSize[last := size];
      size := Grown(size, factor);
      last := last + 1;
    }
    BoundAsProduct(size, bound, factor);
    RowsLess(least, factor, maxSize, last, bound);
    maxSize := maxSize[last := bound];
  }

  /**
   The search for a request's class, down or up from the class found last time. Whatever that hint was, the
   answer is the least class that fits. (A size of 0, which only a wrapped sum can have, is given no class.)
   */
  method FindClass(maxSize: seq<nat>, last: nat, hint: nat, size: nat) returns (id: nat, newHint: nat)
    requires Increasing(maxSize, last) && hint <= last
    ensures id == if size == 0 then 0 else ClassOf(maxSize, last, size)
    ensures newHint <= last && (id != 0 ==> newHint == id)
  {
    id, newHint := hint, hint;
    if size < maxSize[id] {
      if size <= maxSize[id - 1] {
        id := id - 1;
        while id >= CLASSID_MIN
          invariant id < hint
          invariant id > 0 ==> size <= maxSize[id]
          invariant id == 0 ==> size == 0
        {
          if size > maxSize[id - 1] { break; }
          id := id - 1;
        }
        newHint := id;
      }
    } else {
      while id <= last
        invariant hint <= id <= last + 1
        invariant forall c :: 1 <= c < id ==> maxSize[c] < size
        invariant size == 0 ==> id == 0
      {
        if size <= maxSize[id] { break; }
        id := id + 1;
      }
      if id > last { id := 0; } else { newHint := id; }
    }
    if size > 0 {
      ClassIsUnique(maxSize, last, size, id, ClassOf(maxSize, last, size));
    }
  }
}
