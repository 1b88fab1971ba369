/** omp_static_init: the static and the static chunked partition of a loop. */
module LoopSchedule {
  import opened Blocks

  datatype StaticKind = Static | StaticChunked

  /** The value of the loop variable in iteration k. */
  function Value(lower: int, k: int, incr: int): int { lower + k * incr }

  /** trip_count. */
  function Trip(lower: int, upper: int, incr: int): int
    requires incr > 0
  {
    (upper - lower) / incr + 1
  }

  /** Iterations per thread under the static schedule: trip / size rounded up. */
  function Share(trip: int, size: int): int
    requires size > 0
  {
    if trip % size == 0 then trip / size else trip / size + 1
  }

  lemma LastValue(lower: int, upper: int, incr: int, k: int)
    requires incr > 0 && lower <= upper
    ensures Trip(lower, upper, incr) >= 1
    ensures 0 <= k < Trip(lower, upper, incr) ==> Value(lower, k, incr) <= upper
    ensures k >= Trip(lower, upper, incr) ==> Value(lower, k, incr) > upper
  {
    var t := Trip(lower, upper, incr);
    Distribute(t - 1, 1, incr);
    MulCompare(k, t - 1, incr);
    MulCompare(t, k, incr);
  }

  lemma ShareCovers(trip: int, size: int, k: int)
    requires size > 0 && trip >= 1 && 0 <= k < trip
    ensures Share(trip, size) >= 1 && 0 <= k / Share(trip, size) < size
  {
    var c := Share(trip, size);
    var q := trip / size;
    Distribute(q, 1, size);
    if c <= 0 { MulCompare(c, 0, size); }
    assert size * c >= trip by { Commute(size, c); }
    QuotientIs(k, c, k / c);
    if k / c >= size { MulCompare(size, k / c, c); }
    if k / c < 0 { MulCompare(k / c, -1, c); }
  }

  /** A range of n iterations that starts at iteration first holds exactly those iterations. */
  lemma RangeHolds(lower: int, incr: int, first: int, n: int, k: int)
    requires incr > 0
    ensures Value(lower, first, incr) <= Value(lower, k, incr) <= Value(lower, first, incr) + (n - 1) * incr <==>
            first <= k < first + n
    ensures Value(lower, first, incr) <= Value(lower, k, incr) <= Value(lower, first, incr) + n * incr - 1 <==>
            first <= k < first + n
  {
    MulCompare(first, k, incr);
    Distribute(first, n - 1, incr);
    MulCompare(k, first + n - 1, incr);
    Distribute(first, n, incr);
    MulCompare(first + n, k, incr);
  }

  // ------------------------------------------------ arithmetic as in C

  /** Division as in C: towards zero. */
  function CDiv(a: int, b: int): int
    requires b != 0
  {
    if b > 0 then if a >= 0 then a / b else -((-a) / b)
    else if a >= 0 then -(a / -b) else (-a) / -b
  }

  /** Remainder as in C: with the sign of the dividend. */
  function CMod(a: int, b: int): int
    requires b != 0
  {
    if a >= 0 then a % (if b > 0 then b else -b) else -((-a) % (if b > 0 then b else -b))
  }

  /** What omp_static_init computes as trip_count. */
  function TripCount(lower: int, upper: int, incr: int): int
    requires incr != 0
  {
    CDiv(upper - lower, incr) + 1
  }

  datatype Bounds = Bounds(lower: int, upper: int)

  /** The bounds of thread g under the static schedule, for any sign of the increment. */
  function StaticBounds(g: nat, size: nat, lower: int, upper: int, incr: int): Bounds
    requires size > 0 && incr != 0
  {
    var trip := TripCount(lower, upper, incr);
    var share := CDiv(trip, size) + if CMod(trip, size) == 0 then 0 else 1;
    var end := Value(lower, g * share, incr) + (share - 1) * incr;
    Bounds(Value(lower, g * share, incr), if end > upper then upper else end)
  }

  lemma QuotientTwice(trip: int, length: int, size: int)
    requires length > 0 && size > 0
    ensures length * size > 0 && trip / (length * size) == (trip / length) / size
  {
    MulGrows(length, size);
    var q := trip / length;
    var r := q / size;
    Commute(length, size);
    Reassociate(r, size, length);
    MulCompare(r * size, q, length);
    MulCompare(q, r * size + size - 1, length);
    Distribute(r * size, size - 1, length);
    Distribute(size - 1, 1, length);
    QuotientIs(trip, length * size, r);
  }

  /** The two sides of the test for *p_last_iter in the chunked branch. */
  lemma LastChunkFormula(trip: int, length: int, size: int, g: int)
    requires trip >= 0 && length > 0 && size > 0 && 0 <= g
    ensures length * size > 0
    ensures trip - trip % length == g * length + trip - trip % (length * size) <==> g == (trip / length) % size
  {
    QuotientTwice(trip, length, size);
    var q := trip / length;
    var r := q / size;
    Commute(length, size);
    Reassociate(r, size, length);
    Distribute(g, r * size, length);
    MulCompare(q, g + r * size, length);
    MulCompare(g + r * size, q, length);
  }

  /** omp_static_init: the bounds one thread gets.  Static: iteration k lies within them exactly if
      it is one of the loop and k / share is the thread, an empty loop gives empty bounds, and the
      caller's stride stays.
      Chunked, when both bounds advance by stride and the upper one stops at the end of the loop:
      iteration k lies within those of round r exactly if chunk number k / chunk is the thread's in
      that round. */
  method OmpStaticInit(gtid: nat, kind: StaticKind, teamSize: nat, lower: int, upper: int, oldStride: int, incr: int,
                       chunk: int)
    returns (last: bool, myLower: int, myUpper: int, stride: int)
    requires teamSize > gtid && incr != 0 && (kind.StaticChunked? ==> chunk > 0)
    ensures kind.Static? ==>
              stride == oldStride && Bounds(myLower, myUpper) == StaticBounds(gtid, teamSize, lower, upper, incr)
    ensures kind.Static? ==> (last <==> StaticFlag(TripCount(lower, upper, incr), gtid))
    ensures kind.Static? && incr > 0 ==>
              if lower > upper then myLower > myUpper
              else
                var share := Share(Trip(lower, upper, incr), teamSize);
                var end := Value(lower, gtid * share, incr) + (share - 1) * incr;
                myLower == Value(lower, gtid * share, incr) && myUpper == if end > upper then upper else end
    ensures kind.Static? && incr > 0 ==> forall k | 0 <= k ::
                var share := Share(Trip(lower, upper, incr), teamSize);
                myLower <= Value(lower, k, incr) <= myUpper <==>
                k < Trip(lower, upper, incr) && share > 0 && InShare(k, share, gtid)
    ensures kind.StaticChunked? && incr > 0 ==> forall k, r | 0 <= k && 0 <= r ::
                InRound(lower, incr, myLower, myUpper, upper, stride, k, r) <==>
                k < Trip(lower, upper, incr) && InThreadRound(k, chunk, teamSize, gtid, r)
    ensures kind.StaticChunked? && incr > 0 && lower <= upper ==>
              incr * chunk > 0 && (last <==> ChunkedFlag(Trip(lower, upper, incr), incr * chunk, teamSize, gtid))
  {
    var tripCount := CDiv(upper - lower, incr) + 1;
    var adjustment := if CMod(tripCount, teamSize) == 0 then -1 else 0;
    if kind.Static? {
      last := gtid == tripCount - 1;
      stride := oldStride;
      var step := (CDiv(tripCount, teamSize) + adjustment + 1) * incr;
      var blockSize := (CDiv(tripCount, teamSize) + adjustment) * incr;
      myLower := lower + gtid * step;
      myUpper := myLower + blockSize;
      if myUpper > upper {
        myUpper := upper;
      }
      Reassociate(gtid, CDiv(tripCount, teamSize) + adjustment + 1, incr);
      if incr > 0 {
        StaticAscending(gtid, teamSize, lower, upper, incr);
      }
    } else {
      myLower := lower + gtid * incr * chunk;
      myUpper := myLower + incr * chunk - 1;
      ChunksNonZero(incr, chunk, teamSize);
      last := tripCount - CMod(tripCount, -chunk * incr)
              == gtid * incr * chunk + tripCount - CMod(tripCount, chunk * incr * teamSize);
      stride := incr * chunk * teamSize;
      if incr > 0 {
        forall k, r | 0 <= k && 0 <= r
          ensures InRound(lower, incr, myLower, myUpper, upper, stride, k, r) <==>
                  k < Trip(lower, upper, incr) && InThreadRound(k, chunk, teamSize, gtid, r)
        {
          ChunkedAscending(gtid, teamSize, lower, upper, incr, chunk, myLower, myUpper, stride, k, r);
        }
        if lower <= upper { ChunkedLast(gtid, teamSize, lower, upper, incr, chunk); }
      }
    }
  }

  lemma ChunksNonZero(incr: int, chunk: int, size: int)
    requires incr != 0 && chunk > 0 && size > 0
    ensures -chunk * incr != 0 && chunk * incr * size != 0
  {
    if incr > 0 { MulGrows(chunk, incr); MulGrows(chunk * incr, size); }
    else { MulGrows(chunk, -incr); MulGrows(chunk * -incr, size); Reassociate(chunk, -incr, size);
           Reassociate(chunk, incr, size); }
  }

  lemma TripCountIs(lower: int, upper: int, incr: int)
    requires incr > 0
    ensures lower <= upper ==> TripCount(lower, upper, incr) == Trip(lower, upper, incr) >= 1
    ensures lower > upper ==> TripCount(lower, upper, incr) <= 1 && Trip(lower, upper, incr) <= 0
  {
    if lower <= upper { LastValue(lower, upper, incr, 0); }
    else { QuotientIs(upper - lower, incr, (upper - lower) / incr);
           if Trip(lower, upper, incr) > 0 { MulCompare(0, (upper - lower) / incr, incr); } }
  }

  /** The bounds of an ascending loop. */
  lemma StaticAscending(g: nat, size: nat, lower: int, upper: int, incr: int)
    requires size > g && incr > 0
    ensures var b := StaticBounds(g, size, lower, upper, incr);
            if lower > upper then b.lower > b.upper
            else
              var share := Share(Trip(lower, upper, incr), size);
              var end := Value(lower, g * share, incr) + (share - 1) * incr;
              b.lower == Value(lower, g * share, incr) && b.upper == if end > upper then upper else end
    ensures var b, c := StaticBounds(g, size, lower, upper, incr), Share(Trip(lower, upper, incr), size);
            forall k | 0 <= k :: b.lower <= Value(lower, k, incr) <= b.upper <==>
                                 k < Trip(lower, upper, incr) && c > 0 && InShare(k, c, g)
  {
    var b, trip := StaticBounds(g, size, lower, upper, incr), Trip(lower, upper, incr);
    TripCountIs(lower, upper, incr);
    if lower > upper {
      EmptyBounds(g, size, lower, upper, incr);
    } else {
      var c := Share(trip, size);
      ShareCovers(trip, size, 0);
      forall k | 0 <= k
        ensures b.lower <= Value(lower, k, incr) <= b.upper <==> k < trip && InShare(k, c, g)
      {
        LastValue(lower, upper, incr, k);
        RangeHolds(lower, incr, g * c, c, k);
        QuotientIs(k, c, g);
      }
    }
  }

  /** An empty ascending loop gives every thread empty bounds, whatever trip_count comes to. */
  lemma EmptyBounds(g: nat, size: nat, lower: int, upper: int, incr: int)
    requires size > g && incr > 0 && lower > upper
    ensures var b := StaticBounds(g, size, lower, upper, incr); b.lower > b.upper
  {
    TripCountIs(lower, upper, incr);
    var trip := TripCount(lower, upper, incr);
    var share := CDiv(trip, size) + if CMod(trip, size) == 0 then 0 else 1;
    assert share <= 1;
    if share == 1 {
      MulCompare(0, g, incr);
    } else {
      MulCompare(share - 1, -1, incr);
    }
  }

  lemma ChunkedAscending(g: nat, size: nat, lower: int, upper: int, incr: int, chunk: int, first: int, last: int,
                         stride: int, k: int, r: int)
    requires size > g && incr > 0 && chunk > 0 && 0 <= k && 0 <= r
    requires first == lower + g * incr * chunk && last == first + incr * chunk - 1 && stride == incr * chunk * size
    ensures InRound(lower, incr, first, last, upper, stride, k, r) <==>
            k < Trip(lower, upper, incr) && InThreadRound(k, chunk, size, g, r)
  {
    InLoop(lower, upper, incr, k);
    ChunkStart(lower, incr, chunk, g, r, size);
    RangeHolds(lower, incr, (g + r * size) * chunk, chunk, k);
    Commute(incr, chunk);
    QuotientIs(k, chunk, g + r * size);
  }

  lemma InLoop(lower: int, upper: int, incr: int, k: int)
    requires incr > 0 && 0 <= k
    ensures Value(lower, k, incr) <= upper <==> k < Trip(lower, upper, incr)
  {
    TripCountIs(lower, upper, incr);
    if lower <= upper { LastValue(lower, upper, incr, k); } else { MulCompare(0, k, incr); }
  }

  lemma ChunkedLast(g: nat, size: nat, lower: int, upper: int, incr: int, chunk: int)
    requires size > g && incr > 0 && chunk > 0 && lower <= upper
    ensures -chunk * incr != 0 && chunk * incr * size != 0 && incr * chunk > 0
    ensures var trip := TripCount(lower, upper, incr);
            trip - CMod(trip, -chunk * incr) == g * incr * chunk + trip - CMod(trip, chunk * incr * size)
            <==> g == (Trip(lower, upper, incr) / (incr * chunk)) % size
  {
    TripCountIs(lower, upper, incr);
    ChunksNonZero(incr, chunk, size);
    MulGrows(incr, chunk);
    Commute(incr, chunk);
    Reassociate(g, incr, chunk);
    Negate(chunk, incr);
    LastChunkFormula(Trip(lower, upper, incr), incr * chunk, size, g);
  }

  lemma Negate(a: int, b: int)
    ensures -a * b == -(a * b)
  {
  }

  // ------------------------------------------------ the flag of the last iteration

  /** Thread g sets *p_last_iter under the static schedule. */
  predicate StaticFlag(trip: int, g: int) { g == trip - 1 }

  /** Thread g sets *p_last_iter under the chunked schedule, with `length` the chunk size times the
      increment. */
  predicate ChunkedFlag(trip: int, length: int, size: int, g: int)
    requires length > 0 && size > 0
  {
    g == (trip / length) % size
  }

  /** Thread g runs iteration k in some round. */
  predicate RunsChunkOf(k: int, chunk: int, size: int, g: int)
    requires chunk > 0 && size > 0
  {
    g == (k / chunk) % size
  }

  /** Under the static schedule the threads whose *p_last_iter is set are those that own the last
      iteration exactly if there are no more iterations than threads. */
  lemma StaticLastIff(trip: int, size: nat)
    requires trip >= 1 && size >= 1
    ensures Share(trip, size) > 0
    ensures (forall g: nat | g < size :: StaticFlag(trip, g) <==> InShare(trip - 1, Share(trip, size), g)) <==>
            trip <= size
  {
    ShareCovers(trip, size, trip - 1);
    var owner := (trip - 1) / Share(trip, size);
    assert InShare(trip - 1, Share(trip, size), owner);
    if trip <= size {
      QuotientIs(trip, size, if trip < size then 0 else 1);
      assert Share(trip, size) == 1;
    } else {
      assert !StaticFlag(trip, owner);
    }
  }

  /** Under the chunked schedule with increment 1 they are, exactly if the last chunk is cut short
      or there is only one thread. */
  lemma ChunkedLastIff(trip: int, chunk: int, size: nat)
    requires trip >= 1 && size >= 1 && chunk >= 1
    ensures (forall g: nat | g < size :: ChunkedFlag(trip, chunk, size, g) <==> RunsChunkOf(trip - 1, chunk, size, g))
       <==> trip % chunk != 0 || size == 1
  {
    var q := trip / chunk;
    var flagged := q % size;
    assert ChunkedFlag(trip, chunk, size, flagged);
    LastChunk(trip, chunk);
    if trip % chunk == 0 && size > 1 { NextModDiffers(q - 1, size); }
  }

  lemma LastChunk(trip: int, chunk: int)
    requires trip >= 1 && chunk >= 1
    ensures (trip - 1) / chunk == if trip % chunk == 0 then trip / chunk - 1 else trip / chunk
  {
    var q := trip / chunk;
    Distribute(q, -1, chunk);
    QuotientIs(trip - 1, chunk, if trip % chunk == 0 then q - 1 else q);
  }

  lemma NextModDiffers(q: int, size: int)
    requires size > 1
    ensures (q + 1) % size != q % size
  {
    var a, b := q / size, (q + 1) / size;
    if (q + 1) % size == q % size {
      Distribute(a, b - a, size);
      if b > a { MulCompare(1, b - a, size); } else { MulCompare(b - a, 0, size); }
    }
  }

  // ------------------------------------------------ descending loops

  /** Iteration k of a descending loop lies within the bounds. */
  predicate HoldsDown(lower: int, incr: int, b: Bounds, k: int) {
    b.upper <= Value(lower, k, incr) <= b.lower
  }

  /** The bounds of the threads are a partition of the descending loop: they hold iterations of the
      loop only, each of them, and none twice. */
  ghost predicate PartitionsDown(lower: int, upper: int, incr: int, size: nat)
    requires incr < 0 && size > 0
  {
    && (forall g: nat, k: nat | g < size && HoldsDown(lower, incr, StaticBounds(g, size, lower, upper, incr), k) ::
          Value(lower, k, incr) >= upper)
    && (forall k: nat | Value(lower, k, incr) >= upper :: exists g: nat ::
        g < size && HoldsDown(lower, incr, StaticBounds(g, size, lower, upper, incr), k))
    && (forall g: nat, h: nat, k: nat | g < size && h < size
                                        && HoldsDown(lower, incr, StaticBounds(g, size, lower, upper, incr), k)
                                        && HoldsDown(lower, incr, StaticBounds(h, size, lower, upper, incr), k) ::
          g == h)
  }

  lemma DownValue(lower: int, incr: int, a: int, b: int)
    requires incr < 0
    ensures Value(lower, a, incr) <= Value(lower, b, incr) <==> b <= a
  {
    MulCompare(b, a, -incr);
    Distribute(a, -2 * a, incr);
  }

  /** The clamp at the upper bound works for one direction only: a descending loop is partitioned
      exactly if the team has one thread. */
  lemma DescendingStaticIff(lower: int, upper: int, incr: int, size: nat)
    requires incr < 0 && lower >= upper && size >= 1
    ensures PartitionsDown(lower, upper, incr, size) <==> size == 1
  {
    if size == 1 {
      OneThreadDown(lower, upper, incr);
    } else {
      ManyThreadsDown(lower, upper, incr, size);
    }
  }

  lemma DownTrip(lower: int, upper: int, incr: int)
    requires incr < 0 && lower >= upper
    ensures var trip := TripCount(lower, upper, incr);
            trip >= 1 && Value(lower, trip - 1, incr) >= upper > Value(lower, trip, incr)
  {
    var d, q := -incr, (lower - upper) / -incr;
    assert TripCount(lower, upper, incr) == q + 1;
    QuotientIs(lower - upper, d, q);
    if q < 0 { MulCompare(q, -1, d); }
    Distribute(q, 1, d);
    Negate(d, q);
    Negate(d, q + 1);
    Commute(q, d);
    Commute(q + 1, d);
    Commute(q, incr);
    Commute(q + 1, incr);
  }

  lemma OneThreadDown(lower: int, upper: int, incr: int)
    requires incr < 0 && lower >= upper
    ensures PartitionsDown(lower, upper, incr, 1)
  {
    var b, trip := StaticBounds(0, 1, lower, upper, incr), TripCount(lower, upper, incr);
    DownTrip(lower, upper, incr);
    assert CDiv(trip, 1) == trip && CMod(trip, 1) == 0;
    assert b == Bounds(lower, upper);
    forall k: nat ensures Value(lower, k, incr) <= lower {
      DownValue(lower, incr, k, 0);
    }
    forall k: nat | Value(lower, k, incr) >= upper
      ensures exists g: nat :: g < 1 && HoldsDown(lower, incr, StaticBounds(g, 1, lower, upper, incr), k) {
      assert HoldsDown(lower, incr, StaticBounds(0, 1, lower, upper, incr), k);
    }
  }

  /** Thread 1 either runs an iteration that thread 0 runs as well, or one after the end. */
  lemma ManyThreadsDown(lower: int, upper: int, incr: int, size: nat)
    requires incr < 0 && lower >= upper && size >= 2
    ensures !PartitionsDown(lower, upper, incr, size)
  {
    var trip := TripCount(lower, upper, incr);
    DownTrip(lower, upper, incr);
    var c := Share(trip, size);
    assert c == CDiv(trip, size) + if CMod(trip, size) == 0 then 0 else 1;
    ShareCovers(trip, size, 0);
    var b0, b1 := StaticBounds(0, size, lower, upper, incr), StaticBounds(1, size, lower, upper, incr);
    assert b1.lower == Value(lower, c, incr);
    Distribute(c, c - 1, incr);
    DownValue(lower, incr, c + (c - 1), c);
    assert HoldsDown(lower, incr, b1, c) || Value(lower, c, incr) < upper;
    if trip == 1 {
      assert c == 1 by { QuotientIs(1, size, 0); }
      assert HoldsDown(lower, incr, b1, c);
    } else {
      ShareIsLess(trip, size);
      DownValue(lower, incr, trip - 1, c);
      DownValue(lower, incr, c, c - 1);
      DownValue(lower, incr, c, 0);
      assert HoldsDown(lower, incr, b0, c);
    }
  }

  lemma ShareIsLess(trip: int, size: nat)
    requires trip >= 2 && size >= 2
    ensures Share(trip, size) < trip
  {
    var q := trip / size;
    if q > 0 { MulCompare(2, size, q); Commute(q, size); }
  }

  /** Iteration k is run in round r, with both bounds advanced r times. */
  predicate InRound(lower: int, incr: int, myLower: int, myUpper: int, upper: int, stride: int, k: int, r: int) {
    var x := Value(lower, k, incr);
    myLower + r * stride <= x && x <= myUpper + r * stride && x <= upper
  }

  lemma ChunkStart(lower: int, incr: int, chunk: int, g: int, r: int, size: int)
    ensures lower + g * incr * chunk + r * (incr * chunk * size) == Value(lower, (g + r * size) * chunk, incr)
  {
    var rs := r * size;
    var ic := incr * chunk;
    Reassociate(g, incr, chunk);
    Commute(ic, size);
    Reassociate(r, size, ic);
    Distribute(g, rs, ic);
    Commute(incr, chunk);
    Reassociate(g + rs, chunk, incr);
  }

  /** Iteration k is in the share of thread g. */
  predicate InShare(k: int, share: int, g: int)
    requires share > 0
  {
    k / share == g
  }

  /** The chunk of iteration k is that of thread g in round r. */
  predicate InThreadRound(k: int, chunk: int, size: int, g: int, r: int)
    requires chunk > 0
  {
    k / chunk == g + r * size
  }

  /** Static: every iteration belongs to exactly one thread of the team. */
  lemma StaticPartition(lower: int, upper: int, incr: int, size: nat, k: int) returns (g: nat)
    requires incr > 0 && size > 0 && 0 <= k < Trip(lower, upper, incr)
    ensures var c := Share(Trip(lower, upper, incr), size);
            c > 0 && g < size && forall h :: InShare(k, c, h) <==> h == g
  {
    ShareCovers(Trip(lower, upper, incr), size, k);
    g := k / Share(Trip(lower, upper, incr), size);
  }

  /** Chunked: every iteration belongs to exactly one thread and round. */
  lemma ChunkedPartition(k: nat, chunk: int, size: nat) returns (g: nat, r: nat)
    requires chunk > 0 && size > 0
    ensures g < size
    ensures forall g': nat, r': nat | g' < size :: InThreadRound(k, chunk, size, g', r') <==> g' == g && r' == r
  {
    var q := k / chunk;
    QuotientIs(k, chunk, q);
    if q < 0 { MulCompare(q, -1, chunk); }
    g, r := q % size, q / size;
    forall g': nat, r': nat | g' < size ensures InThreadRound(k, chunk, size, g', r') <==> g' == g && r' == r {
      ThreadRoundUnique(q, size, g', r');
    }
  }

  lemma ThreadRoundUnique(q: nat, size: nat, g: nat, r: nat)
    requires g < size
    ensures q == g + r * size <==> g == q % size && r == q / size
  {
    QuotientIs(q, size, r);
  }
}
