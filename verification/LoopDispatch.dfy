/** Dispatched loops: the shared loop_data and kmp_next under the static and the dynamic schedule. */
module LoopDispatch {
  import opened LoopSchedule
  import opened Blocks

  datatype Schedule = StaticSchedule | StaticChunkedSchedule | DynamicSchedule

  /** What one call leaves behind: its result, *p_lower, *p_upper and *p_last.  lower and upper mean
      nothing when more is false. */
  datatype Reply = Reply(more: bool, lower: int, upper: int, last: bool)

  /** Dynamic: the answer to the call that drew a ticket from schedule_count. */
  function ReplyTo(lower: int, upper: int, stride: int, chunk: int, ticket: int): Reply {
    var lo := lower + ticket * stride * chunk;
    var up := lo + (chunk - 1) * stride;
    if lo > upper then Reply(false, lo, up, false)
    else if up > upper then Reply(true, lo, upper, true)
    else Reply(true, lo, up, false)
  }

  /** Static chunked: the answer to call number `round` of thread g. */
  function ChunkReply(lower: int, upper: int, stride: int, chunk: int, size: int, g: int, round: int,
                      oldLast: bool): Reply {
    var lo := lower + chunk * (g + size * stride * round);
    var up := lo + stride * (chunk - 1);
    Reply(lo <= upper, lo, if up > upper then upper else up, oldLast || up == upper)
  }

  class LoopData {
    const lower: int
    const upper: int
    const stride: int
    const chunk: int
    const numThreads: nat
    const schedule: Schedule
    var orderedCount: int
    var scheduleCount: int
    var firstIter: seq<int>
    var lastIter: seq<int>
    var iterCount: seq<int>

    ghost predicate Valid()
      reads this
    {
      && stride != 0 && chunk > 0 && numThreads > 0
      && |firstIter| == |lastIter| == |iterCount| == numThreads
    }

    /** scheduler_init: a stride or chunk of 0 counts as 1. */
    constructor (threads: nat, lo: int, up: int, st: int, ch: int, kind: Schedule)
      requires threads > 0 && ch >= 0
      ensures Valid() && lower == lo && upper == up && numThreads == threads && schedule == kind
      ensures stride == (if st == 0 then 1 else st) && chunk == if ch == 0 then 1 else ch
      ensures scheduleCount == 0 && orderedCount == 0 && forall g | 0 <= g < threads :: iterCount[g] == 0
    {
      lower, upper, numThreads, schedule := lo, up, threads, kind;
      stride := if st == 0 then 1 else st;
      chunk := if ch == 0 then 1 else ch;
      orderedCount, scheduleCount := 0, 0;
      firstIter, lastIter, iterCount := seq(threads, _ => 0), seq(threads, _ => 0), seq(threads, _ => 0);
    }

    /** The cases of kmp_next. */
    method NextStatic(gtid: nat, oldLast: bool) returns (reply: Reply)
      requires Valid() && gtid < numThreads
      modifies this
      ensures Valid() && OthersKept(gtid, old(firstIter), old(lastIter), old(iterCount))
              && orderedCount == old(orderedCount)
      ensures reply.more <==> old(iterCount[gtid]) <= 0
      ensures !reply.more ==> unchanged(this) && reply.last == oldLast
      ensures reply.more ==>
                && scheduleCount == old(scheduleCount) + 1 && iterCount[gtid] == 1
                && firstIter[gtid] == CDiv(reply.lower, stride) && lastIter[gtid] == CDiv(reply.upper, stride)
                && Bounds(reply.lower, reply.upper) == StaticBounds(gtid, numThreads, lower, upper, stride)
                && (reply.last <==> StaticFlag(TripCount(lower, upper, stride), gtid))
    {
      hide StaticBounds, StaticFlag, CDiv, TripCount;
      if iterCount[gtid] > 0 {
        return Reply(false, lower, upper, oldLast);
      }
      scheduleCount := scheduleCount + 1;
      iterCount := iterCount[gtid := 1];
      var last, myLower, myUpper,
          myStride := OmpStaticInit(gtid, Static, numThreads, lower, upper, stride, stride, chunk);
      firstIter := firstIter[gtid := CDiv(myLower, myStride)];
      lastIter := lastIter[gtid := CDiv(myUpper, myStride)];
      reply := Reply(true, myLower, myUpper, last);
    }

    method NextChunked(gtid: nat, oldLast: bool) returns (reply: Reply)
      requires Valid() && gtid < numThreads
      modifies this
      ensures Valid() && OthersKept(gtid, old(firstIter), old(lastIter), old(iterCount))
              && orderedCount == old(orderedCount)
      ensures scheduleCount == old(scheduleCount) + chunk && iterCount[gtid] == old(iterCount[gtid]) + 1
      ensures reply == ChunkReply(lower, upper, stride, chunk, numThreads, gtid, old(iterCount[gtid]), oldLast)
      ensures firstIter[gtid] == gtid + old(iterCount[gtid]) * stride * numThreads
              && lastIter[gtid] == firstIter[gtid] + stride
    {
      scheduleCount := scheduleCount + chunk;
      var loopId := iterCount[gtid];
      firstIter := firstIter[gtid := gtid + iterCount[gtid] * stride * numThreads];
      lastIter := lastIter[gtid := firstIter[gtid] + stride];
      iterCount := iterCount[gtid := iterCount[gtid] + 1];
      var pLower := lower + chunk * (gtid + numThreads * stride * loopId);
      var pUpper := pLower + stride * (chunk - 1);
      var last := oldLast;
      if pUpper == upper {
        last := true;
      }
      if pUpper > upper {
        pUpper := upper;
      }
      reply := Reply(!(pLower > upper), pLower, pUpper, last);
    }

    method NextDynamic(gtid: nat) returns (reply: Reply)
      requires Valid() && gtid < numThreads
      modifies this
      ensures Valid() && OthersKept(gtid, old(firstIter), old(lastIter), old(iterCount))
              && orderedCount == old(orderedCount)
      ensures scheduleCount == old(scheduleCount) + 1
              && reply == ReplyTo(lower, upper, stride, chunk, old(scheduleCount))
      ensures firstIter[gtid] == old(scheduleCount) && lastIter[gtid] == old(scheduleCount) + chunk
      ensures iterCount[gtid] == old(iterCount[gtid])
    {
      var loopId := scheduleCount;
      scheduleCount := scheduleCount + 1;
      var pLower := lower + loopId * stride * chunk;
      var pUpper := pLower + (chunk - 1) * stride;
      firstIter := firstIter[gtid := loopId];
      lastIter := lastIter[gtid := loopId + chunk];
      if pLower > upper {
        return Reply(false, pLower, pUpper, false);
      }
      var last := false;
      if pUpper > upper {
        pUpper := upper;
        last := true;
      }
      reply := Reply(true, pLower, pUpper, last);
    }

    /** The entries of the other threads are as they were. */
    ghost predicate OthersKept(gtid: nat, first: seq<int>, last: seq<int>, count: seq<int>)
      requires Valid() && |first| == |last| == |count| == numThreads
      reads this
    {
      forall g | 0 <= g < numThreads && g != gtid ::
        firstIter[g] == first[g] && lastIter[g] == last[g] && iterCount[g] == count[g]
    }

    /** kmp_next.  Dynamic: the answer depends on the ticket alone.  Static: each thread is given its
        share once.  Static chunked: the answer depends on how often this thread has called. */
    method KmpNext(gtid: nat, oldLast: bool) returns (reply: Reply)
      requires Valid() && gtid < numThreads
      modifies this
      ensures Valid() && OthersKept(gtid, old(firstIter), old(lastIter), old(iterCount))
              && orderedCount == old(orderedCount)
      ensures schedule.DynamicSchedule? ==>
                && scheduleCount == old(scheduleCount) + 1
                && reply == ReplyTo(lower, upper, stride, chunk, old(scheduleCount))
                && firstIter[gtid] == old(scheduleCount) && lastIter[gtid] == old(scheduleCount) + chunk
                && iterCount[gtid] == old(iterCount[gtid])
      ensures schedule.StaticChunkedSchedule? ==>
                && scheduleCount == old(scheduleCount) + chunk && iterCount[gtid] == old(iterCount[gtid]) + 1
                && reply == ChunkReply(lower, upper, stride, chunk, numThreads, gtid, old(iterCount[gtid]), oldLast)
                && firstIter[gtid] == gtid + old(iterCount[gtid]) * stride * numThreads
                && lastIter[gtid] == firstIter[gtid] + stride
      ensures schedule.StaticSchedule? ==> (reply.more <==> old(iterCount[gtid]) <= 0)
      ensures schedule.StaticSchedule? && !reply.more ==> unchanged(this) && reply.last == oldLast
      ensures schedule.StaticSchedule? && reply.more ==>
                && scheduleCount == old(scheduleCount) + 1 && iterCount[gtid] == 1
                && firstIter[gtid] == CDiv(reply.lower, stride) && lastIter[gtid] == CDiv(reply.upper, stride)
                && Bounds(reply.lower, reply.upper) == StaticBounds(gtid, numThreads, lower, upper, stride)
                && (reply.last <==> StaticFlag(TripCount(lower, upper, stride), gtid))
      ensures schedule.StaticSchedule? && reply.more && stride > 0 && lower <= upper ==>
                var share := Share(Trip(lower, upper, stride), numThreads);
                var end := Value(lower, gtid * share, stride) + (share - 1) * stride;
                && reply.lower == Value(lower, gtid * share, stride)
                && reply.upper == (if end > upper then upper else end)
                && forall k | 0 <= k :: reply.lower <= Value(lower, k, stride) <= reply.upper <==>
                                        k < Trip(lower, upper, stride) && share > 0 && InShare(k, share, gtid)
    {
      hide ReplyTo, ChunkReply, Share, Trip, TripCount, StaticBounds, InShare, StaticFlag, CDiv;
      match schedule
      case StaticSchedule =>
        reply := NextStatic(gtid, oldLast);
        if stride > 0 { StaticAscending(gtid, numThreads, lower, upper, stride); }
      case StaticChunkedSchedule =>
        reply := NextChunked(gtid, oldLast);
      case DynamicSchedule =>
        reply := NextDynamic(gtid);
    }

    /** One look of __kmpc_ordered at the gate. */
    method TryOrdered(gtid: nat) returns (through: bool)
      requires Valid() && gtid < numThreads
      ensures through <==> firstIter[gtid] <= orderedCount <= lastIter[gtid]
    {
      through := !(orderedCount < firstIter[gtid] || orderedCount > lastIter[gtid]);
    }

    /** __kmpc_end_ordered. */
    method EndOrdered()
      requires Valid()
      modifies `orderedCount
      ensures Valid() && orderedCount == old(orderedCount) + 1
    {
      orderedCount := orderedCount + 1;
    }
  }

  // ------------------------------------------------ dynamic dispatch

  /** The tickets that get work: the trip count over the chunk size, rounded up. */
  function Tickets(lower: int, upper: int, stride: int, chunk: int): nat
    requires stride > 0 && chunk > 0
  {
    if lower > upper then 0
    else
      TripCountIs(lower, upper, stride);
      ShareBounds(Trip(lower, upper, stride), chunk);
      Share(Trip(lower, upper, stride), chunk)
  }

  /** Iteration k is in the range that a reply hands out. */
  predicate Hands(lower: int, stride: int, reply: Reply, k: int) {
    reply.more && reply.lower <= Value(lower, k, stride) <= reply.upper
  }

  /** A ticket gets the iterations of the loop in its chunk and none after the end. */
  lemma TicketMeans(lower: int, upper: int, stride: int, chunk: int, t: nat, k: int)
    requires stride > 0 && chunk > 0 && 0 <= k
    ensures Hands(lower, stride, ReplyTo(lower, upper, stride, chunk, t), k) <==>
            k < Trip(lower, upper, stride) && InShare(k, chunk, t)
  {
    InLoop(lower, upper, stride, k);
    Start(lower, stride, chunk, t);
    RangeHolds(lower, stride, t * chunk, chunk, k);
    QuotientIs(k, chunk, t);
    MulCompare(t * chunk, k, stride);
  }

  lemma Start(lower: int, stride: int, chunk: int, t: int)
    ensures lower + t * stride * chunk == Value(lower, t * chunk, stride)
  {
    Reassociate(t, stride, chunk);
    Commute(stride, chunk);
    Reassociate(t, chunk, stride);
  }

  lemma ShareBounds(trip: int, d: int)
    requires d > 0 && trip >= 1
    ensures Share(trip, d) >= 1 && (Share(trip, d) - 1) * d < trip <= Share(trip, d) * d
    ensures Share(trip, d) * d == trip <==> trip % d == 0
  {
    var c := Share(trip, d);
    Distribute(c, -1, d);
    Distribute(trip / d, 1, d);
    if c <= 0 { MulCompare(c, 0, d); }
  }

  /** A call gets work exactly if its ticket is below Tickets: failure is permanent. */
  lemma TicketSucceeds(lower: int, upper: int, stride: int, chunk: int, t: nat)
    requires stride > 0 && chunk > 0
    ensures ReplyTo(lower, upper, stride, chunk, t).more <==> t < Tickets(lower, upper, stride, chunk)
  {
    var trip, n := Trip(lower, upper, stride), Tickets(lower, upper, stride, chunk);
    Start(lower, stride, chunk, t);
    MulCompare(0, t, chunk);
    InLoop(lower, upper, stride, t * chunk);
    TripCountIs(lower, upper, stride);
    if lower <= upper {
      ShareBounds(trip, chunk);
      MulCompare(n, t, chunk);
      MulCompare(t, n - 1, chunk);
    }
  }

  /** A call reports the last chunk exactly if its chunk is cut short. */
  lemma TicketLast(lower: int, upper: int, stride: int, chunk: int, t: nat)
    requires stride > 0 && chunk > 0
    ensures ReplyTo(lower, upper, stride, chunk, t).last <==>
            t + 1 == Tickets(lower, upper, stride, chunk) && Trip(lower, upper, stride) % chunk != 0
  {
    var trip, n := Trip(lower, upper, stride), Tickets(lower, upper, stride, chunk);
    TicketSucceeds(lower, upper, stride, chunk, t);
    Start(lower, stride, chunk, t);
    MulCompare(0, t, chunk);
    Distribute(t * chunk, chunk - 1, stride);
    InLoop(lower, upper, stride, t * chunk + chunk - 1);
    TripCountIs(lower, upper, stride);
    if lower <= upper {
      ShareBounds(trip, chunk);
      Distribute(t, 1, chunk);
      MulCompare(t + 1, n - 1, chunk);
    }
  }

  /** The answers of the first m calls, by ticket: no matter which threads make them, in which
      order, and what else happens in between. */
  function Replies(lower: int, upper: int, stride: int, chunk: int, m: nat): seq<Reply> {
    seq(m, t => ReplyTo(lower, upper, stride, chunk, t))
  }

  /** The calls of a dynamic loop in the order in which they draw from schedule_count: callers[i] is
      the thread that makes call i.  Whoever calls, the answers are those of the tickets in turn. */
  method DispatchAll(data: LoopData, callers: seq<nat>) returns (replies: seq<Reply>)
    requires data.Valid() && data.schedule.DynamicSchedule? && data.scheduleCount == 0
    requires forall i | 0 <= i < |callers| :: callers[i] < data.numThreads
    modifies data
    ensures data.Valid() && data.scheduleCount == |callers|
    ensures replies == Replies(data.lower, data.upper, data.stride, data.chunk, |callers|)
  {
    hide ReplyTo;
    replies := [];
    for i := 0 to |callers|
      invariant data.Valid() && data.scheduleCount == i
      invariant replies == Replies(data.lower, data.upper, data.stride, data.chunk, i)
    {
      var reply := data.KmpNext(callers[i], false);
      replies := replies + [reply];
    }
  }

  /** Main result.  Every iteration is handed out by at most one call, and by exactly one as soon as
      any call has been told that there is no more work. */
  lemma EachIterationOnce(lower: int, upper: int, stride: int, chunk: int, m: nat, k: int)
    requires stride > 0 && chunk > 0 && 0 <= k < Trip(lower, upper, stride)
    ensures var replies := Replies(lower, upper, stride, chunk, m);
            && (forall t, u | 0 <= t < m && 0 <= u < m && Hands(lower, stride, replies[t], k)
                              && Hands(lower, stride, replies[u], k) :: t == u)
            && ((exists f :: 0 <= f < m && !replies[f].more) ==> exists t ::
                    0 <= t < m && Hands(lower, stride, replies[t], k))
  {
    hide ReplyTo, Hands, Tickets;
    var replies := Replies(lower, upper, stride, chunk, m);
    forall t: nat | t < m ensures Hands(lower, stride, replies[t], k) <==> InShare(k, chunk, t) {
      TicketMeans(lower, upper, stride, chunk, t, k);
    }
    if f :| 0 <= f < m && !replies[f].more {
      TicketSucceeds(lower, upper, stride, chunk, f);
      ChunkExists(lower, upper, stride, chunk, k);
      assert InShare(k, chunk, k / chunk);
      assert Hands(lower, stride, replies[k / chunk], k);
    }
  }

  lemma ChunkExists(lower: int, upper: int, stride: int, chunk: int, k: int)
    requires stride > 0 && chunk > 0 && 0 <= k < Trip(lower, upper, stride)
    ensures 0 <= k / chunk < Tickets(lower, upper, stride, chunk)
  {
    var t := k / chunk;
    TripCountIs(lower, upper, stride);
    ShareBounds(Trip(lower, upper, stride), chunk);
    QuotientIs(k, chunk, t);
    MulCompare(Tickets(lower, upper, stride, chunk), t, chunk);
    if t < 0 { MulCompare(t, -1, chunk); }
  }

  /** The calls that get work. */
  function Successes(lower: int, upper: int, stride: int, chunk: int, m: nat): nat {
    if m == 0 then 0
    else Successes(lower, upper, stride, chunk, m - 1) + if ReplyTo(lower, upper, stride, chunk, m - 1).more then 1
         else 0
  }

  /** Exactly as many calls succeed as there are chunks. */
  lemma {:induction false} SuccessCount(lower: int, upper: int, stride: int, chunk: int, m: nat)
    requires stride > 0 && chunk > 0
    ensures var n := Tickets(lower, upper, stride, chunk);
            Successes(lower, upper, stride, chunk, m) == if m < n then m else n
  {
    hide ReplyTo, Tickets;
    if m > 0 {
      SuccessCount(lower, upper, stride, chunk, m - 1);
      TicketSucceeds(lower, upper, stride, chunk, m - 1);
    }
  }

  /** At most one call reports last, and that call has the final iteration; but some call does so
      only if the chunk size does not divide the trip count. */
  lemma LastIsReportedIff(lower: int, upper: int, stride: int, chunk: int)
    requires stride > 0 && chunk > 0 && lower <= upper
    ensures (exists t: nat :: ReplyTo(lower, upper, stride, chunk, t).last) <==> Trip(lower, upper, stride) % chunk != 0
    ensures forall t: nat | ReplyTo(lower, upper, stride, chunk, t).last ::
              Hands(lower, stride, ReplyTo(lower, upper, stride, chunk, t), Trip(lower, upper, stride) - 1)
  {
    hide ReplyTo, Hands;
    var trip, n := Trip(lower, upper, stride), Tickets(lower, upper, stride, chunk);
    TripCountIs(lower, upper, stride);
    ShareBounds(trip, chunk);
    TicketLast(lower, upper, stride, chunk, n - 1);
    forall t: nat | ReplyTo(lower, upper, stride, chunk, t).last
      ensures trip % chunk != 0 && Hands(lower, stride, ReplyTo(lower, upper, stride, chunk, t), trip - 1)
    {
      TicketLast(lower, upper, stride, chunk, t);
      TicketMeans(lower, upper, stride, chunk, t, trip - 1);
      QuotientIs(trip - 1, chunk, t);
      Distribute(n, -1, chunk);
    }
  }

  /** Four iterations in chunks of two: no call ever reports last. */
  lemma NoLastChunk(t: nat)
    ensures Trip(0, 3, 1) == 4 && !ReplyTo(0, 3, 1, 2, t).last
  {
    TicketLast(0, 3, 1, 2, t);
  }

  /** A descending loop is never dispatched rightly: the clamp and the end test are those of an
      ascending one.  If it has more than one value to run through, its first iteration is handed
      out by no call; if it has one, later calls hand out iterations after the end. */
  lemma DescendingDispatchFails(lower: int, upper: int, stride: int, chunk: int)
    requires stride < 0 && chunk > 0 && lower >= upper
    ensures lower > upper ==> forall t: nat :: !HandsDown(ReplyTo(lower, upper, stride, chunk, t), lower)
    ensures lower == upper ==>
              ReplyTo(lower, upper, stride, chunk, 1).more && ReplyTo(lower, upper, stride, chunk, 1).lower < upper
  {
    forall t: nat | lower > upper ensures !HandsDown(ReplyTo(lower, upper, stride, chunk, t), lower) {
      if t > 0 { LaterTicketLower(stride, chunk, t); }
    }
    LaterTicketLower(stride, chunk, 1);
  }

  /** The value x is in the range that a reply hands out, downwards. */
  predicate HandsDown(reply: Reply, x: int) {
    reply.more && reply.upper <= x <= reply.lower
  }

  lemma LaterTicketLower(stride: int, chunk: int, t: int)
    requires stride < 0 && chunk > 0 && t > 0
    ensures t * stride * chunk < 0
  {
    MulGrows(t, -stride);
    Negate(t, stride);
    Commute(t, stride);
    MulGrows(-(t * stride), chunk);
    Negate(t * stride, chunk);
  }

  // ------------------------------------------------ static chunked dispatch

  /** The value x is handed out by a reply: the thread starts at lower and goes on in strides. */
  predicate HandsValue(stride: int, reply: Reply, x: int)
    requires stride > 0
  {
    reply.more && reply.lower <= x <= reply.upper && (x - reply.lower) % stride == 0
  }

  /** Thread g hands out the value x in the given round. */
  predicate Deals(lower: int, upper: int, stride: int, chunk: int, size: nat, g: nat, round: nat, x: int)
    requires stride > 0
  {
    HandsValue(stride, ChunkReply(lower, upper, stride, chunk, size, g, round, false), x)
  }

  /** All the calls together hand out the values of the loop, each once. */
  ghost predicate DealsOnce(lower: int, upper: int, stride: int, chunk: int, size: nat)
    requires stride > 0
  {
    && (forall g: nat, r: nat, x | g < size && Deals(lower, upper, stride, chunk, size, g, r, x) ::
          InLoopValue(lower, upper, stride, x))
    && (forall x | InLoopValue(lower, upper, stride, x) :: exists g: nat, r: nat ::
        g < size && Deals(lower, upper, stride, chunk, size, g, r, x))
    && (forall g: nat, r: nat, h: nat, q: nat, x | g < size && h < size
        && Deals(lower, upper, stride, chunk, size, g, r, x)
            && Deals(lower, upper, stride, chunk, size, h, q, x) ::
          g == h && r == q)
  }

  /** x is a value of the loop variable. */
  predicate InLoopValue(lower: int, upper: int, stride: int, x: int)
    requires stride > 0
  {
    lower <= x <= upper && (x - lower) % stride == 0
  }

  /** A thread that was told there is no more work is told so ever after. */
  lemma NoMoreChunks(lower: int, upper: int, stride: int, chunk: int, size: nat, g: nat, r: nat, later: nat)
    requires stride > 0 && chunk > 0 && size > 0 && r <= later
    ensures !ChunkReply(lower, upper, stride, chunk, size, g, r, false).more ==>
              !ChunkReply(lower, upper, stride, chunk, size, g, later, false).more
  {
    var step := size * stride;
    MulGrows(size, stride);
    Commute(step, r);
    Commute(step, later);
    MulCompare(r, later, step);
    Commute(chunk, g + step * r);
    Commute(chunk, g + step * later);
    MulCompare(g + step * r, g + step * later, chunk);
  }

  lemma ModShift(x: int, a: int, d: int)
    requires d > 0
    ensures (x + a * d) % d == x % d
  {
    var q := x / d;
    Distribute(q, a, d);
    QuotientIs(x + a * d, d, q + a);
  }

  lemma InLoopValueIs(lower: int, upper: int, stride: int, x: int)
    requires stride > 0 && InLoopValue(lower, upper, stride, x)
    ensures var k := (x - lower) / stride; k >= 0 && x == Value(lower, k, stride)
  {
    var k := (x - lower) / stride;
    QuotientIs(x - lower, stride, k);
    if k < 0 { MulCompare(k, -1, stride); }
  }

  lemma UnitStrideDeal(lower: int, upper: int, chunk: int, size: nat, g: nat, r: nat, x: int)
    requires chunk > 0 && size > 0
    ensures Deals(lower, upper, 1, chunk, size, g, r, x) <==>
            lower <= x <= upper && InThreadRound(x - lower, chunk, size, g, r)
  {
    var c := g + size * r;
    Commute(size, r);
    Commute(chunk, c);
    QuotientIs(x - lower, chunk, c);
    MulCompare(0, r, size);
    MulCompare(0, c, chunk);
  }

  lemma UnitStrideDeals(lower: int, upper: int, chunk: int, size: nat)
    requires chunk > 0 && size > 0 && lower <= upper
    ensures DealsOnce(lower, upper, 1, chunk, size)
  {
    hide Deals;
    forall g: nat, r: nat, x | g < size && Deals(lower, upper, 1, chunk, size, g, r, x)
      ensures InLoopValue(lower, upper, 1, x) {
      UnitStrideDeal(lower, upper, chunk, size, g, r, x);
    }
    forall x | InLoopValue(lower, upper, 1, x)
      ensures exists g: nat, r: nat :: g < size && Deals(lower, upper, 1, chunk, size, g, r, x) {
      var g, r := ChunkedPartition(x - lower, chunk, size);
      UnitStrideDeal(lower, upper, chunk, size, g, r, x);
      assert InThreadRound(x - lower, chunk, size, g, r);
    }
    forall g: nat, r: nat, h: nat, q: nat, x | g < size && h < size && Deals(lower, upper, 1, chunk, size, g, r, x)
        && Deals(lower, upper, 1, chunk, size, h, q, x) ensures g == h && r == q
    {
      UnitStrideDeal(lower, upper, chunk, size, g, r, x);
      UnitStrideDeal(lower, upper, chunk, size, h, q, x);
      var g0, r0 := ChunkedPartition(x - lower, chunk, size);
      assert InThreadRound(x - lower, chunk, size, g, r) && InThreadRound(x - lower, chunk, size, h, q);
    }
  }

  /** One thread gets chunk after chunk. */
  lemma OneThreadDeal(lower: int, upper: int, stride: int, chunk: int, r: nat, x: int)
    requires stride > 0 && chunk > 0
    ensures Deals(lower, upper, stride, chunk, 1, 0, r, x) <==>
            InLoopValue(lower, upper, stride, x) && InShare((x - lower) / stride, chunk, r)
  {
    var first := r * chunk;
    MulCompare(0, r, chunk);
    MulCompare(0, first, stride);
    Commute(chunk, stride * r);
    Reassociate(stride, r, chunk);
    Commute(stride, first);
    ModShift(x - lower, -first, stride);
    Negate(first, stride);
    if InLoopValue(lower, upper, stride, x) {
      var k := (x - lower) / stride;
      InLoopValueIs(lower, upper, stride, x);
      RangeHolds(lower, stride, first, chunk, k);
      Commute(stride, chunk - 1);
      QuotientIs(k, chunk, r);
    }
  }

  lemma OneThreadDeals(lower: int, upper: int, stride: int, chunk: int)
    requires stride > 0 && chunk > 0 && lower <= upper
    ensures DealsOnce(lower, upper, stride, chunk, 1)
  {
    hide Deals, InLoopValue;
    forall g: nat, r: nat, x | g < 1 && Deals(lower, upper, stride, chunk, 1, g, r, x)
      ensures InLoopValue(lower, upper, stride, x) {
      OneThreadDeal(lower, upper, stride, chunk, r, x);
    }
    forall x | InLoopValue(lower, upper, stride, x)
      ensures exists g: nat, r: nat :: g < 1 && Deals(lower, upper, stride, chunk, 1, g, r, x) {
      InLoopValueIs(lower, upper, stride, x);
      var k := (x - lower) / stride;
      var r := k / chunk;
      QuotientIs(k, chunk, r);
      if r < 0 { MulCompare(r, -1, chunk); }
      OneThreadDeal(lower, upper, stride, chunk, r, x);
      assert Deals(lower, upper, stride, chunk, 1, 0, r, x);
    }
    forall g: nat, r: nat, h: nat, q: nat, x | g < 1 && h < 1 && Deals(lower, upper, stride, chunk, 1, g, r, x)
        && Deals(lower, upper, stride, chunk, 1, h, q, x)
      ensures g == h && r == q
    {
      OneThreadDeal(lower, upper, stride, chunk, r, x);
      OneThreadDeal(lower, upper, stride, chunk, q, x);
    }
  }

  /** If the first chunk could reach the end, the first call of thread 0 hands out everything. */
  lemma OneChunkDeal(lower: int, upper: int, stride: int, chunk: int, size: nat, g: nat, r: nat, x: int)
    requires stride > 0 && chunk > 0 && size > 0 && lower <= upper < lower + chunk
    ensures Deals(lower, upper, stride, chunk, size, g, r, x) <==>
            g == 0 && r == 0 && InLoopValue(lower, upper, stride, x)
  {
    var c := g + size * stride * r;
    MulGrows(size, stride);
    if r > 0 { MulGrows(size * stride, r); }
    if c > 0 {
      MulCompare(1, c, chunk);
      Commute(chunk, c);
    }
    if chunk > 1 { MulCompare(1, stride, chunk - 1); }
  }

  lemma OneChunkDeals(lower: int, upper: int, stride: int, chunk: int, size: nat)
    requires stride > 0 && chunk > 0 && size > 0 && lower <= upper < lower + chunk
    ensures DealsOnce(lower, upper, stride, chunk, size)
  {
    hide Deals, InLoopValue;
    forall g: nat, r: nat, x
      ensures Deals(lower, upper, stride, chunk, size, g, r, x) <==>
              g == 0 && r == 0 && InLoopValue(lower, upper, stride, x) {
      OneChunkDeal(lower, upper, stride, chunk, size, g, r, x);
    }
    forall x | InLoopValue(lower, upper, stride, x)
      ensures exists g: nat, r: nat :: g < size && Deals(lower, upper, stride, chunk, size, g, r, x) {
      assert Deals(lower, upper, stride, chunk, size, 0, 0, x);
    }
  }

  lemma SecondThreadFails(lower: int, upper: int, stride: int, chunk: int, size: nat)
    requires stride > 1 && chunk > 0 && size > 1 && lower + chunk <= upper
    ensures !DealsOnce(lower, upper, stride, chunk, size)
  {
    var x := lower + chunk;
    if chunk > 1 { MulCompare(1, stride, chunk - 1); }
    assert ChunkReply(lower, upper, stride, chunk, size, 1, 0, false).lower == x;
    assert stride * (chunk - 1) >= 0 by { Commute(stride, chunk - 1); }
    assert Deals(lower, upper, stride, chunk, size, 1, 0, x);
    if InLoopValue(lower, upper, stride, x) {
      SecondStartReached(stride, chunk);
      assert ChunkReply(lower, upper, stride, chunk, size, 0, 0, false).lower == lower;
      assert Deals(lower, upper, stride, chunk, size, 0, 0, x);
    }
  }

  lemma SecondStartReached(stride: int, chunk: int)
    requires stride > 1 && chunk > 0 && chunk % stride == 0
    ensures stride * (chunk - 1) >= chunk
  {
    MulCompare(2, stride, chunk - 1);
    Commute(stride, chunk - 1);
  }

  /** Main result on static chunked dispatch: it hands out the loop exactly if the stride is 1, or
      there is one thread, or the values of the loop end before those of the first chunk could.  In
      all other cases thread 1 starts with a value outside the loop or with one of thread 0. */
  lemma ChunkedDispatchIff(lower: int, upper: int, stride: int, chunk: int, size: nat)
    requires stride > 0 && chunk > 0 && size > 0 && lower <= upper
    ensures DealsOnce(lower, upper, stride, chunk, size) <==> stride == 1 || size == 1 || upper - lower < chunk
  {
    if stride == 1 {
      UnitStrideDeals(lower, upper, chunk, size);
    } else if size == 1 {
      OneThreadDeals(lower, upper, stride, chunk);
    } else if upper - lower < chunk {
      OneChunkDeals(lower, upper, stride, chunk, size);
    } else {
      SecondThreadFails(lower, upper, stride, chunk, size);
    }
  }

  /** Call r of thread g sets *p_last. */
  predicate ChunkIsLast(lower: int, upper: int, chunk: int, size: nat, g: nat, r: nat) {
    ChunkReply(lower, upper, 1, chunk, size, g, r, false).last
  }

  lemma ChunkIsLastMeans(lower: int, upper: int, chunk: int, size: nat, g: nat, r: nat)
    requires chunk > 0
    ensures ChunkIsLast(lower, upper, chunk, size, g, r) <==> upper - lower + 1 == (g + r * size + 1) * chunk
  {
    var c := g + r * size;
    Commute(size, r);
    Commute(chunk, c);
    Distribute(c, 1, chunk);
  }

  /** With stride 1 some call sets *p_last exactly if the chunk size divides the trip count: the
      opposite of the dynamic loop. */
  lemma ChunkedLastIsReportedIff(lower: int, upper: int, chunk: int, size: nat)
    requires chunk > 0 && size > 0 && lower <= upper
    ensures (exists g: nat, r: nat :: g < size && ChunkIsLast(lower, upper, chunk, size, g, r)) <==>
            Trip(lower, upper, 1) % chunk == 0
  {
    hide ChunkIsLast;
    var trip := upper - lower + 1;
    assert Trip(lower, upper, 1) == trip;
    forall g: nat, r: nat | g < size && ChunkIsLast(lower, upper, chunk, size, g, r) ensures trip % chunk == 0 {
      ChunkIsLastMeans(lower, upper, chunk, size, g, r);
      MultipleIsWhole(g + r * size + 1, chunk, trip);
    }
    if trip % chunk == 0 {
      var g, r := ChunkedPartition(LastChunkNumber(trip, chunk) * 1, 1, size);
      ChunkIsLastMeans(lower, upper, chunk, size, g, r);
      assert InThreadRound(LastChunkNumber(trip, chunk), 1, size, g, r);
      assert ChunkIsLast(lower, upper, chunk, size, g, r);
    }
  }

  function LastChunkNumber(trip: int, chunk: int): (c: nat)
    requires trip >= 1 && chunk >= 1 && trip % chunk == 0
    ensures (c + 1) * chunk == trip
  {
    LastChunk(trip, chunk);
    QuotientIs(trip, chunk, trip / chunk);
    if trip / chunk <= 0 then MulCompare(trip / chunk, 0, chunk); 0 else trip / chunk - 1
  }

  lemma MultipleIsWhole(a: int, chunk: int, trip: int)
    requires chunk > 0 && trip == a * chunk
    ensures trip % chunk == 0
  {
    QuotientIs(trip, chunk, a);
  }
}
