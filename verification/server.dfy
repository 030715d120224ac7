/** The server: the reply it builds for each request, and its ticker thread.
    The clock readings, the shared counter `g_ticks` and the start instant
    `g_starttime` are inputs; the two threads are separate functions that see
    the counter as a parameter. */
module Server {
  import opened Uint64
  import opened Ticks
  import opened SyncMessage

  /** The tick count to report and the instant its next increment is due. */
  datatype Correction = Correction(serverTicks: u64, nextFiring: int)

  /** Reads the counter and, if `now` is already strictly past the instant the
      counter should have advanced at (the ticker woke late), reports the
      counter one tick ahead instead. Only one such bump is ever applied. */
  function Correct(ticks: u64, start: int, now: int): (c: Correction)
    ensures c.serverTicks == ticks || c.serverTicks == Inc(ticks)
    ensures c.serverTicks != ticks <==> now > Instant(start, ticks)
    ensures c.nextFiring == Instant(start, c.serverTicks)
    ensures now <= Instant(start, ticks) ==> c.nextFiring >= now
    ensures ticks < Max && now <= Instant(start, ticks + 1) ==> c.nextFiring >= now
  {
    if now > Instant(start, ticks) then
      Correction(Inc(ticks), Instant(start, Inc(ticks)))
    else
      Correction(ticks, Instant(start, ticks))
  }

  /** The reply to request `req`: `t2`, `now` and `t3` are the three clock
      readings the handler takes, `ticks` the counter value it reads. */
  function Reply(req: Msg, ticks: u64, start: int, t2: u64, now: int, t3: u64): (r: Msg)
    ensures r.seqNo == Inc(req.seqNo) && r.seqNo != req.seqNo
    ensures r.t1 == req.t1 && r.t4 == req.t4
    ensures r.t2 == t2 && r.t3 == t3
    ensures r.serverTicks == ticks || r.serverTicks == Inc(ticks)
    ensures r.serverTicks != ticks <==> now > Instant(start, ticks)
    ensures r.timeToFire == Instant(start, r.serverTicks) - now
  {
    var c := Correct(ticks, start, now);
    req.(seqNo := Inc(req.seqNo), t2 := t2, serverTicks := c.serverTicks,
         timeToFire := c.nextFiring - now, t3 := t3)
  }

  /** Exactly at the boundary there is no bump and nothing is left to wait. */
  lemma ReplyAtBoundary(req: Msg, ticks: u64, start: int, t2: u64, t3: u64)
    ensures Reply(req, ticks, start, t2, Instant(start, ticks), t3).serverTicks == ticks
    ensures Reply(req, ticks, start, t2, Instant(start, ticks), t3).timeToFire == 0
  {
  }

  /** Strictly past the boundary, the counter is reported one ahead. */
  lemma ReplyPastBoundary(req: Msg, ticks: u64, start: int, t2: u64, now: int, t3: u64)
    requires now > Instant(start, ticks)
    ensures Reply(req, ticks, start, t2, now, t3).serverTicks == Inc(ticks)
  {
  }

  /** When the ticker is less than one full second late (or not late at all),
      the reported time to fire is not negative. */
  lemma ReplyTimeToFireNonNegative(req: Msg, ticks: u64, start: int, t2: u64, now: int, t3: u64)
    requires ticks < Max
    requires now <= Instant(start, ticks + 1)
    ensures Reply(req, ticks, start, t2, now, t3).timeToFire >= 0
  {
  }

  /** A single bump does not cover a ticker more than a second late: the
      time to fire is then negative. */
  lemma ReplyTimeToFireNegativeWhenVeryLate(req: Msg, ticks: u64, start: int, t2: u64, now: int, t3: u64)
    requires ticks < Max
    requires now > Instant(start, ticks + 1)
    ensures Reply(req, ticks, start, t2, now, t3).serverTicks == ticks + 1
    ensures Reply(req, ticks, start, t2, now, t3).timeToFire < 0
  {
  }

  /** One pass of the ticker loop: the value shown, the counter after `g_ticks++`,
      and the instant the thread sleeps until. */
  datatype TickerIteration = TickerIteration(display: int, ticks: u64, wake: int)

  /** The ticker loop body for counter value `ticks`. */
  function TickerStep(start: int, ticks: u64): (it: TickerIteration)
    ensures 1 <= it.display <= 10
    ensures it.ticks == Inc(ticks)
    ensures it.wake == Instant(start, it.ticks)
  {
    var next := Inc(ticks);
    TickerIteration(Display(ticks), next, Instant(start, next))
  }

  /** Two consecutive passes away from the wrap: the display moves to the next
      value of the cycle and the wake target moves exactly one second on. */
  lemma TickerConsecutive(start: int, ticks: u64)
    requires ticks < Max - 1
    ensures TickerStep(start, TickerStep(start, ticks).ticks).display
            == TickerStep(start, ticks).display % 10 + 1
    ensures TickerStep(start, TickerStep(start, ticks).ticks).wake
            == TickerStep(start, ticks).wake + NanosPerSecond
  {
    DisplayCycles(ticks);
  }

  /** The ticker thread from its start (`g_ticks` = 0) for `n` passes: what it
      shows and when it wakes, in terms of the pass number alone. */
  method TickerRun(start: int, n: nat) returns (displays: seq<int>, wakes: seq<int>, ticks: u64)
    ensures |displays| == n && |wakes| == n
    ensures ticks == n % Modulus
    ensures forall i :: 0 <= i < n ==> displays[i] == (i % Modulus) % 10 + 1
    ensures forall i :: 0 <= i < n ==> wakes[i] == Instant(start, (i + 1) % Modulus)
  {
    displays, wakes, ticks := [], [], 0;
    var i := 0;
    while i < n
      invariant 0 <= i <= n
      invariant |displays| == i && |wakes| == i
      invariant ticks == i % Modulus
      invariant forall k :: 0 <= k < i ==> displays[k] == (k % Modulus) % 10 + 1
      invariant forall k :: 0 <= k < i ==> wakes[k] == Instant(start, (k + 1) % Modulus)
    {
      var it := TickerStep(start, ticks);
      IncOfOffset(0, i);
      displays := displays + [it.display];
      wakes := wakes + [it.wake];
      ticks := it.ticks;
      i := i + 1;
    }
  }
}
