/** One exchange end to end: the client's request answered by the server's
    reply, as the client's round then judges it. */
module Protocol {
  import opened Uint64
  import opened SyncMessage
  import Ticks
  import Server
  import opened Client

  /** The server's reply to the request just sent, when it arrives, is
      accepted: the server acknowledges with `seq + 1`, which is what the
      client expects. The client then takes the reported counter and sleeps
      the reported time to fire less the one-way delay. */
  lemma ReplyToCurrentRequestAccepted(s: State, t1: u64, ticks: u64, start: int,
                                      t2: u64, now: int, t3: u64, size: int, delay: int)
    requires size != -1
    ensures var reply := Server.Reply(Request(s.seqCounter, t1), ticks, start, t2, now, t3);
            var r := Step(s, RoundInput(t1, size, reply, delay));
            && r.outcome == Accepted
            && r.state.ticks == Inc(reply.serverTicks)
            && Slept(r.events) == [reply.timeToFire - delay]
            && reply.t1 == t1
  {
    var reply := Server.Reply(Request(s.seqCounter, t1), ticks, start, t2, now, t3);
    StepAccepted(s, RoundInput(t1, size, reply, delay));
  }

  /** The reply matches the server's ticker. Suppose the server's counter is the
      value one ticker pass left, and `now` is no later than the instant that
      pass sleeps until. Then the reply's time to fire is exactly the time
      left until the ticker wakes. On accepting it, the client prints the
      value the server's ticker prints when it wakes. */
  lemma ReplyMatchesTicker(s: State, t1: u64, t: u64, start: int,
                           t2: u64, now: int, t3: u64, size: int, delay: int)
    requires now <= Server.TickerStep(start, t).wake
    requires size != -1
    ensures var pass := Server.TickerStep(start, t);
            var reply := Server.Reply(Request(s.seqCounter, t1), pass.ticks, start, t2, now, t3);
            && reply.serverTicks == pass.ticks
            && reply.timeToFire == pass.wake - now
            && Printed(Step(s, RoundInput(t1, size, reply, delay)).events)
               == [Server.TickerStep(start, pass.ticks).display]
  {
    var pass := Server.TickerStep(start, t);
    var reply := Server.Reply(Request(s.seqCounter, t1), pass.ticks, start, t2, now, t3);
    StepAccepted(s, RoundInput(t1, size, reply, delay));
  }

  /** A reply the server built for any other request (a late answer to an
      earlier round, say) is rejected as a sequence mismatch and leaves the
      client's counter to count on by itself. */
  lemma ReplyToOtherRequestRejected(s: State, other: Msg, t1: u64, ticks: u64, start: int,
                                    t2: u64, now: int, t3: u64, size: int, delay: int)
    requires size != -1
    requires other.seqNo != s.seqCounter
    ensures var reply := Server.Reply(other, ticks, start, t2, now, t3);
            var r := Step(s, RoundInput(t1, size, reply, delay));
            && r.outcome == SeqMismatch
            && r.state.ticks == Inc(s.ticks)
            && Slept(r.events) == [Ticks.NanosPerSecond]
  {
    var reply := Server.Reply(other, ticks, start, t2, now, t3);
    IncInjective(other.seqNo, s.seqCounter);
    StepSeqMismatch(s, RoundInput(t1, size, reply, delay));
  }
}
