/** The client: one iteration of its main loop as a step function from the
    loop's state and what the round observes to the new state and the
    effects the round has, in order. Sockets and clocks are inputs. */
module Client {
  import opened Uint64
  import opened Ticks
  import opened SyncMessage

  /** `g_ticks` and `seq_counter`. */
  datatype State = State(ticks: u64, seqCounter: u64)

  /** Both counters start at zero. */
  const Init: State := State(0, 0)

  /** What one round observes: the send time `t1`, the value `recvfrom`
      returned, the reply it delivered (after byte-order conversion) and
      the one-way delay `oneway_delay()` computes from it. */
  datatype RoundInput = RoundInput(t1: u64, size: int, reply: Msg, onewayDelay: int)

  datatype Outcome = TimedOut | SeqMismatch | Accepted

  datatype Event =
    | Send(msg: Msg)       // the request datagram
    | Sleep(nanos: int)    // sleep_for; a non-positive duration returns at once
    | Print(value: int)    // the number `do_output` prints

  datatype RoundResult = RoundResult(state: State, outcome: Outcome, events: seq<Event>)

  /** The request of a round: a zeroed message with `seq` and `t1` set. */
  function Request(seqNo: u64, t1: u64): (m: Msg)
    ensures m.seqNo == seqNo && m.t1 == t1
    ensures m.t2 == 0 && m.t3 == 0 && m.t4 == 0 && m.serverTicks == 0 && m.timeToFire == 0
  {
    Zero.(seqNo := seqNo, t1 := t1)
  }

  /** The values the events of a round print, in order. */
  function Printed(evs: seq<Event>): (values: seq<int>)
  {
    if evs == [] then []
    else (if evs[0].Print? then [evs[0].value] else []) + Printed(evs[1..])
  }

  /** The sleep durations of a round, in order. */
  function Slept(evs: seq<Event>): (durations: seq<int>)
  {
    if evs == [] then []
    else (if evs[0].Sleep? then [evs[0].nanos] else []) + Slept(evs[1..])
  }

  /** The two shapes a round's effects take after the request: an output
      alone, or one sleep followed by an output. */
  lemma RoundShapes(req: Msg, nanos: int, out: Event)
    requires out.Print?
    ensures Printed([Send(req), out]) == [out.value]
    ensures Slept([Send(req), out]) == []
    ensures Printed([Send(req), Sleep(nanos), out]) == [out.value]
    ensures Slept([Send(req), Sleep(nanos), out]) == [nanos]
  {
    var one := [out];
    var two := [Sleep(nanos), out];
    assert one[1..] == [];
    assert Printed(one) == [out.value] && Slept(one) == [];
    assert two[1..] == one;
    assert Printed(two) == [out.value] && Slept(two) == [nanos];
    assert ([Send(req)] + one)[1..] == one;
    assert ([Send(req)] + two)[1..] == two;
    assert [Send(req), out] == [Send(req)] + one;
    assert [Send(req), Sleep(nanos), out] == [Send(req)] + two;
  }

  /** `do_output`: prints the counter's display value and increments the counter. */
  function Output(ticks: u64): (r: (Event, u64))
    ensures r.0.Print? && 1 <= r.0.value <= 10
    ensures r.1 == Inc(ticks)
  {
    (Print(Display(ticks)), Inc(ticks))
  }

  /** How a round ends: a receive result of exactly -1 is a timeout; otherwise
      the reply must carry the acknowledgement `seq_counter` + 1 of the
      request just sent. */
  function Classify(sent: u64, input: RoundInput): (o: Outcome)
    ensures o == TimedOut <==> input.size == -1
    ensures o == Accepted <==> input.size != -1 && input.reply.seqNo == Inc(sent)
  {
    if input.size == -1 then TimedOut
    else if input.reply.seqNo != Inc(sent) then SeqMismatch
    else Accepted
  }

  /** The counter value `do_output` prints from in a round: the server's count
      once its reply is accepted (`g_ticks = msg.server_ticks`), the running
      counter otherwise. */
  function Shown(s: State, input: RoundInput): (shown: u64)
  {
    if Classify(s.seqCounter, input) == Accepted then input.reply.serverTicks else s.ticks
  }

  /** The state a round leaves behind. */
  function After(s: State, input: RoundInput): (t: State)
  {
    State(Output(Shown(s, input)).1, Inc(s.seqCounter))
  }

  /** A round that does not accept advances the running counter by one. */
  lemma AfterWithoutAccept(s: State, input: RoundInput)
    requires Classify(s.seqCounter, input) != Accepted
    ensures After(s, input).ticks == Inc(s.ticks)
  {
  }

  /** One iteration of the client's loop. */
  function Step(s: State, input: RoundInput): (r: RoundResult)
    ensures r.outcome == Classify(s.seqCounter, input)
    ensures r.state == After(s, input)
    ensures r.state.seqCounter == Inc(s.seqCounter)
    ensures |r.events| >= 2 && r.events[0] == Send(Request(s.seqCounter, input.t1))
    ensures |Printed(r.events)| == 1 && r.events[|r.events| - 1].Print?
    ensures 1 <= Printed(r.events)[0] <= 10
    ensures r.outcome == Accepted ==> r.state.ticks == Inc(input.reply.serverTicks)
    ensures r.outcome != Accepted ==> r.state.ticks == Inc(s.ticks)
  {
    var req := Request(s.seqCounter, input.t1);
    var out := Output(Shown(s, input)).0;
    var nap := input.reply.timeToFire - input.onewayDelay;
    RoundShapes(req, NanosPerSecond, out);
    RoundShapes(req, nap, out);
    var outcome := Classify(s.seqCounter, input);
    var events :=
      match outcome
      case TimedOut => [Send(req), out]
      case SeqMismatch => [Send(req), Sleep(NanosPerSecond), out]
      case Accepted => [Send(req), Sleep(nap), out];
    RoundResult(After(s, input), outcome, events)
  }

  /** A timeout: no sleep, no recalibration, one output of the running counter. */
  lemma StepTimedOut(s: State, input: RoundInput)
    requires input.size == -1
    ensures Step(s, input).outcome == TimedOut
    ensures Slept(Step(s, input).events) == []
    ensures Printed(Step(s, input).events) == [Display(s.ticks)]
    ensures Step(s, input).state == State(Inc(s.ticks), Inc(s.seqCounter))
  {
    RoundShapes(Request(s.seqCounter, input.t1), NanosPerSecond, Output(s.ticks).0);
  }

  /** A reply with the wrong acknowledgement: exactly one second of sleep, no
      recalibration, one output of the running counter. */
  lemma StepSeqMismatch(s: State, input: RoundInput)
    requires input.size != -1
    requires input.reply.seqNo != Inc(s.seqCounter)
    ensures Step(s, input).outcome == SeqMismatch
    ensures Slept(Step(s, input).events) == [NanosPerSecond]
    ensures Printed(Step(s, input).events) == [Display(s.ticks)]
    ensures Step(s, input).state == State(Inc(s.ticks), Inc(s.seqCounter))
  {
    RoundShapes(Request(s.seqCounter, input.t1), NanosPerSecond, Output(s.ticks).0);
  }

  /** An accepted reply: the counter is set to the server's, the sleep is the
      time to fire less the one-way delay, and the value printed is the
      server's counter's display value. */
  lemma StepAccepted(s: State, input: RoundInput)
    requires input.size != -1
    requires input.reply.seqNo == Inc(s.seqCounter)
    ensures Step(s, input).outcome == Accepted
    ensures Slept(Step(s, input).events) == [input.reply.timeToFire - input.onewayDelay]
    ensures Printed(Step(s, input).events) == [Display(input.reply.serverTicks)]
    ensures Step(s, input).state == State(Inc(input.reply.serverTicks), Inc(s.seqCounter))
  {
    RoundShapes(Request(s.seqCounter, input.t1), input.reply.timeToFire - input.onewayDelay, Output(input.reply.serverTicks).0);
  }

  /** The state after running all of `inputs`, one round after another, from
      `s`. Every round, whatever its outcome, advances the sequence counter by
      one, so after k rounds it has advanced by k (mod 2^64). */
  function Final(s: State, inputs: seq<RoundInput>): (f: State)
    ensures f.seqCounter == (s.seqCounter + |inputs|) % Modulus
    decreases |inputs|
  {
    if inputs == [] then s
    else
      var n := |inputs| - 1;
      IncOfOffset(s.seqCounter, n);
      After(Final(s, inputs[..n]), inputs[n])
  }

  /** Rounds one after another: round k starts from the state the first k
      rounds left behind, so the first round starts from `s`. */
  function Run(s: State, inputs: seq<RoundInput>): (rs: seq<RoundResult>)
    ensures |rs| == |inputs|
    ensures inputs != [] ==> rs[0] == Step(s, inputs[0])
  {
    var rs := seq(|inputs|, k requires 0 <= k < |inputs| => Step(Final(s, inputs[..k]), inputs[k]));
    assert inputs != [] ==> inputs[..0] == [];
    rs
  }

  /** Each round ends in the state the rounds up to and including it leave. */
  lemma RunChains(s: State, inputs: seq<RoundInput>)
    ensures forall k :: 0 <= k < |inputs| ==> Run(s, inputs)[k].state == Final(s, inputs[..k + 1])
  {
    forall k | 0 <= k < |inputs|
      ensures Run(s, inputs)[k].state == Final(s, inputs[..k + 1])
    {
      assert inputs[..k + 1][..k] == inputs[..k];
    }
  }

  /** Every round of a run, whatever its outcome, prints exactly one value,
      and that value is in 1..10. */
  lemma RunOutputsOncePerRound(s: State, inputs: seq<RoundInput>)
    ensures forall k :: 0 <= k < |inputs| ==>
      |Printed(Run(s, inputs)[k].events)| == 1 && 1 <= Printed(Run(s, inputs)[k].events)[0] <= 10
  {
  }

  /** The last round of a run starts from the state the rounds before it
      left behind and ends in the state of the whole run. */
  lemma LastRound(s: State, inputs: seq<RoundInput>)
    requires inputs != []
    ensures var n := |inputs| - 1;
      && Run(s, inputs)[n] == Step(Final(s, inputs[..n]), inputs[n])
      && Final(s, inputs) == Run(s, inputs)[n].state
  {
  }

  /** The first n rounds of a run are the run of the first n inputs. */
  lemma RunPrefix(s: State, inputs: seq<RoundInput>, n: nat, k: nat)
    requires k < n <= |inputs|
    ensures Run(s, inputs[..n])[k] == Run(s, inputs)[k]
  {
    assert inputs[..n][..k] == inputs[..k];
  }

  /** Round k of a run sends sequence number `seq_counter + k` (mod 2^64). */
  lemma RoundSends(s: State, inputs: seq<RoundInput>, k: nat)
    requires k < |inputs|
    ensures Run(s, inputs)[k].events[0] == Send(Request((s.seqCounter + k) % Modulus, inputs[k].t1))
  {
    assert Run(s, inputs)[k] == Step(Final(s, inputs[..k]), inputs[k]);
  }

  /** Round k sends sequence number `seq_counter + k` (mod 2^64). */
  lemma RunSequenceNumbers(s: State, inputs: seq<RoundInput>)
    ensures forall k :: 0 <= k < |inputs| ==>
      Run(s, inputs)[k].events[0] == Send(Request((s.seqCounter + k) % Modulus, inputs[k].t1))
  {
    forall k | 0 <= k < |inputs|
      ensures Run(s, inputs)[k].events[0] == Send(Request((s.seqCounter + k) % Modulus, inputs[k].t1))
    {
      RoundSends(s, inputs, k);
    }
  }

  /** From the initial state, the sequence number sent in round k is k. */
  lemma InitialRunSequenceNumbers(inputs: seq<RoundInput>)
    requires |inputs| <= Modulus
    ensures forall k :: 0 <= k < |inputs| ==>
      Run(Init, inputs)[k].events[0] == Send(Request(k, inputs[k].t1))
  {
    forall k | 0 <= k < |inputs|
      ensures Run(Init, inputs)[k].events[0] == Send(Request(k, inputs[k].t1))
    {
      var sent: u64 := (Init.seqCounter + k) % Modulus;
      assert sent == k;
      RoundSends(Init, inputs, k);
    }
  }

  /** Without an accepted reply the client counts on its own: the counter ends
      `|inputs|` steps on. */
  lemma {:induction false} FinalTicksWithoutAccept(s: State, inputs: seq<RoundInput>)
    requires forall k :: 0 <= k < |inputs| ==> Run(s, inputs)[k].outcome != Accepted
    ensures Final(s, inputs).ticks == (s.ticks + |inputs|) % Modulus
    decreases |inputs|
  {
    if inputs != [] {
      var n := |inputs| - 1;
      var prefix := inputs[..n];
      forall k | 0 <= k < n
        ensures Run(s, prefix)[k].outcome != Accepted
      {
        RunPrefix(s, inputs, n, k);
      }
      FinalTicksWithoutAccept(s, prefix);
      var before := Final(s, prefix);
      LastRound(s, inputs);
      assert Classify(before.seqCounter, inputs[n]) != Accepted;
      AfterWithoutAccept(before, inputs[n]);
      assert Final(s, inputs) == After(before, inputs[n]);
      IncOfOffset(s.ticks, n);
    }
  }

  /** Without an accepted reply, round k prints the display value of
      `g_ticks + k`: the client's own count goes on undisturbed. */
  lemma RunWithoutAcceptCountsOn(s: State, inputs: seq<RoundInput>)
    requires forall k :: 0 <= k < |inputs| ==> Run(s, inputs)[k].outcome != Accepted
    ensures forall k :: 0 <= k < |inputs| ==>
      Printed(Run(s, inputs)[k].events) == [Display((s.ticks + k) % Modulus)]
  {
    forall k | 0 <= k < |inputs|
      ensures Printed(Run(s, inputs)[k].events) == [Display((s.ticks + k) % Modulus)]
    {
      RoundWithoutAcceptInRun(s, inputs, k);
    }
  }

  /** Round k of a run with no accepted reply prints the display value of
      `g_ticks + k`. */
  lemma RoundWithoutAcceptInRun(s: State, inputs: seq<RoundInput>, k: nat)
    requires forall k :: 0 <= k < |inputs| ==> Run(s, inputs)[k].outcome != Accepted
    requires k < |inputs|
    ensures Printed(Run(s, inputs)[k].events) == [Display((s.ticks + k) % Modulus)]
  {
    var prefix := inputs[..k];
    forall j | 0 <= j < k
      ensures Run(s, prefix)[j].outcome != Accepted
    {
      RunPrefix(s, inputs, k, j);
    }
    FinalTicksWithoutAccept(s, prefix);
    var before := Final(s, prefix);
    assert Run(s, inputs)[k] == Step(before, inputs[k]);
    RoundWithoutAccept(before, inputs[k]);
  }

  /** A round that does not accept prints the display value of the running
      counter. */
  lemma RoundWithoutAccept(s: State, input: RoundInput)
    requires Step(s, input).outcome != Accepted
    ensures Printed(Step(s, input).events) == [Display(s.ticks)]
  {
    if input.size == -1 {
      StepTimedOut(s, input);
    } else {
      StepSeqMismatch(s, input);
    }
  }
}
