# net_sync: tick synchronisation, modelled in Dafny

net_sync keeps a counter that shows 1, 2, …, 10, 1, … once a second in step
between a server and a client. The server owns the counter: a ticker thread
prints `(g_ticks % 10) + 1`, increments `g_ticks` and sleeps until
`g_starttime + g_ticks` seconds, while the main thread answers each client
datagram with the counter value and the nanoseconds left until its next
increment. The client sends one numbered request per round and, on an
acknowledged reply, sets its own counter to the server's and sleeps until the
server's next tick (time to fire less the one-way delay) before printing.

This project models the two pieces of integer decision logic in the code:

- `Server.Reply` — the reply the server builds (`src/server.cpp`), including
  the one-step correction for a ticker that woke late, and `Server.TickerStep`
  / `Server.TickerRun` — the ticker loop body and the loop.
- `Client.Step` — one iteration of the client's main loop
  (`src/client.cpp`) as a function from the state (`g_ticks`, `seq_counter`)
  and what the round observed to the new state, the outcome (timeout,
  sequence mismatch, accepted) and the ordered effects (send, sleep, print).
  `Client.Run` strings rounds together.
- `Protocol` connects the two: the server's acknowledgement convention
  (`seq + 1`) is exactly what the client accepts.

Clock readings (`now`, `t1`, `t2`, `t3`), the start instant, the counter value
the server reads, the result of `recvfrom` and the one-way delay are inputs.
Counters, sequence numbers and the timestamp fields of a message are unsigned
64-bit values with wrap-around written out (`Uint64.Inc`); the time-to-fire
field and all nanosecond time arithmetic are unbounded integers.

Three features of the code shape the model:

- The server's correction compares `now > g_starttime + g_ticks` seconds
  (src/server.cpp:136), a strict comparison, and bumps the reported count at
  most once. So with `now` exactly at that instant there is no bump and the
  time to fire is 0 (`Server.ReplyAtBoundary`), and a ticker more than one
  second late yields a negative time to fire
  (`Server.ReplyTimeToFireNegativeWhenVeryLate`).
- The client has no ticker thread and no epoch: on an accepted reply it sets
  `g_ticks` to the server's count inline (src/client.cpp:115), sleeps, and
  prints once per round.
- The client's timeout test is `-1 == msg_size` (src/client.cpp:97); any
  other receive result goes on to the sequence check.

## Model

| member | source | states |
|---|---|---|
| Uint64.Inc | src/server.cpp:129 | `x++` on a 64-bit counter: one more below the maximum, 0 at the maximum, and never the value it started from |
| Ticks.Display | src/client.cpp:38 | the printed value `(t % 10) + 1` always lies in 1..10 |
| Ticks.DisplayCycles | src/server.cpp:56-57 | below the 64-bit maximum, the value printed after an increment is the next one of the cycle 1..10,1: no skip, no repeat |
| Ticks.DisplayAtWrap | src/server.cpp:56-57 | at the 64-bit wrap the cycle breaks: the maximum prints 6 and the wrapped counter prints 1 |
| Server.Correct | src/server.cpp:130-139 | the reported count is the counter read or one more; it is bumped exactly when `now` is strictly past `start + ticks` seconds; the next firing is `start + reported` seconds and, below the 64-bit maximum, is not before `now` unless the ticker is more than a second late |
| Server.Reply | src/server.cpp:129-147 | reply `seq` is request `seq + 1` (wrapping) and never the request's; `t1`, `t4` pass through; `t2`, `t3` are the handler's clock readings; reported count is the counter or one more, bumped iff `now` is past its instant; time to fire is next firing minus `now` |
| Server.ReplyAtBoundary | src/server.cpp:136-139 | with `now` exactly at `start + ticks` seconds there is no bump and the time to fire is 0 |
| Server.ReplyPastBoundary | src/server.cpp:136-137 | with `now` strictly past `start + ticks` seconds the reported count is the counter plus one |
| Server.ReplyTimeToFireNonNegative | src/server.cpp:131-144 | if `now` is no later than `start + (ticks + 1)` seconds, the time to fire is not negative |
| Server.ReplyTimeToFireNegativeWhenVeryLate | src/server.cpp:134-144 | if `now` is past `start + (ticks + 1)` seconds, the single bump leaves a negative time to fire |
| Server.TickerStep | src/server.cpp:56-58 | one ticker pass shows a value in 1..10, advances the counter by one (wrapping) and sleeps until `start` plus the new counter in seconds |
| Server.TickerConsecutive | src/server.cpp:56-58 | two consecutive passes: the display moves to the next value of the cycle and the wake target moves exactly one second later |
| Server.TickerRun | src/server.cpp:48-59 | from a counter of 0, pass i shows `(i mod 2^64) % 10 + 1` and wakes at `start + ((i + 1) mod 2^64)` seconds; after n passes the counter is `n mod 2^64` |
| Client.Request | src/client.cpp:81-84 | the request of a round is a zeroed message carrying only the round's sequence number and send time `t1` |
| Client.Output | src/client.cpp:33-40 | `do_output` prints one value in 1..10 and advances the counter by exactly one |
| Client.Classify | src/client.cpp:97-112 | a round times out exactly when `recvfrom` returned -1, and is accepted exactly when it did not and the reply's `seq` is the sent `seq + 1` |
| Client.Step | src/client.cpp:79-118 | every round sends `seq_counter` and advances it by one, prints exactly one value in 1..10 as its last effect, and leaves the counter one past the server's count when accepted and one past its own otherwise |
| Client.StepTimedOut | src/client.cpp:97-101 | on timeout: no sleep, no recalibration, one output of the running counter |
| Client.StepSeqMismatch | src/client.cpp:105-111 | on a wrong acknowledgement: exactly one second of sleep, no recalibration, one output of the running counter |
| Client.StepAccepted | src/client.cpp:114-118 | on acceptance: one sleep of exactly time to fire minus one-way delay, the printed value is the server count's display value and the counter ends one past the server's count |
| Client.RunOutputsOncePerRound | src/client.cpp:97-118 | over any sequence of rounds, each round prints exactly one value, in 1..10 |
| Client.Final | src/client.cpp:79-121 | the state the loop reaches after k rounds from any state; its `seq_counter` has advanced by exactly k (mod 2^64), whatever the outcomes |
| Client.Run | src/client.cpp:79-121 | the loop as a sequence of rounds, one result per round received or timed out, the first round starting from the given state |
| Client.RunChains | src/client.cpp:79-121 | round k of a run ends in the state the first k + 1 rounds leave, so each round starts where the previous one ended |
| Client.RunSequenceNumbers | src/client.cpp:83 | round k sends sequence number `seq_counter + k` (mod 2^64) |
| Client.InitialRunSequenceNumbers | src/client.cpp:78-83 | from the initial state, round k sends sequence number k |
| Client.FinalTicksWithoutAccept | src/client.cpp:97-111 | if no round is accepted, after k rounds `g_ticks` has advanced by exactly k (mod 2^64) |
| Client.RoundWithoutAccept | src/client.cpp:97-111 | a round that does not accept prints the display value of the client's own counter |
| Client.RunWithoutAcceptCountsOn | src/client.cpp:97-111 | if no round is accepted, round k prints the display value of `g_ticks + k` |
| Protocol.ReplyToCurrentRequestAccepted | src/client.cpp:105-116 | the server's reply to the request just sent, if received, is accepted; the client takes the reported count and sleeps time to fire minus one-way delay |
| Protocol.ReplyMatchesTicker | src/server.cpp:130-144 | when the counter is the value a ticker pass left and `now` is not past that pass's wake instant, the reply reports that count with a time to fire equal to the time left until the ticker wakes, and the accepting client prints the value the ticker prints next |
| Protocol.ReplyToOtherRequestRejected | src/client.cpp:105-111 | a server reply to any other request is a sequence mismatch: one second of sleep and the client's counter counts on alone |

## Left out

- Sockets, `bind`, `sendto`, `recvfrom`, `SO_RCVTIMEO`, `gethostbyname`, `gethostbyaddr` and the `error()` exits: operating-system I/O. A round's receive result is the input `size`, and the reply datagram is an input message.
- Command-line checks and `atoi` (src/server.cpp:71-75, src/client.cpp:45-50): argument handling only.
- The `secret.txt` file (src/server.cpp:39-46) and all console printing other than the displayed number: diagnostics only.
- `std::thread` and `std::atomic`: the server's two threads are separate functions that take the counter value as a parameter; interleavings are not modelled.
- Real clocks and the sleeps themselves: clock readings are inputs, and a sleep is an effect carrying its duration (a non-positive duration returns at once in the code). Stamping `t4` (src/client.cpp:94) is not modelled: `t4` can be read only inside `packet.h` (by `oneway_delay()` and the diagnostic `dump()`), so the model's decisions depend on it only through the one-way delay input.
- `packet.h` is not part of this model: the byte-order codec (`hton`/`ntoh`), `dump`, and `oneway_delay()`, which is an opaque integer input of each round.
- The `ntoh` applied to an unreceived buffer on timeout (src/client.cpp:93): its effect is discarded by the code.
- A datagram shorter than a full message, which overwrites only part of the client's buffer: the reply is modelled as a whole message.
- The width and signedness of the `time_to_fire` field, declared in `packet.h`, are unknown; the field is modelled as an unbounded `int`, so the conversion of a negative time to fire (see Server.ReplyTimeToFireNegativeWhenVeryLate) into that field and back is not modelled.
- The 64-bit signed representation of `std::chrono` nanosecond durations: `g_starttime + seconds(n)` and `next_firing - now` are on unbounded integers, so their overflow is not modelled. With a clock counted from 1970, `start` is already about 1.8·10^18 ns, and `start + n` seconds overflows once n exceeds (2^63 − 1 − start)/10^9 seconds, several billion seconds.
- Server.Correct: the clause that the next firing is not before `now` assumes the counter is below 2^64 − 1, because at that value the bump wraps the reported count to 0 and the next firing becomes `start`.
- Server.ReplyTimeToFireNonNegative: assumes the counter is below 2^64 − 1, because at that value the bump wraps the reported count to 0.
- Server.TickerConsecutive: assumes the counter is below 2^64 − 2, because at the wrap the display and wake target jump (see Ticks.DisplayAtWrap).
- Ticks.DisplayCycles: assumes the counter is below 2^64 − 1, for the same reason.
