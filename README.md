# gologger record batch buffer, in Dafny

gologger is a small log-shipping agent. It reads log lines from a UDP
socket, collects them in a slice `dataMap` of length `dataMapSize`, and
posts that slice as JSON to a log store. A post happens when a size
condition holds on the receive path or when a periodic timer fires. This
project models that buffer and its two critical sections, both in
`main` in `logger.go`, and proves what they do.

- `BatchSpec` (batch_spec.dfy) is the buffer as a pure state machine. A
  `State` holds the slots, the write index `recordNumber` and a log `sent`
  of the batches handed to the sender. `Append` is the receive path and
  `Tick` is the timer path. Each is one atomic step, because both run
  under the same mutex.
- `BatchTrace` (batch_trace.dfy) runs the buffer over any sequence of
  events: received datagrams and timer ticks. Because of the mutex, every
  interleaving of the two goroutines is such a sequence.
- `Logger` (logger.dfy) is the imperative form. Class `Batcher` has an
  `array<string>` that is written in place and cleared in place, the
  integer index and a ghost `sent` log. Its methods `Append` and `Tick`
  are each proved equal to the matching `BatchSpec` function.

The model follows the code as written. A fill counter would flush once
`dataMapSize` records are stored and would skip the timer flush on an
empty buffer. The code does neither:

- The receive path compares `len(dataMap)` with `dataMapSize`. These are
  always equal, so every received record is sent at once. It goes in its
  own full-length batch, padded with `""`.
- The timer path checks `len(dataMap) > 0`. For any positive size this is
  always true, so every tick sends a batch of blanks.
- The timer path never resets `recordNumber`.

With size 0, `make` gives an empty slice. The first write then fails the
Go bounds check and panics. The model has this as outcome `IndexPanic`,
with no precondition against it.

## Model

| member | source | states |
|---|---|---|
| BatchSpec.Blank | logger.go:48 | a fresh slice of n Go zero-value strings: length n, every slot ""; a reference definition, its contract only spells out the comprehension it is |
| BatchSpec.Init | logger.go:47-49 | the start-up state is idle (configured length, index 0, all slots "") and nothing has been sent |
| BatchSpec.Append | logger.go:80-90 | the receive step panics exactly when the index is outside the slice; a panicking step changes nothing; the slice length never changes |
| BatchSpec.Tick | logger.go:59-64 | the timer step never touches the index, keeps the configured length, and either sends nothing or sends the whole current slice as one batch |
| BatchSpec.AppendWritesAtIndex | logger.go:81-85 | the record is written into slot recordNumber; a flush happens exactly when the slice length is at least the size; without a flush the index moves up by one and nothing is sent |
| BatchSpec.AppendAlwaysFlushes | logger.go:85-88 | when the slice has the configured length and the index is in range, every append flushes: it sends the slice with the record written in, leaves a blank slice of the same length and resets the index to 0 |
| BatchSpec.TickAlwaysSends | logger.go:60-62 | for a positive size every tick sends the whole current slice, blank or not, installs a blank slice and keeps the index; for size 0 a tick changes nothing |
| BatchSpec.Padded | logger.go:81-86 | the batch for one record sent from an idle buffer: full length, the record in slot 0, "" everywhere else |
| BatchSpec.IdlePreserved | logger.go:59-88 | both critical sections keep the idle invariant; from idle, an append sends exactly the padded record and a tick sends exactly an all-blank batch |
| BatchSpec.ZeroSizeNeverSends | logger.go:60-81 | with an empty slice the first write panics and a tick does nothing |
| BatchTrace.RunEvents | logger.go:55-91 | running any sequence of events only appends to the sent log: a batch once handed over is never withdrawn or changed |
| BatchTrace.BatchOf | logger.go:61-86 | the batch that one event hands over from an idle buffer has the configured length |
| BatchTrace.Batches | logger.go:55-91 | a closed-form reference, not a model of these lines itself: one BatchOf batch per event, in event order; RunFromIdle proves the run of the two loops equal to it |
| BatchTrace.StepFromIdle | logger.go:59-90 | from idle, any event is handled without a panic and leaves the buffer idle with exactly that event's batch added to the log |
| BatchTrace.RunFromIdle | logger.go:55-91 | from idle with a positive size, any interleaving of datagrams and ticks runs without a panic, ends idle, and sends exactly one batch per event, in order |
| BatchTrace.EveryEventSendsOneBatch | logger.go:47-91 | from start-up with a positive size, the sent log has one full-length batch per event; slot 0 holds the datagram's text, or "" for a tick, and all other slots are "", so no record is sent twice, kept for later, or batched with another |
| BatchTrace.ZeroSizeRun | logger.go:48-91 | with size 0 nothing is ever sent, and a run crashes exactly when it contains a datagram |
| BatchTrace.SizeThreeScenario | logger.go:80-90 | with size 3, receiving "a", "b", "c" sends ["a","",""], ["b","",""], ["c","",""], not one batch ["a","b","c"] |
| Logger.Batcher.constructor | logger.go:47-49 | allocates a fresh array of size blank slots with index 0 and an empty sent log, equal to BatchSpec.Init |
| Logger.Batcher.ClearSlots | logger.go:87 | sets every slot of the same array to "" |
| Logger.Batcher.Append | logger.go:80-90 | keeps the same array and changes state exactly as BatchSpec.Append does; from idle with a positive size it flushes the padded record and is idle again |
| Logger.Batcher.Tick | logger.go:59-64 | changes state exactly as BatchSpec.Tick does; for a positive size the new array is freshly allocated, so the sent batch is not kept in the live buffer; idle is preserved |

## Left out

- `send` (logger.go:150-175): JSON encoding and an HTTP POST. The model appends the batch to the ghost log `sent` instead. The error that `send` returns is ignored on both paths, so the model ignores it too.
- `makeUDPConn` and the `ReadFromUDP` loop (logger.go:72-77, 134-148): socket I/O. Read errors only restart the loop. A received datagram is the string argument of `Append`, or a `Receive` event. The record text is taken as given: the cut-off of datagrams longer than the 1024-byte read buffer (logger.go:16, 52, 72) and the difference between Go's byte string `string(buf[:n])` (logger.go:81) and a Dafny `string` of characters are not modelled; no property depends on the record's content.
- `time.Ticker` and the goroutine (logger.go:44-45, 55-58): timing and scheduling. The shared mutex makes each critical section atomic, so a tick is one call to `Tick`.
- `setValues` and `getIntEnv` (logger.go:94-132): reading configuration from environment variables. The size is a constructor parameter of type `nat`. A negative size would make `make` panic at logger.go:48, before the buffer exists, so it is not modelled.
- Console and log printing (logger.go:69, 74, 77): output only.
- The state after a panic: a panic in `main` ends the process, so the model stops the run (`Crashed`) and leaves the buffer as it was before the failed write.
- 64-bit `int` overflow of `recordNumber`: the index is bounds-checked before the increment, so it never goes above the slice length and cannot wrap.
- src/Logger.php is not part of this model: it is a PHP client that sends log lines over UDP through a logging library.
