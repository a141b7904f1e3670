/**
 The record batch buffer of the UDP log shipper, as a pure state machine.

 The buffer is a fixed-length slice of strings (`slots`) with a write
 index (`recordNumber`). The two critical sections of the agent, the
 receive path and the timer path, run under one mutex, so each is one
 atomic step here. Each call to the HTTP sender is recorded by appending
 the batch handed over to the log `sent`.
 */
module BatchSpec {

  /** The buffer state together with the log of batches handed to the sender. */
  datatype State = State(slots: seq<string>, recordNumber: int, sent: seq<seq<string>>)

  /** What one receive step did: kept the record, kept it and flushed,
      or hit the out-of-range index write (a Go runtime panic). */
  datatype Outcome = Stored | Flushed | IndexPanic

  /** A slice of `n` Go zero-value strings. */
  function Blank(n: nat): (r: seq<string>)
    ensures |r| == n
    ensures forall i :: 0 <= i < n ==> r[i] == ""
  {
    seq(n, _ => "")
  }

  /** Between calls: the slice has the configured length, the index is 0
      and every slot holds the empty string. */
  ghost predicate Idle(size: nat, st: State)
  {
    && |st.slots| == size
    && st.recordNumber == 0
    && forall i :: 0 <= i < |st.slots| ==> st.slots[i] == ""
  }

  /** The state built before the loops start: a fresh slice and index 0. */
  function Init(size: nat): (r: State)
    ensures Idle(size, r)
    ensures r.sent == []
  {
    State(Blank(size), 0, [])
  }

  /** The receive path: write the record at the index, advance the index,
      then flush when the slice length reaches the configured size. The
      flush hands the whole slice over, clears it in place (same length)
      and resets the index. */
  function Append(size: nat, st: State, rec: string): (r: (Outcome, State))
    ensures r.0 == IndexPanic <==> !(0 <= st.recordNumber < |st.slots|)
    ensures r.0 == IndexPanic ==> r.1 == st
    ensures |r.1.slots| == |st.slots|
  {
    if !(0 <= st.recordNumber < |st.slots|) then
      (IndexPanic, st)
    else
      var slots := st.slots[st.recordNumber := rec];
      var next := st.recordNumber + 1;
      if |slots| >= size then
        (Flushed, State(Blank(|slots|), 0, st.sent + [slots]))
      else
        (Stored, State(slots, next, st.sent))
  }

  /** The timer path: when the slice is non-empty, hand it over and
      install a fresh slice of the configured size. The index is left as
      it is. */
  function Tick(size: nat, st: State): (r: State)
    ensures r.recordNumber == st.recordNumber
    ensures |st.slots| == size ==> |r.slots| == size
    ensures r.sent == st.sent || r.sent == st.sent + [st.slots]
  {
    if |st.slots| > 0 then
      State(Blank(size), st.recordNumber, st.sent + [st.slots])
    else
      st
  }

  /** The write lands in slot `recordNumber`; when no flush follows, the
      index has moved on by one and nothing is sent. */
  lemma AppendWritesAtIndex(size: nat, st: State, rec: string)
    requires 0 <= st.recordNumber < |st.slots|
    ensures var (o, st') := Append(size, st, rec);
      && (o == Flushed <==> |st.slots| >= size)
      && (o == Flushed ==> st'.sent[|st'.sent| - 1][st.recordNumber] == rec)
      && (o == Stored ==> st'.slots[st.recordNumber] == rec
                          && st'.recordNumber == st.recordNumber + 1
                          && st'.sent == st.sent)
  {
  }

  /** Because the size check compares the slice's length, which is always
      the configured size, every append that does not panic flushes: it
      sends exactly the slice with the new record written in, then leaves
      a blank slice of the same length and index 0. */
  lemma AppendAlwaysFlushes(size: nat, st: State, rec: string)
    requires |st.slots| == size
    requires 0 <= st.recordNumber < size
    ensures Append(size, st, rec)
            == (Flushed, State(Blank(size), 0, st.sent + [st.slots[st.recordNumber := rec]]))
  {
  }

  /** The timer path sends on every tick of a buffer of positive size
      (even a blank one), and never when the size is 0; after a send the
      buffer is a fresh blank slice. */
  lemma TickAlwaysSends(size: nat, st: State)
    requires |st.slots| == size
    ensures size > 0 ==> Tick(size, st) == State(Blank(size), st.recordNumber, st.sent + [st.slots])
    ensures size == 0 ==> Tick(size, st) == st
  {
  }

  /** The batch a record is flushed in when the buffer is idle: the record
      in slot 0 followed by `size - 1` empty strings. */
  function Padded(size: nat, rec: string): (r: seq<string>)
    requires size > 0
    ensures |r| == size && r[0] == rec
    ensures forall j :: 1 <= j < size ==> r[j] == ""
  {
    [rec] + Blank(size - 1)
  }

  /** Idle is kept by both critical sections; from an idle buffer the
      receive path sends the record padded to full length, and the timer
      path sends an all-blank batch. */
  lemma IdlePreserved(size: nat, st: State, rec: string)
    requires size > 0 && Idle(size, st)
    ensures Append(size, st, rec) == (Flushed, State(st.slots, 0, st.sent + [Padded(size, rec)]))
    ensures Tick(size, st) == State(st.slots, 0, st.sent + [Blank(size)])
    ensures Idle(size, Append(size, st, rec).1) && Idle(size, Tick(size, st))
  {
    assert st.slots == Blank(size);
    assert st.slots[0 := rec] == Padded(size, rec);
  }

  /** With size 0 the slice is empty: the first write panics and the
      timer never sends. */
  lemma ZeroSizeNeverSends(st: State, rec: string)
    requires st.slots == []
    ensures Append(0, st, rec) == (IndexPanic, st)
    ensures Tick(0, st) == st
  {
  }
}
