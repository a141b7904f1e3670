/**
 Runs of the batch buffer over a sequence of events. The two critical
 sections share one mutex, so any interleaving of received datagrams and
 timer ticks is one sequence of atomic steps.
 */
module BatchTrace {
  import opened BatchSpec

  /** One entry into a critical section: a datagram's text reaching the
      receive path, or a tick of the timer. */
  datatype Event = Receive(rec: string) | TimerTick

  /** A run either consumes every event, or stops at the receive whose
      write panics (the panic ends the process); `st` is the state then. */
  datatype Run = Alive(st: State) | Crashed(st: State)

  /** Feeds the events to the buffer, in order. */
  function RunEvents(size: nat, st: State, evs: seq<Event>): (r: Run)
    ensures st.sent <= r.st.sent
    decreases |evs|
  {
    if evs == [] then Alive(st)
    else
      match evs[0]
      case Receive(rec) =>
        var (o, st') := Append(size, st, rec);
        if o == IndexPanic then Crashed(st) else RunEvents(size, st', evs[1..])
      case TimerTick =>
        RunEvents(size, Tick(size, st), evs[1..])
  }

  /** The batch one event hands over once the buffer is idle. */
  function BatchOf(size: nat, e: Event): (r: seq<string>)
    requires size > 0
    ensures |r| == size
  {
    match e
    case Receive(rec) => Padded(size, rec)
    case TimerTick => Blank(size)
  }

  /** The batches of a sequence of events, one per event, in order. */
  function Batches(size: nat, evs: seq<Event>): (r: seq<seq<string>>)
    requires size > 0
    ensures |r| == |evs|
    ensures forall i :: 0 <= i < |evs| ==> r[i] == BatchOf(size, evs[i])
  {
    seq(|evs|, i requires 0 <= i < |evs| => BatchOf(size, evs[i]))
  }

  /** One event from an idle buffer: no panic, and the run continues from
      the idle buffer with the event's batch appended to the log. */
  lemma StepFromIdle(size: nat, st: State, evs: seq<Event>)
    requires size > 0 && Idle(size, st) && evs != []
    ensures RunEvents(size, st, evs)
            == RunEvents(size, State(Blank(size), 0, st.sent + [BatchOf(size, evs[0])]), evs[1..])
  {
    assert st.slots == Blank(size);
    match evs[0] {
      case Receive(rec) => IdlePreserved(size, st, rec);
      case TimerTick => IdlePreserved(size, st, "");
    }
  }

  /** The batches of a non-empty sequence: the first event's, then the rest's. */
  lemma BatchesCons(size: nat, log: seq<seq<string>>, evs: seq<Event>)
    requires size > 0 && evs != []
    ensures log + Batches(size, evs) == (log + [BatchOf(size, evs[0])]) + Batches(size, evs[1..])
  {
    assert Batches(size, evs) == [BatchOf(size, evs[0])] + Batches(size, evs[1..]);
  }

  /** From an idle buffer of positive size, no event sequence panics, the
      buffer ends idle, and the sender receives exactly one batch per
      event, in event order. */
  lemma {:induction false} RunFromIdle(size: nat, st: State, evs: seq<Event>)
    requires size > 0 && Idle(size, st)
    ensures RunEvents(size, st, evs) == Alive(State(Blank(size), 0, st.sent + Batches(size, evs)))
    decreases |evs|
  {
    if evs == [] {
      assert st.slots == Blank(size);
      assert st.sent + Batches(size, evs) == st.sent;
    } else {
      var next := State(Blank(size), 0, st.sent + [BatchOf(size, evs[0])]);
      assert Idle(size, next);
      StepFromIdle(size, st, evs);
      RunFromIdle(size, next, evs[1..]);
      BatchesCons(size, st.sent, evs);
    }
  }

  /** From start-up with a positive size, whatever the interleaving of
      datagrams and ticks: every event produces exactly one full-length
      batch; a datagram's batch holds its text in slot 0, a tick's batch
      holds "" there; every other slot of every batch is "". No record is
      sent twice, kept for a later batch, or sent together with another. */
  lemma EveryEventSendsOneBatch(size: nat, evs: seq<Event>)
    requires size > 0
    ensures RunEvents(size, Init(size), evs).Alive?
    ensures var sent := RunEvents(size, Init(size), evs).st.sent;
      && |sent| == |evs|
      && forall i :: 0 <= i < |evs| ==>
           && |sent[i]| == size
           && sent[i][0] == (if evs[i].Receive? then evs[i].rec else "")
           && forall j :: 1 <= j < size ==> sent[i][j] == ""
  {
    RunFromIdle(size, Init(size), evs);
  }

  /** With size 0 nothing is ever sent, and a run crashes exactly when it
      contains a datagram. */
  lemma {:induction false} ZeroSizeRun(st: State, evs: seq<Event>)
    requires st.slots == []
    ensures RunEvents(0, st, evs).st.sent == st.sent
    ensures RunEvents(0, st, evs).Crashed? <==> exists i :: 0 <= i < |evs| && evs[i].Receive?
    decreases |evs|
  {
    if evs != [] {
      ZeroSizeNeverSends(st, "");
      if !evs[0].Receive? {
        ZeroSizeRun(st, evs[1..]);
        assert forall i :: 1 <= i < |evs| ==> evs[i] == evs[1..][i - 1];
      }
    }
  }

  /** Size 3, three datagrams "a", "b", "c": the code as written sends three
      padded batches, one per datagram, rather than one batch of three. */
  lemma SizeThreeScenario()
    ensures RunEvents(3, Init(3), [Receive("a"), Receive("b"), Receive("c")])
            == Alive(State(["", "", ""], 0, [["a", "", ""], ["b", "", ""], ["c", "", ""]]))
  {
    var evs := [Receive("a"), Receive("b"), Receive("c")];
    RunFromIdle(3, Init(3), evs);
    assert Blank(3) == ["", "", ""];
    assert Blank(2) == ["", ""];
    assert Padded(3, "a") == ["a", "", ""] && Padded(3, "b") == ["b", "", ""] && Padded(3, "c") == ["c", "", ""];
    assert Batches(3, evs) == [["a", "", ""], ["b", "", ""], ["c", "", ""]];
  }
}
