/**
 The batch buffer as the agent holds it: a fixed-length array written in
 place, an index, and a ghost log standing for the calls to the HTTP
 sender. Each method is one critical section under the shared mutex.
 */
module Logger {
  import opened BatchSpec

  class Batcher {
    /** The configured batch size (`dataMapSize`). */
    const size: nat
    /** The slice of received records. */
    var data: array<string>
    /** The slot the next record is written to. */
    var recordNumber: int
    /** Every batch handed to the sender so far, oldest first. */
    ghost var sent: seq<seq<string>>

    /** The slice always has the configured length. */
    ghost predicate Valid()
      reads this
    {
      data.Length == size
    }

    /** The buffer's state as a value. */
    ghost function Snapshot(): State
      reads this, data
    {
      State(data[..], recordNumber, sent)
    }

    /** The state between calls: index 0 and every slot blank. */
    ghost predicate IsIdle()
      reads this, data
    {
      Idle(size, Snapshot())
    }

    /** Allocates the slice with `size` blank slots and index 0. */
    constructor (size: nat)
      ensures Valid() && fresh(data)
      ensures Snapshot() == Init(size) && IsIdle()
    {
      this.size := size;
      data := new string[size](_ => "");
      recordNumber := 0;
      sent := [];
      new;
      assert data[..] == Blank(size);
    }

    /** Sets every slot to the empty string, keeping the array (Go `clear`). */
    method ClearSlots()
      modifies data
      ensures data[..] == Blank(data.Length)
    {
      forall i | 0 <= i < data.Length {
        data[i] := "";
      }
    }

    /** The receive path: store the record at the index, advance the
        index, then flush when the slice length has reached the size. */
    method Append(rec: string) returns (outcome: Outcome)
      requires Valid()
      modifies this, data
      ensures Valid() && data == old(data)
      ensures (outcome, Snapshot()) == BatchSpec.Append(size, old(Snapshot()), rec)
      ensures old(IsIdle()) && size > 0 ==>
                outcome == Flushed && IsIdle() && sent == old(sent) + [Padded(size, rec)]
    {
      ghost var before := Snapshot();
      if !(0 <= recordNumber < data.Length) {
        return IndexPanic;
      }
      data[recordNumber] := rec;
      recordNumber := recordNumber + 1;
      if data.Length >= size {
        sent := sent + [data[..]];
        ClearSlots();
        recordNumber := 0;
        outcome := Flushed;
      } else {
        outcome := Stored;
      }
      if Idle(size, before) && size > 0 {
        IdlePreserved(size, before, rec);
      }
    }

    /** The timer path: when the slice is non-empty, hand it over and
        install a brand-new blank slice; the index is not reset. */
    method Tick()
      requires Valid()
      modifies this
      ensures Valid()
      ensures Snapshot() == BatchSpec.Tick(size, old(Snapshot()))
      ensures size > 0 ==> fresh(data)
      ensures size == 0 ==> data == old(data)
      ensures old(IsIdle()) ==> IsIdle()
    {
      ghost var before := Snapshot();
      if data.Length > 0 {
        sent := sent + [data[..]];
        data := new string[size](_ => "");
        assert data[..] == Blank(size);
      }
      if Idle(size, before) && size > 0 {
        IdlePreserved(size, before, "");
      }
    }
  }
}
