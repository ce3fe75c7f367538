/** The buffered decision log: single-flight draining with nothing lost from sight. */
module DecisionLog {
  datatype Entry = Entry(id: nat)

  datatype Fate = Written | Dropped

  // One batch handed to the sink, and what became of it.
  datatype Batch = Batch(entries: seq<Entry>, fate: Fate)

  function Delivered(batches: seq<Batch>): seq<Entry> {
    if batches == [] then [] else Delivered(batches[..|batches| - 1]) + batches[|batches| - 1].entries
  }

  // Where the drain stands between two awaits: none, waiting for the sink, or finished with
  // the completion handler still queued.
  datatype Drain = Idle | Awaiting(batch: seq<Entry>) | Finishing

  // The event loop runs one method at a time; each method below is what runs between awaits.
  class BufferedDecisionLog {
    const maxBufferSize: nat
    const flushBatchSize: nat
    var buffer: seq<Entry>
    var drain: Drain
    var timer: bool
    var closing: bool
    // History: entries accepted into the buffer, batches whose sink call ended, and entries
    // written directly because the buffer was full.
    ghost var accepted: seq<Entry>
    ghost var batches: seq<Batch>
    ghost var direct: seq<Entry>

    // Accepted entries are, in arrival order, those delivered (written or dropped), those in
    // the batch in flight and those in the buffer; the buffer is bounded.
    ghost predicate Valid()
      reads this
    {
      && flushBatchSize > 0
      && accepted == Delivered(batches) + InFlight() + buffer
      && |buffer| <= maxBufferSize
      && (drain.Awaiting? ==> 0 < |drain.batch| <= flushBatchSize)
      && (forall b | b in batches :: 0 < |b.entries| <= flushBatchSize)
    }

    function InFlight(): seq<Entry>
      reads this
    {
      if drain.Awaiting? then drain.batch else []
    }

    constructor (maxBufferSize: nat, flushBatchSize: nat)
      requires flushBatchSize > 0
      ensures Valid() && buffer == [] && drain == Idle && timer
      ensures this.maxBufferSize == maxBufferSize && this.flushBatchSize == flushBatchSize
      ensures accepted == [] && batches == [] && direct == []
    {
      this.maxBufferSize, this.flushBatchSize := maxBufferSize, flushBatchSize;
      buffer, drain, timer, closing := [], Idle, true, false;
      accepted, batches, direct := [], [], [];
    }

    // Takes the next batch off the buffer, or finishes when it is empty.
    method TakeBatch()
      requires Valid() && !drain.Awaiting?
      modifies this`buffer, this`drain
      ensures Valid()
      ensures old(buffer) == [] ==> buffer == [] && drain == Finishing
      ensures old(buffer) != [] ==>
                drain.Awaiting? && drain.batch + buffer == old(buffer)
                && (|drain.batch| == flushBatchSize || buffer == [])
    {
      if buffer == [] {
        drain := Finishing;
      } else {
        var n := if |buffer| < flushBatchSize then |buffer| else flushBatchSize;
        drain := Awaiting(buffer[..n]);
        buffer := buffer[n..];
      }
    }

    // Starts a drain unless one is under way or still completing.
    method Flush()
      requires Valid()
      modifies this`buffer, this`drain
      ensures Valid()
      ensures old(drain) != Idle ==> buffer == old(buffer) && drain == old(drain)
      ensures old(drain) == Idle ==> InFlight() + buffer == old(buffer) && Draining(old(buffer))
    {
      if drain == Idle { TakeBatch(); }
    }

    // A drain that found `waiting` is under way: with a full batch, or all there was, or nothing left to do.
    ghost predicate Draining(waiting: seq<Entry>)
      reads this
    {
      if waiting == [] then drain == Finishing
      else drain.Awaiting? && (|drain.batch| == flushBatchSize || buffer == [])
    }

    // Buffers the entry, or reports that the caller must write it through the sink itself.
    method Record(entry: Entry) returns (degraded: bool)
      requires Valid()
      modifies this`buffer, this`drain, this`accepted, this`direct
      ensures Valid()
      ensures degraded <==> |old(buffer)| >= maxBufferSize
      ensures degraded ==>
                buffer == old(buffer) && drain == old(drain) && accepted == old(accepted)
                    && direct == old(direct) + [entry]
      ensures !degraded ==> accepted == old(accepted) + [entry] && direct == old(direct)
      ensures !degraded ==> InFlight() + buffer == old(InFlight() + buffer) + [entry]
      ensures !degraded && old(drain) != Idle ==> drain == old(drain) && buffer == old(buffer) + [entry]
      ensures !degraded && old(drain) == Idle ==>
                if |old(buffer)| + 1 < flushBatchSize then drain == Idle && buffer == old(buffer) + [entry]
                else Draining(old(buffer) + [entry])
    {
      if |buffer| >= maxBufferSize {
        direct := direct + [entry];
        return true;
      }
      buffer := buffer + [entry];
      accepted := accepted + [entry];
      if |buffer| >= flushBatchSize { Flush(); }
      return false;
    }

    // The sink answered: the batch is written or, if it failed, dropped; the drain goes on.
    method SinkAnswered(ok: bool)
      requires Valid() && drain.Awaiting?
      modifies this`buffer, this`drain, this`batches
      ensures Valid()
      ensures batches == old(batches) + [Batch(old(drain).batch, if ok then Written else Dropped)]
      ensures InFlight() + buffer == old(buffer) && Draining(old(buffer))
    {
      batches := batches + [Batch(drain.batch, if ok then Written else Dropped)];
      assert batches[..|batches| - 1] == old(batches);
      drain := Finishing;
      TakeBatch();
    }

    // The completion handler of the drain.
    method DrainCompleted()
      requires Valid() && drain == Finishing
      modifies this`drain
      ensures Valid() && drain == Idle
    {
      drain := Idle;
    }

    method TimerFired()
      requires Valid() && timer
      modifies this`buffer, this`drain
      ensures Valid() && old(InFlight() + buffer) == InFlight() + buffer
      ensures if old(drain) == Idle then Draining(old(buffer)) else drain == old(drain)
    {
      Flush();
    }

    // close: stops the timer and awaits a flush.
    method Close()
      requires Valid()
      modifies this`buffer, this`drain, this`timer, this`closing
      ensures Valid() && !timer && closing
      ensures InFlight() + buffer == old(InFlight() + buffer) && drain != Idle
    {
      timer, closing := false, true;
      Flush();
    }

    // The awaited flush completed: close flushes again while anything is buffered. When it
    // ends the buffer is empty, and unless someone started another drain everything accepted
    // was delivered.
    method CloseResumes()
      requires Valid() && closing && !drain.Finishing?
      modifies this`buffer, this`drain, this`closing
      ensures Valid() && InFlight() + buffer == old(InFlight() + buffer)
      ensures closing <==> old(buffer) != []
      ensures closing ==> drain != Idle
      ensures !closing ==> buffer == [] && (drain == Idle ==> accepted == Delivered(batches))
    {
      if buffer != [] { Flush(); } else { closing := false; }
    }
  }

  // ----- What conservation means -----

  function Entries(batches: seq<Batch>, fate: Fate): multiset<Entry> {
    if batches == [] then multiset{}
    else
      var last := batches[|batches| - 1];
      Entries(batches[..|batches| - 1], fate) + if last.fate == fate then multiset(last.entries) else multiset{}
  }

  lemma {:induction false} DeliveredIsWrittenOrDropped(batches: seq<Batch>)
    ensures multiset(Delivered(batches)) == Entries(batches, Written) + Entries(batches, Dropped)
  {
    if batches != [] { DeliveredIsWrittenOrDropped(batches[..|batches| - 1]); }
  }

  // Counting occurrences: each accepted entry is in exactly one of buffer, batch in flight,
  // written or dropped.
  lemma Conservation(log: BufferedDecisionLog)
    requires log.Valid()
    ensures multiset(log.accepted) ==
              Entries(log.batches, Written) + Entries(log.batches, Dropped)
              + multiset(log.InFlight()) + multiset(log.buffer)
  {
    DeliveredIsWrittenOrDropped(log.batches);
  }
}
