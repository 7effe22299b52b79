/** The acknowledgment trackers: the grouped cache that owns a buffer of individual
    acks, the pending-ack index and the cumulative watermark; one turn of the loop that
    serialises calls into it; the immediate tracker; and the choice between the two. */
module AckGroupingTracker {
  import opened MessageIds
  import opened BitSets
  import opened AckGrouping

  /** The grouped cache. `sent` and `sentCumulative` stand for the injected
      acknowledgment callbacks: each call appends the id it was given. */
  class CachedAcks {
    var singleAcks: array<MessageId>
    var index: nat
    var pendingAcks: PendingIndex
    var lastCumulativeAck: MessageId
    var cumulativeAckRequired: bool
    var sent: seq<MessageId>
    var sentCumulative: seq<MessageId>

    ghost predicate Valid()
      reads this
    {
      index <= singleAcks.Length
    }

    /** The cache as a value: the occupied prefix of the buffer and the other fields. */
    ghost function State(): AckState
      reads this, singleAcks
      requires Valid()
    {
      AckState(singleAcks[..index], singleAcks.Length, pendingAcks, lastCumulativeAck,
               cumulativeAckRequired, sent, sentCumulative)
    }

    constructor (maxSize: nat)
      ensures Valid() && fresh(singleAcks)
      ensures State() == Initial(maxSize)
    {
      singleAcks := new MessageId[maxSize];
      index := 0;
      pendingAcks := map[];
      lastCumulativeAck := Earliest();
      cumulativeAckRequired := false;
      sent, sentCumulative := [], [];
    }

    /** Writes `id` at the cursor, records it in the pending-ack index and reports
        whether the buffer is now full. */
    method AddAndCheckIfFull(id: MessageId) returns (full: bool)
      requires Valid() && index < singleAcks.Length
      modifies this, singleAcks
      ensures Valid() && singleAcks == old(singleAcks)
      ensures singleAcks[old(index)] == id && index == old(index) + 1
      ensures full <==> index == singleAcks.Length
      ensures State() == Add(old(State()), id)
    {
      ghost var before := State();
      singleAcks[index] := id;
      index := index + 1;
      assert singleAcks[..index] == before.buffered + [id];
      var key := Key(id);
      if key !in pendingAcks {
        if IsBatch(id) {
          var ackSet := NewFull(id.batchSize);
          pendingAcks := pendingAcks[key := Batch(ackSet)];
        } else {
          pendingAcks := pendingAcks[key := Single];
        }
      }
      if pendingAcks[key].Batch? {
        var ackSet := pendingAcks[key].unacked;
        pendingAcks := pendingAcks[key := Batch(Clear(ackSet, id.batchIdx))];
      }
      full := index == singleAcks.Length;
    }

    /** Moves the watermark to `id` when `id` is strictly greater. */
    method TryUpdateLastCumulativeAck(id: MessageId)
      requires Valid()
      modifies this
      ensures Valid() && singleAcks == old(singleAcks)
      ensures State() == UpdateCumulative(old(State()), id)
    {
      if Compare(lastCumulativeAck, id) < 0 {
        lastCumulativeAck := id;
        cumulativeAckRequired := true;
      }
    }

    method IsDuplicate(id: MessageId) returns (r: bool)
      ensures r == Duplicate(lastCumulativeAck, pendingAcks, id)
    {
      if Compare(lastCumulativeAck, id) >= 0 {
        CompareAntisymmetric(lastCumulativeAck, id);
        return true;
      }
      CompareAntisymmetric(lastCumulativeAck, id);
      var key := Key(id);
      if key !in pendingAcks {
        return false;
      }
      var ackSet := pendingAcks[key];
      if ackSet.Single? || !IsBatch(id) {
        return true;
      }
      r := !Test(ackSet.unacked, id.batchIdx);
    }

    /** Hands the buffered ids to the list callback, then drops the position of each
        of them from the pending-ack index, and empties the buffer. */
    method FlushIndividualAcks()
      requires Valid()
      modifies this
      ensures Valid() && singleAcks == old(singleAcks)
      ensures State() == FlushIndividual(old(State()))
    {
      if index > 0 {
        // the list callback acknowledges each id individually, in order
        sent := sent + singleAcks[..index];
        var i := 0;
        while i < index
          invariant 0 <= i <= index <= singleAcks.Length
          invariant singleAcks == old(singleAcks) && index == old(index)
          invariant sent == old(sent) + singleAcks[..index] && sentCumulative == old(sentCumulative)
          invariant lastCumulativeAck == old(lastCumulativeAck)
          invariant cumulativeAckRequired == old(cumulativeAckRequired)
          invariant pendingAcks == old(pendingAcks) - KeysOf(singleAcks[..i])
        {
          var id := singleAcks[i];
          var key := Key(id);
          if key in pendingAcks {
            match pendingAcks[key] {
              case Single =>
                pendingAcks := pendingAcks - {key};
              case Batch(ackSet) =>
                var cleared := Clear(ackSet, id.batchIdx);
                pendingAcks := pendingAcks[key := Batch(cleared)];
                if NoneSet(cleared) {
                  pendingAcks := pendingAcks - {key};
                }
            }
            // whatever the batch bits say, the position is dropped
            pendingAcks := pendingAcks - {key};
          }
          assert singleAcks[..i + 1] == singleAcks[..i] + [id];
          KeysOfAppend(singleAcks[..i], [id]);
          assert KeysOf([id]) == {key} by { assert [id][0] == id; }
          i := i + 1;
        }
        assert singleAcks[..i] == singleAcks[..index];
        index := 0;
      }
    }

    /** Sends the watermark if it moved since the last flush. */
    method FlushCumulativeAck()
      requires Valid()
      modifies this
      ensures Valid() && singleAcks == old(singleAcks)
      ensures State() == FlushCumulative(old(State()))
    {
      if cumulativeAckRequired {
        sentCumulative := sentCumulative + [lastCumulativeAck];
        cumulativeAckRequired := false;
      }
    }

    method Flush()
      requires Valid()
      modifies this
      ensures Valid() && singleAcks == old(singleAcks)
      ensures State() == AckGrouping.Flush(old(State()))
    {
      FlushIndividualAcks();
      FlushCumulativeAck();
    }

    /** Replaces the buffer by a fresh one of the same capacity and resets the index,
        the watermark and the flag. */
    method Clean()
      requires Valid()
      modifies this
      ensures Valid() && fresh(singleAcks)
      ensures State() == AckGrouping.Clean(old(State()))
    {
      var maxSize := singleAcks.Length;
      singleAcks := new MessageId[maxSize];
      index := 0;
      pendingAcks := map[];
      lastCumulativeAck := Earliest();
      cumulativeAckRequired := false;
    }
  }

  /** One turn of the grouped tracker's loop. `timeBased` is MaxTime > 0; `duplicate`
      is the reply to a duplicate query and `done` says that the loop has ended. */
  method HandleEvent(acks: CachedAcks, timeBased: bool, ev: AckEvent) returns (duplicate: bool, done: bool)
    requires acks.Valid() && Ready(acks.State())
    modifies acks, acks.singleAcks
    ensures acks.Valid() && Ready(acks.State())
    ensures acks.State() == Step(old(acks.State()), timeBased, ev)
    ensures ev.DuplicateQuery? ==>
              duplicate == Duplicate(old(acks.lastCumulativeAck), old(acks.pendingAcks), ev.id)
    ensures done <==> ev == FlushRequest(FlushAndClose)
  {
    duplicate, done := false, false;
    match ev
    case IndividualAck(id) =>
      var full := acks.AddAndCheckIfFull(id);
      if full {
        acks.FlushIndividualAcks();
      }
    case CumulativeAck(id) =>
      acks.TryUpdateLastCumulativeAck(id);
      if !timeBased {
        acks.FlushCumulativeAck();
      }
    case DuplicateQuery(id) =>
      duplicate := acks.IsDuplicate(id);
    case TimerTick =>
      acks.Flush();
    case FlushRequest(kind) =>
      acks.Flush();
      if kind == FlushAndClean {
        acks.Clean();
      }
      done := kind == FlushAndClose;
  }

  /** The tracker used when grouping is disabled: every ack goes straight to its
      callback and nothing is kept. */
  class ImmediateTracker {
    var sent: seq<MessageId>
    var sentCumulative: seq<MessageId>

    constructor ()
      ensures sent == [] && sentCumulative == []
    {
      sent, sentCumulative := [], [];
    }

    method Add(id: MessageId)
      modifies this
      ensures sent == old(sent) + [id] && sentCumulative == old(sentCumulative)
    {
      sent := sent + [id];
    }

    method AddCumulative(id: MessageId)
      modifies this
      ensures sentCumulative == old(sentCumulative) + [id] && sent == old(sent)
    {
      sentCumulative := sentCumulative + [id];
    }

    method IsDuplicate(id: MessageId) returns (r: bool)
      ensures !r
    {
      r := false;
    }

    method Flush()
      ensures unchanged(this)
    {
    }

    method FlushAndClean()
      ensures unchanged(this)
    {
    }

    method Close()
      ensures unchanged(this)
    {
    }
  }

  datatype Option<T> = None | Some(value: T)

  /** Grouping options; maxTime is a duration in nanoseconds. */
  datatype AckGroupingOptions = AckGroupingOptions(maxSize: int, maxTime: int)

  /** The options used when the caller gives none: 1000 acks or 100 ms. */
  const DefaultOptions := AckGroupingOptions(1000, 100_000_000)

  /** Which tracker is built: the immediate one, or the grouped one with its buffer
      capacity and whether time-based flushing is on. */
  datatype Variant = Immediate | Grouped(capacity: nat, timeBased: bool)

  function SelectVariant(options: Option<AckGroupingOptions>): (v: Variant)
    ensures v.Immediate? <==> options.Some? && options.value.maxSize <= 1
    ensures options.None? ==> v == Grouped(1000, true)
    ensures v.Grouped? && options.Some? ==>
              v.capacity == options.value.maxSize && (v.timeBased <==> options.value.maxTime > 0)
    ensures v.Grouped? ==> v.capacity > 1
  {
    var opts := if options.None? then DefaultOptions else options.value;
    if opts.maxSize <= 1 then Immediate
    else Grouped(opts.maxSize, opts.maxTime > 0)
  }
}
