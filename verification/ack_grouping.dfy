/** The grouped acknowledgment cache as a value: its state, one function per
    operation, the actor loop's dispatch of events, and what they guarantee. */
module AckGrouping {
  import opened MessageIds
  import opened BitSets

  /** Value of the pending-ack index: the nil marker of a non-batched position, or the
      bit set of the batch indexes of that position that are not yet acknowledged. */
  datatype PendingAck = Single | Batch(unacked: BitSet)

  type PendingIndex = map<Position, PendingAck>

  /** The cache as its owner sees it. `sent` and `sentCumulative` record, in order,
      every id handed to the injected individual and cumulative callbacks. */
  datatype AckState = AckState(
    buffered: seq<MessageId>,
    capacity: nat,
    pending: PendingIndex,
    lastCumulative: MessageId,
    cumulativeRequired: bool,
    sent: seq<MessageId>,
    sentCumulative: seq<MessageId>)

  /** There is room for one more individual ack; the actor loop keeps this between events. */
  predicate Ready(s: AckState)
  {
    |s.buffered| < s.capacity
  }

  predicate IsFull(s: AckState)
  {
    |s.buffered| == s.capacity
  }

  function Initial(capacity: nat): AckState
  {
    AckState([], capacity, map[], Earliest(), false, [], [])
  }

  /** The positions of a list of ids. */
  function KeysOf(ids: seq<MessageId>): set<Position>
  {
    set i | 0 <= i < |ids| :: Key(ids[i])
  }

  /** How recording an individual ack for `id` changes the pending-ack index. */
  function RecordPending(pending: PendingIndex, id: MessageId): (r: PendingIndex)
    ensures r.Keys == pending.Keys + {Key(id)}
    ensures forall k :: k in pending && k != Key(id) ==> r[k] == pending[k]
    ensures Key(id) !in pending && !IsBatch(id) ==> r[Key(id)] == Single
    ensures Key(id) !in pending && IsBatch(id) ==>
              && r[Key(id)].Batch?
              && |r[Key(id)].unacked| == id.batchSize
              && forall j :: 0 <= j < id.batchSize ==> (Test(r[Key(id)].unacked, j) <==> j != id.batchIdx)
    ensures Key(id) in pending && pending[Key(id)].Single? ==> r[Key(id)] == Single
    ensures Key(id) in pending && pending[Key(id)].Batch? ==>
              && r[Key(id)].Batch?
              && |r[Key(id)].unacked| == |pending[Key(id)].unacked|
              && forall j :: 0 <= j < |r[Key(id)].unacked| ==>
                   (Test(r[Key(id)].unacked, j) <==> Test(pending[Key(id)].unacked, j) && j != id.batchIdx)
  {
    var k := Key(id);
    if k !in pending then
      if IsBatch(id) then pending[k := Batch(Clear(Full(id.batchSize), id.batchIdx))]
      else pending[k := Single]
    else
      match pending[k]
      case Single => pending
      case Batch(bits) => pending[k := Batch(Clear(bits, id.batchIdx))]
  }

  /** addAndCheckIfFull: buffer `id` and record it in the pending-ack index. */
  function Add(s: AckState, id: MessageId): (r: AckState)
    requires Ready(s)
    ensures r.buffered == s.buffered + [id] && r.capacity == s.capacity
    ensures r.pending == RecordPending(s.pending, id)
    ensures r.pending.Keys == s.pending.Keys + {Key(id)}
    ensures forall k :: k in s.pending && k != Key(id) ==> r.pending[k] == s.pending[k]
    ensures r.lastCumulative == s.lastCumulative && r.cumulativeRequired == s.cumulativeRequired
    ensures r.sent == s.sent && r.sentCumulative == s.sentCumulative
  {
    s.(buffered := s.buffered + [id], pending := RecordPending(s.pending, id))
  }

  /** tryUpdateLastCumulativeAck: the watermark moves only forward. */
  function UpdateCumulative(s: AckState, id: MessageId): (r: AckState)
    ensures LessEq(s.lastCumulative, r.lastCumulative)
    ensures LessEq(id, r.lastCumulative)
    ensures r.lastCumulative != s.lastCumulative ==> r.lastCumulative == id && r.cumulativeRequired
    ensures Compare(s.lastCumulative, id) < 0 <==> r != s
    ensures r.buffered == s.buffered && r.capacity == s.capacity && r.pending == s.pending
    ensures r.sent == s.sent && r.sentCumulative == s.sentCumulative
  {
    if Compare(s.lastCumulative, id) < 0 then s.(lastCumulative := id, cumulativeRequired := true)
    else s
  }

  /** isDuplicate: cumulative acks dominate; above the watermark the pending-ack index decides. */
  function Duplicate(last: MessageId, pending: PendingIndex, id: MessageId): (r: bool)
    ensures LessEq(id, last) ==> r
    ensures !LessEq(id, last) && Key(id) !in pending ==> !r
    ensures !LessEq(id, last) && Key(id) in pending && (pending[Key(id)].Single? || !IsBatch(id)) ==> r
    ensures !LessEq(id, last) && Key(id) in pending && pending[Key(id)].Batch? && IsBatch(id) ==>
              (r <==> !Test(pending[Key(id)].unacked, id.batchIdx))
  {
    CompareAntisymmetric(last, id);
    if Compare(last, id) >= 0 then true
    else if Key(id) !in pending then false
    else if pending[Key(id)].Single? || !IsBatch(id) then true
    else !Test(pending[Key(id)].unacked, id.batchIdx)
  }

  function IsDuplicate(s: AckState, id: MessageId): bool
  {
    Duplicate(s.lastCumulative, s.pending, id)
  }

  /** flushIndividualAcks: hand the buffered ids to the callback and drop their positions. */
  function FlushIndividual(s: AckState): (r: AckState)
    ensures r.buffered == [] && r.capacity == s.capacity
    ensures r.sent == s.sent + s.buffered
    ensures forall id :: id in s.buffered ==> Key(id) !in r.pending
    ensures forall k :: k in r.pending <==> k in s.pending && k !in KeysOf(s.buffered)
    ensures forall k :: k in r.pending ==> r.pending[k] == s.pending[k]
    ensures r.lastCumulative == s.lastCumulative && r.cumulativeRequired == s.cumulativeRequired
    ensures r.sentCumulative == s.sentCumulative
  {
    if |s.buffered| == 0 then s
    else
      assert forall id :: id in s.buffered ==> Key(id) in KeysOf(s.buffered) by {
        forall id | id in s.buffered ensures Key(id) in KeysOf(s.buffered) {
          var i :| 0 <= i < |s.buffered| && s.buffered[i] == id;
        }
      }
      s.(buffered := [], pending := s.pending - KeysOf(s.buffered), sent := s.sent + s.buffered)
  }

  /** flushCumulativeAck: send the watermark once, if it moved since the last flush. */
  function FlushCumulative(s: AckState): (r: AckState)
    ensures r.sentCumulative == s.sentCumulative + (if s.cumulativeRequired then [s.lastCumulative] else [])
    ensures !r.cumulativeRequired
    ensures r.lastCumulative == s.lastCumulative
    ensures r.buffered == s.buffered && r.pending == s.pending && r.sent == s.sent
    ensures r.capacity == s.capacity
  {
    if s.cumulativeRequired then
      s.(sentCumulative := s.sentCumulative + [s.lastCumulative], cumulativeRequired := false)
    else s
  }

  /** flush: the individual acks first, then the watermark. */
  function Flush(s: AckState): (r: AckState)
    ensures r.buffered == [] && r.capacity == s.capacity
    ensures r.sent == s.sent + s.buffered
    ensures r.sentCumulative == s.sentCumulative + (if s.cumulativeRequired then [s.lastCumulative] else [])
    ensures r.lastCumulative == s.lastCumulative && !r.cumulativeRequired
    ensures forall k :: k in r.pending <==> k in s.pending && k !in KeysOf(s.buffered)
    ensures forall k :: k in r.pending ==> r.pending[k] == s.pending[k]
  {
    FlushCumulative(FlushIndividual(s))
  }

  /** clean: forget all pending state; the buffer keeps its capacity. */
  function Clean(s: AckState): (r: AckState)
    ensures r.buffered == [] && r.capacity == s.capacity
    ensures r.pending == map[] && r.lastCumulative == Earliest() && !r.cumulativeRequired
    ensures r.sent == s.sent && r.sentCumulative == s.sentCumulative
  {
    s.(buffered := [], pending := map[], lastCumulative := Earliest(), cumulativeRequired := false)
  }

  datatype FlushKind = FlushOnly | FlushAndClean | FlushAndClose

  /** What the tracker's loop receives: the three request channels, a timer tick, and a flush request. */
  datatype AckEvent =
    | IndividualAck(id: MessageId)
    | CumulativeAck(id: MessageId)
    | DuplicateQuery(id: MessageId)
    | TimerTick
    | FlushRequest(kind: FlushKind)

  predicate Cleans(ev: AckEvent)
  {
    ev == FlushRequest(FlushAndClean)
  }

  /** One turn of the tracker's loop; `timeBased` is MaxTime > 0. */
  function Step(s: AckState, timeBased: bool, ev: AckEvent): (r: AckState)
    requires Ready(s)
    ensures Ready(r) && r.capacity == s.capacity
    ensures !Cleans(ev) ==> LessEq(s.lastCumulative, r.lastCumulative)
  {
    match ev
    case IndividualAck(id) =>
      var a := Add(s, id);
      if IsFull(a) then FlushIndividual(a) else a
    case CumulativeAck(id) =>
      var u := UpdateCumulative(s, id);
      if timeBased then u else FlushCumulative(u)
    case DuplicateQuery(_) => s
    case TimerTick => Flush(s)
    case FlushRequest(kind) =>
      if kind == FlushAndClean then Clean(Flush(s)) else Flush(s)
  }

  /** The loop run over a sequence of events; it ends after a close request. */
  function Run(s: AckState, timeBased: bool, events: seq<AckEvent>): (r: AckState)
    requires Ready(s)
    ensures Ready(r) && r.capacity == s.capacity
    decreases |events|
  {
    if events == [] then s
    else
      var next := Step(s, timeBased, events[0]);
      if events[0] == FlushRequest(FlushAndClose) then next
      else Run(next, timeBased, events[1..])
  }

  /** A close request ends the loop: whatever events follow it are never handled. */
  lemma {:induction false} RunStopsAtClose(s: AckState, timeBased: bool, pre: seq<AckEvent>, post: seq<AckEvent>)
    requires Ready(s)
    requires forall i :: 0 <= i < |pre| ==> pre[i] != FlushRequest(FlushAndClose)
    ensures Run(s, timeBased, pre + [FlushRequest(FlushAndClose)] + post) ==
            Run(s, timeBased, pre + [FlushRequest(FlushAndClose)])
    decreases |pre|
  {
    var close := FlushRequest(FlushAndClose);
    var whole := pre + [close] + post;
    var upTo := pre + [close];
    if pre == [] {
      assert whole[0] == close && upTo[0] == close;
    } else {
      assert whole[0] == pre[0] && upTo[0] == pre[0];
      assert whole[1..] == pre[1..] + [close] + post;
      assert upTo[1..] == pre[1..] + [close];
      RunStopsAtClose(Step(s, timeBased, pre[0]), timeBased, pre[1..], post);
    }
  }

  /** The events of a caller acknowledging `ids` one by one. */
  function IndividualAcks(ids: seq<MessageId>): (evs: seq<AckEvent>)
    ensures |evs| == |ids|
    ensures forall i :: 0 <= i < |ids| ==> evs[i] == IndividualAck(ids[i])
  {
    seq(|ids|, i requires 0 <= i < |ids| => IndividualAck(ids[i]))
  }

  // ---------------------------------------------------------------------------
  // Properties

  /** Once an individual ack for `id` is recorded, `id` reports as a duplicate. */
  lemma AddMarksDuplicate(s: AckState, id: MessageId)
    requires Ready(s)
    ensures IsDuplicate(Add(s, id), id)
  {
  }

  /** Recording an individual ack never turns a duplicate into a non-duplicate. */
  lemma AddKeepsDuplicates(s: AckState, id: MessageId, x: MessageId)
    requires Ready(s) && IsDuplicate(s, x)
    ensures IsDuplicate(Add(s, id), x)
  {
  }

  /** After a flush, an id above the watermark whose position was in the flushed buffer
      no longer reports as a duplicate, even if other indexes of its batch were never
      acknowledged: the flush drops the whole position. */
  lemma FlushForgetsFlushedPositions(s: AckState, x: MessageId)
    requires Key(x) in KeysOf(s.buffered) && !LessEq(x, s.lastCumulative)
    ensures !IsDuplicate(FlushIndividual(s), x)
  {
  }

  lemma FlushIndividualIdempotent(s: AckState)
    ensures FlushIndividual(FlushIndividual(s)) == FlushIndividual(s)
  {
  }

  lemma FlushCumulativeIdempotent(s: AckState)
    ensures FlushCumulative(FlushCumulative(s)) == FlushCumulative(s)
  {
  }

  /** After clean, no identifier above the earliest one is a duplicate. */
  lemma CleanForgetsDuplicates(s: AckState, id: MessageId)
    requires Compare(Earliest(), id) < 0
    ensures !IsDuplicate(Clean(s), id)
  {
  }

  /** Without a clean, the watermark never moves back over any run of the loop. */
  lemma {:induction false} WatermarkNeverDecreases(s: AckState, timeBased: bool, events: seq<AckEvent>)
    requires Ready(s)
    requires forall i :: 0 <= i < |events| ==> !Cleans(events[i])
    ensures LessEq(s.lastCumulative, Run(s, timeBased, events).lastCumulative)
    decreases |events|
  {
    if events != [] {
      var next := Step(s, timeBased, events[0]);
      if events[0] != FlushRequest(FlushAndClose) {
        WatermarkNeverDecreases(next, timeBased, events[1..]);
        LessEqTransitive(s.lastCumulative, next.lastCumulative, Run(next, timeBased, events[1..]).lastCumulative);
      }
    }
  }

  /** Cumulative acks dominate: an id at or below the watermark stays a duplicate,
      whatever individual acks, queries and flushes follow, until a clean. */
  lemma CumulativeDominance(s: AckState, timeBased: bool, events: seq<AckEvent>, id: MessageId)
    requires Ready(s) && LessEq(id, s.lastCumulative)
    requires forall i :: 0 <= i < |events| ==> !Cleans(events[i])
    ensures IsDuplicate(Run(s, timeBased, events), id)
  {
    WatermarkNeverDecreases(s, timeBased, events);
    LessEqTransitive(id, s.lastCumulative, Run(s, timeBased, events).lastCumulative);
  }

  /** Recording an ack for a position that is dropped afterwards leaves no trace. */
  lemma RecordPendingHidden(p: PendingIndex, id: MessageId, keys: set<Position>)
    requires Key(id) in keys
    ensures RecordPending(p, id) - keys == p - keys
  {
  }

  lemma KeysOfAppend(a: seq<MessageId>, b: seq<MessageId>)
    ensures KeysOf(a + b) == KeysOf(a) + KeysOf(b)
  {
    forall k | k in KeysOf(a + b) ensures k in KeysOf(a) + KeysOf(b) {
      var i :| 0 <= i < |a + b| && Key((a + b)[i]) == k;
      if i >= |a| { assert Key(b[i - |a|]) == k; }
    }
    forall k | k in KeysOf(a) + KeysOf(b) ensures k in KeysOf(a + b) {
      if k in KeysOf(a) {
        var i :| 0 <= i < |a| && Key(a[i]) == k;
        assert (a + b)[i] == a[i];
      } else {
        var i :| 0 <= i < |b| && Key(b[i]) == k;
        assert (a + b)[|a| + i] == b[i];
      }
    }
  }

  /** One individual-ack event, unfolded from the front of a run. */
  lemma RunIndividualAcksUnfold(s: AckState, timeBased: bool, ids: seq<MessageId>)
    requires Ready(s) && |ids| > 0
    ensures Run(s, timeBased, IndividualAcks(ids)) ==
              Run(Step(s, timeBased, IndividualAck(ids[0])), timeBased, IndividualAcks(ids[1..]))
  {
    assert IndividualAcks(ids)[1..] == IndividualAcks(ids[1..]);
  }

  /** The pending index after adding `id` to a run and dropping every position of it. */
  lemma AddThenDrop(s: AckState, id: MessageId, ids: seq<MessageId>)
    requires Ready(s) && |ids| > 0 && ids[0] == id
    ensures Add(s, id).buffered + ids[1..] == s.buffered + ids
    ensures Add(s, id).pending - KeysOf(s.buffered + ids) == s.pending - KeysOf(s.buffered + ids)
  {
    assert s.buffered + [id] + ids[1..] == s.buffered + ids by {
      assert ids == [id] + ids[1..];
    }
    KeysOfAppend(s.buffered, ids);
    assert ids[0] == id;
    assert Key(id) in KeysOf(ids);
    RecordPendingHidden(s.pending, id, KeysOf(s.buffered + ids));
  }

  /** Individual acks that exactly fill the buffer are all handed to the callback, once
      each and in order, by the last of them; the buffer is then empty and none of
      their positions is left pending. */
  lemma {:induction false} FillingBufferSendsAll(s: AckState, timeBased: bool, ids: seq<MessageId>)
    requires Ready(s) && |s.buffered| + |ids| == s.capacity
    ensures Run(s, timeBased, IndividualAcks(ids)).sent == s.sent + s.buffered + ids
    ensures Run(s, timeBased, IndividualAcks(ids)).buffered == []
    ensures Run(s, timeBased, IndividualAcks(ids)).pending == s.pending - KeysOf(s.buffered + ids)
    ensures Run(s, timeBased, IndividualAcks(ids)).lastCumulative == s.lastCumulative
    decreases |ids|
  {
    var id := ids[0];
    var a := Add(s, id);
    RunIndividualAcksUnfold(s, timeBased, ids);
    AddThenDrop(s, id, ids);
    if |ids| == 1 {
      assert IndividualAcks(ids[1..]) == [];
      assert Step(s, timeBased, IndividualAck(id)) == FlushIndividual(a);
      assert a.buffered == s.buffered + ids by { assert ids[1..] == []; }
      assert FlushIndividual(a).pending == a.pending - KeysOf(s.buffered + ids);
      assert Run(s, timeBased, IndividualAcks(ids)) == FlushIndividual(a);
    } else {
      assert Step(s, timeBased, IndividualAck(id)) == a;
      FillingBufferSendsAll(a, timeBased, ids[1..]);
    }
  }

  /** With time-based flushing disabled, a cumulative ack that moves the watermark is
      handed to the callback within the same turn of the loop. */
  lemma CumulativeSentAtOnceWithoutTimer(s: AckState, id: MessageId)
    requires Ready(s) && Compare(s.lastCumulative, id) < 0
    ensures Step(s, false, CumulativeAck(id)).sentCumulative == s.sentCumulative + [id]
    ensures !Step(s, false, CumulativeAck(id)).cumulativeRequired
  {
  }

  /** Every flush request (plain, clean or close) first delivers everything buffered,
      then the watermark if it moved. */
  lemma FlushRequestDelivers(s: AckState, timeBased: bool, kind: FlushKind)
    requires Ready(s)
    ensures Step(s, timeBased, FlushRequest(kind)).sent == s.sent + s.buffered
    ensures Step(s, timeBased, FlushRequest(kind)).sentCumulative ==
              s.sentCumulative + (if s.cumulativeRequired then [s.lastCumulative] else [])
  {
  }

  /** Batch index i of a batch of three packed into entry 7 of ledger 5. */
  function BatchMember(i: int): MessageId
  {
    MessageId(5, 7, i, 3)
  }

  /** A batch of three at one position: after indexes 0 and 2 are acknowledged, index 1
      is not a duplicate and 0 and 2 are; after index 1 too, the entry has no bit left
      but stays in the index until the next flush drops it. */
  lemma BatchOfThreeExample(capacity: nat)
    requires capacity > 3
    ensures var s := Add(Add(Initial(capacity), BatchMember(0)), BatchMember(2));
            && !IsDuplicate(s, BatchMember(1))
            && IsDuplicate(s, BatchMember(0)) && IsDuplicate(s, BatchMember(2))
    ensures var t := Add(Add(Add(Initial(capacity), BatchMember(0)), BatchMember(2)), BatchMember(1));
            && Key(BatchMember(1)) in t.pending
            && t.pending[Key(BatchMember(1))].Batch?
            && NoneSet(t.pending[Key(BatchMember(1))].unacked)
            && Key(BatchMember(1)) !in FlushIndividual(t).pending
  {
  }
}
