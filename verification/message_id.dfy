/** Message identifiers as the acknowledgment tracker sees them: a broker position
    (ledger, entry) and, for a message packed with others into one entry, its
    coordinates inside that batch. */
module MessageIds {

  /** batchIdx is -1 and batchSize 0 for a message that is not part of a batch. */
  datatype MessageId = MessageId(ledger: int, entry: int, batchIdx: int, batchSize: int)

  /** The broker position of a message, shared by every message of one batch;
      it is the key of the pending-ack index. */
  datatype Position = Position(ledger: int, entry: int)

  function Key(id: MessageId): Position
  {
    Position(id.ledger, id.entry)
  }

  /** A message is one of several packed into one entry. */
  predicate IsBatch(id: MessageId)
  {
    id.batchSize > 1
  }

  /** Identifiers the broker hands out: non-negative positions, batch index -1 or more. */
  predicate WellFormed(id: MessageId)
  {
    id.ledger >= 0 && id.entry >= 0 && id.batchIdx >= -1
  }

  /** The logical "earliest possible" message, the initial cumulative watermark. */
  function Earliest(): MessageId
  {
    MessageId(-1, -1, -1, 0)
  }

  /** Three-way comparison: by ledger, then entry, then batch index; the batch size
      plays no part. */
  function Compare(a: MessageId, b: MessageId): (r: int)
    ensures -1 <= r <= 1
    ensures r == 0 <==> Key(a) == Key(b) && a.batchIdx == b.batchIdx
  {
    if a.ledger != b.ledger then (if a.ledger < b.ledger then -1 else 1)
    else if a.entry != b.entry then (if a.entry < b.entry then -1 else 1)
    else if a.batchIdx != b.batchIdx then (if a.batchIdx < b.batchIdx then -1 else 1)
    else 0
  }

  predicate LessEq(a: MessageId, b: MessageId)
  {
    Compare(a, b) <= 0
  }

  lemma CompareAntisymmetric(a: MessageId, b: MessageId)
    ensures Compare(b, a) == -Compare(a, b)
  {
  }

  lemma LessEqTransitive(a: MessageId, b: MessageId, c: MessageId)
    requires LessEq(a, b) && LessEq(b, c)
    ensures LessEq(a, c)
  {
  }

  lemma LessEqTotal(a: MessageId, b: MessageId)
    ensures LessEq(a, b) || LessEq(b, a)
  {
  }

  /** The earliest id precedes every identifier the broker hands out. */
  lemma EarliestIsMinimum(id: MessageId)
    requires WellFormed(id)
    ensures Compare(Earliest(), id) < 0
  {
  }
}
