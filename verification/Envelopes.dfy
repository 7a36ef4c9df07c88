/** The records that cross the kernel, the service and the store. */
module Envelopes {
  // Hashes are SHA-256 of canonical JSON.  The hash is taken to be injective, and canonical text is a
  // function of meaning (CanonicalMeaning.PrintsAlike), so a digest is represented by what it is the
  // digest of; `Unrelated` stands for text that is nobody's digest.
  import opened CodeUnits
  import opened CanonicalJson

  type Id = Text

  datatype Digest =
    | OfValue(value: Value)
    | OfCommand(command: Command)
    | OfReceipt(receipt: ReceiptBase)
    | Unrelated(text: Text)

  datatype StreamKey = StreamKey(aggregateType: Text, aggregateId: Id)

  datatype SchemaRef = SchemaRef(schemaId: Text, schemaVersion: Text, schemaHash: Text)

  datatype Command = Command(
    commandId: Id,
    commandType: Text,
    stream: StreamKey,
    expectedVersion: int,
    idempotencyKey: Id,
    actor: Value,
    correlationId: Id,
    payloadSchema: SchemaRef,
    payloadHash: Digest,
    payload: Value)

  datatype Event = Event(
    eventId: Id,
    eventType: Text,
    stream: StreamKey,
    version: int,
    occurredAt: Text,
    actor: Value,
    causationId: Id,
    correlationId: Id,
    payloadSchema: SchemaRef,
    payloadHash: Digest,
    payload: Value)

  /** An outbox task. */
  datatype Task = Task(taskId: Id, idempotencyKey: Id, effectScope: Text, payloadHash: Digest, payload: Value)

  datatype Audit = Audit(auditId: Id, occurredAt: Text, action: Text, payloadHash: Digest)

  /** The four columns that decide whether a command is a repeat. */
  datatype Identity = Identity(commandId: Id, idempotencyKey: Id, effectScope: Text, payloadHash: Digest)

  datatype Batch = Batch(
    identity: Identity,
    transactionId: Id,
    capturedAt: Text,
    stream: StreamKey,
    expectedVersion: int,
    events: seq<Event>,
    outbox: seq<Task>,
    audit: seq<Audit>)

  datatype ReceiptBase = ReceiptBase(
    transactionId: Id,
    commandId: Id,
    stream: StreamKey,
    committedVersion: int,
    eventIds: seq<Id>,
    outboxTaskIds: seq<Id>,
    auditIds: seq<Id>,
    committedAt: Text)

  datatype Receipt = Receipt(base: ReceiptBase, receiptHash: Digest)

  datatype Result<+T, +E> = Ok(value: T) | Err(error: E)
}
