/** The values that travel through encrypted sync.

  Encryption is ideal: an envelope carries the plaintext it opens to, and opening
  one returns exactly what was sealed. Revisions and cursors are natural numbers
  bounded by `MAX_WIRE_BIGINT`, as on the wire. Canonical ISO 8601 timestamps order
  like the instants they name, so a timestamp is an integer.
 */
module SyncModel {

  const MAX_WIRE_BIGINT: nat := 9_223_372_036_854_775_807

  /** The page size that the browser client asks for. */
  const PULL_LIMIT: nat := 100

  type RecordId = string
  type Time = int

  datatype Option<+T> = None | Some(value: T)

  datatype Result<+T, +E> = Ok(value: T) | Err(error: E)

  /** A login. `content` stands for the fields that sync never looks at. */
  datatype Item = Item(id: RecordId, content: string, updatedAt: Time)

  datatype Document = Document(items: seq<Item>, updatedAt: Time)

  datatype Plaintext = Login(item: Item) | Tombstone(deletedAt: Time)

  /** An encrypted record envelope, named by the plaintext it opens to. */
  datatype Envelope = Envelope(recordId: RecordId, revision: nat, plaintext: Plaintext)

  /** A random UUID: the drawing device and how many it drew before. Never drawn twice. */
  datatype MutationId = MutationId(device: nat, serial: nat)

  datatype Mutation = Mutation(id: MutationId, baseRevision: nat, record: Envelope)

  /** What request validation establishes. */
  predicate Validated(m: Mutation) {
    m.record.revision == m.baseRevision + 1 && m.record.revision <= MAX_WIRE_BIGINT
  }

  function Max(a: Time, b: Time): Time {
    if a > b then a else b
  }
}
