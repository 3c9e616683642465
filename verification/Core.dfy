/** Values shared by the whole model: ids, users, errors and results. */
module Core {
  newtype byte = x: int | 0 <= x < 256

  /** A google/uuid UUID: sixteen bytes. */
  datatype RawUuid = RawUuid(bytes: seq<byte>)
  type Uuid = u: RawUuid | |u.bytes| == 16 witness RawUuid(seq(16, _ => 0 as byte))

  const TWO63: int := 0x8000_0000_0000_0000
  const TWO64: int := 0x1_0000_0000_0000_0000
  const MAX_INT: int := TWO63 - 1

  /** Go's `int` on a 64-bit platform. */
  type int64 = x: int | -TWO63 <= x < TWO63

  datatype Option<+T> = None | Some(value: T)

  datatype Error =
    | NotFound
    | NameEmpty
    | EmailEmpty
    | EmailInvalid
    | DuplicateId
    | Storage

  datatype Result<+T> = Ok(value: T) | Err(error: Error)

  /** Timestamps are clock readings; only their order matters here. */
  type Time = int

  datatype User = User(
    id: Uuid,
    name: string,
    email: string,
    createdAt: Time,
    updatedAt: Time,
    deletedAt: Option<Time>)
  {
    predicate Live() {
      deletedAt.None?
    }
  }
}
