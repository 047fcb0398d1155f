/** The object kinds of object/: what the store keeps, before and after serialisation. */
module Objects {
  import opened Common

  /** The canonical rendering of a hash. The all-zero hash marks an unset ID. */
  type Id = Bytes

  /** A chunk's hash and length (object.ChunkRef). */
  datatype ChunkRef = ChunkRef(id: Id, length: int)

  /** The chunk list of a file and the size of its content (object.File). */
  datatype File = File(size: int, chunks: seq<ChunkRef>)

  /** One line of a manifest (object.Entry). */
  datatype Entry = Entry(path: Bytes, file: Id, size: int)

  /** A whole second of the proleptic Gregorian calendar in UTC. */
  datatype Stamp = Stamp(year: int, month: int, day: int, hour: int, minute: int, second: int)

  /** time.Time{}: the value `IsZero` reports. */
  const ZERO_TIME := Stamp(1, 1, 1, 0, 0, 0)

  /** object.Version; a zero `expiry` or `graph` and an empty `message` mean "not set". */
  datatype Version = Version(
    manifest: Id,
    parents: seq<Id>,
    author: Bytes,
    time: Stamp,
    expiry: Stamp,
    graph: Id,
    message: Bytes)

  /** What a collision of two int64 additions is measured against. */
  const MAX_INT64: int := 0x7fff_ffff_ffff_ffff

  function TotalLength(refs: seq<ChunkRef>): int {
    if refs == [] then 0 else TotalLength(refs[..|refs| - 1]) + refs[|refs| - 1].length
  }
}
