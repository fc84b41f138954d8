/** The events an in-flight request produces. */
module HttpEvents {
  type Byte = b: int | 0 <= b < 256

  datatype Header = Header(name: string, value: string)

  datatype Event =
    | Response(status: int, headers: seq<Header>)
    | Chunk(bytes: seq<Byte>)
    | Done
    | Failure(code: string, message: string)
  {
    predicate IsTerminal() {
      Done? || Failure?
    }
  }

  const CANCELLED := Failure("cancelled", "request cancelled")
  const TIMED_OUT := Failure("timedOut", "request timed out waiting for host event")
  const SENTINEL := Failure("badServerResponse", "unknown or exhausted task handle")
}
