/** Sequences of calls on one hash object. */
module Sessions {

  datatype Call = Add(data: seq<bv8>) | GetHash | Reset

  /** What a session must return: each digest is that of the bytes added since the last reset,
      however they were split and wherever other digests were taken. */
  function Expected(digest: seq<bv8> -> string, calls: seq<Call>, added: seq<bv8>): seq<string>
    decreases |calls|
  {
    if calls == [] then [] else
      match calls[0]
      case Add(data) => Expected(digest, calls[1..], added + data)
      case GetHash => [digest(added)] + Expected(digest, calls[1..], added)
      case Reset => Expected(digest, calls[1..], [])
  }
}
