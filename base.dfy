/** Small value types shared by the faction engine, the sector-event dispatcher
    and the notification hub. */
module Base {

  /** A byte string, as Go's []byte. */
  type Bytes = seq<bv8>

  datatype Option<T> = None | Some(value: T)

  /** The errors the core can return. Go returns them as plain `error` values;
      here each origin gets its own constructor. */
  datatype Error =
    | NotFound                                      // mgo.ErrNotFound from Find().One() or Update()
    | MemberExists(steamId: nat, factionId: nat)    // "... want to join ... but exists"
    | MemberMissing(steamId: nat, factionId: nat)   // "... want to leave/accept join ... but not exists"
    | Malformed                                     // json.Unmarshal failed

  datatype Result<T> = Ok(value: T) | Err(error: Error)

  /** A Go `error` result: nil (Pass) or an error. */
  datatype Outcome = Pass | Fail(error: Error) {
    /** The first error of two steps run in order, as errgroup.Wait reports it. */
    function Then(next: Outcome): Outcome {
      if Fail? then this else next
    }
  }
}
