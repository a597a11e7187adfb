/** Types shared by the two protocols. */
module Common {
  datatype Option<+T> = None | Some(value: T)

  datatype Result<+T, +E> = Ok(value: T) | Err(error: E)

  type Name = string

  // Only equality of UUIDs matters; 0 stands for uuid.Nil.  That uuid.New() never repeats
  // itself and never yields Nil is expressed where an identifier is drawn.
  type Uuid = nat

  const NIL: Uuid := 0

  /** Whether a write reaches its store, and whether the answer comes back. */
  datatype Fault = Answered | ReplyLost | NeverArrived

  /** There is always an identifier that was not drawn yet. */
  lemma {:induction false} UnusedUuid(used: set<Uuid>) returns (uuid: Uuid)
    ensures uuid != NIL && forall u | u in used :: u < uuid
  {
    if used == {} {
      uuid := 1;
    } else {
      var u :| u in used;
      var rest := UnusedUuid(used - {u});
      uuid := if u < rest then rest else u + 1;
      assert forall v | v in used :: v == u || v in used - {u};
    }
  }
}
