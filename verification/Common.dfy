/** Small vocabulary shared by the modules of this project. */
module Common {

  /** A value that may be nil in the source. */
  datatype Option<+T> = None | Some(value: T)

  /** Some number is above all of a set: a new id can always be found. */
  lemma {:induction false} BoundAbove(ids: set<nat>) returns (b: nat)
    ensures forall i | i in ids :: i < b
    decreases |ids|
  {
    if ids == {} {
      b := 0;
    } else {
      var i :| i in ids;
      var rest := BoundAbove(ids - {i});
      b := if rest > i then rest else i + 1;
      forall j | j in ids ensures j < b {
        assert j != i ==> j in ids - {i};
      }
    }
  }
}
