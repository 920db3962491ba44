// Definitions shared by all parts of the project.

module Basics {
  datatype Option<+T> = None | Some(value: T) {
    predicate IsFailure() { None? }
    function PropagateFailure<U>(): Option<U> requires None? { None }
    function Extract(): T requires Some? { value }
  }

  const SECTOR: nat := 512

  type Sector = s: seq<bv8> | |s| == SECTOR witness seq(SECTOR, _ => 0)

  // s with position i taken out.
  function Without<T>(s: seq<T>, i: nat): seq<T>
    requires i < |s|
  {
    s[..i] + s[i + 1..]
  }
}
