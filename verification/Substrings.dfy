/** Python's `part in text`, for texts and for bytes. */
module Substrings {
  predicate OccursAt<T(==)>(part: seq<T>, text: seq<T>, i: int) {
    0 <= i <= |text| - |part| && text[i..i + |part|] == part
  }

  predicate Occurs<T(==)>(part: seq<T>, text: seq<T>) {
    exists i :: 0 <= i <= |text| && OccursAt(part, text, i)
  }
}
