/** What several models share. */
module Common {
  datatype Option<+T> = None | Some(value: T)

  function Concat<T>(parts: seq<seq<T>>): seq<T> {
    if parts == [] then [] else Concat(parts[..|parts| - 1]) + parts[|parts| - 1]
  }

  /** What is left after the first `k` parts. */
  lemma {:induction false} ConcatSplit<T>(parts: seq<seq<T>>, k: nat) returns (rest: seq<T>)
    requires k <= |parts|
    ensures Concat(parts) == Concat(parts[..k]) + rest
    decreases |parts| - k
  {
    if k == |parts| {
      rest := [];
      assert parts[..k] == parts;
      assert Concat(parts[..k]) + rest == Concat(parts);
    } else {
      var more := ConcatSplit(parts, k + 1);
      assert parts[..k + 1][..k] == parts[..k];
      rest := parts[k] + more;
      assert Concat(parts[..k]) + rest == Concat(parts[..k + 1]) + more;
    }
  }
}
