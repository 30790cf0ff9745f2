/** The optional value used wherever the source returns `None` or a value,
    and two facts about sequences. */
module Wrappers {

  datatype Option<+T> = None | Some(value: T) {

    /** The value, or `default` when there is none. */
    function GetOr(default: T): T {
      match this
      case Some(v) => v
      case None => default
    }
  }

  /** Concatenation regroups freely; stated generically, where the solver
      sees nothing of the elements. */
  lemma ConcatAssoc<T>(a: seq<T>, b: seq<T>, c: seq<T>)
    ensures (a + b) + c == a + (b + c)
  {
  }

  /** Dropping the element at `i + 1` of `[x] + xs` drops the one at `i` of `xs`. */
  lemma DropBehindHead<T>(x: T, xs: seq<T>, i: nat)
    requires i < |xs|
    ensures ([x] + xs)[..i + 1] + ([x] + xs)[i + 2..] == [x] + xs[..i] + xs[i + 1..]
  {
    assert ([x] + xs)[..i + 1] == [x] + xs[..i];
    assert ([x] + xs)[i + 2..] == xs[i + 1..];
  }
}
