/** What every module of the model shares: options and two words about sequences. */
module Wrappers {
  datatype Option<+T> = None | Some(value: T)

  // The newest `n` entries, which is what a capped deque keeps.
  function LastN<T>(s: seq<T>, n: nat): seq<T> {
    if |s| <= n then s else s[|s| - n..]
  }

  ghost predicate Distinct<T>(s: seq<T>) {
    forall i, j | 0 <= i < j < |s| :: s[i] != s[j]
  }
}
