/** Filling a caller's array up to a capacity, as the self-hosted tools do. */
module Capped {

  /** `contents`, an array that began as `initial`, holds as much of `items` as `cap` allows,
      and is untouched past that. */
  ghost predicate Holds<T>(contents: seq<T>, initial: seq<T>, items: seq<T>, cap: nat, count: nat) {
    && cap <= |contents| == |initial|
    && count == (if |items| < cap then |items| else cap)
    && contents[..count] == items[..count]
    && contents[count..] == initial[count..]
  }

  lemma HoldsPush<T>(contents: seq<T>, initial: seq<T>, items: seq<T>, cap: nat, count: nat, item: T)
    requires Holds(contents, initial, items, cap, count)
    ensures count >= cap ==> Holds(contents, initial, items + [item], cap, count)
    ensures count < cap ==> Holds(contents[count := item], initial, items + [item], cap, count + 1)
  {
    if count < cap {
      var next := contents[count := item];
      assert next[..count + 1] == contents[..count] + [item];
      assert next[count + 1..] == contents[count..][1..] == initial[count..][1..] == initial[count + 1..];
    } else {
      assert (items + [item])[..count] == items[..count];
    }
  }
}
