/** Small facts about sequence slices and concatenation used by the loop proofs. */
module SeqFacts {

  /** Two adjacent slices of a sequence make up the slice they span. */
  lemma SliceJoin<T>(xs: seq<T>, i: nat, j: nat, k: nat)
    requires i <= j <= k <= |xs|
    ensures xs[i..j] + xs[j..k] == xs[i..k]
  {
  }

  /** A slice grown by the element right after it. */
  lemma SliceExtend<T>(xs: seq<T>, i: nat, j: nat)
    requires i <= j < |xs|
    ensures xs[i..j] + [xs[j]] == xs[i..j + 1]
    ensures xs[j..][0] == xs[j] && xs[j..][1..] == xs[j + 1..]
  {
  }

  /** Moving the first element of a suffix onto the end of what precedes it. */
  lemma MoveHead<T>(front: seq<T>, xs: seq<T>, i: nat)
    requires i < |xs|
    ensures front + xs[i..] == (front + [xs[i]]) + xs[i + 1..]
  {
    assert xs[i..] == [xs[i]] + xs[i + 1..];
  }

  /** Concatenation regrouped: a + b + c is a followed by whatever b + c equals. */
  lemma Reassociate<T>(a: seq<T>, b: seq<T>, c: seq<T>, bc: seq<T>)
    requires b + c == bc
    ensures (a + b) + c == a + bc
  {
  }
}
