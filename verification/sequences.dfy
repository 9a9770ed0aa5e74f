/** Array operations of the document store and of JavaScript that the ledger
    and the client list use: set-like add and pull on arrays, deletion of one
    element, and a first-match search. */
module Sequences {
  import opened JsValues

  predicate NoDuplicates<T(==)>(s: seq<T>) {
    forall i, j | 0 <= i < j < |s| :: s[i] != s[j]
  }

  /** `$addToSet`: append `x` unless it is already an element. */
  function AddToSet<T(==)>(s: seq<T>, x: T): (r: seq<T>)
    ensures x in r
    ensures forall i | 0 <= i < |r| :: r[i] in s || r[i] == x
    ensures forall i | 0 <= i < |s| :: s[i] in r
    ensures s <= r && |r| <= |s| + 1
    ensures NoDuplicates(s) ==> NoDuplicates(r)
    // a repeat add is a no-op
    ensures x in s ==> r == s
  {
    if x in s then s else s + [x]
  }

  /** `$pull` (and a Mongoose array's `pull`): remove every occurrence of `x`. */
  function Pull<T(==)>(s: seq<T>, x: T): (r: seq<T>)
    ensures x !in r
    ensures forall i | 0 <= i < |r| :: r[i] in s
    ensures forall i | 0 <= i < |s| && s[i] != x :: s[i] in r
    ensures |r| <= |s|
    ensures x !in s ==> r == s
    ensures NoDuplicates(s) ==> NoDuplicates(r)
    ensures NoDuplicates(s) && x in s ==> |r| == |s| - 1
    ensures r == [] <==> forall i | 0 <= i < |s| :: s[i] == x
  {
    if |s| == 0 then []
    else
      var tail := s[1..];
      assert forall i | 0 <= i < |tail| :: tail[i] == s[i + 1];
      var rest := Pull(tail, x);
      if s[0] == x then rest
      else
        PullConsKeepsDistinct(s, rest);
        [s[0]] + rest
  }

  /** Pull's step case for distinct elements: the kept head is not among the
      pulled tail, so putting it back in front keeps the elements distinct. */
  lemma PullConsKeepsDistinct<T>(s: seq<T>, rest: seq<T>)
    requires |s| > 0
    requires forall i | 0 <= i < |rest| :: rest[i] in s[1..]
    requires NoDuplicates(s[1..]) ==> NoDuplicates(rest)
    ensures NoDuplicates(s) ==> NoDuplicates([s[0]] + rest)
  {
    if NoDuplicates(s) {
      var tail := s[1..];
      forall i, j | 0 <= i < j < |tail| ensures tail[i] != tail[j] {
        assert tail[i] == s[i + 1] && tail[j] == s[j + 1];
      }
      forall k | 0 <= k < |tail| ensures tail[k] != s[0] {
        assert tail[k] == s[k + 1];
      }
      var r := [s[0]] + rest;
      forall i, j | 0 <= i < j < |r| ensures r[i] != r[j] {
        assert r[j] == rest[j - 1];
        if i > 0 {
          assert r[i] == rest[i - 1];
        }
      }
    }
  }

  /** Pulling distributes over concatenation, so the elements that stay keep their order. */
  lemma {:induction false} PullAppend<T>(a: seq<T>, b: seq<T>, x: T)
    ensures Pull(a + b, x) == Pull(a, x) + Pull(b, x)
  {
    if |a| > 0 {
      assert (a + b)[1..] == a[1..] + b;
      PullAppend(a[1..], b, x);
    } else {
      assert a + b == b;
    }
  }

  /** Pulling what was just added back out restores the array. */
  lemma PullUndoesAddToSet<T>(s: seq<T>, x: T)
    requires x !in s
    ensures Pull(AddToSet(s, x), x) == s
  {
    PullAppend(s, [x], x);
  }

  /** Deletion of the element at index `i`; the others close up in order. */
  function RemoveAt<T>(s: seq<T>, i: nat): (r: seq<T>)
    requires i < |s|
    ensures |r| == |s| - 1
    ensures forall k | 0 <= k < i :: r[k] == s[k]
    ensures forall k | i <= k < |r| :: r[k] == s[k + 1]
  {
    s[..i] + s[i + 1..]
  }

  /** `Array.prototype.findIndex` / `findOne` in natural order: the first index whose element satisfies `p`. */
  function FindFirst<T>(s: seq<T>, p: T -> bool): (r: Option<nat>)
    ensures r.Some? ==> r.value < |s| && p(s[r.value])
    ensures r.Some? ==> forall i | 0 <= i < r.value :: !p(s[i])
    ensures r.None? <==> forall i | 0 <= i < |s| :: !p(s[i])
  {
    if |s| == 0 then None
    else if p(s[0]) then Some(0)
    else match FindFirst(s[1..], p)
      case None => None
      case Some(k) => Some(k + 1)
  }
}
