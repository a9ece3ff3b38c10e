/**
 * `Array.prototype.pushSorted` (static/game.js): a binary search for the new
 * element's position, followed by a `splice` that inserts it. The search
 * reports a miss as `-m - 1`, and `splice` reads a negative start as an offset
 * from the END of the array (clamped at 0), so a missing element is inserted
 * at `max(len - m - 1, 0)`, the mirror of `m`, which equals `m` only when
 * `2m = len - 1` or the array is empty.
 */
module PushSorted {
  import opened Wrappers

  /**
   * The binary search loop from the state `(m, n)` on. A probe `k` is the
   * midpoint `(n + m) >> 1`; both operands are non-negative here, so the shift
   * is halving. A hit returns the probe; a miss returns `-m - 1`.
   */
  function SearchFrom<T>(arr: seq<T>, el: T, compareFn: (T, T) -> int, m: int, n: int): (r: int)
    requires 0 <= m <= n + 1 <= |arr|
    ensures r >= 0 ==> m <= r <= n && compareFn(el, arr[r]) == 0
    ensures r < 0 ==> m <= -r - 1 <= n + 1
    decreases n + 1 - m
  {
    if m > n then -m - 1
    else
      var k := (n + m) / 2;
      var cmp := compareFn(el, arr[k]);
      if cmp > 0 then SearchFrom(arr, el, compareFn, k + 1, n)
      else if cmp < 0 then SearchFrom(arr, el, compareFn, m, k - 1)
      else k
  }

  /** The search over the whole array: a non-negative result is an index whose
      element compares equal to `el`; a negative one is `-m - 1` with
      `0 <= m <= |arr|`, so if nothing compares equal the result is negative. */
  function Search<T>(arr: seq<T>, el: T, compareFn: (T, T) -> int): (r: int)
    ensures r >= 0 ==> r < |arr| && compareFn(el, arr[r]) == 0
    ensures r < 0 ==> -r - 1 <= |arr|
  {
    SearchFrom(arr, el, compareFn, 0, |arr| - 1)
  }

  /** The search as the source runs it: a loop over `m` and `n`. */
  method BinarySearch<T>(arr: seq<T>, el: T, compareFn: (T, T) -> int) returns (r: int)
    ensures r == Search(arr, el, compareFn)
    ensures r >= 0 ==> r < |arr| && compareFn(el, arr[r]) == 0
  {
    var m := 0;
    var n := |arr| - 1;
    while m <= n
      invariant 0 <= m <= n + 1 <= |arr|
      invariant SearchFrom(arr, el, compareFn, m, n) == Search(arr, el, compareFn)
    {
      var k := (n + m) / 2;
      var cmp := compareFn(el, arr[k]);
      if cmp > 0 {
        m := k + 1;
      } else if cmp < 0 {
        n := k - 1;
      } else {
        return k;
      }
    }
    return -m - 1;
  }

  /** `el` is greater than every element before `p` and less than every element
      from `p` on: `arr` is sorted ascending around it and `p` is its insertion
      point. */
  ghost predicate SplitsAt<T>(arr: seq<T>, el: T, compareFn: (T, T) -> int, p: int) {
    && 0 <= p <= |arr|
    && (forall j :: 0 <= j < p ==> compareFn(el, arr[j]) > 0)
    && (forall j :: p <= j < |arr| ==> compareFn(el, arr[j]) < 0)
  }

  lemma {:induction false} SearchFromSplit<T>(arr: seq<T>, el: T, compareFn: (T, T) -> int, m: int, n: int, p: int)
    requires 0 <= m <= n + 1 <= |arr|
    requires SplitsAt(arr, el, compareFn, p) && m <= p <= n + 1
    ensures SearchFrom(arr, el, compareFn, m, n) == -p - 1
    decreases n + 1 - m
  {
    if m <= n {
      var k := (n + m) / 2;
      if k < p {
        SearchFromSplit(arr, el, compareFn, k + 1, n, p);
      } else {
        SearchFromSplit(arr, el, compareFn, m, k - 1, p);
      }
    }
  }

  /** On an array sorted around `el` the search misses with `-p - 1`, where `p`
      is the insertion point. */
  lemma SearchSplit<T>(arr: seq<T>, el: T, compareFn: (T, T) -> int, p: int)
    requires SplitsAt(arr, el, compareFn, p)
    ensures Search(arr, el, compareFn) == -p - 1
  {
    SearchFromSplit(arr, el, compareFn, 0, |arr| - 1, p);
  }

  /** Where `splice(start, 0, item)` inserts into an array of length `len`
      (section 23.1.3.31 of ECMA-262): a negative start counts back from the
      end and is clamped at 0, a non-negative one is clamped at `len`. */
  function SpliceStart(len: nat, start: int): (r: nat)
    ensures r <= len
    ensures 0 <= start <= len ==> r == start
    ensures start < 0 && len + start >= 0 ==> r == len + start
    ensures len + start < 0 ==> r == 0
  {
    if start < 0 then (if len + start < 0 then 0 else len + start)
    else if start < len then start
    else len
  }

  /** `s` with `x` inserted before index `i`: nothing is deleted, exactly one
      element is added and the others keep their order. */
  function InsertAt<T>(s: seq<T>, i: nat, x: T): (r: seq<T>)
    requires i <= |s|
    ensures |r| == |s| + 1 && r[i] == x
    ensures r[..i] == s[..i] && r[i + 1..] == s[i..]
    ensures multiset(r) == multiset(s) + multiset{x}
  {
    assert s == s[..i] + s[i..];
    s[..i] + [x] + s[i..]
  }

  /** The index at which `pushSorted` puts `el`: the hit if the search found an
      equal element, otherwise `max(|s| - m - 1, 0)` for a miss `-m - 1`. */
  function Placement<T>(s: seq<T>, el: T, compareFn: (T, T) -> int): (i: nat)
    ensures i <= |s|
    ensures Search(s, el, compareFn) >= 0 ==> i == Search(s, el, compareFn)
    ensures Search(s, el, compareFn) < 0 ==>
      i == if |s| + Search(s, el, compareFn) > 0 then |s| + Search(s, el, compareFn) else 0
  {
    SpliceStart(|s|, Search(s, el, compareFn))
  }

  /** The array `pushSorted` leaves behind. */
  function PushedSorted<T>(s: seq<T>, el: T, compareFn: (T, T) -> int): (r: seq<T>)
    ensures |r| == |s| + 1
    ensures multiset(r) == multiset(s) + multiset{el}
  {
    InsertAt(s, Placement(s, el, compareFn), el)
  }

  /** On an array sorted around `el` with insertion point `p`, `pushSorted`
      puts `el` at `max(|s| - p - 1, 0)`, the mirror of where it belongs, which
      is the same place only when `2p = |s| - 1` or `s` is empty. */
  lemma PlacementWhenSplit<T>(s: seq<T>, el: T, compareFn: (T, T) -> int, p: int)
    requires SplitsAt(s, el, compareFn, p)
    ensures Placement(s, el, compareFn) == if |s| - p - 1 > 0 then |s| - p - 1 else 0
  {
    SearchSplit(s, el, compareFn, p);
  }

  /** An element greater than all the others goes to the FRONT. */
  lemma GreatestGoesFirst<T>(s: seq<T>, el: T, compareFn: (T, T) -> int)
    requires forall j :: 0 <= j < |s| ==> compareFn(el, s[j]) > 0
    ensures PushedSorted(s, el, compareFn) == [el] + s
  {
    PlacementWhenSplit(s, el, compareFn, |s|);
    assert s[..0] == [];
  }

  /** A JavaScript array, as far as the client uses it: a sequence that `splice`,
      `pop` and `pushSorted` update in place. */
  class JsArray<T> {
    var elems: seq<T>

    constructor ()
      ensures elems == []
    {
      elems := [];
    }

    /** `this.splice(start, 0, item)`. */
    method Splice(start: int, item: T)
      modifies this
      ensures elems == InsertAt(old(elems), SpliceStart(|old(elems)|, start), item)
    {
      var i := SpliceStart(|elems|, start);
      elems := elems[..i] + [item] + elems[i..];
    }

    /** `this.pop()`: removes and returns the last element, `undefined` on an
        empty array. */
    method Pop() returns (last: Option<T>)
      modifies this
      ensures old(elems) == [] ==> last == None && elems == []
      ensures old(elems) != [] ==>
        last == Some(old(elems)[|old(elems)| - 1]) && elems == old(elems)[..|old(elems)| - 1]
    {
      if elems == [] {
        last := None;
      } else {
        last := Some(elems[|elems| - 1]);
        elems := elems[..|elems| - 1];
      }
    }

    /** `this.pushSorted(el, compareFn)`: inserts `el` at `Placement` and returns
        the new length, one more than before. */
    method PushSorted(el: T, compareFn: (T, T) -> int) returns (length: nat)
      modifies this
      ensures elems == PushedSorted(old(elems), el, compareFn)
      ensures length == |elems| == |old(elems)| + 1
    {
      var r := BinarySearch(elems, el, compareFn);
      Splice(r, el);
      length := |elems|;
    }
  }
}
