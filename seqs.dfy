/**
 * The array primitives the document store is built from, on sequences:
 * a conditional `Array.prototype.map`, `Array.prototype.filter`, the two
 * `splice` calls of a block move, and uniqueness of a key.
 */
module Seqs {

  /** `s.map(x => hit(x) ? f(x) : x)`. */
  function MapWhere<T>(s: seq<T>, hit: T -> bool, f: T --> T): (r: seq<T>)
    requires forall x :: x in s && hit(x) ==> f.requires(x)
    ensures |r| == |s|
    ensures forall i :: 0 <= i < |s| ==> r[i] == if hit(s[i]) then f(s[i]) else s[i]
    ensures (forall i :: 0 <= i < |s| ==> !hit(s[i])) ==> r == s
  {
    if s == [] then []
    else [if hit(s[0]) then f(s[0]) else s[0]] + MapWhere(s[1..], hit, f)
  }

  /** `s.filter(keep)`: the elements kept are exactly those satisfying `keep`. */
  function Filter<T>(s: seq<T>, keep: T -> bool): (r: seq<T>)
    ensures |r| <= |s|
    ensures forall i :: 0 <= i < |r| ==> r[i] in s && keep(r[i])
    ensures forall i :: 0 <= i < |s| && keep(s[i]) ==> s[i] in r
    ensures (forall i :: 0 <= i < |s| ==> keep(s[i])) ==> r == s
  {
    if s == [] then []
    else (if keep(s[0]) then [s[0]] else []) + Filter(s[1..], keep)
  }

  /** Filtering distributes over concatenation, so it keeps relative order. */
  lemma {:induction false} FilterConcat<T>(a: seq<T>, b: seq<T>, keep: T -> bool)
    ensures Filter(a + b, keep) == Filter(a, keep) + Filter(b, keep)
  {
    if a == [] {
      assert a + b == b;
    } else {
      assert (a + b)[1..] == a[1..] + b;
      FilterConcat(a[1..], b, keep);
    }
  }

  /** Filtering out a single rejected element between kept ones removes exactly it. */
  lemma FilterDropsOne<T>(a: seq<T>, x: T, b: seq<T>, keep: T -> bool)
    requires forall i :: 0 <= i < |a| ==> keep(a[i])
    requires forall i :: 0 <= i < |b| ==> keep(b[i])
    requires !keep(x)
    ensures Filter(a + [x] + b, keep) == a + b
  {
    FilterConcat(a + [x], b, keep);
    FilterConcat(a, [x], keep);
    assert Filter(a, keep) == a;
    assert Filter(b, keep) == b;
    assert Filter([x], keep) == [] by {
      assert [x][1..] == [];
    }
    assert a + [] == a;
  }

  // ---- Distinct keys ----

  /** No two elements of `s` share a key. */
  predicate Distinct<T>(s: seq<T>, key: T -> string) {
    forall i, j :: 0 <= i < j < |s| ==> key(s[i]) != key(s[j])
  }

  /** Some element of `s` has key `k`. */
  predicate HasKey<T>(s: seq<T>, key: T -> string, k: string) {
    exists i :: 0 <= i < |s| && key(s[i]) == k
  }

  lemma {:induction false} FilterKeepsDistinct<T>(s: seq<T>, keep: T -> bool, key: T -> string)
    requires Distinct(s, key)
    ensures Distinct(Filter(s, keep), key)
  {
    if s != [] {
      var tail := Filter(s[1..], keep);
      FilterKeepsDistinct(s[1..], keep, key);
      if keep(s[0]) {
        var r := [s[0]] + tail;
        assert Filter(s, keep) == r;
        forall i, j | 0 <= i < j < |r| ensures key(r[i]) != key(r[j]) {
          if i == 0 {
            assert r[j] in s[1..];
            var m :| 1 <= m < |s| && s[m] == r[j];
          }
        }
      } else {
        assert Filter(s, keep) == tail;
      }
    }
  }

  lemma PrependKeepsDistinct<T>(x: T, s: seq<T>, key: T -> string)
    requires Distinct(s, key) && !HasKey(s, key, key(x))
    ensures Distinct([x] + s, key)
  {
  }

  lemma AppendKeepsDistinct<T>(s: seq<T>, x: T, key: T -> string)
    requires Distinct(s, key) && !HasKey(s, key, key(x))
    ensures Distinct(s + [x], key)
  {
  }

  // ---- Array.prototype.splice, as used by a block move ----

  /**
   * The start position `splice` actually uses: a negative start counts back
   * from the end, and the result is clamped to `[0, len]`.
   */
  function SpliceStart(start: int, len: nat): (k: nat)
    ensures k <= len
    ensures 0 <= start <= len ==> k == start
    ensures start < 0 && 0 <= len + start ==> k == len + start
    ensures len + start < 0 ==> k == 0
    ensures start > len ==> k == len
  {
    if start < 0 then (if len + start < 0 then 0 else len + start)
    else if start > len then len
    else start
  }

  /** `arr.splice(k, 1)` on `s`: what remains after removing position `k`. */
  function Remove<T>(s: seq<T>, k: nat): (r: seq<T>)
    requires k < |s|
    ensures |r| == |s| - 1
    ensures forall i :: 0 <= i < k ==> r[i] == s[i]
    ensures forall i :: k <= i < |r| ==> r[i] == s[i + 1]
  {
    s[..k] + s[k + 1..]
  }

  /** `arr.splice(k, 0, x)` on `s`: `x` inserted so that it lands at position `k`. */
  function Insert<T>(s: seq<T>, k: nat, x: T): (r: seq<T>)
    requires k <= |s|
    ensures |r| == |s| + 1
    ensures r[k] == x
    ensures forall i :: 0 <= i < k ==> r[i] == s[i]
    ensures forall i :: k < i < |r| ==> r[i] == s[i - 1]
  {
    s[..k] + [x] + s[k..]
  }

  /**
   * A move of the element at `idx` by `dir` positions is defined unless the
   * target is in range while `idx` is past the end (then `splice` would
   * remove nothing and insert `undefined`).
   */
  predicate MoveDefined<T>(s: seq<T>, idx: int, dir: int) {
    0 <= idx + dir < |s| ==> idx < |s|
  }

  /**
   * The body of `moveBlock` on one block list: when the target `idx + dir`
   * is out of range the list is returned as it is; otherwise the element at
   * `idx` is spliced out and spliced back in at the target.
   */
  function Move<T>(s: seq<T>, idx: int, dir: int): (r: seq<T>)
    requires MoveDefined(s, idx, dir)
    ensures |r| == |s|
    ensures !(0 <= idx + dir < |s|) ==> r == s
  {
    var target := idx + dir;
    if target < 0 || target >= |s| then s
    else
      var from := SpliceStart(idx, |s|);
      Insert(Remove(s, from), target, s[from])
  }

  /** With an in-range index and a step of one, a move swaps two neighbours. */
  lemma MoveSwapsNeighbours<T>(s: seq<T>, idx: int, dir: int)
    requires 0 <= idx < |s| && (dir == 1 || dir == -1) && 0 <= idx + dir < |s|
    ensures Move(s, idx, dir) == s[idx := s[idx + dir]][idx + dir := s[idx]]
  {
  }

  /** A move only rearranges the elements. */
  lemma MovePermutes<T>(s: seq<T>, idx: int, dir: int)
    requires MoveDefined(s, idx, dir)
    ensures multiset(Move(s, idx, dir)) == multiset(s)
  {
    var target := idx + dir;
    if 0 <= target < |s| {
      var from := SpliceStart(idx, |s|);
      var x := s[from];
      var rest := s[..from] + s[from + 1..];
      assert s == s[..from] + [x] + s[from + 1..];
      assert multiset(s) == multiset(rest) + multiset{x};
      assert rest == rest[..target] + rest[target..];
      assert Move(s, idx, dir) == rest[..target] + [x] + rest[target..];
    }
  }

  /** Moving an element to an in-range target and back restores the list. */
  lemma MoveBack<T>(s: seq<T>, idx: int, dir: int)
    requires 0 <= idx < |s| && 0 <= idx + dir < |s|
    ensures Move(Move(s, idx, dir), idx + dir, -dir) == s
  {
  }

  /** A move keeps keys distinct. */
  lemma MoveKeepsDistinct<T>(s: seq<T>, idx: int, dir: int, key: T -> string)
    requires MoveDefined(s, idx, dir) && Distinct(s, key)
    ensures Distinct(Move(s, idx, dir), key)
  {
  }

  /** A negative index counts from the end: moving index -1 down by one rotates the list. */
  lemma MoveNegativeIndexRotates<T>(s: seq<T>)
    requires |s| >= 1
    ensures Move(s, -1, 1) == [s[|s| - 1]] + s[..|s| - 1]
  {
  }
}
