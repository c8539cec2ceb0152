/** The few list and set behaviours of Python the model relies on:
    indexing with negative indices, `set(xs)`, and duplicate-free lists. */
module PyList {
  import opened Wrappers

  /** `set(xs)`: the elements of a list. */
  function Elems<T>(xs: seq<T>): set<T>
  {
    set x | x in xs
  }

  /** A list in which no element occurs twice. */
  predicate NoDuplicates<T(==)>(xs: seq<T>)
  {
    forall i, j :: 0 <= i < j < |xs| ==> xs[i] != xs[j]
  }

  /** `xs.count(x)`: the number of times `x` occurs in `xs`. */
  function Count<T(==)>(xs: seq<T>, x: T): nat
  {
    multiset(xs)[x]
  }

  /** The position `xs[idx]` reads for a list of length `len`: Python counts a
      negative index from the end, and anything outside `-len .. len-1` raises
      `IndexError` (None here). */
  function PyIndex(len: nat, idx: int): (r: Option<nat>)
    ensures r.Some? <==> 0 <= idx + len && idx < len
    ensures r.Some? ==> r.value < len && (r.value - idx) % len == 0
    ensures 0 <= idx < len ==> r == Some(idx)
  {
    if 0 <= idx < len then Some(idx)
    else if 0 <= idx + len && idx < 0 then Some(len + idx)
    else None
  }

  /** A list has as many distinct elements as entries exactly when no entry is
      repeated: `len(set(xs)) == len(xs)` is Python's duplicate test. */
  lemma {:induction false} DistinctCount<T>(xs: seq<T>)
    ensures |Elems(xs)| <= |xs|
    ensures |Elems(xs)| == |xs| <==> NoDuplicates(xs)
  {
    if xs == [] {
      assert Elems(xs) == {};
    } else {
      var h, t := xs[0], xs[1..];
      DistinctCount(t);
      assert Elems(xs) == Elems(t) + {h} by {
        forall x ensures x in Elems(xs) <==> x in Elems(t) + {h} {
          if x in xs && x != h {
            var i :| 0 <= i < |xs| && xs[i] == x;
            assert t[i - 1] == x;
          }
        }
      }
      if h in t {
        assert Elems(xs) == Elems(t);
        var k :| 0 <= k < |t| && t[k] == h;
        assert xs[0] == xs[k + 1];
      } else {
        assert |Elems(xs)| == |Elems(t)| + 1;
        if NoDuplicates(t) {
          forall i, j | 0 <= i < j < |xs| ensures xs[i] != xs[j] {
            if i == 0 { assert xs[j] == t[j - 1]; } else { assert xs[i] == t[i - 1] && xs[j] == t[j - 1]; }
          }
        }
        if NoDuplicates(xs) {
          forall i, j | 0 <= i < j < |t| ensures t[i] != t[j] {
            assert t[i] == xs[i + 1] && t[j] == xs[j + 1];
          }
        }
      }
    }
  }

  /** A subset is no larger than the set, and one as large is the set. */
  lemma {:induction false} SubsetSize<T>(a: set<T>, b: set<T>)
    requires a <= b
    ensures |a| <= |b|
    ensures |a| == |b| ==> a == b
  {
    var extra := b - a;
    assert b == a + extra;
    assert |b| == |a| + |extra|;
  }
}
