/**
 * Sibling positions. Lists are ordered inside a board and tasks inside a list by an integer
 * `position` column. This module abstracts one row to a `Slot` (its parent key and its
 * position) and defines, once for both tables:
 *   - `Count`: how many rows a parent has;
 *   - `Dense`: the parent's positions are 0, 1, ..., n-1, each exactly once;
 *   - `NextPosition`: the append-position allocator, "highest position + 1, or 0 when the
 *     parent has no rows".
 */
module Positions {

  datatype Slot = Slot(parent: int, position: int)

  /** Number of rows whose parent is `parent`. */
  function Count(s: seq<Slot>, parent: int): (n: nat)
    ensures n <= |s|
    ensures n == 0 <==> forall i :: 0 <= i < |s| ==> s[i].parent != parent
  {
    if s == [] then 0 else (if s[0].parent == parent then 1 else 0) + Count(s[1..], parent)
  }

  /** No two rows of `parent` share a position. */
  ghost predicate Distinct(s: seq<Slot>, parent: int)
  {
    forall i, j :: 0 <= i < j < |s| && s[i].parent == parent && s[j].parent == parent ==>
      s[i].position != s[j].position
  }

  /** The positions of `parent`'s rows are a permutation of 0 .. Count - 1. */
  ghost predicate Dense(s: seq<Slot>, parent: int)
  {
    && (forall i :: 0 <= i < |s| && s[i].parent == parent ==> 0 <= s[i].position < Count(s, parent))
    && Distinct(s, parent)
  }

  /**
   * The append-position allocator: one more than the highest position among `parent`'s rows,
   * or 0 when `parent` has none. Positions may be negative (nothing bounds them below), so the
   * result is characterised by "above every sibling, and the position just below it is taken".
   */
  function NextPosition(s: seq<Slot>, parent: int): (r: int)
    ensures forall i :: 0 <= i < |s| && s[i].parent == parent ==> s[i].position < r
    ensures Count(s, parent) == 0 ==> r == 0
    ensures Count(s, parent) > 0 ==>
      exists i :: 0 <= i < |s| && s[i].parent == parent && s[i].position == r - 1
  {
    if s == [] then 0
    else
      var rest := NextPosition(s[1..], parent);
      if s[0].parent == parent && (Count(s[1..], parent) == 0 || rest <= s[0].position) then
        s[0].position + 1
      else
        assert Count(s[1..], parent) > 0 ==> exists i :: 1 <= i < |s| && s[i].parent == parent && s[i].position == rest - 1;
        rest
  }

  // ---------------------------------------------------------------------------------------
  // Counting

  lemma {:induction false} CountAppend(s: seq<Slot>, x: Slot, parent: int)
    ensures Count(s + [x], parent) == Count(s, parent) + (if x.parent == parent then 1 else 0)
  {
    if s != [] {
      assert (s + [x])[1..] == s[1..] + [x];
      CountAppend(s[1..], x, parent);
    }
  }

  /** Appending a row of another parent leaves `parent`'s next position as it was. */
  lemma {:induction false} NextPositionAppendOther(s: seq<Slot>, x: Slot, parent: int)
    requires x.parent != parent
    ensures NextPosition(s + [x], parent) == NextPosition(s, parent)
  {
    if s != [] {
      assert (s + [x])[1..] == s[1..] + [x];
      NextPositionAppendOther(s[1..], x, parent);
      CountAppend(s[1..], x, parent);
    } else {
      assert [x][1..] == [];
    }
  }

  /** Rows keep their parents pointwise, so every parent keeps its count. */
  lemma {:induction false} CountSameParents(s: seq<Slot>, t: seq<Slot>, parent: int)
    requires |s| == |t|
    requires forall i :: 0 <= i < |s| ==> s[i].parent == t[i].parent
    ensures Count(s, parent) == Count(t, parent)
  {
    if s != [] {
      CountSameParents(s[1..], t[1..], parent);
    }
  }

  /** Only the row at index `k` changes parent: its old parent loses one row, its new one gains one. */
  lemma {:induction false} CountMovedRow(s: seq<Slot>, t: seq<Slot>, k: nat, parent: int)
    requires |s| == |t| && k < |s|
    requires forall i :: 0 <= i < |s| && i != k ==> s[i].parent == t[i].parent
    ensures Count(t, parent) + (if s[k].parent == parent then 1 else 0)
         == Count(s, parent) + (if t[k].parent == parent then 1 else 0)
  {
    if k == 0 {
      CountSameParents(s[1..], t[1..], parent);
    } else {
      CountMovedRow(s[1..], t[1..], k - 1, parent);
    }
  }

  // ---------------------------------------------------------------------------------------
  // Pigeonhole: n distinct positions in [0, n) cover all of [0, n)

  function PositionSet(s: seq<Slot>, parent: int): set<int>
  {
    if s == [] then {}
    else (if s[0].parent == parent then {s[0].position} else {}) + PositionSet(s[1..], parent)
  }

  lemma {:induction false} PositionSetMembers(s: seq<Slot>, parent: int, p: int)
    ensures p in PositionSet(s, parent) <==>
      exists i :: 0 <= i < |s| && s[i].parent == parent && s[i].position == p
  {
    if s != [] {
      PositionSetMembers(s[1..], parent, p);
      if p in PositionSet(s[1..], parent) {
        var i :| 0 <= i < |s[1..]| && s[1..][i].parent == parent && s[1..][i].position == p;
        assert s[i + 1].parent == parent && s[i + 1].position == p;
      }
      if exists i :: 0 <= i < |s| && s[i].parent == parent && s[i].position == p {
        var i :| 0 <= i < |s| && s[i].parent == parent && s[i].position == p;
        if i > 0 {
          assert s[1..][i - 1] == s[i];
        }
      }
    }
  }

  lemma {:induction false} PositionSetSize(s: seq<Slot>, parent: int)
    requires Distinct(s, parent)
    ensures |PositionSet(s, parent)| == Count(s, parent)
  {
    if s != [] {
      assert Distinct(s[1..], parent) by {
        forall i, j | 0 <= i < j < |s[1..]| && s[1..][i].parent == parent && s[1..][j].parent == parent
          ensures s[1..][i].position != s[1..][j].position
        {
          assert s[1..][i] == s[i + 1] && s[1..][j] == s[j + 1];
        }
      }
      PositionSetSize(s[1..], parent);
      if s[0].parent == parent {
        PositionSetMembers(s[1..], parent, s[0].position);
        assert s[0].position !in PositionSet(s[1..], parent);
      }
    }
  }

  /** The positions 0 .. n-1. */
  function Interval(n: nat): set<int>
  {
    if n == 0 then {} else Interval(n - 1) + {n - 1}
  }

  lemma {:induction false} IntervalFacts(n: nat)
    ensures |Interval(n)| == n
    ensures forall p :: p in Interval(n) <==> 0 <= p < n
  {
    if n > 0 {
      IntervalFacts(n - 1);
    }
  }

  lemma {:induction false} SubsetOfSameSize(a: set<int>, b: set<int>)
    requires a <= b && |a| == |b|
    ensures a == b
  {
    assert b == a + (b - a);
    assert |b - a| == 0;
  }

  /** In a dense parent every position 0 .. n-1 is held by some row. */
  lemma {:induction false} DenseHasEvery(s: seq<Slot>, parent: int, p: int)
    requires Dense(s, parent)
    requires 0 <= p < Count(s, parent)
    ensures exists i :: 0 <= i < |s| && s[i].parent == parent && s[i].position == p
  {
    var n := Count(s, parent);
    PositionSetSize(s, parent);
    IntervalFacts(n);
    assert PositionSet(s, parent) <= Interval(n) by {
      forall q | q in PositionSet(s, parent) ensures q in Interval(n) {
        PositionSetMembers(s, parent, q);
      }
    }
    SubsetOfSameSize(PositionSet(s, parent), Interval(n));
    assert p in Interval(n);
    PositionSetMembers(s, parent, p);
  }

  /** On a dense parent of n rows the allocator hands out exactly n. */
  lemma {:induction false} NextPositionOfDense(s: seq<Slot>, parent: int)
    requires Dense(s, parent)
    ensures NextPosition(s, parent) == Count(s, parent)
  {
    var n := Count(s, parent);
    if n > 0 {
      DenseHasEvery(s, parent, n - 1);
    }
  }

  /**
   * Appending a row at the allocated position keeps a dense parent dense (the new row takes
   * position n), and leaves every other parent's rows, and so its density, as they were.
   */
  lemma {:induction false} AppendKeepsDense(s: seq<Slot>, parent: int, q: int)
    requires Dense(s, q)
    ensures Dense(s + [Slot(parent, NextPosition(s, parent))], q)
    ensures Count(s + [Slot(parent, NextPosition(s, parent))], q)
         == Count(s, q) + (if q == parent then 1 else 0)
  {
    var x := Slot(parent, NextPosition(s, parent));
    CountAppend(s, x, q);
    if q == parent {
      NextPositionOfDense(s, parent);
    }
  }
}
