/**
 * The read handlers: the boards of a user, a board with its lists and a list with its tasks.
 * Children are returned in ascending `position` order; the order among equal positions is
 * not specified by the database, and the model keeps them in table order.
 */
module Queries {
  import opened Positions
  import opened Tables
  import opened Inputs

  // ---------------------------------------------------------------------------------------
  // Ordering by an integer key (the ORDER BY position of a SELECT)

  ghost predicate SortedBy<T>(s: seq<T>, key: T -> int)
  {
    forall i, j :: 0 <= i < j < |s| ==> key(s[i]) <= key(s[j])
  }

  ghost predicate KeysDistinct<T>(s: seq<T>, key: T -> int)
  {
    forall i, j :: 0 <= i < j < |s| ==> key(s[i]) != key(s[j])
  }

  /** Inserts `x` before the first element of `s` whose key is not smaller than its own. */
  function Insert<T(==)>(x: T, s: seq<T>, key: T -> int): (r: seq<T>)
    ensures |r| == |s| + 1
    ensures multiset(r) == multiset(s) + multiset{x}
  {
    if s == [] || key(x) <= key(s[0]) then [x] + s
    else
      assert s == [s[0]] + s[1..];
      [s[0]] + Insert(x, s[1..], key)
  }

  /** Every element of the result is `x` or an element of `s`. */
  lemma {:induction false} InsertedFrom<T>(x: T, s: seq<T>, key: T -> int, j: nat)
    requires j < |Insert(x, s, key)|
    ensures Insert(x, s, key)[j] == x || exists m :: 0 <= m < |s| && s[m] == Insert(x, s, key)[j]
  {
    var r := Insert(x, s, key);
    assert r[j] in multiset(r);
  }

  /** Inserting into a sorted sequence keeps it sorted. */
  lemma {:induction false} InsertSorted<T>(x: T, s: seq<T>, key: T -> int)
    requires SortedBy(s, key)
    ensures SortedBy(Insert(x, s, key), key)
  {
    if s != [] && key(x) > key(s[0]) {
      InsertSorted(x, s[1..], key);
      var rest := Insert(x, s[1..], key);
      var r := [s[0]] + rest;
      assert Insert(x, s, key) == r;
      forall i, j | 0 <= i < j < |r| ensures key(r[i]) <= key(r[j]) {
        assert r[j] == rest[j - 1];
        if i == 0 {
          InsertedFrom(x, s[1..], key, j - 1);
          if rest[j - 1] != x {
            var m :| 0 <= m < |s[1..]| && s[1..][m] == rest[j - 1];
            assert s[m + 1] == rest[j - 1];
          }
        } else {
          assert r[i] == rest[i - 1];
        }
      }
    }
  }

  /** Inserting a new key among distinct keys keeps them distinct. */
  lemma {:induction false} InsertKeepsKeysDistinct<T>(x: T, s: seq<T>, key: T -> int)
    requires KeysDistinct(s, key)
    requires forall i :: 0 <= i < |s| ==> key(s[i]) != key(x)
    ensures KeysDistinct(Insert(x, s, key), key)
  {
    if s != [] && key(x) > key(s[0]) {
      InsertKeepsKeysDistinct(x, s[1..], key);
      var rest := Insert(x, s[1..], key);
      var r := [s[0]] + rest;
      assert Insert(x, s, key) == r;
      forall i, j | 0 <= i < j < |r| ensures key(r[i]) != key(r[j]) {
        assert r[j] == rest[j - 1];
        if i == 0 {
          InsertedFrom(x, s[1..], key, j - 1);
          if rest[j - 1] != x {
            var m :| 0 <= m < |s[1..]| && s[1..][m] == rest[j - 1];
            assert s[m + 1] == rest[j - 1];
          }
        } else {
          assert r[i] == rest[i - 1];
        }
      }
    }
  }

  /** Inserting the head of distinct keys into a rearrangement of the tail keeps them distinct. */
  lemma {:induction false} InsertHeadKeepsKeysDistinct<T>(s: seq<T>, rest: seq<T>, key: T -> int)
    requires s != [] && multiset(rest) == multiset(s[1..])
    requires KeysDistinct(s[1..], key) ==> KeysDistinct(rest, key)
    ensures KeysDistinct(s, key) ==> KeysDistinct(Insert(s[0], rest, key), key)
  {
    if KeysDistinct(s, key) {
      assert KeysDistinct(s[1..], key) by {
        forall i, j | 0 <= i < j < |s[1..]| ensures key(s[1..][i]) != key(s[1..][j]) {
          assert s[1..][i] == s[i + 1] && s[1..][j] == s[j + 1];
        }
      }
      forall i | 0 <= i < |rest| ensures key(rest[i]) != key(s[0]) {
        assert rest[i] in multiset(s[1..]);
        var m :| 0 <= m < |s[1..]| && s[1..][m] == rest[i];
        assert s[m + 1] == rest[i];
      }
      InsertKeepsKeysDistinct(s[0], rest, key);
    }
  }

  /** An insertion sort by `key`: a sorted permutation of `s` (stable: SortByKeyStable). */
  function SortByKey<T(==)>(s: seq<T>, key: T -> int): (r: seq<T>)
    ensures |r| == |s|
    ensures multiset(r) == multiset(s)
    ensures SortedBy(r, key)
    ensures KeysDistinct(s, key) ==> KeysDistinct(r, key)
  {
    if s == [] then []
    else
      var rest := SortByKey(s[1..], key);
      assert s == [s[0]] + s[1..];
      InsertSorted(s[0], rest, key);
      InsertHeadKeepsKeysDistinct(s, rest, key);
      Insert(s[0], rest, key)
  }

  /** The elements whose key is `k`. */
  function KeyIs<T>(key: T -> int, k: int): T -> bool
  {
    (x: T) => key(x) == k
  }

  /**
   * `Insert` passes over elements with smaller keys only, so among the elements of `x`'s key
   * it puts `x` first and keeps the others in their order.
   */
  lemma {:induction false} InsertAmongEqualKeys<T(!new)>(x: T, s: seq<T>, key: T -> int, k: int)
    ensures Filter(Insert(x, s, key), KeyIs(key, k))
         == (if key(x) == k then [x] + Filter(s, KeyIs(key, k)) else Filter(s, KeyIs(key, k)))
  {
    var keep := KeyIs(key, k);
    if s == [] || key(x) <= key(s[0]) {
      assert ([x] + s)[1..] == s;
    } else {
      InsertAmongEqualKeys(x, s[1..], key, k);
      assert ([s[0]] + Insert(x, s[1..], key))[1..] == Insert(x, s[1..], key);
    }
  }

  /** The sort is stable: the elements of each key keep the order they had in `s`. */
  lemma {:induction false} SortByKeyStable<T(!new)>(s: seq<T>, key: T -> int)
    ensures forall k :: Filter(SortByKey(s, key), KeyIs(key, k)) == Filter(s, KeyIs(key, k))
  {
    if s != [] {
      SortByKeyStable(s[1..], key);
      forall k ensures Filter(SortByKey(s, key), KeyIs(key, k)) == Filter(s, KeyIs(key, k)) {
        InsertAmongEqualKeys(s[0], SortByKey(s[1..], key), key, k);
      }
    }
  }

  function TaskPosition(t: Task): int { t.position }

  function ListPosition(l: List): int { l.position }

  /** The row filter `list_id = listId`. */
  function OnList(listId: int): Task -> bool
  {
    (t: Task) => t.list_id == listId
  }

  /** The row filter `board_id = boardId`. */
  function OnBoard(boardId: int): List -> bool
  {
    (l: List) => l.board_id == boardId
  }

  function TasksOfList(ts: seq<Task>, listId: int): (r: seq<Task>)
    ensures forall t :: t in r <==> t in ts && t.list_id == listId
  {
    Filter(ts, OnList(listId))
  }

  function ListsOfBoard(ls: seq<List>, boardId: int): (r: seq<List>)
    ensures forall l :: l in r <==> l in ls && l.board_id == boardId
  {
    Filter(ls, OnBoard(boardId))
  }

  // ---------------------------------------------------------------------------------------
  // The handlers

  /** getUserBoards: the boards whose owner is `userId`, and no others. */
  function GetUserBoards(bs: seq<Board>, userId: int): (r: seq<Board>)
    ensures forall b :: b in r <==> b in bs && b.user_id == userId
    ensures r == [] <==> forall b :: b in bs ==> b.user_id != userId
  {
    var r := Filter(bs, (b: Board) => b.user_id == userId);
    assert r != [] ==> r[0] in r;
    r
  }

  /**
   * getBoardWithLists: null unless a board with that id is owned by `userId`; otherwise that
   * board's columns with every list of the board, in ascending position, lists of equal
   * position in table order.
   */
  function GetBoardWithLists(bs: seq<Board>, ls: seq<List>, boardId: int, userId: int): (r: Option<BoardWithLists>)
    ensures r.None? <==> forall b :: b in bs ==> !(b.id == boardId && b.user_id == userId)
    ensures r.Some? ==>
      && (exists b :: b in bs && b.id == boardId && b.user_id == userId
            && r.value == BoardWithLists(b.id, b.title, b.description, b.user_id, b.created_at, b.updated_at, r.value.lists))
      && SortedBy(r.value.lists, ListPosition)
      && multiset(r.value.lists) == multiset(ListsOfBoard(ls, boardId))
      && (forall l :: l in r.value.lists <==> l in ls && l.board_id == boardId)
      && (forall p :: Filter(r.value.lists, KeyIs(ListPosition, p)) == Filter(ListsOfBoard(ls, boardId), KeyIs(ListPosition, p)))
  {
    var owned := Filter(bs, (b: Board) => b.id == boardId && b.user_id == userId);
    if owned == [] then None
    else
      var b := owned[0];
      assert b in owned;
      var lists := SortByKey(ListsOfBoard(ls, boardId), ListPosition);
      assert forall l :: l in lists <==> l in multiset(ListsOfBoard(ls, boardId));
      SortByKeyStable(ListsOfBoard(ls, boardId), ListPosition);
      Some(BoardWithLists(b.id, b.title, b.description, b.user_id, b.created_at, b.updated_at, lists))
  }

  /**
   * getListWithTasks: null when the list does not exist, its board does not exist, or the
   * board is not owned by `userId`; otherwise the list's columns with every task of the list,
   * in ascending position, tasks of equal position in table order.
   */
  function GetListWithTasks(bs: seq<Board>, ls: seq<List>, ts: seq<Task>, listId: int, userId: int): (r: Option<ListWithTasks>)
    ensures listId !in ListIds(ls) ==> r.None?
    ensures (forall l, b :: l in ls && b in bs && l.id == listId && b.id == l.board_id ==> b.user_id != userId) ==> r.None?
    ensures r.Some? ==>
      && (exists l, b :: l in ls && b in bs && l.id == listId && b.id == l.board_id && b.user_id == userId
            && r.value == ListWithTasks(l.id, l.title, l.board_id, l.position, l.created_at, l.updated_at, r.value.tasks))
      && SortedBy(r.value.tasks, TaskPosition)
      && multiset(r.value.tasks) == multiset(TasksOfList(ts, listId))
      && (forall t :: t in r.value.tasks <==> t in ts && t.list_id == listId)
      && (forall p :: Filter(r.value.tasks, KeyIs(TaskPosition, p)) == Filter(TasksOfList(ts, listId), KeyIs(TaskPosition, p)))
  {
    match FindList(ls, listId)
    case None => None
    case Some(i) =>
      var l := ls[i];
      match FindBoard(bs, l.board_id)
      case None => None
      case Some(j) =>
        if bs[j].user_id != userId then None
        else
          assert l in ls && bs[j] in bs;
          var tasks := SortByKey(TasksOfList(ts, listId), TaskPosition);
          assert forall t :: t in tasks <==> t in multiset(TasksOfList(ts, listId));
          SortByKeyStable(TasksOfList(ts, listId), TaskPosition);
          Some(ListWithTasks(l.id, l.title, l.board_id, l.position, l.created_at, l.updated_at, tasks))
  }

  // ---------------------------------------------------------------------------------------
  // Properties

  /** With unique board ids, getBoardWithLists answers exactly when the board's owner is the caller. */
  lemma {:induction false} BoardReadGate(bs: seq<Board>, ls: seq<List>, boardId: int, userId: int)
    requires UniqueBoards(bs)
    ensures GetBoardWithLists(bs, ls, boardId, userId).Some? <==> BoardOwner(bs, boardId) == Some(userId)
  {
    if BoardOwner(bs, boardId) == Some(userId) {
      var i := FindBoard(bs, boardId).value;
      assert bs[i] in bs;
    }
  }

  /**
   * With unique ids, getListWithTasks answers exactly when the list exists and the owner of
   * its board is the caller.
   */
  lemma {:induction false} ListReadGate(bs: seq<Board>, ls: seq<List>, ts: seq<Task>, listId: int, userId: int)
    requires UniqueBoards(bs) && UniqueLists(ls)
    ensures GetListWithTasks(bs, ls, ts, listId, userId).Some? <==> ListOwner(bs, ls, listId) == Some(userId)
  {
    var r := GetListWithTasks(bs, ls, ts, listId, userId);
    if r.Some? {
      var l, b :| l in ls && b in bs && l.id == listId && b.id == l.board_id && b.user_id == userId;
      assert ListOwner(bs, ls, listId) == BoardOwner(bs, l.board_id);
    }
    if ListOwner(bs, ls, listId) == Some(userId) {
      var i := FindList(ls, listId).value;
      assert ls[i] in ls;
      var j := FindBoard(bs, ls[i].board_id).value;
      assert bs[j] in bs;
    }
  }

  /** Filtering rows by their parent keeps as many rows as the parent has. */
  lemma {:induction false} FilterByParentCount<T(!new)>(s: seq<T>, slots: seq<Slot>, parent: int, keep: T -> bool)
    requires |slots| == |s|
    requires forall i :: 0 <= i < |s| ==> (keep(s[i]) <==> slots[i].parent == parent)
    ensures |Filter(s, keep)| == Count(slots, parent)
  {
    if s != [] {
      FilterByParentCount(s[1..], slots[1..], parent, keep);
    }
  }

  /** Filtering rows by a parent whose positions are distinct keeps no two rows with the same position. */
  lemma {:induction false} FilterByParentDistinct<T(!new)>(s: seq<T>, slots: seq<Slot>, parent: int, keep: T -> bool, key: T -> int)
    requires |slots| == |s|
    requires forall i :: 0 <= i < |s| ==> (keep(s[i]) <==> slots[i].parent == parent)
    requires forall i :: 0 <= i < |s| ==> key(s[i]) == slots[i].position
    requires Distinct(slots, parent)
    ensures KeysDistinct(Filter(s, keep), key)
  {
    if s != [] {
      assert Distinct(slots[1..], parent) by {
        forall i, j | 0 <= i < j < |slots[1..]| && slots[1..][i].parent == parent && slots[1..][j].parent == parent
          ensures slots[1..][i].position != slots[1..][j].position
        {
          assert slots[1..][i] == slots[i + 1] && slots[1..][j] == slots[j + 1];
        }
      }
      FilterByParentDistinct(s[1..], slots[1..], parent, keep, key);
      var rest := Filter(s[1..], keep);
      if keep(s[0]) {
        var r := [s[0]] + rest;
        assert Filter(s, keep) == r;
        forall j | 0 <= j < |rest| ensures key(rest[j]) != key(s[0]) {
          assert rest[j] in rest;
          var m :| 0 <= m < |s[1..]| && s[1..][m] == rest[j];
          assert s[m + 1] == rest[j];
        }
        forall i, j | 0 <= i < j < |r| ensures key(r[i]) != key(r[j]) {
          assert r[j] == rest[j - 1];
          if i > 0 {
            assert r[i] == rest[i - 1];
          }
        }
      }
    }
  }

  lemma {:induction false} KeyAtLeastIndex<T>(r: seq<T>, key: T -> int, k: nat)
    requires forall i, j :: 0 <= i < j < |r| ==> key(r[i]) < key(r[j])
    requires forall i :: 0 <= i < |r| ==> 0 <= key(r[i])
    requires k < |r|
    ensures key(r[k]) >= k
  {
    if k > 0 {
      KeyAtLeastIndex(r, key, k - 1);
    }
  }

  lemma {:induction false} KeyAtMostIndex<T>(r: seq<T>, key: T -> int, k: nat)
    requires forall i, j :: 0 <= i < j < |r| ==> key(r[i]) < key(r[j])
    requires forall i :: 0 <= i < |r| ==> key(r[i]) < |r|
    requires k < |r|
    decreases |r| - k
    ensures key(r[k]) <= k
  {
    if k + 1 < |r| {
      KeyAtMostIndex(r, key, k + 1);
    }
  }

  /** A sorted run of n distinct keys drawn from 0 .. n-1 is exactly 0, 1, ..., n-1. */
  lemma {:induction false} SortedDistinctInRange<T>(r: seq<T>, key: T -> int)
    requires SortedBy(r, key) && KeysDistinct(r, key)
    requires forall i :: 0 <= i < |r| ==> 0 <= key(r[i]) < |r|
    ensures forall k :: 0 <= k < |r| ==> key(r[k]) == k
  {
    forall k | 0 <= k < |r| ensures key(r[k]) == k {
      KeyAtLeastIndex(r, key, k);
      KeyAtMostIndex(r, key, k);
    }
  }

  /**
   * Filtering a table on a dense parent and sorting by position yields exactly the
   * positions 0, 1, ..., n-1, in that order.
   */
  lemma {:induction false} DenseChildrenInOrder<T(!new)>(s: seq<T>, slots: seq<Slot>, parent: int, keep: T -> bool, key: T -> int)
    requires |slots| == |s|
    requires forall i :: 0 <= i < |s| ==> (keep(s[i]) <==> slots[i].parent == parent)
    requires forall i :: 0 <= i < |s| ==> key(s[i]) == slots[i].position
    requires Dense(slots, parent)
    ensures var r := SortByKey(Filter(s, keep), key);
      && |r| == Count(slots, parent)
      && forall k :: 0 <= k < |r| ==> key(r[k]) == k
  {
    var f := Filter(s, keep);
    var r := SortByKey(f, key);
    FilterByParentCount(s, slots, parent, keep);
    FilterByParentDistinct(s, slots, parent, keep, key);
    forall k | 0 <= k < |r| ensures 0 <= key(r[k]) < |r| {
      assert r[k] in multiset(f);
      assert r[k] in s && keep(r[k]);
      var i :| 0 <= i < |s| && s[i] == r[k];
    }
    SortedDistinctInRange(r, key);
  }

  /** Reading a dense list returns its tasks at positions 0, 1, ..., n-1, in that order. */
  lemma {:induction false} DenseListReadsInOrder(bs: seq<Board>, ls: seq<List>, ts: seq<Task>, listId: int, userId: int)
    requires Dense(TaskSlots(ts), listId)
    requires GetListWithTasks(bs, ls, ts, listId, userId).Some?
    ensures var tasks := GetListWithTasks(bs, ls, ts, listId, userId).value.tasks;
      && |tasks| == Count(TaskSlots(ts), listId)
      && forall k :: 0 <= k < |tasks| ==> tasks[k].position == k
  {
    DenseChildrenInOrder(ts, TaskSlots(ts), listId, OnList(listId), TaskPosition);
    assert GetListWithTasks(bs, ls, ts, listId, userId).value.tasks == SortByKey(Filter(ts, OnList(listId)), TaskPosition);
  }

  /** Reading a board whose lists are dense returns them at positions 0, 1, ..., n-1, in that order. */
  lemma {:induction false} DenseBoardReadsInOrder(bs: seq<Board>, ls: seq<List>, boardId: int, userId: int)
    requires Dense(ListSlots(ls), boardId)
    requires GetBoardWithLists(bs, ls, boardId, userId).Some?
    ensures var lists := GetBoardWithLists(bs, ls, boardId, userId).value.lists;
      && |lists| == Count(ListSlots(ls), boardId)
      && forall k :: 0 <= k < |lists| ==> lists[k].position == k
  {
    DenseChildrenInOrder(ls, ListSlots(ls), boardId, OnBoard(boardId), ListPosition);
    assert GetBoardWithLists(bs, ls, boardId, userId).value.lists == SortByKey(Filter(ls, OnBoard(boardId)), ListPosition);
  }
}
