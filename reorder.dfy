/**
 * The reordering engine of updateTask: moving a task to another position of its own list,
 * or to another list (appended, or inserted at a given position). Every sibling position
 * change is a bulk range shift of +1 or -1; the moved row is written last.
 *
 * `Relocated` is the closed form of the whole move, row by row; the handler performs the
 * individual statements and is proved to reach it. The lemmas here say what the move does to
 * the ordering of the lists involved.
 */
module Reorder {
  import opened Positions
  import opened Tables
  import opened Inputs

  /**
   * One bulk update of the tasks table: every task of `listId` whose position is at least
   * `lo` (and at most `hi`, when given) has `delta` added to its position.
   */
  function ShiftTasks(ts: seq<Task>, listId: int, lo: int, hi: Option<int>, delta: int): (r: seq<Task>)
  {
    seq(|ts|, i requires 0 <= i < |ts| =>
      if ts[i].list_id == listId && lo <= ts[i].position && (hi.None? || ts[i].position <= hi.value)
      then ts[i].(position := ts[i].position + delta)
      else ts[i])
  }

  /**
   * How far a sibling at (`list`, `pos`) moves when the task at (`fromList`, `fromPos`) goes
   * to (`toList`, `toPos`).
   * Same list, moving down: the siblings in (fromPos, toPos] move up one place (-1).
   * Same list, moving up: the siblings in [toPos, fromPos) move down one place (+1).
   * Other list: the target list's siblings at toPos or beyond make room (+1), and the source
   * list's siblings beyond fromPos close the gap (-1).
   */
  function SiblingShift(list: int, pos: int, fromList: int, fromPos: int, toList: int, toPos: int): (d: int)
    ensures -1 <= d <= 1
    ensures d != 0 ==> list == fromList || list == toList
  {
    if fromList == toList then
      if list == fromList && fromPos < pos <= toPos then -1
      else if list == fromList && toPos <= pos < fromPos then 1
      else 0
    else if list == toList && toPos <= pos then 1
    else if list == fromList && fromPos < pos then -1
    else 0
  }

  /** The tasks table after the task at index `ix` moves to position `p` of list `dst`. */
  function Relocated(ts: seq<Task>, ix: nat, dst: int, p: int): (r: seq<Task>)
    requires ix < |ts|
  {
    var src, from := ts[ix].list_id, ts[ix].position;
    seq(|ts|, i requires 0 <= i < |ts| =>
      if i == ix then ts[i].(list_id := dst, position := p)
      else ts[i].(position := ts[i].position + SiblingShift(ts[i].list_id, ts[i].position, src, from, dst, p)))
  }

  /** The task's list after the update: the requested one, or its current one. */
  function Destination(t: Task, input: UpdateTaskInput): int
  {
    input.list_id.GetOr(t.list_id)
  }

  /** The requested change moves the task to another list. */
  predicate ChangesList(t: Task, input: UpdateTaskInput)
  {
    input.list_id.Some? && input.list_id.value != t.list_id
  }

  /**
   * The task's position after the update. On a change of list: the requested position, or
   * the target list's next append position. Otherwise: the requested position, or the
   * current one.
   */
  function TargetPosition(ts: seq<Task>, ix: nat, input: UpdateTaskInput): int
    requires ix < |ts|
  {
    if ChangesList(ts[ix], input) then
      if input.position.Some? then input.position.value
      else NextPosition(TaskSlots(ts), input.list_id.value)
    else input.position.GetOr(ts[ix].position)
  }

  /** The tasks table after updateTask on the task at index `ix`, at clock tick `now`. */
  function UpdatedTasks(ts: seq<Task>, ix: nat, input: UpdateTaskInput, now: nat): (r: seq<Task>)
    requires ix < |ts|
  {
    var moved := Relocated(ts, ix, Destination(ts[ix], input), TargetPosition(ts, ix, input));
    moved[ix := moved[ix].(
      title := StoredOr(input.title, ts[ix].title),
      description := input.description.GetOr(ts[ix].description),
      updated_at := now)]
  }

  /**
   * The tasks table after the sibling shifts of updateTask and before the task's own row is
   * written: every other task is where the move puts it, and the task is as it was.
   */
  function ShiftedTasks(ts: seq<Task>, ix: nat, input: UpdateTaskInput): (r: seq<Task>)
    requires ix < |ts|
  {
    Relocated(ts, ix, Destination(ts[ix], input), TargetPosition(ts, ix, input))[ix := ts[ix]]
  }

  /**
   * The requested position is inside the list it lands in: 0 .. n-1 within the task's own
   * list, 0 .. n in another list (n being that list's size). Nothing enforces this.
   */
  ghost predicate MoveInRange(ts: seq<Task>, ix: nat, input: UpdateTaskInput)
    requires ix < |ts|
  {
    input.position.Some? ==>
      if ChangesList(ts[ix], input) then
        0 <= input.position.value <= Count(TaskSlots(ts), input.list_id.value)
      else
        0 <= input.position.value < Count(TaskSlots(ts), ts[ix].list_id)
  }

  // ---------------------------------------------------------------------------------------
  // The bulk updates of each branch reach the move, except for the moved row itself

  /** Change of list with a position: open room in the target list, then close the source gap. */
  lemma {:induction false} CrossListInsertShifts(ts: seq<Task>, ix: nat, dst: int, p: int)
    requires ix < |ts| && dst != ts[ix].list_id
    ensures ShiftTasks(ShiftTasks(ts, dst, p, None, 1), ts[ix].list_id, ts[ix].position + 1, None, -1)
         == Relocated(ts, ix, dst, p)[ix := ts[ix]]
  {
  }

  /** Change of list without a position: nothing in the target list reaches its next position. */
  lemma {:induction false} CrossListAppendShifts(ts: seq<Task>, ix: nat, dst: int)
    requires ix < |ts| && dst != ts[ix].list_id
    ensures ShiftTasks(ts, ts[ix].list_id, ts[ix].position + 1, None, -1)
         == Relocated(ts, ix, dst, NextPosition(TaskSlots(ts), dst))[ix := ts[ix]]
  {
    var p := NextPosition(TaskSlots(ts), dst);
    var a := ShiftTasks(ts, ts[ix].list_id, ts[ix].position + 1, None, -1);
    var b := Relocated(ts, ix, dst, p)[ix := ts[ix]];
    forall i | 0 <= i < |ts| ensures a[i] == b[i] {
      if i != ix && ts[i].list_id == dst {
        assert TaskSlots(ts)[i].parent == dst;
      }
    }
  }

  /** Moving down within the list: the siblings in (from, p] move up one place. */
  lemma {:induction false} MoveDownShifts(ts: seq<Task>, ix: nat, p: int)
    requires ix < |ts| && p > ts[ix].position
    ensures ShiftTasks(ts, ts[ix].list_id, ts[ix].position + 1, Some(p), -1)
         == Relocated(ts, ix, ts[ix].list_id, p)[ix := ts[ix]]
  {
  }

  /** Moving up within the list: the siblings in [p, from) move down one place. */
  lemma {:induction false} MoveUpShifts(ts: seq<Task>, ix: nat, p: int)
    requires ix < |ts| && p < ts[ix].position
    ensures ShiftTasks(ts, ts[ix].list_id, p, Some(ts[ix].position - 1), 1)
         == Relocated(ts, ix, ts[ix].list_id, p)[ix := ts[ix]]
  {
  }

  /** Staying in place moves nothing. */
  lemma {:induction false} StayShifts(ts: seq<Task>, ix: nat)
    requires ix < |ts|
    ensures ts == Relocated(ts, ix, ts[ix].list_id, ts[ix].position)[ix := ts[ix]]
  {
  }

  // ---------------------------------------------------------------------------------------
  // What a move does to the table

  /**
   * A move keeps every row (same ids, same table order) and changes no column but `list_id`
   * and `position`; only the moved task changes list, and only rows of the source and target
   * lists change position.
   */
  lemma {:induction false} RelocatedFrame(ts: seq<Task>, ix: nat, dst: int, p: int)
    requires ix < |ts|
    ensures var r := Relocated(ts, ix, dst, p);
      && |r| == |ts|
      && r[ix].list_id == dst && r[ix].position == p
      && (forall i :: 0 <= i < |ts| ==>
            r[i].id == ts[i].id && r[i].title == ts[i].title && r[i].description == ts[i].description
            && r[i].created_at == ts[i].created_at && r[i].updated_at == ts[i].updated_at)
      && (forall i :: 0 <= i < |ts| && i != ix ==> r[i].list_id == ts[i].list_id)
      && (forall i :: 0 <= i < |ts| && i != ix && ts[i].list_id != ts[ix].list_id && ts[i].list_id != dst ==>
            r[i] == ts[i])
  {
  }

  /** Counts: the source list loses the task and the target list gains it; others keep theirs. */
  lemma {:induction false} MoveCounts(ts: seq<Task>, ix: nat, dst: int, p: int, list: int)
    requires ix < |ts|
    ensures Count(TaskSlots(Relocated(ts, ix, dst, p)), list) + (if list == ts[ix].list_id then 1 else 0)
         == Count(TaskSlots(ts), list) + (if list == dst then 1 else 0)
  {
    CountMovedRow(TaskSlots(ts), TaskSlots(Relocated(ts, ix, dst, p)), ix, list);
  }

  /** The move seen on slots alone: the row at `k` goes to (`dst`, `p`), its siblings shift. */
  function MovedSlots(s: seq<Slot>, k: nat, dst: int, p: int): (r: seq<Slot>)
    requires k < |s|
  {
    seq(|s|, i requires 0 <= i < |s| =>
      if i == k then Slot(dst, p)
      else Slot(s[i].parent, s[i].position + SiblingShift(s[i].parent, s[i].position, s[k].parent, s[k].position, dst, p)))
  }

  lemma {:induction false} RelocatedSlots(ts: seq<Task>, ix: nat, dst: int, p: int)
    requires ix < |ts|
    ensures TaskSlots(Relocated(ts, ix, dst, p)) == MovedSlots(TaskSlots(ts), ix, dst, p)
  {
    var a, b := TaskSlots(Relocated(ts, ix, dst, p)), MovedSlots(TaskSlots(ts), ix, dst, p);
    assert forall i :: 0 <= i < |a| ==> a[i] == b[i];
  }

  /** A move within one list to a position inside it keeps that list dense. */
  lemma {:induction false} SameListMoveKeepsDense(ts: seq<Task>, ix: nat, p: int)
    requires ix < |ts|
    requires Dense(TaskSlots(ts), ts[ix].list_id)
    requires 0 <= p < Count(TaskSlots(ts), ts[ix].list_id)
    ensures Dense(TaskSlots(Relocated(ts, ix, ts[ix].list_id, p)), ts[ix].list_id)
  {
    RelocatedSlots(ts, ix, ts[ix].list_id, p);
    WithinParentMove(TaskSlots(ts), ix, p);
  }

  /** On slots: a move inside a dense parent, to a position the parent has, keeps it dense. */
  lemma {:induction false} WithinParentMove(s: seq<Slot>, k: nat, p: int)
    requires k < |s| && Dense(s, s[k].parent)
    requires 0 <= p < Count(s, s[k].parent)
    ensures Dense(MovedSlots(s, k, s[k].parent, p), s[k].parent)
  {
    var s' := MovedSlots(s, k, s[k].parent, p);
    CountSameParents(s, s', s[k].parent);
    WithinParentMoveInRange(s, k, p);
    WithinParentMoveDistinct(s, k, p);
  }

  lemma {:induction false} WithinParentMoveInRange(s: seq<Slot>, k: nat, p: int)
    requires k < |s| && Dense(s, s[k].parent)
    requires 0 <= p < Count(s, s[k].parent)
    ensures var s' := MovedSlots(s, k, s[k].parent, p);
      forall i :: 0 <= i < |s'| && s'[i].parent == s[k].parent ==> 0 <= s'[i].position < Count(s, s[k].parent)
  {
    var parent := s[k].parent;
    var s' := MovedSlots(s, k, parent, p);
    forall i | 0 <= i < |s'| && s'[i].parent == parent
      ensures 0 <= s'[i].position < Count(s, parent)
    {
      if i != k {
        SiblingApart(s, i, k, parent);
      }
    }
  }

  lemma {:induction false} WithinParentMoveDistinct(s: seq<Slot>, k: nat, p: int)
    requires k < |s| && Dense(s, s[k].parent)
    requires 0 <= p < Count(s, s[k].parent)
    ensures Distinct(MovedSlots(s, k, s[k].parent, p), s[k].parent)
  {
    var parent := s[k].parent;
    var s' := MovedSlots(s, k, parent, p);
    forall i, j | 0 <= i < j < |s'| && s'[i].parent == parent && s'[j].parent == parent
      ensures s'[i].position != s'[j].position
    {
      SiblingApart(s, i, j, parent);
      if i != k {
        SiblingApart(s, i, k, parent);
      }
      if j != k {
        SiblingApart(s, j, k, parent);
      }
    }
  }

  /** Two rows of a dense parent hold different positions. */
  lemma SiblingApart(s: seq<Slot>, i: nat, j: nat, parent: int)
    requires i < |s| && j < |s| && i != j
    requires Dense(s, parent) && s[i].parent == parent && s[j].parent == parent
    ensures s[i].position != s[j].position
  {
    if i < j {
      assert s[i].position != s[j].position;
    } else {
      assert s[j].position != s[i].position;
    }
  }

  /** Leaving for another list, the source list closes the gap and stays dense. */
  lemma {:induction false} SourceClosesGap(s: seq<Slot>, k: nat, dst: int, p: int)
    requires k < |s| && dst != s[k].parent
    requires Dense(s, s[k].parent)
    ensures Dense(MovedSlots(s, k, dst, p), s[k].parent)
  {
    var src, from := s[k].parent, s[k].position;
    var s' := MovedSlots(s, k, dst, p);
    CountMovedRow(s, s', k, src);
    forall i | 0 <= i < |s'| && s'[i].parent == src
      ensures 0 <= s'[i].position < Count(s', src)
    {
      assert s[i].position != from;
    }
    assert Distinct(s', src) by {
      forall i, j | 0 <= i < j < |s'| && s'[i].parent == src && s'[j].parent == src
        ensures s'[i].position != s'[j].position
      {
        assert s[i].position != s[j].position;
      }
    }
  }

  /** Receiving a task at a position from 0 to its size, the target list opens one slot and stays dense. */
  lemma {:induction false} TargetOpensSlot(s: seq<Slot>, k: nat, dst: int, p: int)
    requires k < |s| && dst != s[k].parent
    requires Dense(s, dst) && 0 <= p <= Count(s, dst)
    ensures Dense(MovedSlots(s, k, dst, p), dst)
  {
    var s' := MovedSlots(s, k, dst, p);
    CountMovedRow(s, s', k, dst);
    assert Distinct(s', dst) by {
      forall i, j | 0 <= i < j < |s'| && s'[i].parent == dst && s'[j].parent == dst
        ensures s'[i].position != s'[j].position
      {
        if i != k && j != k {
          assert s[i].position != s[j].position;
        }
      }
    }
  }

  /** A list that is neither the source nor the target keeps its rows as they were. */
  lemma {:induction false} OtherListUnmoved(s: seq<Slot>, k: nat, dst: int, p: int, list: int)
    requires k < |s| && list != s[k].parent && list != dst
    requires Dense(s, list)
    ensures Dense(MovedSlots(s, k, dst, p), list)
  {
    var s' := MovedSlots(s, k, dst, p);
    CountMovedRow(s, s', k, list);
    assert forall i :: 0 <= i < |s| && s'[i].parent == list ==> s'[i] == s[i];
  }

  /**
   * A move to another list, at a position from 0 to the target list's size, keeps both
   * lists dense: the source closes its gap and the target opens exactly one slot.
   */
  lemma {:induction false} CrossListMoveKeepsDense(ts: seq<Task>, ix: nat, dst: int, p: int)
    requires ix < |ts| && dst != ts[ix].list_id
    requires Dense(TaskSlots(ts), ts[ix].list_id) && Dense(TaskSlots(ts), dst)
    requires 0 <= p <= Count(TaskSlots(ts), dst)
    ensures Dense(TaskSlots(Relocated(ts, ix, dst, p)), ts[ix].list_id)
    ensures Dense(TaskSlots(Relocated(ts, ix, dst, p)), dst)
  {
    RelocatedSlots(ts, ix, dst, p);
    SourceClosesGap(TaskSlots(ts), ix, dst, p);
    TargetOpensSlot(TaskSlots(ts), ix, dst, p);
  }

  /**
   * The density theorem of updateTask: when the task's list and its destination list are
   * dense and the requested position is in range, every list that was dense stays dense.
   * (Appending needs no range: on a dense list the next append position is its size.)
   */
  lemma {:induction false} UpdateKeepsDense(ts: seq<Task>, ix: nat, input: UpdateTaskInput, now: nat, list: int)
    requires ix < |ts| && MoveInRange(ts, ix, input)
    requires Dense(TaskSlots(ts), ts[ix].list_id) && Dense(TaskSlots(ts), Destination(ts[ix], input))
    requires Dense(TaskSlots(ts), list)
    ensures Dense(TaskSlots(UpdatedTasks(ts, ix, input, now)), list)
  {
    var src, dst, p := ts[ix].list_id, Destination(ts[ix], input), TargetPosition(ts, ix, input);
    var moved := Relocated(ts, ix, dst, p);
    assert TaskSlots(UpdatedTasks(ts, ix, input, now)) == TaskSlots(moved);
    if ChangesList(ts[ix], input) {
      if input.position.None? {
        NextPositionOfDense(TaskSlots(ts), dst);
      }
      CrossListMoveKeepsDense(ts, ix, dst, p);
    } else {
      SameListMoveKeepsDense(ts, ix, p);
    }
    if list != src && list != dst {
      OtherListUnmoved(TaskSlots(ts), ix, dst, p, list);
      RelocatedSlots(ts, ix, dst, p);
    }
  }

  /**
   * Each move conserves tasks: the table keeps its size, and in a change of list the source
   * has one task fewer and the target one more.
   */
  lemma {:induction false} UpdateConservesTasks(ts: seq<Task>, ix: nat, input: UpdateTaskInput, now: nat, list: int)
    requires ix < |ts|
    ensures |UpdatedTasks(ts, ix, input, now)| == |ts|
    ensures TaskIds(UpdatedTasks(ts, ix, input, now)) == TaskIds(ts)
    ensures Count(TaskSlots(UpdatedTasks(ts, ix, input, now)), list)
         == Count(TaskSlots(ts), list)
            - (if list == ts[ix].list_id then 1 else 0) + (if list == Destination(ts[ix], input) then 1 else 0)
  {
    var dst, p := Destination(ts[ix], input), TargetPosition(ts, ix, input);
    var r := UpdatedTasks(ts, ix, input, now);
    assert TaskSlots(r) == TaskSlots(Relocated(ts, ix, dst, p));
    MoveCounts(ts, ix, dst, p, list);
    assert forall i :: 0 <= i < |ts| ==> r[i].id == ts[i].id;
    assert TaskIds(r) == TaskIds(ts) by {
      forall id | id in TaskIds(ts) ensures id in TaskIds(r) {
        var i :| 0 <= i < |ts| && ts[i].id == id;
        assert r[i] in r;
      }
      forall id | id in TaskIds(r) ensures id in TaskIds(ts) {
        var i :| 0 <= i < |r| && r[i].id == id;
        assert ts[i] in ts;
      }
    }
  }

  /**
   * An update that names neither another list nor another position moves nothing: every
   * other task is untouched and the task keeps its list and position; only the given title
   * and description are written, with the update tick.
   */
  lemma {:induction false} UpdateWithoutMove(ts: seq<Task>, ix: nat, input: UpdateTaskInput, now: nat)
    requires ix < |ts|
    requires input.list_id.None? || input.list_id.value == ts[ix].list_id
    requires input.position.None? || input.position.value == ts[ix].position
    ensures var r := UpdatedTasks(ts, ix, input, now);
      && |r| == |ts|
      && (forall i :: 0 <= i < |ts| && i != ix ==> r[i] == ts[i])
      && r[ix] == ts[ix].(title := StoredOr(input.title, ts[ix].title),
                          description := input.description.GetOr(ts[ix].description),
                          updated_at := now)
  {
  }

  // ---------------------------------------------------------------------------------------
  // Worked examples

  /** List A holds T1@0, T2@1, T3@2; moving T1 to position 2 gives T2@0, T3@1, T1@2. */
  lemma {:induction false} MoveDownWithinList(a: int, t1: Task, t2: Task, t3: Task)
    requires t1.list_id == a && t2.list_id == a && t3.list_id == a
    requires t1.position == 0 && t2.position == 1 && t3.position == 2
    ensures Relocated([t1, t2, t3], 0, a, 2)
         == [t1.(position := 2), t2.(position := 0), t3.(position := 1)]
  {
  }

  /** A holds T1@0, T2@1 and B holds T3@0; moving T1 to position 0 of B gives B = T1@0, T3@1 and A = T2@0. */
  lemma {:induction false} MoveToFrontOfOtherList(a: int, b: int, t1: Task, t2: Task, t3: Task)
    requires a != b
    requires t1.list_id == a && t2.list_id == a && t3.list_id == b
    requires t1.position == 0 && t2.position == 1 && t3.position == 0
    ensures Relocated([t1, t2, t3], 0, b, 0)
         == [t1.(list_id := b, position := 0), t2.(position := 0), t3.(position := 1)]
  {
  }

  /**
   * Targets are not clamped: in a list of three, moving the first task to position 5 leaves
   * the list with positions 0, 1, 5, which is not dense.
   */
  lemma {:induction false} OutOfRangeMoveLeavesGap(a: int, t1: Task, t2: Task, t3: Task)
    requires t1.list_id == a && t2.list_id == a && t3.list_id == a
    requires t1.position == 0 && t2.position == 1 && t3.position == 2
    ensures Dense(TaskSlots([t1, t2, t3]), a)
    ensures !Dense(TaskSlots(Relocated([t1, t2, t3], 0, a, 5)), a)
  {
    var s := TaskSlots([t1, t2, t3]);
    assert s == [Slot(a, 0), Slot(a, 1), Slot(a, 2)];
    assert s[1..][1..] == [Slot(a, 2)];
    assert Count(s[1..], a) == 2;
    var s' := TaskSlots(Relocated([t1, t2, t3], 0, a, 5));
    assert s'[0] == Slot(a, 5);
    CountSameParents(s, s', a);
  }

  /**
   * The shifts alone keep every row and every column but `position`: the task itself is as it
   * was, and only rows of its list and of its destination change position.
   */
  lemma {:induction false} ShiftedFrame(ts: seq<Task>, ix: nat, input: UpdateTaskInput)
    requires ix < |ts|
    ensures var r := ShiftedTasks(ts, ix, input);
      && |r| == |ts| && r[ix] == ts[ix]
      && (forall i :: 0 <= i < |ts| ==> r[i] == ts[i].(position := r[i].position))
      && (forall i :: 0 <= i < |ts| && ts[i].list_id != ts[ix].list_id && ts[i].list_id != Destination(ts[ix], input) ==>
            r[i] == ts[i])
  {
    RelocatedFrame(ts, ix, Destination(ts[ix], input), TargetPosition(ts, ix, input));
  }

  /** Two lists: A holds positions 0, 1, 2 and B holds positions 0, 1; both are dense. */
  lemma {:induction false} TwoDenseLists(a: int, b: int)
    requires a != b
    ensures var s := [Slot(a, 0), Slot(a, 1), Slot(a, 2), Slot(b, 0), Slot(b, 1)];
      Count(s, a) == 3 && Count(s, b) == 2 && Dense(s, a) && Dense(s, b)
  {
    var s := [Slot(a, 0), Slot(a, 1), Slot(a, 2), Slot(b, 0), Slot(b, 1)];
    var s1, s2, s3, s4 := s[1..], s[2..], s[3..], s[4..];
    assert s4[1..] == [] && s3[1..] == s4 && s2[1..] == s3 && s1[1..] == s2;
    assert Count(s4, a) == 0 && Count(s4, b) == 1;
    assert Count(s3, a) == 0 && Count(s3, b) == 2;
    assert Count(s2, a) == 1 && Count(s2, b) == 2;
    assert Count(s1, a) == 2 && Count(s1, b) == 2;
  }

  /** Two lists: A holds positions 0, 0, 1 and B holds positions 1, 2; neither is dense. */
  lemma {:induction false} TwoBrokenLists(a: int, b: int)
    requires a != b
    ensures var s := [Slot(a, 0), Slot(a, 0), Slot(a, 1), Slot(b, 1), Slot(b, 2)];
      !Dense(s, a) && !Dense(s, b)
  {
    var s := [Slot(a, 0), Slot(a, 0), Slot(a, 1), Slot(b, 1), Slot(b, 2)];
    var s1, s2, s3, s4 := s[1..], s[2..], s[3..], s[4..];
    assert s4[1..] == [] && s3[1..] == s4 && s2[1..] == s3 && s1[1..] == s2;
    assert Count(s4, b) == 1 && Count(s3, b) == 2 && Count(s2, b) == 2 && Count(s1, b) == 2;
    assert s[0].position == s[1].position;
    assert s[4].position == Count(s, b);
  }

  /**
   * The shifts of a cross-list move: A holds T1@0, T2@1, T3@2 and B holds U1@0, U2@1; moving
   * T1 to position 0 of B shifts T2 and T3 down one place and U1 and U2 up one place.
   */
  lemma {:induction false} CrossListShifts(a: int, b: int, t1: Task, t2: Task, t3: Task, u1: Task, u2: Task, input: UpdateTaskInput)
    requires a != b
    requires t1.list_id == a && t2.list_id == a && t3.list_id == a && u1.list_id == b && u2.list_id == b
    requires t1.position == 0 && t2.position == 1 && t3.position == 2 && u1.position == 0 && u2.position == 1
    requires input.list_id == Some(b) && input.position == Some(0)
    ensures ShiftedTasks([t1, t2, t3, u1, u2], 0, input)
         == [t1, t2.(position := 0), t3.(position := 1), u1.(position := 1), u2.(position := 2)]
  {
    var ts := [t1, t2, t3, u1, u2];
    assert Destination(t1, input) == b && TargetPosition(ts, 0, input) == 0;
    var m := Relocated(ts, 0, b, 0);
    assert m[1] == t2.(position := 0) && m[2] == t3.(position := 1);
    assert m[3] == u1.(position := 1) && m[4] == u2.(position := 2);
  }

  /**
   * A move interrupted after its shifts breaks both lists: in the tables of CrossListShifts,
   * once the shifts are written and the row write is not, T1 and T2 both sit at position 0
   * of A, and B has no task at position 0.
   */
  lemma {:induction false} InterruptedMoveBreaksOrder(a: int, b: int, t1: Task, t2: Task, t3: Task, u1: Task, u2: Task, input: UpdateTaskInput)
    requires a != b
    requires t1.list_id == a && t2.list_id == a && t3.list_id == a && u1.list_id == b && u2.list_id == b
    requires t1.position == 0 && t2.position == 1 && t3.position == 2 && u1.position == 0 && u2.position == 1
    requires input.list_id == Some(b) && input.position == Some(0)
    ensures var ts := [t1, t2, t3, u1, u2];
      && Dense(TaskSlots(ts), a) && Dense(TaskSlots(ts), b)
      && !Dense(TaskSlots(ShiftedTasks(ts, 0, input)), a)
      && !Dense(TaskSlots(ShiftedTasks(ts, 0, input)), b)
  {
    var ts := [t1, t2, t3, u1, u2];
    var s := TaskSlots(ts);
    assert s == [Slot(a, 0), Slot(a, 1), Slot(a, 2), Slot(b, 0), Slot(b, 1)];
    TwoDenseLists(a, b);
    CrossListShifts(a, b, t1, t2, t3, u1, u2, input);
    var r := [t1, t2.(position := 0), t3.(position := 1), u1.(position := 1), u2.(position := 2)];
    assert TaskSlots(r) == [Slot(a, 0), Slot(a, 0), Slot(a, 1), Slot(b, 1), Slot(b, 2)];
    TwoBrokenLists(a, b);
  }

  // ---------------------------------------------------------------------------------------
  // The write phase of updateTask, statement by statement

  /**
   * The sibling shifts of updateTask once its checks have passed: on a change of list, make
   * room in the target list (when a position is given) and close the gap in the source list;
   * within the list, shift the siblings between the old and the new position. Every task but
   * the moved one is then where `Relocated` puts it; the moved one is not yet written.
   */
  method ShiftSiblings(ts: seq<Task>, ix: nat, input: UpdateTaskInput) returns (r: seq<Task>, newListId: int, newPosition: int)
    requires ix < |ts|
    ensures newListId == Destination(ts[ix], input) && newPosition == TargetPosition(ts, ix, input)
    ensures r == ShiftedTasks(ts, ix, input)
  {
    var current := ts[ix];
    r := ts;
    newListId := current.list_id;
    newPosition := current.position;
    if input.list_id.Some? && input.list_id.value != current.list_id {
      newListId := input.list_id.value;
      if input.position.Some? {
        // make room in the target list
        newPosition := input.position.value;
        r := ShiftTasks(r, newListId, newPosition, None, 1);
        CrossListInsertShifts(ts, ix, newListId, newPosition);
      } else {
        newPosition := NextPosition(TaskSlots(r), newListId);
        CrossListAppendShifts(ts, ix, newListId);
      }
      // close the gap in the source list
      r := ShiftTasks(r, current.list_id, current.position + 1, None, -1);
    } else if input.position.Some? && input.position.value != current.position {
      newPosition := input.position.value;
      if newPosition > current.position {
        r := ShiftTasks(r, current.list_id, current.position + 1, Some(newPosition), -1);
        MoveDownShifts(ts, ix, newPosition);
      } else {
        r := ShiftTasks(r, current.list_id, newPosition, Some(current.position - 1), 1);
        MoveUpShifts(ts, ix, newPosition);
      }
    } else {
      StayShifts(ts, ix);
    }
  }

  /**
   * The writes of updateTask once its checks have passed: the sibling shifts, then the
   * task's own row, stamped `now`, which reaches `UpdatedTasks`. The database rejects the row
   * write when a given value holds U+0000 or a given title does not fit its column, and the
   * shifts stay written: `written`
   * says whether the row write went through.
   */
  method ApplyTaskUpdate(ts: seq<Task>, ix: nat, input: UpdateTaskInput, now: nat) returns (r: seq<Task>, written: bool)
    requires ix < |ts|
    ensures written <==> EncodesUpdateTask(input) && FitsIfGiven(input.title)
    ensures written ==> r == UpdatedTasks(ts, ix, input, now)
    ensures !written ==> r == ShiftedTasks(ts, ix, input)
  {
    var current := ts[ix];
    var newListId, newPosition;
    r, newListId, newPosition := ShiftSiblings(ts, ix, input);
    if !EncodesUpdateTask(input) || (input.title.Some? && !Fits(input.title.value)) {
      return r, false;
    }
    // the task's own row: given fields written, the rest kept
    var row := r[ix].(
      title := StoredOr(input.title, current.title),
      description := input.description.GetOr(current.description),
      list_id := if input.list_id.Some? then newListId else r[ix].list_id,
      position := if newPosition != current.position then newPosition else r[ix].position,
      updated_at := now);
    r, written := r[ix := row], true;
  }
}
