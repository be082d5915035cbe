/**
 * The store the handlers write: the four tables, the serial counter of each table and an
 * abstract clock. `StoreValid` is what every handler keeps: the keys and foreign keys of
 * the schema, ids below their serial counters, and timestamps no later than the clock.
 * Each handler's writes have a lemma here saying they keep it.
 */
module Store {
  import opened Positions
  import opened Tables
  import opened Inputs
  import opened Reorder

  /** Every user id was handed out by the serial (below `next`) and no row is from the future. */
  ghost predicate UsersIssued(us: seq<User>, next: int, now: nat)
  {
    forall u :: u in us ==> u.id < next && u.created_at <= now
  }

  ghost predicate BoardsIssued(bs: seq<Board>, next: int, now: nat)
  {
    forall b :: b in bs ==> b.id < next && b.created_at <= b.updated_at <= now
  }

  ghost predicate ListsIssued(ls: seq<List>, next: int, now: nat)
  {
    forall l :: l in ls ==> l.id < next && l.created_at <= l.updated_at <= now
  }

  ghost predicate TasksIssued(ts: seq<Task>, next: int, now: nat)
  {
    forall t :: t in ts ==> t.id < next && t.created_at <= t.updated_at <= now
  }

  /** The whole database: its four tables, the serial counter of each, and the clock. */
  datatype Store = Store(
    users: seq<User>, boards: seq<Board>, lists: seq<List>, tasks: seq<Task>,
    nextUserId: int, nextBoardId: int, nextListId: int, nextTaskId: int, clock: nat)

  ghost predicate StoreValid(s: Store)
  {
    && Consistent(s.users, s.boards, s.lists, s.tasks)
    && UsersIssued(s.users, s.nextUserId, s.clock) && BoardsIssued(s.boards, s.nextBoardId, s.clock)
    && ListsIssued(s.lists, s.nextListId, s.clock) && TasksIssued(s.tasks, s.nextTaskId, s.clock)
  }

  /** Every title in the store is non-empty. */
  ghost predicate StoreTitled(s: Store)
  {
    TitlesNonEmpty(s.boards, s.lists, s.tasks)
  }

  lemma {:induction false} AddUserKeepsConsistent(us: seq<User>, bs: seq<Board>, ls: seq<List>, ts: seq<Task>, u: User)
    requires Consistent(us, bs, ls, ts)
    requires u.id !in UserIds(us) && forall x :: x in us ==> x.email != u.email
    ensures Consistent(us + [u], bs, ls, ts)
  {
    var us' := us + [u];
    UniqueUsersDistinct(us);
    forall i, j | 0 <= i < j < |us'| ensures us'[i].id != us'[j].id && us'[i].email != us'[j].email {
      if j == |us| {
        assert us'[i] in us;
      }
    }
    UniqueUsersDistinct(us');
    assert UserIds(us) <= UserIds(us') by {
      forall id | id in UserIds(us) ensures id in UserIds(us') {
        var x :| x in us && x.id == id;
        assert x in us';
      }
    }
  }

  lemma {:induction false} AddBoardKeepsConsistent(us: seq<User>, bs: seq<Board>, ls: seq<List>, ts: seq<Task>, b: Board)
    requires Consistent(us, bs, ls, ts)
    requires b.id !in BoardIds(bs) && b.user_id in UserIds(us)
    ensures Consistent(us, bs + [b], ls, ts)
  {
    var bs' := bs + [b];
    UniqueBoardsDistinct(bs);
    forall i, j | 0 <= i < j < |bs'| ensures bs'[i].id != bs'[j].id {
      if j == |bs| {
        assert bs'[i] in bs;
      }
    }
    UniqueBoardsDistinct(bs');
    assert BoardIds(bs) <= BoardIds(bs') by {
      forall id | id in BoardIds(bs) ensures id in BoardIds(bs') {
        var x :| x in bs && x.id == id;
        assert x in bs';
      }
    }
  }

  lemma {:induction false} AddListKeepsConsistent(us: seq<User>, bs: seq<Board>, ls: seq<List>, ts: seq<Task>, l: List)
    requires Consistent(us, bs, ls, ts)
    requires l.id !in ListIds(ls) && l.board_id in BoardIds(bs)
    ensures Consistent(us, bs, ls + [l], ts)
  {
    var ls' := ls + [l];
    UniqueListsDistinct(ls);
    forall i, j | 0 <= i < j < |ls'| ensures ls'[i].id != ls'[j].id {
      if j == |ls| {
        assert ls'[i] in ls;
      }
    }
    UniqueListsDistinct(ls');
    assert ListIds(ls) <= ListIds(ls') by {
      forall id | id in ListIds(ls) ensures id in ListIds(ls') {
        var x :| x in ls && x.id == id;
        assert x in ls';
      }
    }
  }

  lemma {:induction false} AddTaskKeepsConsistent(us: seq<User>, bs: seq<Board>, ls: seq<List>, ts: seq<Task>, t: Task)
    requires Consistent(us, bs, ls, ts)
    requires t.id !in TaskIds(ts) && t.list_id in ListIds(ls)
    ensures Consistent(us, bs, ls, ts + [t])
  {
    var ts' := ts + [t];
    UniqueTasksDistinct(ts);
    forall i, j | 0 <= i < j < |ts'| ensures ts'[i].id != ts'[j].id {
      if j == |ts| {
        assert ts'[i] in ts;
      }
    }
    UniqueTasksDistinct(ts');
  }

  /** Rewriting a board row in place, keeping its key and owner. */
  lemma {:induction false} ReplaceBoardKeepsConsistent(us: seq<User>, bs: seq<Board>, ls: seq<List>, ts: seq<Task>, i: nat, b: Board)
    requires Consistent(us, bs, ls, ts) && i < |bs|
    requires b.id == bs[i].id && b.user_id == bs[i].user_id
    ensures Consistent(us, bs[i := b], ls, ts)
  {
    var bs' := bs[i := b];
    UniqueBoardsDistinct(bs);
    UniqueBoardsDistinct(bs');
    assert BoardIds(bs) <= BoardIds(bs') by {
      forall id | id in BoardIds(bs) ensures id in BoardIds(bs') {
        var k :| 0 <= k < |bs| && bs[k].id == id;
        assert bs'[k].id == id && bs'[k] in bs';
      }
    }
    forall x | x in bs' ensures x.user_id in UserIds(us) {
      var k :| 0 <= k < |bs'| && bs'[k] == x;
      assert bs[k] in bs;
    }
  }

  /** Rewriting a list row in place, keeping its key and board. */
  lemma {:induction false} ReplaceListKeepsConsistent(us: seq<User>, bs: seq<Board>, ls: seq<List>, ts: seq<Task>, i: nat, l: List)
    requires Consistent(us, bs, ls, ts) && i < |ls|
    requires l.id == ls[i].id && l.board_id == ls[i].board_id
    ensures Consistent(us, bs, ls[i := l], ts)
  {
    var ls' := ls[i := l];
    UniqueListsDistinct(ls);
    UniqueListsDistinct(ls');
    assert ListIds(ls) <= ListIds(ls') by {
      forall id | id in ListIds(ls) ensures id in ListIds(ls') {
        var k :| 0 <= k < |ls| && ls[k].id == id;
        assert ls'[k].id == id && ls'[k] in ls';
      }
    }
    forall x | x in ls' ensures x.board_id in BoardIds(bs) {
      var k :| 0 <= k < |ls'| && ls'[k] == x;
      assert ls[k] in ls;
    }
  }

  /** Rewriting the tasks table row by row, keeping every key and pointing only at existing lists. */
  lemma {:induction false} RewriteTasksKeepsConsistent(us: seq<User>, bs: seq<Board>, ls: seq<List>, ts: seq<Task>, ts': seq<Task>)
    requires Consistent(us, bs, ls, ts)
    requires |ts'| == |ts| && forall i :: 0 <= i < |ts| ==> ts'[i].id == ts[i].id
    requires forall i :: 0 <= i < |ts'| ==> ts'[i].list_id in ListIds(ls)
    ensures Consistent(us, bs, ls, ts')
  {
    UniqueTasksDistinct(ts);
    UniqueTasksDistinct(ts');
  }

  // ---------------------------------------------------------------------------------------
  // One lemma per write: the store after it (`s'`) is valid again

  /** Advancing the clock keeps every stamp in the past. */
  lemma {:induction false} TickKeepsStore(s: Store, later: nat)
    requires StoreValid(s) && s.clock <= later
    ensures StoreValid(s.(clock := later))
  {
  }

  /** Inserting a user with a fresh e-mail under the next serial id, stamped one tick later. */
  lemma {:induction false} InsertUserKeepsStore(s: Store, u: User)
    requires StoreValid(s)
    requires forall x :: x in s.users ==> x.email != u.email
    requires u.id == s.nextUserId && u.created_at == s.clock + 1
    ensures var s' := s.(users := s.users + [u], nextUserId := s.nextUserId + 1, clock := s.clock + 1);
      StoreValid(s') && (StoreTitled(s) ==> StoreTitled(s'))
  {
    assert u.id !in UserIds(s.users);
    AddUserKeepsConsistent(s.users, s.boards, s.lists, s.tasks, u);
    TickKeepsStore(s, s.clock + 1);
  }

  /** Deleting a user with the cascades of the schema. */
  lemma {:induction false} UserDeleteKeepsStore(s: Store, userId: int)
    requires StoreValid(s)
    ensures var owned := BoardIdsOfUser(s.boards, userId);
      var s' := s.(users := UsersOtherThan(s.users, userId), boards := BoardsNotOwnedBy(s.boards, userId),
               lists := ListsOutside(s.lists, owned), tasks := TasksOutside(s.tasks, ListIdsOfBoards(s.lists, owned)));
      StoreValid(s') && (StoreTitled(s) ==> StoreTitled(s'))
  {
    UserCascadeKeepsConsistent(s.users, s.boards, s.lists, s.tasks, userId);
  }

  /** Inserting a board of an existing user under the next serial id, stamped one tick later. */
  lemma {:induction false} CreateBoardKeepsStore(s: Store, b: Board)
    requires StoreValid(s)
    requires b.user_id in UserIds(s.users)
    requires b.id == s.nextBoardId && b.created_at == b.updated_at == s.clock + 1
    ensures var s' := s.(boards := s.boards + [b], nextBoardId := s.nextBoardId + 1, clock := s.clock + 1);
      StoreValid(s') && (StoreTitled(s) && TitleOk(b.title) ==> StoreTitled(s'))
  {
    assert b.id !in BoardIds(s.boards);
    AddBoardKeepsConsistent(s.users, s.boards, s.lists, s.tasks, b);
    TickKeepsStore(s, s.clock + 1);
  }

  /** Rewriting board `i` in place, keeping its key, owner and creation stamp, stamped one tick later. */
  lemma {:induction false} UpdateBoardKeepsStore(s: Store, i: nat, b: Board)
    requires StoreValid(s)
    requires i < |s.boards| && b.id == s.boards[i].id && b.user_id == s.boards[i].user_id
    requires b.created_at == s.boards[i].created_at && b.updated_at == s.clock + 1
    ensures var s' := s.(boards := s.boards[i := b], clock := s.clock + 1);
      StoreValid(s') && (StoreTitled(s) && TitleOk(b.title) ==> StoreTitled(s'))
  {
    assert s.boards[i] in s.boards;
    ReplaceBoardKeepsConsistent(s.users, s.boards, s.lists, s.tasks, i, b);
    TickKeepsStore(s, s.clock + 1);
    assert forall x :: x in s.boards[i := b] ==> x == b || x in s.boards;
  }

  /** Deleting board `boardId` with the cascades of the schema. */
  lemma {:induction false} BoardDeleteKeepsStore(s: Store, boardId: int)
    requires StoreValid(s)
    ensures var s' := s.(boards := BoardsOtherThan(s.boards, boardId), lists := ListsOutside(s.lists, {boardId}),
                      tasks := TasksOutside(s.tasks, ListIdsOfBoards(s.lists, {boardId})));
      StoreValid(s') && (StoreTitled(s) ==> StoreTitled(s'))
  {
    BoardCascadeKeepsConsistent(s.users, s.boards, s.lists, s.tasks, boardId);
  }

  /** Inserting a list of an existing board under the next serial id, stamped one tick later. */
  lemma {:induction false} CreateListKeepsStore(s: Store, l: List)
    requires StoreValid(s)
    requires l.board_id in BoardIds(s.boards)
    requires l.id == s.nextListId && l.created_at == l.updated_at == s.clock + 1
    ensures var s' := s.(lists := s.lists + [l], nextListId := s.nextListId + 1, clock := s.clock + 1);
      StoreValid(s') && (StoreTitled(s) && TitleOk(l.title) ==> StoreTitled(s'))
  {
    assert l.id !in ListIds(s.lists);
    AddListKeepsConsistent(s.users, s.boards, s.lists, s.tasks, l);
    TickKeepsStore(s, s.clock + 1);
  }

  /** Rewriting list `i` in place, keeping its key, board and creation stamp, stamped one tick later. */
  lemma {:induction false} UpdateListKeepsStore(s: Store, i: nat, l: List)
    requires StoreValid(s)
    requires i < |s.lists| && l.id == s.lists[i].id && l.board_id == s.lists[i].board_id
    requires l.created_at == s.lists[i].created_at && l.updated_at == s.clock + 1
    ensures var s' := s.(lists := s.lists[i := l], clock := s.clock + 1);
      StoreValid(s') && (StoreTitled(s) && TitleOk(l.title) ==> StoreTitled(s'))
  {
    assert s.lists[i] in s.lists;
    ReplaceListKeepsConsistent(s.users, s.boards, s.lists, s.tasks, i, l);
    TickKeepsStore(s, s.clock + 1);
    assert forall x :: x in s.lists[i := l] ==> x == l || x in s.lists;
  }

  /** Deleting list `listId` with the cascade of the schema. */
  lemma {:induction false} ListDeleteKeepsStore(s: Store, listId: int)
    requires StoreValid(s)
    ensures var s' := s.(lists := ListsOtherThan(s.lists, listId), tasks := TasksOutside(s.tasks, {listId}));
      StoreValid(s') && (StoreTitled(s) ==> StoreTitled(s'))
  {
    ListCascadeKeepsConsistent(s.users, s.boards, s.lists, s.tasks, listId);
  }

  /** Inserting a task of an existing list under the next serial id, stamped one tick later. */
  lemma {:induction false} CreateTaskKeepsStore(s: Store, t: Task)
    requires StoreValid(s)
    requires t.list_id in ListIds(s.lists)
    requires t.id == s.nextTaskId && t.created_at == t.updated_at == s.clock + 1
    ensures var s' := s.(tasks := s.tasks + [t], nextTaskId := s.nextTaskId + 1, clock := s.clock + 1);
      StoreValid(s') && (StoreTitled(s) && TitleOk(t.title) ==> StoreTitled(s'))
  {
    assert t.id !in TaskIds(s.tasks);
    AddTaskKeepsConsistent(s.users, s.boards, s.lists, s.tasks, t);
    TickKeepsStore(s, s.clock + 1);
  }

  /** Deleting task `taskId`. */
  lemma {:induction false} TaskDeleteKeepsStore(s: Store, taskId: int)
    requires StoreValid(s)
    ensures var s' := s.(tasks := TasksOtherThan(s.tasks, taskId));
      StoreValid(s') && (StoreTitled(s) ==> StoreTitled(s'))
  {
    TaskDeleteKeepsConsistent(s.users, s.boards, s.lists, s.tasks, taskId);
  }

  /** An update of the task at `ix` changes no key and points the task at `Destination`. */
  lemma {:induction false} UpdatedTasksKeepKeys(us: seq<User>, bs: seq<Board>, ls: seq<List>, ts: seq<Task>, ix: nat, input: UpdateTaskInput, now: nat)
    requires Consistent(us, bs, ls, ts)
    requires ix < |ts| && Destination(ts[ix], input) in ListIds(ls)
    ensures Consistent(us, bs, ls, UpdatedTasks(ts, ix, input, now))
  {
    var r := UpdatedTasks(ts, ix, input, now);
    RelocatedFrame(ts, ix, Destination(ts[ix], input), TargetPosition(ts, ix, input));
    forall i | 0 <= i < |r| ensures r[i].list_id in ListIds(ls) {
      assert ts[i] in ts;
    }
    RewriteTasksKeepsConsistent(us, bs, ls, ts, r);
  }

  /** An update stamped `now`, no earlier than any row, keeps every id issued and every stamp in order. */
  lemma {:induction false} UpdatedTasksKeepStamps(ts: seq<Task>, ix: nat, input: UpdateTaskInput, next: int, earlier: nat, now: nat)
    requires TasksIssued(ts, next, earlier) && earlier <= now
    requires ix < |ts|
    ensures TasksIssued(UpdatedTasks(ts, ix, input, now), next, now)
  {
    var r := UpdatedTasks(ts, ix, input, now);
    RelocatedFrame(ts, ix, Destination(ts[ix], input), TargetPosition(ts, ix, input));
    forall t | t in r ensures t.id < next && t.created_at <= t.updated_at <= now {
      var i :| 0 <= i < |r| && r[i] == t;
      assert ts[i] in ts;
    }
  }

  /** An update whose title, if given, is non-empty keeps every title non-empty. */
  lemma {:induction false} UpdatedTasksKeepTitles(bs: seq<Board>, ls: seq<List>, ts: seq<Task>, ix: nat, input: UpdateTaskInput, now: nat)
    requires ix < |ts| && TitlesNonEmpty(bs, ls, ts) && ValidUpdateTask(input)
    ensures TitlesNonEmpty(bs, ls, UpdatedTasks(ts, ix, input, now))
  {
    var r := UpdatedTasks(ts, ix, input, now);
    RelocatedFrame(ts, ix, Destination(ts[ix], input), TargetPosition(ts, ix, input));
    forall t | t in r ensures TitleOk(t.title) {
      var i :| 0 <= i < |r| && r[i] == t;
      assert ts[i] in ts;
    }
  }

  /** updateTask on the task at `ix`, pointing it at an existing list, stamped one tick later. */
  lemma {:induction false} UpdateTaskKeepsStore(s: Store, ix: nat, input: UpdateTaskInput)
    requires StoreValid(s)
    requires ix < |s.tasks| && Destination(s.tasks[ix], input) in ListIds(s.lists)
    ensures var s' := s.(tasks := UpdatedTasks(s.tasks, ix, input, s.clock + 1), clock := s.clock + 1);
      StoreValid(s') && (StoreTitled(s) && ValidUpdateTask(input) ==> StoreTitled(s'))
  {
    UpdatedTasksKeepKeys(s.users, s.boards, s.lists, s.tasks, ix, input, s.clock + 1);
    UpdatedTasksKeepStamps(s.tasks, ix, input, s.nextTaskId, s.clock, s.clock + 1);
    TickKeepsStore(s, s.clock + 1);
    if StoreTitled(s) && ValidUpdateTask(input) {
      UpdatedTasksKeepTitles(s.boards, s.lists, s.tasks, ix, input, s.clock + 1);
    }
  }

  /** The sibling shifts alone keep every task in an existing list, under its own id. */
  lemma {:induction false} ShiftedTasksKeepKeys(us: seq<User>, bs: seq<Board>, ls: seq<List>, ts: seq<Task>, ix: nat, input: UpdateTaskInput)
    requires Consistent(us, bs, ls, ts) && ix < |ts|
    ensures Consistent(us, bs, ls, ShiftedTasks(ts, ix, input))
  {
    var r := ShiftedTasks(ts, ix, input);
    ShiftedFrame(ts, ix, input);
    forall i | 0 <= i < |r| ensures r[i].list_id in ListIds(ls) {
      assert ts[i] in ts;
    }
    RewriteTasksKeepsConsistent(us, bs, ls, ts, r);
  }

  /** The sibling shifts alone keep every id issued and every stamp as it was. */
  lemma {:induction false} ShiftedTasksKeepStamps(ts: seq<Task>, ix: nat, input: UpdateTaskInput, next: int, now: nat)
    requires TasksIssued(ts, next, now) && ix < |ts|
    ensures TasksIssued(ShiftedTasks(ts, ix, input), next, now)
  {
    var r := ShiftedTasks(ts, ix, input);
    ShiftedFrame(ts, ix, input);
    forall t | t in r ensures t.id < next && t.created_at <= t.updated_at <= now {
      var i :| 0 <= i < |r| && r[i] == t;
      assert ts[i] in ts;
    }
  }

  /** The sibling shifts alone keep every title. */
  lemma {:induction false} ShiftedTasksKeepTitles(bs: seq<Board>, ls: seq<List>, ts: seq<Task>, ix: nat, input: UpdateTaskInput)
    requires ix < |ts| && TitlesNonEmpty(bs, ls, ts)
    ensures TitlesNonEmpty(bs, ls, ShiftedTasks(ts, ix, input))
  {
    var r := ShiftedTasks(ts, ix, input);
    ShiftedFrame(ts, ix, input);
    forall t | t in r ensures TitleOk(t.title) {
      var i :| 0 <= i < |r| && r[i] == t;
      assert ts[i] in ts;
    }
  }

  /**
   * The sibling shifts of updateTask without its row write change positions only, so they
   * keep the store valid and every title non-empty.
   */
  lemma {:induction false} ShiftedTasksKeepStore(s: Store, ix: nat, input: UpdateTaskInput)
    requires StoreValid(s) && ix < |s.tasks|
    ensures var s' := s.(tasks := ShiftedTasks(s.tasks, ix, input));
      StoreValid(s') && (StoreTitled(s) ==> StoreTitled(s'))
  {
    ShiftedTasksKeepKeys(s.users, s.boards, s.lists, s.tasks, ix, input);
    ShiftedTasksKeepStamps(s.tasks, ix, input, s.nextTaskId, s.clock);
    if StoreTitled(s) {
      ShiftedTasksKeepTitles(s.boards, s.lists, s.tasks, ix, input);
    }
  }

  // ---------------------------------------------------------------------------------------
  // Appends keep the ordering

  /** Appending a task at its list's next position keeps every dense list dense. */
  lemma {:induction false} AppendTaskKeepsDense(ts: seq<Task>, t: Task, list: int)
    requires t.position == NextPosition(TaskSlots(ts), t.list_id)
    requires Dense(TaskSlots(ts), list)
    ensures Dense(TaskSlots(ts + [t]), list)
  {
    AppendKeepsDense(TaskSlots(ts), t.list_id, list);
    assert TaskSlots(ts + [t]) == TaskSlots(ts) + [Slot(t.list_id, t.position)];
  }

  /** Appending a list at its board's next position keeps every dense board dense. */
  lemma {:induction false} AppendListKeepsDense(ls: seq<List>, l: List, board: int)
    requires l.position == NextPosition(ListSlots(ls), l.board_id)
    requires Dense(ListSlots(ls), board)
    ensures Dense(ListSlots(ls + [l]), board)
  {
    AppendKeepsDense(ListSlots(ls), l.board_id, board);
    assert ListSlots(ls + [l]) == ListSlots(ls) + [Slot(l.board_id, l.position)];
  }

  /** Appending a task to another list leaves `list`'s next append position as it was. */
  lemma {:induction false} AppendTaskElsewhere(ts: seq<Task>, t: Task, list: int)
    requires t.list_id != list
    ensures NextPosition(TaskSlots(ts + [t]), list) == NextPosition(TaskSlots(ts), list)
  {
    assert TaskSlots(ts + [t]) == TaskSlots(ts) + [Slot(t.list_id, t.position)];
    NextPositionAppendOther(TaskSlots(ts), Slot(t.list_id, t.position), list);
  }

  /** Appending a list to another board leaves `board`'s next append position as it was. */
  lemma {:induction false} AppendListElsewhere(ls: seq<List>, l: List, board: int)
    requires l.board_id != board
    ensures NextPosition(ListSlots(ls + [l]), board) == NextPosition(ListSlots(ls), board)
  {
    assert ListSlots(ls + [l]) == ListSlots(ls) + [Slot(l.board_id, l.position)];
    NextPositionAppendOther(ListSlots(ls), Slot(l.board_id, l.position), board);
  }
}
