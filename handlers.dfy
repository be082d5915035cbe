/**
 * The handlers as methods of the database they change. Each method runs its checks (lookups
 * and the ownership chain) first and writes the tables only after the last one passed, so a
 * failing handler changes nothing. Each method is proved to reach exactly the result and the
 * state of its step in `Steps`, and to keep the database valid; the step lemmas in
 * `Outcomes` say what that step promises.
 */
module Handlers {
  import opened Positions
  import opened Tables
  import opened Inputs
  import opened Reorder
  import opened Store
  import opened Steps
  import opened Outcomes

  class Database {
    var users: seq<User>
    var boards: seq<Board>
    var lists: seq<List>
    var tasks: seq<Task>
    // The serial counters: the id the next insert into each table receives.
    var nextUserId: int
    var nextBoardId: int
    var nextListId: int
    var nextTaskId: int
    // The current tick of the abstract clock.
    var clock: nat

    /** The database as a value. */
    ghost function Snapshot(): Store
      reads this
    {
      Store(users, boards, lists, tasks, nextUserId, nextBoardId, nextListId, nextTaskId, clock)
    }

    /**
     * Keys and foreign keys hold, every id was handed out by its serial counter, and every
     * row was created no later than its last update, which is no later than now.
     */
    ghost predicate Valid()
      reads this
    {
      StoreValid(Snapshot())
    }

    /** An empty database; every serial starts at 1. */
    constructor ()
      ensures Valid()
      ensures Snapshot() == Store([], [], [], [], 1, 1, 1, 1, 0)
    {
      users, boards, lists, tasks := [], [], [], [];
      nextUserId, nextBoardId, nextListId, nextTaskId := 1, 1, 1, 1;
      clock := 0;
    }

    // -------------------------------------------------------------------------------------
    // users

    /**
     * Insert into the users table: rejected when a value holds U+0000 or does not fit, or
     * when the e-mail is taken.
     */
    method InsertUser(email: string, name: string) returns (r: Result<User>)
      requires Valid()
      modifies this
      ensures (r, Snapshot()) == Steps.InsertUser(old(Snapshot()), email, name)
      ensures Valid()
    {
      if !NoNul(email) || !NoNul(name) {
        r := Err(NulCharacter);
      } else if !Fits(email) || !Fits(name) {
        r := Err(ValueTooLong);
      } else if exists u :: u in users && u.email == Stored(email) {
        r := Err(EmailAlreadyUsed);
      } else {
        var u := User(nextUserId, Stored(email), Stored(name), clock + 1);
        users, nextUserId, clock := users + [u], nextUserId + 1, clock + 1;
        r := Ok(u);
      }
      assert (r, Snapshot()) == Steps.InsertUser(old(Snapshot()), email, name);
      InsertUserOutcome(old(Snapshot()), email, name);
    }

    /** Delete from the users table, with the cascades to boards, lists and tasks. */
    method DeleteUser(userId: int)
      requires Valid()
      modifies this
      ensures Snapshot() == Steps.DeleteUser(old(Snapshot()), userId)
      ensures Valid()
    {
      ghost var s0 := Snapshot();
      var owned := BoardIdsOfUser(boards, userId);
      var us, bs, ls, ts :=
        UsersOtherThan(users, userId), BoardsNotOwnedBy(boards, userId),
        ListsOutside(lists, owned), TasksOutside(tasks, ListIdsOfBoards(lists, owned));
      ghost var s1 := s0.(users := us, boards := bs, lists := ls, tasks := ts);
      assert s1 == Steps.DeleteUser(s0, userId);
      UserDeleteKeepsStore(s0, userId);
      users, boards, lists, tasks := us, bs, ls, ts;
      assert Snapshot() == s1;
    }

    // -------------------------------------------------------------------------------------
    // boards

    /**
     * createBoard: a board owned by `userId`; a value holding U+0000, then a title that does
     * not fit, then an unknown user are rejected.
     */
    method CreateBoard(input: CreateBoardInput, userId: int) returns (r: Result<Board>)
      requires Valid()
      modifies this
      ensures (r, Snapshot()) == Steps.CreateBoard(old(Snapshot()), input, userId)
      ensures Valid()
    {
      if !EncodesCreateBoard(input) {
        r := Err(NulCharacter);
      } else if !Fits(input.title) {
        r := Err(ValueTooLong);
      } else if userId !in UserIds(users) {
        r := Err(UserForeignKeyViolation);
      } else {
        var b := Board(nextBoardId, Stored(input.title), input.description, userId, clock + 1, clock + 1);
        boards, nextBoardId, clock := boards + [b], nextBoardId + 1, clock + 1;
        r := Ok(b);
      }
      assert (r, Snapshot()) == Steps.CreateBoard(old(Snapshot()), input, userId);
      CreateBoardOutcome(old(Snapshot()), input, userId);
    }

    /** updateBoard: the board must exist and belong to `userId` (one error for both). */
    method UpdateBoard(input: UpdateBoardInput, userId: int) returns (r: Result<Board>)
      requires Valid()
      modifies this
      ensures (r, Snapshot()) == Steps.UpdateBoard(old(Snapshot()), input, userId)
      ensures Valid()
    {
      var found := FindBoard(boards, input.id);
      if found.None? || boards[found.value].user_id != userId {
        r := Err(BoardNotFoundOrAccessDenied);
      } else if !EncodesUpdateBoard(input) {
        r := Err(NulCharacter);
      } else if !FitsIfGiven(input.title) {
        r := Err(ValueTooLong);
      } else {
        var i := found.value;
        var b := boards[i].(
          title := StoredOr(input.title, boards[i].title),
          description := input.description.GetOr(boards[i].description),
          updated_at := clock + 1);
        boards, clock := boards[i := b], clock + 1;
        r := Ok(b);
      }
      assert (r, Snapshot()) == Steps.UpdateBoard(old(Snapshot()), input, userId);
      UpdateBoardKeepsValid(old(Snapshot()), input, userId);
    }

    /** deleteBoard: the board must exist and belong to `userId`; lists and tasks cascade. */
    method DeleteBoard(boardId: int, userId: int) returns (r: Result<Board>)
      requires Valid()
      modifies this
      ensures (r, Snapshot()) == Steps.DeleteBoard(old(Snapshot()), boardId, userId)
      ensures Valid()
    {
      var found := FindBoard(boards, boardId);
      if found.None? || boards[found.value].user_id != userId {
        r := Err(BoardNotFoundOrNotOwned);
      } else {
        var deleted := boards[found.value];
        boards, lists, tasks :=
          BoardsOtherThan(boards, boardId), ListsOutside(lists, {boardId}),
          TasksOutside(tasks, ListIdsOfBoards(lists, {boardId}));
        r := Ok(deleted);
      }
      assert (r, Snapshot()) == Steps.DeleteBoard(old(Snapshot()), boardId, userId);
      DeleteBoardOutcome(old(Snapshot()), boardId, userId);
    }

    // -------------------------------------------------------------------------------------
    // lists

    /** createList: the board must belong to `userId`; the list goes to its next position. */
    method CreateList(input: CreateListInput, userId: int) returns (r: Result<List>)
      requires Valid()
      modifies this
      ensures (r, Snapshot()) == Steps.CreateList(old(Snapshot()), input, userId)
      ensures Valid()
    {
      var owner := BoardOwner(boards, input.board_id);
      if owner.None? {
        r := Err(BoardNotFound);
      } else if owner.value != userId {
        r := Err(BoardNotOwned);
      } else if !EncodesCreateList(input) {
        r := Err(NulCharacter);
      } else if !Fits(input.title) {
        r := Err(ValueTooLong);
      } else {
        var position := NextPosition(ListSlots(lists), input.board_id);
        var l := List(nextListId, Stored(input.title), input.board_id, position, clock + 1, clock + 1);
        lists, nextListId, clock := lists + [l], nextListId + 1, clock + 1;
        r := Ok(l);
      }
      assert (r, Snapshot()) == Steps.CreateList(old(Snapshot()), input, userId);
      CreateListKeepsValid(old(Snapshot()), input, userId);
    }

    /** updateList: the list's board must belong to `userId`; title and position verbatim. */
    method UpdateList(input: UpdateListInput, userId: int) returns (r: Result<List>)
      requires Valid()
      modifies this
      ensures (r, Snapshot()) == Steps.UpdateList(old(Snapshot()), input, userId)
      ensures Valid()
    {
      var owner := ListOwner(boards, lists, input.id);
      if owner.None? {
        r := Err(ListNotFound);
      } else if owner.value != userId {
        r := Err(ListAccessDenied);
      } else if !EncodesUpdateList(input) {
        r := Err(NulCharacter);
      } else if !FitsIfGiven(input.title) {
        r := Err(ValueTooLong);
      } else {
        var i := FindList(lists, input.id).value;
        var l := lists[i].(
          title := StoredOr(input.title, lists[i].title),
          position := input.position.GetOr(lists[i].position),
          updated_at := clock + 1);
        lists, clock := lists[i := l], clock + 1;
        r := Ok(l);
      }
      assert (r, Snapshot()) == Steps.UpdateList(old(Snapshot()), input, userId);
      UpdateListKeepsValid(old(Snapshot()), input, userId);
    }

    /** deleteList: the list's board must belong to `userId`; its tasks cascade. */
    method DeleteList(listId: int, userId: int) returns (r: Result<List>)
      requires Valid()
      modifies this
      ensures (r, Snapshot()) == Steps.DeleteList(old(Snapshot()), listId, userId)
      ensures Valid()
    {
      var owner := ListOwner(boards, lists, listId);
      if owner.None? {
        r := Err(ListNotFound);
      } else if owner.value != userId {
        r := Err(ListDeleteNotOwned);
      } else {
        var deleted := lists[FindList(lists, listId).value];
        lists, tasks := ListsOtherThan(lists, listId), TasksOutside(tasks, {listId});
        r := Ok(deleted);
      }
      assert (r, Snapshot()) == Steps.DeleteList(old(Snapshot()), listId, userId);
      DeleteListOutcome(old(Snapshot()), listId, userId);
    }

    // -------------------------------------------------------------------------------------
    // tasks

    /** createTask: the list's board must belong to `userId`; the task goes to its next position. */
    method CreateTask(input: CreateTaskInput, userId: int) returns (r: Result<Task>)
      requires Valid()
      modifies this
      ensures (r, Snapshot()) == Steps.CreateTask(old(Snapshot()), input, userId)
      ensures Valid()
    {
      var owner := ListOwner(boards, lists, input.list_id);
      if owner.None? {
        r := Err(ListNotFound);
      } else if owner.value != userId {
        r := Err(ListNotOwned);
      } else if !EncodesCreateTask(input) {
        r := Err(NulCharacter);
      } else if !Fits(input.title) {
        r := Err(ValueTooLong);
      } else {
        var position := NextPosition(TaskSlots(tasks), input.list_id);
        var t := Task(nextTaskId, Stored(input.title), input.description, input.list_id, position, clock + 1, clock + 1);
        tasks, nextTaskId, clock := tasks + [t], nextTaskId + 1, clock + 1;
        r := Ok(t);
      }
      assert (r, Snapshot()) == Steps.CreateTask(old(Snapshot()), input, userId);
      CreateTaskKeepsValid(old(Snapshot()), input, userId);
    }

    /** deleteTask: the task's board must belong to `userId`; exactly that row goes. */
    method DeleteTask(taskId: int, userId: int) returns (r: Result<Task>)
      requires Valid()
      modifies this
      ensures (r, Snapshot()) == Steps.DeleteTask(old(Snapshot()), taskId, userId)
      ensures Valid()
    {
      var owner := TaskOwner(boards, lists, tasks, taskId);
      if owner.None? {
        r := Err(TaskNotFound);
      } else if owner.value != userId {
        r := Err(TaskDeleteNotOwned);
      } else {
        var deleted := tasks[FindTask(tasks, taskId).value];
        tasks := TasksOtherThan(tasks, taskId);
        r := Ok(deleted);
      }
      assert (r, Snapshot()) == Steps.DeleteTask(old(Snapshot()), taskId, userId);
      DeleteTaskOutcome(old(Snapshot()), taskId, userId);
    }

    /**
     * The checks of updateTask, in order: the task must exist and its board belong to
     * `userId`; on a change of list, the target list must exist and its board belong to
     * `userId`. Nothing is written.
     */
    method CheckTaskUpdate(input: UpdateTaskInput, userId: int) returns (denied: Option<Error>)
      requires Valid()
      ensures denied == UpdateTaskCheck(Snapshot(), input, userId)
    {
      var owner := TaskOwner(boards, lists, tasks, input.id);
      if owner.None? {
        return Some(TaskNotFound);
      }
      if owner.value != userId {
        return Some(TaskNotOwned);
      }
      var ix := FindTask(tasks, input.id).value;
      denied := None;
      if ChangesList(tasks[ix], input) {
        var target := ListOwner(boards, lists, input.list_id.value);
        if target.None? {
          denied := Some(TargetListNotFound);
        } else if target.value != userId {
          denied := Some(TargetListNotOwned);
        }
      }
    }

    /**
     * updateTask: the checks; then the sibling shifts of the move, one bulk update at a
     * time, and the task's own row. A value holding U+0000 or a title that does not fit fails
     * the row write after the shifts.
     */
    method UpdateTask(input: UpdateTaskInput, userId: int) returns (r: Result<Task>)
      requires Valid()
      modifies this
      ensures (r, Snapshot()) == Steps.UpdateTask(old(Snapshot()), input, userId)
      ensures Valid()
    {
      ghost var s0 := Snapshot();
      var denied := CheckTaskUpdate(input, userId);
      assert Snapshot() == s0;
      assert UpdateTaskCheck(s0, input, userId) == denied;
      if denied.Some? {
        UpdateTaskFails(s0, input, userId);
        r := Err(denied.value);
      } else {
        assert FindTask(tasks, input.id).Some? by {
          UpdateTaskTarget(s0, input, userId);
        }
        var ix := FindTask(tasks, input.id).value;
        var now := clock + 1;
        var updated, written := ApplyTaskUpdate(tasks, ix, input, now);
        if written {
          tasks, clock := updated, now;
          r := Ok(updated[ix]);
          assert Snapshot() == s0.(tasks := updated, clock := s0.clock + 1);
          assert (r, Snapshot()) == Steps.UpdateTask(s0, input, userId) by {
            UpdateTaskFails(s0, input, userId);
            UpdateTaskShape(s0, input, userId);
          }
        } else {
          tasks := updated;
          r := Err(if EncodesUpdateTask(input) then ValueTooLong else NulCharacter);
          assert Snapshot() == s0.(tasks := updated);
          assert (r, Snapshot()) == Steps.UpdateTask(s0, input, userId) by {
            UpdateTaskFails(s0, input, userId);
          }
        }
      }
      assert (r, Snapshot()) == Steps.UpdateTask(s0, input, userId);
      UpdateTaskKeepsValid(s0, input, userId);
    }
  }
}
