/**
 * What each step promises, stated on the store before and after it:
 *   - each error happens exactly when the ownership chain of the rows says it should;
 *   - a failed check changes nothing, and neither does a value that does not fit, except that
 *     updateTask keeps the sibling shifts written before its row write fails;
 *   - what a successful step writes, and what it leaves alone;
 *   - `StoreValid` holds afterwards, and titles stay non-empty for inputs that pass validation.
 */
module Outcomes {
  import opened Positions
  import opened Tables
  import opened Inputs
  import opened Reorder
  import opened Store
  import opened Steps

  // ---------------------------------------------------------------------------------------
  // users

  /**
   * The users-table insert fails on a value holding U+0000, or else on a value that does not
   * fit its column, or else on a taken e-mail; otherwise it adds one fresh row.
   */
  lemma {:induction false} InsertUserOutcome(s: Store, email: string, name: string)
    requires StoreValid(s)
    ensures var out := InsertUser(s, email, name); var r, s' := out.0, out.1;
      && (r == Err(NulCharacter) <==> !NoNul(email) || !NoNul(name))
      && (r == Err(ValueTooLong) <==> NoNul(email) && NoNul(name) && (!Fits(email) || !Fits(name)))
      && (r == Err(EmailAlreadyUsed) <==>
            && NoNul(email) && NoNul(name) && Fits(email) && Fits(name)
            && exists u :: u in s.users && u.email == Stored(email))
      && (r.Err? ==> r.error == NulCharacter || r.error == ValueTooLong || r.error == EmailAlreadyUsed)
      && (r.Err? ==> s' == s)
      && (r.Ok? ==>
            && r.value.id !in UserIds(s.users) && r.value.email == Stored(email) && r.value.name == Stored(name)
            && s'.users == s.users + [r.value]
            && s'.boards == s.boards && s'.lists == s.lists && s'.tasks == s.tasks)
      && StoreValid(s') && (StoreTitled(s) ==> StoreTitled(s'))
  {
    if NoNul(email) && NoNul(name) && Fits(email) && Fits(name) && !exists u :: u in s.users && u.email == Stored(email) {
      var u := User(s.nextUserId, Stored(email), Stored(name), s.clock + 1);
      InsertUserKeepsStore(s, u);
    }
  }

  /**
   * Deleting a user removes the user's row, every board the user owns, every list on such
   * a board and every task on such a list: the cascades of the schema, stated through
   * ownership.
   */
  lemma {:induction false} DeleteUserOutcome(s: Store, userId: int)
    requires StoreValid(s)
    ensures var s' := DeleteUser(s, userId);
      && (forall u :: u in s'.users <==> u in s.users && u.id != userId)
      && (forall b :: b in s'.boards <==> b in s.boards && b.user_id != userId)
      && (forall l :: l in s'.lists <==> l in s.lists && !OwnsBoard(s, l.board_id, userId))
      && (forall t :: t in s'.tasks <==> t in s.tasks && !OwnsList(s, t.list_id, userId))
      && StoreValid(s') && (StoreTitled(s) ==> StoreTitled(s'))
  {
    UserDeleteKeepsStore(s, userId);
    var owned := BoardIdsOfUser(s.boards, userId);
    forall l | l in s.lists ensures l.board_id in owned <==> OwnsBoard(s, l.board_id, userId) {
      if OwnsBoard(s, l.board_id, userId) {
        var b :| b in s.boards && b.id == l.board_id && b.user_id == userId;
        assert b.id in owned;
      }
    }
    forall t | t in s.tasks
      ensures t.list_id in ListIdsOfBoards(s.lists, owned) <==> OwnsList(s, t.list_id, userId)
    {
      if OwnsList(s, t.list_id, userId) {
        var l :| l in s.lists && l.id == t.list_id && OwnsBoard(s, l.board_id, userId);
        var b :| b in s.boards && b.id == l.board_id && b.user_id == userId;
        assert b.id in owned;
        assert l.id in ListIdsOfBoards(s.lists, owned);
      }
    }
  }

  // ---------------------------------------------------------------------------------------
  // boards

  /**
   * createBoard fails on a title or description holding U+0000, or else on a title that does
   * not fit its column, or else when the owner is not a user; otherwise it adds one fresh board with the input's title and description, owned by
   * the caller, and nothing else changes.
   */
  lemma {:induction false} CreateBoardOutcome(s: Store, input: CreateBoardInput, userId: int)
    requires StoreValid(s)
    ensures var out := CreateBoard(s, input, userId); var r, s' := out.0, out.1;
      && (r == Err(NulCharacter) <==> !EncodesCreateBoard(input))
      && (r == Err(ValueTooLong) <==> EncodesCreateBoard(input) && !Fits(input.title))
      && (r == Err(UserForeignKeyViolation) <==>
            EncodesCreateBoard(input) && Fits(input.title) && userId !in UserIds(s.users))
      && (r.Err? ==> r.error == NulCharacter || r.error == ValueTooLong || r.error == UserForeignKeyViolation)
      && (r.Err? ==> s' == s)
      && (r.Ok? ==>
            && r.value.id !in BoardIds(s.boards)
            && r.value.title == Stored(input.title) && r.value.description == input.description
            && OwnsBoard(s', r.value.id, userId)
            && s'.boards == s.boards + [r.value]
            && s'.users == s.users && s'.lists == s.lists && s'.tasks == s.tasks)
      && StoreValid(s') && (StoreTitled(s) && ValidCreateBoard(input) ==> StoreTitled(s'))
  {
    if EncodesCreateBoard(input) && Fits(input.title) && userId in UserIds(s.users) {
      var b := Board(s.nextBoardId, Stored(input.title), input.description, userId, s.clock + 1, s.clock + 1);
      CreateBoardKeepsStore(s, b);
      assert b in s.boards + [b];
    }
  }

  /**
   * A title of 255 characters and one trailing space is accepted, when neither it nor the
   * description holds U+0000: the board is created with the title cut to its first 255
   * characters.
   */
  lemma {:induction false} CreateBoardCutsTrailingSpace(s: Store, input: CreateBoardInput, userId: int)
    requires StoreValid(s) && userId in UserIds(s.users) && EncodesCreateBoard(input)
    requires |input.title| == VarcharWidth + 1 && input.title[VarcharWidth] == ' '
    ensures var r := CreateBoard(s, input, userId).0;
      r.Ok? && r.value.title == input.title[..VarcharWidth]
  {
    TrailingSpaceCut(input.title[..VarcharWidth]);
    assert input.title == input.title[..VarcharWidth] + " ";
  }

  /**
   * updateBoard fails, with one error for both cases, exactly when the caller does not own
   * the board; past that check it fails on a new title or description holding U+0000, and
   * then on a new title that does not fit its column. A failure changes nothing.
   */
  lemma {:induction false} UpdateBoardChecks(s: Store, input: UpdateBoardInput, userId: int)
    requires StoreValid(s)
    ensures var out := UpdateBoard(s, input, userId); var r, s' := out.0, out.1;
      && (r == Err(BoardNotFoundOrAccessDenied) <==> !OwnsBoard(s, input.id, userId))
      && (r == Err(NulCharacter) <==> OwnsBoard(s, input.id, userId) && !EncodesUpdateBoard(input))
      && (r == Err(ValueTooLong) <==>
            OwnsBoard(s, input.id, userId) && EncodesUpdateBoard(input) && !FitsIfGiven(input.title))
      && (r.Ok? <==> OwnsBoard(s, input.id, userId) && EncodesUpdateBoard(input) && FitsIfGiven(input.title))
      && (r.Err? ==> s' == s)
  {
    BoardOwnerMeansOwns(s, input.id, userId);
  }

  /**
   * A successful updateBoard rewrites the caller's board alone: a given title or
   * description is written (a description may become null), an absent one is kept, the id,
   * owner and creation stamp stay, and `updated_at` grows.
   */
  lemma {:induction false} UpdateBoardEffect(s: Store, input: UpdateBoardInput, userId: int)
    requires StoreValid(s)
    ensures var out := UpdateBoard(s, input, userId); var r, s' := out.0, out.1;
      r.Ok? ==>
        var i := FindBoard(s.boards, input.id).value;
        var old_ := s.boards[i];
        && old_.id == input.id && old_.user_id == userId
        && r.value.id == old_.id && r.value.user_id == old_.user_id && r.value.created_at == old_.created_at
        && (input.title.Some? ==> r.value.title == Stored(input.title.value))
        && (input.title.None? ==> r.value.title == old_.title)
        && (input.description.Some? ==> r.value.description == input.description.value)
        && (input.description.None? ==> r.value.description == old_.description)
        && r.value.updated_at > old_.updated_at
        && s'.boards == s.boards[i := r.value]
        && s'.users == s.users && s'.lists == s.lists && s'.tasks == s.tasks
  {
    var found := FindBoard(s.boards, input.id);
    if found.Some? {
      assert s.boards[found.value] in s.boards;
    }
  }

  /** updateBoard keeps the store valid, and titles non-empty for a valid input. */
  lemma {:induction false} UpdateBoardKeepsValid(s: Store, input: UpdateBoardInput, userId: int)
    requires StoreValid(s)
    ensures var s' := UpdateBoard(s, input, userId).1;
      StoreValid(s') && (StoreTitled(s) && ValidUpdateBoard(input) ==> StoreTitled(s'))
  {
    var out := UpdateBoard(s, input, userId);
    if out.0.Ok? {
      UpdateBoardKeepsStore(s, FindBoard(s.boards, input.id).value, out.0.value);
    }
  }

  /**
   * deleteBoard fails, with one error for both cases, exactly when the caller does not own
   * the board. Otherwise it returns the board's row and removes that board, the lists on it
   * and the tasks on those lists; every other row stays.
   */
  lemma {:induction false} DeleteBoardOutcome(s: Store, boardId: int, userId: int)
    requires StoreValid(s)
    ensures var out := DeleteBoard(s, boardId, userId); var r, s' := out.0, out.1;
      && (r.Err? <==> !OwnsBoard(s, boardId, userId))
      && (r.Err? ==> r.error == BoardNotFoundOrNotOwned && s' == s)
      && (r.Ok? ==>
            && r.value in s.boards && r.value.id == boardId && r.value.user_id == userId
            && (forall b :: b in s'.boards <==> b in s.boards && b.id != boardId)
            && (forall l :: l in s'.lists <==> l in s.lists && l.board_id != boardId)
            && (forall t :: t in s'.tasks <==>
                  t in s.tasks && !exists l :: l in s.lists && l.id == t.list_id && l.board_id == boardId)
            && s'.users == s.users)
      && StoreValid(s') && (StoreTitled(s) ==> StoreTitled(s'))
  {
    BoardOwnerMeansOwns(s, boardId, userId);
    var found := FindBoard(s.boards, boardId);
    if found.Some? && s.boards[found.value].user_id == userId {
      assert s.boards[found.value] in s.boards;
      BoardDeleteKeepsStore(s, boardId);
      forall t | t in s.tasks
        ensures t.list_id in ListIdsOfBoards(s.lists, {boardId}) <==>
                exists l :: l in s.lists && l.id == t.list_id && l.board_id == boardId
      {
        if exists l :: l in s.lists && l.id == t.list_id && l.board_id == boardId {
          var l :| l in s.lists && l.id == t.list_id && l.board_id == boardId;
          assert l.id in ListIdsOfBoards(s.lists, {boardId});
        }
      }
    }
  }

  // ---------------------------------------------------------------------------------------
  // lists

  /**
   * createList fails with "Board not found" exactly when the board is missing and with
   * "Unauthorized" exactly when it exists but the caller does not own it; past those checks
   * it fails on a title holding U+0000, and then on a title that does not fit its column.
   * A failure changes nothing.
   */
  lemma {:induction false} CreateListChecks(s: Store, input: CreateListInput, userId: int)
    requires StoreValid(s)
    ensures var out := CreateList(s, input, userId); var r, s' := out.0, out.1;
      && (r == Err(BoardNotFound) <==> input.board_id !in BoardIds(s.boards))
      && (r == Err(BoardNotOwned) <==> input.board_id in BoardIds(s.boards) && !OwnsBoard(s, input.board_id, userId))
      && (r == Err(NulCharacter) <==> OwnsBoard(s, input.board_id, userId) && !EncodesCreateList(input))
      && (r == Err(ValueTooLong) <==>
            OwnsBoard(s, input.board_id, userId) && EncodesCreateList(input) && !Fits(input.title))
      && (r.Ok? <==> OwnsBoard(s, input.board_id, userId) && EncodesCreateList(input) && Fits(input.title))
      && (r.Err? ==> s' == s)
  {
    BoardOwnerMeansOwns(s, input.board_id, userId);
  }

  /**
   * A successful createList adds one fresh list with the input's title and board at the
   * board's next append position (one past its highest list, or 0), and nothing else changes.
   */
  lemma {:induction false} CreateListEffect(s: Store, input: CreateListInput, userId: int)
    requires StoreValid(s)
    ensures var out := CreateList(s, input, userId); var r, s' := out.0, out.1;
      r.Ok? ==>
        && r.value.id !in ListIds(s.lists)
        && r.value.title == Stored(input.title) && r.value.board_id == input.board_id
        && r.value.position == NextPosition(ListSlots(s.lists), input.board_id)
        && s'.lists == s.lists + [r.value]
        && s'.users == s.users && s'.boards == s.boards && s'.tasks == s.tasks
  {
    assert s.nextListId !in ListIds(s.lists);
  }

  /** createList keeps the store valid, and titles non-empty for a valid input. */
  lemma {:induction false} CreateListKeepsValid(s: Store, input: CreateListInput, userId: int)
    requires StoreValid(s)
    ensures var s' := CreateList(s, input, userId).1;
      StoreValid(s') && (StoreTitled(s) && ValidCreateList(input) ==> StoreTitled(s'))
  {
    var out := CreateList(s, input, userId);
    if out.0.Ok? {
      CreateListKeepsStore(s, out.0.value);
    }
  }

  /**
   * A dense board stays dense through createList, and the new list of a dense board of n
   * lists lands at position n.
   */
  lemma {:induction false} CreateListKeepsDense(s: Store, input: CreateListInput, userId: int, board: int)
    requires StoreValid(s)
    ensures var out := CreateList(s, input, userId); var r, s' := out.0, out.1;
      && (Dense(ListSlots(s.lists), board) ==> Dense(ListSlots(s'.lists), board))
      && (r.Ok? && Dense(ListSlots(s.lists), input.board_id) ==>
            r.value.position == Count(ListSlots(s.lists), input.board_id))
  {
    var out := CreateList(s, input, userId);
    if out.0.Ok? {
      if Dense(ListSlots(s.lists), board) {
        AppendListKeepsDense(s.lists, out.0.value, board);
      }
      if Dense(ListSlots(s.lists), input.board_id) {
        NextPositionOfDense(ListSlots(s.lists), input.board_id);
      }
    }
  }

  /** Positions are numbered per board: createList does not move another board's next position. */
  lemma {:induction false} CreateListElsewhere(s: Store, input: CreateListInput, userId: int, board: int)
    requires StoreValid(s) && board != input.board_id
    ensures var s' := CreateList(s, input, userId).1;
      NextPosition(ListSlots(s'.lists), board) == NextPosition(ListSlots(s.lists), board)
  {
    var out := CreateList(s, input, userId);
    if out.0.Ok? {
      AppendListElsewhere(s.lists, out.0.value, board);
    }
  }

  /**
   * updateList fails with "List not found" exactly when the list is missing and with "Access
   * denied" exactly when it exists but the caller does not own it; past those checks it
   * fails on a new title holding U+0000, and then on a new title that does not fit its
   * column. A failure changes nothing.
   */
  lemma {:induction false} UpdateListChecks(s: Store, input: UpdateListInput, userId: int)
    requires StoreValid(s)
    ensures var out := UpdateList(s, input, userId); var r, s' := out.0, out.1;
      && (r == Err(ListNotFound) <==> input.id !in ListIds(s.lists))
      && (r == Err(ListAccessDenied) <==> input.id in ListIds(s.lists) && !OwnsList(s, input.id, userId))
      && (r == Err(NulCharacter) <==> OwnsList(s, input.id, userId) && !EncodesUpdateList(input))
      && (r == Err(ValueTooLong) <==>
            OwnsList(s, input.id, userId) && EncodesUpdateList(input) && !FitsIfGiven(input.title))
      && (r.Ok? <==> OwnsList(s, input.id, userId) && EncodesUpdateList(input) && FitsIfGiven(input.title))
      && (r.Err? ==> s' == s)
  {
    ListOwnerMeansOwns(s, input.id, userId);
  }

  /**
   * A successful updateList changes that row alone: a given title or position is written
   * verbatim (no sibling shifts), an absent one is kept, the id, board and creation stamp
   * stay, and `updated_at` grows.
   */
  lemma {:induction false} UpdateListEffect(s: Store, input: UpdateListInput, userId: int)
    requires StoreValid(s)
    ensures var out := UpdateList(s, input, userId); var r, s' := out.0, out.1;
      r.Ok? ==>
        var i := FindList(s.lists, input.id).value;
        var old_ := s.lists[i];
        && r.value.id == old_.id == input.id
        && r.value.board_id == old_.board_id && r.value.created_at == old_.created_at
        && (input.title.Some? ==> r.value.title == Stored(input.title.value))
        && (input.title.None? ==> r.value.title == old_.title)
        && (input.position.Some? ==> r.value.position == input.position.value)
        && (input.position.None? ==> r.value.position == old_.position)
        && r.value.updated_at > old_.updated_at
        && s'.lists == s.lists[i := r.value]
        && s'.users == s.users && s'.boards == s.boards && s'.tasks == s.tasks
  {
    var found := FindList(s.lists, input.id);
    if found.Some? {
      assert s.lists[found.value] in s.lists;
    }
  }

  /** updateList keeps the store valid, and titles non-empty for a valid input. */
  lemma {:induction false} UpdateListKeepsValid(s: Store, input: UpdateListInput, userId: int)
    requires StoreValid(s)
    ensures var s' := UpdateList(s, input, userId).1;
      StoreValid(s') && (StoreTitled(s) && ValidUpdateList(input) ==> StoreTitled(s'))
  {
    var out := UpdateList(s, input, userId);
    if out.0.Ok? {
      UpdateListKeepsStore(s, FindList(s.lists, input.id).value, out.0.value);
    }
  }

  /**
   * deleteList fails with "List not found" exactly when the list is missing and with "Not
   * authorized" exactly when it exists but the caller does not own it. Otherwise it returns
   * the list's row and removes that list and its tasks; every other row stays as it was, so
   * the remaining lists keep their positions.
   */
  lemma {:induction false} DeleteListOutcome(s: Store, listId: int, userId: int)
    requires StoreValid(s)
    ensures var out := DeleteList(s, listId, userId); var r, s' := out.0, out.1;
      && (r == Err(ListNotFound) <==> listId !in ListIds(s.lists))
      && (r == Err(ListDeleteNotOwned) <==> listId in ListIds(s.lists) && !OwnsList(s, listId, userId))
      && (r.Ok? <==> OwnsList(s, listId, userId))
      && (r.Err? ==> s' == s)
      && (r.Ok? ==>
            && r.value in s.lists && r.value.id == listId
            && (forall l :: l in s'.lists <==> l in s.lists && l.id != listId)
            && (forall t :: t in s'.tasks <==> t in s.tasks && t.list_id != listId)
            && s'.users == s.users && s'.boards == s.boards)
      && StoreValid(s') && (StoreTitled(s) ==> StoreTitled(s'))
  {
    ListOwnerMeansOwns(s, listId, userId);
    if ListOwner(s.boards, s.lists, listId) == Some(userId) {
      assert s.lists[FindList(s.lists, listId).value] in s.lists;
      ListDeleteKeepsStore(s, listId);
    }
  }

  // ---------------------------------------------------------------------------------------
  // tasks

  /**
   * createTask fails with "List not found" exactly when the list is missing and with
   * "Unauthorized" exactly when it exists but the caller does not own it; past those checks
   * it fails on a title or description holding U+0000, and then on a title that does not
   * fit its column. A failure changes nothing.
   */
  lemma {:induction false} CreateTaskChecks(s: Store, input: CreateTaskInput, userId: int)
    requires StoreValid(s)
    ensures var out := CreateTask(s, input, userId); var r, s' := out.0, out.1;
      && (r == Err(ListNotFound) <==> input.list_id !in ListIds(s.lists))
      && (r == Err(ListNotOwned) <==> input.list_id in ListIds(s.lists) && !OwnsList(s, input.list_id, userId))
      && (r == Err(NulCharacter) <==> OwnsList(s, input.list_id, userId) && !EncodesCreateTask(input))
      && (r == Err(ValueTooLong) <==>
            OwnsList(s, input.list_id, userId) && EncodesCreateTask(input) && !Fits(input.title))
      && (r.Ok? <==> OwnsList(s, input.list_id, userId) && EncodesCreateTask(input) && Fits(input.title))
      && (r.Err? ==> s' == s)
  {
    ListOwnerMeansOwns(s, input.list_id, userId);
  }

  /**
   * A successful createTask adds one fresh task with the input's title, description and
   * list, above every task already in that list, and nothing else changes.
   */
  lemma {:induction false} CreateTaskEffect(s: Store, input: CreateTaskInput, userId: int)
    requires StoreValid(s)
    ensures var out := CreateTask(s, input, userId); var r, s' := out.0, out.1;
      r.Ok? ==>
        && r.value.id !in TaskIds(s.tasks)
        && r.value.title == Stored(input.title) && r.value.description == input.description
        && r.value.list_id == input.list_id
        && r.value.position == NextPosition(TaskSlots(s.tasks), input.list_id)
        && (forall t :: t in s.tasks && t.list_id == input.list_id ==> t.position < r.value.position)
        && s'.tasks == s.tasks + [r.value]
        && s'.users == s.users && s'.boards == s.boards && s'.lists == s.lists
  {
    assert s.nextTaskId !in TaskIds(s.tasks);
    var p := NextPosition(TaskSlots(s.tasks), input.list_id);
    forall x | x in s.tasks && x.list_id == input.list_id ensures x.position < p {
      var i :| 0 <= i < |s.tasks| && s.tasks[i] == x;
      assert TaskSlots(s.tasks)[i] == Slot(x.list_id, x.position);
    }
  }

  /** createTask keeps the store valid, and titles non-empty for a valid input. */
  lemma {:induction false} CreateTaskKeepsValid(s: Store, input: CreateTaskInput, userId: int)
    requires StoreValid(s)
    ensures var s' := CreateTask(s, input, userId).1;
      StoreValid(s') && (StoreTitled(s) && ValidCreateTask(input) ==> StoreTitled(s'))
  {
    var out := CreateTask(s, input, userId);
    if out.0.Ok? {
      CreateTaskKeepsStore(s, out.0.value);
    }
  }

  /**
   * A dense list stays dense through createTask, and the new task of a dense list of n tasks
   * lands at position n.
   */
  lemma {:induction false} CreateTaskKeepsDense(s: Store, input: CreateTaskInput, userId: int, list: int)
    requires StoreValid(s)
    ensures var out := CreateTask(s, input, userId); var r, s' := out.0, out.1;
      && (Dense(TaskSlots(s.tasks), list) ==> Dense(TaskSlots(s'.tasks), list))
      && (r.Ok? && Dense(TaskSlots(s.tasks), input.list_id) ==>
            r.value.position == Count(TaskSlots(s.tasks), input.list_id))
  {
    var out := CreateTask(s, input, userId);
    if out.0.Ok? {
      if Dense(TaskSlots(s.tasks), list) {
        AppendTaskKeepsDense(s.tasks, out.0.value, list);
      }
      if Dense(TaskSlots(s.tasks), input.list_id) {
        NextPositionOfDense(TaskSlots(s.tasks), input.list_id);
      }
    }
  }

  /** Positions are numbered per list: createTask does not move another list's next position. */
  lemma {:induction false} CreateTaskElsewhere(s: Store, input: CreateTaskInput, userId: int, list: int)
    requires StoreValid(s) && list != input.list_id
    ensures var s' := CreateTask(s, input, userId).1;
      NextPosition(TaskSlots(s'.tasks), list) == NextPosition(TaskSlots(s.tasks), list)
  {
    var out := CreateTask(s, input, userId);
    if out.0.Ok? {
      AppendTaskElsewhere(s.tasks, out.0.value, list);
    }
  }

  /**
   * deleteTask fails with "Task not found" exactly when the task is missing and with
   * "Unauthorized" exactly when it exists but the caller does not own it. Otherwise it
   * returns the task's row and removes exactly that task; every other task stays as it was,
   * so its siblings are not renumbered.
   */
  lemma {:induction false} DeleteTaskOutcome(s: Store, taskId: int, userId: int)
    requires StoreValid(s)
    ensures var out := DeleteTask(s, taskId, userId); var r, s' := out.0, out.1;
      && (r == Err(TaskNotFound) <==> taskId !in TaskIds(s.tasks))
      && (r == Err(TaskDeleteNotOwned) <==> taskId in TaskIds(s.tasks) && !OwnsTask(s, taskId, userId))
      && (r.Ok? <==> OwnsTask(s, taskId, userId))
      && (r.Err? ==> s' == s)
      && (r.Ok? ==>
            && r.value in s.tasks && r.value.id == taskId
            && (forall t :: t in s'.tasks <==> t in s.tasks && t.id != taskId)
            && s'.users == s.users && s'.boards == s.boards && s'.lists == s.lists)
      && StoreValid(s') && (StoreTitled(s) ==> StoreTitled(s'))
  {
    TaskOwnerMeansOwns(s, taskId, userId);
    if TaskOwner(s.boards, s.lists, s.tasks, taskId) == Some(userId) {
      assert s.tasks[FindTask(s.tasks, taskId).value] in s.tasks;
      TaskDeleteKeepsStore(s, taskId);
    }
  }

  /** The update names another list than the one the task `input.id` is in. */
  ghost predicate RequestsListChange(s: Store, input: UpdateTaskInput)
  {
    exists t :: t in s.tasks && t.id == input.id && ChangesList(t, input)
  }

  /**
   * updateTask's checks, in terms of the rows: "Task not found" exactly when the task is
   * missing, "Unauthorized" exactly when the caller does not own it; on a change of list,
   * "Target list not found" exactly when the target list is missing and "Unauthorized"
   * exactly when the caller does not own it. Past those checks it fails on a new title or
   * description holding U+0000, and then on a new title wider than its column. A failed
   * check changes nothing, so no shift runs before a check fails.
   */
  lemma {:induction false} UpdateTaskChecks(s: Store, input: UpdateTaskInput, userId: int)
    requires StoreValid(s)
    ensures var out := UpdateTask(s, input, userId); var r, s' := out.0, out.1;
      && (r == Err(TaskNotFound) <==> input.id !in TaskIds(s.tasks))
      && (r == Err(TaskNotOwned) <==> input.id in TaskIds(s.tasks) && !OwnsTask(s, input.id, userId))
      && (r == Err(TargetListNotFound) <==>
            OwnsTask(s, input.id, userId) && RequestsListChange(s, input) && input.list_id.value !in ListIds(s.lists))
      && (r == Err(TargetListNotOwned) <==>
            && OwnsTask(s, input.id, userId) && RequestsListChange(s, input)
            && input.list_id.value in ListIds(s.lists) && !OwnsList(s, input.list_id.value, userId))
      && (r == Err(NulCharacter) <==>
            && OwnsTask(s, input.id, userId) && (RequestsListChange(s, input) ==> OwnsList(s, input.list_id.value, userId))
            && !EncodesUpdateTask(input))
      && (r == Err(ValueTooLong) <==>
            && OwnsTask(s, input.id, userId) && (RequestsListChange(s, input) ==> OwnsList(s, input.list_id.value, userId))
            && EncodesUpdateTask(input) && !FitsIfGiven(input.title))
      && (r.Ok? <==>
            && OwnsTask(s, input.id, userId) && (RequestsListChange(s, input) ==> OwnsList(s, input.list_id.value, userId))
            && EncodesUpdateTask(input) && FitsIfGiven(input.title))
      && (r.Err? && r != Err(NulCharacter) && r != Err(ValueTooLong) ==> s' == s)
  {
    TaskOwnerMeansOwns(s, input.id, userId);
    if input.id in TaskIds(s.tasks) {
      var t := s.tasks[FindTask(s.tasks, input.id).value];
      assert t in s.tasks;
      forall t' | t' in s.tasks && t'.id == input.id ensures t' == t {
        var k :| 0 <= k < |s.tasks| && s.tasks[k] == t';
      }
      assert RequestsListChange(s, input) <==> ChangesList(t, input);
      if ChangesList(t, input) {
        ListOwnerMeansOwns(s, input.list_id.value, userId);
      }
    }
  }

  /**
   * A successful updateTask leaves the table as the move of `UpdatedTasks` describes, returns
   * the task's new row, and touches no other table. The task lands in its destination list at
   * its target position; a given title or description is written (a description may become
   * null), an absent one is kept; `updated_at` grows. Every other task keeps all its columns
   * but `position`, and tasks outside the source and target lists are untouched.
   */
  lemma {:induction false} UpdateTaskEffect(s: Store, input: UpdateTaskInput, userId: int)
    requires StoreValid(s)
    ensures var out := UpdateTask(s, input, userId); var r, s' := out.0, out.1;
      r.Ok? ==>
        var ix := FindTask(s.tasks, input.id).value;
        var t := s.tasks[ix];
        && s'.tasks == UpdatedTasks(s.tasks, ix, input, s'.clock)
        && |s'.tasks| == |s.tasks| && r.value == s'.tasks[ix]
        && r.value.id == input.id && r.value.created_at == t.created_at
        && r.value.list_id == Destination(t, input) && r.value.position == TargetPosition(s.tasks, ix, input)
        && (input.title.Some? ==> r.value.title == Stored(input.title.value))
        && (input.title.None? ==> r.value.title == t.title)
        && (input.description.Some? ==> r.value.description == input.description.value)
        && (input.description.None? ==> r.value.description == t.description)
        && r.value.updated_at > t.updated_at
        && (forall i :: 0 <= i < |s.tasks| && i != ix ==>
              s'.tasks[i] == s.tasks[i].(position := s'.tasks[i].position))
        && (forall i ::
              (0 <= i < |s.tasks| && i != ix && s.tasks[i].list_id != t.list_id &&
               s.tasks[i].list_id != Destination(t, input)) ==> s'.tasks[i] == s.tasks[i])
        && s'.users == s.users && s'.boards == s.boards && s'.lists == s.lists
  {
    var found := FindTask(s.tasks, input.id);
    if found.Some? {
      var ix := found.value;
      assert s.tasks[ix] in s.tasks;
      RelocatedFrame(s.tasks, ix, Destination(s.tasks[ix], input), TargetPosition(s.tasks, ix, input));
    }
  }

  /** A passed check of updateTask names an existing task and an existing destination list. */
  lemma {:induction false} UpdateTaskTarget(s: Store, input: UpdateTaskInput, userId: int)
    requires StoreValid(s)
    ensures UpdateTaskCheck(s, input, userId).None? ==>
      && FindTask(s.tasks, input.id).Some?
      && Destination(s.tasks[FindTask(s.tasks, input.id).value], input) in ListIds(s.lists)
  {
    if UpdateTaskCheck(s, input, userId).None? {
      var ix := FindTask(s.tasks, input.id).value;
      var t := s.tasks[ix];
      assert t in s.tasks;
      if ChangesList(t, input) {
        assert ListOwner(s.boards, s.lists, input.list_id.value).Some?;
      }
    }
  }

  /**
   * updateTask fails on a failed check or, past its checks, on a value holding U+0000 or a
   * title that does not fit. A failed check is the error and leaves the store unchanged;
   * such a value is rejected by the row write alone, after the sibling shifts are written,
   * so the store keeps the shifts and not the move.
   */
  lemma {:induction false} UpdateTaskFails(s: Store, input: UpdateTaskInput, userId: int)
    requires StoreValid(s)
    ensures var out := UpdateTask(s, input, userId);
      && (out.0.Err? <==>
            UpdateTaskCheck(s, input, userId).Some? || !EncodesUpdateTask(input) || !FitsIfGiven(input.title))
      && (UpdateTaskCheck(s, input, userId).Some? ==>
            out.1 == s && Some(out.0.error) == UpdateTaskCheck(s, input, userId))
      && (UpdateTaskCheck(s, input, userId).None? && !(EncodesUpdateTask(input) && FitsIfGiven(input.title)) ==>
            && FindTask(s.tasks, input.id).Some?
            && out.0 == Err(if EncodesUpdateTask(input) then ValueTooLong else NulCharacter)
            && out.1 == s.(tasks := ShiftedTasks(s.tasks, FindTask(s.tasks, input.id).value, input)))
  {
    UpdateTaskTarget(s, input, userId);
  }

  /**
   * A successful updateTask writes the updated tasks table one tick later and returns the
   * task's new row.
   */
  lemma {:induction false} UpdateTaskShape(s: Store, input: UpdateTaskInput, userId: int)
    requires StoreValid(s)
    ensures var out := UpdateTask(s, input, userId);
      out.0.Ok? ==>
        && FindTask(s.tasks, input.id).Some?
        && out.1 == s.(tasks := UpdatedTasks(s.tasks, FindTask(s.tasks, input.id).value, input, s.clock + 1),
                       clock := s.clock + 1)
        && out.0.value == out.1.tasks[FindTask(s.tasks, input.id).value]
  {
    if UpdateTaskCheck(s, input, userId).None? {
      assert TaskOwner(s.boards, s.lists, s.tasks, input.id).Some?;
      var ix := FindTask(s.tasks, input.id).value;
      assert |UpdatedTasks(s.tasks, ix, input, s.clock + 1)| == |s.tasks|;
    }
  }

  /** updateTask keeps the store valid, and titles non-empty for a valid input. */
  lemma {:induction false} UpdateTaskKeepsValid(s: Store, input: UpdateTaskInput, userId: int)
    requires StoreValid(s)
    ensures var s' := UpdateTask(s, input, userId).1;
      StoreValid(s') && (StoreTitled(s) && ValidUpdateTask(input) ==> StoreTitled(s'))
  {
    UpdateTaskTarget(s, input, userId);
    UpdateTaskShape(s, input, userId);
    UpdateTaskFails(s, input, userId);
    var out := UpdateTask(s, input, userId);
    if out.0.Ok? {
      UpdateTaskKeepsStore(s, FindTask(s.tasks, input.id).value, input);
    } else if UpdateTaskCheck(s, input, userId).None? {
      ShiftedTasksKeepStore(s, FindTask(s.tasks, input.id).value, input);
    }
  }

  /**
   * updateTask conserves tasks: the same ids remain, the source list has one task fewer and
   * the destination one more (the same list when the task stays), and every other list keeps
   * its count.
   */
  lemma {:induction false} UpdateTaskConserves(s: Store, input: UpdateTaskInput, userId: int, list: int)
    requires StoreValid(s)
    ensures var out := UpdateTask(s, input, userId); var r, s' := out.0, out.1;
      r.Ok? ==>
        var t := s.tasks[FindTask(s.tasks, input.id).value];
        && TaskIds(s'.tasks) == TaskIds(s.tasks)
        && Count(TaskSlots(s'.tasks), list)
           == Count(TaskSlots(s.tasks), list)
              - (if list == t.list_id then 1 else 0) + (if list == Destination(t, input) then 1 else 0)
  {
    var out := UpdateTask(s, input, userId);
    if out.0.Ok? {
      var ix := FindTask(s.tasks, input.id).value;
      UpdateTaskShape(s, input, userId);
      UpdateConservesTasks(s.tasks, ix, input, s.clock + 1, list);
    }
  }

  /**
   * When the task's list and its destination are dense and the requested position is in
   * range, updateTask keeps every dense list dense: positions stay a permutation of 0..n-1.
   */
  lemma {:induction false} UpdateTaskKeepsDense(s: Store, input: UpdateTaskInput, userId: int, list: int)
    requires StoreValid(s)
    ensures var out := UpdateTask(s, input, userId); var r, s' := out.0, out.1;
      r.Ok? ==>
        var ix := FindTask(s.tasks, input.id).value;
        var t := s.tasks[ix];
        MoveInRange(s.tasks, ix, input) && Dense(TaskSlots(s.tasks), t.list_id)
        && Dense(TaskSlots(s.tasks), Destination(t, input)) && Dense(TaskSlots(s.tasks), list)
        ==> Dense(TaskSlots(s'.tasks), list)
  {
    var out := UpdateTask(s, input, userId);
    if out.0.Ok? {
      var ix := FindTask(s.tasks, input.id).value;
      var t := s.tasks[ix];
      UpdateTaskShape(s, input, userId);
      if MoveInRange(s.tasks, ix, input) && Dense(TaskSlots(s.tasks), t.list_id)
         && Dense(TaskSlots(s.tasks), Destination(t, input)) && Dense(TaskSlots(s.tasks), list)
      {
        UpdateKeepsDense(s.tasks, ix, input, s.clock + 1, list);
      }
    }
  }
}
