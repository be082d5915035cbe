/**
 * Each handler as one step of the store: it takes the store before the call and returns the
 * handler's result together with the store after it. A failed check returns the store
 * unchanged, because every check comes before the first write. A value holding U+0000, or
 * one that does not fit its `varchar(255)` column, fails the write itself: the store is unchanged too, except in
 * updateTask, whose sibling shifts are written before its row write fails.
 *
 * The lemmas say what each step promises:
 *   - which calls fail and with which error, stated through the ownership chain of the rows;
 *   - what a successful call writes;
 *   - that the step keeps `StoreValid`.
 */
module Steps {
  import opened Positions
  import opened Tables
  import opened Inputs
  import opened Reorder
  import opened Store

  /** The errors the handlers throw, one per message. */
  datatype Error =
    | TaskNotFound
    | TaskNotOwned
    | TargetListNotFound
    | TargetListNotOwned
    | ListNotFound
    | ListNotOwned
    | BoardNotFound
    | BoardNotOwned
    | TaskDeleteNotOwned
    | ListDeleteNotOwned
    | ListAccessDenied
    | BoardNotFoundOrNotOwned
    | BoardNotFoundOrAccessDenied
    | UserForeignKeyViolation
    | EmailAlreadyUsed
    | ValueTooLong
    | NulCharacter

  function Message(e: Error): string
  {
    match e
    case TaskNotFound => "Task not found"
    case TaskNotOwned => "Unauthorized: Task not owned by user"
    case TargetListNotFound => "Target list not found"
    case TargetListNotOwned => "Unauthorized: Target list not owned by user"
    case ListNotFound => "List not found"
    case ListNotOwned => "Unauthorized: List does not belong to user"
    case BoardNotFound => "Board not found"
    case BoardNotOwned => "Unauthorized: Board does not belong to user"
    case TaskDeleteNotOwned => "Unauthorized: You can only delete your own tasks"
    case ListDeleteNotOwned => "Not authorized to delete this list"
    case ListAccessDenied => "Access denied"
    case BoardNotFoundOrNotOwned => "Board not found or not owned by user"
    case BoardNotFoundOrAccessDenied => "Board not found or access denied"
    case UserForeignKeyViolation => "insert or update on table \"boards\" violates foreign key constraint"
    case EmailAlreadyUsed => "duplicate key value violates unique constraint on \"email\""
    case ValueTooLong => "value too long for type character varying(255)"
    case NulCharacter => "invalid byte sequence for encoding \"UTF8\": 0x00"
  }

  datatype Result<T> = Ok(value: T) | Err(error: Error)

  // ---------------------------------------------------------------------------------------
  // Ownership stated on the rows: a chain of foreign keys up to a board owned by the user

  ghost predicate OwnsBoard(s: Store, boardId: int, userId: int)
  {
    exists b :: b in s.boards && b.id == boardId && b.user_id == userId
  }

  ghost predicate OwnsList(s: Store, listId: int, userId: int)
  {
    exists l :: l in s.lists && l.id == listId && OwnsBoard(s, l.board_id, userId)
  }

  ghost predicate OwnsTask(s: Store, taskId: int, userId: int)
  {
    exists t :: t in s.tasks && t.id == taskId && OwnsList(s, t.list_id, userId)
  }

  /** The board lookup names `userId` exactly when the user owns the board. */
  lemma BoardOwnerMeansOwns(s: Store, boardId: int, userId: int)
    requires StoreValid(s)
    ensures BoardOwner(s.boards, boardId) == Some(userId) <==> OwnsBoard(s, boardId, userId)
  {
    if boardId in BoardIds(s.boards) {
      var b :| b in s.boards && b.id == boardId;
    }
  }

  /**
   * With the foreign keys in force, the inner join from a list to its board fails only when
   * the list is missing, and it names `userId` exactly when the user owns the list.
   */
  lemma ListOwnerMeansOwns(s: Store, listId: int, userId: int)
    requires StoreValid(s)
    ensures ListOwner(s.boards, s.lists, listId).None? <==> listId !in ListIds(s.lists)
    ensures ListOwner(s.boards, s.lists, listId) == Some(userId) <==> OwnsList(s, listId, userId)
  {
    if listId in ListIds(s.lists) {
      var l :| l in s.lists && l.id == listId;
      assert l.board_id in BoardIds(s.boards);
      BoardOwnerMeansOwns(s, l.board_id, userId);
      if OwnsList(s, listId, userId) {
        var l' :| l' in s.lists && l'.id == listId && OwnsBoard(s, l'.board_id, userId);
        BoardOwnerMeansOwns(s, l'.board_id, userId);
      }
    }
  }

  /**
   * With the foreign keys in force, the joins from a task to its list and board fail only
   * when the task is missing, and they name `userId` exactly when the user owns the task.
   */
  lemma TaskOwnerMeansOwns(s: Store, taskId: int, userId: int)
    requires StoreValid(s)
    ensures TaskOwner(s.boards, s.lists, s.tasks, taskId).None? <==> taskId !in TaskIds(s.tasks)
    ensures TaskOwner(s.boards, s.lists, s.tasks, taskId) == Some(userId) <==> OwnsTask(s, taskId, userId)
  {
    if taskId in TaskIds(s.tasks) {
      var t :| t in s.tasks && t.id == taskId;
      assert t.list_id in ListIds(s.lists);
      ListOwnerMeansOwns(s, t.list_id, userId);
      if OwnsTask(s, taskId, userId) {
        var t' :| t' in s.tasks && t'.id == taskId && OwnsList(s, t'.list_id, userId);
        ListOwnerMeansOwns(s, t'.list_id, userId);
      }
    }
  }

  // ---------------------------------------------------------------------------------------
  // The steps

  /**
   * The users-table insert of create_user (the password hash aside): e-mail and name must
   * hold no U+0000 and fit their columns, and e-mails are unique.
   */
  function InsertUser(s: Store, email: string, name: string): (Result<User>, Store)
  {
    if !NoNul(email) || !NoNul(name) then (Err(NulCharacter), s)
    else if !Fits(email) || !Fits(name) then (Err(ValueTooLong), s)
    else if exists u :: u in s.users && u.email == Stored(email) then (Err(EmailAlreadyUsed), s)
    else
      var u := User(s.nextUserId, Stored(email), Stored(name), s.clock + 1);
      (Ok(u), s.(users := s.users + [u], nextUserId := s.nextUserId + 1, clock := s.clock + 1))
  }

  /** Deleting a user row, with the cascades of the schema to boards, lists and tasks. */
  function DeleteUser(s: Store, userId: int): Store
    requires StoreValid(s)
  {
    var owned := BoardIdsOfUser(s.boards, userId);
    s.(users := UsersOtherThan(s.users, userId), boards := BoardsNotOwnedBy(s.boards, userId),
       lists := ListsOutside(s.lists, owned), tasks := TasksOutside(s.tasks, ListIdsOfBoards(s.lists, owned)))
  }

  /**
   * createBoard: one insert, owned by `userId`. Title and description must hold no U+0000,
   * the title must fit its column, and the foreign key rejects an unknown user.
   */
  function CreateBoard(s: Store, input: CreateBoardInput, userId: int): (Result<Board>, Store)
  {
    if !EncodesCreateBoard(input) then (Err(NulCharacter), s)
    else if !Fits(input.title) then (Err(ValueTooLong), s)
    else if userId !in UserIds(s.users) then (Err(UserForeignKeyViolation), s)
    else
      var b := Board(s.nextBoardId, Stored(input.title), input.description, userId, s.clock + 1, s.clock + 1);
      (Ok(b), s.(boards := s.boards + [b], nextBoardId := s.nextBoardId + 1, clock := s.clock + 1))
  }

  /** updateBoard: an owner-filtered lookup, then the given fields and the stamp. */
  function UpdateBoard(s: Store, input: UpdateBoardInput, userId: int): (Result<Board>, Store)
  {
    match FindBoard(s.boards, input.id)
    case None => (Err(BoardNotFoundOrAccessDenied), s)
    case Some(i) =>
      if s.boards[i].user_id != userId then (Err(BoardNotFoundOrAccessDenied), s)
      else if !EncodesUpdateBoard(input) then (Err(NulCharacter), s)
      else if !FitsIfGiven(input.title) then (Err(ValueTooLong), s)
      else
        var b := s.boards[i].(
          title := StoredOr(input.title, s.boards[i].title),
          description := input.description.GetOr(s.boards[i].description),
          updated_at := s.clock + 1);
        (Ok(b), s.(boards := s.boards[i := b], clock := s.clock + 1))
  }

  /** deleteBoard: an owner-filtered delete, cascading to the board's lists and their tasks. */
  function DeleteBoard(s: Store, boardId: int, userId: int): (Result<Board>, Store)
    requires StoreValid(s)
  {
    match FindBoard(s.boards, boardId)
    case None => (Err(BoardNotFoundOrNotOwned), s)
    case Some(i) =>
      if s.boards[i].user_id != userId then (Err(BoardNotFoundOrNotOwned), s)
      else
        (Ok(s.boards[i]),
         s.(boards := BoardsOtherThan(s.boards, boardId), lists := ListsOutside(s.lists, {boardId}),
            tasks := TasksOutside(s.tasks, ListIdsOfBoards(s.lists, {boardId}))))
  }

  /** createList: the board's owner must be `userId`; the list goes to the board's next position. */
  function CreateList(s: Store, input: CreateListInput, userId: int): (Result<List>, Store)
    requires StoreValid(s)
  {
    match BoardOwner(s.boards, input.board_id)
    case None => (Err(BoardNotFound), s)
    case Some(owner) =>
      if owner != userId then (Err(BoardNotOwned), s)
      else if !EncodesCreateList(input) then (Err(NulCharacter), s)
      else if !Fits(input.title) then (Err(ValueTooLong), s)
      else
        var l := List(s.nextListId, Stored(input.title), input.board_id,
                      NextPosition(ListSlots(s.lists), input.board_id), s.clock + 1, s.clock + 1);
        (Ok(l), s.(lists := s.lists + [l], nextListId := s.nextListId + 1, clock := s.clock + 1))
  }

  /** updateList: the list's owner must be `userId`; title and position are written verbatim. */
  function UpdateList(s: Store, input: UpdateListInput, userId: int): (Result<List>, Store)
    requires StoreValid(s)
  {
    match ListOwner(s.boards, s.lists, input.id)
    case None => (Err(ListNotFound), s)
    case Some(owner) =>
      if owner != userId then (Err(ListAccessDenied), s)
      else if !EncodesUpdateList(input) then (Err(NulCharacter), s)
      else if !FitsIfGiven(input.title) then (Err(ValueTooLong), s)
      else
        var i := FindList(s.lists, input.id).value;
        var l := s.lists[i].(
          title := StoredOr(input.title, s.lists[i].title),
          position := input.position.GetOr(s.lists[i].position),
          updated_at := s.clock + 1);
        (Ok(l), s.(lists := s.lists[i := l], clock := s.clock + 1))
  }

  /** deleteList: the list's owner must be `userId`; the delete cascades to its tasks. */
  function DeleteList(s: Store, listId: int, userId: int): (Result<List>, Store)
    requires StoreValid(s)
  {
    match ListOwner(s.boards, s.lists, listId)
    case None => (Err(ListNotFound), s)
    case Some(owner) =>
      if owner != userId then (Err(ListDeleteNotOwned), s)
      else
        (Ok(s.lists[FindList(s.lists, listId).value]),
         s.(lists := ListsOtherThan(s.lists, listId), tasks := TasksOutside(s.tasks, {listId})))
  }

  /** createTask: the list's owner must be `userId`; the task goes to the list's next position. */
  function CreateTask(s: Store, input: CreateTaskInput, userId: int): (Result<Task>, Store)
    requires StoreValid(s)
  {
    match ListOwner(s.boards, s.lists, input.list_id)
    case None => (Err(ListNotFound), s)
    case Some(owner) =>
      if owner != userId then (Err(ListNotOwned), s)
      else if !EncodesCreateTask(input) then (Err(NulCharacter), s)
      else if !Fits(input.title) then (Err(ValueTooLong), s)
      else
        var t := Task(s.nextTaskId, Stored(input.title), input.description, input.list_id,
                      NextPosition(TaskSlots(s.tasks), input.list_id), s.clock + 1, s.clock + 1);
        (Ok(t), s.(tasks := s.tasks + [t], nextTaskId := s.nextTaskId + 1, clock := s.clock + 1))
  }

  /** deleteTask: the task's owner must be `userId`; exactly that row goes. */
  function DeleteTask(s: Store, taskId: int, userId: int): (Result<Task>, Store)
    requires StoreValid(s)
  {
    match TaskOwner(s.boards, s.lists, s.tasks, taskId)
    case None => (Err(TaskNotFound), s)
    case Some(owner) =>
      if owner != userId then (Err(TaskDeleteNotOwned), s)
      else (Ok(s.tasks[FindTask(s.tasks, taskId).value]), s.(tasks := TasksOtherThan(s.tasks, taskId)))
  }

  /** The checks of updateTask, in order: the first that fails names the error. */
  function UpdateTaskCheck(s: Store, input: UpdateTaskInput, userId: int): Option<Error>
    requires StoreValid(s)
  {
    match TaskOwner(s.boards, s.lists, s.tasks, input.id)
    case None => Some(TaskNotFound)
    case Some(owner) =>
      if owner != userId then Some(TaskNotOwned)
      else if !ChangesList(s.tasks[FindTask(s.tasks, input.id).value], input) then None
      else match ListOwner(s.boards, s.lists, input.list_id.value)
        case None => Some(TargetListNotFound)
        case Some(target) => if target != userId then Some(TargetListNotOwned) else None
  }

  /**
   * updateTask: its checks, then the sibling shifts and the row update of `UpdatedTasks`.
   * The statements run outside a transaction: when the database rejects the row update for
   * a value holding U+0000 or a title that does not fit, the shifts before it stay written.
   */
  function UpdateTask(s: Store, input: UpdateTaskInput, userId: int): (Result<Task>, Store)
    requires StoreValid(s)
  {
    match UpdateTaskCheck(s, input, userId)
    case Some(e) => (Err(e), s)
    case None =>
      var ix := FindTask(s.tasks, input.id).value;
      if !EncodesUpdateTask(input) then (Err(NulCharacter), s.(tasks := ShiftedTasks(s.tasks, ix, input)))
      else if !FitsIfGiven(input.title) then (Err(ValueTooLong), s.(tasks := ShiftedTasks(s.tasks, ix, input)))
      else
        var ts := UpdatedTasks(s.tasks, ix, input, s.clock + 1);
        (Ok(ts[ix]), s.(tasks := ts, clock := s.clock + 1))
  }
}
