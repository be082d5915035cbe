# Kanban board server: a Dafny model of its handlers and schema

This project models the data layer of a kanban board server. Users own boards, boards hold
lists and lists hold tasks. Lists are ordered inside a board, and tasks inside a list, by an
integer `position` column. The handlers create, update, delete and read these rows. Every
handler that names an existing board, list or task first checks that the caller owns it
through the chain task → list → board → `user_id`. createBoard has no such check (its owner
must only exist as a user), and getUserBoards selects the caller's own boards.

The model is built in layers:

- `Positions` (positions.dfy): sibling positions, once for both tables. A row is abstracted to
  a `Slot` (parent key, position). It defines `Count`, `Dense` (the positions are 0 .. n-1,
  each exactly once) and `NextPosition`, the "highest position + 1, or 0" allocator that
  createList, createTask and a cross-list append use.
- `Tables` (tables.dfy): the four tables of `db/schema.ts` as sequences of rows.
  - It states the primary keys, the unique e-mail and the three `ON DELETE CASCADE` foreign
    keys as `Consistent`.
  - It holds the lookups, the ownership joins and the cascading deletes.
- `Inputs` (inputs.dfy): the request and response shapes of `schema.ts`. This includes the
  optional-and-nullable `description`, and the title validation (`min(1)`). The input
  schemas set no upper bound, but the `varchar(255)` columns of `db/schema.ts` do.
  PostgreSQL cuts a longer value to 255 characters when everything past the 255th character
  is spaces (`Tables.Stored`). It rejects any other longer e-mail, name or title
  (`Tables.Fits`, error `ValueTooLong`). The input schemas also let through the character
  U+0000, which PostgreSQL's text types cannot hold: a name, e-mail, title or description
  holding it is refused as a parameter before its statement runs (`Tables.NoNul`, the
  `Encodes…` predicates of `Inputs`, error `NulCharacter`). The password is stored only
  as its hash, so it never reaches the database as given.
- `Reorder` (reorder.dfy): the position logic of updateTask.
  - The bulk shifts are one `ShiftTasks` update each.
  - The method `ShiftSiblings` runs them in the source's order.
  - `ApplyTaskUpdate` adds the task's own write.
  - Both are proved against the closed form `Relocated` / `UpdatedTasks`. The density,
    conservation and frame theorems are then proved about that closed form.
- `Store` (store.dfy): the whole database, meaning its tables, one serial counter per table
  and a clock. `StoreValid` is consistency plus "ids were issued by the serials, stamps are
  not in the future". It holds lemmas that each kind of write keeps it.
- `Steps` (steps.dfy): each handler as a pure step `Store -> (Result, Store)`.
  - A step runs every check before its first write, so a failed check returns the store
    unchanged.
  - A value holding U+0000, or one that does not fit its column (over 255 characters, with
    a non-space past the 255th), fails the INSERT or UPDATE itself. For every handler but
    updateTask that is the step's only write, so the store is again unchanged. updateTask
    writes its sibling shifts first, as separate statements outside a transaction: when its
    row write then fails on such a value, the shifts stay written and the task stays
    where it was (`Outcomes.UpdateTaskFails`, `Reorder.InterruptedMoveBreaksOrder`).
  - Each error is one `Error` value, whose `Message` is the text the handler throws.
- `Outcomes` (outcomes.dfy): what each step promises, stated through row ownership
  (`OwnsBoard`, `OwnsList`, `OwnsTask`). Each step gets:
  - which error happens exactly when;
  - what a success writes and what it leaves alone;
  - that `StoreValid`, and non-empty titles for valid inputs, are kept;
  - for creates and moves, that dense positions stay dense.
- `Queries` (queries.dfy): the three read handlers.
  - Children are sorted by position with an insertion sort, proved stable
    (`Queries.SortByKeyStable`): children of equal position keep their table order.
  - On a dense parent, a read returns the children at positions 0, 1, ..., n-1 in that order.
- `Handlers` (handlers.dfy): class `Database`, with one field per table, counter and clock,
  and one method per handler.
  - Each method updates the fields in place.
  - Each is proved to reach exactly the result and state of its step, and to keep `Valid()`.

Timestamps are ticks of a clock that every successful insert and update advances by one;
deletes write no timestamp and leave it alone. Each handler takes the caller's id as a
parameter, and the model keeps it so. The router (`index.ts:58-106`) passes the constant 1
for every call.

## Model

| member | source | states |
|---|---|---|
| Positions.Count | server/src/db/schema.ts:26 | Counts the rows of one parent: never more than the table has, and zero exactly when no row has that parent. |
| Positions.NextPosition | server/src/handlers/create_list.ts:25-33 | The allocator's result lies above every sibling's position, and either the position just below it is taken or the parent has no rows and the result is 0. |
| Positions.CountAppend | server/src/handlers/create_task.ts:39-48 | Appending a row adds one to its parent's count and leaves the other parents' counts alone. |
| Positions.NextPositionAppendOther | server/src/handlers/create_task.ts:27-37 | Appending a row of another parent does not move this parent's next position. |
| Positions.CountSameParents | server/src/handlers/update_task.ts:95-127 | Rewrites that keep every row's parent keep every parent's count. |
| Positions.CountMovedRow | server/src/handlers/update_task.ts:142-144 | When only one row changes parent, its old parent loses one row, its new parent gains one, and every other parent keeps its count. |
| Positions.DenseHasEvery | server/src/db/schema.ts:36 | In a dense parent, every position 0 .. n-1 is held by some row. |
| Positions.NextPositionOfDense | server/src/handlers/create_task.ts:27-37 | On a dense parent of n rows, the allocator hands out exactly n. |
| Positions.AppendKeepsDense | server/src/handlers/create_list.ts:25-43 | Appending at the allocated position keeps a dense parent dense and leaves other parents as they were. |
| Tables.Stored | server/src/db/schema.ts:15 | The value a `varchar(255)` column keeps is the input's prefix of length min(length, 255). |
| Tables.TrailingSpaceCut | server/src/db/schema.ts:15 | Worked example: 255 characters followed by one space fit the column and are stored without the space. |
| Tables.StoredFits | server/src/db/schema.ts:7-33 | A value that fits is its stored value followed only by spaces, and a non-empty value stays non-empty once stored. |
| Tables.TaskSlots | server/src/db/schema.ts:35-36 | The slot view has one entry per task, carrying its list and position. |
| Tables.ListSlots | server/src/db/schema.ts:25-26 | The slot view has one entry per list, carrying its board and position. |
| Tables.UniqueUsersDistinct | server/src/db/schema.ts:6-7 | The user lookup form of the primary key and unique e-mail holds exactly when no two users share an id or an e-mail. |
| Tables.UniqueBoardsDistinct | server/src/db/schema.ts:14 | The board primary key, in lookup form, holds exactly when no two boards share an id. |
| Tables.UniqueListsDistinct | server/src/db/schema.ts:23 | The list primary key, in lookup form, holds exactly when no two lists share an id. |
| Tables.UniqueTasksDistinct | server/src/db/schema.ts:32 | The task primary key, in lookup form, holds exactly when no two tasks share an id. |
| Tables.FindUser | server/src/db/schema.ts:6 | Finds a row with that id, or reports none exactly when no user has it. |
| Tables.FindUserByEmail | server/src/db/schema.ts:7 | Finds a row with that e-mail, or reports none exactly when no user has it. |
| Tables.FindBoard | server/src/db/schema.ts:14 | Finds a row with that id, or reports none exactly when no board has it. |
| Tables.FindList | server/src/db/schema.ts:23 | Finds a row with that id, or reports none exactly when no list has it. |
| Tables.FindTask | server/src/db/schema.ts:32 | Finds a row with that id, or reports none exactly when no task has it. |
| Tables.BoardOwner | server/src/handlers/create_list.ts:10-23 | The board lookup yields the board's `user_id`, or nothing exactly when the board is missing. |
| Tables.ListOwner | server/src/handlers/update_list.ts:10-25 | The list ⋈ board join yields the owning board's `user_id`, and nothing when the list or its board is missing. |
| Tables.TaskOwner | server/src/handlers/update_task.ts:10-26 | The task ⋈ list ⋈ board join yields the owner, and nothing when a link is missing. |
| Tables.OwnerChainComplete | server/src/db/schema.ts:17-35 | With the foreign keys in force the join never breaks: a task's owner is found exactly when the task exists, and it is the `user_id` of its list's board. |
| Tables.Filter | server/src/handlers/get_user_boards.ts:9-12 | A WHERE filter keeps exactly the rows that satisfy it, and no more rows than the table has. |
| Tables.FilterKeepsKeysUnique | server/src/db/schema.ts:14 | Filtering keeps a unique key unique. |
| Tables.TasksOutside | server/src/db/schema.ts:35 | The task cascade keeps exactly the tasks whose list is not deleted, and keeps task ids unique. |
| Tables.ListsOutside | server/src/db/schema.ts:25 | The list cascade keeps exactly the lists whose board is not deleted, and keeps list ids unique. |
| Tables.BoardsNotOwnedBy | server/src/db/schema.ts:17 | The board cascade keeps exactly the boards of other users, and keeps board ids unique. |
| Tables.UsersOtherThan | server/src/db/schema.ts:5-11 | Deleting a user row keeps exactly the other users, with their keys and e-mails unique. |
| Tables.TasksOtherThan | server/src/handlers/delete_task.ts:36-40 | Deleting by task id keeps exactly the other tasks, with ids unique. |
| Tables.ListsOtherThan | server/src/handlers/delete_list.ts:30-34 | Deleting by list id keeps exactly the other lists, with ids unique. |
| Tables.BoardsOtherThan | server/src/handlers/delete_board.ts:19-22 | Deleting by board id keeps exactly the other boards, with ids unique. |
| Tables.TaskDeleteKeepsConsistent | server/src/handlers/delete_task.ts:36-40 | Deleting a task keeps every key and foreign key. |
| Tables.ListCascadeKeepsConsistent | server/src/db/schema.ts:35 | Deleting a list together with its tasks keeps every key and foreign key. |
| Tables.BoardCascadeKeepsConsistent | server/src/db/schema.ts:25 | Deleting a board together with its lists and their tasks keeps every key and foreign key. |
| Tables.UserCascadeKeepsConsistent | server/src/db/schema.ts:17 | Deleting a user together with their boards, lists and tasks keeps every key and foreign key. |
| Tables.UsersKeepDistinctEmails | server/src/db/schema.ts:7 | Two different rows of a filtered users table have different e-mails. |
| Reorder.SiblingShift | server/src/handlers/update_task.ts:54-127 | The shift of a sibling is -1, 0 or +1, and it is 0 for a sibling of a list that is neither the source nor the target. |
| Reorder.CrossListInsertShifts | server/src/handlers/update_task.ts:56-93 | On a change of list with a position, making room in the target and then closing the source gap reaches `Relocated`. |
| Reorder.CrossListAppendShifts | server/src/handlers/update_task.ts:70-93 | On a change of list without a position, closing the source gap reaches `Relocated` at the target's next position. |
| Reorder.MoveDownShifts | server/src/handlers/update_task.ts:100-111 | A move down within the list reaches `Relocated`: the siblings in (old, new] step back one place. |
| Reorder.MoveUpShifts | server/src/handlers/update_task.ts:112-124 | A move up within the list reaches `Relocated`: the siblings in [new, old) step forward one place. |
| Reorder.StayShifts | server/src/handlers/update_task.ts:95 | Keeping the list and the position moves nothing. |
| Reorder.RelocatedFrame | server/src/handlers/update_task.ts:51-148 | A move keeps every row and id in table order and changes no column but `list_id` and `position`. Only the moved task changes list, and only rows of the source and target lists change position. |
| Reorder.MoveCounts | server/src/handlers/update_task.ts:142-148 | The source list loses the task, the target list gains it, and every other list keeps its count. |
| Reorder.RelocatedSlots | server/src/handlers/update_task.ts:51-127 | The move seen on slots is the moved row going to its target with its siblings shifted. |
| Reorder.SameListMoveKeepsDense | server/src/handlers/update_task.ts:95-127 | A move inside a dense list to a position it has keeps the list dense. |
| Reorder.WithinParentMove | server/src/handlers/update_task.ts:95-127 | On slots: a move inside a dense parent to a position 0 .. n-1 keeps it dense. |
| Reorder.SiblingApart | server/src/db/schema.ts:36 | Two different rows of a dense parent hold different positions. |
| Reorder.SourceClosesGap | server/src/handlers/update_task.ts:84-93 | When a task leaves for another list, the source list closes the gap and stays dense. |
| Reorder.TargetOpensSlot | server/src/handlers/update_task.ts:56-69 | A target list receiving a task at a position 0 .. n opens exactly that slot and stays dense. |
| Reorder.OtherListUnmoved | server/src/handlers/update_task.ts:54-93 | A list that is neither the source nor the target keeps its slots. |
| Reorder.CrossListMoveKeepsDense | server/src/handlers/update_task.ts:54-93 | A move to another list at a position 0 .. n keeps both lists dense. |
| Reorder.UpdateKeepsDense | server/src/handlers/update_task.ts:51-148 | When the task's list and its destination are dense and the requested position is in range, every dense list stays dense. |
| Reorder.UpdateConservesTasks | server/src/handlers/update_task.ts:51-148 | An update keeps the table's size, and on a change of list the source has one task fewer and the target one more. |
| Reorder.UpdateWithoutMove | server/src/handlers/update_task.ts:129-148 | An update naming no new list or position touches no other task. The task keeps its list and position, and only the given title and description and the stamp are written. |
| Reorder.MoveDownWithinList | server/src/handlers/update_task.ts:100-111 | Worked example: in A = T1@0, T2@1, T3@2, moving T1 to 2 gives T2@0, T3@1, T1@2. |
| Reorder.MoveToFrontOfOtherList | server/src/handlers/update_task.ts:56-93 | Worked example: moving T1 from A = T1@0, T2@1 to position 0 of B = T3@0 gives B = T1@0, T3@1 and A = T2@0. |
| Reorder.OutOfRangeMoveLeavesGap | server/src/handlers/update_task.ts:100-126 | Targets are not clamped: in a list of three, moving the first task to position 5 leaves positions 0, 1, 5, which is not dense. |
| Reorder.ShiftSiblings | server/src/handlers/update_task.ts:51-127 | The shift statements, run in order, leave every task but the moved one where `Relocated` puts it. They return the new list and position the source computes. |
| Reorder.ApplyTaskUpdate | server/src/handlers/update_task.ts:51-157 | The shifts followed by the task's own write: the write happens exactly when no given title or description holds U+0000 and a given title fits `varchar(255)` (spaces past the 255th character are cut, not rejected), and then the table is exactly `UpdatedTasks`; otherwise it is the shifts alone, `ShiftedTasks`. |
| Reorder.ShiftedFrame | server/src/handlers/update_task.ts:51-127 | The shifts alone leave the moved task as it was, change no column but `position` of any row, and touch only rows of the source and target lists. |
| Reorder.CrossListShifts | server/src/handlers/update_task.ts:56-93 | Worked example: moving T1 from A = T1@0, T2@1, T3@2 to position 0 of B = U1@0, U2@1, the shifts alone give A = T1@0, T2@0, T3@1 and B = U1@1, U2@2. |
| Reorder.InterruptedMoveBreaksOrder | server/src/handlers/update_task.ts:56-155 | Worked example: in that case both lists were dense before and neither is dense after the shifts without the row write: A has two tasks at 0, and B has none at 0. |
| Store.AddUserKeepsConsistent | server/src/db/schema.ts:5-11 | Inserting a user with a fresh id and e-mail keeps every key and foreign key. |
| Store.AddBoardKeepsConsistent | server/src/db/schema.ts:13-20 | Inserting a board with a fresh id and an existing owner keeps every key and foreign key. |
| Store.AddListKeepsConsistent | server/src/db/schema.ts:22-29 | Inserting a list with a fresh id and an existing board keeps every key and foreign key. |
| Store.AddTaskKeepsConsistent | server/src/db/schema.ts:31-39 | Inserting a task with a fresh id and an existing list keeps every key and foreign key. |
| Store.ReplaceBoardKeepsConsistent | server/src/handlers/update_board.ts:35-43 | Rewriting a board in place with its key and owner kept keeps every key and foreign key. |
| Store.ReplaceListKeepsConsistent | server/src/handlers/update_list.ts:40-45 | Rewriting a list in place with its key and board kept keeps every key and foreign key. |
| Store.RewriteTasksKeepsConsistent | server/src/handlers/update_task.ts:150-155 | Rewriting the tasks table row by row, keeping keys and pointing at existing lists, keeps consistency. |
| Store.TickKeepsStore | server/src/db/schema.ts:37-38 | Advancing the clock keeps every stamp in the past. |
| Store.InsertUserKeepsStore | server/src/handlers/create_user.ts:12-19 | Inserting a user under the next serial id with a fresh e-mail keeps the store valid. |
| Store.UserDeleteKeepsStore | server/src/db/schema.ts:17 | Deleting a user with the cascades keeps the store valid. |
| Store.CreateBoardKeepsStore | server/src/handlers/create_board.ts:9-16 | Inserting a board of an existing user under the next serial id keeps the store valid. |
| Store.UpdateBoardKeepsStore | server/src/handlers/update_board.ts:22-43 | Rewriting a board with its key, owner and creation stamp kept, one tick later, keeps the store valid. |
| Store.BoardDeleteKeepsStore | server/src/handlers/delete_board.ts:19-22 | Deleting a board with its cascades keeps the store valid. |
| Store.CreateListKeepsStore | server/src/handlers/create_list.ts:35-43 | Inserting a list of an existing board under the next serial id keeps the store valid. |
| Store.UpdateListKeepsStore | server/src/handlers/update_list.ts:27-45 | Rewriting a list with its key, board and creation stamp kept, one tick later, keeps the store valid. |
| Store.ListDeleteKeepsStore | server/src/handlers/delete_list.ts:30-34 | Deleting a list with its cascade keeps the store valid. |
| Store.CreateTaskKeepsStore | server/src/handlers/create_task.ts:39-48 | Inserting a task of an existing list under the next serial id keeps the store valid. |
| Store.TaskDeleteKeepsStore | server/src/handlers/delete_task.ts:36-40 | Deleting a task keeps the store valid. |
| Store.UpdatedTasksKeepKeys | server/src/handlers/update_task.ts:142-148 | The update changes no task id and points the task at its destination. |
| Store.UpdatedTasksKeepStamps | server/src/handlers/update_task.ts:129-132 | An update stamped no earlier than any row keeps every id issued and every stamp in order. |
| Store.UpdatedTasksKeepTitles | server/src/handlers/update_task.ts:134-136 | A given title that is non-empty keeps every title non-empty. |
| Store.UpdateTaskKeepsStore | server/src/handlers/update_task.ts:28-157 | updateTask on an existing task towards an existing list keeps the store valid. |
| Store.ShiftedTasksKeepKeys | server/src/handlers/update_task.ts:56-127 | The shifts alone change no task id and no task's list. |
| Store.ShiftedTasksKeepStamps | server/src/handlers/update_task.ts:56-127 | The shifts alone keep every id issued and every stamp in order. |
| Store.ShiftedTasksKeepTitles | server/src/handlers/update_task.ts:56-127 | The shifts alone keep every title non-empty. |
| Store.ShiftedTasksKeepStore | server/src/handlers/update_task.ts:56-155 | The store left by a row write that fails after the shifts is still valid, and keeps non-empty titles. |
| Store.AppendTaskKeepsDense | server/src/handlers/create_task.ts:27-48 | Appending a task at its list's next position keeps every dense list dense. |
| Store.AppendListKeepsDense | server/src/handlers/create_list.ts:25-43 | Appending a list at its board's next position keeps every dense board dense. |
| Store.AppendTaskElsewhere | server/src/handlers/create_task.ts:27-37 | Appending a task to another list leaves this list's next position as it was. |
| Store.AppendListElsewhere | server/src/handlers/create_list.ts:25-33 | Appending a list to another board leaves this board's next position as it was. |
| Steps.BoardOwnerMeansOwns | server/src/handlers/create_list.ts:10-23 | The board lookup names the caller exactly when the caller owns a board with that id. |
| Steps.ListOwnerMeansOwns | server/src/handlers/update_list.ts:10-25 | The list join fails exactly when the list is missing, and names the caller exactly when the caller owns the list. |
| Steps.TaskOwnerMeansOwns | server/src/handlers/update_task.ts:10-26 | The task join fails exactly when the task is missing, and names the caller exactly when the caller owns the task. |
| Outcomes.InsertUserOutcome | server/src/handlers/create_user.ts:12-19 | The insert fails with the encoding error exactly when the e-mail or name holds U+0000, which the input schema lets through (schema.ts:54-58). Otherwise it fails with "value too long" exactly when one of them does not fit its `varchar(255)` column (db/schema.ts:7,9). Otherwise it fails with the unique-e-mail error exactly when the stored e-mail, cut to 255 characters, is taken. A failure changes nothing. Otherwise it adds one fresh user with the e-mail and name as stored. It keeps the store valid. |
| Outcomes.DeleteUserOutcome | server/src/db/schema.ts:17-35 | Deleting a user removes exactly their row, the boards they own, the lists on those boards and the tasks on those lists. It keeps the store valid. |
| Outcomes.CreateBoardOutcome | server/src/handlers/create_board.ts:9-20 | It fails with the encoding error exactly when the title or description holds U+0000 (schema.ts:68-71); otherwise with "value too long" exactly when the title does not fit `varchar(255)` (db/schema.ts:15); and otherwise with the foreign-key error exactly when the owner is not a user; a failure changes nothing. Otherwise it adds one fresh board with the input's title as stored (cut to 255 characters) and its description, owned by the caller, and nothing else changes. It keeps the store valid. |
| Outcomes.CreateBoardCutsTrailingSpace | server/src/handlers/create_board.ts:9-20 | Worked example: an owner's title of 255 characters plus one space creates the board with the first 255 characters as its title. |
| Outcomes.UpdateBoardChecks | server/src/handlers/update_board.ts:10-20 | It fails with "Board not found or access denied" exactly when the caller does not own the board; past that check, with the encoding error exactly when a given title or description holds U+0000 (schema.ts:91-95), then with "value too long" exactly when a given title does not fit `varchar(255)`; it succeeds exactly when none holds. A failure changes nothing. |
| Outcomes.UpdateBoardEffect | server/src/handlers/update_board.ts:22-49 | A success rewrites that board alone. A given title (as stored, cut to 255 characters) or description is written (a description may become null) and an absent one is kept. The id, owner and creation stamp stay, and `updated_at` grows. |
| Outcomes.UpdateBoardKeepsValid | server/src/handlers/update_board.ts:35-43 | updateBoard keeps the store valid, and titles non-empty for a valid input. |
| Outcomes.DeleteBoardOutcome | server/src/handlers/delete_board.ts:9-28 | It fails exactly when the caller does not own the board. Otherwise it returns that board and removes it, its lists and their tasks, and every other row stays. It keeps the store valid. |
| Outcomes.CreateListChecks | server/src/handlers/create_list.ts:10-23 | "Board not found" exactly when the board is missing, "Unauthorized" exactly when the caller does not own it, the encoding error exactly when they do and the title holds U+0000 (schema.ts:75-78), "value too long" exactly when they do, it does not, and it does not fit `varchar(255)` (db/schema.ts:24), success exactly when they do and it is neither. A failure changes nothing. |
| Outcomes.CreateListEffect | server/src/handlers/create_list.ts:25-45 | A success adds one fresh list with the input's title as stored and its board at the board's next position, and nothing else changes. |
| Outcomes.CreateListKeepsValid | server/src/handlers/create_list.ts:35-43 | createList keeps the store valid, and titles non-empty for a valid input. |
| Outcomes.CreateListKeepsDense | server/src/handlers/create_list.ts:25-43 | A dense board stays dense, and the new list of a dense board of n lists lands at position n. |
| Outcomes.CreateListElsewhere | server/src/handlers/create_list.ts:25-33 | createList does not move another board's next position. |
| Outcomes.UpdateListChecks | server/src/handlers/update_list.ts:10-25 | "List not found" exactly when the list is missing, "Access denied" exactly when the caller does not own it, the encoding error exactly when they do and a given title holds U+0000 (schema.ts:99-103), "value too long" exactly when they do, it does not, and it does not fit `varchar(255)`, success exactly when they do and it is neither. A failure changes nothing. |
| Outcomes.UpdateListEffect | server/src/handlers/update_list.ts:27-47 | A success rewrites that list alone. A given title (as stored) or position is written verbatim, with no sibling shift, and an absent one is kept. The id, board and creation stamp stay, and `updated_at` grows. |
| Outcomes.UpdateListKeepsValid | server/src/handlers/update_list.ts:40-45 | updateList keeps the store valid, and titles non-empty for a valid input. |
| Outcomes.DeleteListOutcome | server/src/handlers/delete_list.ts:10-40 | "List not found" / "Not authorized" exactly as ownership says. A success returns the list and removes it and its tasks, and every other row keeps its position. It keeps the store valid. |
| Outcomes.CreateTaskChecks | server/src/handlers/create_task.ts:10-25 | "List not found" exactly when the list is missing, "Unauthorized" exactly when the caller does not own it, the encoding error exactly when they do and the title or description holds U+0000 (schema.ts:82-86), "value too long" exactly when they do, neither does, and the title does not fit `varchar(255)` (db/schema.ts:33), success exactly when they do and it is neither. A failure changes nothing. |
| Outcomes.CreateTaskEffect | server/src/handlers/create_task.ts:27-50 | A success adds one fresh task with the input's title as stored, its description and list, above every task of that list, and nothing else changes. |
| Outcomes.CreateTaskKeepsValid | server/src/handlers/create_task.ts:39-48 | createTask keeps the store valid, and titles non-empty for a valid input. |
| Outcomes.CreateTaskKeepsDense | server/src/handlers/create_task.ts:27-48 | A dense list stays dense, and the new task of a dense list of n tasks lands at position n. |
| Outcomes.CreateTaskElsewhere | server/src/handlers/create_task.ts:27-37 | createTask does not move another list's next position. |
| Outcomes.DeleteTaskOutcome | server/src/handlers/delete_task.ts:10-46 | "Task not found" / "Unauthorized" exactly as ownership says. A success returns the task and removes it alone, with no sibling renumbered. It keeps the store valid. |
| Outcomes.UpdateTaskChecks | server/src/handlers/update_task.ts:10-49 | The four check errors happen each exactly when ownership says, in the source's order; past them, the encoding error exactly when a given title or description holds U+0000 (schema.ts:107-113), then "value too long" exactly when a given title does not fit `varchar(255)`; success exactly when none holds. A failed check changes nothing, so no shift runs before a check fails. |
| Outcomes.UpdateTaskEffect | server/src/handlers/update_task.ts:51-157 | A success writes `UpdatedTasks`. The task lands in its destination at its target position with the given fields, a title as stored. Every other task keeps all columns but `position`, tasks outside the two lists are untouched, and no other table changes. |
| Outcomes.UpdateTaskTarget | server/src/handlers/update_task.ts:20-49 | Passing the checks means the task exists and its destination list exists. |
| Outcomes.UpdateTaskFails | server/src/handlers/update_task.ts:20-155 | The handler fails exactly when a check fails, a given title or description holds U+0000, or a given title does not fit `varchar(255)`. A failed check is that check's error and leaves the store unchanged. Such a value fails only the row write at the end (the encoding error first, then "value too long"), so the store keeps the sibling shifts (`ShiftedTasks`) and the task itself is unchanged. |
| Outcomes.UpdateTaskShape | server/src/handlers/update_task.ts:129-157 | A success writes the updated tasks table one tick later and returns the task's new row. |
| Outcomes.UpdateTaskKeepsValid | server/src/handlers/update_task.ts:51-157 | updateTask keeps the store valid, and titles non-empty for a valid input, also when its row write fails after the shifts. |
| Outcomes.UpdateTaskConserves | server/src/handlers/update_task.ts:54-148 | The same task ids remain. The source list has one task fewer and the destination one more, and every other list keeps its count. |
| Outcomes.UpdateTaskKeepsDense | server/src/handlers/update_task.ts:51-148 | With dense source and destination lists and an in-range position, every dense list stays dense. |
| Queries.Insert | server/src/handlers/get_list_with_tasks.ts:28-33 | Inserting into a sequence adds exactly that element: the length grows by one and the multiset gains it. |
| Queries.InsertSorted | server/src/handlers/get_list_with_tasks.ts:32 | Inserting into a sequence sorted by key keeps it sorted. |
| Queries.SortByKey | server/src/handlers/get_board_with_lists.ts:24-29 | `ORDER BY position ASC`: the result is a permutation of the input, sorted by the key, and keeps distinct keys distinct. |
| Queries.InsertAmongEqualKeys | server/src/handlers/get_list_with_tasks.ts:28-33 | Among the elements of its own key, the inserted element goes first and the others keep their order. |
| Queries.SortByKeyStable | server/src/handlers/get_list_with_tasks.ts:28-33 | The sort is stable: for every key, the elements with that key appear in the same order as in the input. |
| Queries.TasksOfList | server/src/handlers/get_list_with_tasks.ts:29-31 | Holds exactly the tasks of that list. |
| Queries.ListsOfBoard | server/src/handlers/get_board_with_lists.ts:25-27 | Holds exactly the lists of that board. |
| Queries.GetUserBoards | server/src/handlers/get_user_boards.ts:9-14 | Returns exactly the caller's boards, and is empty exactly when the caller owns none. |
| Queries.GetBoardWithLists | server/src/handlers/get_board_with_lists.ts:10-40 | Null exactly when no board with that id is owned by the caller. Otherwise it returns that board's columns with every list of the board, sorted by position with lists of equal position in table order, and no other list. |
| Queries.GetListWithTasks | server/src/handlers/get_list_with_tasks.ts:10-43 | Null when the list is missing or the caller does not own its board. Otherwise it returns that list's columns with every task of the list, sorted by position with tasks of equal position in table order, and no other task. |
| Queries.BoardReadGate | server/src/handlers/get_board_with_lists.ts:10-20 | With unique board ids, the read answers exactly when the board's owner is the caller. |
| Queries.ListReadGate | server/src/handlers/get_list_with_tasks.ts:10-26 | With unique ids, the read answers exactly when the list exists and the caller owns its board. |
| Queries.FilterByParentCount | server/src/handlers/get_list_with_tasks.ts:29-31 | Filtering by parent keeps as many rows as the parent has. |
| Queries.FilterByParentDistinct | server/src/handlers/get_list_with_tasks.ts:29-31 | Filtering a parent with distinct positions keeps positions distinct. |
| Queries.SortedDistinctInRange | server/src/handlers/get_list_with_tasks.ts:32 | A sorted run of n distinct keys drawn from 0 .. n-1 is exactly 0, 1, ..., n-1. |
| Queries.DenseChildrenInOrder | server/src/handlers/get_list_with_tasks.ts:28-33 | Filtering on a dense parent and sorting by position yields exactly positions 0, 1, ..., n-1, in order. |
| Queries.DenseListReadsInOrder | server/src/handlers/get_list_with_tasks.ts:28-43 | Reading a dense list returns its tasks at positions 0, 1, ..., n-1, in that order. |
| Queries.DenseBoardReadsInOrder | server/src/handlers/get_board_with_lists.ts:24-40 | Reading a board whose lists are dense returns them at positions 0, 1, ..., n-1, in that order. |
| Handlers.Database.constructor | server/src/db/schema.ts:5-39 | A new database is empty and valid, with every serial at 1. |
| Handlers.Database.InsertUser | server/src/handlers/create_user.ts:12-21 | Reaches exactly the result and state of the users insert, and keeps the database valid. |
| Handlers.Database.DeleteUser | server/src/db/schema.ts:17-35 | Removes the user with all cascades, as the delete step says, and keeps the database valid. |
| Handlers.Database.CreateBoard | server/src/handlers/create_board.ts:9-20 | Reaches exactly the result and state of createBoard, and keeps the database valid. |
| Handlers.Database.UpdateBoard | server/src/handlers/update_board.ts:10-49 | Reaches exactly the result and state of updateBoard, and keeps the database valid. |
| Handlers.Database.DeleteBoard | server/src/handlers/delete_board.ts:9-28 | Reaches exactly the result and state of deleteBoard, and keeps the database valid. |
| Handlers.Database.CreateList | server/src/handlers/create_list.ts:10-45 | Reaches exactly the result and state of createList, and keeps the database valid. |
| Handlers.Database.UpdateList | server/src/handlers/update_list.ts:10-47 | Reaches exactly the result and state of updateList, and keeps the database valid. |
| Handlers.Database.DeleteList | server/src/handlers/delete_list.ts:10-40 | Reaches exactly the result and state of deleteList, and keeps the database valid. |
| Handlers.Database.CreateTask | server/src/handlers/create_task.ts:10-50 | Reaches exactly the result and state of createTask, and keeps the database valid. |
| Handlers.Database.DeleteTask | server/src/handlers/delete_task.ts:10-46 | Reaches exactly the result and state of deleteTask, and keeps the database valid. |
| Handlers.Database.CheckTaskUpdate | server/src/handlers/update_task.ts:10-49 | The lookups of updateTask, run against the fields, report the first failing check, or none. |
| Handlers.Database.UpdateTask | server/src/handlers/update_task.ts:10-157 | Runs the checks, then the sibling shifts and the task's write in place. It reaches exactly the result and state of updateTask and keeps the database valid. |

## Left out

- Password hashing, login and the router are not modelled. Login's token is a placeholder
  string that no route reads. The caller's id is a parameter, and a user row carries no
  password hash.
- Ids are integers here. The input schemas accept any number as an id (`z.number()`), so a
  fractional id such as 1.5 passes validation. PostgreSQL then rejects it as "invalid input
  syntax for type integer" in the query, and the handler rethrows that error. The model
  has no such error path.
- The users table is modelled only as far as the core needs it:
  - the insert of create_user, with its unique e-mail;
  - a user delete, to state the cascade from users to boards.
  The zod checks on e-mail syntax and password length are not modelled.
- Timestamps are ticks of an abstract clock that every successful insert and update advances
  by one, not wall-clock dates. Deletes and failed steps do not tick.
- Transactions and concurrency are not modelled. updateTask runs several statements without
  a transaction, and the model runs them one after another with nothing in between.
- `integer` columns are unbounded here. A position or id beyond 32 bits, which would make
  PostgreSQL raise an error, is not modelled.
- A serial is consumed by a failed insert in PostgreSQL but not in the model. Only the
  fact that ids are fresh is used.
- When one statement breaks several constraints, the model reports a value holding U+0000
  first (PostgreSQL refuses the parameter before the statement runs), then the value that is
  too long for its column, then the unique e-mail or the foreign key, as PostgreSQL checks a
  value's length when it forms the row. The `text` columns (`description`, `password_hash`)
  have no length limit.
- A constraint violation is one `Error` value with a message close to PostgreSQL's; the
  exact wording of the database's error is not modelled.
- The handlers' "Failed to delete …" and "Board update failed" branches cannot be reached
  once the owner check has passed, because nothing runs in between. They are not modelled.
- Rows with equal positions are returned in table order (`Queries.SortByKeyStable`). The
  database leaves their order unspecified, so this is one of the orders it may return.
- `getUserBoards` returns boards in table order, because the query has no ORDER BY.
- Queries.GetListWithTasks: states "null when the list is missing or not owned" one way
  only. `Queries.ListReadGate` gives the if-and-only-if under unique ids.
- Four behaviours of the code that keep positions from being an invariant:
  - deleting a task or list does not renumber the remaining siblings;
  - updateTask does not clamp a requested position (see `Reorder.OutOfRangeMoveLeavesGap`);
  - updateList writes a new position verbatim, without shifting the other lists;
  - the sibling shifts of updateTask do not touch the siblings' `updated_at`.
- Dense positions are therefore not an invariant of the store. They are proved preserved
  under the conditions each lemma names.
