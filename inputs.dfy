/**
 * The request shapes the router validates before a handler runs, and the two aggregate
 * shapes the read handlers return. An optional field is an `Option`; a nullable one is an
 * `Option` too, so an optional nullable `description` is an `Option<Option<string>>`:
 * `None` leaves the column alone, `Some(None)` sets it to null.
 */
module Inputs {
  import opened Tables

  datatype CreateBoardInput = CreateBoardInput(title: string, description: Option<string>)

  datatype CreateListInput = CreateListInput(title: string, board_id: int)

  datatype CreateTaskInput = CreateTaskInput(title: string, description: Option<string>, list_id: int)

  datatype UpdateBoardInput = UpdateBoardInput(
    id: int, title: Option<string>, description: Option<Option<string>>)

  datatype UpdateListInput = UpdateListInput(id: int, title: Option<string>, position: Option<int>)

  datatype UpdateTaskInput = UpdateTaskInput(
    id: int, title: Option<string>, description: Option<Option<string>>,
    list_id: Option<int>, position: Option<int>)

  /** A board with its lists. */
  datatype BoardWithLists = BoardWithLists(
    id: int, title: string, description: Option<string>, user_id: int,
    created_at: nat, updated_at: nat, lists: seq<List>)

  /** A list with its tasks. */
  datatype ListWithTasks = ListWithTasks(
    id: int, title: string, board_id: int, position: int,
    created_at: nat, updated_at: nat, tasks: seq<Task>)

  // Validation: a title, where the input carries one, is at least one character long.
  // Positions are integers with no lower bound; ids and foreign keys are unconstrained.

  predicate TitleOk(title: string) { |title| >= 1 }

  predicate OptionalTitleOk(title: Option<string>) { title.Some? ==> TitleOk(title.value) }

  predicate ValidCreateBoard(input: CreateBoardInput) { TitleOk(input.title) }

  predicate ValidCreateList(input: CreateListInput) { TitleOk(input.title) }

  predicate ValidCreateTask(input: CreateTaskInput) { TitleOk(input.title) }

  predicate ValidUpdateBoard(input: UpdateBoardInput) { OptionalTitleOk(input.title) }

  predicate ValidUpdateList(input: UpdateListInput) { OptionalTitleOk(input.title) }

  predicate ValidUpdateTask(input: UpdateTaskInput) { OptionalTitleOk(input.title) }

  // Encoding: every string an input carries into a row holds no U+0000. An update's
  // `description` may be absent, null or a value; only a value is checked.

  predicate NoNulInGiven(d: Option<Option<string>>) { d.Some? ==> NoNulIn(d.value) }

  predicate EncodesCreateBoard(input: CreateBoardInput)
  {
    NoNul(input.title) && NoNulIn(input.description)
  }

  predicate EncodesCreateList(input: CreateListInput) { NoNul(input.title) }

  predicate EncodesCreateTask(input: CreateTaskInput)
  {
    NoNul(input.title) && NoNulIn(input.description)
  }

  predicate EncodesUpdateBoard(input: UpdateBoardInput)
  {
    NoNulIn(input.title) && NoNulInGiven(input.description)
  }

  predicate EncodesUpdateList(input: UpdateListInput) { NoNulIn(input.title) }

  predicate EncodesUpdateTask(input: UpdateTaskInput)
  {
    NoNulIn(input.title) && NoNulInGiven(input.description)
  }

  /** Every row in the store carries a non-empty title. */
  ghost predicate TitlesNonEmpty(bs: seq<Board>, ls: seq<List>, ts: seq<Task>)
  {
    && (forall b :: b in bs ==> TitleOk(b.title))
    && (forall l :: l in ls ==> TitleOk(l.title))
    && (forall t :: t in ts ==> TitleOk(t.title))
  }
}
