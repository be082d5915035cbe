/**
 * The four tables of the database: users, boards, lists and tasks, with their primary keys,
 * the foreign keys board -> user, list -> board, task -> list (all ON DELETE CASCADE), and
 * the ownership chain that the handlers walk: task -> list -> board -> user_id.
 *
 * A table is a sequence of rows in table order. Timestamps are ticks of an abstract clock.
 */
module Tables {
  import opened Positions

  datatype Option<T> = None | Some(value: T)
  {
    function GetOr(default: T): T
    {
      match this
      case Some(v) => v
      case None => default
    }
  }

  /** A user row; the password hash is not modelled. */
  datatype User = User(id: int, email: string, name: string, created_at: nat)

  datatype Board = Board(
    id: int, title: string, description: Option<string>, user_id: int,
    created_at: nat, updated_at: nat)

  datatype List = List(
    id: int, title: string, board_id: int, position: int,
    created_at: nat, updated_at: nat)

  datatype Task = Task(
    id: int, title: string, description: Option<string>, list_id: int, position: int,
    created_at: nat, updated_at: nat)

  // ---------------------------------------------------------------------------------------
  // Column widths

  /** The width of every `varchar` column: a user's e-mail and name, and the three titles. */
  const VarcharWidth := 255

  /**
   * The `varchar(255)` columns accept `s`: it has at most 255 characters, or every character
   * past the 255th is a space, which PostgreSQL cuts off (section 8.3 of its manual). Any
   * other longer value makes its INSERT or UPDATE fail.
   */
  predicate Fits(s: string)
  {
    |s| <= VarcharWidth || forall i :: VarcharWidth <= i < |s| ==> s[i] == ' '
  }

  /** A value that is either not given or fits. */
  predicate FitsIfGiven(s: Option<string>) { s.Some? ==> Fits(s.value) }

  /** The value a `varchar(255)` column stores for `s`: its first 255 characters. */
  function Stored(s: string): (r: string)
    ensures |r| == if |s| <= VarcharWidth then |s| else VarcharWidth
    ensures r == s[..|r|]
  {
    if |s| <= VarcharWidth then s else s[..VarcharWidth]
  }

  /** The stored value of a given new value, or `current` when none is given. */
  function StoredOr(s: Option<string>, current: string): string
  {
    if s.Some? then Stored(s.value) else current
  }

  /** A title of 255 characters and one trailing space fits, and is stored without the space. */
  lemma {:induction false} TrailingSpaceCut(s: string)
    requires |s| == VarcharWidth
    ensures Fits(s + " ") && Stored(s + " ") == s
  {
    assert (s + " ")[..VarcharWidth] == s;
  }

  /** A value that fits is stored as itself followed by nothing but the spaces it loses. */
  lemma {:induction false} StoredFits(s: string)
    requires Fits(s)
    ensures s == Stored(s) + seq(|s| - |Stored(s)|, _ => ' ')
    ensures |s| > 0 ==> |Stored(s)| > 0
  {
    var r := Stored(s);
    var pad := seq(|s| - |r|, _ => ' ');
    forall i | 0 <= i < |s| ensures s[i] == (r + pad)[i] {
      if i >= |r| {
        assert (r + pad)[i] == pad[i - |r|];
      }
    }
  }

  // ---------------------------------------------------------------------------------------
  // Encoding

  /**
   * PostgreSQL's text types cannot hold the character U+0000: a parameter holding it is
   * refused ("invalid byte sequence for encoding UTF8: 0x00") before its statement runs.
   */
  predicate NoNul(s: string) { forall i :: 0 <= i < |s| ==> s[i] != '\0' }

  /** A value that is either not given (or null) or holds no U+0000. */
  predicate NoNulIn(s: Option<string>) { s.Some? ==> NoNul(s.value) }

  /** The ordering data of the tasks table: each task's list and position. */
  function TaskSlots(ts: seq<Task>): (s: seq<Slot>)
    ensures |s| == |ts|
    ensures forall i :: 0 <= i < |ts| ==> s[i] == Slot(ts[i].list_id, ts[i].position)
  {
    if ts == [] then [] else [Slot(ts[0].list_id, ts[0].position)] + TaskSlots(ts[1..])
  }

  /** The ordering data of the lists table: each list's board and position. */
  function ListSlots(ls: seq<List>): (s: seq<Slot>)
    ensures |s| == |ls|
    ensures forall i :: 0 <= i < |ls| ==> s[i] == Slot(ls[i].board_id, ls[i].position)
  {
    if ls == [] then [] else [Slot(ls[0].board_id, ls[0].position)] + ListSlots(ls[1..])
  }

  // ---------------------------------------------------------------------------------------
  // Keys

  function UserIds(us: seq<User>): set<int> { set u | u in us :: u.id }
  function BoardIds(bs: seq<Board>): set<int> { set b | b in bs :: b.id }
  function ListIds(ls: seq<List>): set<int> { set l | l in ls :: l.id }
  function TaskIds(ts: seq<Task>): set<int> { set t | t in ts :: t.id }

  /** Ids of the lists that belong to one of `boardIds`: the lists a board delete cascades to. */
  function ListIdsOfBoards(ls: seq<List>, boardIds: set<int>): set<int>
  {
    set l | l in ls && l.board_id in boardIds :: l.id
  }

  /** Ids of the boards `userId` owns: the boards a user delete cascades to. */
  function BoardIdsOfUser(bs: seq<Board>, userId: int): set<int>
  {
    set b | b in bs && b.user_id == userId :: b.id
  }

  /**
   * Primary key and unique e-mail of users: the lookup by a row's id, and the lookup by its
   * e-mail, find that very row.
   */
  ghost predicate UniqueUsers(us: seq<User>)
  {
    && (forall i {:trigger FindUser(us, us[i].id)} :: 0 <= i < |us| ==> FindUser(us, us[i].id) == Some(i))
    && (forall i {:trigger FindUserByEmail(us, us[i].email)} :: 0 <= i < |us| ==>
          FindUserByEmail(us, us[i].email) == Some(i))
  }

  /** Primary key of boards: the lookup by a row's id finds that very row. */
  ghost predicate UniqueBoards(bs: seq<Board>)
  {
    forall i {:trigger FindBoard(bs, bs[i].id)} :: 0 <= i < |bs| ==> FindBoard(bs, bs[i].id) == Some(i)
  }

  /** Primary key of lists: the lookup by a row's id finds that very row. */
  ghost predicate UniqueLists(ls: seq<List>)
  {
    forall i {:trigger FindList(ls, ls[i].id)} :: 0 <= i < |ls| ==> FindList(ls, ls[i].id) == Some(i)
  }

  /** Primary key of tasks: the lookup by a row's id finds that very row. */
  ghost predicate UniqueTasks(ts: seq<Task>)
  {
    forall i {:trigger FindTask(ts, ts[i].id)} :: 0 <= i < |ts| ==> FindTask(ts, ts[i].id) == Some(i)
  }

  ghost predicate DistinctUsers(us: seq<User>)
  {
    forall i, j :: 0 <= i < j < |us| ==> us[i].id != us[j].id && us[i].email != us[j].email
  }

  ghost predicate DistinctBoardIds(bs: seq<Board>)
  {
    forall i, j :: 0 <= i < j < |bs| ==> bs[i].id != bs[j].id
  }

  ghost predicate DistinctListIds(ls: seq<List>)
  {
    forall i, j :: 0 <= i < j < |ls| ==> ls[i].id != ls[j].id
  }

  ghost predicate DistinctTaskIds(ts: seq<Task>)
  {
    forall i, j :: 0 <= i < j < |ts| ==> ts[i].id != ts[j].id
  }

  /** A key is unique exactly when no two rows share it. */
  lemma UniqueUsersDistinct(us: seq<User>)
    ensures UniqueUsers(us) <==> DistinctUsers(us)
  {
    if UniqueUsers(us) {
      forall i, j | 0 <= i < j < |us| ensures us[i].id != us[j].id && us[i].email != us[j].email {
        assert FindUser(us, us[i].id) == Some(i) && FindUser(us, us[j].id) == Some(j);
        assert FindUserByEmail(us, us[i].email) == Some(i) && FindUserByEmail(us, us[j].email) == Some(j);
      }
    }
    if DistinctUsers(us) {
      forall i | 0 <= i < |us| ensures FindUser(us, us[i].id) == Some(i) {
        var k := FindUser(us, us[i].id).value;
      }
      forall i | 0 <= i < |us| ensures FindUserByEmail(us, us[i].email) == Some(i) {
        var k := FindUserByEmail(us, us[i].email).value;
      }
    }
  }

  lemma UniqueBoardsDistinct(bs: seq<Board>)
    ensures UniqueBoards(bs) <==> DistinctBoardIds(bs)
  {
    if UniqueBoards(bs) {
      forall i, j | 0 <= i < j < |bs| ensures bs[i].id != bs[j].id {
        assert FindBoard(bs, bs[i].id) == Some(i) && FindBoard(bs, bs[j].id) == Some(j);
      }
    }
    if DistinctBoardIds(bs) {
      forall i | 0 <= i < |bs| ensures FindBoard(bs, bs[i].id) == Some(i) {
        var k := FindBoard(bs, bs[i].id).value;
      }
    }
  }

  lemma UniqueListsDistinct(ls: seq<List>)
    ensures UniqueLists(ls) <==> DistinctListIds(ls)
  {
    if UniqueLists(ls) {
      forall i, j | 0 <= i < j < |ls| ensures ls[i].id != ls[j].id {
        assert FindList(ls, ls[i].id) == Some(i) && FindList(ls, ls[j].id) == Some(j);
      }
    }
    if DistinctListIds(ls) {
      forall i | 0 <= i < |ls| ensures FindList(ls, ls[i].id) == Some(i) {
        var k := FindList(ls, ls[i].id).value;
      }
    }
  }

  lemma UniqueTasksDistinct(ts: seq<Task>)
    ensures UniqueTasks(ts) <==> DistinctTaskIds(ts)
  {
    if UniqueTasks(ts) {
      forall i, j | 0 <= i < j < |ts| ensures ts[i].id != ts[j].id {
        assert FindTask(ts, ts[i].id) == Some(i) && FindTask(ts, ts[j].id) == Some(j);
      }
    }
    if DistinctTaskIds(ts) {
      forall i | 0 <= i < |ts| ensures FindTask(ts, ts[i].id) == Some(i) {
        var k := FindTask(ts, ts[i].id).value;
      }
    }
  }

  /** Primary keys, the unique e-mail column and the three foreign keys hold. */
  ghost predicate Consistent(us: seq<User>, bs: seq<Board>, ls: seq<List>, ts: seq<Task>)
  {
    && UniqueUsers(us) && UniqueBoards(bs) && UniqueLists(ls) && UniqueTasks(ts)
    && (forall b :: b in bs ==> b.user_id in UserIds(us))
    && (forall l :: l in ls ==> l.board_id in BoardIds(bs))
    && (forall t :: t in ts ==> t.list_id in ListIds(ls))
  }

  // ---------------------------------------------------------------------------------------
  // Primary-key lookups

  function FindUser(us: seq<User>, id: int): (r: Option<nat>)
    ensures r.Some? ==> r.value < |us| && us[r.value].id == id
    ensures r.None? <==> id !in UserIds(us)
  {
    if us == [] then None
    else if us[0].id == id then Some(0)
    else match FindUser(us[1..], id)
      case None => None
      case Some(k) => Some(k + 1)
  }

  /** The lookup of the unique e-mail column. */
  function FindUserByEmail(us: seq<User>, email: string): (r: Option<nat>)
    ensures r.Some? ==> r.value < |us| && us[r.value].email == email
    ensures r.None? <==> forall u :: u in us ==> u.email != email
  {
    if us == [] then None
    else if us[0].email == email then Some(0)
    else match FindUserByEmail(us[1..], email)
      case None => None
      case Some(k) => Some(k + 1)
  }

  function FindBoard(bs: seq<Board>, id: int): (r: Option<nat>)
    ensures r.Some? ==> r.value < |bs| && bs[r.value].id == id
    ensures r.None? <==> id !in BoardIds(bs)
  {
    if bs == [] then None
    else if bs[0].id == id then Some(0)
    else match FindBoard(bs[1..], id)
      case None => None
      case Some(k) => Some(k + 1)
  }

  function FindList(ls: seq<List>, id: int): (r: Option<nat>)
    ensures r.Some? ==> r.value < |ls| && ls[r.value].id == id
    ensures r.None? <==> id !in ListIds(ls)
  {
    if ls == [] then None
    else if ls[0].id == id then Some(0)
    else match FindList(ls[1..], id)
      case None => None
      case Some(k) => Some(k + 1)
  }

  function FindTask(ts: seq<Task>, id: int): (r: Option<nat>)
    ensures r.Some? ==> r.value < |ts| && ts[r.value].id == id
    ensures r.None? <==> id !in TaskIds(ts)
  {
    if ts == [] then None
    else if ts[0].id == id then Some(0)
    else match FindTask(ts[1..], id)
      case None => None
      case Some(k) => Some(k + 1)
  }

  // ---------------------------------------------------------------------------------------
  // The ownership chain: each step is an inner join on the parent's key

  /** The owner of board `boardId`, or None when there is no such board. */
  function BoardOwner(bs: seq<Board>, boardId: int): (r: Option<int>)
    requires UniqueBoards(bs)
    ensures r.None? <==> boardId !in BoardIds(bs)
    ensures forall b :: b in bs && b.id == boardId ==> r == Some(b.user_id)
  {
    match FindBoard(bs, boardId)
    case None => None
    case Some(k) => Some(bs[k].user_id)
  }

  /** The owner of list `listId` through its board; None when the list or its board is missing. */
  function ListOwner(bs: seq<Board>, ls: seq<List>, listId: int): (r: Option<int>)
    requires UniqueBoards(bs) && UniqueLists(ls)
    ensures listId !in ListIds(ls) ==> r.None?
    ensures forall l :: l in ls && l.id == listId ==> r == BoardOwner(bs, l.board_id)
  {
    match FindList(ls, listId)
    case None => None
    case Some(k) => BoardOwner(bs, ls[k].board_id)
  }

  /** The owner of task `taskId` through its list and board; None when a link is missing. */
  function TaskOwner(bs: seq<Board>, ls: seq<List>, ts: seq<Task>, taskId: int): (r: Option<int>)
    requires UniqueBoards(bs) && UniqueLists(ls) && UniqueTasks(ts)
    ensures taskId !in TaskIds(ts) ==> r.None?
    ensures forall t :: t in ts && t.id == taskId ==> r == ListOwner(bs, ls, t.list_id)
  {
    match FindTask(ts, taskId)
    case None => None
    case Some(k) => ListOwner(bs, ls, ts[k].list_id)
  }

  /**
   * With the foreign keys in force the chain never breaks: a task's owner is found exactly
   * when the task exists, and it is the user_id of the board its list belongs to.
   */
  lemma {:induction false} OwnerChainComplete(us: seq<User>, bs: seq<Board>, ls: seq<List>, ts: seq<Task>, taskId: int)
    requires Consistent(us, bs, ls, ts)
    ensures TaskOwner(bs, ls, ts, taskId).Some? <==> taskId in TaskIds(ts)
    ensures forall t, l, b :: t in ts && l in ls && b in bs && t.id == taskId && l.id == t.list_id && b.id == l.board_id ==>
      TaskOwner(bs, ls, ts, taskId) == Some(b.user_id)
  {
    if taskId in TaskIds(ts) {
      var t :| t in ts && t.id == taskId;
      var l :| l in ls && l.id == t.list_id;
      assert l.board_id in BoardIds(bs);
    }
  }

  // ---------------------------------------------------------------------------------------
  // Row filters: a WHERE clause of a SELECT or (negated) of a DELETE

  function Filter<T(!new)>(s: seq<T>, keep: T -> bool): (r: seq<T>)
    ensures forall x :: x in r <==> x in s && keep(x)
    ensures |r| <= |s|
  {
    if s == [] then []
    else if keep(s[0]) then [s[0]] + Filter(s[1..], keep)
    else Filter(s[1..], keep)
  }

  /** Filtering keeps the rows in table order, so a key that was unique stays unique. */
  lemma {:induction false} FilterKeepsKeysUnique<T(!new)>(s: seq<T>, keep: T -> bool, key: T -> int)
    requires forall i, j :: 0 <= i < j < |s| ==> key(s[i]) != key(s[j])
    ensures forall i, j :: 0 <= i < j < |Filter(s, keep)| ==> key(Filter(s, keep)[i]) != key(Filter(s, keep)[j])
  {
    if s != [] {
      FilterKeepsKeysUnique(s[1..], keep, key);
      var rest := Filter(s[1..], keep);
      if keep(s[0]) {
        forall x | x in rest ensures key(x) != key(s[0]) {
          var i :| 0 <= i < |s[1..]| && s[1..][i] == x;
          assert s[i + 1] == x;
        }
        var r := [s[0]] + rest;
        assert Filter(s, keep) == r;
        forall i, j | 0 <= i < j < |r| ensures key(r[i]) != key(r[j]) {
          if i == 0 {
            assert r[0] == s[0];
            assert r[j] == rest[j - 1] && r[j] in rest;
            assert key(r[j]) != key(s[0]);
          } else {
            assert r[i] == rest[i - 1] && r[j] == rest[j - 1];
            assert key(rest[i - 1]) != key(rest[j - 1]);
          }
        }
      }
    }
  }

  /** ON DELETE CASCADE from lists to tasks: the tasks whose list is not among `listIds`. */
  function TasksOutside(ts: seq<Task>, listIds: set<int>): (r: seq<Task>)
    requires UniqueTasks(ts)
    ensures UniqueTasks(r)
    ensures forall t :: t in r <==> t in ts && t.list_id !in listIds
  {
    var keep := (t: Task) => t.list_id !in listIds;
    UniqueTasksDistinct(ts);
    FilterKeepsKeysUnique(ts, keep, (t: Task) => t.id);
    UniqueTasksDistinct(Filter(ts, keep));
    Filter(ts, keep)
  }

  /** ON DELETE CASCADE from boards to lists: the lists whose board is not among `boardIds`. */
  function ListsOutside(ls: seq<List>, boardIds: set<int>): (r: seq<List>)
    requires UniqueLists(ls)
    ensures UniqueLists(r)
    ensures forall l :: l in r <==> l in ls && l.board_id !in boardIds
  {
    var keep := (l: List) => l.board_id !in boardIds;
    UniqueListsDistinct(ls);
    FilterKeepsKeysUnique(ls, keep, (l: List) => l.id);
    UniqueListsDistinct(Filter(ls, keep));
    Filter(ls, keep)
  }

  /** ON DELETE CASCADE from users to boards: the boards not owned by `userId`. */
  function BoardsNotOwnedBy(bs: seq<Board>, userId: int): (r: seq<Board>)
    requires UniqueBoards(bs)
    ensures UniqueBoards(r)
    ensures forall b :: b in r <==> b in bs && b.user_id != userId
  {
    var keep := (b: Board) => b.user_id != userId;
    UniqueBoardsDistinct(bs);
    FilterKeepsKeysUnique(bs, keep, (b: Board) => b.id);
    UniqueBoardsDistinct(Filter(bs, keep));
    Filter(bs, keep)
  }

  /** Deleting one user row by key. */
  function UsersOtherThan(us: seq<User>, userId: int): (r: seq<User>)
    requires UniqueUsers(us)
    ensures UniqueUsers(r)
    ensures forall u :: u in r <==> u in us && u.id != userId
  {
    var keep := (u: User) => u.id != userId;
    UniqueUsersDistinct(us);
    FilterKeepsKeysUnique(us, keep, (u: User) => u.id);
    var r := Filter(us, keep);
    forall i, j | 0 <= i < j < |r| ensures r[i].email != r[j].email {
      UsersKeepDistinctEmails(us, r, i, j);
    }
    UniqueUsersDistinct(r);
    r
  }

  /** Deleting one task row by key. */
  function TasksOtherThan(ts: seq<Task>, taskId: int): (r: seq<Task>)
    requires UniqueTasks(ts)
    ensures UniqueTasks(r)
    ensures forall t :: t in r <==> t in ts && t.id != taskId
  {
    var keep := (t: Task) => t.id != taskId;
    UniqueTasksDistinct(ts);
    FilterKeepsKeysUnique(ts, keep, (t: Task) => t.id);
    UniqueTasksDistinct(Filter(ts, keep));
    Filter(ts, keep)
  }

  /** Deleting one list row by key (before its cascade). */
  function ListsOtherThan(ls: seq<List>, listId: int): (r: seq<List>)
    requires UniqueLists(ls)
    ensures UniqueLists(r)
    ensures forall l :: l in r <==> l in ls && l.id != listId
  {
    var keep := (l: List) => l.id != listId;
    UniqueListsDistinct(ls);
    FilterKeepsKeysUnique(ls, keep, (l: List) => l.id);
    UniqueListsDistinct(Filter(ls, keep));
    Filter(ls, keep)
  }

  /** Deleting one board row by key (before its cascade). */
  function BoardsOtherThan(bs: seq<Board>, boardId: int): (r: seq<Board>)
    requires UniqueBoards(bs)
    ensures UniqueBoards(r)
    ensures forall b :: b in r <==> b in bs && b.id != boardId
  {
    var keep := (b: Board) => b.id != boardId;
    UniqueBoardsDistinct(bs);
    FilterKeepsKeysUnique(bs, keep, (b: Board) => b.id);
    UniqueBoardsDistinct(Filter(bs, keep));
    Filter(bs, keep)
  }

  /** Deleting a task leaves the store consistent: nothing references a task. */
  lemma {:induction false} TaskDeleteKeepsConsistent(us: seq<User>, bs: seq<Board>, ls: seq<List>, ts: seq<Task>, taskId: int)
    requires Consistent(us, bs, ls, ts)
    ensures Consistent(us, bs, ls, TasksOtherThan(ts, taskId))
  {
  }

  /**
   * Deleting list `listId` with the cascade of the schema removes exactly its tasks and
   * leaves the store consistent.
   */
  lemma {:induction false} ListCascadeKeepsConsistent(us: seq<User>, bs: seq<Board>, ls: seq<List>, ts: seq<Task>, listId: int)
    requires Consistent(us, bs, ls, ts)
    ensures Consistent(us, bs, ListsOtherThan(ls, listId), TasksOutside(ts, {listId}))
  {
    var ls', ts' := ListsOtherThan(ls, listId), TasksOutside(ts, {listId});
    forall t | t in ts' ensures t.list_id in ListIds(ls') {
      var l :| l in ls && l.id == t.list_id;
      assert l in ls';
    }
  }

  /**
   * Deleting board `boardId` with the cascades of the schema removes its lists and their
   * tasks, and leaves the store consistent.
   */
  lemma {:induction false} BoardCascadeKeepsConsistent(us: seq<User>, bs: seq<Board>, ls: seq<List>, ts: seq<Task>, boardId: int)
    requires Consistent(us, bs, ls, ts)
    ensures Consistent(us, BoardsOtherThan(bs, boardId), ListsOutside(ls, {boardId}),
                       TasksOutside(ts, ListIdsOfBoards(ls, {boardId})))
  {
    var bs', ls' := BoardsOtherThan(bs, boardId), ListsOutside(ls, {boardId});
    var ts' := TasksOutside(ts, ListIdsOfBoards(ls, {boardId}));
    forall l | l in ls' ensures l.board_id in BoardIds(bs') {
      var b :| b in bs && b.id == l.board_id;
      assert b in bs';
    }
    forall t | t in ts' ensures t.list_id in ListIds(ls') {
      var l :| l in ls && l.id == t.list_id;
      assert l in ls';
    }
  }

  /**
   * Deleting user `userId` with the cascades of the schema removes their boards, every list
   * of those boards and every task of those lists, and leaves the store consistent.
   */
  lemma {:induction false} UserCascadeKeepsConsistent(us: seq<User>, bs: seq<Board>, ls: seq<List>, ts: seq<Task>, userId: int)
    requires Consistent(us, bs, ls, ts)
    ensures var us', bs' := UsersOtherThan(us, userId), BoardsNotOwnedBy(bs, userId);
            var ls' := ListsOutside(ls, BoardIdsOfUser(bs, userId));
            var ts' := TasksOutside(ts, ListIdsOfBoards(ls, BoardIdsOfUser(bs, userId)));
            && Consistent(us', bs', ls', ts')
            && (forall b :: b in bs' ==> b.user_id != userId)
            && (forall l :: l in ls' ==> l.board_id in BoardIds(bs'))
            && (forall t :: t in ts' ==> t.list_id in ListIds(ls'))
  {
    var us' := UsersOtherThan(us, userId);
    var bs' := BoardsNotOwnedBy(bs, userId);
    var owned := BoardIdsOfUser(bs, userId);
    var ls' := ListsOutside(ls, owned);
    var ts' := TasksOutside(ts, ListIdsOfBoards(ls, owned));
    forall b | b in bs' ensures b.user_id in UserIds(us') {
      var u :| u in us && u.id == b.user_id;
      assert u in us';
    }
    forall l | l in ls' ensures l.board_id in BoardIds(bs') {
      var b :| b in bs && b.id == l.board_id;
      assert b in bs';
    }
    forall t | t in ts' ensures t.list_id in ListIds(ls') {
      var l :| l in ls && l.id == t.list_id;
      assert l in ls';
    }
  }

  /** Two rows of a filtered users table are two rows of the table, so their e-mails differ. */
  lemma {:induction false} UsersKeepDistinctEmails(us: seq<User>, us': seq<User>, i: nat, j: nat)
    requires DistinctUsers(us)
    requires forall x :: x in us' ==> x in us
    requires forall a, b :: 0 <= a < b < |us'| ==> us'[a].id != us'[b].id
    requires i < j < |us'|
    ensures us'[i].email != us'[j].email
  {
    assert us'[i] in us && us'[j] in us;
    var a :| 0 <= a < |us| && us[a] == us'[i];
    var b :| 0 <= b < |us| && us[b] == us'[j];
    assert a != b;
  }
}
