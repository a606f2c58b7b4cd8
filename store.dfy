/**
 * The backend the three hooks talk to, as an in-memory store of the seven
 * tables they read and write. Every table is a sequence of rows in storage
 * order; a query's answer is the matching rows in that order. Row ids that
 * the backend generates (UUIDs) come from a counter, `nextId`.
 */
module Store {
  import opened Wrappers
  import opened Seqs

  type Id = nat

  /** A numeric column as the client sees it: `None` when it is missing or not a number. */
  type Amount = Option<int>

  /** `Number(a) || 0`: a missing or non-numeric amount counts as 0. */
  function Cents(a: Amount): int
  {
    match a
    case Some(v) => v
    case None => 0
  }

  /** Errors an operation of the hooks can throw. */
  datatype Error =
    | NoUser         // no user is logged in
    | UserNotFound   // the e-mail lookup did not return exactly one user
    | AlreadyFriends // a friendship in the user's direction already exists
    | Rejected       // the backend refused a write

  datatype UserRow = UserRow(id: Id, email: string, fullName: string)

  /** A person without an account, visible only to the user who owns the row. */
  datatype ManualFriendRow = ManualFriendRow(id: Id, ownerId: Id, name: string)

  datatype Status = Accepted | Pending

  datatype FriendshipRow = FriendshipRow(id: Id, userId: Id, friendId: Id, status: Status)

  datatype GroupRow = GroupRow(id: Id, name: string, createdBy: Id)

  /** A membership names either a registered user or a manual friend, tagged by `isManualFriend`. */
  datatype GroupMemberRow = GroupMemberRow(
    groupId: Id,
    registeredUserId: Option<Id>,
    manualFriendId: Option<Id>,
    isManualFriend: bool)

  datatype ExpenseRow = ExpenseRow(
    id: Id,
    title: string,
    description: Option<string>,
    amount: Amount,
    groupId: Option<Id>,
    createdBy: Id,
    createdAt: int)

  /**
   * A share of an expense. `registeredUserId`, `manualFriendId` and
   * `isManualFriend` are the columns the expense hook reads and writes;
   * `userId` is the column the balance computation of the friends hook reads.
   */
  datatype ShareRow = ShareRow(
    id: Id,
    expenseId: Id,
    registeredUserId: Option<Id>,
    manualFriendId: Option<Id>,
    isManualFriend: bool,
    amount: Amount,
    paid: bool,
    userId: Option<Id>)

  /** The contents of the store at one moment. */
  datatype Tables = Tables(
    users: seq<UserRow>,
    manualFriends: seq<ManualFriendRow>,
    friendships: seq<FriendshipRow>,
    groups: seq<GroupRow>,
    groupMembers: seq<GroupMemberRow>,
    expenses: seq<ExpenseRow>,
    shares: seq<ShareRow>)

  function OwnedBy(owner: Id): ManualFriendRow -> bool
  {
    (f: ManualFriendRow) => f.ownerId == owner
  }

  function ManualFriendId(f: ManualFriendRow): Id
  {
    f.id
  }

  /** The ids of the manual friends `owner` created, in table order. */
  function ManualFriendIdsOf(manualFriends: seq<ManualFriendRow>, owner: Id): (ids: seq<Id>)
    ensures forall x :: x in ids <==> exists f :: f in manualFriends && f.ownerId == owner && f.id == x
  {
    Map(Filter(manualFriends, OwnedBy(owner)), ManualFriendId)
  }

  function UserId(u: UserRow): Id
  {
    u.id
  }

  function UserIdIn(ids: seq<Id>): UserRow -> bool
  {
    (u: UserRow) => u.id in ids
  }

  function UserWithId(id: Id): UserRow -> bool
  {
    (u: UserRow) => u.id == id
  }

  function ManualFriendWithId(id: Id): ManualFriendRow -> bool
  {
    (f: ManualFriendRow) => f.id == id
  }

  function OfExpense(expenseId: Id): ShareRow -> bool
  {
    (s: ShareRow) => s.expenseId == expenseId
  }

  function HasEmail(email: string): UserRow -> bool
  {
    (u: UserRow) => u.email == email
  }

  /** Every id the backend has issued, and every user id, is below `nextId`. */
  ghost predicate Issued(t: Tables, nextId: Id)
  {
    && (forall u :: u in t.users ==> u.id < nextId)
    && (forall f :: f in t.manualFriends ==> f.id < nextId)
    && (forall f :: f in t.friendships ==> f.id < nextId)
    && (forall g :: g in t.groups ==> g.id < nextId)
    && (forall e :: e in t.expenses ==> e.id < nextId)
    && (forall s :: s in t.shares ==> s.id < nextId && s.expenseId < nextId)
  }

  class Backend {
    var users: seq<UserRow>
    var manualFriends: seq<ManualFriendRow>
    var friendships: seq<FriendshipRow>
    var groups: seq<GroupRow>
    var groupMembers: seq<GroupMemberRow>
    var expenses: seq<ExpenseRow>
    var shares: seq<ShareRow>
    var nextId: Id

    ghost predicate Valid()
      reads this
    {
      Issued(Snapshot(), nextId)
    }

    function Snapshot(): Tables
      reads this
    {
      Tables(users, manualFriends, friendships, groups, groupMembers, expenses, shares)
    }

    /** A store holding the registered users and nothing else. */
    constructor (registered: seq<UserRow>, firstId: Id)
      requires forall u :: u in registered ==> u.id < firstId
      ensures Valid()
      ensures Snapshot() == Tables(registered, [], [], [], [], [], [])
      ensures nextId == firstId
    {
      users, manualFriends, friendships := registered, [], [];
      groups, groupMembers, expenses, shares := [], [], [], [];
      nextId := firstId;
    }
  }
}
