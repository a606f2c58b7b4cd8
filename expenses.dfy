/**
 * The expenses hook: which expenses the logged-in user sees, how each is
 * presented with its shares, and the writes `createExpense`,
 * `markShareAsPaid` and `deleteExpense`.
 */
module Expenses {
  import opened Wrappers
  import opened Seqs
  import opened Store

  /** The person a share names, tagged registered or manual; a manual friend has no e-mail. */
  datatype PersonView = PersonView(id: Id, fullName: Option<string>, email: Option<string>, isManualFriend: bool)

  datatype ShareView = ShareView(id: Id, amount: Amount, paid: bool, user: PersonView)

  datatype ExpenseView = ExpenseView(
    id: Id,
    title: string,
    description: Option<string>,
    totalAmount: Amount,
    groupId: Option<Id>,
    groupName: Option<string>,
    createdAt: int,
    creator: Option<UserRow>,
    isOwner: bool,
    shares: seq<ShareView>,
    userShare: Option<ShareView>)

  // ----- Which expenses the user sees -----

  function CreatedBy(me: Id): ExpenseRow -> bool
  {
    (e: ExpenseRow) => e.createdBy == me
  }

  function ExpenseId(e: ExpenseRow): Id
  {
    e.id
  }

  function NamesUser(me: Id): ShareRow -> bool
  {
    (s: ShareRow) => s.registeredUserId == Some(me)
  }

  function NamesManualFriendIn(ids: seq<Id>): ShareRow -> bool
  {
    (s: ShareRow) => s.manualFriendId.Some? && s.manualFriendId.value in ids
  }

  function ShareExpenseId(s: ShareRow): Id
  {
    s.expenseId
  }

  /**
   * An expense id is visible to `me` when `me` created the expense, when a
   * share of it names `me` as registered user, or when a share of it names a
   * manual friend `me` owns.
   */
  ghost predicate Visible(t: Tables, me: Id, x: Id)
  {
    || (exists e :: e in t.expenses && e.createdBy == me && e.id == x)
    || (exists s :: s in t.shares && s.expenseId == x && s.registeredUserId == Some(me))
    || (exists s, f :: s in t.shares && f in t.manualFriends && s.expenseId == x &&
                       f.ownerId == me && s.manualFriendId == Some(f.id))
  }

  /** Ids of the expenses `me` created. */
  function CreatedExpenseIds(expenses: seq<ExpenseRow>, me: Id): (ids: seq<Id>)
    ensures forall x :: x in ids <==> exists e :: e in expenses && e.createdBy == me && e.id == x
  {
    Map(Filter(expenses, CreatedBy(me)), ExpenseId)
  }

  /** Ids of the expenses with a share naming `me` as registered user. */
  function RegisteredShareExpenseIds(shares: seq<ShareRow>, me: Id): (ids: seq<Id>)
    ensures forall x :: x in ids <==> exists s :: s in shares && s.expenseId == x && s.registeredUserId == Some(me)
  {
    Map(Filter(shares, NamesUser(me)), ShareExpenseId)
  }

  /** Ids of the expenses with a share naming one of `me`'s manual friends; not queried when there are none. */
  function ManualShareExpenseIds(t: Tables, me: Id): (ids: seq<Id>)
    ensures forall x :: x in ids <==> exists s, f :: s in t.shares && f in t.manualFriends && s.expenseId == x &&
                                                       f.ownerId == me && s.manualFriendId == Some(f.id)
  {
    var friendIds := ManualFriendIdsOf(t.manualFriends, me);
    if |friendIds| > 0 then Map(Filter(t.shares, NamesManualFriendIn(friendIds)), ShareExpenseId) else []
  }

  /** The three id lists of `fetchExpenses`, concatenated and deduplicated. */
  function VisibleExpenseIds(t: Tables, me: Id): (ids: seq<Id>)
    ensures NoDups(ids)
    ensures forall x :: x in ids <==> Visible(t, me, x)
  {
    var created := CreatedExpenseIds(t.expenses, me);
    var registered := RegisteredShareExpenseIds(t.shares, me);
    var manual := ManualShareExpenseIds(t, me);
    assert forall x :: x in created + registered + manual <==> x in created || x in registered || x in manual;
    Dedup(created + registered + manual)
  }

  // ----- How an expense is presented -----

  function GroupWithId(id: Option<Id>): GroupRow -> bool
  {
    (g: GroupRow) => Some(g.id) == id
  }

  /**
   * A share row as the hook presents it, or `None` when the id of the person
   * it names is absent (such shares are dropped). The name and e-mail come
   * from the joined `users` / `manual_friends` row, when there is one.
   */
  function ResolveShare(s: ShareRow, users: seq<UserRow>, manualFriends: seq<ManualFriendRow>): (v: Option<ShareView>)
    ensures v.Some? <==> (if s.isManualFriend then s.manualFriendId.Some? else s.registeredUserId.Some?)
    ensures v.Some? ==> v.value.id == s.id && v.value.amount == s.amount && v.value.paid == s.paid &&
                        v.value.user.isManualFriend == s.isManualFriend
    ensures v.Some? && s.isManualFriend ==> s.manualFriendId == Some(v.value.user.id) && v.value.user.email.None?
    ensures v.Some? && !s.isManualFriend ==> s.registeredUserId == Some(v.value.user.id)
    ensures v.Some? && s.isManualFriend ==>
      && (v.value.user.fullName.Some? <==> exists f :: f in manualFriends && f.id == v.value.user.id)
      && (v.value.user.fullName.Some? ==>
            exists f :: f in manualFriends && f.id == v.value.user.id && v.value.user.fullName == Some(f.name))
    ensures v.Some? && !s.isManualFriend ==>
      && (v.value.user.fullName.Some? <==> exists u :: u in users && u.id == v.value.user.id)
      && v.value.user.email.Some? == v.value.user.fullName.Some?
      && (v.value.user.fullName.Some? ==>
            exists u :: u in users && u.id == v.value.user.id &&
              v.value.user.fullName == Some(u.fullName) && v.value.user.email == Some(u.email))
  {
    if s.isManualFriend then
      match s.manualFriendId
      case Some(fid) =>
        var friend := Find(manualFriends, ManualFriendWithId(fid));
        var name := if friend.Some? then Some(friend.value.name) else None;
        Some(ShareView(s.id, s.amount, s.paid, PersonView(fid, name, None, true)))
      case None => None
    else
      match s.registeredUserId
      case Some(uid) =>
        var user := Find(users, UserWithId(uid));
        var name := if user.Some? then Some(user.value.fullName) else None;
        var email := if user.Some? then Some(user.value.email) else None;
        Some(ShareView(s.id, s.amount, s.paid, PersonView(uid, name, email, false)))
      case None => None
  }

  function ResolveWith(users: seq<UserRow>, manualFriends: seq<ManualFriendRow>): ShareRow -> Option<ShareView>
  {
    (s: ShareRow) => ResolveShare(s, users, manualFriends)
  }

  /** The presented shares of one expense: its share rows, in order, minus those naming nobody. */
  function ExpenseShares(expenseId: Id, shares: seq<ShareRow>, users: seq<UserRow>, manualFriends: seq<ManualFriendRow>): (views: seq<ShareView>)
    ensures |views| <= |Filter(shares, OfExpense(expenseId))|
    ensures forall v :: v in views <==>
      exists s :: s in shares && s.expenseId == expenseId && ResolveShare(s, users, manualFriends) == Some(v)
  {
    FilterMap(Filter(shares, OfExpense(expenseId)), ResolveWith(users, manualFriends))
  }

  /** The shares of two runs of share rows are those of the first run followed by those of the second. */
  lemma ExpenseSharesConcat(expenseId: Id, a: seq<ShareRow>, b: seq<ShareRow>, users: seq<UserRow>, manualFriends: seq<ManualFriendRow>)
    ensures ExpenseShares(expenseId, a + b, users, manualFriends) ==
            ExpenseShares(expenseId, a, users, manualFriends) + ExpenseShares(expenseId, b, users, manualFriends)
  {
    FilterConcat(a, b, OfExpense(expenseId));
    FilterMapConcat(Filter(a, OfExpense(expenseId)), Filter(b, OfExpense(expenseId)), ResolveWith(users, manualFriends));
  }

  /** One share row shows its resolved share when it is of that expense and names someone, and nothing otherwise. */
  lemma ExpenseSharesOfOneRow(expenseId: Id, s: ShareRow, users: seq<UserRow>, manualFriends: seq<ManualFriendRow>)
    ensures ExpenseShares(expenseId, [s], users, manualFriends) ==
            if s.expenseId == expenseId && ResolveShare(s, users, manualFriends).Some?
            then [ResolveShare(s, users, manualFriends).value] else []
  {
    assert [s][1..] == [];
    if s.expenseId == expenseId {
      assert Filter([s], OfExpense(expenseId)) == [s];
    }
  }

  /** The mapped share object has no `manual_friend_id` property: reading it gives `undefined`. */
  const MappedShareManualFriendId: Option<Id> := None

  /** The test `userShare` is found with, as written. */
  function IsUserShare(me: Id): ShareView -> bool
  {
    (v: ShareView) =>
      (v.user.isManualFriend && Some(v.user.id) == MappedShareManualFriendId) ||
      (!v.user.isManualFriend && v.user.id == me)
  }

  function IsOwnRegisteredShare(me: Id): ShareView -> bool
  {
    (v: ShareView) => !v.user.isManualFriend && v.user.id == me
  }

  /** `userShare`: the user's own share among an expense's presented shares, if any. */
  function UserShare(shares: seq<ShareView>, me: Id): (r: Option<ShareView>)
    ensures r.Some? ==> r.value in shares && !r.value.user.isManualFriend && r.value.user.id == me
    ensures r.None? <==> forall v :: v in shares ==> v.user.isManualFriend || v.user.id != me
  {
    Find(shares, IsUserShare(me))
  }

  /**
   * `userShare` is the first share naming `me` as a registered user: its
   * manual-friend disjunct compares against a property the presented share
   * does not have, so it never holds.
   */
  lemma UserShareIsOwnRegisteredShare(shares: seq<ShareView>, me: Id)
    ensures UserShare(shares, me) == Find(shares, IsOwnRegisteredShare(me))
    ensures UserShare(shares, me).Some? ==>
      var v := UserShare(shares, me).value;
      v in shares && !v.user.isManualFriend && v.user.id == me
  {
    FindAgrees(shares, IsUserShare(me), IsOwnRegisteredShare(me));
  }

  /** One expense as `fetchExpenses` presents it, given the share rows it fetched. */
  function ViewExpense(e: ExpenseRow, shares: seq<ShareRow>, t: Tables, me: Id): (v: ExpenseView)
    ensures v.id == e.id && v.title == e.title && v.description == e.description
    ensures v.totalAmount == e.amount && v.createdAt == e.createdAt
    ensures v.isOwner <==> e.createdBy == me
    ensures v.creator.Some? ==> v.creator.value in t.users && v.creator.value.id == e.createdBy
    ensures v.creator.None? <==> forall u :: u in t.users ==> u.id != e.createdBy
    ensures v.groupId.Some? ==>
      e.groupId == v.groupId && exists g :: g in t.groups && g.id == v.groupId.value && v.groupName == Some(g.name)
    ensures v.groupId.None? ==> v.groupName.None? && forall g :: g in t.groups ==> Some(g.id) != e.groupId
    ensures forall x :: x in v.shares <==>
      exists s :: s in shares && s.expenseId == e.id && ResolveShare(s, t.users, t.manualFriends) == Some(x)
    ensures v.shares == ExpenseShares(e.id, shares, t.users, t.manualFriends)
    ensures v.userShare == Find(v.shares, IsOwnRegisteredShare(me))
  {
    var views := ExpenseShares(e.id, shares, t.users, t.manualFriends);
    var group := Find(t.groups, GroupWithId(e.groupId));
    ExpenseView(
      e.id, e.title, e.description, e.amount,
      if group.Some? then Some(group.value.id) else None,
      if group.Some? then Some(group.value.name) else None,
      e.createdAt,
      Find(t.users, UserWithId(e.createdBy)),
      e.createdBy == me,
      views,
      UserShareIsOwnRegisteredShare(views, me); UserShare(views, me))
  }

  function ViewWith(shares: seq<ShareRow>, t: Tables, me: Id): ExpenseRow -> ExpenseView
  {
    (e: ExpenseRow) => ViewExpense(e, shares, t, me)
  }

  function IdIn(ids: seq<Id>): ExpenseRow -> bool
  {
    (e: ExpenseRow) => e.id in ids
  }

  function OfExpenseIn(ids: seq<Id>): ShareRow -> bool
  {
    (s: ShareRow) => s.expenseId in ids
  }

  /**
   * `fetchExpenses`: with no user logged in it fails; when no expense is
   * visible the list is empty; otherwise every visible expense row, in table
   * order, presented with the share rows fetched for the visible ids.
   */
  function FetchExpenses(t: Tables, me: Option<Id>): (r: Result<seq<ExpenseView>, Error>)
    ensures me.None? <==> r.Failure?
    ensures r.Failure? ==> r.error == NoUser
    ensures me.Some? && VisibleExpenseIds(t, me.value) == [] ==> r == Success([])
  {
    if me.None? then Failure(NoUser)
    else
      var ids := VisibleExpenseIds(t, me.value);
      if ids == [] then Success([])
      else
        var fetched := Filter(t.shares, OfExpenseIn(ids));
        Success(Map(Filter(t.expenses, IdIn(ids)), ViewWith(fetched, t, me.value)))
  }

  /**
   * What `fetchExpenses` lists is exactly the visible expense rows, each with
   * `isOwner` true iff `me` created it and with all of its own share rows
   * (restricting the share query to the visible ids loses none of them).
   */
  lemma FetchExpensesListsVisible(t: Tables, me: Id)
    ensures FetchExpenses(t, Some(me)).Success?
    ensures forall v :: v in FetchExpenses(t, Some(me)).value <==>
      exists e :: e in t.expenses && Visible(t, me, e.id) && v == ViewExpense(e, t.shares, t, me)
  {
    var ids := VisibleExpenseIds(t, me);
    if ids != [] {
      var fetched := Filter(t.shares, OfExpenseIn(ids));
      forall e | e in t.expenses && e.id in ids
        ensures ViewWith(fetched, t, me)(e) == ViewExpense(e, t.shares, t, me)
      {
        FilterFilter(t.shares, OfExpenseIn(ids), OfExpense(e.id));
      }
    }
  }

  /** Every listed expense comes from a row of the table with the same id. */
  lemma ListedExpensesExist(t: Tables, me: Id, v: ExpenseView)
    requires FetchExpenses(t, Some(me)).Success? && v in FetchExpenses(t, Some(me)).value
    ensures exists e :: e in t.expenses && e.id == v.id && (v.isOwner <==> e.createdBy == me)
  {
    FetchExpensesListsVisible(t, me);
  }

  // ----- createExpense -----

  /** A share the caller asks for: a person id (registered or manual) and an amount. */
  datatype ShareInput = ShareInput(userId: Id, amount: Amount)

  datatype ExpenseInput = ExpenseInput(
    title: string,
    description: Option<string>,
    totalAmount: Amount,
    groupId: Option<Id>,
    shares: seq<ShareInput>)

  /** Backend failures during `createExpense`: the user lookup, the expense insert, the share insert. */
  datatype ExpenseFaults = ExpenseFaults(lookupFails: bool, expenseRejected: bool, sharesRejected: bool)

  function RequestedId(s: ShareInput): Id
  {
    s.userId
  }

  /** The ids of the registered users among the requested share holders. */
  function RegisteredAmong(users: seq<UserRow>, inputs: seq<ShareInput>): (ids: seq<Id>)
    ensures forall s :: s in inputs ==> (s.userId in ids <==> exists u :: u in users && u.id == s.userId)
  {
    Map(Filter(users, UserIdIn(Map(inputs, RequestedId))), UserId)
  }

  /** The share row written for one requested share. */
  function ShareRowFor(input: ShareInput, expenseId: Id, registered: seq<Id>, id: Id): (row: ShareRow)
    ensures row.isManualFriend <==> input.userId !in registered
    ensures row.registeredUserId.Some? != row.manualFriendId.Some?
    ensures row.registeredUserId == Some(input.userId) || row.manualFriendId == Some(input.userId)
    ensures row.id == id && row.expenseId == expenseId && row.amount == input.amount && !row.paid && row.userId.None?
  {
    if input.userId !in registered then
      ShareRow(id, expenseId, None, Some(input.userId), true, input.amount, false, None)
    else
      ShareRow(id, expenseId, Some(input.userId), None, false, input.amount, false, None)
  }

  /** The batch of share rows `createExpense` inserts, one per requested share, in order. */
  function ShareRows(inputs: seq<ShareInput>, expenseId: Id, registered: seq<Id>, firstId: Id): (rows: seq<ShareRow>)
    ensures |rows| == |inputs|
    ensures forall k :: 0 <= k < |rows| ==> rows[k] == ShareRowFor(inputs[k], expenseId, registered, firstId + k)
    ensures forall row :: row in rows ==> row.expenseId == expenseId && firstId <= row.id < firstId + |inputs|
  {
    seq(|inputs|, k requires 0 <= k < |inputs| => ShareRowFor(inputs[k], expenseId, registered, firstId + k))
  }

  /**
   * The rows `createExpense` writes: one per requested share, in order, each
   * for the new expense, with the requested amount, unpaid, and manual exactly
   * when no registered user has the requested id; exactly one of the two
   * person columns is set, to the requested id.
   */
  lemma CreatedShareRows(users: seq<UserRow>, inputs: seq<ShareInput>, expenseId: Id, firstId: Id, k: nat)
    requires k < |inputs|
    ensures var rows := ShareRows(inputs, expenseId, RegisteredAmong(users, inputs), firstId);
      && |rows| == |inputs|
      && rows[k].expenseId == expenseId && rows[k].amount == inputs[k].amount && !rows[k].paid
      && (rows[k].isManualFriend <==> forall u :: u in users ==> u.id != inputs[k].userId)
      && (rows[k].isManualFriend ==> rows[k].manualFriendId == Some(inputs[k].userId) && rows[k].registeredUserId.None?)
      && (!rows[k].isManualFriend ==> rows[k].registeredUserId == Some(inputs[k].userId) && rows[k].manualFriendId.None?)
  {
    assert inputs[k] in inputs;
  }

  /**
   * `createExpense`: with no user logged in, or when the user lookup or the
   * expense insert fails, nothing is written. Otherwise the expense row is
   * appended (created by `me`, at `now`) and then the batch of share rows;
   * when the share insert fails the expense row stays without shares.
   */
  method CreateExpense(db: Backend, me: Option<Id>, input: ExpenseInput, now: int, faults: ExpenseFaults)
    returns (r: Result<Id, Error>)
    requires db.Valid()
    modifies db
    ensures db.Valid()
    ensures me.None? ==> r == Failure(NoUser)
    ensures r.Success? <==> me.Some? && !faults.lookupFails && !faults.expenseRejected && !faults.sharesRejected
    ensures me.None? || faults.lookupFails || faults.expenseRejected ==>
      db.Snapshot() == old(db.Snapshot()) && db.nextId == old(db.nextId)
    ensures me.Some? && !faults.lookupFails && !faults.expenseRejected ==>
      && (forall s :: s in old(db.shares) ==> s.expenseId != old(db.nextId))
      && db.expenses == old(db.expenses) + [ExpenseRow(old(db.nextId), input.title, input.description,
                                                       input.totalAmount, input.groupId, me.value, now)]
      && db.users == old(db.users) && db.manualFriends == old(db.manualFriends)
      && db.friendships == old(db.friendships) && db.groups == old(db.groups)
      && db.groupMembers == old(db.groupMembers)
    ensures me.Some? && !faults.lookupFails && !faults.expenseRejected && faults.sharesRejected ==>
      db.shares == old(db.shares)
    ensures r.Success? ==>
      && r.value == old(db.nextId)
      && db.shares == old(db.shares) + ShareRows(input.shares, old(db.nextId), RegisteredAmong(old(db.users), input.shares), old(db.nextId) + 1)
  {
    if me.None? {
      return Failure(NoUser);
    }
    if faults.lookupFails {
      return Failure(Rejected);
    }
    var registered := RegisteredAmong(db.users, input.shares);
    if faults.expenseRejected {
      return Failure(Rejected);
    }
    r := InsertExpense(db, ExpenseRow(db.nextId, input.title, input.description, input.totalAmount,
                                      input.groupId, me.value, now));
    if faults.sharesRejected {
      return Failure(Rejected);
    }
    InsertShares(db, ShareRows(input.shares, r.value, registered, db.nextId));
  }

  /** Appends an expense row with the next id. */
  method InsertExpense(db: Backend, expense: ExpenseRow) returns (r: Result<Id, Error>)
    requires db.Valid() && expense.id == db.nextId
    modifies db
    ensures db.Valid() && db.nextId == old(db.nextId) + 1
    ensures r == Success(expense.id)
    ensures forall s :: s in db.shares ==> s.expenseId != expense.id
    ensures db.Snapshot() == old(db.Snapshot()).(expenses := old(db.expenses) + [expense])
  {
    db.expenses := db.expenses + [expense];
    db.nextId := db.nextId + 1;
    r := Success(expense.id);
  }

  /** Appends a batch of share rows of an existing expense, with the next ids. */
  method InsertShares(db: Backend, rows: seq<ShareRow>)
    requires db.Valid()
    requires forall row :: row in rows ==> row.expenseId < db.nextId && row.id < db.nextId + |rows|
    modifies db
    ensures db.Valid() && db.nextId == old(db.nextId) + |rows|
    ensures db.Snapshot() == old(db.Snapshot()).(shares := old(db.shares) + rows)
  {
    db.shares := db.shares + rows;
    db.nextId := db.nextId + |rows|;
  }

  // ----- markShareAsPaid -----

  function PaidIf(shareId: Id): ShareRow -> ShareRow
  {
    (s: ShareRow) => if s.id == shareId then s.(paid := true) else s
  }

  /**
   * The table after `update({ paid: true }).eq('id', shareId)`: the rows with
   * that id become paid, no other field and no other row changes.
   */
  function MarkPaid(shares: seq<ShareRow>, shareId: Id): (r: seq<ShareRow>)
    ensures |r| == |shares|
    ensures forall k :: 0 <= k < |r| ==>
      r[k].(paid := shares[k].paid) == shares[k] && (r[k].paid <==> shares[k].paid || shares[k].id == shareId)
  {
    Map(shares, PaidIf(shareId))
  }

  /** Marking the same share paid twice is the same as marking it once. */
  lemma MarkPaidIdempotent(shares: seq<ShareRow>, shareId: Id)
    ensures MarkPaid(MarkPaid(shares, shareId), shareId) == MarkPaid(shares, shareId)
  {
    var once := MarkPaid(shares, shareId);
    var twice := MarkPaid(once, shareId);
    forall k | 0 <= k < |shares|
      ensures twice[k] == once[k]
    {
      assert once[k].id == shares[k].id;
    }
  }

  method MarkShareAsPaid(db: Backend, shareId: Id, rejected: bool) returns (r: Result<(), Error>)
    requires db.Valid()
    modifies db
    ensures db.Valid() && db.nextId == old(db.nextId)
    ensures r.Success? <==> !rejected
    ensures db.Snapshot() == old(db.Snapshot()).(shares := if rejected then old(db.shares) else MarkPaid(old(db.shares), shareId))
  {
    if rejected {
      return Failure(Rejected);
    }
    db.shares := MarkPaid(db.shares, shareId);
    return Success(());
  }

  // ----- deleteExpense -----

  function IdIsNot(expenseId: Id): ExpenseRow -> bool
  {
    (e: ExpenseRow) => e.id != expenseId
  }

  /**
   * `deleteExpense` removes the expense row; its share rows are removed by a
   * cascade in the database, which this model does not include, so the share
   * table is left as it is.
   */
  method DeleteExpense(db: Backend, expenseId: Id, rejected: bool) returns (r: Result<(), Error>)
    requires db.Valid()
    modifies db
    ensures db.Valid() && db.nextId == old(db.nextId)
    ensures r.Success? <==> !rejected
    ensures db.Snapshot() == old(db.Snapshot()).(expenses := if rejected then old(db.expenses) else Filter(old(db.expenses), IdIsNot(expenseId)))
  {
    if rejected {
      return Failure(Rejected);
    }
    db.expenses := Filter(db.expenses, IdIsNot(expenseId));
    return Success(());
  }

  /** Once an expense is deleted, no user's list contains it, even if share rows still name it. */
  lemma DeletedExpenseNotListed(t: Tables, expenseId: Id, me: Id)
    ensures var after := t.(expenses := Filter(t.expenses, IdIsNot(expenseId)));
      forall v :: v in FetchExpenses(after, Some(me)).value ==> v.id != expenseId
  {
    var after := t.(expenses := Filter(t.expenses, IdIsNot(expenseId)));
    FetchExpensesListsVisible(after, me);
  }
}
