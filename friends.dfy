/**
 * The friends hook: the friend list of the logged-in user, each friend's
 * balance against the user, and adding a friend by e-mail.
 */
module Friends {
  import opened Wrappers
  import opened Seqs
  import opened Store

  /** A friend as the hook lists it; `balance` is what the friend owes the user (negative: what the user owes). */
  datatype FriendView = FriendView(id: Id, name: string, email: string, balance: int)

  function InitiatedBy(me: Id): FriendshipRow -> bool
  {
    (f: FriendshipRow) => f.userId == me && f.status == Accepted
  }

  function ReceivedBy(me: Id): FriendshipRow -> bool
  {
    (f: FriendshipRow) => f.friendId == me && f.status == Accepted
  }

  function FriendSide(f: FriendshipRow): Id
  {
    f.friendId
  }

  function UserSide(f: FriendshipRow): Id
  {
    f.userId
  }

  /**
   * The ids of the user's friends: the other end of every accepted
   * friendship the user initiated, then of every one the user received.
   * Nothing is deduplicated here.
   */
  function FriendIds(friendships: seq<FriendshipRow>, me: Id): (ids: seq<Id>)
    ensures forall x :: x in ids <==>
      exists f :: f in friendships && f.status == Accepted &&
        ((f.userId == me && f.friendId == x) || (f.friendId == me && f.userId == x))
  {
    Map(Filter(friendships, InitiatedBy(me)), FriendSide) + Map(Filter(friendships, ReceivedBy(me)), UserSide)
  }

  /** The `users` rows whose id is one of `ids`, in table order, each row once. */
  function FriendUsers(users: seq<UserRow>, ids: seq<Id>): (found: seq<UserRow>)
    ensures forall u :: u in found <==> u in users && u.id in ids
    ensures ids == [] ==> found == []
  {
    Filter(users, UserIdIn(ids))
  }

  function HeldBy(who: Id): ShareRow -> bool
  {
    (s: ShareRow) => s.userId == Some(who)
  }

  /** The shares embedded in an expense row by the nested `expense_shares(...)` select. */
  function SharesOf(e: ExpenseRow, shares: seq<ShareRow>): (r: seq<ShareRow>)
    ensures forall s :: s in r <==> s in shares && s.expenseId == e.id
  {
    Filter(shares, OfExpense(e.id))
  }

  /** The amount of the first of `shares` whose `user_id` is `who`, or 0 when there is none. */
  function FirstShareAmount(shares: seq<ShareRow>, who: Id): (amount: int)
    ensures (forall s :: s in shares ==> s.userId != Some(who)) ==> amount == 0
    ensures amount != 0 ==> exists s :: s in shares && s.userId == Some(who) && Cents(s.amount) == amount
    ensures (exists s :: s in shares && s.userId == Some(who)) ==>
      exists i :: 0 <= i < |shares| && shares[i].userId == Some(who) && amount == Cents(shares[i].amount) &&
        forall j :: 0 <= j < i ==> shares[j].userId != Some(who)
  {
    match Find(shares, HeldBy(who))
    case Some(s) => Cents(s.amount)
    case None => 0
  }

  /**
   * The `reduce` over the expenses the query `.eq('created_by', creator)`
   * returns: walking the table in order, each expense `creator` created adds
   * the amount of `who`'s first share in it.
   */
  function CreatorSum(expenses: seq<ExpenseRow>, shares: seq<ShareRow>, creator: Id, who: Id): (sum: int)
    ensures (forall e :: e in expenses ==> e.createdBy != creator) ==> sum == 0
  {
    if expenses == [] then 0
    else
      var last := expenses[|expenses| - 1];
      CreatorSum(expenses[..|expenses| - 1], shares, creator, who) +
        (if last.createdBy == creator then FirstShareAmount(SharesOf(last, shares), who) else 0)
  }

  /** What `friend` owes `me`: the friend's shares in the expenses `me` created. */
  function TotalOwed(t: Tables, me: Id, friend: Id): (owed: int)
    ensures (forall e :: e in t.expenses ==> e.createdBy != me) ==> owed == 0
  {
    CreatorSum(t.expenses, t.shares, me, friend)
  }

  /** What `me` owes `friend`: the user's shares in the expenses the friend created. */
  function TotalOwes(t: Tables, me: Id, friend: Id): (owes: int)
    ensures (forall e :: e in t.expenses ==> e.createdBy != friend) ==> owes == 0
  {
    CreatorSum(t.expenses, t.shares, friend, me)
  }

  /** What `friend` owes `me`, net: positive when the friend owes, negative when the user owes. */
  function Balance(t: Tables, me: Id, friend: Id): (balance: int)
    ensures balance == TotalOwes(t, friend, me) - TotalOwed(t, friend, me)
    ensures (forall e :: e in t.expenses ==> e.createdBy != me && e.createdBy != friend) ==> balance == 0
  {
    TotalOwed(t, me, friend) - TotalOwes(t, me, friend)
  }

  /** The sum over a concatenation is the sum of the sums. */
  lemma {:induction false} CreatorSumConcat(a: seq<ExpenseRow>, b: seq<ExpenseRow>, shares: seq<ShareRow>, creator: Id, who: Id)
    ensures CreatorSum(a + b, shares, creator, who) == CreatorSum(a, shares, creator, who) + CreatorSum(b, shares, creator, who)
  {
    if b != [] {
      var front := b[..|b| - 1];
      assert (a + b)[..|a + b| - 1] == a + front;
      assert (a + b)[|a + b| - 1] == b[|b| - 1];
      CreatorSumConcat(a, front, shares, creator, who);
    } else {
      assert a + b == a;
    }
  }

  /** When `who` holds no share of any expense `creator` made, the sum is 0. */
  lemma {:induction false} SumWithoutSharesIsZero(expenses: seq<ExpenseRow>, shares: seq<ShareRow>, creator: Id, who: Id)
    requires forall e, s :: e in expenses && e.createdBy == creator && s in shares && s.expenseId == e.id ==> s.userId != Some(who)
    ensures CreatorSum(expenses, shares, creator, who) == 0
  {
    if expenses != [] {
      var front := expenses[..|expenses| - 1];
      assert forall e :: e in front ==> e in expenses;
      SumWithoutSharesIsZero(front, shares, creator, who);
    }
  }

  /** A friend with whom the user shares no expense in either direction has balance 0. */
  lemma NoSharedExpensesMeansZeroBalance(t: Tables, me: Id, friend: Id)
    requires forall e, s :: e in t.expenses && s in t.shares && s.expenseId == e.id && e.createdBy == me ==> s.userId != Some(friend)
    requires forall e, s :: e in t.expenses && s in t.shares && s.expenseId == e.id && e.createdBy == friend ==> s.userId != Some(me)
    ensures Balance(t, me, friend) == 0
  {
    SumWithoutSharesIsZero(t.expenses, t.shares, me, friend);
    SumWithoutSharesIsZero(t.expenses, t.shares, friend, me);
  }

  /** Computing the balance from the friend's side gives the negation. */
  lemma BalanceAntisymmetric(t: Tables, me: Id, friend: Id)
    ensures Balance(t, friend, me) == -Balance(t, me, friend)
  {
  }

  /**
   * One expense the user created, with one share held by the friend: the
   * friend owes the user exactly that share's amount.
   */
  lemma OneSharedExpenseBalance(users: seq<UserRow>, e: ExpenseRow, s: ShareRow, me: Id, friend: Id)
    requires me != friend && e.createdBy == me
    requires s.expenseId == e.id && s.userId == Some(friend)
    ensures var t := Tables(users, [], [], [], [], [e], [s]);
      Balance(t, me, friend) == Cents(s.amount) && Balance(t, friend, me) == -Cents(s.amount)
  {
    assert [e][..0] == [];
    assert SharesOf(e, [s]) == [s];
  }

  /** Adding share rows whose `user_id` is absent changes no sum. */
  lemma {:induction false} SumIgnoresUnlabelledShares(expenses: seq<ExpenseRow>, shares: seq<ShareRow>, added: seq<ShareRow>, creator: Id, who: Id)
    requires forall s :: s in added ==> s.userId.None?
    ensures CreatorSum(expenses, shares + added, creator, who) == CreatorSum(expenses, shares, creator, who)
  {
    if expenses != [] {
      var last := expenses[|expenses| - 1];
      SumIgnoresUnlabelledShares(expenses[..|expenses| - 1], shares, added, creator, who);
      FilterConcat(shares, added, OfExpense(last.id));
      FindIgnoresTail(SharesOf(last, shares), SharesOf(last, added), HeldBy(who));
    }
  }

  /**
   * Recording a new expense whose share rows leave `user_id` absent (as the
   * expense hook writes them) leaves the balance between any two users as it
   * was.
   */
  lemma NewExpenseWithoutUserIdsLeavesBalances(t: Tables, e: ExpenseRow, added: seq<ShareRow>, a: Id, b: Id)
    requires forall s :: s in added ==> s.userId.None?
    requires forall s :: s in t.shares ==> s.expenseId != e.id
    ensures Balance(t.(expenses := t.expenses + [e], shares := t.shares + added), a, b) == Balance(t, a, b)
  {
    var t' := t.(expenses := t.expenses + [e], shares := t.shares + added);
    forall creator: Id, who: Id
      ensures CreatorSum(t'.expenses, t'.shares, creator, who) == CreatorSum(t.expenses, t.shares, creator, who)
    {
      CreatorSumConcat(t.expenses, [e], t'.shares, creator, who);
      SumIgnoresUnlabelledShares(t.expenses, t.shares, added, creator, who);
      SumIgnoresUnlabelledShares([e], t.shares, added, creator, who);
      SumWithoutSharesIsZero([e], t.shares, creator, who);
    }
  }

  /** The entry for the k-th found user: balance 0 when its queries failed, else its balance. */
  function ListedFriend(t: Tables, me: Id, failedAt: set<nat>, found: seq<UserRow>, k: nat): FriendView
    requires k < |found|
  {
    NewFriend(found[k]).(balance := if k in failedAt then 0 else Balance(t, me, found[k].id))
  }

  /** The record a found user starts as, with balance 0. */
  function NewFriend(u: UserRow): FriendView
  {
    FriendView(u.id, u.fullName, u.email, 0)
  }

  /** The friend list `fetchFriends` produces: one entry per found user, in order. */
  ghost predicate Listed(t: Tables, me: Id, failedAt: set<nat>, friends: seq<FriendView>)
  {
    var found := FriendUsers(t.users, FriendIds(t.friendships, me));
    |friends| == |found| &&
    forall k :: 0 <= k < |found| ==> friends[k] == ListedFriend(t, me, failedAt, found, k)
  }

  /**
   * The loop of `fetchFriends` that overwrites each friend's balance in place:
   * with 0 when that friend's queries fail, with the computed balance otherwise.
   */
  method FillBalances(friends: array<FriendView>, t: Tables, me: Id, failedAt: set<nat>, found: seq<UserRow>)
    requires friends.Length == |found|
    requires forall j :: 0 <= j < |found| ==> friends[j] == NewFriend(found[j])
    modifies friends
    ensures forall j :: 0 <= j < |found| ==> friends[j] == ListedFriend(t, me, failedAt, found, j)
  {
    for k := 0 to friends.Length
      invariant forall j :: 0 <= j < k ==> friends[j] == ListedFriend(t, me, failedAt, found, j)
      invariant forall j :: k <= j < friends.Length ==> friends[j] == NewFriend(found[j])
    {
      if k in failedAt {
        friends[k] := friends[k].(balance := 0);
      } else {
        var owed := TotalOwed(t, me, friends[k].id);
        var owes := TotalOwes(t, me, friends[k].id);
        friends[k] := friends[k].(balance := owed - owes);
      }
    }
  }

  /**
   * `fetchFriends`: the registered users at the other end of the user's
   * accepted friendships, each with its balance. The balances are filled in
   * place, one friend at a time; when the queries for the friend at position
   * k fail (`k in failedAt`), that friend keeps balance 0 and the loop goes on.
   */
  method FetchFriends(db: Backend, me: Option<Id>, failedAt: set<nat>) returns (r: Result<seq<FriendView>, Error>)
    ensures me.None? ==> r == Failure(NoUser)
    ensures me.Some? && FriendIds(db.friendships, me.value) == [] ==> r == Success([])
    ensures me.Some? ==> r.Success? && Listed(db.Snapshot(), me.value, failedAt, r.value)
  {
    if me.None? {
      return Failure(NoUser);
    }
    var user := me.value;
    var ids := FriendIds(db.friendships, user);
    if |ids| == 0 {
      return Success([]);
    }
    var found := FriendUsers(db.users, ids);
    var friends := new FriendView[|found|](k requires 0 <= k < |found| => NewFriend(found[k]));
    FillBalances(friends, db.Snapshot(), user, failedAt, found);
    return Success(friends[..]);
  }

  function Edge(from: Id, to: Id): FriendshipRow -> bool
  {
    (f: FriendshipRow) => f.userId == from && f.friendId == to
  }

  /**
   * The checks `addFriend` makes before it writes. Both lookups are
   * `.single()`: the e-mail must match exactly one user, and the user counts
   * as already a friend only when exactly one row goes from the user to the
   * target, whatever its status; the reverse direction is not looked at.
   */
  function AddFriendCheck(t: Tables, me: Id, email: string): (r: Result<Id, Error>)
    ensures r.Success? ==> exists u :: u in t.users && u.email == email && u.id == r.value
    ensures r.Failure? ==> r.error == UserNotFound || r.error == AlreadyFriends
    ensures r == Failure(UserNotFound) <==> |Filter(t.users, HasEmail(email))| != 1
    ensures r == Failure(AlreadyFriends) <==>
      |Filter(t.users, HasEmail(email))| == 1 &&
      |Filter(t.friendships, Edge(me, Filter(t.users, HasEmail(email))[0].id))| == 1
    ensures r.Success? ==> Filter(t.users, HasEmail(email)) == [UserRow(r.value, email, Filter(t.users, HasEmail(email))[0].fullName)]
  {
    var found := Filter(t.users, HasEmail(email));
    if |found| != 1 then Failure(UserNotFound)
    else if |Filter(t.friendships, Edge(me, found[0].id))| == 1 then Failure(AlreadyFriends)
    else assert found[0] in found; Success(found[0].id)
  }

  /**
   * `addFriend`: on success exactly one friendship row, accepted, from the
   * user to the target, is appended; on any failure nothing is written.
   */
  method AddFriend(db: Backend, me: Option<Id>, email: string, insertRejected: bool) returns (r: Result<(), Error>)
    requires db.Valid()
    modifies db
    ensures db.Valid()
    ensures me.None? ==> r == Failure(NoUser)
    ensures me.Some? && AddFriendCheck(old(db.Snapshot()), me.value, email).Failure? ==>
      r == Failure(AddFriendCheck(old(db.Snapshot()), me.value, email).error)
    ensures r.Success? <==> me.Some? && AddFriendCheck(old(db.Snapshot()), me.value, email).Success? && !insertRejected
    ensures r.Success? ==>
      db.Snapshot() == old(db.Snapshot()).(friendships := old(db.friendships) +
        [FriendshipRow(old(db.nextId), me.value, AddFriendCheck(old(db.Snapshot()), me.value, email).value, Accepted)]) &&
      db.nextId == old(db.nextId) + 1
    ensures r.Failure? ==> db.Snapshot() == old(db.Snapshot()) && db.nextId == old(db.nextId)
  {
    if me.None? {
      return Failure(NoUser);
    }
    var check := AddFriendCheck(db.Snapshot(), me.value, email);
    if check.Failure? {
      return Failure(check.error);
    }
    if insertRejected {
      return Failure(Rejected);
    }
    db.friendships := db.friendships + [FriendshipRow(db.nextId, me.value, check.value, Accepted)];
    db.nextId := db.nextId + 1;
    return Success(());
  }

  /**
   * Adding the same e-mail twice: once the first call has written its row
   * (there was none from the user to the target before), the second call
   * fails with AlreadyFriends, and exactly one such row exists.
   */
  lemma SecondAddFriendFails(t: Tables, me: Id, email: string, rowId: Id)
    requires AddFriendCheck(t, me, email).Success?
    requires Filter(t.friendships, Edge(me, AddFriendCheck(t, me, email).value)) == []
    ensures var target := AddFriendCheck(t, me, email).value;
      var t' := t.(friendships := t.friendships + [FriendshipRow(rowId, me, target, Accepted)]);
      AddFriendCheck(t', me, email) == Failure(AlreadyFriends) &&
      |Filter(t'.friendships, Edge(me, target))| == 1
  {
    var target := AddFriendCheck(t, me, email).value;
    FilterConcat(t.friendships, [FriendshipRow(rowId, me, target, Accepted)], Edge(me, target));
  }

  /** A friendship stored only in the other direction does not stop `addFriend`. */
  lemma ReverseFriendshipNotChecked(t: Tables, me: Id, email: string, target: UserRow)
    requires Filter(t.users, HasEmail(email)) == [target]
    requires forall f :: f in t.friendships ==> !(f.userId == me && f.friendId == target.id)
    ensures AddFriendCheck(t, me, email) == Success(target.id)
  {
  }
}
