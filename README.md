# split-sync hooks, modelled in Dafny

split-sync is a React Native app for sharing expenses among friends and
groups. Its logic lives in three data hooks: `useExpenses`, `useGroups` and
`useFriends`. Each hook reads and writes a Supabase backend and turns the
rows into the lists the screens show. This project models those hooks. The
backend becomes an in-memory store of seven tables: `users`,
`manual_friends`, `friendships`, `groups`, `group_members`, `expenses` and
`expense_shares`. The logged-in user becomes a parameter.

Modules, one file each:

- `Wrappers`: `Option` and `Result`.
- `Seqs`: the array operations the hooks are written with, and facts about
  them. These are `filter`, `map`, `map(...).filter(present)`, `find` and
  `[...new Set(xs)]`.
- `Store`: the row types and the `Tables` snapshot value. It also holds the
  class `Backend`, whose fields are the seven tables plus a counter, `nextId`.
  Every id the backend generates comes from that counter. `Backend.Valid()`
  says every issued id is below the counter.
- `Expenses`: `fetchExpenses`, `createExpense`, `markShareAsPaid` and
  `deleteExpense`.
- `Groups`: `fetchGroups`, `createGroup`, `addMember`, `removeMember` and
  `deleteGroup`.
- `Friends`: `fetchFriends` and `addFriend`.

`fetchExpenses` and `fetchGroups` are pure functions of a `Tables` value.
`fetchFriends` is a method that reads the `Backend` and fills an array of
friends. A query's answer is the matching rows in table order. `.single()`
succeeds only when exactly one row matches.

Writes are methods on a `Backend`. Each write states the whole new store,
with the row it appends or the rows it filters out. A backend rejection is an
explicit boolean or position-set input. Each method states what stays
written when that rejection happens.

Two loops change records in place, and each stays an in-place loop:

- `createGroup` processes members one at a time and writes each manual
  friend's id back into the caller's member object. Here that is
  `Groups.AttachMembers` on an `array<MemberInput>`.
- `fetchFriends` overwrites each friend's `balance` in place. Here that is
  `Friends.FillBalances` on an `array<FriendView>`.

Each loop is proved against a specification function: `Groups.AttachAll`
for the member loop and `Friends.Listed` for the balances. The source's
promises are then proved as lemmas about those functions.

The model follows the code where the code differs from what its features
suggest:

- The balance computation reads `expense_shares.user_id`. `createExpense`
  writes `registered_user_id` / `manual_friend_id` and never writes
  `user_id`. Shares created by the app therefore never move a balance
  (`Friends.NewExpenseWithoutUserIdsLeavesBalances`). `ShareRow` carries
  both sets of columns.
- `userShare` tests `share.user.id === share.manual_friend_id` on the mapped
  share object. That object has no `manual_friend_id`, so a manual share is
  never picked (`Expenses.UserShareIsOwnRegisteredShare`).
- `addFriend` checks only the direction from the user to the target
  (`Friends.ReverseFriendshipNotChecked`). It also counts as "already
  friends" only when exactly one such row exists, because that lookup is
  `.single()`.
- `deleteGroup` deletes neither the group's `group_members` rows nor checks
  that the caller owns the group. `addMember` and `removeMember` do not check
  the caller either.
- `createExpense` does not validate the title or the amounts.
- Expenses keep a manual share even when its `manual_friends` row is missing,
  because the share's own `manual_friend_id` is the id. Groups drop a
  membership whose `users` / `manual_friends` row is missing, because there
  the id comes from the joined row.

## Model

| member | source | states |
|---|---|---|
| Seqs.Dedup | src/hooks/useGroups.js:45-48 | `[...new Set(xs)]` has no repeated id and holds exactly the ids of `xs` |
| Store.ManualFriendIdsOf | src/hooks/useExpenses.js:33-36 | the ids returned are exactly those of the manual friends the user owns |
| Expenses.CreatedExpenseIds | src/hooks/useExpenses.js:16-20 | an id is listed iff an expense with that id was created by the user |
| Expenses.RegisteredShareExpenseIds | src/hooks/useExpenses.js:24-30 | an id is listed iff a share of that expense names the user as registered user |
| Expenses.ManualShareExpenseIds | src/hooks/useExpenses.js:42-48 | an id is listed iff a share of that expense names a manual friend the user owns; the empty-friends shortcut loses nothing |
| Expenses.VisibleExpenseIds | src/hooks/useExpenses.js:52-57 | the combined ids have no duplicates, and an id is in them iff the expense is visible through one of the three routes |
| Expenses.ResolveShare | src/hooks/useExpenses.js:141-157 | a share is kept iff the id its tag selects is present; a manual share becomes a manual person with that `manual_friend_id`, no e-mail, and the name of a `manual_friends` row with that id (none when there is no such row); a registered one a registered person with that `registered_user_id` and the name and e-mail of a `users` row with that id (none when there is no such row); id, amount and paid are copied |
| Expenses.ExpenseShares | src/hooks/useExpenses.js:139-157 | an expense's shares are exactly the resolved shares among the share rows with that `expense_id` |
| Expenses.ExpenseSharesConcat | src/hooks/useExpenses.js:139-157 | the shares of two runs of rows are those of the first run followed by those of the second: row order, which decides `userShare`, is kept |
| Expenses.ExpenseSharesOfOneRow | src/hooks/useExpenses.js:139-157 | one row shows exactly its resolved share when it is of the expense and names someone, and nothing otherwise |
| Expenses.UserShare | src/hooks/useExpenses.js:170-173 | a found share is one of the expense's shares naming the user as registered user; none is found iff no share does |
| Expenses.UserShareIsOwnRegisteredShare | src/hooks/useExpenses.js:170-173 | `userShare` equals the first share whose person is registered with the user's id; it is never a manual share |
| Expenses.ViewExpense | src/hooks/useExpenses.js:159-175 | a presented expense copies the row's fields, names its group and creator when those rows exist, is owned iff the user created it, lists its share rows' resolved shares in row order, and its `userShare` is the first own registered share of that list |
| Expenses.FetchExpenses | src/hooks/useExpenses.js:12-64 | fails with no user logged in and only then; with no visible id the list is empty |
| Expenses.FetchExpensesListsVisible | src/hooks/useExpenses.js:66-175 | the list holds exactly the visible expense rows, each presented with all of its share rows; fetching shares only for the visible ids loses none |
| Expenses.ListedExpensesExist | src/hooks/useExpenses.js:159-168 | every listed expense has a row with its id, and `isOwner` holds iff that row's `created_by` is the user |
| Expenses.RegisteredAmong | src/hooks/useExpenses.js:206-214 | a requested id is among the registered ids iff a user with that id exists |
| Expenses.ShareRowFor | src/hooks/useExpenses.js:234-258 | the row is manual iff the id is not a registered one; exactly one of the two person columns is set, to the requested id; it names the new expense, copies the amount and is unpaid |
| Expenses.ShareRows | src/hooks/useExpenses.js:232-259 | one row per requested share, in input order, each built as above, with fresh ids after the expense's |
| Expenses.CreatedShareRows | src/hooks/useExpenses.js:207-259 | the k-th written row is for the new expense, has the k-th amount, is unpaid, and is manual exactly when no user has the requested id |
| Expenses.CreateExpense | src/hooks/useExpenses.js:197-270 | no user, a failed lookup or a rejected expense insert writes nothing; otherwise the expense row is appended and then the share rows; a rejected share insert leaves the expense without shares; success iff nothing was rejected |
| Expenses.InsertExpense | src/hooks/useExpenses.js:216-229 | appends the expense row under the next id; no existing share refers to that id |
| Expenses.InsertShares | src/hooks/useExpenses.js:263-270 | appends the share batch and nothing else |
| Expenses.MarkPaid | src/hooks/useExpenses.js:283-286 | only the `paid` column changes, and a row is paid afterwards iff it was paid before or has the given id |
| Expenses.MarkPaidIdempotent | src/hooks/useExpenses.js:281-294 | marking the same share paid twice equals marking it once |
| Expenses.MarkShareAsPaid | src/hooks/useExpenses.js:281-294 | on success the share table becomes `MarkPaid` of the old one; on rejection nothing changes |
| Expenses.DeleteExpense | src/hooks/useExpenses.js:296-309 | on success exactly the rows with that id leave the expense table; nothing else changes |
| Expenses.DeletedExpenseNotListed | src/hooks/useExpenses.js:296-305 | after the delete no user's expense list contains that id, even when share rows still name it |
| Groups.RegisteredGroupIds | src/hooks/useGroups.js:17-22 | an id is listed iff a membership of that group names the user as registered user |
| Groups.ManualGroupIds | src/hooks/useGroups.js:24-42 | an id is listed iff a membership of that group names a manual friend the user owns |
| Groups.VisibleGroupIds | src/hooks/useGroups.js:44-48 | the combined ids have no duplicates, and an id is in them iff the group is reachable directly or through one of the user's manual friends |
| Groups.ResolveMember | src/hooks/useGroups.js:111-130 | a membership is kept iff the `manual_friends` / `users` row it names exists; a manual one becomes a manual member with the id and name of a friend row with that id and no e-mail, a registered one a registered member with that user's id, name and e-mail |
| Groups.GroupMembers | src/hooks/useGroups.js:108-130 | a group's members are exactly the resolved members among its membership rows |
| Groups.GroupMembersConcat | src/hooks/useGroups.js:108-130 | the members of two runs of rows are those of the first run followed by those of the second: row order and repetitions are kept |
| Groups.GroupMembersOfOneRow | src/hooks/useGroups.js:108-130 | one row shows exactly its resolved member when it is of the group and names a known person, and nothing otherwise |
| Groups.ViewGroup | src/hooks/useGroups.js:132-137 | a presented group keeps the row's id and name, is owned iff the user created it, and has exactly the members its rows resolve to |
| Groups.FetchedUsers | src/hooks/useGroups.js:76-94 | the users loaded are exactly those a registered membership names; with no such membership none is loaded |
| Groups.FetchedFriends | src/hooks/useGroups.js:82-104 | the manual friends loaded are exactly those a manual membership names; with no such membership none is loaded |
| Groups.ResolveAgainstFetched | src/hooks/useGroups.js:76-105 | loading only the users and manual friends the memberships name resolves every membership as the full tables would |
| Groups.FetchGroups | src/hooks/useGroups.js:9-53 | fails with no user logged in and only then; with no visible id the list is empty |
| Groups.FetchedMembersComplete | src/hooks/useGroups.js:63-130 | the members shown for a visible group are those of all of its membership rows |
| Groups.FetchGroupsListsVisible | src/hooks/useGroups.js:55-140 | the list holds exactly the visible group rows, each presented with `isOwner` iff the user created it and with its resolved members |
| Groups.ListedGroupsExist | src/hooks/useGroups.js:132-137 | every listed group comes from a visible group row with its id and name, and `isOwner` holds iff that row's `created_by` is the user |
| Groups.AttachStep | src/hooks/useGroups.js:183-240 | processing one member changes nothing of it but its id, creates at most one manual friend, owned by the user, with the next id and the member's name, and writes membership rows only for the new group |
| Groups.AttachAll | src/hooks/useGroups.js:181-241 | the loop yields one updated member per input member |
| Groups.AttachStepEffect | src/hooks/useGroups.js:184-238 | a registered member gets its membership unless that insert fails; a manual member reuses the one same-named friend of the user when there is exactly one; otherwise, when the friend insert is rejected, nothing is written and the member is left as it was (skipped), and when it is not, a new friend with the next id is created and written back; the membership references the friend |
| Groups.AttachAllBounds | src/hooks/useGroups.js:182-241 | the member loop only appends: the old manual friends and membership rows stay a prefix, new manual friends are the user's with fresh ids, and new membership rows are for the new group |
| Groups.MembersJoin | src/hooks/useGroups.js:182-241 | every member whose inserts are not rejected ends up in the group, whatever happened to the others; a manual one under the id of a friend of the user with its name, written back into the member |
| Groups.InsertGroup | src/hooks/useGroups.js:155-165 | appends the group row, created by the user, under the next id |
| Groups.InsertMembership | src/hooks/useGroups.js:167-179 | appends one membership row and nothing else |
| Groups.InsertManualFriend | src/hooks/useGroups.js:206-221 | appends a manual friend of the user with that name under the next id |
| Groups.AttachOne | src/hooks/useGroups.js:183-240 | processing one member changes the tables and that member as `AttachStep` says, and no other member |
| Groups.AttachMembers | src/hooks/useGroups.js:182-241 | the loop leaves the tables and the member array as `AttachAll` over the members in order says |
| Groups.CreateGroup | src/hooks/useGroups.js:150-250 | no user or a rejected group insert writes nothing; otherwise the group row is appended, then the creator's membership, which stays right after the old rows, then the loop's rows; a rejected creator insert leaves the group without members; success iff neither was rejected |
| Groups.AddMember | src/hooks/useGroups.js:252-277 | fails with user-not-found unless exactly one user has the e-mail; on success appends one registered membership for that user, otherwise nothing changes |
| Groups.AddedMemberSeesGroup | src/hooks/useGroups.js:262-269 | after the membership is appended the added user sees the group |
| Groups.WithoutMember | src/hooks/useGroups.js:281-285 | a membership is removed iff it matches both the group and the registered user |
| Groups.RemoveMember | src/hooks/useGroups.js:279-293 | on success the membership table becomes `WithoutMember` of the old one; on rejection nothing changes |
| Groups.RemoveUndoesAdd | src/hooks/useGroups.js:262-285 | removing a member right after adding them gives the table `removeMember` alone would |
| Groups.RemovedMemberSeesGroupOnlyThroughFriends | src/hooks/useGroups.js:279-285 | after the removal the user still sees the group only through a manual friend they own |
| Groups.DeleteGroup | src/hooks/useGroups.js:295-324 | a rejected expense delete changes nothing; otherwise the group's expenses go first, then the group row unless that delete is rejected; memberships stay |
| Groups.DeletedGroupNotListed | src/hooks/useGroups.js:308-317 | after the delete no user's group list contains that group, though its memberships remain |
| Groups.DeletedGroupExpensesNotListed | src/hooks/useGroups.js:297-306 | after the expense delete every listed expense comes from a row outside that group |
| Friends.FriendIds | src/hooks/useFriends.js:16-38 | an id is listed iff an accepted friendship links it to the user in either storage direction |
| Friends.FriendUsers | src/hooks/useFriends.js:45-49 | the loaded users are exactly those whose id is a friend id; no id gives no user |
| Friends.SharesOf | src/hooks/useFriends.js:64-75 | an expense's embedded shares are exactly the share rows with its id |
| Friends.FirstShareAmount | src/hooks/useFriends.js:96-98 | the amount of the first share whose `user_id` is that user, counted 0 when missing; 0 when they hold no share |
| Friends.CreatorSum | src/hooks/useFriends.js:94-106 | the sum over the creator's expenses of the other user's share amount; 0 when the creator made none of them |
| Friends.TotalOwed | src/hooks/useFriends.js:94-99 | what the friend owes: 0 when the user created no expense |
| Friends.TotalOwes | src/hooks/useFriends.js:101-106 | what the user owes: 0 when the friend created no expense |
| Friends.Balance | src/hooks/useFriends.js:108 | the balance is what the friend computes from their side, negated; 0 when neither created an expense |
| Friends.OneSharedExpenseBalance | src/hooks/useFriends.js:94-108 | one expense the user created with one share held by the friend gives the friend a balance of exactly that amount, and the user the negation on the friend's side |
| Friends.CreatorSumConcat | src/hooks/useFriends.js:94-99 | the balance sum over two runs of expenses is the sum of the sums |
| Friends.SumWithoutSharesIsZero | src/hooks/useFriends.js:94-106 | when the user holds no share of any expense the creator made, that side of the balance is 0 |
| Friends.NoSharedExpensesMeansZeroBalance | src/hooks/useFriends.js:94-108 | with no share in either direction the balance is 0 |
| Friends.BalanceAntisymmetric | src/hooks/useFriends.js:94-108 | the friend's balance against the user is the negation of the user's against the friend |
| Friends.SumIgnoresUnlabelledShares | src/hooks/useFriends.js:96-105 | share rows without `user_id` change no balance sum |
| Friends.NewExpenseWithoutUserIdsLeavesBalances | src/hooks/useFriends.js:94-108 | recording a new expense whose shares leave `user_id` empty, as the expense hook writes them, leaves every pairwise balance unchanged |
| Friends.FillBalances | src/hooks/useFriends.js:62-112 | each friend's balance is overwritten with its balance, or with 0 when its queries fail; a failure affects only that friend |
| Friends.FetchFriends | src/hooks/useFriends.js:9-59 | fails with no user logged in; no friend id gives the empty list; otherwise one entry per loaded user, in order, with its balance as above |
| Friends.AddFriendCheck | src/hooks/useFriends.js:131-148 | fails with user-not-found iff the e-mail does not match exactly one user; otherwise fails with already-friends iff exactly one friendship row goes from the user to that user; succeeds with that user's id otherwise |
| Friends.AddFriend | src/hooks/useFriends.js:124-158 | with no user, a failed check or a rejected insert nothing is written; otherwise exactly one accepted friendship from the user to the target is appended |
| Friends.SecondAddFriendFails | src/hooks/useFriends.js:139-156 | adding the same e-mail a second time fails with already-friends, and exactly one such friendship exists |
| Friends.ReverseFriendshipNotChecked | src/hooks/useFriends.js:139-148 | a friendship stored only in the other direction does not stop `addFriend` |

## Left out

- Supabase I/O, authentication and React state are not modelled. The query
  builder, `auth.getUser()` and the loading/error setters are absent. The
  logged-in user is an `Option<Id>` parameter, and generated UUIDs come from
  `nextId`.
- Read queries never fail here. A failed read makes `fetchExpenses`,
  `fetchGroups` and `fetchFriends` set an error and an empty list; that path
  is not modelled; only the missing user is. Two reads do fail in the model:
  the per-friend balance queries, through the `failedAt` input, and the user
  lookup of `createExpense`, through `ExpenseFaults.lookupFails`.
- The realtime subscription and its 300 ms debounce are timers and callbacks,
  and are not modelled.
- `Promise.all` is modelled as two reads in sequence, because both reads are
  independent.
- The debug share dump and the hard-coded test-expense query change nothing.
- `refreshGroups` is dead code: it calls an undefined `processGroups`, and
  the exported `refreshGroups` is `fetchGroups`.
- Amounts are integers (`Option<int>`, with `None` for a missing or
  non-numeric value), not JavaScript floating point.
- Expenses.DeleteExpense: the database cascade that removes an expense's
  shares is not in the code, so the share table is left unchanged.
- Groups.DeleteGroup: likewise, the share rows of the group's deleted
  expenses are left in the share table.
- The `await fetchX()` refresh after each write is not modelled. It is the
  corresponding fetch applied to the new store.
- Groups.CreateGroup: the `catch` around each member only swallows
  rejections, which are the fault inputs here. Errors other than a rejected
  insert are not modelled.
- Screens, navigation, `useAuth`, `App.js` and the theme are UI glue, and
  are not part of this model.
