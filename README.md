# EatThatList: client-side collection sync, in Dafny

EatThatList is a React Native client for shared lists. Users own lists, invite
collaborators by email and add or remove list items. The client keeps three
cached collections in step with a hosted GraphQL backend: `Lists`,
`ListItems` and `Invites` (collaborators). This project models the code that
computes those caches and proves properties about it:

- **Subscription reconcilers** (`AvailableLists.UpdateQuery`/`Merge`,
  `SelectedList.UpdateQuery`/`Merge`). Each takes the cached result and a full
  server snapshot and returns the next cached result.
  - If the snapshot is at least as long as the cache ("growth"), the cached
    entries are kept and the snapshot entries created by other users that are
    not cached yet are appended.
  - If the snapshot is shorter ("shrink"), only the cached entries still in the
    snapshot are kept.
  - The lists variant also drops cached entries whose id is not positive. These
    are optimistic entries. The items variant keeps them.
  - The length heuristic is modelled as written. `ConcurrentAddAndDeleteKeepsStaleList`
    shows the case it gets wrong.
- **Optimistic cache updates** (the mutations' `update` callbacks). Each one
  reads a cached query result, transforms it and writes it back. Insert
  appends the `returning` rows. Delete drops the returned ids. The cache is a
  `QueryCache.Store` object whose `rows` the callbacks overwrite.
  - Two delete paths return early when `returning` has no `length`: deleting a
    list, and removing a collaborator. Their optimistic responses pass a single
    object, not an array, so the optimistic pass leaves the cache unchanged.
    `QueryCache.Returning` keeps the two shapes apart.
- **Invite decision** (`ListSettings.DecideInvitee`, `ListSettings.Screen.AddInvitee`)
  and the tri-state status label (`Invite.InviteStatus`).
- **Swipe-to-delete countdown** (`SwipeableRow`). Pure step functions define the
  state machine. The class `SwipeableRow.Row` holds the component state and
  is proved against them. The row has no cancel path: once swiped left it
  counts down to removal, and after removal it is `Hidden`.
- **Mock list service** (`Api.MockListStore`). A module-level `listData` is
  replaced by `addItem` and `deleteItem`, and both start again from the bundled
  `data`.

`Collections` holds the array operations the components use: `filter` as
`Filter`, `map(x => x.id)` as `Ids`, and `IsSubsequence` and `UniqueIds` for
order and uniqueness. `QueryCache` holds the cache store and the shared delete
transforms.

Temporary ids come from `Math.random() * -10000` in the source. Here they are
an integer parameter `tempId <= 0`. The source's value can be `-0`, which also
fails the `id > 0` test.

## Model

| member | source | states |
|---|---|---|
| `AvailableLists.UpdateQuery` | src/components/AvailableLists.tsx:173-199 | no previous result gives `Lists = []`; a message without data returns the previous result unchanged; other fields of the previous result are kept; otherwise `Lists` is the merge of cache and snapshot |
| `AvailableLists.Merge` | src/components/AvailableLists.tsx:180-194 | growth: an entry is in the result iff it is a cached entry with id > 0 or a snapshot entry owned by someone else whose id is not cached; every cached entry with id <= 0 is dropped. Shrink: an entry is in the result iff it is cached and its id is in the snapshot, in cache order, never longer than the cache |
| `AvailableLists.MergeGrowthKeepsConfirmedFirst` | src/components/AvailableLists.tsx:184-193 | growth: the result starts with exactly the positive-id cached entries in cache order, followed by a subsequence of the snapshot holding exactly the snapshot entries owned by other users whose id is not cached |
| `AvailableLists.MergeKeepsIdsUnique` | src/components/AvailableLists.tsx:181-194 | if cache ids and snapshot ids are each unique, the result's ids are unique |
| `AvailableLists.MergeRedeliveryUnchanged` | src/components/AvailableLists.tsx:181-194 | a snapshot holding exactly the cached ids, all positive, leaves `Lists` unchanged in either branch |
| `AvailableLists.OptimisticList` | src/components/AvailableLists.tsx:120-138 | the optimistic list is owned by the current user, has no items and a non-positive id |
| `AvailableLists.AddListUpdate` | src/components/AvailableLists.tsx:141-162 | the cached `Lists` become the old `Lists` followed by `returning`: old list is a prefix, length grows by the number returned |
| `AvailableLists.OptimisticListDroppedOnGrowth` | src/components/AvailableLists.tsx:185-187 | the optimistic entry appended by `addList` is not in the result of the next growth step |
| `AvailableLists.ConcurrentAddAndDeleteKeepsStaleList` | src/components/AvailableLists.tsx:184-194 | a deletion and another user's insertion between two snapshots is read as growth and the deleted list stays cached |
| `SelectedList.UpdateQuery` | src/components/SelectedList.tsx:119-145 | no previous result gives `ListItems = []`; a message without data returns the previous result; other fields are kept; otherwise `ListItems` is the merge |
| `SelectedList.Merge` | src/components/SelectedList.tsx:126-140 | growth: the cached items, optimistic ones included, are an unchanged prefix; what follows is a subsequence of the snapshot and holds exactly the snapshot items by other creators whose id is not cached. Shrink: exactly the cached items whose id is in the snapshot, in cache order |
| `SelectedList.MergeNeverAdoptsOwnItems` | src/components/SelectedList.tsx:134-138 | an item created by the current user is in the result only if it was already cached |
| `SelectedList.MergeKeepsIdsUnique` | src/components/SelectedList.tsx:126-140 | unique cache ids and unique snapshot ids give unique result ids |
| `SelectedList.MergeRedeliveryUnchanged` | src/components/SelectedList.tsx:130-140 | a snapshot holding exactly the cached ids leaves `ListItems` unchanged in either branch, optimistic items included |
| `SelectedList.OptimisticItem` | src/components/SelectedList.tsx:156-168 | the optimistic item has the current user as creator, the typed description and a non-positive id |
| `SelectedList.AddListItemUpdate` | src/components/SelectedList.tsx:170-189 | the cached `ListItems` become the old items followed by `returning` |
| `SelectedList.OptimisticDeleteReturning` | src/components/SelectedList.tsx:200-210 | the optimistic delete payload carries exactly the deleted `itemId` |
| `SelectedList.DeleteListItemUpdate` | src/components/SelectedList.tsx:212-236 | the cached items become those whose id was not returned, in order |
| `SelectedList.OptimisticDeleteRemovesExactlyItem` | src/components/SelectedList.tsx:204-233 | the optimistic delete keeps exactly the items whose id differs from `itemId`, in order |
| `SelectedList.OptimisticItemSurvivesGrowth` | src/components/SelectedList.tsx:130-138 | after the optimistic add, a growth step keeps the cache and the optimistic item as a prefix and appends no item of the current user |
| `QueryCache.WithoutDeleted` | src/components/SelectedList.tsx:220-233 | an entry is kept iff its id is not among the returned ids; order is kept and no returned id remains |
| `QueryCache.WithoutDeletedIdempotent` | src/components/SelectedList.tsx:212-236 | a delete whose ids were already removed (the server pass after the optimistic pass) changes nothing more |
| `QueryCache.AfterGuardedDelete` | src/components/ListSettings.tsx:141-157 | without a `length` on `returning` (single object or empty array) the rows are unchanged; otherwise exactly the rows whose id was not returned remain, in order |
| `QueryCache.GuardedDeleteUpdate` | src/components/ListSettings.tsx:133-160 | the cached rows become the guarded delete of the old rows by `returning`; the delete list and remove collaborator callbacks both call it |
| `QueryCache.AppendReturned` | src/components/ListSettings.tsx:208-229 | the cached rows become the old rows followed by `returning`; the three insert callbacks call it |
| `QueryCache.SingleDeleted` | src/components/ListSettings.tsx:123-131 | the optimistic `returning` of a guarded delete is a single object with the deleted id, so it has no length; deleting a list and removing a collaborator both pass it |
| `ListSettings.DeleteListUpdate` | src/components/ListSettings.tsx:133-160 | the cached `Lists` become the guarded delete of the old `Lists` by `returning` |
| `ListSettings.OptimisticDeleteListIsNoOp` | src/components/ListSettings.tsx:127-143 | the optimistic pass of deleting a list leaves `Lists` unchanged |
| `ListSettings.ServerDeleteListKeepsOthers` | src/components/ListSettings.tsx:144-157 | with a non-empty array, exactly the lists whose id is not returned remain, in order, and no returned id is left |
| `ListSettings.DecideInvitee` | src/components/ListSettings.tsx:175-237 | an invite is sent iff the lookup returned a user whose email equals the input up to case and who has no invites, and it goes to that first user; "already invited" iff that user has invites; "not found" iff there is no such first user |
| `ListSettings.DecideInviteeIgnoresInputCase` | src/components/ListSettings.tsx:175-178 | the decision is the same for the input and its lower-cased form |
| `ListSettings.AlertFor` | src/components/ListSettings.tsx:179-180 | "Already invited that user" for an invited user, "Could not find invitee" when not found, no alert when inviting |
| `ListSettings.OptimisticInvite` | src/components/ListSettings.tsx:188-206 | the optimistic invite carries the inviter, invitee, list and typed email, a non-positive id, and shows as "Pending" |
| `ListSettings.AddInviteeUpdate` | src/components/ListSettings.tsx:208-229 | the cached `Invites` become the old invites followed by `returning` |
| `ListSettings.Screen.constructor` | src/components/ListSettings.tsx:82-85 | the input starts empty and the loading flag lowered |
| `ListSettings.Screen.AddInvitee` | src/components/ListSettings.tsx:165-238 | when the lookup rejects, the handler stops after raising the loading flag: the flag stays raised, and alerts, input and cache are unchanged. When it resolves, the decision is `DecideInvitee` on the users and the input, the loading flag ends lowered, the matching alert is shown, and when inviting the optimistic invite is appended to `Invites` and the input is cleared; otherwise cache and input are unchanged |
| `Invite.InviteStatus` | src/components/Invite.tsx:53-61 | "Pending" iff `accepted` is null, "Accepted" iff true, "Declined" iff false |
| `Invite.DeleteInviteUpdate` | src/components/Invite.tsx:94-121 | the cached `Invites` become the guarded delete of the old invites by `returning` |
| `Invite.OptimisticDeleteInviteIsNoOp` | src/components/Invite.tsx:84-104 | the optimistic pass of removing a collaborator leaves `Invites` unchanged |
| `Invite.ServerDeleteInviteRemovesIt` | src/components/Invite.tsx:105-118 | the server's array response removes exactly the invites with that id and keeps the rest in order |
| `SwipeableRow.Initial` | src/components/SwipeableRow.tsx:30-31 | the row starts Visible with countdown 3 and no interval |
| `SwipeableRow.Effect` | src/components/SwipeableRow.tsx:36-55 | `handleRemove` is called iff the countdown is 0, and then the row becomes Hidden with countdown 3 and the interval cleared; otherwise visibility and countdown are unchanged and the interval is running afterwards iff it was running before or the row is Removing with countdown 3 (the interval is started) |
| `SwipeableRow.EffectSettles` | src/components/SwipeableRow.tsx:36-55 | a second run of the effect on its own result changes nothing and removes nothing |
| `SwipeableRow.SwipeLeft` | src/components/SwipeableRow.tsx:57-59 | from a valid state the row becomes Removing without removal; from Visible or Hidden this starts the interval with countdown 3; a Removing row is left as it is |
| `SwipeableRow.Tick` | src/components/SwipeableRow.tsx:37-45 | without an interval nothing changes; otherwise the countdown drops by exactly 1, and on reaching 0 the row is Hidden, countdown 3, interval cleared, removed; valid states stay valid (countdown within 1..3 between events) |
| `SwipeableRow.CountdownRemovesOnLastTick` | src/components/SwipeableRow.tsx:37-48 | a Removing row with countdown c removes nothing in c - 1 ticks and is removed exactly once on tick c, ending Hidden |
| `SwipeableRow.QuietWithoutInterval` | src/components/SwipeableRow.tsx:42-45 | a Visible or Hidden row is unchanged by any number of ticks and never removed |
| `SwipeableRow.RemovedExactlyOnThirdTick` | src/components/SwipeableRow.tsx:36-59 | after a left swipe from the initial state, two ticks remove nothing, the third removes once, and later ticks change nothing |
| `SwipeableRow.Row.constructor` | src/components/SwipeableRow.tsx:30-33 | the component starts in the initial state with no `handleRemove` call |
| `SwipeableRow.Row.RunEffect` | src/components/SwipeableRow.tsx:36-55 | the component state becomes that of `Effect`, and `handleRemove(id)` is recorded exactly when `Effect` removes |
| `SwipeableRow.Row.OnSwipeLeft` | src/components/SwipeableRow.tsx:57-59 | the component state follows `SwipeLeft` |
| `SwipeableRow.Row.OnTick` | src/components/SwipeableRow.tsx:38-41 | the component state follows `Tick`, recording `handleRemove(id)` when it removes |
| `SwipeableRow.SwipeAndWait` | src/components/SwipeableRow.tsx:36-59 | a swiped row left for three ticks has called `handleRemove` once, with its own id, and is Hidden with countdown 3 |
| `Api.Without` | src/services/api.tsx:23 | the element is gone, every other value keeps its presence and its number of occurrences, and order is kept |
| `Api.MockListStore.constructor` | src/services/api.tsx:3 | `listData` starts as a copy of `data` |
| `Api.MockListStore.FetchList` | src/services/api.tsx:5-11 | resolves to the current `listData` |
| `Api.MockListStore.AddItem` | src/services/api.tsx:13-20 | `listData` becomes `data` followed by the item, whatever it held before; resolves with the item |
| `Api.MockListStore.DeleteItem` | src/services/api.tsx:22-29 | `listData` becomes `data` without the item; resolves with `itemToRemove` |
| `Api.AddTwiceKeepsOnlyLast` | src/services/api.tsx:13-14 | after two additions the fetched list is `data` followed by the second item only |
| `Api.AddThenDeleteDropsAddition` | src/services/api.tsx:13-23 | a deletion after an addition fetches `data` without the deleted element, and the added item is gone |

## Left out

- Rendering, styles, navigation and the presentational components. They hold no logic to state.
- Authentication and the token-retry loop in App.tsx. These are asynchronous and depend on an external identity provider.
- Apollo's optimistic layer. The client runs an `update` callback twice: once for the optimistic response in a separate layer, which it discards when the server answers, and once for the server response. The model applies each pass to the one `QueryCache.Store`. The layering and the discard are not modelled.
- Network queries and mutations. The FIND_INVITEE outcome is the `lookup` parameter of `ListSettings.Screen.AddInvitee`: the users it resolves with, or `None` when it rejects. The mutation results are the `returning` parameters of the update methods. Mutation errors and their alerts are not modelled; the source does not roll back on them.
- The `delete_ListAccess` half of REMOVE_COLLABORATOR. Its `affected_rows` is not used by the cache update.
- `toLowerCase` is modelled for ASCII letters only; Unicode case mapping is not modelled.
- Temporary ids are integers `<= 0`, not fractional numbers from `Math.random`.
- Time is left out. The 1000 ms interval is one `Tick`. The 70 ms delay before `handleRemove` is folded into the step that reaches 0. The promise delays in the mock service become immediate returns. The spring and layout animations are not modelled.
- A left swipe on a Hidden row starts the countdown again, because the code has no guard against it. The model keeps this; the row is collapsed by then, so the UI normally cannot be swiped.
