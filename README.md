# Twinder core, modelled in Dafny

Twinder is a "double dating" application: users befriend each other, pair up
with a friend into a *duo*, and browse, match and chat with other duos. This
project models the logic of the application's core and proves properties of
it:

- **Backend controllers.** The friendship endpoints (send, answer and remove
  a request; list friends and pending requests) and the duo endpoints
  (create, list, fetch, update). Both work over an in-memory table.
- **Client state.** The authentication and duo slices of the client store,
  written as classes whose methods are the reducers.
- **The nearby-duo search.** It fetches located duos, drops the caller's
  own, annotates the rest with their distance, keeps those within the radius
  and orders them nearest first.
- **Page logic:**
  - the chat room: access check, send guard, message delivery, grouping of
    messages into bursts;
  - duo creation and duo editing: photo picking with a ten-photo limit,
    removal, previews, membership check, submit validation, title
    derivation;
  - the friends page: friend list, user search, list updates, initials;
  - the duo list: friend check, partner card, delete;
  - the layout's active navigation entry;
  - the home page's swipe deck.

Every database, authentication or HTTP call becomes a parameter holding the
answer it gave. The client-side work done on that answer is modelled. Where
the documented design and the code differ, the model follows the code:

- there is no like, match or chat-room logic behind the endpoints the
  client calls;
- `createDuo` does not reject a duo whose two members are the same user;
- a friend request looks for an existing row between the two users in
  either direction: an accepted or pending one refuses the request, and a
  declined one is re-opened as pending (status 200) with its original
  sender and receiver kept.

Modules:

| file | module | models |
|---|---|---|
| wrappers.dfy | Wrappers | `Option` (`null`/`undefined`) and `Result` (an answer or its error) |
| seqs.dfy | Seqs | `Array.prototype.filter` and list concatenation |
| text.dfy | Text | `trim`, `split`, `join`, `includes`, `startsWith`, ASCII `toLowerCase` and `toUpperCase` |
| entities.dfy | Entities | users as joined into duos, and duos |
| friendship_controller.dfy | FriendshipController | packages/backend/src/controllers/friendshipController.ts |
| duo_controller.dfy | DuoController | packages/backend/src/controllers/duoController.ts |
| duo_slice.dfy | DuoSlice | packages/frontend/src/store/slices/duoSlice.ts |
| auth_slice.dfy | AuthSlice | packages/frontend/src/store/slices/authSlice.ts |
| duo_service.dfy | DuoService | packages/frontend/src/services/duoService.ts |
| chat_room.dfy | ChatRoom | packages/frontend/src/pages/ChatRoom.tsx |
| photos.dfy | Photos | the photo picker shared by DuoCreate.tsx and DuoEdit.tsx |
| duo_names.dfy | DuoNames | `getDuoName` of DuoEdit.tsx and DuoList.tsx (identical code) |
| duo_edit.dfy | DuoEdit | packages/frontend/src/pages/DuoEdit.tsx |
| duo_create.dfy | DuoCreate | packages/frontend/src/pages/DuoCreate.tsx |
| friends_page.dfy | FriendsPage | packages/frontend/src/pages/Friends.tsx |
| duo_list.dfy | DuoList | packages/frontend/src/pages/DuoList.tsx |
| layout.dfy | Layout | packages/frontend/src/components/Layout.tsx |
| home.dfy | Home | packages/frontend/src/pages/Home.tsx |

## Model

| member | source | states |
|---|---|---|
| FriendshipController.FindPair | packages/backend/src/controllers/friendshipController.ts:114-119 | The result is the first row linking the two users in either direction. No result means no row links them. |
| FriendshipController.FindById | packages/backend/src/controllers/friendshipController.ts:161-167 | The result is a row carrying the id. No result means no row carries it. |
| FriendshipController.AtMostOneRowPerPair | packages/backend/src/controllers/friendshipController.ts:113-142 | Under the table invariant that sending keeps (no second row for a linked pair), at most one row links any two users, in whichever direction. |
| FriendshipController.SendStatusCode | packages/backend/src/controllers/friendshipController.ts:96-142 | The send outcomes answer 400 or more exactly when they are errors. They answer 404 exactly for unknown users and 201 exactly for a new row. |
| FriendshipController.FriendsOf | packages/backend/src/controllers/friendshipController.ts:32-47 | The friend list has one entry per accepted row the user sent plus one per accepted row the user received. Each entry carries the other party's id, name, e-mail and photos, and the row id. |
| FriendshipController.FriendsOfSound | packages/backend/src/controllers/friendshipController.ts:15-47 | Each friend entry comes from an accepted row involving the user. It carries the other party's id and profile (name, e-mail, photos) with the row id. Entries from sent rows come first, then entries from received rows. |
| FriendshipController.FriendsOfComplete | packages/backend/src/controllers/friendshipController.ts:15-47 | Every accepted row involving the user yields an entry in the part of the list matching its direction. |
| FriendshipController.RequestsFor | packages/backend/src/controllers/friendshipController.ts:62-80 | Every pending row the user received is listed exactly once, in table order, with its id and the sender's id, name, e-mail and photos. |
| FriendshipController.RequestsForSound | packages/backend/src/controllers/friendshipController.ts:62-80 | Every listed request is a pending row the user received, shown with its id and the sender's id and profile. |
| FriendshipController.RemoveKeepsInvariants | packages/backend/src/controllers/friendshipController.ts:191-203 | Deleting a row keeps every table invariant: one row per pair, distinct ids, no self-friendship, known parties. |
| FriendshipController.FriendshipTable.SendFriendRequest | packages/backend/src/controllers/friendshipController.ts:90-147 | Checks run in order: missing receiver 400, unknown user 404, self 400. An existing accepted or pending row gives 400 and a declined row is re-opened as pending. Otherwise exactly one pending row from caller to receiver is appended. Errors change nothing, and the table invariant is kept. |
| FriendshipController.FriendshipTable.RespondToFriendRequest | packages/backend/src/controllers/friendshipController.ts:150-182 | A missing id gives 400. Only a pending row whose receiver is the caller is answered, and it becomes accepted or declined. Anything else gives 404 and leaves the table as it was. |
| FriendshipController.FriendshipTable.RemoveFriend | packages/backend/src/controllers/friendshipController.ts:185-209 | A row whose sender or receiver is the caller is deleted, whatever its status, and no other row changes. Otherwise 404 and no change. |
| DuoController.DuoErrorStatusCode | packages/backend/src/controllers/duoController.ts:74-81 | The membership failure answers 403. Unknown users and unknown duos answer 404. |
| DuoController.IndexOfDuo | packages/backend/src/controllers/duoController.ts:69-72 | The result is a position holding the id. No result means no duo has it. |
| DuoController.ApplyUpdate | packages/backend/src/controllers/duoController.ts:113-115 | Each of title, bio and photos takes the supplied value or keeps the old one. The id, the members and the location never change. |
| DuoController.ApplyUpdateNothing | packages/backend/src/controllers/duoController.ts:113-115 | An update supplying no field leaves the duo unchanged. |
| DuoController.DuoRepository.CreateDuo | packages/backend/src/controllers/duoController.ts:10-39 | An unknown user gives 404 with no change. Otherwise one duo is appended joining the caller (user1) and `userId2` (user2), with the given title and bio and no photos when none are given. Ids stay distinct. |
| DuoController.DuoRepository.UserDuos | packages/backend/src/controllers/duoController.ts:47-53 | Exactly the stored duos the caller belongs to, each once, in table order. |
| DuoController.DuoRepository.GetDuo | packages/backend/src/controllers/duoController.ts:63-88 | 404 exactly when no duo has the id, and 403 only when the duo exists without the caller. A returned duo has the id and contains the caller. |
| DuoController.DuoRepository.UpdateDuo | packages/backend/src/controllers/duoController.ts:91-124 | The same 404 and 403 checks as `getDuo`, with no change on error. Otherwise only that duo is replaced by its updated form. |
| DuoSlice.FindIndex | packages/frontend/src/store/slices/duoSlice.ts:152 | The result is the first position holding the id, or -1 exactly when none does. |
| DuoSlice.ReplaceFirstById | packages/frontend/src/store/slices/duoSlice.ts:150-155 | The length is kept. The first entry with the payload's id is replaced, and a list without that id is unchanged. |
| DuoSlice.ReplaceFirstByIdIdempotent | packages/frontend/src/store/slices/duoSlice.ts:150-155 | Delivering the same update twice gives the same list as delivering it once. |
| DuoSlice.DuoStore.constructor | packages/frontend/src/store/slices/duoSlice.ts:26-31 | The initial state: no duos, no active duo, not loading, no error. |
| DuoSlice.DuoStore.SetActiveDuo | packages/frontend/src/store/slices/duoSlice.ts:92-94 | Sets the active duo and nothing else. |
| DuoSlice.DuoStore.ClearActiveDuo | packages/frontend/src/store/slices/duoSlice.ts:95-97 | Clears the active duo and nothing else. |
| DuoSlice.DuoStore.RequestPending | packages/frontend/src/store/slices/duoSlice.ts:101-104 | Loading starts and the error is cleared, for each of the four requests. The lists are kept. |
| DuoSlice.DuoStore.RequestRejected | packages/frontend/src/store/slices/duoSlice.ts:109-112 | Loading stops and the error is recorded, for each of the four requests. The lists are kept. |
| DuoSlice.DuoStore.GetUserDuosFulfilled | packages/frontend/src/store/slices/duoSlice.ts:105-108 | The fetched list replaces the stored one. |
| DuoSlice.DuoStore.CreateDuoFulfilled | packages/frontend/src/store/slices/duoSlice.ts:120-123 | The new duo is appended after the old ones. |
| DuoSlice.DuoStore.GetDuoFulfilled | packages/frontend/src/store/slices/duoSlice.ts:135-138 | The fetched duo becomes the active one. The list is kept. |
| DuoSlice.DuoStore.UpdateDuoFulfilled | packages/frontend/src/store/slices/duoSlice.ts:150-159 | The first stored copy is replaced in place. The active duo is replaced only when it has the same id. |
| AuthSlice.AuthStore.constructor | packages/frontend/src/store/slices/authSlice.ts:13-19 | Nobody signed in, not loading, no error, session check not done. |
| AuthSlice.AuthStore.ClearError | packages/frontend/src/store/slices/authSlice.ts:106-108 | Clears the error and nothing else. |
| AuthSlice.AuthStore.InitializePending | packages/frontend/src/store/slices/authSlice.ts:113-115 | Loading starts and the error is kept. |
| AuthSlice.AuthStore.InitializeFulfilled | packages/frontend/src/store/slices/authSlice.ts:116-121 | User and session come from the payload, and the session check is done. |
| AuthSlice.AuthStore.InitializeRejected | packages/frontend/src/store/slices/authSlice.ts:122-126 | The error is recorded and the session check is done all the same. User and session are kept. |
| AuthSlice.AuthStore.LoginOrRegisterPending | packages/frontend/src/store/slices/authSlice.ts:130-133 | Loading starts and the error is cleared, for login and for register (lines 146-149). |
| AuthSlice.AuthStore.LoginFulfilled | packages/frontend/src/store/slices/authSlice.ts:134-138 | User and session come from the payload. |
| AuthSlice.AuthStore.Rejected | packages/frontend/src/store/slices/authSlice.ts:139-142 | The error is recorded and the signed-in user is kept, for login, register (158-161) and logout (173-176). |
| AuthSlice.AuthStore.RegisterFulfilled | packages/frontend/src/store/slices/authSlice.ts:150-157 | The user is signed in only when the payload carries a session. Otherwise user and session are kept. |
| AuthSlice.AuthStore.LogoutPending | packages/frontend/src/store/slices/authSlice.ts:165-167 | Loading starts and everything else is kept. |
| AuthSlice.AuthStore.LogoutFulfilled | packages/frontend/src/store/slices/authSlice.ts:168-172 | Nobody is signed in, and the session check stays as it was. |
| DuoService.Annotate | packages/frontend/src/services/duoService.ts:91-103 | One entry per duo, in order, each carrying its distance from the caller. |
| DuoService.InsertByDistance | packages/frontend/src/services/duoService.ts:107 | Inserting into a list sorted by distance keeps it sorted and adds exactly the one entry. |
| DuoService.SortByDistance | packages/frontend/src/services/duoService.ts:107 | The result is sorted by ascending distance and is a permutation of the input. |
| DuoService.InsertStable | packages/frontend/src/services/duoService.ts:107 | Among the entries at any one distance, the inserted entry comes first and the others keep their order. |
| DuoService.SortStable | packages/frontend/src/services/duoService.ts:107 | The sort is stable: the entries at any one distance come out in the order they went in. |
| DuoService.Pipeline | packages/frontend/src/services/duoService.ts:85-107 | The duos returned are in ascending order of distance. |
| DuoService.FindNearbyDuos | packages/frontend/src/services/duoService.ts:51-110 | No session gives "User not authenticated" and a failed query passes its error on. Otherwise the result is sorted nearest first, and empty when no fetched duo has a location. |
| DuoService.NearbyOnlyEligible | packages/frontend/src/services/duoService.ts:65-107 | For a signed-in caller and a successful query, every returned duo was fetched and has a location. It is not the caller's, lies within the radius (10 km by default) and carries its own distance. |
| DuoService.AnnotateCount | packages/frontend/src/services/duoService.ts:91-103 | Annotating is one-to-one: an annotated duo occurs exactly as often as the duo. |
| DuoService.NearbyEachEligibleOnce | packages/frontend/src/services/duoService.ts:65-107 | For a signed-in caller and a successful query, each eligible located duo is returned exactly as often as it was fetched, and any other duo is not returned. |
| ChatRoom.LoadRoom | packages/frontend/src/pages/ChatRoom.tsx:260-324 | Each step decides the outcome in order. A failed duo query gives DuosFetchFailed and an empty duo list NoDuos. A failed room query gives RoomFetchFailed, and a user outside both duos AccessDenied. Otherwise a failed message query gives MessagesFetchFailed, and a successful one opens the room with exactly those messages. An opened room always passed every check. |
| ChatRoom.OpenedOnlyForMembers | packages/frontend/src/pages/ChatRoom.tsx:300-309 | An opened room has one of its two duo ids among the user's duo ids. |
| ChatRoom.BlankInputNeverSent | packages/frontend/src/pages/ChatRoom.tsx:369 | Input consisting only of whitespace never passes the send guard. |
| ChatRoom.GroupMessagesByTime | packages/frontend/src/pages/ChatRoom.tsx:467-494 | Concatenating the groups gives back the messages in order, and no messages gives no groups. Each group is non-empty with every gap at most 10 minutes from the previous message. Each later group starts more than 10 minutes after the previous group's last message. |
| ChatRoom.ChatRoomView.Deliver | packages/frontend/src/pages/ChatRoom.tsx:340-343 | A delivered message is appended at the end and earlier messages keep their order. |
| ChatRoom.ChatRoomView.SendMessage | packages/frontend/src/pages/ChatRoom.tsx:366-445 | Nothing happens unless the guard passes. A message is inserted exactly when the guard passes, the name lookup succeeds and the insert succeeds, and it carries the trimmed input. The input is cleared only after a successful insert. The room's last message changes only when the room update also succeeds. |
| DuoEdit.LoadForEdit | packages/frontend/src/pages/DuoEdit.tsx:281-296 | The page opens exactly when the fetch succeeds and the caller is user1 or user2 of the duo. Otherwise it reports the fetch error or the permission error. |
| DuoEdit.DuoEditForm.constructor | packages/frontend/src/pages/DuoEdit.tsx:324-331 | The form starts from the duo's bio (or ''), its photos and location, and no new photos. |
| DuoEdit.DuoEditForm.AddFiles | packages/frontend/src/pages/DuoEdit.tsx:346-372 | With no files nothing changes. Files that would take existing plus new photos past 10 are refused with the current count, leaving the photos as they were. Otherwise the files are appended in order and the total stays at most 10. Previews stay one per new photo. |
| DuoEdit.DuoEditForm.RemoveExistingPhoto | packages/frontend/src/pages/DuoEdit.tsx:374-378 | Exactly the stored photo at the index goes. New photos and previews are untouched. |
| DuoEdit.DuoEditForm.RemoveNewPhoto | packages/frontend/src/pages/DuoEdit.tsx:380-393 | The new photo and the preview at the index both go, so the two stay aligned. |
| DuoEdit.LocationName | packages/frontend/src/pages/DuoEdit.tsx:423-432 | A missing or empty display name gives 'Unknown location'. |
| DuoEdit.LocationNameWhole | packages/frontend/src/pages/DuoEdit.tsx:426-431 | A display name without ", " is kept whole. |
| DuoEdit.LocationNameParts | packages/frontend/src/pages/DuoEdit.tsx:426-431 | A display name with ", " is cut into at least two pieces, none containing ", ", that join back into it. The result is "<second piece>, <last piece>". |
| Photos.Previews | packages/frontend/src/pages/DuoEdit.tsx:366 | One preview per file, in the same order. |
| Photos.RemoveAt | packages/frontend/src/pages/DuoEdit.tsx:374-378 | `splice(index, 1)` on a copy: one element fewer when the index is in range, the others in order. Past the end nothing changes. |
| Photos.RemoveAtReinsert | packages/frontend/src/pages/DuoCreate.tsx:330-333 | Putting the removed photo back at its index restores the list. |
| Photos.PreviewsRemoveAt | packages/frontend/src/pages/DuoEdit.tsx:380-393 | Removing a file and removing its preview at the same index keep the lists aligned. |
| DuoNames.MemberLabel | packages/frontend/src/pages/DuoEdit.tsx:397-398 | A missing name gives the fallback. A non-empty name not starting with a space gives its first word: a non-empty prefix without spaces, ended by a space or the end. A name that is empty or starts with a space gives the fallback. |
| DuoNames.DuoName | packages/frontend/src/pages/DuoList.tsx:418-422 | The user1 label (the first word of the name, or "User 1"), then " & ", then the user2 label (the first word of the name, or "User 2"). Each label is characterised by MemberLabel. |
| DuoNames.SingleWordNameIsLabel | packages/frontend/src/pages/DuoList.tsx:419-420 | A one-word name is shown whole. |
| DuoCreate.DuoCreateForm.AddFiles | packages/frontend/src/pages/DuoCreate.tsx:303-328 | With no files nothing changes. Files that would take the photos past 10 are refused with the current count, leaving the photos as they were. Otherwise they are appended in order, keeping at most 10, with one preview per photo. |
| DuoCreate.DuoCreateForm.RemovePhoto | packages/frontend/src/pages/DuoCreate.tsx:330-342 | Exactly the photo at the index goes, and the previews, made afresh, stay one per photo. |
| DuoCreate.FindFriend | packages/frontend/src/pages/DuoCreate.tsx:362 | The result is the first friend with the id. No result exactly when no friend has it. |
| DuoCreate.UserName | packages/frontend/src/pages/DuoCreate.tsx:371 | A non-empty metadata name wins. Without one, an e-mail that is non-empty and does not start with '@' gives its text before the first '@', which is non-empty and free of '@'. Every other case gives 'User'. |
| DuoCreate.PrepareDuo | packages/frontend/src/pages/DuoCreate.tsx:352-433 | Errors in order: not logged in, no partner, partner not a friend. A duo is made exactly when all three pass. Its title is "<userName> & <partner's name>", user1 is the current user and user2 the chosen partner. |
| DuoCreate.Interpolated | packages/frontend/src/pages/DuoCreate.tsx:412 | The partner's name inside the title template: the name when present, 'undefined' when missing. |
| FriendsPage.CombineFriends | packages/frontend/src/pages/Friends.tsx:228-245 | One card per sent row, then one per received row, in query order. Each card carries its row's friendship id. It carries the joined user's id, name, e-mail and photos (no photos giving []) exactly when the join found a user, and nothing otherwise. |
| FriendsPage.MainResults | packages/frontend/src/pages/Friends.tsx:376-397 | The results are the rows passing the page's filter, in result form, in row order: exactly the rows that are not the current user and not a friend, and whose metadata name or e-mail contains the term ignoring case. Each result also shows a name or e-mail that contains the term. |
| FriendsPage.FallbackResults | packages/frontend/src/pages/Friends.tsx:353-369 | The same for the fallback query, in row order, with the stored name (which must be present) as the only field searched. |
| FriendsPage.SearchUsers | packages/frontend/src/pages/Friends.tsx:313-406 | An empty term clears the results without a query. The fallback is used only when the main query fails. When both fail the main query's error is reported. |
| FriendsPage.SearchExcludesSelfAndFriends | packages/frontend/src/pages/Friends.tsx:353-397 | On either path the results never contain the current user or anyone on the friend list. |
| FriendsPage.SearchResultsMentionTerm | packages/frontend/src/pages/Friends.tsx:355-384 | On the main path each shown name or e-mail contains the term. On the fallback path each shown name does. |
| FriendsPage.AfterRequestSent | packages/frontend/src/pages/Friends.tsx:449 | After a successful request the receiver leaves the results and everyone else stays, in their order. After a failed one nothing changes. |
| FriendsPage.AfterRequestSentCounts | packages/frontend/src/pages/Friends.tsx:449 | After a successful request every other result occurs as often as before, and the receiver not at all. |
| FriendsPage.AfterRespond | packages/frontend/src/pages/Friends.tsx:479 | After a successful response that request leaves the pending list and the others stay, in their order. |
| FriendsPage.AfterRemove | packages/frontend/src/pages/Friends.tsx:520 | After a successful removal the entries with that friendship id go and the others stay, in their order. |
| FriendsPage.AfterRemoveCounts | packages/frontend/src/pages/Friends.tsx:520 | Each remaining entry occurs as often as before. |
| FriendsPage.InitialsOneWord | packages/frontend/src/pages/Friends.tsx:531-533 | A one-word name gives its first letter in upper case. |
| FriendsPage.InitialsTwoWords | packages/frontend/src/pages/Friends.tsx:531-533 | "First Last" gives the two first letters in upper case. |
| FriendsPage.InitialsOfWords | packages/frontend/src/pages/Friends.tsx:531-533 | Any name made of words joined by single spaces gives the upper-cased first letters of its words, in order. An empty word (from two consecutive spaces, or a leading or trailing space) contributes nothing. |
| FriendsPage.HeadsAppend | packages/frontend/src/pages/Friends.tsx:532 | The letters taken from two lists of words are those of the first list followed by those of the second. |
| FriendsPage.HeadsSingle | packages/frontend/src/pages/Friends.tsx:532 | A word contributes its first character, and an empty word nothing. |
| FriendsPage.Initials | packages/frontend/src/pages/Friends.tsx:531-533 | `getUserInitials`: the result has no lower-case ASCII letter, and an empty name gives "". Its full characterisation is InitialsOfWords with HeadsAppend and HeadsSingle: the upper-cased first letters of the space-separated words, in order, empty words contributing nothing. |
| DuoList.FriendCheck | packages/frontend/src/pages/DuoList.tsx:256-285 | A failed query leaves the answer unknown. Otherwise the user has friends exactly when the two queries together return a row. |
| DuoList.FriendCheckOnTable | packages/frontend/src/pages/DuoList.tsx:256-285 | Run on the friendship table, the check answers yes exactly when some accepted row involves the user. |
| DuoList.Partner | packages/frontend/src/pages/DuoList.tsx:408 | The partner is one of the duo's two members. |
| DuoList.PartnerIsOtherMember | packages/frontend/src/pages/DuoList.tsx:408 | For a member of a duo with two different members, the partner is the other member. |
| DuoList.Initial | packages/frontend/src/pages/DuoList.tsx:413 | The first character of the name in upper case, or nothing for an empty name. |
| DuoList.PartnerInfo | packages/frontend/src/pages/DuoList.tsx:406-415 | The card shows the partner's name, e-mail and initial, and there is no card when the partner has no name. |
| DuoList.AfterDelete | packages/frontend/src/pages/DuoList.tsx:394-400 | After a successful delete no duo with that id remains and every other duo stays, in its order. After a failure the list is unchanged. |
| DuoList.AfterDeleteCounts | packages/frontend/src/pages/DuoList.tsx:400 | Each other duo occurs as often as before. |
| Layout.ActivePage | packages/frontend/src/components/Layout.tsx:19-28 | The result is one of the seven page strings, and 'home' exactly for '/'. It is 'explore' exactly for paths starting with '/explore' or '/friends', and 'duos', 'nearby', 'chats' and 'profile' exactly for their prefixes. |
| Layout.UnknownPathHighlightsNothing | packages/frontend/src/components/Layout.tsx:27 | A path under none of the prefixes, such as '/settings' or '/home', gives ''. |
| Home.NextIndex | packages/frontend/src/pages/Home.tsx:127-131 | For an index in the deck, the next index is the following one modulo the deck size. |
| Home.SwipesFirstRound | packages/frontend/src/pages/Home.tsx:127-128 | During the first pass each swipe moves on by one. |
| Home.SwipesPeriodic | packages/frontend/src/pages/Home.tsx:127-131 | After the last profile the deck starts over: n more swipes come back to the same profile. |
| Home.SwipeDeck.constructor | packages/frontend/src/pages/Home.tsx:106-109 | The deck starts at profile 0 with no indicator. |
| Home.SwipeDeck.Swipe | packages/frontend/src/pages/Home.tsx:121-122 | The indicator shows the direction and the index is captured for the timer. |
| Home.SwipeDeck.TimerFired | packages/frontend/src/pages/Home.tsx:125-132 | The indicator is reset and the index moves on from the captured one, staying inside the deck. |

## Left out

- Database, authentication, storage and HTTP calls are not modelled. Their answers are parameters, or an in-memory table for the two controllers.
- Status 500 responses from thrown exceptions are not modelled.
- The authentication middleware is not modelled. The caller's id is a parameter.
- Database-generated ids are not modelled. Friendship ids come from a counter, and a new duo's id is a parameter that must be fresh.
- Row order is not modelled. `find`/`findOne` return rows in table order, whereas the database promises no order.
- FriendshipController.FriendshipTable.SendFriendRequest: does not model two requests racing between the existence check and the insert. The table's unique constraint on (sender, receiver) (packages/backend/src/models/Friendship.ts:20) stops a race in the same direction, but two requests in opposite directions (A to B while B to A) can both be stored.
- Password hashing and JWTs are not modelled. They are foreign libraries.
- The haversine distance is not modelled. It is the `distance` parameter of the nearby search.
- Realtime subscriptions are not modelled. Only the append a delivery causes is (`ChatRoomView.Deliver`).
- Date and time formatting is not modelled. Message timestamps are integer milliseconds.
- Geolocation and the reverse-geocoding fetch are not modelled. Only the display-name logic is.
- Object-URL revocation is not modelled. A preview is identified by the file it shows.
- Photo uploads in the submit handlers of DuoCreate.tsx and DuoEdit.tsx are not modelled. Nor are storage file names, the rest of DuoEdit's `handleSubmit`, or DuoCreate's mapping of database error codes to messages: all are storage or database I/O.
- The async thunks of the two client slices are not modelled. They only call the identity provider and the database; their reducers are modelled.
- The loading and sending flags of the pages are not modelled.
- ChatRoom.ChatRoomView.SendMessage: does not constrain the inserted message's `created_at`, which the database assigns.
- FriendshipController.RequestsFor: does not carry the request's `createdAt`, a timestamp the database assigns on insert; clocks are not modelled.
- Strings are sequences of Unicode scalar values, not UTF-16 code units. `n[0]` in `Initials` and `charAt(0)` in `DuoList.Initial` take one code unit, so for a name starting with a character outside the Basic Multilingual Plane the source keeps a lone surrogate where the model keeps the whole character.
- Unicode case folding is not modelled. `toLowerCase` and `toUpperCase` are modelled on ASCII letters.
- DuoCreate.Interpolated: prints 'undefined' for every missing partner name, whereas JavaScript prints 'null' for a null one.
- DuoList.PartnerInfo: returns no card where the source would throw on a partner without a name.
- FriendsPage.MainResults: does not model the server-side `ilike` filter of the main search query. Its rows are a parameter, and the client-side filter over them is modelled.
- The swipe deck's mock profiles and its one-second "has profiles" timer are not modelled. They are demo data.
- The match and chat services are not modelled. They call endpoints the backend never mounts.
