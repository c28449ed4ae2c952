# instaclone core in Dafny

This project models the decision logic of instaclone, a small invitation-only
photo-sharing site built on Next.js with a MongoDB database.

A user may register only if their email is on an allow-list. Any signed-in user
can add an email to that list. Everyone gets a camel-case username, made unique
with a numeric suffix. Users can follow each other. The site keeps a seven-day
history of the profiles a user has viewed.

The model covers the following parts:

- **Server routes**: sign-up, the allow-list routes, favourites (follow and
  unfollow) and viewing history. Each is a guard chain followed by at most one
  insert or delete.
- **Sign-in callbacks**: the credentials `authorize` check, and Google sign-in
  with its username loop.
- **Client-side logic**: the scheduled-post flags of a post card, circular
  navigation in the image pop-up, pagination on "My Posts", URLs of the layout
  links, the school-name formatter and the permit form, the two sign-up forms,
  and the merge, avatar and unfollow steps of the "People You Follow" page.
- **Helpers in `lib/utils.js`**: the relative-time phrase and the list of
  academic years.

The database is the class `Store.Database`. It has one `seq` field per
collection: allowed emails, users, favourites and viewing history.

- `findOne` returns the first matching document in collection order.
- An upsert updates the first match, or appends a new document.
- `deleteOne` removes the first match.

Route handlers that write become methods. Each method modifies only the
collection it writes and states the whole new state of that collection. It
also preserves the uniqueness invariants that the route's own guards protect.
Handlers that only read become functions over the collections.

Stateful client components are classes whose fields are React's state
variables. Pure computations, such as `toCamelCase`, `formatSchoolName`,
`timeAgo`, pagination arithmetic and href building, are functions. Lemmas
about those functions state what the source promises.

Outside inputs become parameters:

- the clock (`now` in milliseconds, the current month and the current year);
- the session (`Option<Session>`);
- bcrypt (`hash` and `matches`);
- the responses of `fetch` (a `Reply` value).

Strings are sequences of characters. The JavaScript truthiness of an optional
string is `Text.Truthy`, and `a || b` is `Text.OrElse`.

## Model

| member | source | states |
|---|---|---|
| CamelCase.CamelCaseAlnum | lib/auth.js:9-19 | `toCamelCase` output contains only ASCII letters and digits (no spaces, no punctuation) |
| CamelCase.CamelCaseLetters | lib/auth.js:10-18 | lower-cased, the output is exactly the letters and digits of the lower-cased name, in order |
| CamelCase.CamelCaseEmpty | lib/auth.js:10-18 | a name with no letters or digits gives the empty username |
| CamelCase.WordsLowerCase | lib/auth.js:11-14 | every word produced by lower-case, strip, split and filter consists of lower-case letters and digits |
| CamelCase.Words | lib/auth.js:10-14 | after lower-casing, stripping, splitting on " " and `.filter(Boolean)`, no word is empty |
| CamelCase.ToCamelCase | lib/auth.js:9-19 | no contract of its own: `toCamelCase` is the join of the words; what it promises is stated by CamelCaseLetters, CamelCaseAlnum, CamelCaseEmpty and CamelCaseShape |
| CamelCase.CamelCaseShape | lib/auth.js:15-18 | in a username the characters of the first word are lower-case letters or digits, and a character is upper-case exactly when it starts a later word whose first character is a letter |
| CamelCase.CamelJoinShape | lib/auth.js:15-18 | every input character's output position: the first word is copied unchanged; in every later word only the first character is upper-cased |
| CamelCase.SplitOnSpace | app/api/signup/route.js:10 | the pieces of `split(" ")` contain no space and only characters of the input |
| CamelCase.ConcatSplit | app/api/signup/route.js:10-15 | joining the pieces of `split(" ")` gives the input without its spaces |
| CamelCase.StripThenNoSpace | app/api/signup/route.js:9-10 | stripping to `[a-zA-Z0-9 ]` and then dropping the spaces keeps exactly the letters and digits |
| Usernames.Candidate | lib/auth.js:77-82 | pass k of the loop tries `base` (k = 0) or `base` followed by the decimal digits of k |
| Usernames.CandidateInjective | lib/auth.js:80-83 | different passes try different usernames |
| Usernames.FirstFreeUnique | app/api/signup/route.js:40-44 | only one pass can be the first whose username is free |
| Usernames.TakenBound | app/api/signup/route.js:41-44 | if the first m candidates are all taken then m is at most the number of users, so the loop ends |
| Usernames.FreeUsername | app/api/signup/route.js:37-44 | the loop returns a username that no user holds, namely the candidate of the first free pass k, with k at most the number of users |
| Store.FindUserByEmail | app/api/signup/route.js:30 | `findOne({ email })` finds nothing exactly when no user has that email, and otherwise returns a user with that email |
| Store.FindUserByUsername | app/api/viewing-history/route.js:54 | `findOne({ username })` finds nothing exactly when no user holds that username |
| Store.AppendKeepsUnique | app/api/signup/route.js:30-56 | inserting a user whose email and username are both unused keeps emails and usernames unique |
| Auth.Authorize | lib/auth.js:37-56 | guards in order: "Email not authorized" exactly when the email is not allowed; then "No user found"; then a failed password comparison; on success the user's `name \|\| email`, email and `username \|\| toCamelCase(name \|\| email)` |
| Auth.AuthorizeUsername | lib/auth.js:50-55 | a successful `authorize` returns the credentials' email, returns the stored username when it is truthy, and otherwise returns a username that is all letters and digits |
| Auth.BeforeAt | lib/auth.js:76 | `email.split("@")[0]` is the longest prefix without `@`, followed by `@` when shorter than the email |
| Auth.GoogleBase | lib/auth.js:76 | the base username of a new Google account has only ASCII letters and digits, and lower-cased it is exactly the letters and digits of `name \|\| email.split("@")[0]`, lower-cased, in order |
| Auth.SignIn | lib/auth.js:63-100 | non-Google providers pass and change nothing; a Google email that is not allowed gives false and inserts nothing; an existing user gets the stored username with no insert; a new user gets the first free username from `toCamelCase(name \|\| local part)`, and exactly one record is appended; both uniqueness invariants are preserved |
| Auth.Jwt | lib/auth.js:102-107 | the token's username is copied from the user only when there is a user |
| Auth.SessionCallback | lib/auth.js:109-114 | the session's username is copied only when the token's username is truthy |
| SignupRoute.Post | app/api/signup/route.js:18-59 | 403 with nothing inserted when the email is not allowed; then 400 with nothing inserted when it is registered; otherwise 201 and exactly one record `{email, hash(password), name, first free username, createdAt}`; school and year are not read; uniqueness preserved |
| PermitRoute.Get | app/api/permit-user/route.js:6-36 | 401 exactly without a session; otherwise exactly the entries whose `referringUsername` is the session's username, as a permutation, newest `createdAt` first |
| PermitRoute.Post | app/api/permit-user/route.js:39-83 | 401, then 400 "Missing required fields" for a falsy email or school, then 400 "Email already has permission", each without change; otherwise exactly one `{email, school, referringUsername from the body, now}` appended and 200; allow-list emails stay unique |
| PermitRoute.AppendKeepsPermitsUnique | app/api/permit-user/route.js:63-77 | appending an email that is not on the list keeps the list's emails unique |
| FavoritesRoute.FindEdge | app/api/favorites/route.js:34-35 | the position of the first document matching `{ userEmail, favoritedUsername }`, or none exactly when there is no match |
| FavoritesRoute.Upsert | app/api/favorites/route.js:34-38 | the upserted record `{userEmail, favoritedUsername, favoritedAt}` is present afterwards, and the collection grows by one exactly when the edge was absent |
| FavoritesRoute.DeleteOne | app/api/favorites/route.js:51-54 | the collection shrinks by one exactly when the edge was present, and no document appears that was not there |
| FavoritesRoute.UpsertAdds | app/api/favorites/route.js:34-38 | after the upsert the pair set gains exactly that pair, the record carries the new time, at most one edge per pair is kept, and the length grows only when the edge was absent |
| FavoritesRoute.UpsertTwice | app/api/favorites/route.js:34-38 | repeating the upsert is the same as doing it once with the later time |
| FavoritesRoute.DeleteRemoves | app/api/favorites/route.js:51-54 | `deleteOne` removes exactly that pair from the pair set, and deleting an absent edge changes nothing |
| FavoritesRoute.UpsertThenDelete | app/api/favorites/route.js:34-38 | following a previously absent edge and then unfollowing it restores the collection exactly |
| FavoritesRoute.OthersUntouched | app/api/favorites/route.js:35 | upsert and delete keyed by one email leave every other user's edges unchanged, in order |
| FavoritesRoute.FollowedUsernames | app/api/favorites/route.js:12-17 | the usernames mapped from the caller's favourites are exactly those the caller follows |
| FavoritesRoute.Get | app/api/favorites/route.js:6-24 | 401 exactly without a session; otherwise exactly the users whose username the caller follows |
| FavoritesRoute.Post | app/api/favorites/route.js:26-41 | 401 without change when there is no session; otherwise the upsert keyed by the session email and `{ success: true }` |
| FavoritesRoute.Delete | app/api/favorites/route.js:43-57 | 401 without change when there is no session; otherwise the `deleteOne` keyed by the session email |
| ViewingHistoryRoute.Listed | app/api/viewing-history/route.js:17-29 | no contract of its own: the `find`, `sort` and `limit` chain; ListedWithin, ListedTop and ListedAllWhenFew state what it lists |
| ViewingHistoryRoute.ListedWithin | app/api/viewing-history/route.js:17-29 | the history lists only the caller's views from the last seven days (`viewedAt >= now - 7 days`), newest first, at most 50 |
| ViewingHistoryRoute.ListedTop | app/api/viewing-history/route.js:27-28 | a recent view is left out only when 50 views at least as new are listed |
| ViewingHistoryRoute.ListedAllWhenFew | app/api/viewing-history/route.js:21-29 | with at most 50 recent views, all of them are listed |
| ViewingHistoryRoute.Get | app/api/viewing-history/route.js:7-34 | 401 exactly without a session; otherwise at most 50 of the caller's recent views, newest first |
| ViewingHistoryRoute.ViewOf | app/api/viewing-history/route.js:60-66 | the recorded view has `viewedUserName = name \|\| viewedUsername` and `viewedUserImage = image \|\| null` |
| ViewingHistoryRoute.Post | app/api/viewing-history/route.js:37-69 | 401, then "Own profile" for the caller's own username, then 404 for an unknown username, each recording nothing; otherwise exactly one view appended and "Success" |
| PostCard.Render | components/PostCard.js:10-58 | dimmed and badge exactly when own profile and the release time is strictly after now; like button exactly when `showLikeButton`; delete button exactly when `onDelete` is given |
| PostCard.DefaultCard | components/PostCard.js:10-15 | with the default props, no dimming, no badge, a like button and no delete button |
| PostCard.ScheduledUntilRelease | components/PostCard.js:16-19 | a scheduled post stops being scheduled once now reaches its release time; without a release time a post is never scheduled |
| ImagePopup.JsRem | components/ImagePopup.js:11 | JavaScript's truncating `%`: Euclidean for non-negative dividends, and non-positive for negative ones |
| ImagePopup.PrevIndex | components/ImagePopup.js:11 | `(i + 1) % n` stays in range, steps forward and wraps from the last index to 0 |
| ImagePopup.NextIndex | components/ImagePopup.js:15 | `(i - 1 + n) % n` stays in range, steps back and wraps from 0 to the last index |
| ImagePopup.PrevNextInverse | components/ImagePopup.js:11-15 | the two handlers undo each other |
| ImagePopup.PrevTimesWrap | components/ImagePopup.js:11 | k presses of `handlePrev` (k ≤ n) advance the index by k modulo n |
| ImagePopup.NextTimesWrap | components/ImagePopup.js:15 | k presses of `handleNext` (k ≤ n) move the index back by k modulo n |
| ImagePopup.FullCircle | components/ImagePopup.js:11-15 | n presses of either handler return to the start, and with one post the index stays 0 |
| ImagePopup.Popup.HandlePrev | components/ImagePopup.js:10-12 | the new index is `PrevIndex` of the old one, so a valid index stays valid |
| ImagePopup.Popup.HandleNext | components/ImagePopup.js:14-16 | the new index is `NextIndex` of the old one, so a valid index stays valid |
| ImagePopup.Popup.HandleKeyDown | components/ImagePopup.js:20-24 | Escape closes; ArrowLeft calls `handlePrev`; ArrowRight calls `handleNext`; any other key changes nothing |
| MyPosts.OwnPosts | app/my-posts/page.js:15-17 | exactly the posts whose `userEmail` is the session's email |
| MyPosts.OwnPostsOrder | app/my-posts/page.js:15-17 | the owner filter keeps the original order |
| MyPosts.TotalPages | app/my-posts/page.js:41 | `ceil(len / 3)`: zero exactly for no posts, else the least page count covering all posts |
| MyPosts.PageSlice | app/my-posts/page.js:42-43 | a page shows at most 3 posts |
| MyPosts.PageSliceInRange | app/my-posts/page.js:42-43 | page p shows the posts from index 3(p-1) up to three further, clipped at the end |
| MyPosts.AllPagesCoverPosts | app/my-posts/page.js:41-43 | concatenating pages 1 to `totalPages` gives exactly the filtered list |
| MyPosts.PageBeyondEnd | app/my-posts/page.js:38-43 | a page beyond `totalPages` (the page is not clamped after a delete) shows nothing |
| MyPosts.ControlsIffSeveralPages | app/my-posts/page.js:68 | the controls are drawn (more than 3 posts) exactly when there is more than one page |
| MyPosts.MyPostsPage.FetchPosts | app/my-posts/page.js:12-19 | the posts state becomes the caller's posts |
| MyPosts.MyPostsPage.Previous | app/my-posts/page.js:71 | `max(p - 1, 1)`, never below page 1 |
| MyPosts.MyPostsPage.Next | app/my-posts/page.js:80 | `min(p + 1, totalPages)`, never above `totalPages` |
| LayoutToggle.PageOf | components/LayoutToggleServer.js:7 | the page is the query parameter when it is truthy, otherwise "1" |
| LayoutToggle.Href | components/LayoutToggleServer.js:14 | `/user/<username>?layout=<layout>`, with `&page=<page>` appended exactly when the page is not "1" |
| LayoutToggle.HrefPageInjective | components/LayoutToggleServer.js:14-27 | different pages give different hrefs |
| LayoutToggle.Links | components/LayoutToggleServer.js:13-29 | two links, single then grid, each with that layout's href; a link is active exactly when `currentLayout` names it, and never both |
| LayoutToggle.DefaultPageLinks | components/LayoutToggleServer.js:7-27 | without a page parameter the links are `/user/<username>?layout=single` and `...=grid` |
| Utils.TimeAgo | lib/utils.js:13-36 | no contract of its own: `timeAgo`; TimeAgoBuckets, JustNow and CountPhraseSingular state which text each elapsed time gives |
| Utils.TimeAgoBuckets | lib/utils.js:13-34 | at least 7 days gives the date; exactly one whole day gives "yesterday"; 2 to 6 days, hours and minutes each give their whole count, the first threshold reached winning |
| Utils.JustNow | lib/utils.js:13-36 | "just now" exactly when less than a minute has elapsed, future dates included |
| Utils.CountPhraseSingular | lib/utils.js:28-33 | the singular unit is used exactly when the count is 1 |
| Utils.AcademicYearStart | lib/utils.js:96-102 | before September (month index below 8) the academic year started last calendar year, otherwise this year |
| Utils.LastYear | lib/utils.js:104 | a truthy `endYear` overrides the current academic-year start |
| Utils.EffectiveStart | lib/utils.js:107 | `max(startYear, lastYear - limit + 1)` |
| Utils.LastTwo | lib/utils.js:110 | `slice(-2)`: the last two characters, or the whole string when shorter |
| Utils.YearLabel | lib/utils.js:110-111 | no contract of its own: the label `<year>/<last two digits of year + 1>`; YearLabelReadsBack, YearLabelInjective and the two examples state its properties |
| Utils.YearLabelExample1999 | lib/utils.js:110-111 | 1999 gives "1999/00" |
| Utils.YearLabelExample2024 | lib/utils.js:110-111 | 2024 gives "2024/25" |
| Utils.YearLabelReadsBack | lib/utils.js:111 | a label starts with the year's digits followed by "/" |
| Utils.YearLabelInjective | lib/utils.js:110-111 | different years give different labels |
| Utils.GenerateAcademicYears | lib/utils.js:93-115 | the loop returns the labels of the years from `lastYear` down to the effective start |
| Utils.LabelsAt | lib/utils.js:109-112 | entry i is the label of `lastYear - i`: strictly descending, starting at `lastYear` |
| Utils.AcademicYearsBounds | lib/utils.js:104-112 | at most `limit` entries; none when `startYear > lastYear`; none before `startYear` |
| PermitUsersPage.FormatSchoolName | app/permit-users/page.js:10-23 | a missing or empty name gives "", and the result is never longer than the name |
| PermitUsersPage.FormatSchoolNameShape | app/permit-users/page.js:10-23 | a missing or empty name gives ""; the result has no apostrophe and is no longer than the input |
| PermitUsersPage.FormatSchoolNameCase | app/permit-users/page.js:17-20 | a letter is upper-case exactly when it begins a word |
| PermitUsersPage.FormatSchoolNameNoSaint | app/permit-users/page.js:20 | no whole word "saint", in any case, remains |
| PermitUsersPage.ProperCase | app/permit-users/page.js:17 | `replace(/\b\w/g, upper)` keeps the length and which characters are word characters |
| PermitUsersPage.ReplaceSaint | app/permit-users/page.js:20 | the replacement never lengthens the string |
| PermitUsersPage.FinalSchool | app/permit-users/page.js:110-116 | for "other", the formatted custom name followed by ` (<POSTCODE>)`; otherwise the listed school unchanged |
| PermitUsersPage.PermitForm.HandlePostcodeChange | app/permit-users/page.js:84-93 | the postcode is upper-cased, and the error is set exactly when it is longer than 4 |
| PermitUsersPage.PermitForm.HandleSubmit | app/permit-users/page.js:95-146 | for "other" with a long postcode, nothing is sent and the error is set; otherwise `{email, final school, session username}` is sent. On acceptance: "Permission Granted" and the four fields reset to "". On refusal: the server message or the fallback, fields kept. On a network failure: the generic error. Loading ends in every case |
| SignupForm.YearOptions | components/SignupForm.js:17-21 | the years from the current year down to 1980, one apart: currentYear - 1979 of them, or none before 1980 |
| SignupForm.Form.HandleSignup | components/SignupForm.js:23-47 | all five fields are sent; on success the form navigates to "/?login=true"; on failure it shows the response text or the fallback; loading ends |
| SignupPage.HandleSignup | app/signup/page.js:13-28 | all five fields are sent; on success the page alerts and navigates to "/login"; on a non-ok response it alerts the response text and stays; when `fetch` rejects there is no alert and no navigation (the handler has no `catch`); it navigates exactly on success |
| MyFavorites.FindProfile | app/my-favorites/page.js:28 | `users.find(u => u.username === key)`: the first exact username match, or none when no result matches |
| MyFavorites.MergeOne | app/my-favorites/page.js:28-32 | the entry keeps its key and carries the matching search result, or the fallback `{ username: key }` |
| MyFavorites.Merge | app/my-favorites/page.js:25-35 | the merged list has the length and order of the fetched list, and each entry's user has the entry's key as username |
| MyFavorites.Unfollow | app/my-favorites/page.js:56 | no entry whose `favoritedUsername` equals the passed username remains; every other entry stays; the list does not grow |
| MyFavorites.UnfollowKeepsOrder | app/my-favorites/page.js:56 | the remaining entries keep their relative order |
| MyFavorites.KeysAsWritten | app/my-favorites/page.js:25-28 | as written, reading `favoritedUsername` off a user document gives one key per item, and every key is undefined |
| MyFavorites.KeysCorrected | app/my-favorites/page.js:25-28 | corrected, item i is keyed by its own `username` |
| MyFavorites.Avatar | app/my-favorites/page.js:107-120 | a card's avatar throws exactly when its key is undefined; otherwise it is the upper-cased first character of the key, or "" for an empty key (a search result never carries an `image`) |
| MyFavorites.Avatars | app/my-favorites/page.js:104-120 | drawing the list throws exactly when some card has an undefined key; otherwise each card shows its own avatar, in order |
| MyFavorites.AsWrittenRenderThrows | app/my-favorites/page.js:25-120 | as written, drawing any non-empty list throws at the first card's avatar letter |
| MyFavorites.AsWrittenUnfollowClearsAll | app/my-favorites/page.js:25-146 | as written, every key read from the response is undefined, and so is the username a card's Unfollow button passes, so unfollowing any card empties the list |
| MyFavorites.CorrectedKeysFollowed | app/my-favorites/page.js:25-32 | keyed by `username`, each card's key is defined and names a user the caller follows |
| MyFavorites.CorrectedUnfollowRemovesOne | app/my-favorites/page.js:25-146 | keyed by `username`, every card is a user the caller follows, the list draws without throwing, and unfollowing a card removes that card and keeps every other user's card |
| MyFavorites.UnfollowExampleAsWritten | app/my-favorites/page.js:56-146 | with "bob" and "carol" followed, unfollowing bob's card as written removes both cards |
| MyFavorites.UnfollowExampleCorrected | app/my-favorites/page.js:56-146 | in the same case, corrected, only bob's card goes and carol's stays |
| MyFavorites.Page.FetchFavorites | app/my-favorites/page.js:14-42 | nothing happens without a signed-in email; otherwise the state becomes the merged list, keyed as written (every key undefined), and loading ends |
| MyFavorites.Page.HandleUnfollow | app/my-favorites/page.js:47-60 | after the DELETE request the state is the unfollow filter of the old state; when the request throws, nothing changes |

## Left out

- Post upload (`app/api/posts/route.js`) is not modelled. It streams to an image host and inserts a record, and it has no quota, eviction or release-time logic. The configured daily limit is never read.
- `lib/config.js` is used only through its constants: seven days and 50 entries for the viewing history.
- `formatDate`, `getRandomInRange` and `debounce` in `lib/utils.js` depend on locales, randomness and timers. They are not modelled.
- Utils.TimeAgo: the date string shown after seven or more days (`toLocaleDateString`) is kept abstract as `OnDate(date)`.
- The "Scheduled for" badge's time text (`toLocaleTimeString`) is not modelled, only whether the badge is shown.
- Bcrypt is a parameter: `hash` for hashing and `matches` for comparison.
  - Auth.Authorize: node's `bcrypt.compare` rejects with "data and hash arguments required" when the stored user has no password hash. The model reports that as its own error, `MissingPasswordHash`, with that message; the rejection's error class is not modelled.
- Next-auth, MongoDB and the Google provider are not modelled. The session is an optional input, and the Google profile is the class `Auth.Profile`. Only the fields the callbacks read and write are kept.
- The `_id` database field and the `id` that `authorize` returns are not modelled.
- Request bodies whose fields are missing are not modelled.
  - SignupRoute.Post takes the body's email, password and name as strings.
  - FavoritesRoute.Post and FavoritesRoute.Delete take the username as a string.
- Error branches that answer 500 or only log a caught exception are not modelled. The exceptions come from a failed database call or a malformed request.
- Every request is atomic and requests run one after another. This ignores the check-then-insert races in sign-up, Google sign-in and the allow-list POST, which can give two users the same username.
- Times and dates are integer milliseconds, or integer month and year.
  - The seven-day cutoff of the viewing history is `now - 7 days`. `setDate` near a daylight-saving change is not modelled.
  - The current month and year are inputs.
- Text.LowerAscii and Text.UpperAscii change only ASCII letters. `toLowerCase` and `toUpperCase` on other characters are not modelled.
- PermitUsersPage.FormatSchoolNameShape: the length bound holds for this ASCII model. Full Unicode case mapping can lengthen a string.
- The `/api/search-users` route runs a regular expression inside the database. It is the `lookup` parameter of MyFavorites.Merge.
- The `/api/schools` route and the permit page's `fetchPermittedUsers` refresh are not modelled. They are plain reads with no logic to state.
- PermitRoute.Get and ViewingHistoryRoute.Listed: Mongo's order between entries with equal timestamps is unspecified. The model states that the result is sorted and a permutation, not which tie order it has.
- ImagePopup.Popup: the handlers require at least one post. With no posts the source's `% 0` gives `NaN`, which the model does not represent.
- The pop-up's `onClose` callback is the returned `close` flag.
- The page templates, spinners and purely presentational components are not modelled. Of the "People You Follow" markup only the avatar is modelled (MyFavorites.Avatar), because it decides whether the list can be drawn.
- The year loop of app/signup/page.js:31-35 is the same loop as components/SignupForm.js:17-21. It is modelled once, as SignupForm.YearOptions.

## Findings

| source | as written | input that shows it | evidently intended | confidence | as-written member | corrected member |
|---|---|---|---|---|---|---|
| app/my-favorites/page.js:26-146 | The page keys each fetched favourite by `fav.favoritedUsername`. GET /api/favorites (app/api/favorites/route.js:18-23) returns user documents, which have no such field, so every key is `undefined`. The search route projects only `name` and `username` (app/api/search-users/route.js:18), and the fallback `{ username }` has no image either, so every card draws its avatar from `favorite.favoritedUsername.charAt(0)` (line 119), which throws a TypeError. The list can never be drawn. Behind that crash, the Unfollow button (line 146) would pass `undefined`, the filter would drop every card (MyFavorites.AsWrittenUnfollowClearsAll), and the DELETE body `{}` would name no user. | The caller follows "bob". GET /api/favorites returns bob's user document. Its key is `undefined` and its card has no image, so drawing the card throws at line 119. | Key each entry by the user document's `username`. Then every card draws, and Unfollow removes only that user's card. | not executed | MyFavorites.AsWrittenRenderThrows | MyFavorites.CorrectedUnfollowRemovesOne |
