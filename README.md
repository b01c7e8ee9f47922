# feeds — a Dafny model of the posts store, the session and the feed handlers

The feeds application is a small social feed running in the browser. Its core:

- **Posts store** (`FeedsDB`). An IndexedDB database `FeedsDB`, version 1, with one object store, `posts`. The store is keyed by `id` and has an index on `timestamp`.
  - `init` opens the database, creating the store and index only when they are absent.
  - `addPost` stores a new post whose three counters start at zero.
  - `getAllPosts` lists every post, newest first.
  - `updatePostStats` adds one to the likes, comments or shares of one post.
  - `seedInitialData` only initializes.
- **Cookie helpers.**
  - `getCookie` scans the `;`-separated cookie string for `name=`.
  - `setCookie` and `deleteCookie` write fixed-shape cookie strings.
  - The auth wrappers pin the cookie name `authUserId` and a 30-day lifetime.
- **Session controller** (`AuthProvider`).
  - Its state is `isSignedIn`, `user`, `loading`, and the session cookie.
  - It has four transitions: startup (`initializeAuth`), `signIn`, `signUp` and `signOut`.
- **Handlers of the pages and components**:
  - `formatTimeAgo` of a rendered post;
  - the post composer's content guard, submit and emoji-picker handlers;
  - the feed page's loading and interaction handlers;
  - the submit logic of the sign-up and login forms.

The model has one Dafny module per source file, plus two shared modules: `Outcomes` (Option, Reply, Result) and `Decimal` (the decimal numeral of a `nat`).

- **Stateful code becomes classes.** The store, the session controller, the composer, the feed page and the forms are classes. Their methods change the class's fields in the order the source does.
- **Pure code becomes functions.** Cookie strings and `formatTimeAgo` are functions, with lemmas about them.
- **`getCookie` keeps its loops.** It is a method with its `for` loop and its inner `while`, proved against the function `CookieValue`.

The model fixes four conventions:

- **Store requests can fail.** Any store request the browser could fail (open, add, getAll, get, put) may be named in a `faults` set passed to each call. A request in the set fails, and the model follows the source's error path.
- **Unseen calls become parameters.** The user-store calls `getUserById`, `authenticateUser` and `addUser` are not in the source shown. Each is a function parameter giving the call's outcome: `Returned(value)` or `Threw`.
- **The forms take the settled call.** A form's submit handler receives the settled outcome of `signIn`/`signUp` as a parameter.
- **Generated values are inputs.** The clock (`Date.now()`) and the id generator (`Math.random()`) become parameters too.

## Model

| member | source | states |
|---|---|---|
| FeedsStore.Bump | src/utils/indexedDB.ts:109 | `post[field] += 1`: the named counter grows by exactly one, the two other counters and every non-counter field are unchanged |
| FeedsStore.Incremented | src/utils/indexedDB.ts:104-114 | the store after one successful update: same keys; the post's named counter is one higher while its other counters and all its other fields are unchanged; every other post is unchanged |
| FeedsStore.IncrementedEvolves | src/utils/indexedDB.ts:104-114 | an update only grows counters and removes no post, and every post stays stored under its own id |
| FeedsStore.IncrementedTimesCount | src/utils/indexedDB.ts:96-128 | n successful updates of one counter raise it by exactly n and change nothing else in the store |
| FeedsStore.EvolvesTransitive | src/utils/indexedDB.ts:44-128 | "ids are never removed, posts change only in their counters, counters never decrease" composes across any sequence of store operations |
| FeedsStore.InsertNewestFirst | src/utils/indexedDB.ts:86 | inserting into a newest-first list keeps it newest first, and its elements are exactly the old ones plus the new post (as a multiset) |
| FeedsStore.ConsNewestFirst | src/utils/indexedDB.ts:86 | a post at least as new as every post of a newest-first list can be put in front of it |
| FeedsStore.MembersBounded | src/utils/indexedDB.ts:86 | a timestamp bound on some posts and on one more holds for every post of a list made of exactly those posts |
| FeedsStore.SortNewestFirst | src/utils/indexedDB.ts:86 | `request.result.sort(...)` as an insertion sort on timestamps; its order and permutation are stated by `SortNewestFirstSorts` |
| FeedsStore.SortNewestFirstSorts | src/utils/indexedDB.ts:86 | the sort by `b.timestamp - a.timestamp` gives a list ordered by non-increasing timestamp that is a permutation of its input |
| FeedsStore.NewestListedFirst | src/utils/indexedDB.ts:81-87 | in a newest-first listing, a post strictly newer than all others is listed first |
| FeedsStore.ValuesCount | src/utils/indexedDB.ts:37 | in a store keyed by id, there are as many stored posts as keys |
| FeedsStore.ListingIsExact | src/utils/indexedDB.ts:81-87 | a listing that is a permutation of the stored posts has one entry per key and contains every stored post; each entry is stored under its id; the listing repeats no post |
| FeedsStore.FeedsDB.constructor | src/utils/indexedDB.ts:17-18 | a fresh handle with no connection over whatever database the browser already holds: its version, whether the store exists, and the posts from earlier visits are taken as given |
| FeedsStore.FeedsDB.Init | src/utils/indexedDB.ts:20-42 | a failed open reports "Failed to open database" and changes nothing; otherwise the database is open at version 1, the store and index exist, and an upgrade creates them only when absent, so posts are never touched |
| FeedsStore.FeedsDB.AddPost | src/utils/indexedDB.ts:44-71 | succeeds iff the store opens, the add request is not failed, and the id is unused; on success, returns the input's content, emoji, author and avatar with the given id and timestamp and zero counters, and stores exactly that post under its id with nothing else changed; on failure, the error is an open failure or "Failed to add post" and the store is unchanged |
| FeedsStore.FeedsDB.IndexGetAll | src/utils/indexedDB.ts:81-82 | the index read returns every stored post exactly once (a permutation of the store's values) and changes nothing |
| FeedsStore.FeedsDB.GetAllPosts | src/utils/indexedDB.ts:73-94 | succeeds iff the store opens and the read is not failed; the result is newest first and a permutation of the stored posts; the posts are unchanged |
| FeedsStore.FeedsDB.UpdatePostStats | src/utils/indexedDB.ts:96-128 | succeeds iff open, get and put succeed and the id is stored; the new store is then `Incremented` (exactly +1 on one field); otherwise the error is, in this order, the open failure, "Failed to get post", "Post not found" or "Failed to update post", and the posts are unchanged |
| FeedsStore.FeedsDB.SeedInitialData | src/utils/indexedDB.ts:130-133 | only initializes: the outcome and new state are those of `Init`, and no post is added |
| Cookies.GetCookie | src/utils/cookies.ts:9-23 | the loop with its inner space-stripping loop returns exactly `CookieValue(cookie, name)`, the first-match lookup over the `;`-split string |
| Cookies.LookupFirstMatch | src/utils/cookies.ts:13-20 | the first segment that, without leading spaces, starts with `name=` gives its remainder as the value |
| Cookies.LookupNoneIff | src/utils/cookies.ts:22 | the lookup returns null exactly when no segment matches |
| Cookies.LookupSomeFirstMatch | src/utils/cookies.ts:13-20 | a value found is the remainder of a matching segment, and no earlier segment matches |
| Cookies.StripLeadingSpacesShape | src/utils/cookies.ts:15-17 | only leading space characters are removed: the result is a suffix of the segment, all removed characters are spaces, and the result does not start with a space |
| Cookies.Split | src/utils/cookies.ts:11 | `document.cookie.split(';')`: always at least one piece, empty pieces kept; its inverse is `Join` (`JoinSplit`, `SplitJoin`) |
| Cookies.SplitPiecesSeparatorFree | src/utils/cookies.ts:11 | no piece of `split(';')` contains a `;` |
| Cookies.JoinSplit | src/utils/cookies.ts:11 | joining the pieces of a split with the separator gives back the string |
| Cookies.SplitJoin | src/utils/cookies.ts:11 | splitting the join of separator-free pieces gives back the pieces |
| Cookies.SplitSeparatorFree | src/utils/cookies.ts:11 | a string without `;` splits into itself alone |
| Cookies.SplitAtSeparator | src/utils/cookies.ts:11 | a split at a first `;` yields the part before it and the split of the rest |
| Cookies.JoinCons | src/utils/cookies.ts:11 | joining a leading piece onto the rest puts exactly one separator between them |
| Cookies.StripSpacesPrefix | src/utils/cookies.ts:15-17 | spaces in front of text that does not start with a space are stripped to exactly that text |
| Cookies.CookieValueOfEntries | src/utils/cookies.ts:9-23 | in a cookie string made of `;`-free entries, an entry `name=value` (possibly space-indented) with no earlier match yields `value` |
| Cookies.PairRoundTrip | src/utils/cookies.ts:6-19 | `getCookie(name)` on the string `name=value` returns `value` when neither contains `;` |
| Cookies.FourAttributes | src/utils/cookies.ts:6-11 | four `;`-free attributes joined by `;` split back into exactly those four |
| Cookies.SetCookie | src/utils/cookies.ts:3-7 | the string `setCookie` assigns, with `days` defaulting to 7 and the expiry text `toUtc(now + days·86,400,000)`; its shape is stated by `SetCookieEntries` and `SetCookieRoundTrip` |
| Cookies.DeleteCookie | src/utils/cookies.ts:25-27 | the string `deleteCookie` assigns; its shape is stated by `DeleteCookieEntries` |
| Cookies.SetCookieEntries | src/utils/cookies.ts:3-7 | `setCookie` writes exactly the entries `name=value`, `expires=` the UTC text of now + days·86,400,000 ms, `path=/` and `SameSite=Lax`, in that order |
| Cookies.SetCookieRoundTrip | src/utils/cookies.ts:3-23 | reading back the string `setCookie` writes gives the value set, whatever the expiry text |
| Cookies.DeleteCookieEntries | src/utils/cookies.ts:25-27 | `deleteCookie` writes an empty value, the 1970 expiry, `path=/` and a trailing empty attribute |
| Cookies.SetAuthCookie | src/utils/cookies.ts:30-32 | `setCookie('authUserId', userId, 30)`; stated by `AuthCookieRoundTrip` and `AuthCookieLifetime` |
| Cookies.ClearAuthCookie | src/utils/cookies.ts:38-40 | `deleteCookie('authUserId')`, the same name the other two auth helpers use |
| Cookies.AuthCookieRoundTrip | src/utils/cookies.ts:30-36 | reading `authUserId` back from what `setAuthCookie` writes gives the user id |
| Cookies.GetAuthCookie | src/utils/cookies.ts:34-36 | `getAuthCookie` is the lookup of the single name `authUserId` |
| Cookies.AuthCookieLifetime | src/utils/cookies.ts:30-32 | the string `setAuthCookie` writes consists of `authUserId=<id>`, an `expires=` attribute for now + 2,592,000,000 ms (30 days), `path=/` and `SameSite=Lax` |
| AuthSession.AuthProvider.constructor | src/context/AuthContext.tsx:43-46 | initially signed out, user null, loading true, and the cookie is whatever the browser holds |
| AuthSession.AuthProvider.InitializeAuth | src/context/AuthContext.tsx:49-73 | loading ends false in every case and the posts are untouched; a saved id resolving to a user signs that user in; a saved id resolving to nothing clears the cookie and leaves the state as it was; a failed store or a throwing lookup changes nothing else; signed-in iff a user is kept |
| AuthSession.AuthProvider.SignIn | src/context/AuthContext.tsx:77-97 | returns true iff the lookup returns a user; then the user is set, signed in, and the cookie is the user's id; otherwise nothing changes |
| AuthSession.AuthProvider.SignUp | src/context/AuthContext.tsx:99-115 | returns true iff `addUser` returns; then the new user is signed in and the cookie holds their id; a throw changes nothing |
| AuthSession.AuthProvider.SignOut | src/context/AuthContext.tsx:117-125 | cookie cleared, user null, signed out; signed-in iff user is kept |
| TimeAgo.Classify | src/components/FeedPost.tsx:14-19 | the branch taken is days, hours, minutes or "just now" exactly by the thresholds on diff; its count is the floor of diff by the unit (at least 1, hours at most 23, minutes at most 59) |
| TimeAgo.CountedParts | src/components/FeedPost.tsx:21-25 | a counted phrase begins with the count's decimal numeral and a space, and ends in "s ago" iff the count exceeds 1 |
| TimeAgo.CountedNumeral | src/components/FeedPost.tsx:21-25 | a counted phrase begins with the count's decimal numeral, which reads back as the count, then a space |
| TimeAgo.CountedPlural | src/components/FeedPost.tsx:21-25 | a counted phrase ends in "s ago" iff the count exceeds 1 |
| TimeAgo.FormatTimeAgo | src/components/FeedPost.tsx:13-29 | `formatTimeAgo(timestamp)` with `Date.now()` as `now`: the phrase for the branch `Classify` selects; stated by `JustNowIff` and `FormatTimeAgoParts` |
| TimeAgo.JustNowIff | src/components/FeedPost.tsx:26-27 | the text is "Just now" exactly when under a minute has passed, a future timestamp included |
| TimeAgo.FormatTimeAgoParts | src/components/FeedPost.tsx:13-29 | past the first minute, the text starts with the number of whole units elapsed and is plural iff that number exceeds 1 |
| Decimal.NatToString | src/components/FeedPost.tsx:21 | `${n}`: a non-empty string of digits without a leading zero for positive n |
| Decimal.ParseNatToString | src/components/FeedPost.tsx:21 | the numeral read back gives the number |
| Decimal.NatToStringInjective | src/components/FeedPost.tsx:21 | distinct counts print differently |
| Composer.Trim | src/components/PostComposer.tsx:364 | `content.trim()` over ECMAScript whitespace; stated by `TrimStartShape`, `TrimEndShape` and `TrimEmptyIff` |
| Composer.TrimStartShape | src/components/PostComposer.tsx:364 | trimming the front removes exactly a leading run of whitespace |
| Composer.TrimEndShape | src/components/PostComposer.tsx:364 | trimming the back removes exactly a trailing run of whitespace |
| Composer.TrimEmptyIff | src/components/PostComposer.tsx:364 | the trimmed text is empty iff every character is whitespace |
| Composer.PostComposer.HasContent | src/components/PostComposer.tsx:364 | true iff the content holds a non-whitespace character |
| Composer.PostComposer.constructor | src/components/PostComposer.tsx:352-357 | empty content, not posting, the default emoji, picker closed |
| Composer.PostComposer.HandleSubmit | src/components/PostComposer.tsx:371-405 | does nothing unless there is content, a signed-in state and a user; then posts the trimmed content with the selected emoji and the user's email; a store success clears the content and reports `onPostCreated`, a failure keeps the content; `isPosting` is false afterwards |
| Composer.PostComposer.HandleSendClick | src/components/PostComposer.tsx:407-413 | signed out: asks for sign-in and changes nothing; signed in: exactly the submit's outcome, including the whole new store (the trimmed content, the selected emoji, the user's email, the default avatar, the timestamp and zero counters under the new id, nothing else changed) |
| Composer.PostComposer.HandleTextareaClick | src/components/PostComposer.tsx:415-419 | asks for sign-in iff signed out |
| Composer.PostComposer.HandleEmojiClick | src/components/PostComposer.tsx:421-427 | signed out: asks for sign-in and leaves the picker; signed in: toggles the picker |
| Composer.PostComposer.HandleEmojiSelect | src/components/PostComposer.tsx:429-432 | takes the emoji and closes the picker |
| Composer.PostComposer.HandleContentChange | src/components/PostComposer.tsx:441-446 | replaces the content only |
| FeedPage.StatFor | src/pages/Feed.tsx:46-49 | the counter updated is the action's name with "s" appended |
| FeedPage.Feed.constructor | src/pages/Feed.tsx:10-12 | no modal, no posts, loading |
| FeedPage.Feed.LoadPosts | src/pages/Feed.tsx:18-30 | loading ends false; with the store reachable the shown posts become the store's posts, newest first, as a permutation; on failure the old posts stay; the store's contents are not changed |
| FeedPage.Feed.HandlePostCreated | src/pages/Feed.tsx:32-34 | exactly a reload |
| FeedPage.Feed.HandleInteraction | src/pages/Feed.tsx:36-54 | signed out: shows the sign-in modal and leaves the store alone; signed in, a successful update is exactly +1 on the action's counter followed by a reload; a failed update leaves the page and the posts unchanged |
| Signup.SignupForm.constructor | src/components/SignupForm.tsx:10-16 | empty fields, no error, not loading |
| Signup.SignupForm.HandleChange | src/components/SignupForm.tsx:20-25 | replaces only the named field |
| Signup.SignupForm.HandleSubmit | src/components/SignupForm.tsx:27-62 | mismatched passwords are reported first, then a password under 6 characters, neither calling `signUp`; otherwise `signUp` is called, true navigates to `/feed`, false shows the "email might already be in use" message, a throw shows the generic error, and loading ends false |
| Login.LoginForm.constructor | src/components/LoginForm.tsx:10-13 | empty fields, no error, not loading |
| Login.LoginForm.HandleSubmit | src/components/LoginForm.tsx:17-36 | true navigates to `/feed` with no error, false shows the single invalid-credentials message, a throw shows the generic error; loading is false at the end |

## Left out

- IndexedDB mechanics: requests, callbacks, promises, transactions and version numbers beyond 1. Each request is one synchronous step on an in-memory map, and a failing request is named in `faults`. The atomicity of get-then-put in one transaction is a guarantee of IndexedDB and is taken as given.
- `Date.now()` and `Math.random().toString(36)`. The post id, the timestamp and `now` are parameters; base-36 formatting is out.
- JavaScript numbers are doubles. Timestamps and counters are modelled as integers, so precision loss past 2^53 is not modelled.
- Browser cookie storage. The model does not capture how assigning `document.cookie` stores, replaces and expires entries. `getCookie` reads an explicit cookie string. `AuthProvider` keeps `authCookie` as what `getAuthCookie` would then return; `setAuthCookie` sets it and `clearAuthCookie` clears it.
- `Date.toUTCString` is the function parameter `toUtc`.
- The user store: `getUserById`, `authenticateUser`, `addUser` and the `User` type are not part of this model. Each call is a parameter giving its outcome. `User` keeps only `id` and `email`. The user seeding implied by the comment at src/context/AuthContext.tsx:52 is not modelled.
- The `signUp` parameter's `firstName`/`lastName` are unused, so `SignUp` takes email and password only.
- Rendering, styling, routing (navigation is the returned `navigateTo`), `memo`/`useMemo`/`useCallback`, `alert` and `console` output.
- The composer's click-outside `mousedown` listener and its category tab (`handleCategoryChange`): neither has logic beyond a DOM event or a single assignment.
- `COMPOSER_CONFIG` and the other constants of `../utils/constants` are not part of this model. The default emoji and the default avatar URL are parameters of the composer's constructor.
- `String.prototype.trim` is modelled with ECMAScript's WhiteSpace and LineTerminator code points over `char`. Strings are sequences of code points, not UTF-16 units, so `length` counts differ for characters outside the Basic Multilingual Plane.
- The order among posts with equal timestamps in `getAllPosts`. The source sorts the index order (timestamp ascending, then key) with a stable sort. The model proves only the non-increasing order and the permutation.
- `SignupForm.HandleChange` takes one of the three named fields. An input with any other `name` would add a new key to `formData`; the form has no such input.
- Asynchronous interleaving. Each handler runs to completion as one step. `handleInteraction` does not wait for its reload and the feed page does not wait for `onPostCreated`; both are modelled as if they did.
- `Composer.PostComposer.HandleSubmit`: the transient `isPosting == true` while the add is pending is not stated in the contract, only that it is false afterwards.
- `AuthSession.AuthProvider.InitializeAuth`: the `catch` branch for a throwing `seedInitialData` is the store's open failure in `faults`.
- The forms receive `Threw` as a possible outcome of `signIn`/`signUp`, as their `catch` blocks expect. The `AuthProvider` modelled here never throws from those calls, since it catches internally.
