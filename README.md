# SkyFarm auth gate and header, modelled in Dafny

SkyFarm is a small farm-management website. Two browser scripts are shared
by its pages:

- `skyfarm-auth.js` provides `SkyFarmAuth.requireAuth`. It polls until the
  hosted identity service's SDK is ready, or gives up after `maxWaitMs`.
  It then shows a sign-in overlay while no user is signed in. It stamps a
  user's login once per document id and tab, and starts a single "last
  seen" heartbeat per page.
- `skyfarm-header.js` provides `SkyFarmHeader.mount`. It renders the
  navigation (Diary, Map and a Database menu) and marks the link of the
  current page. It redirects one legacy file name, wires the Database
  menu's open/close behaviour and shows an auth-status label.

The model covers this logic. The SDK, the DOM and the timers become
inputs: per poll tick a clock value, the shape of the global `firebase`
binding and whether its services load; the notified user, how a sign-in
attempt settles, and the tab's session-storage keys.
Firestore writes are recorded as the document ids they were attempted for.

Files, one module each:

- `wrappers.dfy` (`Wrappers`): an `Option` type.
- `js_strings.dfy` (`JsStrings`): `toLowerCase` on ASCII and the ECMAScript `trim`.
- `firebase.dfy` (`Firebase`): `firebaseReady`, the user record, the result of a sign-in.
- `doc_ids.dfy` (`DocIds`): `safeDocIdFromEmail`.
- `auth_gate.dfy` (`AuthGate`): pure step functions for the poll, the
  notifications, the login stamp, the heartbeat and the sign-in form. It
  also holds the class `Gate`, whose methods are the script's event
  handlers and are proved against those functions.
- `header_nav.dfy` (`HeaderNav`): `currentFile`, `isActive`, the rendered
  links, the legacy redirect and the auth label.
- `database_menu.dfy` (`DatabaseMenu`): the menu's event function and the
  class `Menu` with its listeners.

Points where the code's behaviour is easy to mistake:

- The document id of `Jane.Doe@Farm.com` is `jane.doe_farm.com`, because
  `@` is outside `[A-Za-z0-9_.-]`. It is not `jane.doe@farm.com`.
- A successful sign-in hides the overlay at once. The code does not wait
  for the auth-state notification to do so.
- The login marker lives in `sessionStorage`, which survives a reload in
  the same tab. `Gate`'s constructor therefore takes the keys already in
  the store.
- The legacy redirect is a lookup only. `mount` goes on rendering after
  calling `location.replace`.
- A sign-in first awaits `setPersistence`. When that rejects, the sign-in
  itself is never requested, and the error's text is shown.
- On a ready tick the poll clears its interval before `firebase.auth()` and
  `firebase.firestore()` run. When either throws, no handler is installed
  and nothing polls again: the gate is left in a fourth state, `Broken`.
- `location.pathname` is percent-encoded, so the current file is ASCII and
  lower-casing only ASCII letters matches `toLowerCase` on it exactly.

## Model

| member | source | states |
|---|---|---|
| `JsStrings.LowerChar` | skyfarm-auth.js:15 | an ASCII capital becomes its lower-case letter; every other character is kept |
| `JsStrings.ToLower` | skyfarm-auth.js:15 | the length is kept; each capital becomes its lower-case letter, every other character stays; no capital is left |
| `JsStrings.ToLowerIdempotent` | skyfarm-header.js:33 | lower-casing leaves no capital letter, and doing it twice equals doing it once |
| `JsStrings.ToLowerFixedPoints` | skyfarm-header.js:38 | a string equals its lower-cased form exactly when it has no capital letter |
| `JsStrings.ToLowerAppend` | skyfarm-auth.js:15 | lower-casing distributes over concatenation |
| `JsStrings.LeadingSpaces` | skyfarm-auth.js:146 | the count of leading characters that are whitespace: all counted ones are, the next one is not |
| `JsStrings.TrailingSpaces` | skyfarm-auth.js:146 | the count of trailing characters that are whitespace: all counted ones are, the one before them is not |
| `JsStrings.TrimStart` | skyfarm-auth.js:146 | the result is a suffix; only whitespace was dropped; it does not start with whitespace |
| `JsStrings.TrimEnd` | skyfarm-auth.js:146 | the result is a prefix; only whitespace was dropped; it does not end with whitespace |
| `JsStrings.Trim` | skyfarm-auth.js:146-148 | `trim` keeps a contiguous part with only whitespace around it and none at its ends; it gives `""` exactly when the input is all whitespace |
| `JsStrings.LeadingSpacesOfPadded` | skyfarm-auth.js:146 | whitespace followed by a non-whitespace character is counted exactly |
| `JsStrings.TrailingSpacesOfPadded` | skyfarm-auth.js:146 | whitespace preceded by a non-whitespace character is counted exactly |
| `JsStrings.TrimStartOfPadded` | skyfarm-auth.js:146 | removing leading whitespace gives back the text that followed it |
| `JsStrings.TrimEndOfPadded` | skyfarm-auth.js:146 | removing trailing whitespace gives back the text that preceded it |
| `JsStrings.TrimOfPadded` | skyfarm-auth.js:146 | text without whitespace at its ends comes out of `trim` unchanged, whatever whitespace surrounds it |
| `Firebase.FirebaseReady` | skyfarm-auth.js:5-11 | ready exactly when the SDK is loaded and `apps` is an array of at least one app; an absent SDK or a throwing access is not ready |
| `DocIds.SafeDocIdFromEmail` | skyfarm-auth.js:13-17 | the id has the input's length (`""` for null and undefined); each position holds the lower-cased character when it is in `[A-Za-z0-9_.-]`, else `_`; every id is over `[a-z0-9_.-]` |
| `DocIds.SafeDocIdOfNothing` | skyfarm-auth.js:14 | null, undefined and `""` all give the empty id |
| `DocIds.SafeDocIdFixedPoints` | skyfarm-auth.js:13-17 | the sanitiser leaves a string unchanged exactly when it is made of `[a-z0-9_.-]` |
| `DocIds.SafeDocIdIdempotent` | skyfarm-auth.js:13-17 | sanitising twice equals sanitising once |
| `DocIds.SafeDocIdExample` | skyfarm-auth.js:13-17 | `Jane.Doe@Farm.com` becomes `jane.doe_farm.com` |
| `AuthGate.MaxWaitMs` | skyfarm-auth.js:114 | 10000 when the option is absent or 0, the given value otherwise; never 0 |
| `AuthGate.PollStep` | skyfarm-auth.js:130-144 | readiness before the deadline: a ready tick leaves Waiting even late, for Listening when `auth()` and `firestore()` return and for Broken when one throws; Unavailable exactly when not ready and `now - start > maxWaitMs`; terminal states never change |
| `AuthGate.TerminalIsFinal` | skyfarm-auth.js:133-140 | once Unavailable or Listening, later ticks change nothing and produce no outcome |
| `AuthGate.AtMostOneOutcome` | skyfarm-auth.js:130-140 | over any sequence of ticks at most one outcome happens; exactly one when the gate started waiting and ended terminal, and it is the final state |
| `AuthGate.FirstDecisive` | skyfarm-auth.js:131-132 | the index of the first tick that is ready or past the deadline; no earlier tick is |
| `AuthGate.FirstDecisiveSettles` | skyfarm-auth.js:130-140 | the first ready-or-late tick alone decides: Listening if ready with its services, Broken if ready without, Unavailable if not ready; with none the gate is still waiting |
| `AuthGate.ReadyInTimeListens` | skyfarm-auth.js:130-144 | with a clock that never goes back, readiness at a tick within `maxWaitMs` never ends in Unavailable, and ends in Listening when the services load at every tick |
| `AuthGate.NeverReadyTimesOut` | skyfarm-auth.js:131-136 | an SDK never ready ends in Unavailable once a tick is strictly past the deadline |
| `AuthGate.OverlayAfterNotification` | skyfarm-auth.js:164-174 | the overlay is shown exactly for a notification without a user, so repeated notifications give the same visibility |
| `AuthGate.StampKeyInjective` | skyfarm-auth.js:75 | different document ids have different session-storage markers |
| `AuthGate.StampOutcome` | skyfarm-auth.js:72-79 | no-op without an e-mail; otherwise the marker is set, and a write is attempted exactly when the marker was absent |
| `AuthGate.StampTwiceWritesOnce` | skyfarm-auth.js:78-79 | stamping the same address again in the resulting store writes nothing |
| `AuthGate.StampAllOncePerDocId` | skyfarm-auth.js:70-92 | over any sequence of notified addresses, each document id is written at most once, only if its marker was not stored before, and its marker is stored after |
| `AuthGate.HeartbeatStart` | skyfarm-auth.js:96-99 | raises the flag; registers an interval only when the flag was down |
| `AuthGate.HeartbeatSingleton` | skyfarm-auth.js:94-99 | after any number of `startHeartbeat` calls at most one interval exists, and exactly one after at least one call |
| `AuthGate.HeartbeatWrite` | skyfarm-auth.js:101-107 | a heartbeat tick writes nothing without a current user or e-mail, else the sanitised document id |
| `AuthGate.FailureText` | skyfarm-auth.js:160 | the error's message when it has one, "Sign in failed." otherwise; never empty |
| `AuthGate.SignInOutcome` | skyfarm-auth.js:145-162 | no request exactly when the trimmed e-mail or the password is empty, and then "Enter email and password."; otherwise "Signing in…" and a `setPersistence` request; the sign-in with the trimmed e-mail and untrimmed password is requested exactly when that resolves; then "Signed in." and a hidden overlay, or the failure text |
| `AuthGate.EmptyPasswordMakesNoCall` | skyfarm-auth.js:148-151 | an empty password makes no request and shows "Enter email and password." |
| `AuthGate.PersistenceFailureMakesNoCall` | skyfarm-auth.js:152-160 | with both fields filled, a rejected `setPersistence` requests no sign-in and replaces "Signing in…" by the error's text |
| `AuthGate.OnlyEmailIsTrimmed` | skyfarm-auth.js:146-155 | whitespace around the e-mail is dropped before the sign-in request, which is made unless `setPersistence` rejects; the password is passed on as typed |
| `AuthGate.Gate.constructor` | skyfarm-auth.js:112-129 | the gate waits from `now` with the interval running, the overlay hidden and the message empty |
| `AuthGate.Gate.OnPollTick` | skyfarm-auth.js:130-144 | the state follows `PollStep`; entering Unavailable sets "Firebase not ready on this page." and shows the overlay; every outcome clears the interval |
| `AuthGate.Gate.OnCloseClick` | skyfarm-auth.js:123 | the close button hides the overlay in every state |
| `AuthGate.Gate.StampLastLogin` | skyfarm-auth.js:70-92 | the store and the writes follow `StampOutcome`; no document id is ever written twice |
| `AuthGate.Gate.StartHeartbeat` | skyfarm-auth.js:94-99 | flag and intervals follow `HeartbeatStart`; at most one interval is ever registered |
| `AuthGate.Gate.OnAuthStateChanged` | skyfarm-auth.js:164-174 | nothing before Listening; then a user hides the overlay, stamps and starts the heartbeat, while no user shows the overlay |
| `AuthGate.Gate.OnHeartbeatTick` | skyfarm-auth.js:99-109 | with the interval registered, appends the write `HeartbeatWrite` gives |
| `AuthGate.Gate.OnSignInClick` | skyfarm-auth.js:145-162 | nothing before Listening; then the last message, the overlay, the `setPersistence` requests and the sign-in calls follow `SignInOutcome` |
| `AuthGate.Gate.SubmitTrimmed` | skyfarm-auth.js:147-161 | the handler's work on the trimmed address: message, overlay, requests and calls as `Submit` gives them |
| `HeaderNav.CurrentFile` | skyfarm-header.js:32-34 | the current file has no `/` and no capital, and is `""` when the path ends in `/` |
| `HeaderNav.LastSegment` | skyfarm-header.js:33 | the text after the last `/`: a suffix of the path with no `/`, preceded by `/` unless it is the whole path |
| `HeaderNav.LastSegmentAfterSlash` | skyfarm-header.js:33 | whatever precedes the last `/` does not change the current file |
| `HeaderNav.CurrentFileAfterSlash` | skyfarm-header.js:32-34 | the current file of `dir/file` is `file` lower-cased, whatever the directory |
| `HeaderNav.LastSegmentOfLower` | skyfarm-header.js:33 | lower-casing the path and taking its last segment commute |
| `HeaderNav.IsActive` | skyfarm-header.js:36-39 | an href holding a `/` is never active, since the current file has none |
| `HeaderNav.IsActiveIgnoresCase` | skyfarm-header.js:36-39 | whether a link is active depends on neither the case of the path nor the case of the href |
| `HeaderNav.RenderLinks` | skyfarm-header.js:54 | one link per item, in order, with the item's href and text, current exactly when the current file is its lower-cased href |
| `HeaderNav.IsDatabaseOpen` | skyfarm-header.js:64 | the menu is always rendered closed |
| `HeaderNav.NavModel` | skyfarm-header.js:48-64 | the Database button renders with `aria-expanded` false |
| `HeaderNav.LinkOrder` | skyfarm-header.js:48-62 | seven links in the order Diary, Map, then the Database items as listed, each with its href and text, current exactly when the current file equals its lower-cased href |
| `HeaderNav.RenderLinksAppend` | skyfarm-header.js:49-54 | rendering two lists of pages one after the other equals rendering them joined |
| `HeaderNav.HrefsDistinct` | skyfarm-header.js:9-20 | the hrefs of `PAGES` and `DATABASE_ITEMS` are pairwise distinct, also lower-cased |
| `HeaderNav.AtMostOneCurrent` | skyfarm-header.js:49-54 | at most one rendered link carries `aria-current="page"` |
| `HeaderNav.CurrentIffListed` | skyfarm-header.js:49-54 | some link is current exactly when the current file is one of the hrefs, and the current link is that one |
| `HeaderNav.OnlyCurrentIsListed` | skyfarm-header.js:49-54 | when the current file is the k-th href lower-cased, the k-th link and no other is current |
| `HeaderNav.MapFileOf` | skyfarm-header.js:32-34 | in any directory, the current file of `SkyFarm-Map.HTML` is the Map page's href |
| `HeaderNav.MapPageIsCurrent` | skyfarm-header.js:49-50 | on `SkyFarm-Map.HTML`, in any directory and in mixed case, the Map link and no other is current |
| `HeaderNav.LegacyRedirect` | skyfarm-header.js:27-30 | a redirect goes to a Database page that is itself no key of the table |
| `HeaderNav.RedirectTable` | skyfarm-header.js:23-25 | the table's one key is `skyfarm-chemical-inventory.html`, its target is the Chemicals page, and the target is no key |
| `HeaderNav.LegacyRedirectOnlyForKeys` | skyfarm-header.js:27-30 | the redirect fires exactly when the lower-cased last segment is a key of the table, and goes to that key's target |
| `HeaderNav.NoRedirectChains` | skyfarm-header.js:23-25 | no target is a key, every target is a Database page, and arriving at a target in the same directory does not redirect again |
| `HeaderNav.LegacyRedirectAsWritten` | skyfarm-header.js:27-30 | the lookup as written finds something exactly for own keys and inherited member names; an inherited hit is never an own key |
| `HeaderNav.LegacyRedirectAsWrittenOnConstructor` | skyfarm-header.js:29 | the lookup as written redirects on `Constructor` in any directory, a name that is not a key of the table |
| `HeaderNav.LegacyRedirectAgreesOnOtherNames` | skyfarm-header.js:29 | for names other than inherited members, the lookup as written and the own-key lookup agree |
| `HeaderNav.AuthLabel` | skyfarm-header.js:99 | "Connecting…" exactly for no user, "Connected (guest)" exactly for an anonymous user, "Signed in" exactly for any other user |
| `HeaderNav.LabelReplay` | skyfarm-header.js:98-100 | each notification rewrites the label, so it is the label of the last one |
| `HeaderNav.LabelAfter` | skyfarm-header.js:71-103 | the label rendered as "Connecting…" stays so without a subscription or a notification; otherwise it is the label of the last notification; it is always one of the three labels |
| `DatabaseMenu.NextOpen` | skyfarm-header.js:83-91 | a click outside and Escape close, the button toggles, every other event leaves the state |
| `DatabaseMenu.EventEffects` | skyfarm-header.js:80-91 | a click outside and Escape close, and closing twice equals closing once; a click inside and other keys change nothing; the button toggles |
| `DatabaseMenu.ClosedAfterClosingEvent` | skyfarm-header.js:87-91 | whatever came before, a click outside or Escape leaves the menu closed |
| `DatabaseMenu.OpensOnlyByButton` | skyfarm-header.js:80-86 | a menu that starts closed is open only after a click on its button |
| `DatabaseMenu.ClicksToggle` | skyfarm-header.js:83-86 | after `n` clicks on the button the menu is open exactly when the parity of `n` and the initial state say so |
| `DatabaseMenu.Menu.constructor` | skyfarm-header.js:52 | the menu starts closed with `aria-expanded` "false" |
| `DatabaseMenu.Menu.Open` | skyfarm-header.js:80 | open, with `aria-expanded` "true" |
| `DatabaseMenu.Menu.Close` | skyfarm-header.js:81 | closed, with `aria-expanded` "false" |
| `DatabaseMenu.Menu.OnButtonClick` | skyfarm-header.js:83-86 | toggles the state; `aria-expanded` mirrors it |
| `DatabaseMenu.Menu.OnDocumentClick` | skyfarm-header.js:87-89 | a click outside closes, a click inside changes nothing; `aria-expanded` mirrors the state |
| `DatabaseMenu.Menu.OnButtonKeyDown` | skyfarm-header.js:91 | Escape closes, other keys change nothing; `aria-expanded` mirrors the state |

## Left out

- Markup and styling are left out: the overlay's HTML and CSS, `brandHtml` and `headerHtml`. Links are records with an href, a link text and a current flag.
- The DOM is left out: `ensureOverlay` finding or creating its element, and `mount` creating or reusing the mount point and replacing its `innerHTML`. The overlay is assumed new, so it starts hidden.
- `location.replace` is left out; the redirect is a value. Navigation is browser I/O.
- The SDK calls are left out: `setPersistence`, `signInWithEmailAndPassword`, Firestore `set` with `serverTimestamp` and the document fields, and `currentUser`. They are foreign calls. How a sign-in settles, the current user, the SDK global and whether its services load are inputs; writes are recorded as attempts.
- Timers and the clock are left out: `setInterval`, `clearInterval`, `Date.now`, and the 150 ms and 5 min periods. Ticks are explicit method calls with the clock as a parameter.
- Async interleaving is left out: overlapping notifications, in-flight writes, and the `await` between the stamp and `startHeartbeat`. This is concurrency; each handler runs to completion in the model.
- Several `requireAuth` calls on one page, or several `mount` calls, are left out. Each would attach more listeners.
- `DocIds.SafeDocIdFromEmail`: `toLowerCase` is modelled on ASCII letters only. A few non-ASCII characters lower-case to ASCII (the Kelvin sign) or to two characters (`İ`); the model replaces them by one `_`. JavaScript also replaces each half of a surrogate pair, giving two `_`.
- `AuthGate.MaxWaitMs`: only an absent option or an integer is modelled. `Number` of a non-numeric value gives NaN, and such a gate never times out.
- `AuthGate.Gate.StampLastLogin`: `sessionStorage` is assumed to work. A store that throws makes the code skip both the marker and the write. A key already stored with the empty value would be stamped again.
- `DocIds.SafeDocIdFromEmail` takes an optional string only. `String()` of other JavaScript values is left out.
- Role lookup, privileged navigation links and re-render suppression are not part of this model. They do not appear in `skyfarm-auth.js` or `skyfarm-header.js`.

## Findings

| source | as written | input that shows it | evidently intended | confidence | as-written member | corrected member |
|---|---|---|---|---|---|---|
| skyfarm-header.js:29 | `LEGACY_REDIRECTS[path]` is a property lookup on an object literal, so it also finds members inherited from `Object.prototype`. Two of them have lower-case names: `constructor` and `__proto__`. Both are truthy, so `location.replace` runs with `Object` or `Object.prototype`. | pathname `/Constructor` (any case) or `/__proto__` | redirect only for keys the table itself defines | medium; not executed | `HeaderNav.LegacyRedirectAsWrittenOnConstructor` | `HeaderNav.LegacyRedirectOnlyForKeys` |
