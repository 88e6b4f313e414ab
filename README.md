# Mystery-box client: selection controller, session and admin guard

A Dafny model of the three pieces of client-side logic in the mystery-box web
client. Everything else in the client is view markup and HTTP glue.

- **Box selection** (`Selection`, `box_selection.dfy`). This models the `Home` screen.
  A user holding `credits` picks that many distinct boxes, then submits them.
  - The class `Selection.Controller` holds the component state: `credits`, the ordered `selection`, the progress `message`, `error`, `isLoading`, the fetched `boxes`, the theme colour and the success toast.
  - `handleBoxSelect` and `handleSubmit` become the methods `HandleBoxSelect` and `HandleSubmit`. Each handler runs as one atomic step.
  - Network outcomes are method parameters: whether the submission succeeded, the reloaded box list and the refreshed credit balance.
  - The pure parts are functions: box style and icon classification, the clickable and submit-enabled predicates, the progress messages and the ascending-id display order.
- **Session** (`Session`, `session.dfy`). This models the authentication context.
  - The class `Session.AuthState` holds `user`, the user `token`, `adminToken`, `isAdmin`, `error`, and browser storage as a `map<string, string>`.
  - The operations are `Login`, `AdminLogin`, `Logout` and `RefreshUserData`.
  - The login server's reply is the datatype `LoginReply = Accepted(token, admin) | Rejected(message) | Unreachable`.
  - The JWT decoder, the user-record fetch and the JSON encoding of the cached record are function parameters.
- **Admin route guard** (`AdminRoute`, `admin_route.dfy`). This models the three-way redirect decision and shows how it answers the states the session reaches.
- `Text` (`text.dfy`) renders integers in decimal, as the template literals in the messages do for integral values below 10^21. `Wrappers` (`wrappers.dfy`) holds `Option` and a storage-style map lookup.

Invariants the classes keep:
- `Controller.Valid()`: the selection has no duplicates and never holds more than `credits` boxes.
- `AuthState.MirrorsStorage()`: the token and role slots always equal what storage holds.
- `AuthState.SlotsExclusive()`: at most one token slot is filled. Every successful `Login`, `AdminLogin` and `Logout` establishes it.

## Behaviour worth knowing

- With `credits == 0` and an empty selection the submit button is enabled. Once a user record with 0 credits is loaded, pressing it sends the request.
- Selecting a box and deselecting it again restores the selection. It does not always restore the message. The message after a removal is always plural, so "Please select 1 more box" comes back as "Please select 1 more boxes".
- The success toast reports the credit balance read before submitting, minus the required count. That is always 0.

## Model

| member | source | states |
|---|---|---|
| `Selection.Without` | src/components/Home.jsx:68 | The filter drops every occurrence of the id and keeps all other ids. It never grows the list. It keeps a duplicate-free list duplicate-free and then shortens it by exactly one. Its multiset is the input's with the id's count set to 0, so every other id keeps its multiplicity. |
| `Selection.WithoutConcat` | src/components/Home.jsx:68 | The filter works element by element: filtering a concatenation gives the filtered parts, concatenated in the same order. |
| `Selection.WithoutSplit` | src/components/Home.jsx:68 | Filtering out an id that occurs once, between `a` and `b`, gives exactly `a + b`: the ids before and after it keep their order. |
| `Selection.WithoutAppended` | src/components/Home.jsx:68-76 | Filtering out an id that was just appended to a list not containing it gives back that list exactly. |
| `Selection.Toggled` | src/components/Home.jsx:65-76 | After a click, the box is in the selection iff it was not selected before and fewer than `credits` boxes were selected. No other id changes membership. Duplicates are never introduced. `|selection| <= credits` is preserved. A full quota plus an unselected box means no change. An accepted new box goes last, after the earlier picks in click order. A removal drops exactly that id, with every other id keeping its multiplicity. |
| `Selection.ToggledRemovesAt` | src/components/Home.jsx:67-68 | On a selection without duplicates, clicking the box at position i gives the selection with exactly position i removed, and the other picks keep their click order. |
| `Selection.ToggleMessage` | src/components/Home.jsx:70-89 | On a duplicate-free selection, a removal reports `credits` minus the new selection size, always plural. An append reports the same count ("box" only for exactly 1), or "All boxes selected! You can now submit." when the quota is met. A click that changes nothing keeps the old message. |
| `Selection.ToggleTwiceRestores` | src/components/Home.jsx:67-89 | Appending an unselected box and clicking it again restores the original selection. The message is then the plural "Please select N more boxes" with N = `credits - |selection|`. |
| `Selection.BoxClickable` | src/components/Home.jsx:267-271 | A box button is enabled iff the box is not taken and either the quota is not full or the box is already selected. |
| `Selection.SubmitEnabled` | src/components/Home.jsx:348-350 | The submit button is enabled iff the selection size equals `credits` and nothing is loading. |
| `Selection.DisplayedMessage` | src/components/Home.jsx:236-241 | The progress card is never blank. It shows the stored message when there is one, and otherwise "Select N more boxes" with N the picks still missing. |
| `Selection.ClickableIffEffective` | src/components/Home.jsx:267-271 | A box that is not taken is enabled iff clicking it changes the selection. It must be selected already, or the quota must not be full. |
| `Selection.BoxLook` | src/components/Home.jsx:148-177 | Style priority: taken means locked; otherwise selected means highlighted; otherwise the theme `green`/`black`/`green-black`; otherwise the default. Each outcome is stated as an iff. |
| `Selection.BoxIcon` | src/components/Home.jsx:290-294 | The icon is a lock iff the box is taken, a sparkle iff it is free and selected, and a gift iff it is free and unselected. |
| `Selection.IconFollowsLook` | src/components/Home.jsx:290-294 | The icon follows the same priority: lock iff locked, sparkle iff highlighted, gift iff themed or default. |
| `Selection.InsertById` | src/components/Home.jsx:253-254 | Inserting a box into an id-sorted list keeps it sorted and adds exactly that box. |
| `Selection.SortById` | src/components/Home.jsx:253-254 | The grid order is sorted by ascending id and is a permutation of the fetched boxes. |
| `Selection.Controller.constructor` | src/components/Home.jsx:16-30 | On mount nothing is selected, the message is empty, there is no error, nothing is loading and the colour is "green". |
| `Selection.Controller.SubmitButtonEnabled` | src/components/Home.jsx:348-350 | The button of the live state is enabled iff the selection size equals `credits` and nothing is loading. It is therefore never enabled on an empty selection unless `credits` is 0. |
| `Selection.Controller.Clickable` | src/components/Home.jsx:267-271 | A taken box is never clickable. A free box is clickable iff a click on it would change the current selection. |
| `Selection.Controller.HandleBoxSelect` | src/components/Home.jsx:58-107 | Keeps `Valid()`. The new selection and message are `Toggled` and `ToggleMessage` of the old state. The selection changes iff the box was clickable. Only selection and message are written. |
| `Selection.Controller.LoadBoxes` | src/components/Home.jsx:48-56 | A fetched list replaces the boxes. A failed fetch keeps them and sets "Failed to load mystery boxes". |
| `Selection.Controller.HandleSubmit` | src/components/Home.jsx:109-146 | The selection is handed to the submission request iff its size equals `credits`, and `sent` is exactly that selection. An enabled button always gets it sent. A refused submit sets "Please select exactly N boxes before submitting" and changes nothing else. On success the selection and message are cleared, credits come from the refresh, the toast lists the old selection with remaining credits 0, and the empty-message prompt reads "Select N more boxes" for the new credits. On failure the selection is kept and the error is "Failed to submit selection". `Valid()` is kept. |
| `Text.NatToString` | src/components/Home.jsx:71-73 | The rendering is a non-empty digit string. It has a leading zero only for 0. |
| `Text.NatToStringRoundTrip` | src/components/Home.jsx:83-85 | Reading back the digits rendered for n gives n. |
| `Text.IntToStringInjective` | src/components/Home.jsx:113-114 | Distinct counts are rendered as distinct strings, so every message names its count unambiguously. |
| `Session.StoredIsAdmin` | src/context/AuthContext.jsx:24-26 | The restored role flag is true iff storage holds exactly the string "true" under `isAdmin`. |
| `Session.LogoutStorage` | src/context/AuthContext.jsx:122-125 | Logout removes the keys `userToken`, `adminToken`, `user` and `isAdmin`. Every other entry is kept. |
| `Session.LogoutStorageIdempotent` | src/context/AuthContext.jsx:121-132 | Clearing storage a second time changes nothing. |
| `Session.AuthState.constructor` | src/context/AuthContext.jsx:17-26 | The token slots are read from storage. `isAdmin` is true iff the stored value is "true". No user or error is set. Memory mirrors storage. |
| `Session.AuthState.ExposedToken` | src/context/AuthContext.jsx:136 | The exposed `token` is the admin slot when `isAdmin`, else the user slot. While memory mirrors storage, it is the stored token under the key that the stored role flag selects. |
| `Session.AuthState.IsAuthenticated` | src/context/AuthContext.jsx:141 | `isAuthenticated` is the truthiness of the exposed token: present and non-empty. |
| `Session.AuthState.Login` | src/context/AuthContext.jsx:48-83 | Success stores `userToken`, removes `adminToken` and `isAdmin`, sets the token, nulls the admin token, clears the role and the error, returns true, and leaves the slots exclusive. The exposed token is then the new one. A rejection sets the server's message and an unreachable server sets "Failed to connect to the server"; both return false and leave the slots, the role and storage unchanged. |
| `Session.AuthState.AdminLogin` | src/context/AuthContext.jsx:85-119 | Success stores `adminToken` and `isAdmin="true"`, removes `userToken`, sets the admin token, nulls the user token, takes the reply's admin record as user, sets the role, clears the error, returns true, and leaves the slots exclusive. Failures behave as for `Login`, and the user record is kept too. |
| `Session.AuthState.Logout` | src/context/AuthContext.jsx:121-132 | The user, both tokens and the error are nulled, the role is cleared and the four keys are removed. Afterwards nobody is authenticated and the slots are exclusive. |
| `Session.AuthState.RefreshUserData` | src/context/AuthContext.jsx:29-40 | Nothing happens without a truthy user token or in the admin role. Otherwise the id decoded from the token is fetched, 0 included. A reply with a record caches it in `user` and under `user` in storage. A successful reply without a record clears `user` and stores "undefined". A failed decode, a missing or falsy id claim, an unparsable id or a failed request leaves everything unchanged. The storage mirror is kept. |
| `Session.LogoutTwice` | src/context/AuthContext.jsx:121-132 | Logging out twice leaves the same state as logging out once. |
| `AdminRoute.Guard` | src/components/AdminProtectedRoute.jsx:7-15 | Not authenticated goes to `/admin/login` whatever the role. Authenticated non-admins go to `/`. Authenticated admins render the children. Exactly one outcome holds for every input, and only rendering has no redirect path. |
| `AdminRoute.OnlyAdminSessionsRender` | src/components/AdminProtectedRoute.jsx:5-15 | For any session state, the guard renders iff the role is admin and the admin token is non-empty. A non-admin session never renders. |
| `AdminRoute.GuardAcrossSession` | src/components/AdminProtectedRoute.jsx:7-15 | Logout, then admin login, then user login meets the three decisions in turn: login page, render, home. The final slots hold only the user token. |

## Left out

- Particle effects, toast and particle timers, and the progress-bar percentage (Home.jsx lines 91-105, 140 and 230) are left out. They are animation, timing and floating-point display only.
- The exact Tailwind class strings and the label text colours (Home.jsx lines 150-175 and 298-306) are left out. The model keeps only which style class a box receives.
- The initial load effect (Home.jsx lines 32-46) is not modelled. It fetches the boxes and the colour concurrently, and when both fail, which error shows last depends on timing.
- Selection.Controller.HandleSubmit: the user id sent with the box ids is not modelled. A missing user record makes the request throw, which the `submitOk = false` outcome covers.
- Selection.Controller.HandleSubmit: `isLoading` cannot block a second submission. Each handler is one atomic step, and the interleaving of two concurrent submissions is out of scope.
- Selection.Controller: `credits` stands for `user?.credits || 0`. A missing user record reads as 0 credits.
- Credit balances, selection sizes and box ids are unbounded integers. JavaScript Numbers are IEEE doubles, so the model assumes they stay below 2^53. Below that bound the comparisons and subtractions in the handlers are exact. The model also assumes the counts stay below 10^21, below which `${n}` renders plain decimal digits; from 10^21 on JavaScript uses exponent form (`1e+21`), which `Text` does not model.
- Session.AuthState.Login: the `refreshUserData` call inside login (AuthContext.jsx line 76) is not modelled. That call still sees the token from before the login. The record is reloaded by a separate `RefreshUserData`, as the token-change effect at lines 42-46 does.
- The token-change effect (AuthContext.jsx lines 42-46) is not modelled as a trigger. It only calls `RefreshUserData`.
- JWT decoding, the user-record request and `JSON.stringify` are function parameters. They are foreign code and I/O.
- A login reply whose `token` or `admin` field is missing on a 2xx response is not modelled, except as a `None` admin record.
- `useAuth` throwing outside a provider (AuthContext.jsx lines 7-15) is left out. It is React wiring.
- The service modules (`adminService.js`, `boxService.js`, `userService.js`) are not part of this model. Their outcomes enter as `Option` parameters.
- The admin dashboard, the login pages, the navigation bar, the router and the styling configuration are not part of this model. They are view markup and request orchestration.
- Stability of the display sort for equal ids is not stated. The insertion keeps equal ids in input order, as JavaScript's stable sort does, but no lemma proves it.
