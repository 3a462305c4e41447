# User directory: state and persistence model

A Dafny model of the client-side state of a small single-page user directory
(`src/App.jsx`). The application keeps two ordered lists of user records in
memory: the directory of users, and the users the operator has liked. After
every change it overwrites a snapshot of the whole list in the browser's local
storage, under the key `users` or `likedUsers`. Each card has a Like/Unlike
toggle. A form builds a new record field by field and hands it to the
directory.

Files and modules:

- `wrappers.dfy` (`Wrappers`): `Option`, the result of reading a storage key that may be absent.
- `records.dfy` (`Records`): the `User` record, its field values, the seeded
  default record, the blank form and the single-field update the form performs.
- `filtering.dfy` (`Filtering`): the two list operations the handlers use.
  `WithoutEmail` is `filter(u => u.email !== email)` and `HasEmail` is
  `some(u => u.email === email)`. The lemmas give the properties the handlers rely on:
  order kept, contents kept, append distributes, and unchanged when the email is absent.
- `persistence.dfy` (`Persistence`): local storage as a class holding a
  `map<string, seq<User>>`, and the two keys. JSON serialisation is taken as the
  identity, so a snapshot is the record sequence itself. An absent key reads as `None`.
- `components.dfy` (`Components`): the stateful components as classes.
  - `LikedUsersProvider`: the liked list.
  - `App`: the directory.
  - `UserCard`: the per-card Liked/Unliked state.
  - `AddUserForm`: the form.

  Every handler is one atomic method. It replaces the in-memory list and then
  overwrites that list's stored snapshot. Its `ensures` give the whole new state
  in terms of the old state. `LocalStorage` is one shared object, passed to `App`
  and, through it, to the registry. `App.Valid()` states that both use the same
  storage.

Two results connect the components:

- The registry's `Mirrors()` says that its memory equals the stored liked
  snapshot, or is empty when nothing is stored. It is established at start-up,
  kept by every handler of both components, and untouched by directory changes.
- Under `Mirrors()`, a card's initial state, which is read from storage, equals
  what the registry's memory would give. After any press, `HandleLike` leaves
  the card's state equal to "the registry holds this email", whatever the state was before.

Behaviour of the code the model keeps:

- A stored snapshot that is not valid JSON makes the code throw. It is not
  read as an empty list. The model has no "malformed" stored value.
- The seeded default record is not written to storage at start-up. It reaches
  storage only with the next add or delete (`App.constructor` ensures the store is unchanged).
- Email is not enforced unique. `AddUser` and `AddLikedUser` append duplicates,
  and `DeleteUser` / `RemoveLikedUser` remove every record with the email.
- Deleting a user does not cascade to the liked list.

## Model

| member | source | states |
|---|---|---|
| `Records.SetField` | src/App.jsx:82-85 | the named field takes the input's text; every other input field and the image are unchanged |
| `Records.SameFields` | src/App.jsx:73-80 | a record is determined by its five input fields and its image, so SetField's contract fixes its result completely |
| `Records.SetFieldOverwrites` | src/App.jsx:82-85 | two changes to the same input keep only the last text |
| `Records.SetFieldCommutes` | src/App.jsx:82-85 | changes to two different inputs can be made in either order |
| `Filtering.HasEmail` | src/App.jsx:35 | true iff some record in the list has the email |
| `Filtering.WithoutEmail` | src/App.jsx:198 | a record is in the result iff it is in the input and has another email; the result is no longer than the input |
| `Filtering.WithoutEmailCounts` | src/App.jsx:198 | every record with another email occurs as often as in the input; records with the email occur zero times |
| `Filtering.WithoutEmailIsSubsequence` | src/App.jsx:198 | the result is a subsequence of the input, so the survivors keep their relative order |
| `Filtering.WithoutEmailAppend` | src/App.jsx:13-19 | filtering a list with one record appended equals filtering the list, then appending that record if its email differs |
| `Filtering.WithoutEmailUnchanged` | src/App.jsx:197-201 | filtering returns the list unchanged iff no record has the email |
| `Filtering.WithoutEmailIdempotent` | src/App.jsx:197-201 | deleting the same email twice gives the same list as deleting it once |
| `Filtering.CountEmailAppend` | src/App.jsx:191-195 | appending a record adds one to its email's count and nothing to other emails' counts |
| `Filtering.AppendThenRemoveRestores` | src/App.jsx:38-45 | appending a record whose email the list lacks, then filtering by that email, gives back the original list |
| `Filtering.RemoveThenAppendLeavesOne` | src/App.jsx:191-201 | deleting an email, then adding a record with that email, leaves exactly one record with it |
| `Persistence.ReadAfterWrite` | src/App.jsx:8-15 | after a write, reading the written key gives the written snapshot, and reading any other key gives what it gave before |
| `Persistence.LocalStorage.SetItem` | src/App.jsx:15 | writing a key replaces its snapshot; every other key keeps its snapshot |
| `Components.LikedUsersProvider.constructor` | src/App.jsx:7-10 | the liked list is the stored snapshot as it is, or empty when the key is absent; memory mirrors storage |
| `Components.LikedUsersProvider.AddLikedUser` | src/App.jsx:12-16 | the user is appended with no duplicate check (length grows by one); the stored liked snapshot equals the new list; other keys are unchanged |
| `Components.LikedUsersProvider.RemoveLikedUser` | src/App.jsx:18-22 | the new list is the old one without that email, in order; if the email was absent, the list is unchanged; the stored snapshot equals the new list |
| `Components.App.constructor` | src/App.jsx:177-189 | if `users` is absent, the directory is exactly the seeded record with email Xojiakbar422@gmail.com; if present, the stored list is used as it is, even when empty; if `likedUsers` is absent, the liked list is empty; nothing is written |
| `Components.App.AddUser` | src/App.jsx:191-195 | the user is appended; the stored `users` snapshot equals the new list; the liked list and its snapshot are unchanged; the registry still mirrors storage |
| `Components.App.DeleteUser` | src/App.jsx:197-201 | the new directory is the old one without that email, in order; if the email was absent, it is unchanged; the stored snapshot equals the new list; there is no cascade to the liked list or its snapshot |
| `Components.UserCard.constructor` | src/App.jsx:33-36 | isLiked iff the stored liked snapshot exists and contains the card's email; when the registry mirrors storage, this equals membership in the registry's memory |
| `Components.UserCard.HandleLike` | src/App.jsx:38-45 | if unliked, the card's record is appended; if liked, its email is removed; then the state flips; afterwards isLiked equals "the registry holds this email"; the stored liked snapshot equals the new list, so the registry mirrors storage |
| `Components.UserCard.HandleDelete` | src/App.jsx:62 | the directory loses every record with the card's email; the liked list is unchanged |
| `Components.LikeThenUnlike` | src/App.jsx:38-45 | pressing Like and then Unlike on an email not in the liked list restores the list exactly; the stored liked snapshot equals the restored list (written even if it was absent); every other key and the directory are unchanged |
| `Components.AddUserForm.constructor` | src/App.jsx:73-80 | the form starts as the blank template with the placeholder image |
| `Components.AddUserForm.HandleInputChange` | src/App.jsx:82-85 | only the named field changes, to the input's text; the other fields and the image are unchanged |
| `Components.AddUserForm.HandleSubmit` | src/App.jsx:95-106 | the form's record is appended to the directory and saved; then the form equals the blank template |

## Left out

- Rendering and styling (src/App.jsx:47-69, 108-173, 203-216, 219-233),
  except the form's input validation, which is listed below.
  The directory and liked list are displayed in list order; this is not modelled.
- Image upload (src/App.jsx:87-93): the file picker and `URL.createObjectURL`
  are browser calls. `image` is an opaque string that only the placeholder and
  the blank form set.
- Storage writes are assumed to succeed. In the code, `localStorage.setItem`
  can throw, for example when the quota is exceeded. Each handler updates memory
  (`setUsers`/`setLikedUsers`) before it writes storage (src/App.jsx:14-15,
  20-21, 193-194, 199-200), so a failed write would leave memory changed and
  storage stale. In a press of Like it would also skip the flip of the card's
  state (line 44).
- Components.AddUserForm.HandleSubmit: does not model the browser's form
  validation. The five inputs are `required`, and the email and age inputs are
  typed (src/App.jsx:113-158). The browser therefore never submits a form with a
  missing field or a malformed email. The model accepts any form contents,
  including the blank form.
- JSON text: `JSON.stringify`/`JSON.parse` are taken as the identity. An
  unparsable snapshot, which makes the code throw, is not modelled. A stored
  empty string, which is falsy and would act like an absent key, is not
  modelled either, because the application never writes one.
- React scheduling: `useState` batching, closures that capture stale lists,
  and re-render or `key` behaviour. Each handler is one atomic step on the current state.
- Components.AddUserForm.HandleInputChange: accepts only the five field names
  the form renders. A computed key outside them would add a new property in
  JavaScript; no input produces one.
- The numeric versus text type of `age` is kept as a two-case value. No
  conversion between them is modelled.
- Mounting and unmounting cards: a card is created for a record with an
  `App`. Removing its record does not remove the card object in the model.
