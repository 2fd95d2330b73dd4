# skillNotes core, modelled in Dafny

skillNotes is a small Express + MongoDB note-taking service (`index.js`).
Users sign up and log in with a user name and a password. A session token kept
in a `sessionId` cookie identifies them. They write Markdown notes, archive and
delete them, and page through their notes 20 at a time, filtered by age.

This project models the parts of `index.js` that carry the logic:

- **Pagination** (`paging.dfy`): the `chunk` helper and the `{data, hasMore}`
  envelope of `GET /api/notes`, with `LIMITARRAY = 20`.
- **Listing** (`listing.dfy`): how the `age` selector picks the archive flag
  and the month count, and what `findNotesByUserId` does. It keeps the caller's
  notes with the exact archive flag and `created` strictly after the bound,
  and sorts them newest first.
- **Store** (`database.dfy`): the `users`, `sessions` and `notes` collections
  as sequences in insertion order, held by the class `Db`. Each database helper
  of `index.js` is a method or function of `Db`. `findOne` returns the first
  match, `deleteOne` removes the first match and `deleteMany` removes every
  match (`seqs.dfy`).
- **Routes** (`routes.dfy`): the `auth()` middleware and the login, signup,
  logout and note handlers, with the transport removed. Each one takes the
  session cookie and the request fields, changes the store and returns what it
  answers with, or why it refused.

Collaborators the model cannot see are parameters:

- `hash` stands for PBKDF2.
- `render` stands for `marked` followed by DOMPurify.
- `startingMonth` stands for `getStartingMonth`'s date arithmetic.
- `now` is the clock.
- New `_id`s and `nanoid` tokens are fresh values the caller supplies; the
  requires clauses say they are not already in the store.

Behaviours of the code that a reader might not expect, kept as the code has
them:

- The listing keeps notes created strictly after the bound (`$gt`), not at or
  after it.
- With at most 20 listed notes, every page number returns the whole list with
  `hasMore` false. Only longer lists are cut into pages.
- With more than 20 notes, a page number of 0 or less gives no `data` but
  `hasMore` true.
- No note-scoped route compares the note's owner with the caller.
- Logout deletes the session only when the cookie resolves to an existing user.

## Model

| member | source | states |
|---|---|---|
| `Seqs.FindFirst` | index.js:46 | `findOne`: the index found is the first whose key matches; none is found iff no document has the key; with distinct keys it is the only match |
| `Seqs.RemoveFirst` | index.js:74-76 | `deleteOne`: when no document has the key the collection is unchanged; otherwise it loses exactly one document, the first one with the key, and every other document keeps its multiplicity |
| `Seqs.RemoveFirstDistinct` | index.js:101-103 | with distinct keys, `deleteOne` leaves exactly the documents with a different key, keeps keys distinct, and shrinks the collection by one iff the key was present |
| `Seqs.Filter` | index.js:93 | `find` / `deleteMany`: every document keeps its multiplicity if it satisfies the filter and disappears otherwise; membership iff it satisfies the filter |
| `Seqs.FilterDistinct` | index.js:105-107 | filtering a collection whose `_id`s are distinct keeps them distinct |
| `Paging.CeilDivBounds` | index.js:19 | `Math.ceil(n / k)` is the least `q` with `n <= q * k` |
| `Paging.CeilDivExceeds` | index.js:216 | there are more than `p` chunks iff some element lies beyond the first `p * k` |
| `Paging.ChunkShape` | index.js:18-27 | `chunk` gives no chunks exactly for an empty array, `ceil(n / k)` chunks in all, every chunk but the last of size `k`, the last of size 1..k |
| `Paging.ChunkPrefixFlatten` | index.js:21-26 | the first `m` chunks concatenate to the first `min(m * k, n)` elements |
| `Paging.ChunkFlatten` | index.js:18-27 | concatenating the chunks gives back exactly the array: nothing lost, duplicated or reordered |
| `Paging.Page` | index.js:198-221 | at most 20 listed notes: `data` is the whole list and `hasMore` false for every page; more: `data` is present iff `1 <= page` and `(page-1)*20 < n`, is then the notes at positions `(page-1)*20 .. min(page*20, n)`, and `hasMore` holds iff notes exist beyond `page*20` |
| `Paging.PagesReassemble` | index.js:213-219 | walking pages 1.. while `hasMore` holds: every page has data, only the last reports no more, and the pages concatenate to the listed notes |
| `Paging.PagesReassembleLong` | index.js:213-219 | with more than 20 notes, page `i+1` carries chunk `i`, `hasMore` is false only on the last page, and the pages concatenate to the list |
| `Paging.TwentyFiveNotes` | index.js:213-219 | 25 listed notes: page 1 has the first 20 with `hasMore`; page 2 the last 5 without; page 3 has no data |
| `Listing.MonthCount` | index.js:33 | the month count is the decimal value of the selector's first character |
| `Listing.ResolveAge` | index.js:199-209 | `archive` gives archived notes from the epoch; `1month` / `3months` give active notes 1 / 3 months back; any other selector gives active notes from the epoch |
| `Listing.InsertByCreated` | index.js:94 | inserting adds exactly one note: the multiset grows by that note and nothing else |
| `Listing.InsertKeepsOrder` | index.js:94 | inserting into a newest-first sequence keeps it newest first |
| `Listing.SortNewestFirst` | index.js:94 | `.sort({ created: -1 })` returns a permutation of its input in non-increasing `created` order |
| `Listing.FindNotesByUserId` | index.js:90-95 | the result holds exactly the notes of that owner with that archive flag and `created` strictly after the bound, each with its multiplicity, newest first |
| `Database.Patched` | index.js:97-99 | `$set` changes the fields it names and no others; `_id`, owner and creation time never change |
| `Database.WithoutArchivedOf` | index.js:105-107 | `deleteMany({userId, isArchived: true})` removes exactly that user's archived notes; every other note, including other users' archived notes, keeps its multiplicity; ids stay distinct |
| `Database.Db.FindUserByUsername` | index.js:46 | the user found has that name; no user is found iff no user has that name |
| `Database.Db.FindUserById` | index.js:60 | the user found has that id; none iff no user has it; with distinct ids it is the one user with that id |
| `Database.Db.FindUserBySessionId` | index.js:48-61 | a user is found iff a session with the token exists and points at an existing user (an unknown token or an orphaned session gives no user); the user found is the session's user |
| `Database.Db.NoteIndex` | index.js:82-84 | the position found holds a note with that id; none iff no note has it |
| `Database.Db.FindNote` | index.js:82-88 | the note found has that id; none iff no note has it; there is no ownership filter |
| `Database.Db.CreateUser` | index.js:38-44 | appends one user holding `hash(password)` under the fresh id, returns that id, and the user is then found by id; sessions and notes unchanged |
| `Database.Db.CreateSession` | index.js:63-72 | appends one session for the user and returns its token; resolving the token gives that user's record |
| `Database.Db.DeleteSession` | index.js:74-76 | removes the session with that token and no other; an absent token changes nothing; afterwards the token resolves to no user |
| `Database.Db.InsertNote` | index.js:78-80 | appends the note under its fresh id; it is then found by that id |
| `Database.Db.UpdateNote` | index.js:97-99 | modified count 1 iff a note has the id; that note, and only it, is replaced by its patched form; otherwise nothing changes |
| `Database.Db.DeleteNote` | index.js:101-103 | removes the note with that id and no other; afterwards no note has that id |
| `Database.Db.DeleteNoteAll` | index.js:105-107 | the notes become exactly those that survive `deleteMany({userId, isArchived: true})` |
| `Routes.Auth` | index.js:129-137 | no cookie or an empty one is anonymous; otherwise a user is found iff the token's session points at an existing user, and that user is the session's |
| `Routes.Login` | index.js:159-172 | an unknown name is rejected before the password is checked; a session is created, and resolves to the user, iff the stored hash equals `hash(password)`; a rejection writes nothing |
| `Routes.Signup` | index.js:174-183 | a taken name is rejected with nothing written; otherwise exactly one user (with `hash(password)`) and one session for it are added, and the session resolves to that user; unique user names stay unique |
| `Routes.Logout` | index.js:185-191 | an anonymous cookie changes nothing; otherwise its session is deleted; either way the cookie is anonymous afterwards |
| `Routes.ListNotes` | index.js:193-222 | anonymous callers get Unauthorized; otherwise the envelope is `Page` of the caller's notes listed with the archive flag and bound that `ResolveAge` gives for the selector |
| `Routes.GetNote` | index.js:224-232 | anonymous callers get Unauthorized; otherwise a note is returned iff one has the id, whoever owns it |
| `Routes.PostNote` | index.js:234-257 | an authenticated caller's note is appended with the caller as owner, `isArchived` false, `html = render(text)` and `created = now`, and is found under the returned id |
| `Routes.EditNote` | index.js:259-282 | an unknown id is NotFound with nothing changed; otherwise title, text and `html = render(text)` are set together on that note alone, whoever owns it |
| `Routes.ArchiveNote` | index.js:284-305 | an unknown id is NotFound with nothing changed; otherwise only that note's `isArchived` changes, whoever owns it |
| `Routes.DeleteNoteById` | index.js:307-320 | removes the note with that id, whoever owns it, and answers with the id; afterwards no note has it |
| `Routes.DeleteArchivedNotes` | index.js:322-333 | removes exactly the caller's archived notes |

## Left out

- HTTP and UI wiring is not modelled: routing, body and cookie parsing, setting and clearing cookies, redirects versus status codes, nunjucks rendering and the `/` and `/dashboard` pages (index.js:109-157). Each handler returns a `Result` in their place.
- The MongoDB client and its connection pool are not modelled (index.js:14, 119-127). Storage errors and the `catch` branches that report them (index.js:253-256, 279-281, 302-304, 317-319, 330-332) are left out too; the store never fails in the model.
- `hash` is PBKDF2 with a fixed salt (index.js:29). It is a foreign crypto call, so it is an uninterpreted function parameter. Nothing is claimed about collisions.
- `render` is `marked` followed by DOMPurify (index.js:245, 268). These are foreign libraries, so `render` is an uninterpreted function parameter.
- `nanoid` tokens and store-generated `_id`s (index.js:64, 40, 248) are randomness. They are fresh values supplied by the caller.
- The date arithmetic of `getStartingMonth` (index.js:32, 34-35) is left out. It depends on the wall clock, the time zone and JavaScript date normalisation. `startingMonth` stands for it; only the month count taken from the selector is modelled.
- `ObjectId` parsing failures (index.js:230, 272, 295, 315) and the coercion of the `page` query string (`Number(...)`, NaN, fractions) are not modelled. Ids and pages are typed integers.
- The request body is taken to be well formed: `title` and `text` are strings and `isArchived` is a boolean.
- `deleteNoteAll` runs fire-and-forget (index.js:328). The model completes the deletion before the handler answers; concurrency and interleaving are out of scope.
- Database.Db.UpdateNote: reports a modified count of 1 whenever the id matches. MongoDB reports 0 when `$set` leaves the document unchanged; that driver detail is not modelled.
- Listing.SortNewestFirst: keeps notes with equal `created` in insertion order. MongoDB's sort does not promise any order among ties, so the model fixes one of the allowed orders.
- `chunk` with a chunk size of 0 throws a RangeError in JavaScript; `Paging.Chunk` requires a positive size, and the only caller passes 20.
- Database.Db.constructor: models no source lines. The application attaches to an existing database (index.js:119-123), which is not modelled; the constructor only builds an empty store and shows that the distinct-id invariant can hold.
