# OneTapLink — a Dafny model of the group directory core

OneTapLink is a directory of WhatsApp groups. Anyone can browse the groups. An
administrator logs in to create, edit, delete and switch groups between AKTIF
and NONAKTIF. This project models four parts of it and proves properties about
each.

- **Server handlers** (`server/src/api.ts`). These are modelled in three modules:
  - `Auth` holds the login ladder and the bearer-token check (`authMiddleware`).
  - `GroupStore` holds the group table as a class. It has `rows`, the id
    sequence `nextId` and a creation clock `clock`. Its methods are
    `Create`, `Update`, `Delete` and `ChangeStatus`, and the listing is the
    function `Listing`.
  - `LinkResolver` holds the invite-page title lookup.

  The database, bcrypt, JWT, `fetch` and cheerio are outside the model. They
  enter as parameters: the user map, `passwordMatches`, `sign`, `verify`,
  `fetch` and the store's substring match `contains`.
- **Route table** (`server/src/routes.ts`). This is modelled in `Routes`.
  - `RouteTable` lists the seven registrations in order.
  - `Lookup` returns the first match.
  - `Dispatch` runs the middleware chain and then the handler against a
    `GroupTable`.
- **Public list page** (`client/components/GroupList.tsx`). This is modelled
  in `GroupList`. It covers the category tabs in order of first appearance,
  the rows shown under a tab (AKTIF only), and the count on each tab.
- **Admin page** (`client/app/admin/page.tsx`). This is modelled in
  `AdminPage`.
  - `fetchGroups` sorts the fetched array in place by name. It is modelled
    as the method `FetchGroups` over an `array`.
  - The category tabs are sorted by the default string order.
  - Under a category, the rows shown are re-sorted, and status is not
    filtered.
  - The header tallies and the tab counts are modelled too.

`Seqs` holds the JavaScript array operations these files use:
- `filter`;
- `Array.from(new Set(..))`;
- the stable `sort`, given as the function `Sort`. `SortInPlace` is proved to
  leave exactly `Sort` of the old contents in the array.

`localeCompare` is a parameter `cmp`. Sortedness is proved under the sole
assumption that `cmp` is a total preorder.

Behaviour of the code that the model keeps as written:
- **Invalid `status` filter on `GET /groups`.** `api.ts:58` passes any truthy
  `status` query to the store as a `GroupStatus`; the store rejects a value
  outside the enumeration, and `api.ts:67-70` answers 500. The model answers
  500 (`GroupTable.Listing`).
- **Error pages in `resolveWaLink`.** `api.ts:145-146` reads the body whatever
  the response status, so an error page still yields a title
  (`LinkResolver.ResolveWaLink`).
- **`GET /groups` without a token.** The comment at `routes.ts:18` says the
  group routes need a login, and `server/tests/api.test.ts:115-119` expects
  401. `routes.ts:19` registers the route without `authMiddleware`, and the
  public page `GroupList.tsx:25` fetches it without a token. The model answers
  200 (`Routes.ListWithoutToken`).

## Model

| member | source | states |
|---|---|---|
| ApiTypes.ParseStatus | server/src/api.ts:126-127 | a field names a status exactly when it is the string "AKTIF" or "NONAKTIF" |
| ApiTypes.StatusRoundTrip | server/src/api.ts:126 | the wire name of each status reads back as that status |
| ApiTypes.Truthy | server/src/api.ts:15-16 | JavaScript truthiness of a request field: present and not the empty string; no contract of its own, the Login, Create, Update and ResolveWaLink contracts state its effect |
| Auth.Login | server/src/api.ts:12-34 | 400 exactly when username or password is falsy; 401 "User tidak ditemukan" exactly when both are given and the user is unknown; 401 "Password salah" exactly when the password does not match; 200 exactly otherwise, with the token signed for that user |
| Auth.Split | server/src/api.ts:42 | `split(" ")` yields at least one piece |
| Auth.SpaceIndexFirst | server/src/api.ts:42 | the space where a header is cut is its first: no space comes before it |
| Auth.SplitPiecesSpaceFree | server/src/api.ts:42 | no piece of `split(" ")` contains a space |
| Auth.JoinSplit | server/src/api.ts:42 | joining the pieces of `split(" ")` with single spaces gives back the header |
| Auth.SplitJoin | server/src/api.ts:42 | splitting a space-joined list of space-free words gives back the words |
| Auth.TokenOf | server/src/api.ts:42 | `split(" ")[1]`: the second piece when there is one; no contract of its own, AuthMiddleware, SchemeIgnored, BearerHeader and OneWordHeaderRejected state its meaning |
| Auth.AuthMiddleware | server/src/api.ts:37-48 | 401 "Unauthorized" exactly when the header is missing or empty; 401 "Invalid token" exactly when there is a header but no second word or it does not verify; the handler runs exactly otherwise |
| Auth.SchemeIgnored | server/src/api.ts:42-43 | the word before the token is never examined: two headers differing only in it get the same decision |
| Auth.BearerHeader | server/src/api.ts:42-44 | `Bearer <token>` passes exactly when the token verifies |
| Auth.OneWordHeaderRejected | server/src/api.ts:42-46 | a non-empty header with no space is rejected with "Invalid token" |
| Auth.LoginTokenPasses | server/src/api.ts:24-44 | a token from a successful login, sent back as `Bearer <token>`, passes the check when the signer's tokens verify and contain no space |
| LinkResolver.Title | server/src/api.ts:149-152 | the title is the og:title when non-empty, else the `<title>` text when non-empty, else "Unknown Group"; it is never empty |
| LinkResolver.ResolveWaLink | server/src/api.ts:140-159 | 400 "URL wajib diisi" exactly when the url is falsy; 500 "Gagal mengambil data link WA" exactly when fetching or parsing fails; 200 exactly otherwise, with the title of the fetched page by the og:title, `<title>`, "Unknown Group" precedence |
| LinkResolver.EmptyOgTitleIsMissing | server/src/api.ts:150 | an empty og:title falls through as if absent |
| GroupStore.ParseId | server/src/api.ts:100 | the path id names a row id exactly when it is a non-empty decimal numeral |
| GroupStore.Decimal | server/tests/api.test.ts:150 | the numeral a client writes into the path for an id is non-empty and all digits |
| GroupStore.ParseDecimal | server/src/api.ts:100 | the numeral of an id reads back as that id |
| GroupStore.IndexOfId | server/src/api.ts:114 | the position found holds the id; no position is found only when no row has it |
| GroupStore.GroupTable.Locate | server/src/api.ts:99-102 | the row the path id selects has that id; none is selected only when no row's id is the id read |
| GroupStore.WhereOf | server/src/api.ts:55-59 | a truthy search or jenis becomes exactly that constraint and a truthy status the status it names; a falsy field adds no constraint; the filter is unusable exactly when the status is truthy but not a status |
| GroupStore.Satisfies | server/src/api.ts:55-59 | a row meets every constraint given: the substring match on nama, equal jenis, equal status; no contract of its own, NewestFirstSpec and Listing state its use |
| GroupStore.NewestFirst | server/src/api.ts:61-64 | the rows meeting the filter, newest first; no contract of its own, NewestFirstSpec states its meaning |
| GroupStore.NewestFirstSpec | server/src/api.ts:61-64 | the listing holds exactly the rows meeting the filter, with strictly decreasing `createdAt` |
| GroupStore.GroupTable.Listing | server/src/api.ts:51-71 | 500 exactly when the status filter is truthy and invalid; otherwise 200 with exactly the rows meeting every truthy filter, newest first |
| GroupStore.GroupTable.Create | server/src/api.ts:73-84 | 400 with the table unchanged when nama, link or jenis is falsy; otherwise 201 with a new row with a fresh id, the default status and the current stamp, appended to the table |
| GroupStore.GroupTable.Update | server/src/api.ts:86-108 | 500 with the table unchanged when no row has the id; otherwise 200 and only that row changes, taking the truthy fields and a valid status |
| GroupStore.PatchOf | server/src/api.ts:91-97 | the fields an update writes: each truthy one, and status only when valid; no contract of its own, UpdateWritesOnlyTruthy and InvalidStatusDropped state its meaning |
| GroupStore.Merge | server/src/api.ts:99-102 | the row after the store writes a patch: written fields replaced, the rest kept; no contract of its own, UpdateWritesOnlyTruthy, EmptyUpdateIsIdentity and UpdateIdempotent state its meaning |
| GroupStore.GroupTable.Delete | server/src/api.ts:111-119 | 500 with the table unchanged when no row has the id; otherwise 204 and exactly that row is removed; afterwards no row has the id |
| GroupStore.RemoveRow | server/src/api.ts:114 | removing a row keeps ids and stamps increasing and leaves no other row with its id |
| GroupStore.GroupTable.ChangeStatus | server/src/api.ts:121-138 | 400 for an invalid status before the id is looked at; 500 for an unknown id; otherwise 200 and only that row's status changes |
| GroupStore.UpdateWritesOnlyTruthy | server/src/api.ts:91-97 | a field takes its incoming value when that is truthy (a valid status for `status`) and keeps its old value otherwise; id and stamp never change |
| GroupStore.InvalidStatusDropped | server/src/api.ts:95-97 | an invalid status is ignored while the other fields of the body are still written |
| GroupStore.EmptyUpdateIsIdentity | server/src/api.ts:91-102 | an update with nothing truthy leaves the row as it was |
| GroupStore.UpdateIdempotent | server/src/api.ts:99-102 | applying the same update twice equals applying it once |
| GroupStore.StatusOnlyUpdateIsStatusChange | server/src/api.ts:121-132 | an update carrying only a valid status has the effect of changeGroupStatus |
| GroupStore.DeleteTwice | server/tests/api.test.ts:168-182 | the first delete succeeds exactly when the id exists; the second always answers 500 |
| GroupStore.Lifecycle | server/tests/api.test.ts:62-182 | create gives 201 with the default status; setting NONAKTIF gives 200 on the same id; the listing contains the changed row; delete gives 204; deleting again gives 500 |
| Routes.FindRoute | server/src/routes.ts:16-25 | the index found has the verb and a matching pattern and no registration between the start and it matches; none is found only when none from the start on matches |
| Routes.RouteTable | server/src/routes.ts:16-25 | the seven registrations in order, with verb, pattern, middleware and handler; no contract of its own, GuardedExactlyWhenMutating, MutatingRoutesGuarded and PublicRoutes state its content |
| Routes.Matches | server/src/routes.ts:16-25 | a pattern matches a path of as many segments, literals exactly and parameters any non-empty segment; no contract of its own, MutatingRoutesGuarded and PublicRoutes state it on the registered paths |
| Routes.ParamValue | server/src/routes.ts:21-23 | the path segment under the `:id` parameter; no contract of its own, the Dispatch and RunHandler contracts pass it to the store as the id |
| Routes.Lookup | server/src/routes.ts:16-25 | the route reached is a registered one with the request's verb and a pattern matching the path; none is reached exactly when no registration matches |
| Routes.LookupIsFirstMatch | server/src/routes.ts:16-25 | when a registration matches, the request reaches one no later than it, and no registration before the one reached matches |
| Routes.GuardedExactlyWhenMutating | server/src/routes.ts:19-23 | a route sits behind authMiddleware exactly when its handler changes the group table |
| Routes.MutatingRoutesGuarded | server/src/routes.ts:20-23 | POST /groups, PUT and DELETE /groups/:id and PATCH /groups/:id/status reach their guarded registrations |
| Routes.PublicRoutes | server/src/routes.ts:16-25 | /user/login, GET /groups and /resolve-wa-link reach registrations with no middleware |
| Routes.Dispatch | server/src/routes.ts:16-25 | an unregistered route gives 404 and changes nothing; a guarded route whose token check fails answers with that check's 401 and changes nothing; read-only handlers change nothing; once the token check passes, create, update, delete and status change answer and change the table as the store's handlers do on the body and the `:id` segment; login, listing and link resolution answer what their handlers answer; 201 or 204 only happen behind a passed token check |
| Routes.RunHandler | server/src/routes.ts:16-25 | the handler a registration names runs on the request's body, query and `:id` segment and answers and changes the table as that handler does; only create and delete answer 201 or 204, and only the four writing handlers change the table |
| Routes.CreateWithoutToken | server/tests/api.test.ts:74-81 | creating without an Authorization header gives 401 "Unauthorized" and writes nothing |
| Routes.ListWithoutToken | server/src/routes.ts:19 | listing without an Authorization header gives 200 with every row, and writes nothing |
| Seqs.Filter | client/components/GroupList.tsx:42-46 | the result is no longer than the input and holds only input elements that satisfy the predicate |
| Seqs.Sort | client/app/admin/page.tsx:36 | the stable sort, by insertion; its contract gives the length, and SortPermutes, SortSorted and SortOfSorted state its meaning |
| Seqs.FilterMembership | client/components/GroupList.tsx:42-46 | a value is in the filtered list exactly when it is in the list and satisfies the predicate |
| Seqs.FilterIsSubseq | client/components/GroupList.tsx:42-46 | filtering keeps the original order |
| Seqs.Distinct | client/components/GroupList.tsx:28 | `Array.from(new Set(s))` has no duplicates, holds only values of `s`, and holds every value of `s` |
| Seqs.DistinctFirstOccurrenceOrder | client/components/GroupList.tsx:28 | distinct values come in the order of their first occurrence |
| Seqs.SortPermutes | client/app/admin/page.tsx:36 | sorting is a permutation of its input |
| Seqs.SortSorted | client/app/admin/page.tsx:36 | under a total preorder, the sorted list is sorted |
| Seqs.SortOfSorted | client/app/admin/page.tsx:58 | sorting an already sorted list changes nothing, because the sort is stable |
| Seqs.FilterKeepsSorted | client/app/admin/page.tsx:58 | a filtered sorted list is sorted |
| Seqs.SortInPlace | client/app/admin/page.tsx:36 | the array afterwards holds exactly the stable sort of its old contents |
| ClientRows.JenisOf | client/components/GroupList.tsx:28 | `map((g) => g.jenis)` keeps length and position |
| ClientRows.JenisTabsCover | client/components/GroupList.tsx:28-29 | every row's category is among the distinct categories |
| ClientRows.JenisTabFromGroup | client/components/GroupList.tsx:28-29 | every distinct category belongs to some row |
| ClientRows.NoSemuaTab | client/components/GroupList.tsx:28-29 | with no row in a category called "Semua", no distinct category is "Semua" |
| GroupList.JenisTabs | client/components/GroupList.tsx:28-29 | "Semua" followed by the distinct categories; no contract of its own, JenisTabsSpec states its meaning |
| GroupList.FilteredGroups | client/components/GroupList.tsx:42-46 | the AKTIF rows of the active category; no contract of its own, FilteredGroupsSpec and FilteredKeepsOrder state its meaning |
| GroupList.CountByJenis | client/components/GroupList.tsx:48-51 | the number of AKTIF rows of a category, or of all under "Semua"; no contract of its own, CountIsShownLength and TabCountsAddUp state its meaning |
| GroupList.JenisTabsSpec | client/components/GroupList.tsx:28-29 | "Semua" comes first, then every category present, in order of first appearance; no tab repeats when no category is named "Semua" |
| GroupList.FilteredGroupsSpec | client/components/GroupList.tsx:42-46 | the rows shown are exactly the AKTIF rows of the active category, or of every category under "Semua" |
| GroupList.FilteredKeepsOrder | client/components/GroupList.tsx:42-46 | the rows shown keep the fetched order |
| GroupList.CountIsShownLength | client/components/GroupList.tsx:48-51 | the count on a tab is the number of rows shown when that tab is active |
| GroupList.TabCountsAddUp | client/components/GroupList.tsx:48-51 | with no category named "Semua", the category tabs' counts sum to the "Semua" count |
| AdminPage.ByNamaTotalPreorder | client/app/admin/page.tsx:36 | comparing rows by name is a total preorder when the string comparison is one |
| AdminPage.ByNama | client/app/admin/page.tsx:36 | compares rows by their names with the page's string comparison; no contract of its own, ByNamaTotalPreorder states its meaning |
| AdminPage.LexTotalPreorder | client/app/admin/page.tsx:39 | the default string order is reflexive, transitive and total |
| AdminPage.LexAntisymmetric | client/app/admin/page.tsx:39 | two strings each no greater than the other are equal |
| AdminPage.LexLe | client/app/admin/page.tsx:39 | the default string order, character by character with a prefix first; no contract of its own, LexTotalPreorder and LexAntisymmetric state its meaning |
| AdminPage.FetchGroups | client/app/admin/page.tsx:30-46 | the array ends up holding the stable sort by name of the fetched rows, a permutation of them, sorted when the comparison is a total preorder; the tabs are derived from the sorted rows |
| AdminPage.SortedJenisSameElements | client/app/admin/page.tsx:39 | sorting the distinct categories neither adds nor loses a category |
| AdminPage.SortedJenisStrict | client/app/admin/page.tsx:39 | the sorted categories are in the default order and have no duplicates |
| AdminPage.PermutationKeepsNoDup | client/app/admin/page.tsx:39 | a permutation of a duplicate-free list is duplicate-free |
| AdminPage.AdminJenisTabs | client/app/admin/page.tsx:39-40 | "Semua" followed by the distinct categories in default order; no contract of its own, AdminJenisTabsSpec states its meaning |
| AdminPage.AdminJenisTabsSpec | client/app/admin/page.tsx:39-40 | "Semua" comes first, then every category present, each once, in strictly increasing default string order |
| AdminPage.AdminFilteredSpec | client/app/admin/page.tsx:55-58 | on the sorted list, "Semua" shows every row; any other tab shows exactly that category's rows, of either status, in the list's order, still sorted |
| AdminPage.AdminFiltered | client/app/admin/page.tsx:55-58 | every row under "Semua", otherwise the category's rows re-sorted by name; no contract of its own, AdminFilteredSpec states its meaning |
| AdminPage.Tally | client/app/admin/page.tsx:90-98 | the number of rows with a given status; no contract of its own, TalliesBounded states its meaning |
| AdminPage.TalliesBounded | client/app/admin/page.tsx:86-97 | the AKTIF and NONAKTIF tallies add up to at most the total, and to exactly the total when every status is one of the two |
| AdminPage.TabCountIsShownLength | client/app/admin/page.tsx:134-136 | the count on a tab is the number of rows shown when that tab is active |
| AdminPage.TabCount | client/app/admin/page.tsx:134-136 | the total under "Semua", otherwise the number of rows of the category; no contract of its own, TabCountIsShownLength and AdminTabCountsAddUp state its meaning |
| AdminPage.AdminTabCountsAddUp | client/app/admin/page.tsx:134-136 | with no category named "Semua", the category tabs' counts sum to the "Semua" count, which is the total |

## Left out

- Persistence is not modelled. The store is an in-memory sequence in creation order. Prisma's query engine, its connection and its error objects are absent.
- Error texts are not modelled exactly. `RecordNotFound` and `InvalidStatusFilter` stand for the message of whatever the store throws; the exact text is the store's, not the application's.
- The creation stamp is a counter that ticks on every create. Two rows created in the same millisecond would tie under real `Date` stamps and list in the database's order; the model has no ties.
- The status of a new row comes from the database schema default, which is not part of this model. `GroupTable` takes it as the constructor parameter `defaultStatus`.
- Login and the token check do not model bcrypt, JWT signing and verification, the secret, token expiry or `req.user`. They enter as the parameters `passwordMatches`, `sign` and `verify`. `verify` is unconstrained, so the model admits a `verify` that accepts the empty token; `jwt.verify` rejects it, so the server answers "Invalid token" to `Bearer ` with nothing after the space.
- The 500 that login answers when the database or bcrypt throws is not modelled.
- Fetching and HTML parsing in `resolveWaLink` enter as the parameter `fetch`, which returns the parsed og:title and `<title>` or fails.
- The store's substring match for `search` enters as the parameter `contains`. Its case rules belong to the database collation. The store also compares `jenis` (`api.ts:57`) under that collation, so a case-insensitive one would match `?jenis=maba` against "MABA" rows; `Satisfies` compares `jenis` and `status` by exact string equality.
- Request fields are modelled as absent or a string. Non-string JSON values (numbers, arrays, objects) in a body or query are not modelled.
- GroupStore.ParseId: `Number(id)` is modelled only for decimal numerals without sign, fraction or exponent. Every other form it accepts selects no row here, for example hexadecimal, binary and octal prefixes (`0x`, `0b`, `0o`), an exponent, a zero fraction (`5.0`, `5.`), surrounding spaces or a leading `+`; so do ids beyond the database's integer range.
- Express routing is modelled as exact segment matching over the verbs GET, POST, PUT, DELETE and PATCH. Case-insensitive paths, trailing slashes, the `/api` mount, the JSON parser and the framework's 404 body are not modelled. Neither are HEAD, which Express answers through the GET registrations, nor OPTIONS, which the application-wide `cors()` answers with 204 without a token; the Routes.Dispatch statement that 201 and 204 happen only behind a passed token check is about the modelled verbs.
- The admin page's `localeCompare` is an abstract comparison. AdminPage.FetchGroups states sortedness only under the hypothesis that it is a total preorder.
- AdminPage.LexLe compares characters by Unicode code point. The default `sort()` compares UTF-16 code units, so the two order differently only a character outside the Basic Multilingual Plane against one from U+E000 to U+FFFF.
- The client's fetching, `localStorage` token handling, loading and error states, modals, alerts and rendering are not modelled. Only the values computed from the fetched rows are.
- Concurrent requests are not modelled. Each `Dispatch` runs to completion against the table.
