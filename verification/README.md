# Bookmark backend: owner-scoped bookmark store and auth decisions, in Dafny

This project models the decision logic of a small bookmark-management
backend. Its persistence layer, password hashing, token signing and object
store are treated as abstract collaborators. Two services remain, and both
are modelled as pure functions:

- **The bookmark service.** `list`, `create`, `update` and `delete` run over
  the bookmark table, and every one is scoped to the authenticated caller's
  user id. The table is a sequence of rows (`Bookmarks.Store`) in storage
  order. Each operation returns a `Step`: what the call returns or throws,
  plus the table afterwards.
- **The auth service.** `signup` stores a user under `hash(password)`.
  `login` finds the user by email, checks the password with
  `verify(hash, password)`, removes the hash from the row it answers and adds
  a token. `signToken` signs `{sub: id, email}` with a 60-minute lifetime and
  the configured secret.

The request shapes of the bookmark routes (`BookmarkDto`,
`BookmarkEditDto`) are modelled together with the global validation pipe
(`Dto.ValidateCreate`, `Dto.ValidateEdit`). The pipe checks each property
with its decorators. It also whitelists properties and forbids all others,
so a request naming any undeclared property, such as `userId`, is rejected.

Collaborators become parameters:

- `fault: Option<StorageError>` is the storage client's failure for this
  call. `None` means the store answers.
- A store-generated id and timestamp are passed in as `newId` and `now`.
- `sign: string -> Option<string>` is the object store's signed-URL call.
  `None` means the call rejected.
- `hash`, `verify` and the JWT `sign` are plain functions.
- The UUID check is a predicate parameter `isUuid`.

Files:

- `common.dfy`: option, result, storage errors, and `FirstIndex` (the
  `findFirst` lookup).
- `dto.dfy`: payload datatypes, validity predicates and the validation pipe.
- `bookmarks.dfy`: the bookmark table and the four operations.
- `bookmark_properties.dfy`: frame, ownership, idempotence and double-delete
  lemmas.
- `auth.dfy`: signup, login and signToken.
- `auth_properties.dfy`: lemmas relating signups and logins.

This model follows the code as written:

- `create` takes only the caller and the payload. It does not upload a file,
  and it does not check that link and file exclude each other.
- A client may set `fileKey` itself, on create and on update.
  `BookmarkProperties.CreatedFileKeyIsSignedOnList` shows that `list` signs
  whatever key is stored.
- "Not found" is a plain error with the message "Could not find the bookmark".
- `list` and `create` turn every failure into "Something went wrong...".
  `update` and `delete` rethrow storage errors unchanged.
- A duplicate email at signup is a Forbidden error, not a separate conflict
  error. Any unique violation maps to it, including an id collision.

## Model

| member | source | states |
|---|---|---|
| Common.FirstIndex | src/bookmark/bookmark.service.ts:52-54 | a `findFirst` lookup answers a row satisfying the filter with no earlier row satisfying it, and answers nothing exactly when no row satisfies it |
| Bookmarks.FindOwned | src/bookmark/bookmark.service.ts:72-74 | the lookup by `{ userId, id }` answers the first row with that id and owner, and nothing exactly when the caller owns no row with that id |
| Bookmarks.Owned | src/bookmark/bookmark.service.ts:15-17 | the owner query yields a row if and only if it is stored and owned by the caller |
| Bookmarks.Resolve | src/bookmark/bookmark.service.ts:21-27 | a row with a truthy file key is answered with the signed URL of that key as its link, and fails if signing fails; every other field is kept; a row with an absent or empty key is answered as stored |
| Bookmarks.ResolveAll | src/bookmark/bookmark.service.ts:19-29 | the fan-out keeps length and order, position i being the resolution of row i; it fails exactly when some row's resolution fails |
| Bookmarks.List | src/bookmark/bookmark.service.ts:13-36 | list is read-only; it answers one view per owned row in storage order, all owned by the caller; it fails exactly on a store fault or a failed signing, and always with "Something went wrong..." |
| Bookmarks.Create | src/bookmark/bookmark.service.ts:38-48 | create appends exactly one row and returns it; the row is owned by the caller and carries the payload's title, link, description and fileKey; it succeeds exactly when the store answers and the id is free; on failure the table is unchanged and the error is "Something went wrong..." |
| Bookmarks.Patch | src/bookmark/bookmark.service.ts:57-62 | an edit never changes id or owner; a field absent from the payload keeps its stored value, and a present one replaces it |
| Bookmarks.Update | src/bookmark/bookmark.service.ts:50-68 | update succeeds exactly when the caller owns a row with the payload id; then only that row changes, to its patched form, which is returned; otherwise the table is unchanged and the error is "Could not find the bookmark", or the storage error unchanged |
| Bookmarks.Delete | src/bookmark/bookmark.service.ts:70-85 | delete succeeds exactly when the caller owns a row with that id; then exactly that row is removed and returned; otherwise the table is unchanged and the error is "Could not find the bookmark", or the storage error unchanged |
| BookmarkProperties.OwnedAppend | src/bookmark/bookmark.service.ts:15-17 | the owner filter keeps storage order: it distributes over concatenation of tables |
| BookmarkProperties.ListEmptyForUserWithoutBookmarks | src/bookmark/bookmark.service.ts:13-31 | a user without bookmarks is answered with an empty list, not an error |
| BookmarkProperties.ListViews | src/bookmark/bookmark.service.ts:21-27 | view i has the id, owner, title, description and fileKey of owned row i; its link is the signed URL when the key is truthy and the stored link otherwise |
| BookmarkProperties.CreateVisibleOnlyToOwner | src/bookmark/bookmark.service.ts:38-43 | after a create, the owner's rows are the old ones followed by the new row, and every other user's rows are unchanged |
| BookmarkProperties.CreatedFileKeyIsSignedOnList | src/bookmark/bookmark.service.ts:21-41 | a file key supplied in the create payload is stored and signed by the next list, whose last view carries the signed URL as its link |
| BookmarkProperties.CreatePreservesUniqueIds | src/bookmark/bookmark.service.ts:40-42 | create keeps ids a key of the table |
| BookmarkProperties.UpdateKeepsIdsAndOwners | src/bookmark/bookmark.service.ts:57-62 | no update, successful or not, changes any row's id or owner |
| BookmarkProperties.UpdateLeavesOthersAlone | src/bookmark/bookmark.service.ts:52-62 | an update leaves every other user's rows exactly as they were |
| BookmarkProperties.UpdateOfForeignBookmarkFails | src/bookmark/bookmark.service.ts:52-55 | editing another user's bookmark fails with "Could not find the bookmark" and changes nothing |
| BookmarkProperties.UpdatePreservesUniqueIds | src/bookmark/bookmark.service.ts:57-62 | update keeps ids a key of the table |
| BookmarkProperties.PatchIdempotent | src/bookmark/bookmark.service.ts:58-62 | applying the same edit twice equals applying it once |
| BookmarkProperties.UpdateIdempotent | src/bookmark/bookmark.service.ts:50-63 | repeating a successful update returns the same row and leaves the table as the first update left it |
| BookmarkProperties.DeleteLeavesOthersAlone | src/bookmark/bookmark.service.ts:72-80 | a delete leaves every other user's rows exactly as they were |
| BookmarkProperties.DeletePreservesUniqueIds | src/bookmark/bookmark.service.ts:77-79 | delete keeps ids a key of the table |
| BookmarkProperties.DeleteTwiceFails | src/bookmark/bookmark.service.ts:70-80 | after a successful delete, deleting the same id again fails with "Could not find the bookmark" and changes nothing |
| Dto.ValidateCreate | src/bookmark/dto/bookmark.dto.ts:3-19 | an accepted create request carries a non-empty string title, string link, description and fileKey when present, and nothing else; it is exactly the encoding of the payload answered; a rejection names exactly the properties that fail |
| Dto.ValidateEdit | src/bookmark/dto/bookmark.dto.ts:21-41 | an accepted edit request carries a non-empty id passing the UUID check, string title, link, description and fileKey when present, and nothing else; it is exactly the encoding of the payload answered; a rejection names exactly the properties that fail |
| Dto.ValidateCreateAcceptsValid | src/bookmark/dto/bookmark.dto.ts:3-19 | every create payload with a non-empty title passes the pipe unchanged when sent |
| Dto.ValidateEditAcceptsValid | src/bookmark/dto/bookmark.dto.ts:21-41 | every edit payload whose id passes the UUID check passes the pipe unchanged when sent |
| Dto.EncodeEditShape | src/bookmark/dto/bookmark.dto.ts:21-41 | an encoded edit request holds the id and exactly the present optional fields, each as a string |
| Dto.OwnerCannotBeNamed | src/main.ts:9 | a request naming `userId` is rejected by both pipes, with `userId` among the failing properties |
| Dto.EmptyTitleRejectedOnlyOnCreate | src/bookmark/dto/bookmark.dto.ts:4-28 | an empty title is rejected on create but accepted on edit |
| Auth.SignupError | src/auth/auth.service.ts:31-38 | a storage error maps to Forbidden "Credentials taken!" exactly when it is a unique violation; any other error is rethrown unchanged |
| Auth.Signup | src/auth/auth.service.ts:17-39 | signup succeeds exactly when the store answers and the email and id are free; it stores one row holding hash(password), and answers that row's id, email, creation time and names, without the hash; on failure nothing is stored; without a storage fault the failure is "Credentials taken!" |
| Auth.FindByEmail | src/auth/auth.service.ts:42-44 | the email lookup answers the first user with that email, and nothing exactly when no user has it |
| Auth.SignToken | src/auth/auth.service.ts:65-72 | the access token is the signature of the payload `{sub: userId, email}` under a 60-minute lifetime and the configured secret |
| Auth.Login | src/auth/auth.service.ts:41-62 | login succeeds exactly when the first user with the email verifies the password; it answers that user's columns without the hash, plus a token signed over `{sub: id, email}` with a 60-minute lifetime and the configured secret; an unknown email and a wrong password both fail with Forbidden "Credentials incorrect"; a storage error is rethrown |
| AuthProperties.SignupTwiceFails | src/auth/auth.service.ts:20-38 | signing up an email a second time fails with "Credentials taken!" and stores nothing |
| AuthProperties.SignupPreservesUniqueEmails | src/auth/auth.service.ts:20-29 | signup keeps emails unique in the user table |
| AuthProperties.LoginFailuresIndistinguishable | src/auth/auth.service.ts:46-53 | an unknown email and a known email with a wrong password give the identical error |
| AuthProperties.LoginAfterSignup | src/auth/auth.service.ts:55-71 | after a signup, logging in with the same credentials answers the new user without the hash, with a token for `{sub: newId, email}`, 60 minutes, the configured secret |

## Left out

- File upload on create is not modelled. The controller passes an uploaded file to `create`, but `create` ignores it. No upload step and no link-versus-file check exist in the service.
- The storage client, argon2, the JWT library and the object store are not modelled. Their source is not part of this model, so they are the parameters described above.
- The storage client's rule that "an undefined field means no change" is assumed: an absent edit field is `None`, and `Patch` keeps the stored value.
- An explicit JSON `null` in an optional field is not represented. The source's optional-field check lets it through, but `Json` has no null value, because the storage client's treatment of `null` is not shown.
- Database columns beyond those the source names are not modelled, such as bookmark timestamps and a user's `updatedAt`. The schema is not part of this model.
- The `list` fan-out runs concurrently in the source. It is modelled as a sequential map, because concurrency changes only latency, not the result or its order.
- `findMany` has no `orderBy`. The model takes the table's sequence order as the storage order.
- A failure of argon2 hashing, a failure of argon2 verification and a failure of token signing are not modelled: `hash`, `verify` and the JWT `sign` are total functions. In the source, each would propagate unchanged. For example, `login` has no error handling, so an argon2 rejection on a malformed stored hash reaches the caller as it is, not as Forbidden "Credentials incorrect".
- Auth payload validation is not modelled. The auth DTO file is not part of this model.
- Controllers, modules, the JWT guard, the `GetUser` decorator, bootstrap, the upload controller's file validators, the health endpoint, process-manager configuration and the e2e test are left out. They are HTTP routing and framework plumbing.
- `console.error` logging is left out, because it has no effect on results or state.
- Auth.Signup: states only that the stored hash is `hash(password)`. That the hash differs from the plain password is a property of argon2, which is not modelled.
