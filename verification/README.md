# Study-materials store: credential lifecycle model

This Dafny project models the core of the study-materials shop backend (`server.js`). That core is the lifecycle of one-time passwords and download tokens:

- A checkout stores one random password per purchased title in a process-wide map.
- `/verify-password` swaps a matching password for a download token that expires after five minutes.
- `/download/:title` spends a live token on a file listed in the files configuration.
- `/check-password-status` asks whether a password is pending.

The model also covers the pure logic around that lifecycle:

- the checkout totals (subtotal, 18 % GST, total), in exact `real` arithmetic;
- the user-record list operations: signup, login, record-purchase and change-password;
- the catalogue operations: add-item, remove-item and add-subject, with their files-configuration bookkeeping;
- the normalisation of subject keys and upload file names.

Each modelled piece is a pure function of the state it touches:

- The credential map is one `map<string, Entry>`, where an `Entry` is either a bare password or a token `{email, title, expiry}`. Password keys are `email-title` and token keys are `download-token`. They are deliberately kept in one key space, as in the server. So the password key of the account `download` for title `T` is the key of token `T`.
- The clock (`now`) and the random hex strings (`token`, `otps`) are parameters.
- The JSON files (users, items, subjects, files configuration) are values passed in and returned.
- The `files/` directory is the set of relative paths that exist on disk.

Modules, one per component: `Common` (option/result, truthiness, hex), `Naming`, `Cart`, `Users`, `Catalog`, `Credentials`, `Checkout` and `Lifecycle` (properties across handlers).

The model follows the code, including these behaviours of it:

- The two credential kinds are not namespaced apart.
- A download token is spent only when the requested title is configured, and the requested title is never checked against the token's own title.
- Passwords have no expiry.
- The three download refusals are distinguishable: 403 "expired or invalid", 403 "expired" and 404.
- The totals are not rounded; only the invoice display rounds them.

## Model

| member | source | states |
|---|---|---|
| `Naming.Lower` | server.js:650 | ASCII lower-casing keeps the length, turns each upper-case letter into the letter 32 code points above it (its lower-case form), and leaves every other character as it was |
| `Naming.CollapseSpaces` | server.js:71 | the model of `replace(/\s+/g, '_')`: its result has no whitespace, is no longer than its input, and is empty only for empty input; its run-by-run meaning is stated by the three lemmas below |
| `Naming.RunBecomesUnderscore` | server.js:71 | a non-empty text made only of whitespace becomes exactly one `_` |
| `Naming.CollapseAppend` | server.js:71 | two texts joined where no whitespace run is split collapse separately: the result is the two collapses joined |
| `Naming.OneUnderscorePerRun` | server.js:71 | a maximal whitespace run between two pieces becomes exactly one `_` between the collapsed pieces |
| `Naming.UploadName` | server.js:71 | an upload's stored name is the run-by-run collapse of the original name: no whitespace, no longer than the original, equal to it when it had no whitespace, with every non-whitespace, non-`_` character kept in order |
| `Naming.UploadNameExample` | server.js:71 | `my notes.pdf` is stored as `my_notes.pdf` |
| `Naming.SubjectKey` | server.js:650 | a subject key is the run-by-run collapse of the lower-cased code: no whitespace and no upper-case letter, no longer than the code, with the lower-cased code's other characters kept in order |
| `Naming.SubjectKeyExample` | server.js:650 | the code `CS \t 101` (a mixed whitespace run) gets the key `cs_101` |
| `Naming.CollapseProperties` | server.js:71 | replacing whitespace runs by `_` removes all whitespace, never lengthens, is the identity on whitespace-free text, and preserves the remaining content |
| `Naming.ScanCollapse` | server.js:71 | a single left-to-right scan, emitting `_` at the start of each whitespace run, produces exactly the recursive collapse |
| `Naming.SubjectKeyIdempotent` | server.js:777 | normalising a subject key a second time changes nothing |
| `Naming.UploadNameIdempotent` | server.js:71 | normalising a stored file name a second time changes nothing |
| `Cart.TotalsOf` | server.js:339-344 | the subtotal is the sum of price × quantity; GST is 18 % of it; the total is 1.18 × subtotal; with non-negative lines 0 ≤ subtotal ≤ total |
| `Cart.ComputeTotals` | server.js:339-344 | the handler's running-sum loop yields exactly the reference subtotal, GST and total |
| `Cart.SubtotalAppend` | server.js:340-342 | the subtotal of two carts put together is the sum of their subtotals |
| `Cart.SubtotalNonNegative` | server.js:340-342 | with no negative price or quantity, the subtotal is not negative |
| `Cart.TotalsExample` | server.js:339-344 | 2 × 100 plus 1 × 50 gives subtotal 250, GST 45 and total 295 |
| `Users.FindByEmail` | server.js:580 | finds nothing exactly when no user has the email; otherwise finds the first user with it |
| `Users.FindByCredentials` | server.js:266 | finds nothing exactly when no user has both the email and the password; otherwise finds the first such user |
| `Users.Signup` | server.js:183-208 | refused for a missing field, and otherwise for a registered email; on success exactly one user with no purchases is appended and the earlier records are kept |
| `Users.SignupKeepsEmailsUnique` | server.js:197-208 | signup preserves distinct emails in the users file |
| `Users.Login` | server.js:227-273 | each of the six outcomes is characterised by an if-and-only-if: admin session exactly when the admin role comes with both admin credentials, "invalid admin credentials" for the admin role otherwise; "use admin login" for the admin email in the user role; "both required" for a missing email or password; "invalid email or password" when no user has both; otherwise the first user with both, returned without a password |
| `Users.SignupThenLogin` | server.js:266-273 | a newly signed-up user can log in and gets their own record with no purchases |
| `Users.RecordPurchase` | server.js:287-303 | fails if and only if the email is unknown; otherwise only the first user with it changes, by appending the new purchases, and that user is returned without a password |
| `Users.RecordPurchaseAppendOnly` | server.js:294-297 | every user's old purchase list is a prefix of the new one, and names, emails and passwords are unchanged |
| `Users.RecordPurchaseTwice` | server.js:297 | recording two batches in turn equals recording their concatenation |
| `Users.ChangePassword` | server.js:579-590 | unknown email, or a current password that does not match the first user with that email, is refused; otherwise only that user's password changes |
| `Users.ChangePasswordRoundTrip` | server.js:586-590 | changing a password and changing it back restores the users file |
| `Users.ChangePasswordThenLogin` | server.js:590 | after a change, the new password logs in to the changed record |
| `Catalog.AddSubject` | server.js:775-784 | the normalised key maps to `code - name`; every other subject is kept |
| `Catalog.AddSubjectSameKey` | server.js:777-781 | two codes with the same normalised key share one entry; the later one wins |
| `Catalog.AddItem` | server.js:642-693 | the item is appended with exactly the given title, description, price and subject, and the upload's normalised name or none; an upload becomes the title's download and a file on disk; a new subject is added only when both code and name are given |
| `Catalog.RemoveItem` | server.js:715-755 | for an in-range index the item is removed and the others keep their order, a named file's title entry leaves the files configuration in both branches, and the file is deleted if and only if no remaining item names it and it exists; past the end nothing changes; a negative index removes the item that many places from the end (or the first item) and cleans nothing up |
| `Catalog.AddThenRemove` | server.js:662-755 | removing a just-added item restores the items list; if its title and file were new, it also restores the files configuration and the directory |
| `Credentials.OtpKeyInjective` | server.js:333 | for one account, distinct titles give distinct password keys |
| `Credentials.TokenKeyInjective` | server.js:127 | distinct tokens give distinct token keys |
| `Credentials.SharedKeySpace` | server.js:118-127 | the password key of account `download` for title `t` equals the key of token `t` |
| `Credentials.VerifyPassword` | server.js:116-139 | succeeds if and only if the map holds exactly that password under `email-title`; on failure the map is unchanged; on success the password entry is replaced by one token entry expiring at now + 300000 and nothing else changes (`token` is the 32 hex characters of the 16 random bytes drawn) |
| `Credentials.VerifyPasswordOnce` | server.js:121-123 | replaying a redeemed password is rejected and changes nothing |
| `Credentials.Download` | server.js:142-173 | an unknown token gives 403 and no change; an expired token (now > expiry) is deleted and gives 403; a live token is deleted if and only if the title is configured; a file is served if and only if the token is live, the title is configured and the file exists; no entry is added or altered |
| `Credentials.DownloadOnce` | server.js:160-162 | after a served download the same token is refused |
| `Credentials.ExpiryBoundary` | server.js:152-155 | a token is honoured at `now == expiry` and refused and purged at `expiry + 1` |
| `Credentials.TokenOpensOtherTitle` | server.js:157-166 | a live token issued for one title serves any other configured title |
| `Credentials.OtpPassesAsToken` | server.js:145-155 | a password of account `download` for `t` is accepted as token `t`, at any time |
| `Credentials.DownloadBound` | server.js:142-173 | corrected download: serves only through a live token entry issued for the requested title; otherwise refuses with the map unchanged; agrees with the as-written download when the titles match |
| `Credentials.PasswordStatus` | server.js:528-538 | read-only: the map is returned unchanged, and the answer is true exactly when a password, or a download token at a colliding key, is stored under `email-title` |
| `Credentials.StatusAcrossVerify` | server.js:528-538 | the status query is true before a successful redemption and false after it (barring a key collision); a rejected attempt does not change it |
| `Checkout.LastLineOf` | server.js:331-335 | returns the last cart line with the title, or -1 when there is none |
| `Checkout.IssuePasswords` | server.js:331-334 | the keys written are exactly `email-title` for the cart's titles; each holds the password of the last line with that title; all other keys keep their entries |
| `Checkout.IssueLoop` | server.js:330-336 | the per-line loop over the cart ends with exactly the map and password table that `IssuePasswords` and `GeneratedPasswords` describe |
| `Checkout.GeneratedPasswords` | server.js:330-335 | the returned table covers exactly the cart's titles, each with the password of its last line |
| `Checkout.Checkout` | server.js:315-344 | missing email or empty cart, and otherwise an unknown buyer, are refused with the map unchanged; on success every cart title's key holds the password handed back for it, no other key changes, passwords are 6 hex characters, and totals are those of the cart |
| `Checkout.LastDuplicateWins` | server.js:331-335 | when a title appears twice in a cart, the later line's password is the stored one |
| `Checkout.ReissueOverwrites` | server.js:333-334 | a second checkout of a title overwrites the pending password without adding a key |
| `Lifecycle.PurchaseToDownload` | server.js:121-162 | for a title without `%`: after checkout the password is pending; redeeming it within the token lifetime gives a token that serves the file once (also through the corrected download), and then the token is refused |
| `Lifecycle.ReissueKeepsTokens` | server.js:331-336 | a new checkout leaves earlier download tokens untouched, barring a key collision (a checkout by account `download` of title `t` overwrites token `t`) |
| `Lifecycle.WrongPasswordHarmless` | server.js:121-139 | a wrong password is rejected and the right one still redeems afterwards |

## Findings

| source | as written | input that shows it | evidently intended | confidence | as-written member | corrected member |
|---|---|---|---|---|---|---|
| server.js:157-166 | a live token is spent on whatever title the URL names; the title stored with the token is never read | a token issued for title `A`, then `GET /download/B?token=<token>` with `B` listed in the files configuration | a token opens only the title it was issued for (the link handed out carries that title) | medium; not executed | `Credentials.Download`, shown by `Credentials.TokenOpensOtherTitle` | `Credentials.DownloadBound` |
| server.js:145-155 | passwords and tokens share one map, and a password entry has no `expiry`, so `Date.now() > undefined` is false and the password passes as a live token | account `download` checks out title `T`, then `GET /download/X?token=T` with `X` configured | only a download-token entry passes the token check | medium; not executed | `Credentials.Download`, shown by `Credentials.OtpPassesAsToken` | `Credentials.DownloadBound` |

## Left out

- The file I/O of `users.json`, `items.json`, `subjects.json`, `admin.json` and `files-config.json` is not modelled; their contents are values passed in and returned.
- The I/O error paths are left out: server error, corrupted file, failed write, the empty-config fallback in add-item, and remove-item failing after `items.json` is already written. The one exception is an unreadable files configuration in download, modelled as `None`.
- Express routing, CORS, body parsing and the per-request reload of the files configuration are left out as plumbing.
- `restartServer` after signup is left out.
- The PDF invoice and the `/download-bill` endpoint are left out. The checkout returns the passwords the invoice would embed.
- If invoice rendering fails, the issued passwords stay stored. The model does the same, since it has no rollback.
- The multer disk storage is left out beyond the name normalisation. An upload adds `files/<name>` to the directory set.
- `crypto.randomBytes` and `Date.now()` are parameters. Only the formats are stated: 6 hex characters per password and 32 per token.
- A random token that equals an existing key overwrites that entry, in the model as in the server.
- The link's `encodeURIComponent` and Express's decoding of the route parameter are left out; the two cancel. `Verified` carries the title and token the link would encode. The download handler's own second `decodeURIComponent` (server.js:143) is not modelled; see the `Lifecycle.PurchaseToDownload` line.
- Absent request fields are modelled as the empty string, which is falsy like `undefined`, wherever the server only tests them for truth. Keys built from `undefined` (the text `undefined-…`) are not modelled, nor are the two handlers below that call a method on an absent field.
- Non-string JSON values are not modelled: numeric titles, and string prices coerced by `*`. Prices and quantities are any exact reals, fractional quantities included; a `Number(price)` that is NaN is not modelled.
- Inherited-property lookups on JSON objects are not modelled. For example, a title `constructor` is truthy in the files configuration.
- A files-configuration entry without a `file` field is not modelled. There the token is deleted and then a TypeError gives 404.
- Floating-point arithmetic and `toFixed` display rounding are not modelled. Totals are exact reals.
- Naming.UploadName: requires ASCII input. Unicode whitespace (for example U+00A0) and non-ASCII case mapping are not modelled.
- Naming.SubjectKey: requires ASCII input, for the same reason.
- Catalog.RemoveItem: the index is the integer `parseInt` returns. A non-numeric index (NaN) is not modelled; there `splice` removes the first item and nothing is cleaned up.
- Catalog.AddSubject: an absent `code` makes `code.toLowerCase()` throw (server.js:777), so Express answers 500 and nothing is written; an absent `name` is displayed as `<code> - undefined` (server.js:778). The model has no absent value here and stores under the key of the given text.
- Users.RecordPurchase: purchase entries are modelled as cart lines. The server stores whatever objects the client sends.
- Users.RecordPurchase: an absent or non-iterable `purchases` makes `push(...purchases)` throw inside the file-read callback (server.js:297). Nothing catches it, so the process ends and the in-memory credential map is lost. The model takes `purchases` as a sequence and cannot express this case.
- Async callback interleaving is not modelled. Each handler's map update is one synchronous step.
- The read-only endpoints `/admin/users`, `/admin/user-purchases`, `/items` and `/subjects` are left out. So is the in-memory admin password swap of `/admin/change-password`.
- Passwords have no expiry, as in the code.
- Lifecycle.PurchaseToDownload: requires a title without `%`. The download handler runs `decodeURIComponent` on the route parameter Express has already decoded (server.js:143). A title with `%` therefore either throws (for example `A%B`: a 500, with the token left unspent) or is looked up as another title (`A%41` becomes `AA`). For such titles the issued link does not lead to the bought file, and the model does not say what it does instead.
