# Poem website: a verified model of its request handlers and client rules

This project models a poetry site built on Express and MongoDB. It has two backend entry points:

- `backend/api/index.js` is the serverless one. It serves poems, reader comments held for moderation, a visit counter, and a single administrator account.
- `backend/server.js` is the local development server. It repeats the poem, login and setup routes.

It also models four parts of the React client:

- `src/services/api.ts`: the API service, with its token and its rule for which requests carry `Authorization: Bearer <token>`.
- `src/App.tsx`: the top-level component's state updates.
- `src/components/HomePage.tsx`: the home page's title search and selection.
- `src/components/AdminPanel.tsx`: the admin panel's add-poem form.

Each route handler is a method of a class whose fields are the collections:

- `ApiIndex.Store` models `backend/api/index.js`.
- `LocalServer.Server` models `backend/server.js`.

Each handler returns the status and body the route sends, and its postcondition gives the complete new store. `authenticateToken` (`AuthGate.Authenticate`) guards six routes. Each guarded method proves that a refused request leaves the store unchanged. The two servers share the one `AuthGate` module, because they share the gate, the login decision and the setup credentials.

`jsonwebtoken` and `bcrypt` are replaced by small concrete stand-ins:

- `Jwt.Sign` and `Jwt.Verify` use a dotted token with a keyed checksum. The round trip `Jwt.SignVerify` is proved: a signed token verifies, with the claims it was issued with, until the second `exp`. After that it is refused, so expired and malformed tokens get the same 403.
- A `Bcrypt.Hashed` record carries cost, salt and checksum. The salt bcrypt would draw at random is a parameter.

The client is modelled as classes, with the network left out:
- each callback builds the request it sends (`ApiService.ApiService.Request`);
- it receives what that request resolved to, or the message it threw, as a parameter.

`EndToEnd` connects the two sides:

- A logged-in client's `/poems...` requests pass the server's gate while the current second is before the login second + 86400.
- The client never attaches its token to `/comments/:id/approve` or `/comments/:id`. The server guards both routes, so from this client they are always answered 401 "Token gerekli" (`EndToEnd.ModerationRequestsLackToken`). Nothing in the modelled client files calls these two endpoints.

## Model

| member | source | states |
|---|---|---|
| AuthGate.SecretFrom | backend/api/index.js:70 | the signing secret is the environment's when that one is non-empty, otherwise 'your-secret-key'; never empty |
| AuthGate.Authenticate | backend/api/index.js:73-88 | missing token (no header, empty header, no second space-separated field, empty second field) iff 401 outcome; 403 outcome iff a token is present and fails verification; admitted with exactly the claims verification returned |
| AuthGate.SecondFieldIsToken | backend/api/index.js:74-75 | the token is the second space-separated field whatever the scheme word says |
| AuthGate.NoSecondFieldIsMissing | backend/api/index.js:75-79 | a header without a space yields 401, never 403 |
| AuthGate.IssuedTokenAdmitted | backend/api/index.js:81-87 | a token signed with the server's secret is admitted with its issued claims while the current second is before the issue second + 86400, and refused with 403 afterwards |
| AuthGate.LoginResponse | backend/api/index.js:118-136 | 200 iff the administrator exists, has that username and the password matches its hash; every failure is the identical 401 'Geçersiz kullanıcı adı veya şifre'; success returns the token signed for `{username}` now |
| AuthGate.LoginTokenAdmitted | backend/api/index.js:135 | the token a successful login returns opens the gate, for the administrator's username, while the current second is before the login second + 86400 |
| AuthGate.SetupCredentialsLogIn | backend/api/index.js:280-283 | after setup the fixed username and password log in, whatever salt was drawn |
| Jwt.Verify | backend/api/index.js:81-84 | a verified token is not expired and carries the signature its payload calls for |
| Jwt.SignVerify | backend/api/index.js:135 | verifying a signed token gives back its claims iff the current second is before iat + 86400, and nothing otherwise |
| Bcrypt.CompareHash | backend/api/index.js:129 | a password matches its own hash |
| Listing.Insert | backend/api/index.js:95 | inserting into a newest-first listing keeps it newest first and adds exactly the new entry |
| Listing.InsertKeepsIdsDistinct | backend/api/index.js:95 | inserting an entry with a new id keeps ids unique |
| Listing.Query | backend/api/index.js:95 | the query result is newest first, has no repeated id, and holds exactly the stored documents the filter keeps |
| ApiIndex.PublicComments | backend/api/index.js:213-216 | the public ids of a poem are exactly its comments with `approved` true |
| ApiIndex.SetApproval | backend/api/index.js:241-245 | the approval write changes only the `approved` field of the one target comment |
| ApiIndex.NewCommentNotPublic | backend/api/index.js:195-200 | a new pending comment appears in no public listing |
| ApiIndex.ApprovalDecidesVisibility | backend/api/index.js:238-245 | approving shows a comment in exactly its own poem's listing; unapproving hides it from all listings but keeps it stored |
| ApiIndex.SetApprovalIdempotent | backend/api/index.js:241-245 | approving twice with the same value is approving once |
| ApiIndex.DeleteHides | backend/api/index.js:261 | a deleted comment leaves every public listing, which otherwise stays the same |
| ApiIndex.Store.constructor | backend/api/index.js:34-70 | the store starts with no poems, comments, administrator or counter, and the configured secret |
| ApiIndex.Store.GetPoems | backend/api/index.js:93-101 | 200 with exactly the stored poems, newest first, each once |
| ApiIndex.Store.GetPoem | backend/api/index.js:104-115 | 200 with the poem when its id exists, otherwise 404 'Şiir bulunamadı' |
| ApiIndex.Store.Login | backend/api/index.js:118-141 | the response is the login decision for the stored administrator |
| ApiIndex.Store.AddPoem | backend/api/index.js:144-164 | gate failure or a missing or empty title or content changes nothing (401/403/400); otherwise exactly one new poem dated now, 201 |
| ApiIndex.Store.DeletePoem | backend/api/index.js:167-178 | gate failure or an absent id changes nothing (401/403/404); otherwise only that poem is removed and its comments stay |
| ApiIndex.Store.CreateComment | backend/api/index.js:181-208 | a missing field gives 400 and an unknown poem 404, with no change; otherwise exactly one new comment with `approved` false, 201 |
| ApiIndex.Store.GetPoemComments | backend/api/index.js:211-222 | 200 with exactly the approved comments naming that id, newest first; never 404, and a deleted poem's approved comments are still listed |
| ApiIndex.Store.GetAllComments | backend/api/index.js:225-235 | behind the gate, 200 with every comment, newest first |
| ApiIndex.Store.ApproveComment | backend/api/index.js:238-256 | gate failure or an unknown id changes nothing (401/403/404); otherwise only the approval flag of that comment is written and the updated comment returned |
| ApiIndex.Store.DeleteComment | backend/api/index.js:259-270 | gate failure or an unknown id changes nothing (401/403/404); otherwise only that comment is removed |
| ApiIndex.Store.DeleteCommentTwice | backend/api/index.js:259-265 | for an admitted caller a second delete of the same id gives 404 |
| ApiIndex.Store.Setup | backend/api/index.js:273-292 | with an administrator present, 400 and no change; otherwise exactly the fixed administrator, hashed with cost 10, whatever the request says |
| ApiIndex.Store.SetupTwice | backend/api/index.js:273-287 | setup succeeds at most once; a second call is refused and the first administrator stays |
| ApiIndex.Store.GetVisits | backend/api/index.js:295-307 | creates a zero counter when there is none and reports the count |
| ApiIndex.Store.IncrementVisits | backend/api/index.js:310-325 | the count becomes 1 when there was no counter, otherwise one more than before |
| ApiIndex.Store.ResetVisits | backend/api/index.js:328-343 | behind the gate, the counter becomes 0, created if missing |
| LocalServer.Server.constructor | backend/server.js:38-56 | the server starts with no poems or administrator, and the configured secret |
| LocalServer.Server.GetPoems | backend/server.js:79-86 | 200 with exactly the stored poems, newest first, each once |
| LocalServer.Server.GetPoem | backend/server.js:89-99 | 200 with the poem when its id exists, otherwise 404 |
| LocalServer.Server.Login | backend/server.js:102-124 | the same login decision as the serverless entry point: one undifferentiated 401, a 24h token on success |
| LocalServer.Server.AddPoem | backend/server.js:127-146 | gated; 400 with no change on a missing title or content; otherwise one new poem stamped now |
| LocalServer.Server.DeletePoem | backend/server.js:149-159 | gated; 404 with no change for an absent id; otherwise removes only that poem |
| LocalServer.Server.Setup | backend/server.js:162-180 | refused with 400 once an administrator exists; otherwise stores one administrator with the hashed fixed password |
| ApiService.AttachesTokenIff | src/services/api.ts:54-79 | the token is attached iff one is held and either the endpoint is `/comments` with a method other than POST, or it starts with one of the four administrative prefixes |
| ApiService.ModerationRoutesNeverCarryToken | src/services/api.ts:55-79 | `/comments/{id}/approve`, `/comments/{id}`, `/visits/increment` and POST `/comments` never carry the token |
| ApiService.PoemRoutesCarryToken | src/services/api.ts:55-72 | every `/poems...` request, reads included, carries a held token |
| ApiService.CallerHeadersReplaceMerged | src/services/api.ts:46-52 | the merged headers hold Content-Type and every caller header, yet caller-supplied headers replace them entirely in the request; with none, the base headers are only Content-Type: application/json |
| ApiService.RequestHeaders | src/services/api.ts:46-79 | the sent headers are the base headers plus `Authorization: Bearer <token>` exactly when the rule says so, nothing else |
| ApiService.CallerHeadersDropContentType | src/services/api.ts:46-52 | a caller's headers without Content-Type lose the JSON Content-Type |
| ApiService.ErrorMessage | src/services/api.ts:84-87 | a failure carries the server's message, or 'Bir hata oluştu' when that is empty or absent; never empty |
| ApiService.ApiService.constructor | src/services/api.ts:26 | a new service holds no token |
| ApiService.ApiService.SetToken | src/services/api.ts:28-31 | the field and the stored copy both hold the new token |
| ApiService.ApiService.ClearToken | src/services/api.ts:33-36 | neither the field nor storage holds a token afterwards |
| ApiService.ApiService.ResetToken | src/services/api.ts:38-41 | always ends with no token, because the key is removed just before being read back |
| ApiService.ApiService.Login | src/services/api.ts:107-118 | POSTs the credentials; stores the returned token only when the reply succeeded and its token is non-empty, otherwise leaves token and storage as they were |
| EndToEnd.AttachedTokenMeetsGate | backend/api/index.js:73-88 | a token the client attaches, issued with the server's secret, is admitted until it expires and refused with 403 after |
| EndToEnd.LoginThenPoemRequestAdmitted | src/services/api.ts:113-115 | a successful login reply carries a token the client keeps, and the client's later `/poems...` requests pass the gate while the current second is before the login second + 86400 |
| EndToEnd.ModerationRequestsLackToken | src/services/api.ts:161-174 | the client's approve and delete-comment requests carry no token, so the server's gate always answers them 401 |
| App.RemoveById | src/App.tsx:75 | the result keeps the other poems in their order and has no poem with that id |
| App.ReplaceById | src/App.tsx:86 | same length; each poem with that id becomes the updated one and every other stays |
| App.AddedPoemSelected | src/App.tsx:64 | the prepended poem is what its route selects |
| App.DeletedPoemNotSelectable | src/App.tsx:75 | after a delete the deleted id selects nothing |
| App.DeleteKeepsOtherSelections | src/App.tsx:75 | a delete leaves every other route's selection as it was |
| App.UpdatedPoemSelected | src/App.tsx:86 | after an update the poem's route selects the updated version |
| App.UpdateKeepsOtherSelections | src/App.tsx:86 | an update leaves every other route's selection as it was |
| App.App.constructor | src/App.tsx:9-13 | no poems, not admin, loading, no error, count 0 |
| App.App.CheckAdminStatus | src/App.tsx:54-59 | a stored non-empty token sets the admin flag; the flag is never cleared here |
| App.App.AddPoem | src/App.tsx:61-70 | success prepends the new poem and returns true; failure leaves the list and returns false |
| App.App.DeletePoem | src/App.tsx:72-81 | success removes every poem with that id and keeps the rest in order; failure changes nothing |
| App.App.UpdatePoem | src/App.tsx:83-92 | success replaces each poem with that id; failure changes nothing |
| App.App.LoginAdmin | src/App.tsx:94-103 | the admin flag becomes true only on success; a failed login returns false and leaves it |
| App.App.LogoutAdmin | src/App.tsx:105-108 | clears the service's and the stored token and the admin flag |
| App.App.LoadPoems | src/App.tsx:35-52 | a fetched list replaces the poems and clears the error; on failure the error is set and saved poems are used when present and parseable; loading ends false on every path |
| App.App.LoadAndIncrementVisits | src/App.tsx:21-33 | shows the fetched count, then the incremented count; a failed read skips the increment; a failure keeps the last count shown |
| Seqs.Filter | src/components/HomePage.tsx:23 | an order-preserving sublist holding exactly the kept elements with their multiplicities |
| Seqs.Find | src/components/HomePage.tsx:16 | the first matching element, or none exactly when nothing matches |
| HomePage.FilteredPoems | src/components/HomePage.tsx:23-25 | the order-preserving sublist of poems whose lowered title contains the lowered term |
| HomePage.MatchHasOffset | src/components/HomePage.tsx:24 | a matching title holds the lowered term at some offset |
| HomePage.EmptyTermKeepsAll | src/components/HomePage.tsx:23-25 | an empty search term returns all poems, in order |
| HomePage.SelectedPoem | src/components/HomePage.tsx:16 | the first poem whose id is the route id; none without a route id or without such a poem |
| HomePage.NotFoundIffNoMatch | src/components/HomePage.tsx:81 | the not-found message shows iff the term is non-empty and no title matches; never without the result count |
| HomePage.HighlightIsSelection | src/components/HomePage.tsx:65-69 | with distinct ids, exactly the selected poem is highlighted in the filtered list |
| Text.Trim | src/components/AdminPanel.tsx:25 | the trimmed value is a slice of the input whose dropped ends are whitespace and whose own ends are not |
| Text.TrimEmptyIffBlank | src/components/AdminPanel.tsx:25 | trimming gives the empty string iff every character is whitespace |
| Text.TrimIdempotent | src/components/AdminPanel.tsx:27-28 | the trimmed values sent need no further trimming |
| Text.SplitJoin | backend/api/index.js:75 | splitting a join of separator-free fields gives the fields back |
| AdminPanel.Form.LogoutThenOpen | src/components/AdminPanel.tsx:18-21 | once the administrator has logged out, the panel redirects to /admin/login |
| AdminPanel.Form.LoginThenOpen | src/components/AdminPanel.tsx:18-21 | after an accepted login the panel is shown; after a refused one the view is what it was before |
| AdminPanel.CanSubmitIff | src/components/AdminPanel.tsx:25 | the guard passes iff title and content each hold a non-whitespace character |
| AdminPanel.Form.constructor | src/components/AdminPanel.tsx:13-15 | empty title and content, form hidden |
| AdminPanel.Form.HandleAddPoem | src/components/AdminPanel.tsx:23-36 | addPoem runs only when both trimmed fields are non-empty and gets the trimmed values; success clears and hides the form, failure keeps all three |
| AdminPanel.Form.ToggleAddForm | src/components/AdminPanel.tsx:55 | flips whether the form is shown |
| AdminPanel.Form.HandleDeletePoem | src/components/AdminPanel.tsx:38-42 | deletePoem runs only once the visitor confirmed |

## Left out

- Database and server plumbing are I/O and are not modelled: the MongoDB connection, CORS, dotenv, logging, `app.listen`, and the constant health-check routes.
- The 500 "Sunucu hatası" catch paths are not modelled. The in-memory store does not fail.
- Ids are abstract naturals drawn from a counter. An id string that is not a valid ObjectId makes Mongoose throw a cast error and the route answer 500; that case is not modelled.
- `populate('poemId', 'title')` in the admin comment listing replaces each `poemId` with the poem's id and title. The model returns the comment as stored.
- The login body's `username` is always a string in the model. With no `username` in the body, `findOne` gets an empty filter, and a password that is missing makes `bcrypt.compare` throw.
- The approve route's `approved` is a boolean in the model. Mongoose's casting of other JSON values is not modelled.
- The body fields `title`, `content`, `name` and `text` are `Option<string>` in the model. Mongoose's casting or rejection of non-string JSON values for these fields is not modelled.
- The store holds at most one administrator, which is all setup can create. Administrators added to the database by other means are not modelled.
- Express routing internals are framework behaviour: route dispatch, and `server.js` mounting the serverless app under `/api`.
- `Jwt.Sign` and `Jwt.Verify` are not HMAC-SHA256 over base64url JSON. They are a concrete layout: escaped username, `iat`, `exp`, and a keyed checksum. They verify only tokens of that layout, and jsonwebtoken's other claims and algorithm checks are not modelled.
- `Bcrypt.Hash` is a record, not the bcrypt algorithm. The random salt is a parameter.
- Clocks are parameters. Each handler gets `nowMs`, and `Date` values are natural milliseconds.
- For documents with equal dates, the order the listings return is unspecified.
- Concurrency is not modelled. In particular the read-modify-write of the visit counter could lose updates, and the model runs every handler on its own, one after another.
- Client networking is not modelled: `fetch`, the JSON body and the base URL chosen from the environment. The base URL is a parameter, a request body is a `Payload` value, and what the server answered is an input to each client operation.
- The other `ApiService` wrappers are single `request` calls (getPoems, getPoem, addPoem, deletePoem, updatePoem, addComment, getPoemComments, getAllComments, approveComment, deleteComment, getVisits, incrementVisits, resetVisits, setupAdmin). They are covered by `ApiService.ApiService.Request` with their endpoint and options, as used in `App` and `EndToEnd`.
- Case folding is a parameter: `toLowerCase` is an arbitrary character-by-character mapping. Unicode mappings that change the length of a string are not modelled.
- Rendering is UI and is not modelled: JSX, date formatting, SVG and animation. `navigate` appears only as the redirect view.
- `App.App.LoadPoems`: `parse` stands for `JSON.parse` and yields a poem list or nothing. A saved value that parses but is not a poem array, such as `42` or `{}`, becomes the poem state as-is in the source; that case is not modelled.
- React scheduling is not modelled: the order of `useEffect` and the interleaving of the three startup calls. Each callback runs on its own once its awaited call has answered.
- `src/components/AdminLogin.tsx`, `ConfirmModal.tsx`, `PoemPage.tsx` and `src/contexts/ThemeContext.tsx` are not part of this model. `src/types.ts` has the same poem shape as `ApiService.Poem`.
- An update can never succeed against these servers: the client's `updatePoem` sends PUT `/poems/:id`, for which neither server has a route. `App.App.UpdatePoem` still takes the reply as a parameter.
