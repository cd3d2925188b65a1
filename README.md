# Virtual administrative assistant — a Dafny model

This project models an Express/MongoDB backend and two React screens.
The backend answers administrative questions (passport, identity card,
income-tax return) from a three-entry knowledge base, logs each exchange in a
per-user history, and keeps a user table behind a JWT token gate. The model
covers:

- **Knowledge base** (`Corpus`): the fixed table of three topics.
- **Assistant routes** (`AssistantRoutes`): the index built at start-up; POST `/ask`, which validates, searches, synthesises the reply, derives the category and logs one record; GET `/suggestions`, which shuffles the shared table in place and returns the first five.
- **History schema** (`HistorySchema`): required fields, the `statut` enumeration and the two defaults.
- **History routes** (`HistoryRoutes`): list the 50 newest, get by id and owner, delete by id and owner. This is a class over a sequence of records.
- **Token gate** (`AuthMiddleware`): bearer-token extraction, verification, the payload check, and setting `req.user` or calling `next`.
- **Account routes** (`AuthRoutes`): register, login, read the profile, update the profile. This is a class over a sequence of users.
- **History page** (`HistoryComponent`): the case-insensitive search, removal after a delete, the status chip, and the loading/error state.
- **Chat page** (`AssistantComponent`): the blank-input guard, the append-only message log, and the answer and error fallbacks.

`Common` holds the JavaScript semantics the code relies on:

- string truthiness and `||`;
- `includes` and `indexOf`;
- `replace` with a string pattern, which replaces the first occurrence only;
- ASCII `toLowerCase`;
- `trim`, with the ECMAScript white-space set;
- `Array.prototype.filter`.

External services become parameters:

- **Embedding search**: an oracle `Searcher` that returns documents, or None when it throws.
- **`jwt.sign` / `jwt.verify`**: the arrows `Signer` and `Verifier`.
- **`bcrypt.hash`**: an ideal hash `Bcrypt(plain, salt)`, with `bcrypt.compare` as `Compare`.
- **Salt and clock**: the values `salt` and `now`.
- **Random comparator**: its effect on the array is a sequence of exchanges.
- **Database outcomes**: booleans `storeOk` and `saveOk`; a false value is the route's `catch`.
- **Embedding provider at start-up**: the boolean `embeddingOk`; a false value is the rejected index build, which leaves the store unset.
- **The history page's DELETE request**: the boolean `deleted`; a false value is the component's `catch`.

MongoDB ObjectIds are naturals, and dates are natural timestamps. An absent
JSON string field is `None` where the code tells absent from empty. Elsewhere
it is `""`, since both are falsy.

## Model

| member | source | states |
|---|---|---|
| Corpus.AdministrativeData | backend/routes/data.js:2-19 | Exactly three entries: passport, identity card, taxes, in that order. Each has a non-empty question and answer and exactly two tags. The first tags are "passeport", "cni" and "impôts". Entries 1 and 2 share "document officiel". |
| Corpus.FirstTagsDistinct | backend/routes/data.js:6-16 | The first tags are non-empty and pairwise distinct. |
| HistorySchema.ParseStatus | backend/models/History.js:25-28 | Only the three enumerated names parse, each to the status of that name. |
| HistorySchema.Create | backend/models/History.js:3-30 | Validation succeeds iff `userId` is present, `question`, `reponse` and `typeDemarche` are non-empty strings, and a given `statut` is one of the enumeration. Every given value is kept. `date` defaults to the creation time and `statut` to `en_cours`. A failure lists only failing paths. |
| HistorySchema.MissingRequiredFails | backend/models/History.js:4-24 | Leaving out any required field fails validation, and the error names that field. |
| HistoryRoutes.InsertByDate | backend/routes/history.js:14 | Inserting into a newest-first list keeps it newest first and adds exactly that record. |
| HistoryRoutes.SortNewestFirst | backend/routes/history.js:14 | `.sort({date: -1})`: the result is newest first and a permutation of its input. |
| HistoryRoutes.OwnedSnoc | backend/routes/history.js:13 | The owner filter over a table grown by one record grows by that record exactly when the caller owns it. |
| HistoryRoutes.Newest | backend/routes/history.js:13-15 | The listing holds only the caller's records, newest first, and at most 50: min(50, owned count). None is newer than a record it leaves out. |
| HistoryRoutes.RemoveAtIsUnmatched | backend/routes/history.js:50-53 | With unique ids, removing the one matching record is the same as removing every record that matches `{_id, userId}`. |
| HistoryRoutes.UnmatchedHasNoMatch | backend/routes/history.js:50-57 | After a deletion no record matches the filter any more. |
| HistoryRoutes.HistoryStore.Save | backend/routes/assistant.js:73-82 | `new History(...).save()`: appends exactly the validated record with defaults applied. A validation error or failing save leaves the table unchanged. |
| HistoryRoutes.HistoryStore.List | backend/routes/history.js:7-27 | On success the reply is the caller's newest-50 window; a failing query is the 500 reply. |
| HistoryRoutes.HistoryStore.Get | backend/routes/history.js:30-45 | A record is returned only if both its id and its owner match. The 404 is returned exactly when no record matches, whether absent or someone else's. The status is 200 exactly when the query succeeds and a record matches. A failure gives 500. |
| HistoryRoutes.HistoryStore.Delete | backend/routes/history.js:48-63 | If a record matches id and owner, exactly that record is removed and the table shrinks by one. Otherwise the same 404 is returned and nothing changes. A failure gives 500 and changes nothing. The status is 200 exactly when the table shrank by one. |
| HistoryRoutes.DeleteTwice | backend/routes/history.js:50-57 | Deleting the same id twice: the second call gives 404, and the table holds just the first call's result. |
| AssistantRoutes.IndexFrom | backend/routes/assistant.js:23-28 | One document per corpus entry, in order. Its text is the entry's answer, not its question. Its metadata is `{id: position + 1, question, tags}`. |
| AssistantRoutes.BuildIndex | backend/routes/assistant.js:22-34 | One document per knowledge-base entry, in order. The document at position i indexes entry i's answer and has metadata `{id: i + 1, question, tags}`. |
| AssistantRoutes.IndexedDocument | backend/routes/assistant.js:23-34 | Every indexed document is the entry its id names, with a non-empty text and a non-empty first tag. |
| AssistantRoutes.AssistantAnswer | backend/routes/assistant.js:57-61 | No result gives the "Désolé, …" text; otherwise the best match's text. The answer is non-empty whenever no result has an empty text. |
| AssistantRoutes.TypeDemarche | backend/routes/assistant.js:54-62 | The category is never empty. It is the best match's first tag when that is a non-empty string, and "administratif" otherwise, including when nothing matched. |
| AssistantRoutes.ResponseFor | backend/routes/assistant.js:57-92 | The answer sent is the answer logged. A reference is present exactly when something matched. A match gives its question, id and tags; no match gives the caller's question and no tags. |
| AssistantRoutes.HistoryInput | backend/routes/assistant.js:73-80 | The logged fields are the caller's id and question, the very answer sent back, the category, the request time and `terminee`. |
| AssistantRoutes.FallbackReply | backend/routes/assistant.js:53-92 | No result gives `{question: caller's question, answer: "Désolé, …", reference: null, tags: []}` and the category "administratif". |
| AssistantRoutes.CorpusMatch | backend/routes/assistant.js:59-69 | Only `results[0]` is used. The reply carries that entry's question, answer, 1-based reference and tags. The category is its first tag, never the default. |
| AssistantRoutes.AskRecordValid | backend/routes/assistant.js:73-80 | The record `/ask` builds passes the schema. It is owned by the caller, repeats the caller's question, logs exactly the answer sent back, and is `terminee`. |
| AssistantRoutes.SearchedAnswerNonEmpty | backend/routes/assistant.js:57-61 | With a search that returns index documents, the logged answer is never empty. |
| AssistantRoutes.Project | backend/routes/assistant.js:112-115 | `.map(item => ({question, tags}))`, entry by entry. |
| AssistantRoutes.ProjectPermutation | backend/routes/assistant.js:109-115 | Projecting permutations of each other gives permutations of each other. |
| AssistantRoutes.SuggestionsCoverCorpus | backend/routes/assistant.js:109-115 | With three entries and a cap of five, the suggestions are all three entries' questions and tags, in some order. |
| AssistantRoutes.Swap | backend/routes/assistant.js:110 | One swap of the in-place sort exchanges two cells and permutes the array. |
| AssistantRoutes.AssistantService.constructor | backend/routes/assistant.js:20-39 | The shared table starts in written order. The index is built from it when the embedding provider answers and stays unset otherwise. |
| AssistantRoutes.AssistantService.Ask | backend/routes/assistant.js:42-103 | A missing or empty question is a 400, with nothing searched or logged (white space alone is accepted). An unset store or failing search is a 500 with nothing logged. Otherwise exactly one record `HistoryInput(...)` is saved before the reply. A 200 reply happens iff that save succeeds, and it carries the synthesised response. A failing save is a 500 with no answer. The status is 200 exactly when the history grew by one record. |
| AssistantRoutes.AssistantService.Suggestions | backend/routes/assistant.js:106-121 | The shared table ends as a permutation of its old contents. The reply is the projection of its first min(5, length) entries. |
| AuthMiddleware.ExtractToken | backend/middleware/auth.js:5 | No header gives no token. A header without "Bearer " is kept whole. Otherwise the token is the header with its first "Bearer " cut out: the text before it followed by the text after it, seven characters shorter. |
| AuthMiddleware.PayloadUserId | backend/middleware/auth.js:20-24 | An id comes out exactly when the payload has a user and that user an id, and the payload's user is then exactly `{id}`. |
| AuthMiddleware.Gate | backend/middleware/auth.js:5-30 | "Accès non autorisé" iff the token is missing or empty. "Token invalide" iff verification fails or the payload lacks a truthy `user.id`. It lets the request through iff the token is non-empty, verifies, and its payload has a truthy `user.id`, and then as exactly that user. There is no other outcome. |
| AuthMiddleware.TokenRoundTrip | backend/middleware/auth.js:5 | Extracting from "Bearer " + t gives back t. |
| AuthMiddleware.FirstPrefixOnly | backend/middleware/auth.js:5 | Only the first occurrence of the prefix is removed. |
| AuthMiddleware.NoTokenRefused | backend/middleware/auth.js:5-12 | No header, and the bare "Bearer ", are both refused as a missing token. |
| AuthMiddleware.RawHeaderVerified | backend/middleware/auth.js:14-26 | A header without the prefix is verified as it stands. |
| AuthMiddleware.Authenticate | backend/middleware/auth.js:3-31 | On success `req.user` is exactly `{id}` and `next` runs once, with nothing sent. On every failure a 401 with the gate's message is sent, and neither `req.user` nor `next` is touched. |
| AuthRoutes.ViewIgnoresPassword | backend/routes/auth.js:12 | `select('-password')`: what is sent back does not depend on the stored password. |
| AuthRoutes.ViewSameIffOnlyPasswordDiffers | backend/routes/auth.js:12 | Two users are sent back alike exactly when they differ at most in their password, so every other field is kept. |
| AuthRoutes.Merge | backend/routes/auth.js:44-52 | Each of `nom`, `prenom` and `email` becomes the new value if non-empty and keeps the old one otherwise. A non-empty password is rehashed with the given salt and compares equal to the new hash; an empty one keeps the old hash. The id never changes. |
| AuthRoutes.MergeIdempotent | backend/routes/auth.js:44-52 | An all-empty update changes nothing. Repeating a password-less update changes nothing more. |
| AuthRoutes.IssuedTokenAccepted | backend/routes/auth.js:92-106 | The `{user: {id}}` payload of a token issued at any time, sent back as a bearer token, passes the gate as that user. |
| AuthRoutes.UpdateKeepsWellFormed | backend/routes/auth.js:36-46 | Writing back a user with its own id, and with its own email or a free one, keeps emails and ids unique. |
| AuthRoutes.UserTable.FindByEmail | backend/routes/auth.js:71 | `findOne({email})`: the position of a user with that email, or none exactly when no user has it. |
| AuthRoutes.UserTable.FindById | backend/routes/auth.js:29 | `findById`: the position of the user with that id, or none exactly when absent. |
| AuthRoutes.UserTable.Register | backend/routes/auth.js:66-111 | A taken email gives 400 "Cet utilisateur existe déjà" and leaves the table unchanged; the status is 400 exactly then, and 200 exactly when the email is free and the save succeeds. Otherwise exactly one user is added with the hashed password. The reply is a token for `{user: {id}}` signed at the request time plus the user without the password. Emails stay unique. |
| AuthRoutes.UserTable.Login | backend/routes/auth.js:114-158 | An unknown email and a wrong password get the same 400 "Identifiants invalides". The status is 200 exactly when a user has that email and the password compares. The reply is then a token for that user signed at the request time plus the user without the password. |
| AuthRoutes.UserTable.GetProfile | backend/routes/auth.js:9-23 | The user without the password, or 404 exactly when the id is absent. |
| AuthRoutes.UserTable.UpdateProfile | backend/routes/auth.js:26-63 | Unknown id gives 404. An email that differs from the user's own and belongs to someone gives 400. In both cases nothing changes. Otherwise only that user is replaced by the merge and returned without the password. Emails stay unique. |
| AuthRoutes.RegisterThenLogin | backend/routes/auth.js:66-158 | Registering a new email and then logging in with the same password both succeed and send back the same user. Both tokens are signed over the new user's id, each at its own request time. |
| HistoryComponent.FilteredHistory | frontend/src/components/History.js:101-104 | An item is kept iff the lowered term occurs in its lowered question or its lowered answer, with absent fields read as "". The result is an order-preserving subsequence that keeps every copy of a shown item and none of the others. |
| HistoryComponent.MentionsIffOccurs | frontend/src/components/History.js:102-103 | `includes` on the lowered field holds exactly when the lowered term occurs at some position. |
| HistoryComponent.EmptySearchKeepsAll | frontend/src/components/History.js:101-104 | An empty search term keeps the whole list. |
| HistoryComponent.SearchIgnoresCase | frontend/src/components/History.js:101-104 | A term and its lower-case form show the same items. |
| HistoryComponent.Without | frontend/src/components/History.js:62 | After a delete, exactly the items with another id remain, in order, each with all its copies. |
| HistoryComponent.WithoutAbsent | frontend/src/components/History.js:62 | Removing an id the list does not hold changes nothing. |
| HistoryComponent.StatusChip | frontend/src/components/History.js:69-83 | The label is "Erreur" exactly for status "error", and "Terminé" otherwise. |
| HistoryComponent.SchemaStatusesShowCompleted | frontend/src/components/History.js:83 | Every status the schema allows, `en_cours` included, shows the "Terminé" chip. |
| HistoryComponent.HistoryState.Visible | frontend/src/components/History.js:101 | The list on screen is a subsequence of the fetched history. |
| HistoryComponent.HistoryState.FetchHistory | frontend/src/components/History.js:39-53 | On success the list is the response. On failure the list stays and the load error is set. Either way loading ends. |
| HistoryComponent.HistoryState.HandleDelete | frontend/src/components/History.js:55-67 | On success the list loses exactly the items with that id, others in order. On failure the list stays and the delete error is set. |
| AssistantComponent.AnswerText | frontend/src/components/Assistant.js:52-54 | The text shown is never empty, and is the answer, the `reponse` or the fixed text. |
| AssistantComponent.AnswerFallbackChain | frontend/src/components/Assistant.js:52-54 | A non-empty `answer` wins, then a non-empty `reponse`, then "Je n'ai pas pu comprendre la réponse.". |
| AssistantComponent.ErrorText | frontend/src/components/Assistant.js:65-66 | The error text is the server's message when it is non-empty, and the fixed default exactly when the message is absent or empty; it is never empty. |
| AssistantComponent.ShowsServerAnswer | frontend/src/components/Assistant.js:52-60 | The page shows exactly the answer the backend sent and logged. |
| AssistantComponent.CanSendIffNotBlank | frontend/src/components/Assistant.js:134 | Send is enabled exactly when nothing is pending and the input is not all white space. |
| AssistantComponent.ChatState.Submit | frontend/src/components/Assistant.js:32-39 | White-space-only input changes nothing and sends nothing. Otherwise the untrimmed input is sent and appended as the user's message, the input is cleared, and loading starts. |
| AssistantComponent.ChatState.Receive | frontend/src/components/Assistant.js:41-70 | Exactly one message is appended: the assistant's answer text with the response, or the error text. Loading ends. |
| AssistantComponent.SubmitAndSettle | frontend/src/components/Assistant.js:32-71 | Earlier messages are never altered. A blank input adds nothing. Any other input adds the user's message and then one non-user reply. |
| Common.IncludesIffOccurs | frontend/src/components/History.js:102-103 | `s.includes(t)` holds exactly when `t` occurs in `s` at some position. |
| Common.IndexOf | backend/middleware/auth.js:5 | `indexOf` finds the first occurrence, or there is none. |
| Common.TrimEmptyIffBlank | frontend/src/components/Assistant.js:34 | `!s.trim()` holds exactly for strings made only of white space. |
| Common.Filter | frontend/src/components/History.js:62 | `filter` keeps exactly the elements that pass, in order. |
| Common.FilterCounts | frontend/src/components/History.js:62 | `filter` keeps every copy of an element that passes and no copy of any other. |

## Left out

- Embedding computation and similarity ranking. The search is an oracle returning documents, or failing. No ranking property is claimed.
- The start-up race between the asynchronous index build and early requests. The build runs in the constructor, and a failed build leaves the store unset for good, as in the code.
- `Math.random` in the suggestions sort. Its effect is a caller-chosen sequence of exchanges, so any permutation is reachable. The model does not claim which order results.
- `bcrypt` internals: an ideal hash stands in for them, so a password compares equal to its own hash and to no other by construction of `Compare`.
- `jwt.sign`/`jwt.verify` internals. A token also carries its issue time and the 24-hour expiry; the signer takes the request time, so two tokens for one user may differ, and an expired token is one `verify` refuses. Expiry itself is not modelled.
- The `throw err` inside the `jwt.sign` callback is not modelled. It escapes the route's `try`, and signing is taken to succeed.
- MongoDB I/O, `connectDB`, the server wiring and the `console` logging. Database calls are an in-memory table whose failures are boolean parameters.
- The 500 paths of GET/PUT `/profile` and `/login` other than a failing save. A malformed `:id` (a CastError) is not modelled either, since ids are naturals.
- backend/models/User.js is not part of this model. Its validators are unknown, so a save it would refuse is the `saveOk = false` path.
- Absent request-body fields in the account routes. Mongoose drops `undefined` filter keys, so `findOne({email: undefined})` would match any user. The model takes every body field as a string.
- Concurrent requests, such as two registrations of one email racing.
- Unicode case mapping: `toLowerCase` is modelled on ASCII letters only.
- React rendering, scrolling, navigation and date formatting. The other components (login, registration, profile, layout) are not part of this model.
- HistoryComponent.StatusChip: status strings that name `Object.prototype` members (such as "toString") are not modelled. They would give a chip without a label.
- HistoryRoutes.HistoryStore.List: MongoDB leaves the order of equal dates unspecified, so the contract fixes the window and its newest-first order but not the order among ties.
- HistoryComponent.HistoryState.HandleDelete: the code filters the `history` captured when the page last rendered (History.js:62 uses no functional update), so two deletes in flight at once can bring back the item the first one removed. The model runs each delete against the current list.
