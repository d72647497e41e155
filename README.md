# User service core, in Dafny

A model of the user-management core of a small Go REST API, built on Fiber and MongoDB, together with proofs about it. The model covers:
- the recognizer that decides whether a lookup key is an email;
- the user repository over a collection of documents:
  - lookup by email or by object id;
  - insert, partial update and delete;
  - the paginated, searchable listing;
- the user record, its request bodies and their declared constraints;
- the public JSON view of a user, which hides the password hash;
- construction of a new user;
- the HTTP handlers of the user routes:
  - the query defaults and paginator of the listing;
  - the early-exit ladder of login;
  - logout;
  - the pass-through of store errors in create, update and delete.

The files:
- `wrappers.dfy`: `Option`, `Result` and `Outcome`.
- `go_int.dfy`: Go's 64-bit `int`, written out.
  - Arithmetic wraps around (`Wrap64`).
  - `strconv.Atoi` has its error discarded. A well-formed number out of range reads as the nearest bound. A malformed string reads as 0, unless its leading digits already exceed 2^64-1 before the first stray character: then it reads as the bound of its sign, as the library's digit loop reports the overflow first. `Atoi` is proved equal to a transcription of that library loop (`StrconvAtoi`).
- `ascii.dfy`: ASCII case folding and the case-insensitive substring test used by the search.
- `object_id.dfy`: the 12-byte object id of MongoDB.
  - `ObjectIDFromHex` accepts exactly 24 hexadecimal digits, in either case.
  - `Hex` writes 24 lower-case digits.
- `validator.dfy`: the anchored email pattern, written as a recognizer. It is proved equal to the pattern's language.
- `user_types.dfy`: the `User` record and the three inputs, with the validation tags as a schema of rules. Also the JSON view, the decoding of an update body, and `NewUser`.
- `bson_order.dfy`: the database's order on the values a user document holds, and a descending sort on it.
- `user_store.dfy`:
  - pure functions stating each store operation on the collection, with lemmas about them;
  - the class `UserStore`, which holds the collection and performs the operations against those functions.
- `user_handler.dfy`:
  - the handlers;
  - the login ladder as a function (`LoginDecision`), and the method that performs it against the store and a `Session` object.

Time, hashing, password checking, token signing, the email tag of the validation library, and the session backend's failures are all parameters. The id the driver generates for a new document is also a parameter.

`IsEmail` and the other non-ghost functions read no state. Their results depend on their arguments alone.

Some behaviour of the code is easy to misread; the model follows the code:
- An update of an identifier that matches no document succeeds and changes nothing. The match count of `UpdateOne` is never looked at (db/user_store.go:79-84).
- A delete of an absent identifier succeeds.
- A stored document keeps its timestamps to the millisecond, which is the BSON datetime's resolution. The sign-up response shows the full instant, and a later lookup shows the stored one (`Db.Stored`).
- The server refuses a `$sort` key that is not a field path. The whole listing request then fails (`InvalidSortField`).
- Login answers a failed lookup with 404 "User not found" and a wrong password with 401 "Invalid credentials". It does not merge the two.
- Handlers that return an error give it to the framework (`Failed`); they do not pick a status code. The application's error handler renders every such error as `{"error": ...}` (main.go:48-50).

## Model

| member | source | states |
|---|---|---|
| Utils.IsEmailIffPattern | utils/validator.go:5-9 | the recognizer accepts a string exactly when the whole string is a local part of `[A-Za-z0-9._%+-]`, '@', a domain of `[A-Za-z0-9.-]`, '.', and two or more ASCII letters (both anchors) |
| Utils.CanonicalSplit | utils/validator.go:7 | an accepted string matches the pattern with its first '@' and its last '.' as the separators |
| Utils.SplitIsCanonical | utils/validator.go:7 | every way of matching the pattern uses the first '@' and the last '.', and the recognizer accepts the string |
| Utils.EmailHasOneAt | utils/validator.go:7 | an accepted string holds exactly one '@' |
| Utils.EmailEndsInLetters | utils/validator.go:7 | in an accepted string the last '.' comes after the '@' and is followed by two or more letters and nothing else |
| Utils.EmailAlphabet | utils/validator.go:7 | every character of an accepted string is a local-part character or the '@' |
| Utils.IsEmail | utils/validator.go:5-9 | an accepted string is at least six characters long |
| Utils.CheckEmail | utils/validator.go:5-9 | the answer is true exactly when the string matches the email pattern |
| Utils.EmailRejects | utils/validator.go:7 | the empty string, a string with a space, tab, CR or LF, and a string that starts or ends with '@' are all rejected |
| GoInt.Wrap64 | db/user_store.go:121 | Go's wrapping `int` arithmetic: the identity in range, and congruent to the exact value modulo 2^64 |
| GoInt.Atoi | handlers/user_handler.go:143-144 | an optionally signed run of digits reads as its value clamped to 64 bits; a string whose leading digits exceed 2^64-1 reads as the bound of its sign; any other string, the empty one included, reads as 0 |
| GoInt.AtoiIsStrconv | handlers/user_handler.go:143-144 | the model of `Atoi` agrees on every string with a transcription of the library's fast path and digit loop |
| GoInt.OverflowBeforeJunk | handlers/user_handler.go:143-144 | digits worth more than 2^64-1 followed by a non-digit read as the largest `int`, not as 0 |
| GoInt.AtoiDecimal | handlers/user_handler.go:143-144 | the decimal spelling of every non-negative 64-bit value reads back as that value |
| GoInt.AtoiNegativeDecimal | handlers/user_handler.go:143-144 | a minus sign and the decimal spelling of n up to 2^63 read back as -n |
| GoInt.AtoiSaturates | handlers/user_handler.go:143-144 | a decimal number too large for 64 bits reads as the largest `int` |
| Ascii.ContainsFold | db/user_store.go:107-109 | a query that occurs ignoring case is no longer than the text |
| Ascii.ContainsFoldIff | db/user_store.go:107-109 | the search test holds exactly when the query occurs somewhere in the text, ignoring ASCII case |
| Ascii.ContainsEmpty | db/user_store.go:104 | the empty query occurs in every text |
| ObjectIds.ObjectIdFromHex | db/user_store.go:44-47 | an identifier string parses exactly when it is 24 hexadecimal digits |
| ObjectIds.DecodeHexAccepts | db/user_store.go:44 | hex decoding succeeds exactly on even-length strings of hexadecimal digits |
| ObjectIds.ParseHex | handlers/user_handler.go:105 | parsing the hexadecimal spelling of an id gives back the id |
| ObjectIds.HexParse | db/user_store.go:44 | the spelling of a parsed id is the parsed string in lower case |
| ObjectIds.SameIdIffSameLower | db/user_store.go:44 | two accepted strings denote the same id exactly when they agree up to ASCII case |
| ObjectIds.HexIsHexDigits | handlers/user_handler.go:115 | the spelling of an id is accepted by the parser and is already lower case |
| Types.ValidCreateUserInput | types/user.go:14-19 | a sign-up body is valid exactly when both names are 3 to 32 characters, the email is present and passes the email tag, and the password is 6 to 64 characters |
| Types.ValidLoginInput | types/user.go:21-24 | a login body is valid exactly when the email is present and passes the email tag, and the password is non-empty |
| Types.PublicJson | types/user.go:32-40 | the JSON view has exactly the keys id, firstname, lastname, email, created_at and updated_at, and never encrypted_password |
| Types.PublicJsonHidesHash | types/user.go:37 | the JSON view does not depend on the password hash |
| Types.PublicJsonDeterminesTheRest | types/user.go:32-40 | two users with the same view differ at most in their hashes |
| Types.DecodeUpdateUserInput | types/user.go:26-30 | an update body yields the two names (empty when missing) and keeps the zero time as the update time |
| Types.UpdatedAtIsNotClientSupplied | types/user.go:29 | a client's `updated_at` key makes no difference to the decoded update |
| Types.NewUser | types/user.go:42-58 | names and email are copied unchanged, the hash takes the password's place, both timestamps are the same instant, and the id is unset; there is no user when hashing fails |
| Types.NewUserVerifies | types/user.go:45 | given only that a password checks against its own hash, the stored hash checks against the sign-up password |
| Types.NewUserKeepsOnlyHash | types/user.go:45-54 | the built user depends on the password only through its hash |
| BsonOrder.KeyOf | db/user_store.go:115-118 | a sort key is missing exactly when the path names none of the seven stored fields |
| BsonOrder.KeyLe | db/user_store.go:115-118 | the sort order is reflexive |
| BsonOrder.KeyLeAntisym | db/user_store.go:115-118 | two keys that are each at most the other are equal |
| BsonOrder.KeyLeTotal | db/user_store.go:115-118 | the sort order compares any two values |
| BsonOrder.KeyLeTrans | db/user_store.go:115-118 | the sort order is transitive |
| BsonOrder.InsertDesc | db/user_store.go:128 | inserting into a descending sequence gives a descending permutation of it plus the new document |
| BsonOrder.SortDesc | db/user_store.go:128 | the `$sort` stage with direction -1 yields a descending permutation of its input |
| Db.BsonTime | db/user_store.go:61 | the stored instant is the largest whole millisecond not after the given one; it equals the given one exactly when that is a whole millisecond |
| Db.Stored | db/user_store.go:61 | the written document has both timestamps cut to the millisecond and every other field unchanged; it equals the given one exactly when both instants are whole milliseconds |
| Db.FirstMatch | db/user_store.go:52 | a single-document query takes the first matching document, and none before it matches |
| Db.EmailIsNeverObjectIdHex | db/user_store.go:40-44 | no email-shaped string is 24 hexadecimal digits |
| Db.Classify | db/user_store.go:39-49 | an email is looked up by email and never parsed; any other key is looked up by id exactly when it parses, otherwise the error is an invalid id |
| Db.FindUser | db/user_store.go:36-58 | a found user is in the collection and carries the email or the id spelled by the key; by email, a user is found exactly when one has that email; a key that is neither an email nor an id fails with an invalid id |
| Db.RejectedBeforeQuery | db/user_store.go:43-47 | a key that is neither an email nor an id fails the same way whatever the collection holds |
| Db.FindById | db/user_store.go:44-52 | with unique ids, any spelling of an id, in either case, finds that document |
| Db.InsertOne | db/user_store.go:60-68 | the record is returned with its id (the generated one when unset) and its instants exact; the stored document, appended, has them cut to the millisecond; a duplicate id is refused and leaves the collection as is; unique ids are kept |
| Db.ApplyUpdate | db/user_store.go:77-79 | a name is replaced only by a non-empty one, the update time is always set to the millisecond of the given instant, and all other fields are unchanged |
| Db.UpdateOne | db/user_store.go:79 | the length and all ids stay the same, only a document with the id changes, and with no such document nothing changes |
| Db.UpdateOneExact | db/user_store.go:79 | with unique ids, exactly the document with the id receives the update |
| Db.DeleteOne | db/user_store.go:93-98 | at most one document goes, every document with another id stays, with no match nothing changes, and with unique ids none with that id is left |
| Db.DeleteOneIdempotent | db/user_store.go:93-98 | deleting twice is the same as deleting once |
| Db.DeleteOneRemovesOnly | db/user_store.go:93 | with unique ids, deleting leaves exactly the documents with other ids, in order |
| Db.MatchesSearchMeans | db/user_store.go:103-112 | an empty query matches every document; any other query matches when it occurs in the first name, the last name or the email, ignoring ASCII case |
| Db.MatchesSearch | db/user_store.go:103-112 | the empty query matches every document; a non-empty query that matches is no longer than one of the three searched fields |
| Db.Matched | db/user_store.go:103-125 | the `$match` stage keeps exactly the matching documents, none more, and keeps all of them under the empty query |
| Db.MatchedCounts | db/user_store.go:103-125 | the `$match` stage keeps each matching document exactly as many times as the collection holds it, and no other document |
| Db.SortPaths | db/user_store.go:115-118 | "created_at", "name" and "address.$id" are accepted sort keys; "", "$x", "a." and "a..b" are refused |
| Db.SortFieldOf | db/user_store.go:115-118 | the sort key is the named field, or "created_at" when none is named; it is accepted exactly when no field is named or the named one is accepted |
| Db.Skip | db/user_store.go:121 | the skip is the 64-bit value congruent to `(page-1)*pageSize` modulo 2^64 |
| Db.SkipIsEarlierPages | db/user_store.go:121 | without overflow the skip is `(page-1)*pageSize` |
| Db.Ranked | db/user_store.go:115-128 | the matches, sorted: a descending permutation of the matched set |
| Db.Pipeline | db/user_store.go:121-158 | served exactly for an accepted sort key, a non-negative skip and a positive limit, and otherwise refused with `InvalidSortField` before `InvalidPagination`; the total counts the matches; the page is the slice of the sorted matches at the skip, of at most the limit |
| Db.PipelinePageSize | db/user_store.go:128 | a page holds at most `limit` documents and at most the total |
| Db.PipelinePage | db/user_store.go:124-128 | every document of a page matches the search and is in the collection, and the page is descending |
| Db.GetUsers | db/user_store.go:101-158 | served exactly when the sort key is accepted, the wrapped skip is non-negative and the page size positive; then the total counts the matches and the page holds at most `pageSize` documents |
| Db.SortOrderIgnored | db/user_store.go:101-118 | the requested sort order never affects the result |
| Db.GetUsersSortsDescending | db/user_store.go:115-118 | a page is descending on the named field, or on `created_at` when none is named |
| Db.GetUsersServed | db/user_store.go:121-128 | without overflow, with a positive page size, a request is served exactly when the page is at least 1 and the sort key is absent or accepted |
| Db.GetUsersPage | db/user_store.go:121-158 | without overflow, the page is the slice of the sorted matches starting at `(page-1)*pageSize`, at most `pageSize` long, with the count of all matches as total |
| Db.EarlierPagesSkipped | db/user_store.go:121 | without overflow, the listing is the pipeline at skip `(page-1)*pageSize` |
| Db.SkipBelowFirstPage | db/user_store.go:121 | without overflow, a page below 1 gives a negative skip |
| Db.TotalIndependentOfPage | db/user_store.go:124-158 | the total does not depend on the page |
| Db.PageZeroRefused | db/user_store.go:121-128 | page 0 is refused, with `InvalidPagination` when the sort key is accepted |
| Db.SortFieldRefused | db/user_store.go:115-133 | a named sort key the server refuses fails the request with `InvalidSortField`, whatever the page |
| Db.PastTheEndIsEmpty | db/user_store.go:121-128 | a page starting at or past the last match is empty, with the full total |
| Db.CreateThenFind | db/user_store.go:36-68 | a created user is found again by the spelling of its new id, as stored: with its instants cut to the millisecond |
| Db.UserStore.constructor | db/user_store.go:28-34 | a new store holds the collection it is given, whose ids are unique and whose instants are whole milliseconds; create, update and delete keep both properties |
| Db.UserStore.GetUser | db/user_store.go:36-58 | returns what `FindUser` states of the current collection |
| Db.UserStore.CreateUser | db/user_store.go:60-69 | performs `InsertOne` on the collection and returns its result; ids stay unique |
| Db.UserStore.UpdateUser | db/user_store.go:71-85 | fails exactly for an unparseable id, with the collection unchanged; otherwise performs `UpdateOne` with the update time set to now |
| Db.UserStore.DeleteUser | db/user_store.go:87-99 | fails exactly for an unparseable id, with the collection unchanged; otherwise performs `DeleteOne` |
| Db.UserStore.GetUsers | db/user_store.go:101-159 | returns the pipeline over the current collection with the default sort field and the wrapping skip |
| Handlers.HandleGetUser | handlers/user_handler.go:27-36 | the store's error is passed on unchanged; otherwise 200 with the public view of the user the key names, which is in the collection, without the hash |
| Handlers.ParseListQuery | handlers/user_handler.go:143-147 | an absent or empty parameter gives page 1, size 10, sort field "name", order "asc" and no search; a given page or page size is what `Atoi` reads from it |
| Handlers.QueryOr | handlers/user_handler.go:143-147 | a query parameter's value, or the default when it is absent or empty |
| Handlers.EmptyParameterIsDefault | handlers/user_handler.go:143-147 | an empty parameter counts as an absent one |
| Handlers.NonNumericIsZero | handlers/user_handler.go:143-144 | a page or page size that is given, is not numeric and does not overflow in its leading digits reads as 0 |
| Handlers.NonNumericPageRefused | handlers/user_handler.go:143-152 | such a non-numeric page is always refused, with `InvalidPagination` when the sort key is accepted, and the refusal is passed on |
| Handlers.OverflowingPageServed | handlers/user_handler.go:143-152 | a non-numeric page whose leading digits exceed 2^64-1, as in "99999999999999999999x", reads as the largest `int`, and with page size 1 and an accepted sort key the request is served |
| Handlers.Paginator | handlers/user_handler.go:154-159 | the paginator has exactly the four keys, echoing page, page size and total, with `has_next` |
| Handlers.Results | handlers/user_handler.go:162 | the results are the public views of the page's documents, in order |
| Handlers.HandleGetUsers | handlers/user_handler.go:139-167 | the store's error is passed on unchanged; otherwise 200 with exactly the results and the paginator of the parsed query |
| Handlers.HasNext | handlers/user_handler.go:156 | without overflow, `has_next` holds exactly when `page*pageSize < total` |
| Handlers.HasNextIffNextPageNonEmpty | handlers/user_handler.go:156 | without overflow, `has_next` holds exactly when the next page is non-empty |
| Handlers.HasNextOverflow | handlers/user_handler.go:156 | page 2^62 of size 2 is served empty over an empty collection, yet `has_next` is true: the product wraps |
| Handlers.PaginatorEchoes | handlers/user_handler.go:154-159 | the paginator repeats the parsed page and page size and the store's total, which counts the matches |
| Handlers.DefaultListing | handlers/user_handler.go:139-167 | with no parameters the response lists the first ten sorted documents, with `has_next` exactly when there are more than ten |
| Handlers.TokenClaims | utils/auth.go:16-22 | the token claims the user id and, as the expiry, the Unix second of the instant 72 hours after now, which is 259200 seconds after now's second |
| Handlers.LoginDecision | handlers/user_handler.go:73-122 | the session is written only after a token is signed, and with that token's user id; success (200 with the token) happens exactly when the session is written; a token is requested only for a valid body whose user is found and whose password checks |
| Handlers.LoginValidatesFirst | handlers/user_handler.go:79-87 | a body that does not parse (400) or does not validate (error passed on) is answered the same whatever the collection holds, with no token and no session write |
| Handlers.LoginRejects | handlers/user_handler.go:92-102 | any lookup error answers 404 "User not found", and a wrong password 401 "Invalid credentials"; neither requests a token or writes the session |
| Handlers.LoginSucceeds | handlers/user_handler.go:100-121 | on success the token and the session both name a user of the collection with that email, against whose hash the password checks |
| Handlers.SignUpThenLogin | handlers/user_handler.go:73-122 | after signing up with a fresh email, logging in with the same email and password writes the new id to the session |
| Handlers.HandleLogin | handlers/user_handler.go:73-122 | answers as `LoginDecision` and sets `user_id` in the session exactly when the decision writes it |
| Handlers.Session.HandleLogout | handlers/user_handler.go:124-137 | the session is emptied and 200 is answered, or 500 "Internal server error" when it cannot be loaded or destroyed, with the session unchanged |
| Handlers.HandleDeleteUser | handlers/user_handler.go:38-47 | the confirmation is returned exactly when the store does not fail, and the store's error is passed on unchanged |
| Handlers.HandleUpdateUser | handlers/user_handler.go:49-71 | a body that does not parse fails with nothing changed; otherwise the confirmation is returned exactly when the store does not fail, and the store's error is passed on unchanged |
| Handlers.HandleCreateUser | handlers/user_handler.go:169-193 | parse, validate, hash and insert, in that order; the first failure is returned; on success the public view of the inserted user is returned |
| Handlers.LoginLastSteps | handlers/user_handler.go:104-121 | for a valid body whose user is found and whose password checks: a failed signing answers 500 "Could not generate token"; a session that cannot be loaded or saved hands its error to the framework; otherwise 200 with the token, and the user's id is written to the session |
| Handlers.CreatedUserIsServed | handlers/user_handler.go:169-193 | a later lookup by the new id answers the public view of the stored user; it equals the sign-up response exactly when the sign-up instant is a whole millisecond (as values; the rendered text also depends on the time zone, see Types.PublicJson under Left out) |

## Left out

- Network I/O, Fiber's request context, the MongoDB driver and connection, flag parsing and the route wiring in main.go are left out. So is the JWT middleware; for the record, `GET /users/:id` and `GET /users` are the token-gated routes (main.go:54, 58).
- Request bodies arrive already decoded, as `Option` values (`None` when the body does not parse). Fiber's JSON decoding, including its case-insensitive matching of keys, is not modelled.
- Ascii.ContainsFoldIff: the search query is a MongoDB regular expression with the `i` option. The model treats it as a literal, matched as an ASCII case-insensitive substring. Regex metacharacters and non-ASCII case folding are not modelled.
- Db.Pipeline: the server's reaction to a negative `$skip` or a `$limit` below 1 is not visible in the code. The model assumes it answers with an error (`InvalidPagination`), which the store passes on.
- Db.Pipeline: a sort key that is a valid path but does not name a field of a user document, such as "name" or "a.b", is missing in every document, which makes them all ties. The order among ties is that of this model's insertion sort. Every page of a listing is a slice of that one sorted sequence, so the model's pages never overlap or miss a document. The server promises no order among ties, and not the same order from one request to the next, so its pages can overlap or miss documents when keys tie.
- Db.Pipeline: the field-path rules are the common core of the server's checks. Further `$`-prefixed names that some server versions tolerate, and limits on a path's depth or length, are not modelled.
- Db.Pipeline: the whole aggregate is a single step. Cancellation contexts, concurrent writers and atomicity are not modelled.
- Db.UserStore.UpdateUser: `time.Now()` is the parameter `now`. Likewise in `NewUser` and in token signing.
- Types.NewUser: bcrypt is abstract, as `Hasher` and `check`. The only assumption made about it is that a password checks against its own hash (`ChecksOwnHash`). The cost factor 12 is not modelled.
- Handlers.HandleLogin: the JWT signature and its secret are abstract, as `Signer`. Whether the session can be loaded and saved is a pair of booleans. After a failed save the model writes nothing to the session.
- Types.ValidCreateUserInput: the validation library's `email` tag is a separate, foreign check, passed in as `emailFormat`. It is not equated with `IsEmail`.
- ObjectIds.ObjectIdFromHex: the rule "exactly 24 hexadecimal digits" is the driver's, taken as an assumption. The single error `InvalidHex` stands for both of the driver's errors, the one for a wrong length and the hex decoder's one for a bad digit, whose messages differ.
- GoInt.Atoi: the library's fast path counts bytes and the model counts characters. The two are the same on ASCII input. On other input both paths agree: 0, or the bound of the sign when the leading digits exceed 2^64-1.
- Types.PublicJson: a time is rendered by its instant alone. Its time zone and the RFC 3339 text are not modelled.
- Handlers.HasNext: the wrap-around of `page*pageSize` is modelled as Go computes it and is not corrected. `HasNextOverflow` shows its effect.
- config/config.go and utils/auth.go are not part of this model beyond the token claims. types/room.go and types/hotel.go are not part of this model either.
