# message-atul-backend: a Dafny model of the chat core

This project models the core of a small chat backend written in TypeScript on
Express, Mongoose and zod. The model covers:

- direct conversations, created idempotently by participant set;
- messages, with their content-or-attachments rule, sent to a conversation and moving its last-message pointer;
- registration and login by email;
- the bearer-token middleware;
- user search;
- the zod request schemas;
- the pure helpers of the media service;
- the media settings derived from the environment;
- the error middleware.

The document store is a class (`Store.Database`) holding the user,
conversation and message collections as sequences in insertion order, and a
counter that hands out fresh identifiers. Every service operation that changes
the store is a method on it. Its `ensures` ties the result and the new store to
a pure function over a snapshot (`State`): `CreateDirect`, `Send` or
`Register`. The lemmas about the service are proved about those functions:
- outcomes and error cases;
- idempotence;
- preservation of the store invariant `Valid`;
- register-then-login.

Read-only queries are functions over the collections. Where the source leaves
the order of a sort unspecified, the store's `sort({ field: -1 })` is a stable
insertion sort (`Ordering.SortDesc`).

Password hashing and comparison, token signing and verification, and zod's URL
check are function-typed parameters. Clock readings, random identifiers and
`path.extname` results are plain parameters. The regular expressions of the
schemas are written out as predicates. The case-insensitive `$regex` of the
user search is a case-insensitive substring test.

The user search builds a phone-number clause from the query's digits, but the
connection sets `strictQuery` (`src/config/mongo.ts:5`) and the user schema
(`src/models/User.ts:13-20`) has no `phoneNumber` path. Mongoose's cast removes
that clause from the filter before it reaches the store. `UserService.CastCriteria`
models this cast, and the search matches on display name only.

On four points the model follows the code where a natural reading of the
design would differ:
- message content is not trimmed by its schema, so `"   "` is valid content;
- the document store's own validation error has no `status` and so becomes a 500, not a 4xx;
- the phone rule's "at least 10 digits" counts characters, not digits;
- a user is never found by phone number, because the cast drops the phone clause.

## Model

| member | source | states |
|---|---|---|
| ConversationService.Participants | src/services/conversation.service.ts:6-12 | the caller comes first, no id occurs twice, and the members are exactly the caller and the given ids |
| ConversationService.Dedup | src/services/conversation.service.ts:6-12 | the Set order: duplicate-free, the same members as the input, first element kept |
| ConversationService.DedupKeepsFirstOccurrenceOrder | src/services/conversation.service.ts:6-12 | elements appear in the order of their first occurrence in the input |
| ConversationService.UniqueInOrder | src/services/conversation.service.ts:6-12 | the loop that builds the Set and reads it back equals Dedup |
| ConversationService.TooFewParticipantsIff | src/services/conversation.service.ts:12-16 | fewer than two participants exactly when every given id is the caller's |
| ConversationService.CreateDirect | src/services/conversation.service.ts:5-30 | defines creation on a store snapshot; its properties are CreateFailsIffOnlyCaller, CreateReturnsExisting, CreateInsertsOne, CreateIdempotent and CreatePreservesValid |
| ConversationService.CreateDirectConversation | src/services/conversation.service.ts:5-30 | the method's result and new store are those of CreateDirect on the old store |
| ConversationService.CreateFailsIffOnlyCaller | src/services/conversation.service.ts:14-16 | fails exactly when only the caller takes part; the failure is 400 and the store is unchanged |
| ConversationService.CreateReturnsExisting | src/services/conversation.service.ts:18-24 | a stored conversation of the same size containing every id is returned and the store is unchanged |
| ConversationService.CreateInsertsOne | src/services/conversation.service.ts:26-29 | otherwise exactly one conversation is appended, with the deduplicated list, a fresh id and lastMessageAt set, and nothing else changes |
| ConversationService.SameElementsSameLength | src/services/conversation.service.ts:18-20 | duplicate-free lists with the same members have the same length |
| ConversationService.MatchesDependsOnSet | src/services/conversation.service.ts:18-20 | for duplicate-free lists the $size/$all query depends only on the set of ids |
| ConversationService.CreateIdempotent | src/services/conversation.service.ts:18-29 | a second call with the same ids in any order, by either party and at any time, returns the same result and changes nothing |
| ConversationService.CreateLeavesOneMatching | src/services/conversation.service.ts:18-29 | after a successful call, exactly one conversation with that participant set is stored if there was none before |
| ConversationService.CreatePreservesValid | src/services/conversation.service.ts:26-29 | creation keeps unique ids, duplicate-free participant lists and unique emails |
| ConversationService.GetConversationById | src/services/conversation.service.ts:45-71 | 404 exactly when no conversation has the id; 403 or the stored conversation itself, with the requester among its participants |
| ConversationService.GetConversationByIdExact | src/services/conversation.service.ts:54-70 | with unique ids the answer is the one conversation with that id, or 403 when the requester is not in it |
| ConversationService.GetConversationsForUser | src/services/conversation.service.ts:32-43 | exactly the stored conversations containing the user, with multiplicity, in descending updatedAt order |
| ConversationService.GetRecentMessages | src/services/conversation.service.ts:73-79 | only that conversation's messages, newest first, as many as the limit allows (50 by default, 0 meaning no limit); no message returned more often than it is stored; all of them when the limit does not cut; none left out is newer than one returned |
| Ordering.InsertDescMultiset | src/services/conversation.service.ts:40 | insertion adds the one element and nothing else |
| Ordering.InsertDescSorted | src/services/conversation.service.ts:40 | insertion into a descending sequence keeps it descending |
| Ordering.SortDescCorrect | src/services/conversation.service.ts:40 | the sort is in descending key order and a permutation of its input |
| Ordering.Newest | src/services/conversation.service.ts:76-77 | sort then limit: the length, the order, a sub-multiset of the input (the whole input when the limit does not cut), and no element left out has a greater key than one kept |
| MessageModel.FailingPaths | src/models/Message.ts:14-22 | conversation and sender fail when missing; content fails exactly when it is empty and there are no attachments |
| MessageModel.Create | src/models/Message.ts:12-29 | accepted exactly when conversation and sender are set and content or attachments are non-empty; defaults "" and []; both timestamps set; otherwise a validation error naming the failing paths |
| MessageModel.NonEmptyContentAccepted | src/models/Message.ts:16-22 | non-empty content is valid whatever the attachments |
| MessageModel.EmptyMessageRefused | src/models/Message.ts:17-21 | empty or missing content with no attachments fails on the content path |
| MessageModel.AttachmentsMakeContentOptional | src/models/Message.ts:19-26 | with at least one attachment, empty content is valid |
| MessageService.Send | src/services/message.service.ts:6-36 | defines sending on a store snapshot; its properties are SendOutcome, SendToUnknownConversation, SendByOutsider, SendByParticipant, SendEmptyMessage and SendPreservesValid |
| MessageService.SendMessage | src/services/message.service.ts:6-36 | the method's result and new store are those of Send on the old store |
| MessageService.SendOutcome | src/services/message.service.ts:12-33 | every failure leaves the store unchanged; a success appends exactly one valid message with a fresh id and touches no user |
| MessageService.SendToUnknownConversation | src/services/message.service.ts:12-16 | an unknown conversation id gives 404 and nothing is written |
| MessageService.SendByOutsider | src/services/message.service.ts:18-22 | a sender who is not a participant gets 403 and nothing is written |
| MessageService.SendByParticipant | src/services/message.service.ts:24-33 | the message holds the given conversation, sender, content and attachments (default []); its conversation, and no other, points at it with lastMessageAt equal to its createdAt |
| MessageService.SendEmptyMessage | src/services/message.service.ts:24-29 | empty content without attachments fails the schema before the pointer moves; nothing is written |
| MessageService.SendPreservesValid | src/services/message.service.ts:24-33 | sending keeps the store invariant |
| AuthService.Sanitize | src/services/auth.service.ts:6-12 | the public user; its property is SanitizeHidesSecrets |
| AuthService.SanitizeHidesSecrets | src/services/auth.service.ts:6-12 | the public user does not depend on the password hash or the phone number |
| AuthService.NormalizeEmail | src/models/User.ts:15 | the email setters trim and lowercase; its property is NormalizeEmailIdempotent |
| AuthService.NormalizeEmailIdempotent | src/models/User.ts:15 | the email setters (trim, lowercase) are idempotent, so a stored email finds its user again |
| AuthService.MissingUserPaths | src/models/User.ts:15-18 | no path fails exactly when email, display name and password hash are all non-empty |
| AuthService.Register | src/services/auth.service.ts:14-36 | defines registration on a store snapshot; its properties are RegisterConflictIff, RegisterCreatesUser, RegisterPreservesValid and RegisterThenLogin |
| AuthService.RegisterUser | src/services/auth.service.ts:14-36 | the method's result and new store are those of Register on the old store |
| Store.UserByEmail | src/services/auth.service.ts:20 | findOne({ email }) finds nothing exactly when no user has the email; with unique emails it finds the one user that has it |
| AuthService.RegisterConflictIff | src/services/auth.service.ts:20-24 | 409 "Email already registered" exactly when a stored user has the email; failures change nothing |
| AuthService.RegisterCreatesUser | src/services/auth.service.ts:26-35 | one user is stored, with the normalized email, the trimmed name and hash(password); the session is the sanitized user with the token signed for its id at the registration's second |
| AuthService.RegisterPreservesValid | src/services/auth.service.ts:20-31 | registration keeps the invariant, email uniqueness included |
| AuthService.Login | src/services/auth.service.ts:38-54 | defines login; its properties are LoginOutcome and RegisterThenLogin |
| AuthService.LoginOutcome | src/services/auth.service.ts:38-54 | every failure is the same 401 "Invalid credentials"; success exactly when a user has the email and compare accepts the password; the session is that user's, with the token signed for its id at the login's second |
| AuthService.RegisterThenLogin | src/services/auth.service.ts:26-53 | after registering, logging in with the same email (up to case and surrounding blanks) and password succeeds as the new user at any later second, given compare(p, hash(p)); the token is the one signed for the new id at the login's second, and equals the registration's only when both are signed in the same second |
| Authenticate.NoBearerHeader | src/middlewares/authenticate.ts:9-12 | a missing header, or one not starting with "Bearer ", gives 401 "Missing authorization header" and no token is verified |
| Authenticate.TokenIsRestOfHeader | src/middlewares/authenticate.ts:15 | the token verified is the header without its leading "Bearer " |
| Authenticate.Decide | src/middlewares/authenticate.ts:7-33 | the middleware's decision; its properties are NoBearerHeader, TokenIsRestOfHeader and BearerOutcome |
| Authenticate.BearerOutcome | src/middlewares/authenticate.ts:14-33 | "Invalid token" exactly when verification or the lookup throws; "User not found" exactly when no user has the subject; otherwise the user's id, email and display name; an error exactly when no user is attached |
| Authenticate.AuthenticateRequest | src/middlewares/authenticate.ts:6-34 | next is called exactly once with the decision's error, and req.user is set only on success |
| ErrorHandler.Respond | src/middlewares/errorHandler.ts:4-22 | the response for an error; its properties are SchemaErrorResponse, ServerErrorResponse, ClientErrorResponse and LoggedIff |
| ErrorHandler.SchemaErrorResponse | src/middlewares/errorHandler.ts:6-12 | a zod error gives 422 "Validation failed" with its flattened issues, and is not logged |
| ErrorHandler.ServerErrorResponse | src/middlewares/errorHandler.ts:14-18 | an error without a status is a 500; every 500 says "Internal server error" and is logged |
| ErrorHandler.ClientErrorResponse | src/middlewares/errorHandler.ts:14-21 | any other status passes through with its message and is not logged |
| ErrorHandler.LoggedIff | src/middlewares/errorHandler.ts:17-19 | an error is logged exactly when its response is a 500 |
| ErrorHandler.HandleError | src/middlewares/errorHandler.ts:4-22 | exactly one response is written per error, and a log entry only for a 500 |
| UserService.Criteria | src/services/user.service.ts:11-22 | always the name clause; the phone clause, with the query's digits, exactly when there are digits |
| UserService.BuildCriteria | src/services/user.service.ts:11-26 | the pushes produce Criteria, never an empty array |
| UserService.CastCriteria | src/config/mongo.ts:5 | under strictQuery the cast keeps exactly the clauses on schema paths, in order |
| UserService.CastDropsPhoneClause | src/services/user.service.ts:17-22 | the phone clause is built exactly when the query has digits, and after the cast only the name clause is left |
| UserService.SelectsIsWanted | src/services/user.service.ts:13-31 | the $ne/$or filter, once cast, is the name-only search condition: not the requester, and the display name contains the query up to case |
| UserService.SearchUsers | src/services/user.service.ts:4-43 | defines the search; its properties are SearchUsersCorrect, SearchIsFirstWanted and SearchMatchesByName |
| UserService.SearchUsersCorrect | src/services/user.service.ts:4-43 | the first 20 wanted users, summarized; a blank query gives []; every result is wanted; when at most 20 are wanted all are returned |
| UserService.SearchIsFirstWanted | src/services/user.service.ts:28-42 | the query returns the first 20 users whose names match, in store order, summarized |
| UserService.SearchMatchesByName | src/services/user.service.ts:28-42 | every result's display name contains the trimmed query up to case, and no user whose name does not is found, whatever the phone number |
| UserService.SearchBlankQuery | src/services/user.service.ts:5-9 | a whitespace-only query finds nobody |
| UserService.SearchExcludesRequester | src/services/user.service.ts:28-30 | the requester never appears in the results |
| UserService.SummarizeAll | src/services/user.service.ts:36-42 | each result is the projection to id, displayName, avatarUrl, phoneNumber and statusMessage |
| Zod.CheckString | src/validators/auth.validator.ts:3-7 | no issue exactly when every check passes; every issue carries the field's path |
| Zod.CheckStringIssues | src/validators/auth.validator.ts:3-7 | every check runs: each failing check reports its message, and each issue reported is the message of a failing check |
| Zod.ParseString | src/validators/message.validator.ts:4-5 | no issue exactly when the value is a string passing every check |
| Zod.ParseStringArray | src/validators/conversation.validator.ts:4 | no issue exactly when the value is an array long enough whose elements are all strings passing the checks |
| Zod.Flatten | src/middlewares/errorHandler.ts:9 | zod's flatten(); its properties are FlattenFormErrors, FlattenFieldKeys and FlattenFieldErrors |
| Zod.FlattenFormErrors | src/middlewares/errorHandler.ts:9 | formErrors are the messages of the pathless issues, in order |
| Zod.FlattenFieldKeys | src/middlewares/errorHandler.ts:9 | a field has an entry exactly when some issue's path starts with it |
| Zod.FlattenFieldErrors | src/middlewares/errorHandler.ts:9 | a field's entry holds the messages of its issues, in order |
| AuthValidator.PhoneIssues | src/validators/auth.validator.ts:3-7 | too short, too long and bad characters are each reported, with their messages, in that order |
| AuthValidator.PhoneAcceptedIff | src/validators/auth.validator.ts:3-7 | a phone number is accepted exactly when it has 10 to 20 characters, all digits, '+', '-', whitespace or parentheses |
| AuthValidator.PhoneLengthCountsFormatting | src/validators/auth.validator.ts:5-7 | "(555) 1234" passes with only seven digits |
| AuthValidator.RequestOtpAcceptedIff | src/validators/auth.validator.ts:9-11 | requestOtpSchema accepts exactly the objects whose phoneNumber passes the phone rule |
| AuthValidator.CodeFieldIff | src/validators/auth.validator.ts:15-17 | the code is accepted exactly when it is six ASCII digits |
| AuthValidator.NameFieldIff | src/validators/auth.validator.ts:18-22 | a present displayName is accepted exactly when it has 2 to 64 characters |
| AuthValidator.LoginAcceptedIff | src/validators/auth.validator.ts:13-23 | loginSchema accepts exactly a valid phone number, a six-digit code and an absent or 2-to-64-character displayName |
| MessageValidator.SendMessageAcceptedIff | src/validators/message.validator.ts:3-7 | accepted exactly when conversationId and content are non-empty strings and attachments are absent or all URLs |
| MessageValidator.WhitespaceContentAccepted | src/validators/message.validator.ts:5 | whitespace-only content passes |
| MessageValidator.EmptyAttachmentsAccepted | src/validators/message.validator.ts:6 | an empty attachment list passes |
| ConversationValidator.CreateConversationAcceptedIff | src/validators/conversation.validator.ts:3-5 | accepted exactly when participantIds is a non-empty array of non-empty strings |
| ConversationValidator.MissingParticipantsRefused | src/validators/conversation.validator.ts:3-5 | a body without participantIds is refused with "Required" on that field |
| ConversationValidator.DuplicatesAccepted | src/validators/conversation.validator.ts:4 | repeated ids pass the schema |
| MediaService.NormalizeType | src/services/media.service.ts:25-30 | "video", "image" and "raw" are kept, anything else is "raw" |
| MediaService.NormalizeTypeIdempotent | src/services/media.service.ts:25-30 | normalizing twice is normalizing once |
| MediaService.TypeFromMime | src/services/media.service.ts:32-43 | "image" for an "image/" prefix, "video" for "video/", "raw" otherwise, a missing type included |
| MediaService.TypeFromMimeIsNormal | src/services/media.service.ts:25-43 | the MIME classification is a fixed point of normalizeType |
| MediaService.SecondSegment | src/services/media.service.ts:80 | split("/")[1]: absent exactly when there is no '/', otherwise the text between the first '/' and the next '/' or the end |
| MediaService.DeriveExtensionFromMime | src/services/media.service.ts:76-85 | "" exactly when the type is missing, has no '/' or nothing after it; otherwise "." and the second segment |
| MediaService.DeriveExtensionOfType | src/services/media.service.ts:76-85 | for "kind/subtype" the extension is ".subtype" |
| MediaService.Format | src/services/media.service.ts:70 | the suffix without its first "."; absent when that leaves nothing |
| MediaService.LocalRecord | src/services/media.service.ts:59-71 | the URL is the base URL, "/uploads/" and the file name; the name ends with the suffix; type, bytes and format as the source derives them |
| MediaService.ToDataUri | src/services/media.service.ts:20-23 | the data URI of a file; its property is DataUriRoundTrip |
| MediaService.DataUriRoundTrip | src/services/media.service.ts:20-23 | the data URI gives back the media type and the bytes |
| MediaService.UploadMediaFiles | src/services/media.service.ts:114-124 | an empty file list is refused with 400 before storage is used; otherwise files go to the chosen storage |
| Base64.Encode | src/services/media.service.ts:21 | Buffer's base64 encoding; its properties are DecodeEncode, EncodeLength and EncodeAlphabet |
| Base64.DecodeEncode | src/services/media.service.ts:21 | base64 (section 4 of RFC 4648) decodes back to the bytes |
| Base64.EncodeLength | src/services/media.service.ts:21 | four characters per started group of three bytes |
| Base64.EncodeAlphabet | src/services/media.service.ts:21 | only alphabet characters, with '=' only in the last two positions |
| EnvConfig.IsPlaceholder | src/config/env.ts:33-42 | the placeholder test; its property is IsPlaceholderIff |
| EnvConfig.IsPlaceholderIff | src/config/env.ts:33-42 | a placeholder exactly when blank, equal to the placeholder after trim and lowercase, or starting with "your-" |
| EnvConfig.ShippedCredentialsAreMissing | src/config/env.ts:44-47 | the shipped sample cloud name counts as a missing credential |
| EnvConfig.SelectStorageDriver | src/config/env.ts:44-54 | the storage driver and the fallback warning; its properties are ShippedCredentialsAreMissing and StorageDriverChoice |
| EnvConfig.StorageDriverChoice | src/config/env.ts:44-54 | local whenever it is asked for; cloudinary exactly when it is not refused and all credentials are real; the warning exactly when the fallback happens |
| EnvConfig.PublicBaseUrl | src/config/env.ts:60-61 | the configured URL or http://localhost:PORT (default 5000), minus one trailing '/' |
| EnvConfig.OnlyOneSlashRemoved | src/config/env.ts:61 | a URL ending in "//" keeps one slash |
| JsString.Trim | src/services/user.service.ts:5 | String.prototype.trim: only whitespace removed from either end; the ends of the result are not whitespace |
| JsString.TrimEmptyIff | src/services/user.service.ts:5-9 | trimming gives "" exactly when the string is all whitespace |
| JsString.Digits | src/services/user.service.ts:17 | replace(/\D/g, ""): only digits, and every digit character of the string occurs in it |
| JsString.DigitsInOrder | src/services/user.service.ts:17 | the result is the string filtered by `\d`: its digits in order, each as often as it occurs |
| JsString.DigitsConcat | src/services/user.service.ts:17 | the digits of a concatenation are the digits of the first part followed by those of the second |
| JsString.IndexOf | src/services/media.service.ts:77 | when a position is returned, the pattern occurs there |
| JsString.IndexOfFirst | src/services/media.service.ts:77 | indexOf finds the first occurrence: none occurs before the returned position, and none at all when nothing is returned |
| JsString.ReplacePrefix | src/middlewares/authenticate.ts:15 | replacing a leading occurrence with "" removes exactly that prefix |

## Left out

- The compiled `dist/` copies. Only the TypeScript sources are modelled.
- Disk writes, upload-directory memoisation and the remote upload call of the media service. `LocalRecord` models the record `saveLocally` returns. `UploadMediaFiles` stops at the storage choice.
- The remote store's response mapping and its 500 "Unable to upload media right now". Both depend on a foreign call.
- `populate`, field selection in responses and `lean`. Results are the stored records.
- ObjectId casting and string ids. Identifiers are natural numbers handed out by a counter (`Store.State.nextId`), so an id that fails to cast is not modelled.
- Id strings that differ only in the case of their hex digits. Such strings cast to the same ObjectId, but `new Set` in conversation creation removes duplicates by string. With such ids the source can skip the 400 and can match a conversation the model would not. `ConversationService.CreateFailsIffOnlyCaller`, `CreateIdempotent` and `CreatePreservesValid` therefore describe only canonical lower-case id strings; each model id stands for one such string.
- The regular-expression engine and `escapeRegExp`. `src/utils/regex.ts` is not part of this model. The name clause is a substring test under ASCII case folding. The phone clause takes part in no match, because the cast removes it.
- Mongoose versions that keep an emptied `$or` branch as `{}` and so match every user. The model follows versions that drop the phone clause from `$or`. The Mongoose version is not part of this model.
- Case folding beyond ASCII and UTF-16 code-unit lengths. Strings are sequences of characters.
- `ConversationService.GetRecentMessages`: the limit is `Option<nat>`, so a negative or fractional limit is not modelled; the store would use the absolute value of a negative limit, in one batch. No visible caller passes one.
- The order of documents with equal sort keys. The store leaves it open; the model picks the stable order.
- `ConversationService.GetConversationsForUser`: populates nothing and returns stored records.
- `UserService.SummarizeAll`: ids stay numbers, not strings.
- `MediaService.UploadMediaFiles`: does not state the records the chosen storage returns.
- The environment schema's own parse, `Number` parsing, size arithmetic and upload-directory resolution. These are number and path handling.
- Password hashing and comparison, token signing and verification are parameters (`hash`, `compare`, `sign`, `verify`). `sign` takes the user id and the signing second (`now`), the two inputs from which `src/utils/jwt.ts:10` builds the token's `sub`, `iat` and `exp`; the secret and the seven-day expiry are fixed and left inside it. The user lookup throwing is a flag of `Authenticate.Decide`.
- zod's URL check is a parameter (`isUrl`).
- `Date.now()`, `new Date()` and `randomUUID()` are parameters (`now`, `stamp`, `uuid`).
- Controllers, routes, `validateRequest`, the socket gateway, logging output and server start-up. They are wiring around the modelled core.
- The OTP flow. It has a schema and no logic.
- Some routes name schemas that the validators do not define: `registerSchema` in the auth routes, `updateMessageSchema` in the message routes, and the update, admin, participant and message-control schemas in the conversation routes. The login route reads an email and a password while `loginSchema` checks a phone number and a code. The model keeps the schemas as written and does not connect them to routes.
- Concurrency: the find-then-create race of conversation creation, and interleaved requests in general.
