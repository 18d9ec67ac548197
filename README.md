# School website backend core, modelled in Dafny

This project models the logic at the heart of a NestJS school-website backend. Its core is the announcement service's reaction and view deduplication engine and the visitor identity resolver that feeds it. Around them sit:

- the gallery service's rules: creation defaults, the all-or-nothing reorder, removal, the lookup that fails with 406, and the published listing with its pagination;
- the upload pipe for images;
- the role guard;
- the global exception filter;
- the validation and transform rules of the create-image, create-video and register DTOs.

## How the model is organised

- **Modules.** There is one module per source file: `Identity`, `AnnouncementModel` and `AnnouncementService`, `GalleryService`, `ImagePipe`, `RoleGuard`, `HttpFilter`, `CreateImageDto`, `CreateVideoDto` and `RegisterDto`. Six small modules are shared: `Wrappers` (Option, Result, and a request field that may be sent as null), `JsString` (`trim`, `split`, `lastIndexOf`, `String(n)`), `Counting` (`COUNT(*) WHERE` over a sequence), `Exceptions` (the framework's HTTP exceptions), `FormValidation` (the `class-validator` decorators the DTOs use) and `NumberConversion` (the `class-transformer` conversion `@Type(() => Number)`).
- **Tables.** The repositories become in-memory tables. `AnnouncementService.AnnouncementStore` is a class holding the announcements by id, plus the reactions table and the views table in insertion order. `GalleryService.GalleryStore` holds the gallery rows and the next id to generate. Each method that changes a table states the new table as a function of the old one. It also preserves the store's invariants: every view counter equals the number of view rows, and `pinnedAt` is set exactly when the announcement is pinned. Lemmas about those functions carry the properties that span several calls, such as "repeated reactions leave one row" and "repeated views count once".
- **Lookups.** The database's `findOne` without an ordering is taken to be the first matching row in insertion order.
- **Grouped counts.** The `GROUP BY reactionType` result is listed in the enum's declaration order.
- **Hashing.** SHA-256 is a function-typed field of `Identity.Config` that returns 64 lowercase hex digits.
- **Random ids.** `randomUUID()` is a parameter: the 36-character id the call would return.
- **Requests and responses.** The request is the data the resolver reads. The response is reduced to the cookies written on it.
- **The clock.** It is a parameter (`now`, `timestamp`).
- **Documentation versus code.** The repository's documentation describes an `'anonymous'` identity as the last fallback of `resolve`. The code never reaches it, because a freshly minted visitor id is never empty. `Identity.Resolve` follows the code and states that an identity is never anonymous. The entity files also lack several columns the announcement and gallery services read and write (`visitorId`, `fingerprintHash`, `enableViews`, `enableReactions`, `viewCount`, `pinnedAt`, `isPublished`). The model follows the services.

## Model

| member | source | states |
|---|---|---|
| Identity.NewConfig | src/common/identity/identity.ts:36-40 | construction fails exactly when the secret is not configured; production mode is exactly NODE_ENV = "production" |
| Identity.GetIp | src/common/identity/identity.ts:42-47 | a string x-forwarded-for gives its text before the first comma, trimmed; a list gives its first entry, trimmed; otherwise req.ip, else the socket address, else "unknown", each only when truthy |
| Identity.GetIpForwardedIsOneTrimmedHop | src/common/identity/identity.ts:44 | an address taken from a string x-forwarded-for holds no comma and has no surrounding whitespace |
| Identity.Fingerprint | src/common/identity/identity.ts:49-54 | the fingerprint is 32 hex digits, the prefix of the hash of "ip::ua::secret" |
| Identity.Sign | src/common/identity/identity.ts:56-61 | a signature is 16 hex digits and never contains a dot |
| Identity.GetVisitorId | src/common/identity/identity.ts:63-83 | only a cookie equal to "id.sign(id)" yields an id; no cookie, a non-string, "", no dot, or a signature whose length in UTF-16 code units is not 16 yields none |
| Identity.LastDotOfSigned | src/common/identity/identity.ts:67-71 | splitting "id.sig" at the last dot gives back id and sig whenever sig has no dot, whatever dots id contains |
| Identity.VisitorCookieRoundTrip | src/common/identity/identity.ts:63-87 | the cookie value written for an id parses back to that id |
| Identity.VisitorCookieAcceptedIff | src/common/identity/identity.ts:63-83 | a cookie string is accepted exactly when it is "id.sign(id)" for some id |
| Identity.TamperedSignatureRejected | src/common/identity/identity.ts:74-80 | a dot-free signature other than sign(id) is rejected |
| Identity.GetVisitorIdAsWritten | src/common/identity/identity.ts:63-83 | as written: no cookie, a non-string, "" or no dot is rejected; a cookie it accepts is exactly "id.sign(id)" |
| Identity.AsWrittenThrowsIff | src/common/identity/identity.ts:74-75 | as written, the check throws exactly when the text after the last dot is 16 UTF-16 code units long and one of its characters is not ASCII |
| Identity.NonAsciiSignatureThrows | src/common/identity/identity.ts:74-75 | a cookie whose signature is sixteen "é" makes the check as written throw, under any configuration |
| Identity.AstralSignatureLengths | src/common/identity/identity.ts:74-75 | a signature of eight characters above U+FFFF is 16 code units long and makes the check as written throw; sixteen of them are 32 units long and the length guard rejects them |
| Identity.AsWrittenAgreesUnlessItThrows | src/common/identity/identity.ts:63-83 | wherever the check as written does not throw, it accepts exactly the ids the corrected check accepts |
| Identity.VisitorCookieOptions | src/common/identity/identity.ts:89-95 | a minted cookie is http-only, SameSite=lax, one year long, for path "/", and secure exactly in production |
| Identity.CreateVisitorCookie | src/common/identity/identity.ts:85-98 | appends exactly one cookie write named "__vid"; its value parses back to the returned id, which is the minted uuid |
| Identity.EnsureVisitorCookie | src/common/identity/identity.ts:100-104 | writes one fresh cookie exactly when the request has no truthy valid visitor id, and nothing otherwise |
| Identity.Resolve | src/common/identity/identity.ts:106-151 | an authenticated identity exactly for a truthy user id, with identifier String(id) and the request's own visitor id; otherwise a visitor whose identifier is the valid cookie id or the minted one; never anonymous; the fingerprint always uses "unknown" for a missing user agent; the cookies written are stated |
| AnnouncementModel.FirstBy | src/announcements/announcement.service.ts:287-306 | one findOne of the chain returns the first row in table order that the tier's key finds, or none when no row matches |
| AnnouncementModel.FindExisting | src/announcements/announcement.service.ts:281-309 | none exactly when no row of the item matches any truthy key; otherwise a matching row, found by user id first, then visitor id, then fingerprint |
| AnnouncementModel.UpsertReactionEffect | src/announcements/announcement.service.ts:107-125 | a found row is replaced in place with the new type; its user and visitor ids are filled only where empty, and nothing else changes; with no match, one row is appended carrying the identity's keys |
| AnnouncementModel.BackfillKeepsMatch | src/announcements/announcement.service.ts:110-111 | filling missing keys never makes a row stop matching the identity |
| AnnouncementModel.UpsertLeavesOne | src/announcements/announcement.service.ts:101-125 | from at most one matching row, one addReaction leaves exactly one, with the given type |
| AnnouncementModel.RepeatedReactionsLeaveOne | src/announcements/announcement.service.ts:101-125 | any non-empty sequence of reactions by one identity on one item leaves exactly one row for it, with the last type given |
| AnnouncementModel.VisitorUpgradeReusesReaction | src/announcements/announcement.service.ts:101-112 | a visitor who reacts, signs in and reacts again keeps a single row, now with the user id backfilled and the new type |
| AnnouncementModel.CountsOver | src/announcements/announcement.service.ts:177-190 | each group-by entry names a listed type with a positive count equal to the number of the item's rows of that type |
| AnnouncementModel.CountsOverDistinct | src/announcements/announcement.service.ts:183 | grouping over distinct types lists no type twice |
| AnnouncementModel.CountsOverListsPresent | src/announcements/announcement.service.ts:177-190 | every type the item has rows of is listed |
| AnnouncementModel.TotalOfCountsOver | src/announcements/announcement.service.ts:313 | the entries' counts add up to the number of the item's rows whose type is grouped |
| AnnouncementModel.AllReactionTypesListed | src/announcements/announcement.service.ts:177-190 | the enum listing holds every reaction type, once |
| AnnouncementModel.ReactionCounts | src/announcements/announcement.service.ts:177-190 | one entry per present type, each with that type's count; a type is listed exactly when it has a row; no type twice; the counts sum to the item's number of reaction rows |
| AnnouncementModel.FindUserReaction | src/announcements/announcement.service.ts:148-151 | the first row of the item with that user id, or none exactly when there is no such row |
| AnnouncementModel.UserReaction | src/announcements/announcement.service.ts:192-197 | a type exactly when the user has a row for the item, and that type is the reaction type of the user's first row for the item |
| AnnouncementModel.RemoveUserReactionNoOp | src/announcements/announcement.service.ts:153-156 | without a row of the user for the item, removeReaction changes nothing |
| AnnouncementModel.RemoveUserReactionEffect | src/announcements/announcement.service.ts:148-156 | removes exactly the user's first row for the item, keeping every other row |
| AnnouncementModel.RemoveUserReactionCounts | src/announcements/announcement.service.ts:148-159 | after a removal the item has one reaction fewer, one fewer of that type, and other items' counts are unchanged |
| AnnouncementModel.ViewsAfterCount | src/announcements/announcement.service.ts:213-237 | a recorded view adds one row for its item exactly when it is new, and none for any other item |
| AnnouncementModel.ViewsAfterHasMatch | src/announcements/announcement.service.ts:213-235 | after a view is recorded, the next one by the same identity is not new |
| AnnouncementModel.RepeatedViewsCountOnce | src/announcements/announcement.service.ts:209-241 | any number of views by one identity adds exactly one view row in total when it had none, and none otherwise |
| AnnouncementModel.Toggled | src/announcements/announcement.service.ts:139-140 | togglePin flips isPinned, sets pinnedAt to now exactly when pinned, and changes no other field |
| AnnouncementModel.UpdatePinAndExpiry | src/announcements/announcement.service.ts:60-67 | for an update that sets no NOT NULL column to null: pinnedAt changes only when isPinned is supplied and differs; expiresAt is kept when none is supplied; id and view count are untouched; a consistent pin stays consistent |
| AnnouncementService.MapToWithStats | src/announcements/announcement.service.ts:311-338 | totalReactions is the item's number of reaction rows; userReaction is present exactly for a truthy user id with a row, and equals that row's type |
| AnnouncementService.AnnouncementStore.FindOne | src/announcements/announcement.service.ts:43-51 | fails with 404 "Announcements not found" exactly for a missing id; otherwise returns what MapToWithStats gives for the stored announcement: its per-type reaction counts, their total, and the caller's own reaction |
| AnnouncementService.AnnouncementStore.AddReaction | src/announcements/announcement.service.ts:86-131 | a missing announcement gives 403 and disabled reactions give 409, both leaving every table unchanged; otherwise the reactions table becomes the upsert, and the saved row and the new counts are returned |
| AnnouncementService.AnnouncementStore.RemoveReaction | src/announcements/announcement.service.ts:148-160 | only the reactions table changes, to the removal; the item's current counts are returned |
| AnnouncementService.AnnouncementStore.RecordView | src/announcements/announcement.service.ts:199-242 | a missing announcement gives 403; with views disabled, {false, viewCount} and no change; otherwise one row at most is added, the counter grows by exactly that, and the outcome says whether the view was new; counters keep matching view rows |
| AnnouncementService.AnnouncementStore.TogglePin | src/announcements/announcement.service.ts:132-146 | 404 for a missing id; otherwise only that announcement changes, as Toggled states; pins stay consistent |
| AnnouncementService.AnnouncementStore.Update | src/announcements/announcement.service.ts:53-71 | 404 for a missing id; a title, content or priority sent as null makes the save fail with the database's error and changes nothing; otherwise only that announcement changes, as ApplyUpdate states; pins stay consistent and view counters are untouched |
| GalleryService.ThumbnailRoundTrip | src/gallery/gallery.service.ts:48 | the thumbnail URL built from a video id gives back exactly that id |
| GalleryService.CreationDefaults | src/gallery/gallery.service.ts:27-57 | created items have tags [] and isPublished true unless the request gives them, and order 0 when it is left out; an image keeps the host's public id; a video's thumbnail names its video id |
| GalleryService.FoundItems | src/gallery/gallery.service.ts:76 | In(ids) finds exactly the rows whose id is requested |
| GalleryService.MissingIds | src/gallery/gallery.service.ts:79-80 | the missing ids are exactly the requested ids without a row, in request order |
| GalleryService.FirstOrder | src/gallery/gallery.service.ts:85 | the order of the first entry for the id, and present exactly when the id is requested |
| GalleryService.Reordered | src/gallery/gallery.service.ts:84-87 | each requested row takes the order of the first entry for its id; every other field and row is unchanged |
| GalleryService.ReorderAcceptedIff | src/gallery/gallery.service.ts:75-78 | with distinct row ids, reorder goes ahead exactly when the requested ids are distinct and all exist, so a duplicate id is rejected too |
| GalleryService.ReorderErrorNamesMissing | src/gallery/gallery.service.ts:79-81 | the error names exactly the requested ids without a row, so a request rejected only for a duplicate names none |
| GalleryService.GalleryStore.Reorder | src/gallery/gallery.service.ts:74-92 | rejected with 400 and the missing-ids message, changing nothing, exactly when the rows found differ in number from the entries; otherwise the table becomes Reordered and the count is returned |
| GalleryService.PagingOf | src/gallery/gallery.service.ts:114-116 | page defaults to 1, limit is min(requested or 20, 50), skip is (page - 1) * limit |
| GalleryService.TotalPages | src/gallery/gallery.service.ts:142 | Math.ceil(total / limit): a whole number for a positive limit; NaN or Infinity for a zero limit |
| GalleryService.TotalPagesCover | src/gallery/gallery.service.ts:142 | with a positive limit the pages cover all items and no page but the last is short |
| GalleryService.Insert | src/gallery/gallery.service.ts:131-132 | inserting into a listing-ordered sequence keeps it ordered and adds exactly the one row |
| GalleryService.SortForListing | src/gallery/gallery.service.ts:131-132 | order ascending, then createdAt descending, and a permutation of the input |
| GalleryService.ListedItems | src/gallery/gallery.service.ts:121-129 | keeps exactly the published rows that pass the type filter and the truthy category filter, no more copies and no fewer |
| GalleryService.Window | src/gallery/gallery.service.ts:133-134 | skip then take: the contiguous run starting at skip, at most limit long, with take(0) meaning no limit |
| GalleryService.FindAllPublished | src/gallery/gallery.service.ts:108-144 | fails exactly when the offset or the limit is negative; otherwise echoes the page and returns the filtered total, ceil(total / limit) and the window of the sorted filtered rows |
| GalleryService.PublishedPageContents | src/gallery/gallery.service.ts:118-136 | a page holds only published rows that pass the filters, in listing order, at most limit of them |
| GalleryService.GalleryStore.FindOrFail | src/gallery/gallery.service.ts:189-203 | a row with the id, or 406 "Gallery item with ID <id> not found" exactly when there is none |
| GalleryService.GalleryStore.CreateImage | src/gallery/gallery.service.ts:21-45 | appends the new image row with the next id and the creation defaults; ids stay distinct |
| GalleryService.GalleryStore.CreateVideo | src/gallery/gallery.service.ts:47-62 | an order sent as null is copied into the NOT NULL order column, so the insert fails with the database's error and adds no row; otherwise appends the new video row with the next id, the creation defaults and the derived thumbnail; the id is used up either way and ids stay distinct |
| GalleryService.GalleryStore.Remove | src/gallery/gallery.service.ts:94-106 | 406 and no change for an unknown id; otherwise the row is deleted whatever the host answers, and the host is asked to delete a public id exactly for an image with a truthy public id |
| ImagePipe.MegabytesText | src/gallery/pipes/image-validation.pipes.ts:28 | toFixed(2) of size / 2^20: the hundredths nearest the exact quotient, halves rounded up |
| ImagePipe.Transform | src/gallery/pipes/image-validation.pipes.ts:5-36 | accepts exactly a present file with an allowed mimetype of at most 10 MiB and returns it unchanged; otherwise "No file uploaded", then the mimetype message, then the size message, in that order |
| RoleGuard.SomeRoleMatches | src/common/guards/role.guard.ts:25 | true exactly when the user's role equals one of the required roles |
| RoleGuard.CanActivate | src/common/guards/role.guard.ts:10-32 | no or empty required roles grants access; a missing user is a 403 "User not found in request"; a user is let in exactly when their role is required; every refusal is a 403 and it never returns false |
| RoleGuard.MoreRolesStillAdmit | src/common/guards/role.guard.ts:25-31 | adding roles to a route's list never shuts out a user it admitted |
| HttpFilter.Classify | src/common/filters/http.filter.ts:29-51 | status is the exception's own for an HttpException and 500 otherwise; a string response is the message; an object's non-empty text message is the message, and a missing or empty one leaves "Internal server error"; errors exactly for an object response whose message is a list, equal to it, with its first entry as the message, which is missing exactly for an empty list; a plain Error gives its own message and any other value the default |
| HttpFilter.Catch | src/common/filters/http.filter.ts:24-63 | the body always has success false and statusCode equal to the status sent, together with the request path and the timestamp |
| HttpFilter.UnknownThrowsAre500 | src/common/filters/http.filter.ts:29-50 | a non-error throw gives 500, "Internal server error" and null errors; a plain Error gives 500 with its own message |
| HttpFilter.ServiceExceptionsShown | src/common/filters/http.filter.ts:33-46 | the services' 400, 403, 404, 406 and 409 exceptions reach the client with their own status and message and no error list |
| HttpFilter.ValidationListShown | src/common/filters/http.filter.ts:39-46 | a message list becomes errors, and its first entry becomes the message |
| CreateImageDto.CleanTags | src/gallery/dto/create-image.dto.ts:26 | trim then filter(Boolean): no tag is empty or has surrounding whitespace, there are no more tags than pieces, and comma-free pieces give comma-free tags |
| CreateImageDto.CleanTagsMembers | src/gallery/dto/create-image.dto.ts:26 | every tag is some piece trimmed, and every piece that does not trim to "" gives its trimmed text as a tag |
| CreateImageDto.CleanTagsOfPiece | src/gallery/dto/create-image.dto.ts:26 | one piece gives its trimmed text, or nothing when that is empty |
| CreateImageDto.CleanTagsInOrder | src/gallery/dto/create-image.dto.ts:26 | the pieces are cleaned one by one, in order: cleaning a + b gives the tags of a followed by those of b |
| CreateImageDto.TagsOfStringMembers | src/gallery/dto/create-image.dto.ts:26 | the tags of a string are exactly its non-empty trimmed pieces between commas: each tag is one, and each one is a tag |
| CreateImageDto.TransformTags | src/gallery/dto/create-image.dto.ts:25-28 | a string becomes the array of its tags (TagsOfString), all clean and no more than its pieces; any other value passes through unchanged |
| CreateImageDto.TagsRoundTrip | src/gallery/dto/create-image.dto.ts:26 | clean tags joined with commas come out of the transform as the same tags, in order |
| CreateImageDto.TransformPublished | src/gallery/dto/create-image.dto.ts:39 | a boolean, true exactly for 'true' and true |
| CreateImageDto.Errors | src/gallery/dto/create-image.dto.ts:11-42 | a property is listed exactly when its decorators refuse it; the list is empty exactly when all pass |
| CreateImageDto.Input | src/gallery/dto/create-image.dto.ts:12-41 | the service receives exactly the transformed title, description, category, tags, order and isPublished, each absent exactly when not sent; an accepted title is 1 to 200 characters, description at most 1000, category at most 100, and each tag at most 59 |
| CreateImageDto.Transformed | src/gallery/dto/create-image.dto.ts:25-41 | tags and isPublished go through their transforms when sent, order goes through Number (null and undefined kept), and the other properties are untouched |
| CreateImageDto.NumericOrderAccepted | src/gallery/dto/create-image.dto.ts:33-36 | an order sent as the text of an integer (as a multipart form sends it) passes, and the service receives that integer |
| CreateImageDto.Validate | src/gallery/dto/create-image.dto.ts:11-42 | the transforms run first; the form passes exactly when every property does; otherwise the failing properties are reported |
| CreateImageDto.ValidatedTransforms | src/gallery/dto/create-image.dto.ts:25-41 | an accepted string of tags reaches the service as its clean tags; isPublished reaches it as whether the value was 'true' or true |
| CreateImageDto.JoinedTagsAccepted | src/gallery/dto/create-image.dto.ts:25-31 | a comma-joined string of clean tags of at most 59 characters passes the tags checks and reaches the service as those tags |
| CreateVideoDto.MatchesRepeatIff | src/gallery/dto/create-video.dto.ts:22 | [a-zA-Z0-9_-]{n} between anchors matches exactly the strings of n id characters |
| CreateVideoDto.VideoIdPatternIsRegex | src/gallery/dto/create-video.dto.ts:22 | the id predicate is the regular expression /^[a-zA-Z0-9_-]{11}$/ |
| CreateVideoDto.VideoIdOkIff | src/gallery/dto/create-video.dto.ts:21-25 | a video id passes exactly when it is a string of eleven id characters; IsNotEmpty adds nothing to the pattern |
| CreateVideoDto.Errors | src/gallery/dto/create-video.dto.ts:12-44 | a property is listed exactly when its decorators refuse it; the list is empty exactly when all pass |
| CreateVideoDto.Transformed | src/gallery/dto/create-video.dto.ts:36-39 | only order changes: it goes through Number, so a boolean becomes 1 or 0 and a string its numeric value, while null and undefined are kept |
| CreateVideoDto.Input | src/gallery/dto/create-video.dto.ts:13-42 | the service receives exactly the converted title, description, video id, category, tags, order and isPublished, each optional one absent exactly when not sent, and order null exactly when sent as null; an accepted title is 1 to 200 characters, description at most 1000, category at most 100, each tag at most 50, and the id matches the pattern |
| CreateVideoDto.Validate | src/gallery/dto/create-video.dto.ts:12-44 | order is converted first; the form passes exactly when every property does; otherwise the failing properties are reported |
| CreateVideoDto.ConvertedOrderAccepted | src/gallery/dto/create-video.dto.ts:36-39 | an order sent as an integer, as the decimal text of one, or as a boolean passes, and the service receives its number |
| CreateVideoDto.NullOrderPasses | src/gallery/dto/create-video.dto.ts:36-39 | an order sent as null passes validation and reaches the service as null |
| CreateVideoDto.ValidVideoThumbnail | src/gallery/dto/create-video.dto.ts:21-25 | a video created from an accepted form (one whose order is not null) has a fixed-length thumbnail URL that names its id |
| NumberConversion.ToNumber | src/gallery/dto/create-video.dto.ts:37 | null and undefined stay as they are, an array stays an array of the same length, and every other value becomes a number; a number is kept |
| NumberConversion.StringToNumber | src/gallery/dto/create-video.dto.ts:37 | a blank string is 0 |
| NumberConversion.DigitsOfNat | src/gallery/dto/create-video.dto.ts:37 | the decimal digits of a natural number read back as that number |
| NumberConversion.IntToStringIsDecimal | src/gallery/dto/create-video.dto.ts:37 | String(n) is an optionally signed decimal numeral whose value is n |
| NumberConversion.NumberOfIntToString | src/gallery/dto/create-video.dto.ts:37 | Number(String(n)) is n for every integer of magnitude at most 2^53 |
| RegisterDto.PatternReadingsAgreeOnOneLine | src/auth/dto/register.dto.ts:18 | the pattern as written accepts only passwords the intended rule accepts, and on a one-line password the two agree |
| RegisterDto.LineBreakHidesUppercase | src/auth/dto/register.dto.ts:18 | "abcdef\nA1" has all three kinds of character but the pattern as written refuses it |
| RegisterDto.PasswordChecksDiffer | src/auth/dto/register.dto.ts:15-20 | that password passes the intended password check and fails the one as written |
| RegisterDto.Errors | src/auth/dto/register.dto.ts:4-22 | a property is listed exactly when its decorators refuse it |
| RegisterDto.Validate | src/auth/dto/register.dto.ts:4-22 | passes exactly when all three properties do: a name of 3 to 50 characters, an email of 1 to 250 characters in email format, and a password of 6 to 100 characters that meets the corrected rule of the Findings table (a lowercase letter, an uppercase letter and a digit, anywhere) |

## Left out

- Concurrency: each find-then-save of `addReaction`, `recordView` and `reorder` is one atomic step. The source has no locking, so a race between two requests cannot be described.
- Cryptography: SHA-256 and `randomUUID` are uninterpreted. The constant-time behaviour of `timingSafeEqual` cannot be expressed.
- Identity.GetVisitorId: signatures are compared as strings. The byte-buffer comparison, and the error it raises, is modelled separately in `Identity.GetVisitorIdAsWritten` (see Findings).
- The `Identity` parameter decorator (`req.__identity`) and `identity.guard.ts` are request plumbing.
- Announcement `create`, `findAll`, `findActive`, `remove`, `getViewers` and `getViewCount` are thin repository reads and writes; `findActive` also filters on the wall clock.
- AnnouncementService.MapToWithStats: only the reactions, their total and the user's reaction are modelled. The author and timestamp fields are copied columns.
- AnnouncementModel.ApplyUpdate: the expiry is kept exactly when none is supplied. A supplied but empty date string, which the source also treats as absent, is not modelled.
- Gallery `update` (`Object.assign` of the DTO), `findAllAdmin`, `findByType` and `getCategories` are thin repository queries.
- The media host: an upload is given as its result. `GalleryStore.Remove` returns the public id it would ask the host to delete. The host's answer is not modelled, because the row is removed whatever it says.
- GalleryService.SortForListing: rows that tie on order and createdAt keep table order. The database leaves the order of ties unspecified.
- GalleryService.FindAllPublished: a negative offset or limit is an error, as the database refuses it; the text of that error is not modelled. `page` and `limit` are taken as already-parsed integers, so NaN from a bad query string is not modelled.
- ImagePipe.MegabytesText: the size is assumed below 2^53 bytes, where size / 2^20 is exact in floating point.
- Log messages and the announcements socket gateway are output and transport.
- Strings have one character per Unicode code point, so lone surrogates are not representable. JavaScript's `length` counts UTF-16 code units and is modelled as `JsString.Utf16Length`, which counts two for a character above U+FFFF.
- FormValidation.MaxLength: length is the number of code points, which already applies the validator library's discount for surrogate pairs. Its further discount for the variation selectors U+FE0E and U+FE0F is not modelled; `MinLength` counts the same way.
- NumberConversion.StringToNumber: `Number` of a string is exact for blank strings and for optionally signed decimal integers up to 2^53 in magnitude. Any other numeral (fractions, exponents, hexadecimal, `Infinity`) and any non-numeral, which gives NaN, is the parameter `numeral`.
- Validation error texts: the model reports which properties fail, not the library's messages. The register DTO's email message speaks of 100 characters while the limit is 250; the model follows the limit.
- RegisterDto.Validate: the password is checked against the corrected rule (`RegisterDto.PasswordPattern`). The pattern as written (`RegisterDto.PasswordOkAsWritten`) also refuses a password whose only lowercase letter, uppercase letter or digit comes after a line break; see Findings.
- RegisterDto.Validate: the email format check belongs to the validator library and is a parameter here; `whitelist` and `forbidNonWhitelisted` are not modelled.

## Findings

| source | as written | input that shows it | evidently intended | confidence | as-written member | corrected member |
|---|---|---|---|---|---|---|
| src/common/identity/identity.ts:74-75 | the length guard compares UTF-16 lengths, but `timingSafeEqual` requires equal byte lengths and throws a RangeError otherwise | a `__vid` cookie "x." followed by sixteen "é" (16 characters, 32 bytes) | a malformed cookie is rejected like any other bad signature, and the request proceeds as a new visitor | high (not executed) | Identity.NonAsciiSignatureThrows | Identity.GetVisitorId |
| src/auth/dto/register.dto.ts:18 | each lookahead `(?=.*[a-z])` only searches up to the first line terminator, because `.` does not match one | the password "abcdef\nA1" is refused although it has a lowercase letter, an uppercase letter and a digit | the message's rule: at least one of each kind, in any position | medium (not executed) | RegisterDto.LineBreakHidesUppercase | RegisterDto.PasswordPattern |
