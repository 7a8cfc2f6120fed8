# Campaign management service — a Dafny model

This project models the core of the MuuSmart campaign management service. Livestock
owners keep **stables**, run marketing **campaigns** on them, and attach **goals** and
**channels** to each campaign. The model covers five parts:

- **The campaign service.** Every operation runs a fixed sequence of guards, then makes
  at most one change to the campaign store. The guards are: the status or metric is in
  its vocabulary, the campaign or stable exists, the caller is an admin or the owner,
  and the name, goal description or channel type is not already used.
- **The stable service.** It creates stables with owner-scoped uniqueness and default
  values (location "Peru", status OPERATIVE). It lists stables and reads one by id,
  scoped to the owner.
- **The Campaign entity.** Its mutators `addGoal`, `addChannel` and `updateStatus`,
  its builder defaults, and its persist/update timestamp callbacks.
- **The JWT authentication filter.** It extracts the bearer token, gates on the
  identity, decodes the `roles`/`role` claim (a list or a comma-separated string) and
  builds the authority list that the controllers' admin flag reads.
- **The global exception handler.** Each exception maps to an HTTP status and a body.
  Field validation errors become a field-to-message map in which a later error wins.

Modules, one per file:

| file | module | what it holds |
|---|---|---|
| common.dfy | `Common` | `Option`, `Result`, the service error kinds, the admin-or-owner rule |
| text.dfy | `Text` | the `java.lang.String` operations used (ASCII case folding, `isBlank`, `trim`, `split`) with their lemmas |
| campaign.dfy | `Campaigns` | the `Campaign` class (entity changed in place), goals, channels, the response mapping |
| campaign_service.dfy | `CampaignServices` | `CampaignRepository` (a class holding `map<int, Campaign>`), `CampaignService` |
| stables.dfy | `Stables` | `Stable`, `StableRepository` (a class holding `map<int, Stable>`), `StableService` |
| jwt_filter.dfy | `JwtFilter` | claim decoding loops, the authority list, the admin flag, `doFilterInternal` |
| exception_handler.dfy | `ExceptionHandling` | exception-to-status function, the validation map loop |

The repositories are classes. Each holds a map from id to row and the next id to hand
out; ids start at 1, as the database's auto-increment does. Campaigns are objects that
the services load and change in place. `CampaignRepository.Valid()` is the store
invariant that every mutating method keeps:

- every row sits under its own id;
- (owner, name) is unique;
- every campaign's status and goal metrics are in their vocabularies;
- every goal and channel points back at its campaign;
- goal descriptions and channel types are unique up to case.

`Snapshot()` is the store seen as responses. The methods that change a campaign state
their effect on it: on failure nothing changes, and on success exactly one entry
changes, to the returned response (for a status change, with `updatedAt` refreshed by
the flush when the status really changed).

## Model

Five members are reference definitions rather than operations, and the rows below
rely on them: `Common.Allowed` (the owner-or-admin gate, in every Security clause),
`JwtFilter.RolesClaim` (the "roles" claim, or "role" when "roles" is null, inside
`FilterOutcome`), `Stables.StatusOrDefault` (inside `CreateStable`), and the two
`NameTaken` predicates (inside `CreateCampaign`, `CreateStable` and the
`NameTakenByOne` lemmas).

| member | source | states |
|---|---|---|
| Campaigns.Campaign.Build | src/main/java/upc/edu/muusmart/campaignmanagement/domain/model/aggregates/Campaign.java:51-65 | a built campaign has no id yet, the given fields, empty goal and channel lists, and both timestamps set to the clock reading |
| Campaigns.Campaign.OnCreate | src/main/java/upc/edu/muusmart/campaignmanagement/domain/model/aggregates/Campaign.java:67-71 | the pre-persist callback sets createdAt and updatedAt to the clock reading and touches nothing else |
| Campaigns.Campaign.OnUpdate | src/main/java/upc/edu/muusmart/campaignmanagement/domain/model/aggregates/Campaign.java:73-76 | the pre-update callback refreshes updatedAt only; createdAt is never changed by an update |
| Campaigns.Campaign.Flush | src/main/java/upc/edu/muusmart/campaignmanagement/domain/model/aggregates/Campaign.java:73-76 | the flush runs the pre-update callback only when a column changed: updatedAt becomes the clock reading then, and stays as it was otherwise |
| Campaigns.Campaign.AddGoal | src/main/java/upc/edu/muusmart/campaignmanagement/domain/model/aggregates/Campaign.java:78-82 | a null goal list becomes empty; the goal, with its back-reference set to this campaign, is appended at the end; no other field changes |
| Campaigns.Campaign.AddChannel | src/main/java/upc/edu/muusmart/campaignmanagement/domain/model/aggregates/Campaign.java:84-88 | the same for the channel list; the goal list is untouched |
| Campaigns.Campaign.UpdateStatus | src/main/java/upc/edu/muusmart/campaignmanagement/domain/model/aggregates/Campaign.java:90-92 | only the status field is overwritten, with any value |
| CampaignServices.HasGoalDescription | src/main/java/upc/edu/muusmart/campaignmanagement/application/service/CampaignService.java:186-188 | the anyMatch holds exactly when some goal's description equals the given one ignoring case |
| CampaignServices.HasChannelType | src/main/java/upc/edu/muusmart/campaignmanagement/application/service/CampaignService.java:221-223 | the anyMatch holds exactly when some channel's type equals the given one ignoring case |
| CampaignServices.AppendGoalKeepsWellFormed | src/main/java/upc/edu/muusmart/campaignmanagement/application/service/CampaignService.java:176-202 | on a well-formed campaign, appending a goal keeps it well formed if and only if the goal points back at the campaign, its metric is allowed and no goal has its description ignoring case: the guards of addGoalToCampaign are both sufficient and necessary |
| CampaignServices.AppendChannelKeepsWellFormed | src/main/java/upc/edu/muusmart/campaignmanagement/application/service/CampaignService.java:214-235 | the same for a channel: well formed after the append if and only if it points back at the campaign and its type is new ignoring case |
| CampaignServices.CampaignRepository.constructor | src/main/java/upc/edu/muusmart/campaignmanagement/domain/model/aggregates/Campaign.java:26-28 | an empty store satisfies the store invariant; ids are handed out from 1 |
| CampaignServices.CampaignRepository.NameTakenByOne | src/main/java/upc/edu/muusmart/campaignmanagement/application/service/CampaignService.java:48-49 | `NameTaken` is findByNameAndOwnerUsername(...).isPresent(); in a valid store a taken (name, owner) pair belongs to exactly one campaign, so the optional lookup is well defined |
| CampaignServices.CampaignRepository.Insert | src/main/java/upc/edu/muusmart/campaignmanagement/application/service/CampaignService.java:62-73 | saving a new campaign runs the pre-persist callback, gives it the next id, stores it under that id and keeps (owner, name) unique and the store invariant |
| CampaignServices.CampaignService.CreateCampaign | src/main/java/upc/edu/muusmart/campaignmanagement/application/service/CampaignService.java:41-74 | checks in order status vocabulary (InvalidValue), caller's name already used (DuplicateResource), stable exists (NotFound), caller may use the stable (Security); a request that passes all four succeeds, so another owner's name is no obstacle and Security is raised exactly when the gate fails; any failure leaves the store unchanged; success stores exactly one new campaign owned by the caller, with the request's stable and status and no goals or channels |
| CampaignServices.CampaignService.GetCampaignById | src/main/java/upc/edu/muusmart/campaignmanagement/application/service/CampaignService.java:86-94 | NotFound for a missing id; Security exactly when the caller is neither admin nor owner; the campaign otherwise |
| CampaignServices.CampaignService.GetAllCampaignsByUsername | src/main/java/upc/edu/muusmart/campaignmanagement/application/service/CampaignService.java:104-115 | every campaign for an admin, exactly the caller's own otherwise, so the list shows precisely what the per-id gate lets through |
| CampaignServices.CampaignService.GetCampaignsByStableId | src/main/java/upc/edu/muusmart/campaignmanagement/application/service/CampaignService.java:117-122 | exactly the campaigns on the stable, whoever owns them (no owner filter) |
| CampaignServices.CampaignService.DeleteCampaign | src/main/java/upc/edu/muusmart/campaignmanagement/application/service/CampaignService.java:133-140 | NotFound, then Security iff neither admin nor owner; on success only that campaign leaves the store, with its goals and channels; on failure nothing changes |
| CampaignServices.CampaignService.UpdateCampaignStatus | src/main/java/upc/edu/muusmart/campaignmanagement/application/service/CampaignService.java:152-164 | the status is checked before the lookup, so an invalid status changes nothing; then NotFound and Security; on success only the status changes, to any allowed status whatever the current one, and the response carries the old updatedAt; the flush refreshes the stored updatedAt only when the status really changed; every other stored campaign is untouched |
| CampaignServices.CampaignService.AddGoalToCampaign | src/main/java/upc/edu/muusmart/campaignmanagement/application/service/CampaignService.java:176-202 | NotFound, then Security before the metric check (InvalidValue), then DuplicateResource for a description equal ignoring case; a request past all three guards succeeds; on success the goal list grows by exactly one goal at its end, updatedAt is unchanged and nothing else in the store changes; on failure nothing changes |
| CampaignServices.CampaignService.AddChannelToCampaign | src/main/java/upc/edu/muusmart/campaignmanagement/application/service/CampaignService.java:214-235 | NotFound, Security, then DuplicateResource for a channel type equal ignoring case; a request past these guards succeeds; on success the channel list grows by exactly one at its end, the goals and updatedAt are unchanged; on failure nothing changes |
| CampaignServices.CampaignService.GetGoalsByCampaignId | src/main/java/upc/edu/muusmart/campaignmanagement/application/service/CampaignService.java:247-257 | NotFound for a missing id, Security iff neither admin nor owner, the campaign's goals in order otherwise |
| CampaignServices.CampaignService.GetChannelsByCampaignId | src/main/java/upc/edu/muusmart/campaignmanagement/application/service/CampaignService.java:269-279 | NotFound for a missing id, Security iff neither admin nor owner, the campaign's channels in order otherwise |
| Stables.LocationOrDefault | src/main/java/upc/edu/muusmart/campaignmanagement/application/service/StableService.java:47 | a null or blank location becomes "Peru", any other is kept verbatim, and the result is never blank |
| Stables.LocationOrDefaultIdempotent | src/main/java/upc/edu/muusmart/campaignmanagement/application/service/StableService.java:47 | applying the location default to a defaulted location changes nothing |
| Stables.StableRepository.constructor | src/main/java/upc/edu/muusmart/campaignmanagement/domain/model/aggregates/Stable.java:18-31 | an empty stable store satisfies its invariant (ids under their keys, (owner, name) unique, no blank location) |
| Stables.StableRepository.NameTakenByOne | src/main/java/upc/edu/muusmart/campaignmanagement/application/service/StableService.java:39 | `NameTaken` is findByNameAndOwnerUsername(...).isPresent(); in a valid stable store a taken (name, owner) pair belongs to exactly one stable |
| Stables.StableService.CreateStable | src/main/java/upc/edu/muusmart/campaignmanagement/application/service/StableService.java:38-53 | a name the caller already uses gives DuplicateResource and saves nothing; otherwise exactly one stable is stored under the next id, owned by the caller, with the request's name, description and capacity and the defaulted location and status; the store invariant is kept |
| Stables.StableService.GetAllStables | src/main/java/upc/edu/muusmart/campaignmanagement/application/service/StableService.java:63-71 | all stables for an admin, exactly the caller's own otherwise, each as stored |
| Stables.StableService.GetStableById | src/main/java/upc/edu/muusmart/campaignmanagement/application/service/StableService.java:82-89 | NotFound for a missing id; Security exactly when the caller is neither admin nor owner; the stable otherwise |
| JwtFilter.BearerToken | src/main/java/upc/edu/muusmart/campaignmanagement/infrastructure/security/JwtAuthenticationFilter.java:41-43 | a token exists exactly when the header starts with "Bearer ", and the header is then "Bearer " followed by the token |
| JwtFilter.ElementsBeforeNull | src/main/java/upc/edu/muusmart/campaignmanagement/infrastructure/security/JwtAuthenticationFilter.java:69-72 | a list claim gives its elements' strings in order, stopping at the first null element (whose exception the filter catches) |
| JwtFilter.ElementsBeforeNullUnique | src/main/java/upc/edu/muusmart/campaignmanagement/infrastructure/security/JwtAuthenticationFilter.java:69-83 | the roles read before the loop stops at the end or at a null element are exactly the list decoding |
| JwtFilter.DecodeListRoles | src/main/java/upc/edu/muusmart/campaignmanagement/infrastructure/security/JwtAuthenticationFilter.java:69-72 | the list loop yields exactly the decoded roles of the list claim |
| JwtFilter.TrimEach | src/main/java/upc/edu/muusmart/campaignmanagement/infrastructure/security/JwtAuthenticationFilter.java:74-76 | the string loop adds each piece trimmed, in order |
| JwtFilter.DecodeStringRoles | src/main/java/upc/edu/muusmart/campaignmanagement/infrastructure/security/JwtAuthenticationFilter.java:73-76 | a string claim yields its comma-separated pieces, each trimmed, in order |
| JwtFilter.DecodeRoles | src/main/java/upc/edu/muusmart/campaignmanagement/infrastructure/security/JwtAuthenticationFilter.java:61-83 | the decoding matches the role specification: list, string, or no roles for any other claim |
| JwtFilter.StringRolesAreClean | src/main/java/upc/edu/muusmart/campaignmanagement/infrastructure/security/JwtAuthenticationFilter.java:73-76 | a role from a string claim has no comma, neither starts nor ends with a blank, and is acceptable as an authority exactly when it is not empty |
| JwtFilter.TwoPieceRoles | src/main/java/upc/edu/muusmart/campaignmanagement/infrastructure/security/JwtAuthenticationFilter.java:73-76 | a string with one comma and a non-empty second side yields its two sides, trimmed |
| JwtFilter.CommaSpaceSeparatedRoles | src/main/java/upc/edu/muusmart/campaignmanagement/infrastructure/security/JwtAuthenticationFilter.java:73-76 | "A, B" with clean role names A and B yields exactly [A, B] |
| JwtFilter.TrailingCommaSpaceThrows | src/main/java/upc/edu/muusmart/campaignmanagement/infrastructure/security/JwtAuthenticationFilter.java:73-89 | a string claim ending in ", " yields an empty role, so building the authorities fails |
| JwtFilter.ListAndAbsentClaimExamples | src/main/java/upc/edu/muusmart/campaignmanagement/infrastructure/security/JwtAuthenticationFilter.java:61-77 | ["ROLE_ADMIN"] makes an admin; a null element cuts the list short; no claim yields no roles and no admin |
| JwtFilter.BuildAuthorities | src/main/java/upc/edu/muusmart/campaignmanagement/infrastructure/security/JwtAuthenticationFilter.java:85-89 | one authority per role, in the same order, or none at all when some role has no text (the authority constructor throws) |
| JwtFilter.IsAdmin | src/main/java/upc/edu/muusmart/campaignmanagement/interfaces/rest/CampaignController.java:34-35 | the admin flag holds exactly when some authority is "ROLE_ADMIN" |
| JwtFilter.AdminIffDecodedRole | src/main/java/upc/edu/muusmart/campaignmanagement/interfaces/rest/StableController.java:49-50 | the admin flag computed from the installed authorities holds exactly when "ROLE_ADMIN" is a decoded role |
| JwtFilter.FilterDecision | src/main/java/upc/edu/muusmart/campaignmanagement/infrastructure/security/JwtAuthenticationFilter.java:41-96 | the filter acts exactly when there is a bearer token, a readable subject, no existing authentication and a valid token; it then installs the subject as principal with one authority per decoded role, or throws iff some role has no text; an existing authentication is never replaced |
| JwtFilter.FilterOutcome | src/main/java/upc/edu/muusmart/campaignmanagement/infrastructure/security/JwtAuthenticationFilter.java:41-96 | an existing authentication is kept, a request without a bearer token passes through unchanged, and a new authentication is installed only from a validated bearer token into an empty context |
| JwtFilter.FilterChain.DoFilter | src/main/java/upc/edu/muusmart/campaignmanagement/infrastructure/security/JwtAuthenticationFilter.java:104 | handing the request on is counted once |
| JwtFilter.DoFilterInternal | src/main/java/upc/edu/muusmart/campaignmanagement/infrastructure/security/JwtAuthenticationFilter.java:30-105 | the context ends as the filter decision says, and the chain is continued exactly once whether or not authentication succeeded, unless the authority constructor threw, which leaves the context as it was |
| ExceptionHandling.StatusOf | src/main/java/upc/edu/muusmart/campaignmanagement/interfaces/rest/GlobalExceptionHandler.java:21-72 | the status is a client error (below 500) exactly when the exception is not the catch-all runtime exception |
| ExceptionHandling.FieldErrorMap | src/main/java/upc/edu/muusmart/campaignmanagement/interfaces/rest/GlobalExceptionHandler.java:23-28 | for a non-empty error list the last error's field is a key and maps to that error's message |
| ExceptionHandling.Handle | src/main/java/upc/edu/muusmart/campaignmanagement/interfaces/rest/GlobalExceptionHandler.java:21-72 | each handler answers with the status StatusOf gives, and every answer but the validation one has exactly the "error" key |
| ExceptionHandling.FieldErrorMapKeys | src/main/java/upc/edu/muusmart/campaignmanagement/interfaces/rest/GlobalExceptionHandler.java:21-30 | the validation body has a key for exactly the fields that have an error |
| ExceptionHandling.FieldErrorMapLastWins | src/main/java/upc/edu/muusmart/campaignmanagement/interfaces/rest/GlobalExceptionHandler.java:24-28 | each field maps to the message of its last error |
| ExceptionHandling.LaterFieldErrorWins | src/main/java/upc/edu/muusmart/campaignmanagement/interfaces/rest/GlobalExceptionHandler.java:24-28 | two errors for one field leave only the second message |
| ExceptionHandling.HandleValidationExceptions | src/main/java/upc/edu/muusmart/campaignmanagement/interfaces/rest/GlobalExceptionHandler.java:21-30 | the put loop yields 400 with the field-error map |
| ExceptionHandling.HandleClassifies | src/main/java/upc/edu/muusmart/campaignmanagement/interfaces/rest/GlobalExceptionHandler.java:21-72 | 400 iff validation or invalid value; 403 iff security or access denied; 404 iff not found; 409 iff duplicate or data integrity; 500 iff any other runtime error; every non-validation body is exactly the "error" key with the message, prefixed "Data integrity violation: " for integrity violations |
| ExceptionHandling.ServiceErrorsAreDistinctClientErrors | src/main/java/upc/edu/muusmart/campaignmanagement/interfaces/rest/GlobalExceptionHandler.java:32-65 | every service error is a 4xx, never a 500, and different service errors get different statuses, so forbidden is never reported as not found |
| Text.EqualsIgnoreCase | src/main/java/upc/edu/muusmart/campaignmanagement/application/service/CampaignService.java:188 | equal strings are equal ignoring case, and strings equal ignoring case have the same length |
| Text.IsBlank | src/main/java/upc/edu/muusmart/campaignmanagement/application/service/StableService.java:47 | a string is blank exactly when it has no text, and the empty string is blank |
| Text.HasText | src/main/java/upc/edu/muusmart/campaignmanagement/infrastructure/security/JwtAuthenticationFilter.java:88 | a string with text is not empty (SimpleGrantedAuthority demands text of a role) |
| Text.Trim | src/main/java/upc/edu/muusmart/campaignmanagement/infrastructure/security/JwtAuthenticationFilter.java:75 | trim never lengthens a string, and a non-empty string with no character at or below U+0020 at either end is returned as is |
| Text.BlankTrimsToEmpty | src/main/java/upc/edu/muusmart/campaignmanagement/application/service/StableService.java:47 | every ASCII whitespace character is at or below U+0020, so a string that is blank in this ASCII model trims to the empty string |
| Text.Split | src/main/java/upc/edu/muusmart/campaignmanagement/infrastructure/security/JwtAuthenticationFilter.java:74 | a string without the separator comes back whole, and otherwise the last part is never empty (trailing empty parts are dropped) |
| Text.TrimStartDrops | src/main/java/upc/edu/muusmart/campaignmanagement/infrastructure/security/JwtAuthenticationFilter.java:75 | trimming the start drops a run of characters at or below U+0020 and stops at the first other character |
| Text.TrimEndKeeps | src/main/java/upc/edu/muusmart/campaignmanagement/infrastructure/security/JwtAuthenticationFilter.java:75 | trimming the end keeps a prefix and drops only such characters after it |
| Text.TrimSlice | src/main/java/upc/edu/muusmart/campaignmanagement/infrastructure/security/JwtAuthenticationFilter.java:75 | trim yields a contiguous slice that neither starts nor ends with such a character, and everything cut off is such a character |
| Text.TrimOfTrimmed | src/main/java/upc/edu/muusmart/campaignmanagement/infrastructure/security/JwtAuthenticationFilter.java:75 | a string without such characters at its ends is its own trim |
| Text.TrimLeading | src/main/java/upc/edu/muusmart/campaignmanagement/infrastructure/security/JwtAuthenticationFilter.java:75 | a leading blank makes no difference to trim |
| Text.TrimIdempotent | src/main/java/upc/edu/muusmart/campaignmanagement/infrastructure/security/JwtAuthenticationFilter.java:75 | trimming twice is trimming once |
| Text.PiecesAreSeparatorFree | src/main/java/upc/edu/muusmart/campaignmanagement/infrastructure/security/JwtAuthenticationFilter.java:74 | no piece between separators contains the separator |
| Text.JoinPieces | src/main/java/upc/edu/muusmart/campaignmanagement/infrastructure/security/JwtAuthenticationFilter.java:74 | joining all pieces with the separator gives the string back |
| Text.PiecesWithoutSeparator | src/main/java/upc/edu/muusmart/campaignmanagement/infrastructure/security/JwtAuthenticationFilter.java:74 | a string without the separator is a single piece |
| Text.PiecesAfterFirstSeparator | src/main/java/upc/edu/muusmart/campaignmanagement/infrastructure/security/JwtAuthenticationFilter.java:74 | the text before the first separator is the first piece, followed by the pieces of the rest |
| Text.DropTrailingEmptyIsPrefix | src/main/java/upc/edu/muusmart/campaignmanagement/infrastructure/security/JwtAuthenticationFilter.java:74 | removing trailing empty pieces keeps a prefix of the pieces |
| Text.SplitIsSeparatorFree | src/main/java/upc/edu/muusmart/campaignmanagement/infrastructure/security/JwtAuthenticationFilter.java:74 | no part of a split contains the separator |
| Text.SplitTwo | src/main/java/upc/edu/muusmart/campaignmanagement/infrastructure/security/JwtAuthenticationFilter.java:74 | two separator-free parts joined by one separator split back into the two parts when the second is not empty |
| Text.LastPieceNonEmpty | src/main/java/upc/edu/muusmart/campaignmanagement/infrastructure/security/JwtAuthenticationFilter.java:74 | the last piece is not empty when the string does not end with the separator |
| Text.SplitJoin | src/main/java/upc/edu/muusmart/campaignmanagement/infrastructure/security/JwtAuthenticationFilter.java:74 | split loses nothing when the string does not end with the separator: joining the parts gives it back |

## Left out

- Spring and servlet plumbing is not modelled: request routing, `@PreAuthorize`, the URL rules, `WebAuthenticationDetailsSource` and logging. The security context is a small class that one request reads and writes.
- The token utility is not part of this model. Signature checks, subject extraction and claim reading are opaque functions passed in. An exception from `extractUsername` is the absent subject. `validateToken` is a total boolean, so an exception thrown from it is not modelled.
- JPA is not modelled: derived queries, transactions, lazy loading, database unique constraints and the orphan-removal cascade. The stores are maps. Deleting a campaign removes the object together with the goal and channel lists it holds.
- Goal and channel ids and their own repositories are not modelled. Children are read from the campaign's lists.
- Listings are maps from id to response, so the order of `findAll`/`findByOwnerUsername` results is not modelled.
- Wall-clock time is an integer parameter: `now` at save and `flushTime` at the flush of `updateCampaignStatus`. The pre-persist callback runs at `save`, as JPA does for a new entity. The pre-update callback runs only at the flush, after the response is built, and only for a changed column; adding a goal or a channel changes no campaign column, so it never refreshes `updatedAt`.
- `DataIntegrityViolationException` comes from the storage layer. The model's stores never raise it; the handler still maps it.
- The messages of the service exceptions are not modelled. An error kind carries no text, and the handler takes the message as input.
- Case-insensitive comparison, `isBlank` and `hasText` are restricted to ASCII. Unicode case folding and non-ASCII whitespace are not modelled. `trim` is modelled in full: it cuts exactly the characters at or below U+0020.
- The stable status is an enum in the source. Here it is the name of its constant, as a string.
- The request classes for campaigns, goals and channels, and `Goal.java`, are not part of this model. Their field types are inferred from how the service uses them. Null request fields are assumed rejected by bean validation before the service runs.
- `Campaigns.Campaign.AddGoal`: the goal value the caller passed in does not get its back-reference set. Only the stored copy does, because goals are values here, not shared objects.
- `ExceptionHandling.HandleValidationExceptions`: every binding error is a field error. A global (non-field) error, which makes the source's cast throw, is not modelled.
- Concurrent requests and last-write-wins races are not modelled.
