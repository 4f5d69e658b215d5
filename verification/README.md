# Llamero: control-plane verification

Llamero keeps a registry of Ollama backends in Redis, routes model requests to
them, publishes a model catalogue, logs users in over OAuth and hands out
personal access tokens. This project models the logic behind that in Dafny and
proves what it promises.

## What is modelled

**The backend registry.** Redis is a map of hashes and a sorted set
(`RedisStore`). `Registry` holds the service as a class over that store:
startup registration, syncs, route lookup. `Interleaving` is the same code with
several tasks at once: each ZRANGE, each HGETALL and each MULTI/EXEC is one
step, any task may step next, and any task may crash at any point.

- `Reconciliation` says what a registration or a full sync leaves in a store
  nothing else is writing to.
- `Runs` says what holds in every interleaving from the empty store.
- A registration that finishes while a sync is under way need not leave exactly
  the defined backends. `Runs.ExtraBackendsAreStaleSyncs` says exactly when an
  extra backend is there, `StaleSync.LeftoverIsPossible` is a run that leaves
  one, and `Runs.RegistrationAlone` is the result when no other task writes.

Underneath lie the text functions (`Text`), byte-wise string order and sorting
(`Ordering`), decimal text of 64-bit integers (`Decimal`), the comma-joined list
codec (`ListCodec`), the hash layout (`Records`) and what a poll is turned into
(`Fetch`).

**Routing and the catalogue.** `Routing` is the choice of a backend for a model.
`Catalogue` is the fold of all records into one map of models, in closed form;
`CatalogueRecords` says the same of the records themselves; `CatalogueOrder` says
when the order of its contributions matters; `Agreement` compares it with
routing, which reads name lists where the catalogue prefers metadata.

**The OAuth state store.** `StateStore` is the expiring, single-use table for
the `state` parameter (section 10.12 of RFC 6749), proved to answer as a ledger
that never cleans up.

**Personal access tokens.** `Tokens` has the minting handler, claim
construction, the tokens table, revocation, validation and scope checks;
`TokenRuns` is the machine of logins, mintings, signings, revocations, user
removals and validations with every database round trip a step of its own. The
expiry claim is that of section 4.1.4 of RFC 7519, the identifier that of
section 4.1.7.

**Roles.** `Roles` parses the group mapping, builds the group index and resolves
a user's groups to a role.

Inputs that the code takes from outside are parameters: clock readings, drawn
identifiers, the outcome of a poll, and the order in which a map is iterated.
Methods that loop over a map take its keys in any order, so what they ensure
holds for every order. Polls are functions of the backend id in the sequential
sync, one per listed backend.

## Where the code does less than one might expect

- The list codec is lossless on exactly the lists of trimmed, non-empty,
  comma-free values (`ListCodec.CodecRoundTrip`). After a poll that names a model
  with a comma, the stored name lists and the stored metadata name different
  models (`Runs.StoredTripleFromOnePoll`, exactly then). The catalogue shows such
  a model and routing cannot hit it (`Agreement.CommaNameUnroutable`, with
  `Agreement.CommaWitness` for a model "a,b"); catalogue and routing agree if and
  only if no listed metadata has such a name
  (`Agreement.RoutingAndCatalogueAgree`). Runs are not restricted in any way.
- A record with no models shows the legacy `available_models` field when one is
  stored (`Records.LoadAfterSave` has the exact condition); no code here writes
  that field, and in no run is it present (`Runs.IndexAgrees`).
- A model's creation time can depend on the order of the contributions: given no
  time and the time 5, at clock reading 3, it is 3 in one order and 5 in the
  other (`CatalogueOrder.OrderCanMatter`). `CatalogueOrder.CreatedIgnoresOrder`
  has the exact condition.
- The group index is independent of map iteration order exactly when no group is
  listed by two roles (`Roles.IndexOrder`).
- The size bound of the state store holds exactly for lifetimes that are not
  negative (`StateStore.StoreIsBounded`); the service uses five minutes.
- The row of a token is stored before the token is signed. For a session that
  has all its fields, signing is refused exactly when the clock has passed the
  expiry by then (`Tokens.SigningSucceeds`), which takes an hour or more after
  the minting (`TokenRuns.SigningRefusedOnlyLate`). Such a row stays behind, so
  rows may outnumber tokens; each token has exactly one row
  (`TokenRuns.OneRowPerToken`).

## Model

| member | source | states |
|---|---|---|
| Text.TrimSpaceIsCore | internal/redisstore/backends.go:118 | trimming removes white space only and all of it: any trimmed core between blank ends is the result |
| Text.IsSpaceIsWhiteSpace | internal/redisstore/backends.go:118 | white space is the twenty-five characters of Unicode's White_Space |
| Text.SplitOfJoin | internal/redisstore/backends.go:181-187 | joining parts without the separator is undone by splitting |
| Text.JoinOfSplit | internal/redisstore/backends.go:181-187 | splitting loses nothing: joining the parts gives the text back |
| Text.Dedupe | internal/handler/helpers.go:67-82 | the duplicate-removing loop (the same in middleware, roles and config) computes the order-keeping list of distinct trimmed values |
| Text.DistinctMembers | internal/handler/helpers.go:67-82 | a value is kept exactly when it is non-blank and some input trims to it |
| Text.DistinctPrefix | internal/handler/helpers.go:67-82 | the result for a prefix is a prefix of the result: values stand in order of first appearance |
| Decimal.IntRoundTrip | internal/redisstore/backends.go:144-153 | every 64-bit integer survives printing and parsing, and its text needs no trimming |
| ListCodec.DecodeStringSlice | internal/redisstore/backends.go:185-194 | the decoding loop keeps the trimmed non-blank parts in order |
| ListCodec.CodecRoundTrip | internal/redisstore/backends.go:181-194 | decoding an encoded list gives it back if and only if every element is non-empty, trimmed and comma-free |
| ListCodec.DecodeOfEncode | internal/redisstore/backends.go:181-194 | for every list, decoding the join is the concatenation of the decoded elements |
| ListCodec.DecodeClean | internal/redisstore/backends.go:185-194 | whatever the text, decoding yields only non-empty, trimmed, comma-free values |
| ListCodec.DecodeStable | internal/redisstore/backends.go:181-194 | encoding a decoded list and decoding it again changes nothing |
| Records.PopulateBackendStatus | internal/redisstore/backends.go:117-142 | field by field: healthy exactly when the field is "1", the trimmed address, the decoded lists, latency and time when their text is a 64-bit integer and zero values otherwise |
| Records.LoadAfterSave | internal/redisstore/backends.go:43-60 | loading what was saved over any hash gives the normalised record if and only if it lists models or no legacy list shows through |
| Records.NormaliseIdempotent | internal/redisstore/backends.go:103-142 | normalising twice is normalising once |
| Records.NormaliseFixed | internal/redisstore/backends.go:103-142 | the records the store carries unchanged are exactly those with trimmed address, clean lists, no weights and whole seconds |
| Records.LoadedIsNormal | internal/redisstore/backends.go:103-142 | whatever a hash holds, the loaded record is normal |
| Ordering.LessIsLexicographic | internal/service/models_api.go:23-25 | one string is before another exactly when, after a common beginning, it ends or has the smaller character |
| Ordering.SortedValues | internal/service/models_api.go:19-26 | collecting map values in any order and sorting them by key gives the one listing in increasing key order |
| Ordering.SortedIs | internal/service/backends.go:296-300 | sorting any duplicate-free listing of a set gives its unique strictly increasing enumeration |
| Fetch.AddListModels | internal/service/backends.go:304-320 | every non-empty installed name enters the registry with the data of its last entry, over what was there; other names keep their data |
| Fetch.AddProcessModels | internal/service/backends.go:322-341 | running names are added, each with the data of its first entry, and nothing recorded before is replaced |
| Fetch.CollectInstalled | internal/service/backends.go:268-274 | the installed names, each once |
| Fetch.CollectRunning | internal/service/backends.go:280-286 | the running names, each once |
| Fetch.FetchInstalledModels | internal/service/backends.go:256-302 | the poll's result is the sorted installed names, the sorted running names and the metadata sorted by name; the early return on an empty registry skips no needed sort |
| Fetch.FetchedIsGood | internal/service/backends.go:256-341 | both lists strictly increasing, trimmed, non-blank; metadata strictly increasing by name; metadata names are exactly installed and running names |
| Fetch.FetchedNames | internal/service/backends.go:263-287 | a name is among the models exactly when an installed entry is called that, and among the loaded ones exactly when the running list arrived and has such an entry; an entry is called by the first of its two fields that is not blank |
| Fetch.InstalledTakesPrecedence | internal/service/backends.go:304-358 | each metadata entry has time and remote host of the last installed entry of its name, or the expiry of the first running one when none is installed; a missing time is the reading's, a missing owner "library" |
| Fetch.GoodTripleEmpty | internal/service/backends.go:289-291 | without metadata both name lists are empty |
| RedisStore.ZRangeFlat | internal/redisstore/backends.go:74-76 | with equal scores the range is the increasing list of the members |
| RedisStore.ListingOfConsistent | internal/redisstore/backends.go:74-96 | over a consistent store the listing has one record per stored id, in increasing order of id, each as stored |
| RedisStore.Store.SaveBackend | internal/redisstore/backends.go:43-60 | the new state is the old one with the record's fields laid over its hash and its id in the sorted set |
| RedisStore.Store.DeleteBackend | internal/redisstore/backends.go:63-71 | hash and sorted-set entry of the id are gone, all else is as before |
| RedisStore.Store.GetBackend | internal/redisstore/backends.go:99-115 | the record as stored, or the zero record when there is no hash |
| RedisStore.Store.ListBackends | internal/redisstore/backends.go:79-96 | the records of the range in order, missing ones skipped |
| Routing.Select | internal/service/backends.go:203-245 | a record of best tier (loaded, installed, other) and earliest position among the healthy ones with an address, and none exactly when there is no such record |
| Routing.BestMeaning | internal/service/backends.go:215-244 | best said of the records: healthy with an address, first of those with the model loaded, else of those with it installed, else of all |
| Routing.HeadIsBest | internal/service/backends.go:209-244 | the head of the first non-empty hit list is the best record |
| Routing.BestUnique | internal/service/backends.go:203-245 | at most one position is best |
| Routing.BestIsLeastId | internal/service/backends.go:203-245 | over increasing ids, best means smallest id within the best tier |
| Registry.Service.RegisterBackends | internal/service/backends.go:27-94 | succeeds exactly when trimmed ids and addresses are non-empty and each pairwise distinct; then the store is the reconciled one, else it is the old store overlaid with the definitions before the first invalid one, and the error names what is wrong with that one |
| Registry.Service.SaveDefinitions | internal/service/backends.go:38-82 | the definition loop: same verdict, and the store overlaid with the definitions accepted so far |
| Registry.Service.Prune | internal/service/backends.go:84-91 | in any iteration order, exactly the known and undesired backends are deleted |
| Registry.Classify | internal/service/backends.go:43-58 | the ordered checks of one definition decide whether validity extends to it, and for which reason it does not |
| Registry.DefsValidity | internal/service/backends.go:43-56 | definitions are valid exactly when trimmed ids and addresses are non-empty and each pairwise different |
| Registry.Service.SyncBackend | internal/service/backends.go:367-382 | a blank address is refused without a save; otherwise the hash says healthy exactly when the poll was answered, with its latency and time, its models if it was answered and those of the record if not, and address and tags of the record |
| Registry.Service.SyncBackends | internal/service/backends.go:97-108 | all listed backends in order, stopping at the first refusal |
| Registry.Service.SyncBackendByID | internal/service/backends.go:111-124 | blank id and unknown id are refused and change nothing, otherwise the loaded record is synced |
| Registry.Service.LookupBackendRoute | internal/service/backends.go:136-167 | the first listed record of the trimmed id decides: its route, or bad gateway when its address is blank; not found exactly when there is none |
| Registry.Service.RouteBackend | internal/service/backends.go:170-179 | id and address of the best record, or none exactly when no record is eligible |
| Reconciliation.OverlayElsewhere | internal/service/backends.go:43-82 | saving definitions leaves hash and score of every other backend alone |
| Reconciliation.OverlayAt | internal/service/backends.go:43-82 | each definition ends up once, over what its hash held before, with score 0 |
| Reconciliation.OverlayKeepsAll | internal/service/backends.go:43-82 | a registration that stops early has removed no backend: old ids and the ids of the definitions before the invalid one |
| Reconciliation.ReconciledStore | internal/service/backends.go:27-94 | after a registration alone the stored ids are exactly the defined ids, and index and hashes agree |
| Reconciliation.StoredIDs | internal/service/backends.go:43-91 | after a registration alone an id is stored exactly when some definition has it, trimmed |
| Reconciliation.ReconciledHash | internal/service/backends.go:60-81 | each hash is the old one with the registered record over it |
| Reconciliation.ReconciledRecord | internal/service/backends.go:60-81 | known backends keep health, latency, models and metadata, new ones start healthy and empty; trimmed id, trimmed address and tags are the definition's |
| Reconciliation.SecondRunStamps | internal/service/backends.go:27-94 | a second run of the same registration changes the update times and nothing else |
| Reconciliation.SyncStops | internal/service/backends.go:102-106 | a sync stops at the first record without an address, with those before it synced and the later ones not |
| Reconciliation.SyncedStore | internal/service/backends.go:97-108 | a full sync of a quiet store succeeds, loses and adds no backend, and each record is healthy exactly when its poll was answered, with that poll's latency, whole-second time and, if answered, models; all else stays |
| Interleaving.TripleSurvives | internal/redisstore/backends.go:43-60 | saved model lists and metadata load back together as saved if and only if every listed name is clean |
| Interleaving.GoodTripleSurvives | internal/redisstore/backends.go:43-60 | a record whose metadata names exactly its listed models still does after saving and loading if and only if no name has a comma |
| Interleaving.SaveKeepsStore | internal/redisstore/backends.go:43-60 | saving a record whose stored form is acceptable keeps index and hashes in agreement and every record acceptable |
| Interleaving.NextKeepsInv | internal/service/backends.go:27-124 | every step of every task, whatever a poll returns, keeps the invariant over store, snapshots in flight and answers |
| Interleaving.RunKeepsInv | cmd/worker/main.go:102-107 | the invariant holds all along every run of concurrent tasks from the empty store |
| Runs.StoredTripleFromOnePoll | internal/service/backends.go:367-382 | in every interleaving each stored record's models, loaded models and metadata are all empty or all from one poll of that very backend, the lists cut at commas; they are that poll's own, and well formed, if and only if it named no model with a comma |
| Runs.IndexAgrees | internal/redisstore/backends.go:43-71 | in every interleaving sorted set and hashes name the same backends, all scores are 0, no stored address is blank, no legacy field is stored |
| Runs.HeldWasRead | internal/redisstore/backends.go:79-115 | whatever record a task holds was in the store, exactly so, when that task read it |
| Runs.AnswerWasRead | internal/redisstore/backends.go:79-96 | a completed listing has strictly increasing ids, and each of its records was stored at some moment of the call |
| Runs.StoredThroughoutIsListed | internal/redisstore/backends.go:79-96 | a backend that is stored all through a listing is in its answer |
| Runs.RoutePicksLeastId | internal/service/backends.go:203-245 | in every interleaving routing over a completed listing picks the smallest id of the best tier |
| Runs.SyncSavesPoll | internal/service/backends.go:367-382 | in every interleaving, after a sync step the stored record is healthy exactly when the poll was answered, with its latency, time and models cut at commas; unanswered, it has the models the task had read; address and tags are as read |
| Runs.StopsOnlyForCause | internal/service/backends.go:27-124 | in every interleaving a task that gives up crashed, met an invalid definition, or was asked to sync a backend that is not stored |
| Runs.ResurrectionIsStale | internal/service/backends.go:367-382 | a sync that brings back an absent backend saves a reading older than the last deletion of it |
| Runs.ExtraBackendsAreStaleSyncs | internal/service/backends.go:27-124 | after a registration amid syncs, a backend it does not define is stored if and only if a sync that had read it before its deletion put it back meanwhile and it stayed |
| Runs.DefinedBackendsAreStored | internal/service/backends.go:27-94 | syncs running alongside never cost a registration a backend it defines |
| Runs.RegistrationAlone | internal/service/backends.go:27-94 | when no other task writes meanwhile, the stepwise registration ends in the reconciled store, whatever order it deletes in |
| Runs.SyncAlone | internal/service/backends.go:97-108 | when no other task writes meanwhile, a stepwise full sync that finishes ends in the store of the sequential sync with the outcomes of its own polls |
| StaleSync.LeftoverIsPossible | internal/service/backends.go:84-124 | a concrete run in which a finished registration that defines nothing is followed by a stale sync that puts a backend back |
| Catalogue.ModelMap.AddModel | internal/service/models_api.go:78-106 | the map after one contribution: earliest time, first owner, defaults for a new entry |
| Catalogue.ModelMap.CollectModels | internal/service/models_api.go:45-76 | the nested loops add every record's contributions in order, metadata where there is any, else names |
| Catalogue.ListModels | internal/service/models_api.go:14-27 | for any map iteration order the list is the entries in increasing order of id |
| Catalogue.GetModel | internal/service/models_api.go:30-43 | bad request exactly for a blank id, not found exactly when the trimmed id is not in the catalogue, otherwise that entry |
| Catalogue.CatalogueClosedForm | internal/service/models_api.go:45-106 | keys are exactly the trimmed non-blank names contributed; the owner is that of the first contribution; the time is the least non-zero one offered, the clock's included when the first offers none |
| CatalogueRecords.CatalogueNames | internal/service/models_api.go:51-82 | a name is in the catalogue exactly when some listed record has it, trimmed, in its metadata or, without metadata, among its models |
| CatalogueRecords.CatalogueFromRecords | internal/service/models_api.go:51-104 | from the records: the creation time is the least non-zero metadata time in seconds, or update time where the metadata gives none or is absent, the clock's included when the first entry gives none; the owner is that of the first entry, or that backend's id when blank, or "library" |
| Catalogue.ListAgreesWithGet | internal/service/models_api.go:14-43 | list ids strictly increase, and a model is listed exactly when asking for its id returns it |
| CatalogueOrder.CreatedIgnoresOrder | internal/service/models_api.go:78-106 | at one clock reading, names and creation time do not depend on the order of the contributions if and only if all contributions of the name give a time, or none does, or the reading is zero or not before the least time given |
| CatalogueOrder.TimesAgree | internal/service/models_api.go:78-106 | when every contribution of the name gives a time, neither order nor clock changes whether it is listed or its creation time |
| CatalogueOrder.OrderCanMatter | internal/service/models_api.go:83-96 | two contributions of one name at one clock reading whose order decides the creation time |
| Agreement.GoodRecordNames | internal/service/models_api.go:57-73 | a well-formed record contributes exactly the names routing can hit on it |
| Agreement.RoutingAndCatalogueAgree | internal/service/backends.go:215-230 | in every interleaving, over any completed listing, the catalogue finds exactly the names some listed record has loaded or installed, for all names, if and only if no listed metadata names a model with a comma |
| Agreement.CommaNameUnroutable | internal/redisstore/backends.go:181-194 | a model name with a comma that routing could hit on the saved record is contributed to the catalogue by the loaded record and cannot be hit on it |
| Agreement.CommaWitness | internal/service/models_api.go:57-73 | a poll that returns one model "a,b", after which the catalogue finds it and routing cannot hit it |
| StateStore.StateStore.Issue | internal/auth/state.go:26-34 | expired entries go, the drawn token enters with its expiry |
| StateStore.StateStore.Consume | internal/auth/state.go:37-56 | answer and new table after cleanup and the second clock reading |
| StateStore.StateStore.Cleanup | internal/auth/state.go:58-65 | in any iteration order exactly the expired entries are deleted |
| StateStore.StoreRefinesLedger | internal/auth/state.go:26-65 | for every sequence of calls under a clock that does not go back and fresh tokens, the answers are those of a ledger that never cleans up |
| StateStore.ConsumeExactly | internal/auth/state.go:37-56 | consuming succeeds exactly when the token was issued before, not consumed, and the second reading is not past its expiry |
| StateStore.SingleUse | internal/auth/state.go:37-56 | no token is accepted twice |
| StateStore.StoreIsBounded | internal/auth/state.go:26-34 | right after any issue the table holds at most as many entries as tokens were issued since the cleanup reading minus the lifetime, if and only if the lifetime is not negative |
| Roles.ParseRoleGroups | internal/config/config.go:151-181 | a blank value maps nothing; else the entries in order, the first bad one deciding |
| Roles.EntryMeaning | internal/config/config.go:159-178 | blank entries are skipped, one without "=" or without a role before it is refused, any other sets its role's groups to the distinct trimmed values between the commas after the first "=" |
| Roles.ParseFormat | internal/config/config.go:151-181 | a written-out mapping, empty or with empty group lists too, reads back as the mapping, later entries of a role replacing earlier ones |
| Roles.BadItemDecides | internal/config/config.go:158-172 | once an entry is bad, no later entry changes the answer |
| Roles.ScopesMeaning | internal/roles/store.go:59-68 | a role is known exactly when some entry has its trimmed name, and its scopes are the distinct trimmed ones of the last such entry |
| Roles.Load | internal/roles/store.go:34-92 | loads exactly valid documents, each error is justified, each role has the distinct scopes of its last entry, and the index is that of some visiting order of the mapping |
| Roles.IndexOrder | internal/roles/store.go:74-85 | the index is the same for every map iteration order if and only if no group is listed by two roles |
| Roles.Resolve | internal/roles/store.go:95-108 | the role and scopes of the first value that, trimmed, is mapped |
| Roles.DetermineRole | internal/handler/oauth.go:218-229 | the role of the raw groups, or none exactly when none is mapped or its scopes are empty |
| Roles.DedupeIrrelevant | internal/handler/oauth.go:219-224 | removing duplicates first does not change the resolution |
| Roles.ResolutionMeaning | internal/roles/store.go:74-108 | with disjoint lists, whatever order built the index, the user gets the role listing the first of their groups that any role lists |
| Roles.NoRoleMeaning | internal/roles/store.go:74-108 | there is no role exactly when no role lists any of the user's trimmed groups |
| Roles.LoginRole | internal/handler/oauth.go:218-229 | from a valid document and a disjoint mapping, visited in any order, to the user: the login gets a role and scopes exactly when that role lists the first listed group, and they are the distinct scopes of the last entry of that name, and not empty |
| Tokens.MissingScopes | internal/handler/tokens.go:274-289 | the requested scopes that are not allowed, in order |
| Tokens.NoneMissing | internal/handler/tokens.go:274-289 | nothing is missing exactly when every requested scope is allowed |
| Tokens.HasScopes | internal/auth/claims.go:24-38 | true exactly when every required scope is held |
| Tokens.TokenService.CreateToken | internal/repository/tokens.sql.go:15-54 | a row is inserted exactly when the user exists, some scope is given and the identifier is new; it is unrevoked, unused and has the parameters given |
| Tokens.TokenService.GetTokenByJTI | internal/repository/tokens.sql.go:87-110 | the row of that identifier, or none when no row has it |
| Tokens.TokenService.CreatePersonalAccessToken | internal/service/tokens.go:29-85 | stored exactly when name, user, scopes and identifier are given, the expiry is not past and the table takes it; the row's fields; each refusal has its reason and stores nothing |
| Tokens.TokenService.RevokePersonalAccessToken | internal/service/tokens.go:146-172 | succeeds exactly for the user's own row; then that row is revoked and otherwise as before; no other row changes |
| Tokens.TokenService.ValidatePAT | internal/service/tokens.go:175-237 | of the row found: accepted exactly when it is a personal access token's, unrevoked, the claims' user's and not past its expiry; each refusal exactly for its reason; only acceptance changes the row, in its last use |
| Tokens.HandleCreateToken | internal/handler/tokens.go:126-216 | refusals store nothing; otherwise the row has the request's name, scopes and lifetime for the session's user, and the token signed has its user, e-mail, role, external subject, scopes, identifier and expiry, or the row stays alone when signing refuses |
| Tokens.MintingAccepted | internal/handler/tokens.go:131-170 | a request passes exactly when it comes from a session, names the token, asks for some scope and none not held, and for no lifetime or one of an hour to ninety days; what is then stored; the reason of each refusal |
| Tokens.LifetimeBounded | internal/handler/tokens.go:158-170 | for every 64-bit request accepted, the product of seconds and nanoseconds does not overflow and the expiry is one hour to ninety days ahead |
| Tokens.PreparedWithinMinter | internal/handler/tokens.go:131-156 | a prepared token asks only for scopes its minting session holds, for the same user, and the session is not itself a personal access token |
| Tokens.SigningSucceeds | internal/auth/token.go:74-190 | for a stored minting request, signing succeeds if and only if the session has an e-mail, a role and a subject and the clock has not passed the expiry, which is not the zero time |
| Tokens.PATIssued | internal/auth/token.go:68-207 | a personal access token is signed exactly when no field is missing and the expiry is not past, and its claims are those asked for, times rounded down to seconds |
| Tokens.SessionIssued | internal/auth/token.go:53-65 | the same for a session token, which runs for the configured lifetime from the first reading |
| Tokens.Require | internal/middleware/authz.go:36-110 | a personal access token is validated first and a refusal is final; then access is granted exactly when the token holds every distinct required scope |
| TokenRuns.NextKeepsInv | internal/service/tokens.go:29-237 | every step of the token machine keeps the invariant over rows, signed tokens, unsigned rows and validations in flight |
| TokenRuns.LoginSigns | internal/auth/token.go:53-65 | in every run a login signs exactly one session token with the user's own data and lifetime, or none when a field is missing |
| TokenRuns.MintedExactly | internal/handler/tokens.go:131-190 | in every run a signed session's request stores its row if and only if the session is no personal access token, the request passes, the user is not removed and the lifetime is not over at the insertion; and the whole row |
| TokenRuns.TokenSpeaksForMinter | internal/handler/tokens.go:192-205 | in every run a token carries user, e-mail, role and external subject of the session it was minted with |
| TokenRuns.OneRowPerToken | internal/handler/tokens.go:172-205 | in every run a signed token of an existing user has exactly one row, with the same identifier, user, scopes, type and expiry second; of a removed user, none |
| TokenRuns.SigningRefusedOnlyLate | internal/handler/tokens.go:181-209 | in every run, a stored row is left without a token by signing exactly when the clock has passed its expiry, an hour or more after the minting |
| TokenRuns.AcceptedWithinMinter | internal/middleware/authz.go:36-53 | in every run an accepted request needs only scopes held by the token and by the session that minted it, that session was not a personal access token, and acceptance is within ninety days of minting |
| TokenRuns.AcceptedExactly | internal/service/tokens.go:189-236 | in every run a validation is accepted if and only if at its lookup the user was not removed and the token's row was there and unrevoked, at its settling the row's expiry is not past, and the token holds every scope required |
| TokenRuns.LooksUpExactly | internal/middleware/authz.go:78-110 | a lookup takes place exactly for a signed personal access token with an identifier whose expiry second has not begun |
| TokenRuns.RevokedStays | internal/repository/tokens.sql.go:164-171 | once revoked, a row stays revoked while it exists, and its id is not used again |
| TokenRuns.RowRevoked | internal/repository/tokens.sql.go:164-171 | in every run a revocation by the owner's session marks that row and changes nothing else |
| TokenRuns.RevokedOnlyByOwner | internal/handler/tokens.go:229-256 | in every run a row becomes revoked only by a signed session of its owner, not a personal access token, for that row |
| TokenRuns.RevocationHolds | internal/service/tokens.go:146-237 | in every run, after the owner's session has revoked a row, no validation that looks its token up is ever accepted |
| TokenRuns.RevokedNeverAccepted | internal/service/tokens.go:189-216 | a validation whose lookup follows the revocation is never accepted, however the steps interleave |

## Left out

- HTTP plumbing: proxying, header copying, path rewriting, body and JSON
  decoding, parsing of the Authorization header, error bodies.
- Real Redis, Postgres, asynq and Ollama clients. The classes take it that Redis
  and Postgres answer; failed replies and processes going down are the `Crash`
  and `Drop` events of the interleaved models, and a validation that cannot
  record its use is one that never settles.
- Signing, verification, keys, issuer and audience: a token verifies only if it
  was signed with exactly these claims, and before its expiry second.
- The JSON of model metadata: a lossless pair by construction, so unmarshalling
  errors, marshalling errors and invalid UTF-8 are not modelled. Strings are
  sequences of Unicode scalar values.
- Reading YAML and the environment, the connection-string builder, logging,
  server start and shutdown. The document `Load` reads is given parsed.
- Users are ids: upserting by provider and subject, profile data and the other
  columns of the users table are not modelled. A removed user's id is not used
  again.
- The handlers that list and show tokens, and the columns `created_at` and
  `updated_at`.
- Identifiers are drawn fresh, and a subject either is the text of a user id or
  is not; other spellings that a UUID parser accepts do not occur in signed
  tokens.
- The table's time column keeps microseconds, rounded down.
- Weights: written by registration, dropped by the store, read by nobody.
- The projection of records to API objects in the backend listing, and the
  `backend:models` key that is deleted but never written.
- Overflow of clock arithmetic outside the token lifetime, and negative
  durations: times are unbounded integers of nanoseconds, except that stored
  seconds fit in 64 bits.
- `sort.Slice` and `sort.Strings` are insertion sorts here; keys are pairwise
  different wherever they are used, so the sorted result is the same.
- StateStore.StateStore.Consume: the mutex is not modelled; each call is atomic,
  as the lock makes it.
- CatalogueOrder.CreatedIgnoresOrder: the clock shows the same second for the
  whole catalogue; a reading that changes between two contributions is covered by
  `CatalogueOrder.TimesAgree` alone.
- Catalogue.ListAgreesWithGet: both answers are over the same records and clock;
  two calls that read the store at different times may differ.
