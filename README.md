# SmartWayz reporting core, modelled in Dafny

SmartWayz is a civic issue-reporting app. Citizens file reports of
infrastructure damage and hazards, with a location. Authorities read the
reports. It has a React frontend and a Django REST backend. This project
models the logic of that system that decides outcomes:

- **Browser API client** (`ApiClient`): when a bearer token is attached,
  the public-endpoint allow-list, the token fields and their local-storage
  mirror, and the single-flight refresh protocol. That protocol runs when
  protected requests come back 401: one refresh, the other callers queued,
  and the queue drained exactly once.
- **Reverse geocoding, on both sides** (`ClientGeocoding`,
  `ProxyGeocoding`, `GeoPlaces`):
  - the browser's provider chain (backend proxy, BigDataCloud, OpenCage),
    with a coordinate text as the last resort;
  - the backend proxy's parameter checks, cache, Nominatim and BigDataCloud
    address assembly, and its uncached fallback.
- **Authentication views** (`AuthViews`): the login, refresh and logout
  decision trees.
- **Serializers** (`CitizenSerializer`, `ReportSerializer`): email
  uniqueness and lowercasing, password confirmation, hashing on create and
  update, and the report field checks.
- **Viewsets** (`ReportView`, `SubCategoryView`, `CitizenView`,
  `AuthorityView`): query-parameter filters and ordering, `count`, `stats`,
  and the fixed response envelopes.
- **Reference data and seeders** (`SubCategoryModel`, `SeedCategories`,
  `SeedStatus`): the 19 sub-category types and their split into
  Infrastructure (8) and Hazard (11), the idempotent `get_or_create`
  migration, and the status seeding command with its counters and
  `--reset`.
- **Report wizard** (`ReportForm`): the three-step clamp machine and what
  it renders.

How the model is built:

- State that the source mutates is modelled as classes:
  - `ApiClient.Client`;
  - `ProxyGeocoding.GeoCache`;
  - `CitizenSerializer.CitizenInstance`;
  - `SeedCategories.CatalogDb`;
  - `SeedStatus.StatusTable`;
  - `ReportForm.Form`.
- The decision logic is modelled as pure functions with lemmas.
- Database tables are sequences of records, and local storage and the
  Django cache are maps.
- Network replies, `float()`, `make_password`, `check_password` and JWT
  minting, verification and blacklisting are parameters.
- `Text` and `Queries` are shared helpers:
  - JavaScript truthiness, substring search and ASCII lowercasing;
  - filtering, descending insertion sort and tallies.

## Model

| member | source | states |
|---|---|---|
| ApiClient.PublicEndpointIff | frontend/src/services/apiClient.js:177-188 | An endpoint is public exactly when one of the seven listed paths occurs in it and `/reports` occurs nowhere in it |
| ApiClient.CitizenDetailIsPublic | frontend/src/services/apiClient.js:182-188 | `/citizens/3/` is public, so updates and deletes of a citizen go out without a token, contrary to the comment on line 186 |
| ApiClient.RefreshIsPublic | frontend/src/services/apiClient.js:181-188 | The refresh endpoint is public, so the refresh call never carries the expired token |
| ApiClient.ReportPathsAreProtected | frontend/src/services/apiClient.js:187-188 | A citizen path containing `/reports`, and `/reports/` itself, are not public |
| ApiClient.AuthorizationHeaderSpec | frontend/src/services/apiClient.js:191-193 | The `Bearer <token>` header is attached exactly when a non-empty access token is held and the endpoint is not public |
| ApiClient.ErrorMessageSpec | frontend/src/services/apiClient.js:253-257 | A failed request's message is `message`, else `detail`, else `HTTP <status>: <text>`, and it is never empty |
| ApiClient.RefreshOutcomeSpec | frontend/src/services/apiClient.js:144-156 | The refresh call succeeds exactly on an ok status with `success` and a non-empty `data.access`, and it yields that token |
| ApiClient.On401Preserves | frontend/src/services/apiClient.js:210-226 | A 401 keeps "queue only while refreshing"; a protected 401 leaves a refresh in flight; a refresh starts only from the idle state |
| ApiClient.BurstWhileRefreshing | frontend/src/services/apiClient.js:214-223 | While a refresh is in flight, every further protected 401 only joins the queue, in arrival order |
| ApiClient.SingleFlight | frontend/src/services/apiClient.js:210-229 | Of N protected 401s from an idle client, exactly the first starts a refresh and the other N-1 are queued in order |
| ApiClient.QueuedLikeInitiator | frontend/src/services/apiClient.js:114-246 | A queued caller's outcome equals the outcome of the caller that ran the refresh: all retry once with the same new token, or all fail with the same error. Only the initiator's rejected retry also runs the `catch` block (`ApiClient.Client.FinishRetry`) |
| ApiClient.RetryRejectionBreaksSingleFlight | frontend/src/services/apiClient.js:226-245 | After a second refresh has started and queued a caller, the initiator's rejected retry clears the flag and empties the queue, so the next protected 401 starts another refresh while the second is in flight |
| ApiClient.RetryRejectionKeepsSingleFlight | frontend/src/services/apiClient.js:210-237 | If a rejected retry left the refresh state alone, a refresh in flight would stay the only one: every further 401 joins its queue in order |
| ApiClient.Client.constructor | frontend/src/services/apiClient.js:30-55 | A new client is idle with an empty queue and adopts the non-empty stored tokens |
| ApiClient.Client.RestoreTokens | frontend/src/services/apiClient.js:43-55 | Each stored non-empty token replaces the field; otherwise the field is kept; nothing else changes |
| ApiClient.Client.SetTokens | frontend/src/services/apiClient.js:60-70 | Both fields take the arguments; storage is written only for non-empty arguments, so an empty one leaves the old stored value |
| ApiClient.Client.ClearTokens | frontend/src/services/apiClient.js:92-102 | Both tokens become null and exactly `access_token`, `refresh_token` and `user` are removed from storage |
| ApiClient.Client.GetAccessToken | frontend/src/services/apiClient.js:107-109 | Returns the held access token |
| ApiClient.Client.ProcessQueue | frontend/src/services/apiClient.js:114-123 | Every queued caller, in order, is rejected with the error if there is one, else resolved with the token; the queue ends empty |
| ApiClient.Client.SendRefresh | frontend/src/services/apiClient.js:128-142 | Runs when the refresh starts: without a refresh token no call is made (it throws); otherwise the refresh call carries the refresh token held at that moment. Nothing changes |
| ApiClient.Client.RefreshAccessToken | frontend/src/services/apiClient.js:136-161 | Once the call settles: if none was made, the error is "no refresh token" and nothing changes; on success only the in-memory access token is replaced; on any failure every token is cleared, whatever is held by then |
| ApiClient.Client.BeginRequest | frontend/src/services/apiClient.js:167-260 | Sends with the header the classification allows. A protected 401 either queues, or starts the refresh and sends the refresh call with the refresh token held at that moment. Every other reply finishes the request |
| ApiClient.Client.OnUnauthorized | frontend/src/services/apiClient.js:210-226 | The queue-or-start decision equals the pure `On401` transition and keeps the protocol invariant |
| ApiClient.Client.RefreshSucceeded | frontend/src/services/apiClient.js:229-231 | From any valid state, including one where another caller already cleared the flag, the client is idle again and every queued caller is resolved with the new token |
| ApiClient.Client.CatchRefreshError | frontend/src/services/apiClient.js:238-245 | The client is idle again, every caller queued by then is rejected with the error, the browser is sent to `/auth`, and the tokens are untouched |
| ApiClient.Client.FinishRefresh | frontend/src/services/apiClient.js:226-246 | From any valid state, flag set or not, the outcome is decided by the refresh call sent when the refresh started and its reply, not by the tokens held at settlement. The queue is drained exactly once with that outcome, and tokens and storage end as the outcome demands |
| ApiClient.TokensClearedDuringRefresh | frontend/src/services/apiClient.js:128-142 | When the tokens are cleared while a refresh is in flight, the call already carries the refresh token, and a successful reply still completes the refresh with the new access token |
| ApiClient.Client.FinishRetry | frontend/src/services/apiClient.js:233-245 | The retry carries the new token. A response ends the request with its JSON and changes no client state. A rejected fetch fails the request and runs the `catch` block: flag cleared, every caller queued by then rejected, redirect |
| AuthViews.MatchingAccounts | backend/api/views/auth.py:27-29 | The lookup finds exactly the rows whose stored email equals the lowercased input |
| AuthViews.LoginSpec | backend/api/views/auth.py:18-126 | Missing email or password gives 400. Login succeeds exactly for the one account with the lowercased email and a checking password, and the user record then carries that account's id, name and email, with the token claims agreeing |
| AuthViews.AtMostOneMatch | backend/api/models/citizen.py:5 | With unique emails, at most one row matches |
| AuthViews.IdenticalCredentialFailures | backend/api/views/auth.py:32-126 | An unknown email, and a wrong password for the account with the email, both give the identical 401 "Invalid email or password" |
| AuthViews.LoginIgnoresInputCase | backend/api/views/auth.py:27-36 | The outcome does not depend on the letter case of the supplied email |
| AuthViews.MixedCaseStoredEmailNeverMatches | backend/api/views/auth.py:27-36 | An account stored with upper-case letters in its email can never log in |
| AuthViews.RefreshSpec | backend/api/views/auth.py:138-160 | Missing token gives 400; an invalid one gives 401; otherwise 200 with only the new access token |
| AuthViews.RefreshRoundTrip | backend/api/views/auth.py:146-154 | The browser's refresh call succeeds exactly when the backend verifies the token, and it yields the backend's new access token |
| AuthViews.LogoutSpec | backend/api/views/auth.py:171-192 | Missing token gives 400; any supplied token gives 200 "Logout successful", whatever the blacklisting does |
| CitizenSerializer.MixedCaseDuplicateAccepted | backend/api/serializers/citizen.py:33-39 | "John@Example.com" passes the check as written although "john@example.com" is stored |
| CitizenSerializer.ValidateEmailSpec | backend/api/serializers/citizen.py:31-39 | Corrected check: accepted exactly when no other citizen has the lowercased email; the result is that lowercased email |
| CitizenSerializer.KeepOwnEmail | backend/api/serializers/citizen.py:36-39 | On update, keeping one's own email is accepted |
| CitizenSerializer.AsWrittenAgreesOnLowerCase | backend/api/serializers/citizen.py:31-39 | The as-written and corrected checks agree on lower-case input |
| CitizenSerializer.ValidateSpec | backend/api/serializers/citizen.py:41-48 | Rejected exactly when both passwords are present and differ, with the error keyed `confirm_password`; otherwise the data is unchanged |
| CitizenSerializer.CreateFieldsSpec | backend/api/serializers/citizen.py:56-61 | `confirm_password` is dropped, the password is stored hashed, and every other field is copied |
| CitizenSerializer.UpdateFieldsSpec | backend/api/serializers/citizen.py:65-72 | Every supplied field is written unchanged except the password, which is hashed |
| CitizenSerializer.CitizenInstance.Update | backend/api/serializers/citizen.py:65-74 | The instance's attributes are overwritten by the update fields; attributes not supplied are kept |
| ClientGeocoding.SuccessfulAddressesNonEmpty | frontend/src/services/geocoding.js:12-80 | The proxy and BigDataCloud attempts succeed only with a non-empty address |
| ClientGeocoding.ReverseGeocode | frontend/src/services/geocoding.js:96-119 | Providers are called in order and stop at the first that returns its address; if all throw, the result is the coordinate text; it never throws |
| ClientGeocoding.CoordinateAddressExample | frontend/src/services/geocoding.js:86-88 | The fallback prints both coordinates with six decimals, e.g. `Location: 11.559400, 124.395000` |
| ClientGeocoding.LocationTextNonEmpty | frontend/src/services/geocoding.js:86-88 | The coordinate fallback is never empty |
| GeoPlaces.SameAddressBothSides | backend/api/views/geocoding.py:144-158 | The backend's BigDataCloud address (levels 6 and 5 only when the list is long enough) equals the browser's from the same reply |
| GeoPlaces.AddressLineEmptyIff | frontend/src/services/geocoding.js:68-80 | The joined address is empty exactly when no part is truthy, which is when BigDataCloud throws "No address found" |
| ProxyGeocoding.ParameterErrorSpec | backend/api/views/geocoding.py:46-69 | Accepted exactly when both parameters are given and parse to a finite latitude in [-90,90] and longitude in [-180,180]; "nan" is reported as invalid coordinates |
| ProxyGeocoding.UpstreamSpec | backend/api/views/geocoding.py:77-181 | Nominatim answers on 200; otherwise BigDataCloud on 200, with the browser's address; otherwise the `Location:` fallback. BigDataCloud is called only when Nominatim did not answer |
| ProxyGeocoding.EmptyNominatimAddress | backend/api/views/geocoding.py:98-124 | A Nominatim 200 whose address has none of the read keys yields an empty address, and it is still returned |
| ProxyGeocoding.BrowserAcceptsProxyAnswer | frontend/src/services/geocoding.js:12-22 | The browser accepts a proxy answer exactly when its address is non-empty |
| ProxyGeocoding.GeoCache.ReverseGeocode | backend/api/views/geocoding.py:46-181 | Bad parameters give 400 and nothing is called; a cache hit is returned without calling upstream; a miss caches an upstream answer but never the coordinate fallback |
| ProxyGeocoding.RepeatedQuery | backend/api/views/geocoding.py:72-167 | Once an upstream answer is cached, the same query returns it again and calls no upstream |
| ReportSerializer.FieldValidatorsSpec | backend/api/serializers/report.py:33-49 | `report_type` is accepted iff its category exists; latitude iff in [-90,90]; longitude iff in [-180,180]; accepted values are returned unchanged |
| ReportSerializer.FieldErrorSpec | backend/api/models/report.py:8-10 | The generated `report_type` field reports an unknown id with DRF's `Invalid pk "<id>" - object does not exist.` before `validate_report_type` runs, so the custom "Invalid category" message is never returned. A coordinate is accepted iff it has at most six decimal places and lies in range. More than six places gives the precision message first; six places, under 1000 in size and out of range gives the range message |
| ReportSerializer.SevenPlacesRefused | backend/api/models/report.py:9 | A latitude of 11.5594123 is refused with "Ensure that there are no more than 6 decimal places." although it is in range |
| ReportSerializer.ValidateSpec | backend/api/serializers/report.py:31-49 | Valid iff the category exists and both coordinates have at most six decimal places and lie in range. Otherwise exactly the failing fields are reported. Accepted fields are copied unchanged, and the read-only `id`, `citizen` and `created_at` never change the outcome |
| ReportView.NarrowingSpec | backend/api/views/report.py:36-48 | Each given parameter keeps exactly the matching rows; an absent one keeps all |
| ReportView.ListReportsSpec | backend/api/views/report.py:28-50 | The list holds exactly the rows matching every given parameter, newest first; with no parameter it is a reordering of all rows |
| ReportView.CreateSpec | backend/api/views/report.py:57-70 | An invalid submission is a 400 naming exactly the failing fields: an unknown category, or a coordinate with more than six decimal places or out of range. A valid one is a 500, because the read-only `citizen` is never set. Nothing is stored either way, and the citizen the request names makes no difference |
| ReportView.ValidReportNeverStored | backend/api/views/report.py:57-59 | A submission with an existing category and in-range coordinates of at most six decimal places gets a 500 and leaves the table unchanged |
| ReportView.CreateForSpec | backend/api/views/report.py:52-70 | With the citizen supplied, a valid submission is stored as exactly one new row with the citizen and the submitted fields. It then appears in that citizen's list, and every list keeps what it showed before. An invalid one stores nothing |
| ReportView.RefusalsSpec | backend/api/views/report.py:72-109 | `update`, `partial_update` and `destroy` always answer 403 and leave the table unchanged |
| ReportView.ReportStatsSpec | backend/api/views/report.py:116-125 | `total_reports` is the number of reports; each category name has one group with its exact count, the groups are sorted by count descending, and the counts sum to the total |
| SubCategoryModel.Ordinal | backend/api/models/sub_category.py:6-28 | Each type has a position in declaration order |
| SubCategoryModel.ChoicesDistinct | backend/api/models/sub_category.py:6-28 | The 19 choices are pairwise distinct |
| SubCategoryModel.MappingPartitionsChoices | backend/api/models/sub_category.py:31-55 | Infrastructure has 8 types and Hazard 11; concatenated they are the declaration order, and each type is in exactly one list |
| SubCategoryModel.MappingListsDistinct | backend/api/models/sub_category.py:31-55 | Neither list names a type twice |
| SubCategoryModel.CategoryOf | backend/api/models/sub_category.py:31-55 | Every type belongs to a category of the mapping |
| SubCategoryModel.CodesDistinct | backend/api/models/sub_category.py:8-28 | Distinct types have distinct stored codes |
| SubCategoryModel.CodeRoundTrip | backend/api/models/sub_category.py:8-66 | Reading a type's code back gives the type; any code that is read back is that type's code; every code fits 64 characters |
| SubCategoryModel.StrSpec | backend/api/models/sub_category.py:73-74 | `__str__` is the label, then the category name in parentheses; both can be read back from the text |
| SubCategoryView.ListSpec | backend/api/views/sub_category.py:26-37 | Without `category` there is one item per row, in order; with it, exactly the rows of that category |
| SubCategoryView.ByCategorySpec | backend/api/views/sub_category.py:39-65 | Without `category` the answer is 400; with it, the narrowed list, and `count` is its length |
| SubCategoryView.RetrieveSpec | backend/api/views/sub_category.py:9-37 | Retrieval finds a row exactly when one has the id and, when `category` is given, belongs to it; the item is that row |
| CitizenView.ListCitizensSpec | backend/api/views/citizen.py:24-87 | With `email`, exactly the citizens whose email contains it ignoring case; without it, all of them; ordered by descending id; `count` is the list's length |
| CitizenView.FieldErrorsWith | backend/api/serializers/citizen.py:15-39 | No field error exactly when all four fields are present and non-blank, name, email and password fit 64 characters, the password has at least 8, and the chosen email check passes |
| CitizenView.FieldErrors | backend/api/serializers/citizen.py:15-39 | As written: no field error exactly when the data is well formed and no citizen has the email exactly as given |
| CitizenView.RegisterWithSpec | backend/api/views/citizen.py:37-52 | With either email check: 201 exactly when the data is well formed, confirmed and accepted by the check, and no citizen has the lowercased email. The new row holds that email and the hashed password, and emails stay unique. When only that last condition fails the insert is a 500. Otherwise the table is unchanged |
| CitizenView.RegisterSpec | backend/api/views/citizen.py:37-52 | As written: 201 exactly when the data is well formed and confirmed and no citizen has the email as given or lowercased. A 500 exactly when only the lowercased form is taken. A 400 otherwise. The table changes only on 201 |
| CitizenView.RegisterIntendedSpec | backend/api/serializers/citizen.py:31-39 | With the check made on the lowercased email: 201 exactly when the data is well formed and confirmed and that email is free. A taken email is a 400 with an email error, and there is never a 500 |
| CitizenView.DuplicateRegistrationRejected | backend/api/tests/test_citizen.py:32-36 | Registering a stored email again, exactly as stored and in any case it was stored in, is a 400 and inserts nothing |
| CitizenView.CaseCollision | backend/api/serializers/citizen.py:33-39 | Well-formed, confirmed data whose email is free as given but taken in lowercase is a 500 as written and a 400 with the intended check |
| CitizenView.MixedCaseRegistrationServerError | backend/api/serializers/citizen.py:33-39 | With "john@example.com" stored, registering "John@Example.com" is a 500 as written and a 400 with the intended check |
| CitizenView.DestroySpec | backend/api/views/citizen.py:68-79 | The citizen is found exactly when one has the id and matches the `email` parameter. It is then removed alone with a 200; otherwise 404 and nothing changes |
| AuthorityView.ListAuthoritiesSpec | backend/api/views/authority.py:24-91 | With `search`, exactly the union of name matches and email matches, ignoring case; without it, all authorities; ordered by descending id; `count` is the list's length |
| AuthorityView.CreateThenDestroy | backend/api/views/authority.py:41-83 | Deleting an authority just created under an unused id answers 200 and gives back exactly the original table |
| AuthorityView.CreateIsListed | backend/api/views/authority.py:24-56 | A created authority is answered with 201, appears in the unfiltered list, and raises the unfiltered `count` by one |
| AuthorityView.DestroySpec | backend/api/views/authority.py:72-83 | The authority is found exactly when one has the id and matches the `search` parameter by name or email. It is then removed alone with a 200; otherwise 404 and nothing changes |
| SeedCategories.InfrastructureCodesMatchMapping | backend/api/migrations/0002_seed_categories_and_subcategories.py:16-25 | The migration's infrastructure list is the codes of the mapping's Infrastructure types, in order |
| SeedCategories.HazardCodesMatchMapping | backend/api/migrations/0002_seed_categories_and_subcategories.py:28-40 | The migration's hazard list is the codes of the mapping's Hazard types, in order |
| SeedCategories.CatalogDb.GetOrCreateCategory | backend/api/migrations/0002_seed_categories_and_subcategories.py:12-13 | Creates the category only when no row has the name, and returns the id of the row that has it |
| SeedCategories.CatalogDb.GetOrCreateSubCategory | backend/api/migrations/0002_seed_categories_and_subcategories.py:44-54 | Creates the row only when no row has the (category, code) pair; keys stay unique |
| SeedCategories.CatalogDb.SeedList | backend/api/migrations/0002_seed_categories_and_subcategories.py:43-54 | After a loop every listed code has its row under the category; nothing is added when all were present; on a fresh category exactly the list's rows are appended, in order |
| SeedCategories.CatalogDb.SeedCategoryRows | backend/api/migrations/0002_seed_categories_and_subcategories.py:12-13 | Hazard and Infrastructure exist afterwards, each at most once, and they are created only when missing |
| SeedCategories.CatalogDb.SeedSubCategoryRows | backend/api/migrations/0002_seed_categories_and_subcategories.py:42-54 | Infrastructure codes end under Infrastructure and hazard codes under Hazard; nothing is added when all were present |
| SeedCategories.CatalogDb.Seed | backend/api/migrations/0002_seed_categories_and_subcategories.py:6-54 | Afterwards the catalogue is seeded with unique keys. A second run changes nothing. From empty tables it creates exactly 2 categories and 19 sub-categories |
| SeedCategories.CatalogDb.SeededPairsExactlyOnce | backend/api/migrations/0002_seed_categories_and_subcategories.py:43-54 | Each (category, code) pair that exists has exactly one row |
| SeedCategories.CatalogDb.ReverseSeed | backend/api/migrations/0002_seed_categories_and_subcategories.py:60-66 | Every sub-category row and every category row is deleted |
| SeedStatus.StatusesDistinct | backend/api/management/commands/seed_status.py:19-25 | The command seeds five distinct codes |
| SeedStatus.StatusTable.GetOrCreate | backend/api/management/commands/seed_status.py:52-54 | The code is appended exactly when it is missing, and `created` says so |
| SeedStatus.StatusTable.SeedAll | backend/api/management/commands/seed_status.py:51-65 | The missing codes are appended in order; `created` counts them, and created + existing = 5 |
| SeedStatus.StatusTable.Handle | backend/api/management/commands/seed_status.py:27-65 | Every status is present exactly once and created + existing = 5. `--reset` gives exactly the five codes with (5, 0). A rerun without reset changes nothing and gives (0, 5) |
| ReportForm.ClampSpec | frontend/src/pages/ReportForm/ReportForm.jsx:6-12 | In range, Next adds one except on step 3 and Previous subtracts one except on step 1; each undoes the other |
| ReportForm.RunStaysInRange | frontend/src/pages/ReportForm/ReportForm.jsx:9-12 | No sequence of clicks takes the step out of [1,3] |
| ReportForm.RenderSpec | frontend/src/pages/ReportForm/ReportForm.jsx:18-72 | Exactly one stepper circle is active and exactly one panel is shown, both at the step. "Previous" shows iff step > 1, "Next" iff step < 3, and "SUBMIT REPORT" on step 3 |
| ReportForm.Form.constructor | frontend/src/pages/ReportForm/ReportForm.jsx:9 | The wizard starts on step 1 |
| ReportForm.Form.OnNext | frontend/src/pages/ReportForm/ReportForm.jsx:11 | The step becomes min(step + 1, 3) and stays in range |
| ReportForm.Form.OnPrevious | frontend/src/pages/ReportForm/ReportForm.jsx:12 | The step becomes max(step - 1, 1) and stays in range |

## Left out

- Network I/O: provider and endpoint replies are parameters.
- Promise scheduling: an interleaving of concurrent requests is a sequence of the client's transition methods. A refresh may settle after another caller's `catch` has already cleared the flag, so `Client.RefreshSucceeded` and `Client.FinishRefresh` do not require the flag to be set. An async function runs to its first `await` at once, so the refresh token is checked and sent when the refresh starts (`Client.SendRefresh`, inside `Client.BeginRequest`).
- Console logging, and the browser redirect, which is modelled as a flag.
- `decodeJWT` and the debug claim warnings in `setTokens`: they only log.
- JSON parsing of a response: a body that fails to parse is folded into the transport failure. For the retry of the caller that ran the refresh, a transport failure stands for a rejected fetch only. A body that fails to parse there rejects the returned promise without reaching the `catch` block, and that case is not modelled.
- Floating point:
  - the browser's coordinates are integer millionths of a degree, matching the `DecimalField(9, 6)` columns;
  - `toFixed(6)` is exact on those;
  - Python's `float()` is a parameter returning finite, NaN or infinite values.
- Rate limiting, the random user agents and the one-hour cache expiry: the cache is a map without expiry, and the `raw` field of a result is not kept.
- JWT minting, verification and blacklisting, `make_password` and `check_password` are parameters; `check_password` is not defined on the models.
- Lowercasing and `icontains`: ASCII letters only.
- DRF plumbing is not modelled:
  - pagination;
  - field types beyond the checks named in the model.
- `ReportSerializer.ValidateSpec`: for a coordinate with more than nine digits in all, DRF reports the total-digits message before the decimal-places one. The model reports the decimal-places message, so only the wording differs and the field still fails.
- `ReportSerializer.ValidateSpec`: a coordinate is modelled as its exact value. DRF counts the places of a decimal as written, so `1.1000000` sent as text fails although its value has one place.
- `AuthViews.LogoutSpec`: `logout` and the citizen and authority viewsets declare no `permission_classes`, so who may reach them depends on `DEFAULT_PERMISSION_CLASSES` in the settings, which are not part of this model. The model lets every request through, as `AllowAny` would; the citizen and authority viewset models assume the same.
- `CitizenView.FieldErrors`: the unique validator that the model serializer derives from the email column checks the same raw value as `validate_email` and runs before it. Only its wording differs, and the model reports the serializer's message.
- `CitizenView.FieldErrors`: surrounding whitespace is not trimmed from the fields before they are checked, and the `EmailField` format check is not modelled. Only the first error of each field is reported.
- `CitizenView.RegisterSpec`: `make_password` is a parameter of any length, but the stored hash goes into a 64-character column. Whether a database enforces that limit on a longer hash is not modelled.
- Deleting a citizen or a category also deletes its reports (the foreign keys cascade). The citizen, authority and seed models hold no reports, so this is not modelled.
- `SeedCategories.CatalogDb.Valid`: the (category, code) pairs are unique in every state the seeding produces, but the table declares no such constraint. A pre-existing duplicate would make `get_or_create` raise `MultipleObjectsReturned`, which is not modelled.
- The citizen and authority `update` envelopes are not modelled. They are DRF's standard update wrapped in `success: True`; the citizen's update fields are modelled in `CitizenSerializer`.
- The authority serializer is not part of this model: `AuthorityView.Create` takes its validation as a parameter, so what a valid authority is and what the 400 says are not stated.
- `MultipleObjectsReturned` in login is modelled only as a server-error outcome, which `AuthViews.LoginSpec` rules out for citizens (unique emails). Authority emails are not declared unique.
- The PostgreSQL sequence reset in `seed_status --reset`, and `get_code_display` in its messages.
- `Report` declares no `sub_category` field, although the report view filters and joins on one. The model gives each report an optional sub-category id so the filter can be stated; the resulting runtime error is not modelled.
- Query parameters are modelled as already parsed: ids as optional naturals, strings as optional strings. A non-numeric id string is not modelled.
- The `print` messages of the migration.
- The UI rendering of the wizard beyond the active circle, panel and buttons.

Three places where the comments and the code disagree; the model follows the code:

- At frontend/src/services/apiClient.js:186 the comment says POST `/citizens/` needs authentication. The code at lines 187-188 treats every path containing `/citizens/` as public (`ApiClient.CitizenDetailIsPublic`).
- backend/api/tests/test_citizen.py:19-24 posts a registration without `confirm_password`. The serializer declares that field required (backend/api/serializers/citizen.py:15), so the code answers 400 (`CitizenView.RegisterSpec`).
- At backend/api/views/report.py:55 the comment says the citizen id comes with the request. The serializer makes `citizen` read-only (backend/api/serializers/report.py:31), so the code drops it (`ReportView.CreateSpec`).

## Findings

| source | as written | input that shows it | evidently intended | confidence | as-written member | corrected member |
|---|---|---|---|---|---|---|
| backend/api/serializers/citizen.py:31-39 | The uniqueness lookup uses the email as given, but the lowercased email is returned and stored | "john@example.com" is stored; registering "John@Example.com" passes validation, and the insert then collides with the unique column (500) | Check uniqueness on the lowercased email, so the duplicate is a 400 | not executed | CitizenView.MixedCaseRegistrationServerError | CitizenView.RegisterIntendedSpec |
| backend/api/views/report.py:52-70 | `perform_create` saves only the validated fields, and `citizen` is read-only, so the non-null `citizen_id` is never set | Any valid submission, e.g. an existing category with latitude 0 and longitude 0: the insert fails (500) and no report is ever stored | Save the report for the submitting citizen and answer 201 | not executed | ReportView.ValidReportNeverStored | ReportView.CreateForSpec |
| frontend/src/services/apiClient.js:226-245 | The retry fetch sits inside the `try`, so its rejection runs the `catch` block, which clears `isRefreshing` and rejects the queue whatever refresh is then in flight | A refreshes and retries; B gets a 401 and starts a second refresh; C gets a 401 and is queued; A's retry fetch rejects: C is rejected with A's error, and D's next 401 starts a third refresh beside B's | A failed retry fails only its own request and leaves the refresh protocol alone | not executed | ApiClient.RetryRejectionBreaksSingleFlight | ApiClient.RetryRejectionKeepsSingleFlight |
