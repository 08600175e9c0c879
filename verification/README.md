# Inventory management: a Dafny model of the core

This project models the rules at the heart of an inventory-management web
service. Assets have a stored quantity and a current owner. Users hold roles
through group membership: "Asset User", "Asset Moderator" and "Asset Admin".
Batches of requisitions are checked against stock and then assigned. Uploaded
assignment files are checked against a per-asset timeline, so that no asset's
stock is projected to go negative.

The model is purely functional. It uses immutable datatypes, `seq`, `set` and
`map`, and pure functions. Three operations are methods with loops:

- the walk over a timeline (`Totality.RunTotalityCheck`);
- the per-asset loop of the file check (`Files.CheckJobs`);
- the top-level file validation (`Files.ValidateFile`).

Each source file maps to a module:

| module | models |
|---|---|
| `Models` | models.py: the records, the column bounds that `full_clean` enforces, `Asset.save`/`Profile.save`, the derived asset-type code, ownership-history defaults |
| `Managers` | managers.py: `create_user`, `create_superuser` |
| `Users` | services/users.py: user lookup and group membership; the post-save hook of signals.py |
| `Permissions` | permissions.py: the three role predicates |
| `Assets` | services/assets.py: requisition validation and assignment |
| `Timeline` | services/files.py `__create_timeline`: the per-date buckets and their sums |
| `Totality` | services/files.py `__run_totality_check`: the walk, and when it passes |
| `Files` | services/files.py: the extension check, `__check_file_in_totality`, `validate_file` |
| `Views` | asset/views.py: permission tables, the guards of single assets, the listing, `create`, `get_code`, the `assign` flow |

`Wrappers` (`Option`, `Result`), `Seqs` (filter, map, distinct, `split(sep)[-1]`)
and `Sorting` (an insertion sort by an integer key) are helpers.

## Modelling decisions

Dates and time:

- A day is an integer counted from 1970-01-01. An instant is an integer count
  of seconds. `DayOf` takes the floor, so `datetime.now().date()` is
  `DayOf(now)`. The current instant is a parameter.
- Ownership records keep instants. The open records are those with
  `end_date >= now`, compared at instant granularity, as the query does. The
  walk itself compares days.

Storage:

- Integer columns declared `PositiveIntegerField` hold 0..2147483647, the
  range of a PostgreSQL `integer`. The framework's range validator enforces
  both ends in `full_clean` and in the serializer. A save that would leave a
  quantity outside that range raises (`Models.MaxQuantity`).
- A table of assets is a `seq<Asset>` in primary-key order, with unique ids.
  Users and asset types are also kept in key order. So `.first()` and the
  iteration order of a query are the sequence order.
- The order of Python `set` iteration is not defined by the language. The
  model iterates in order of first insertion. This affects:
  - the set of asset ids in `run_validations`;
  - the set of accepted pairs in `validate_requisitions`.

Timeline:

- `Total`/`SpanTotal` over a `Measure` datatype replace higher-order sums.
  A measure can be:
  - the starting amount of a day;
  - the ending amount of a day;
  - the net change over a window of days;
  - the net change from a day on.
- `CreateTimeline` folds the spans into buckets in insertion order (a Python
  dict) and then sorts them by date.

Properties of the code as written, modelled literally:

- `__create_timeline` reads the end date of an uploaded row from its
  "Start Date" column (services/files.py:30). Each row therefore adds the same
  amount to both buckets of one day. Its net effect on the walk is zero.
  - `Totality.RowsNeverDecide` and `Files.UploadRowsNeverDecide` prove that,
    with a non-negative stock, the file's rows never change an asset's verdict.
  - `Totality.OverbookedUploadPasses` exhibits two rows of 5 units against a
    stock of 9 that pass.
- `validate_requisitions` checks every requisition against the stored stock,
  which is not decremented within a batch. Accepted pairs go into a set:
  - two identical requisitions collapse into one (`Assets.RepeatedRequisitionCountsOnce`);
  - two different requisitions of one asset both pass and overbook it
    (`Assets.SplitRequisitionsOverbook`).
- `assign` applies each pair to the asset object fetched during validation.
  The later save of the same asset overwrites the earlier one: last write
  wins. This is why assignment never drives a stored quantity negative
  (`Assets.AssignAfterValidation`). Requisitions are not bounded below, so a
  huge negative one is accepted and its save then raises, because the
  remainder exceeds the integer ceiling (`Assets.HugeNegativeRequisitionFails`).
- The `assign` view reads the failure keys `"validation_errors"`,
  `"quantity_validation_errors"` and `"date_validation_error"`. The validator
  sets `"validation_errors"` and `"bad_request_errors"`.
  - Formatting a missing asset id as `x[1]` indexes into an integer and raises
    (a 500).
  - A batch rejected only for quantity is a 400 that reports nothing
    (`Views.OverQuantityReportsNothing`, `Views.MissingAssetFails`).
- The permission class imported as `IsSuperUser` is the framework's
  `IsAdminUser`. It checks the staff flag, not the superuser flag. `create`
  picks its owner by the superuser flag.
- When an asset id of an upload names no stored asset, the source reads
  `.quantity` of `None` and raises. This is `Files.TotalityError`.

Runtime defects, modelled by their evident intent:

- `TimeLineUnit.__init__` uses `+=` on attributes that were never set. The
  buckets start at the given amounts.
- Uploaded rows use `datetime` values while records use `date` values. Both
  are days here.
- `error_messages += f"..."` extends the list one character at a time. Each
  failing date is one `Violation` entry.
- services/files.py imports `AssetOwnerHistoryService`, which services/assets.py
  does not define. The ownership records of an asset are a `Filter` over a
  sequence of records.
- `__file_extension_validation` applies `"." in` to the uploaded file object
  and `.name.split` to its name. Both are applied to the name.
- asset/views.py cannot be imported as written, for two reasons:
  - asset/views.py:34 imports `AssetFileUploadSerializer`, which
    asset/serializers.py does not define;
  - asset/views.py:13 imports core/services/files.py, whose own import at
    core/services/files.py:10 fails on `AssetOwnerHistoryService`.

  The view properties in the table below therefore describe the views as
  they behave once both names exist.
- A failed promotion is not rolled back: the framework runs without a
  transaction here, so a membership added before the error stays written
  (`Users.Promote`).
- Files.ValidateFile: when the row-wise check fails, `__row_wise_validation`
  returns `(False, None)` (core/services/files.py:182-183). The next line,
  core/services/files.py:201, then indexes `None` and raises `TypeError`,
  and the upload view would call `None.to_csv` (asset/views.py:286). The
  model runs the totality check over the uploaded rows anyway and returns
  `Checked(false, …)`, so that outcome is reachable here and not in the
  source as written.

## Model

| member | source | states |
|---|---|---|
| Models.DayOf | core/services/files.py:71 | the day of an instant is the unique day whose 86400-second window contains it |
| Seqs.Strip | asset/serializers.py:13-32 | the stripped text is no longer than the text, empty iff the text is all whitespace, and otherwise neither starts nor ends with whitespace |
| Seqs.StripPadded | asset/serializers.py:13-32 | stripping whitespace padding from a text without surrounding whitespace gives the text back |
| Seqs.StripKeeps | asset/serializers.py:13-32 | every character that is not whitespace survives stripping |
| Seqs.StripIdempotent | asset/serializers.py:13-32 | stripping twice is stripping once |
| Models.CleanChar | core/models.py:134-140 | a text column is clean iff it is empty and blank is allowed, or it is non-empty and within its length bounds; a too-short value reports an error |
| Models.CleanCount | core/models.py:136 | a positive-integer column is clean iff 0 <= value <= 2147483647 (the database integer range); below zero reports Negative, above the ceiling TooLarge |
| Models.AssetTypeErrors | core/models.py:109-111 | an asset type is clean iff type, sub-type and group each have length 1..225 |
| Models.ExtractEmbedded | core/models.py:116 | extracting from "title(CODE)" gives CODE back when CODE has no "(" |
| Models.ExtractWithoutParenthesis | core/models.py:116 | a field without "(" yields the whole field minus its last character |
| Models.CodeOfEmbedded | core/models.py:114-118 | the code is the three embedded codes joined by "-", whatever the description |
| Models.CodeExample | core/tests/test_asset_models.py:56-60 | the worked example gives "HDW-CABLE-ETH" |
| Models.AssetErrors | core/models.py:134-140 | an asset is clean iff name 5..100, description absent/empty or 10..200, quantity 0..2147483647, location and manufacturer 1..100 |
| Models.SaveAsset | core/models.py:144-156 | save succeeds iff the asset is valid, stores it unchanged; a negative quantity is reported as Negative and one above 2147483647 as TooLarge |
| Models.ProfileErrors | core/models.py:74-79 | a profile is clean iff its required texts are non-empty and every text is within its maximum |
| Models.SaveProfile | core/models.py:82-94 | save succeeds iff the profile is valid; an empty first name or designation is refused |
| Models.CreateHistory | core/models.py:171-175 | a record is created iff 0 <= quantity <= 2147483647, the error naming the side it misses; the start defaults to now and the end to 2999-01-01 (day 375835) |
| Managers.CreateUser | core/managers.py:41-48 | refused for a missing email first, then a missing password; otherwise created with that email |
| Managers.CreateSuperuser | core/managers.py:83-94 | an explicit false staff, superuser or active flag is refused (in that order); a created superuser has all three flags |
| Managers.CreateUserFlags | core/managers.py:41-43 | unset flags default to not staff, not superuser, active; supplied flags win |
| Managers.SuperuserDelegates | core/managers.py:94 | without a false flag a superuser request is exactly `create_user` with all three flags set |
| Users.GetUserById | core/services/users.py:17-21 | a user is found iff one has that id, and the one found has it |
| Users.AddUserToGroup | core/services/users.py:33-36 | succeeds iff the group exists; then the user is in it and every other membership is unchanged |
| Users.RemoveUserFromGroup | core/services/users.py:38-42 | succeeds iff the group exists; then the user is not in it and every other membership is unchanged |
| Users.PromoteEffect | core/services/users.py:45-52 | a missing role group writes nothing; a missing "Asset User" leaves the role membership written; with both present the user ends with old + role - user; the error is absent iff both exist; other users never change |
| Users.MakeUserModEffect | core/services/users.py:45-47 | no error iff both groups exist; then the user's groups become old + moderator - user; with only "Asset User" missing the moderator membership stays written and the error names "Asset User"; nobody else changes |
| Users.MakeUserAdminEffect | core/services/users.py:50-52 | no error iff both groups exist; then the user's groups become old + admin - user; with only "Asset User" missing the admin membership stays written and the error names "Asset User"; nobody else changes |
| Users.AddThenRemoveRestores | core/services/users.py:33-42 | adding a group the user lacked and removing it again restores every membership |
| Users.NewUserIsAssetUser | core/signals.py:7-10 | a fresh user ends up in exactly {"Asset User"} |
| Permissions.RolesOverlap | core/permissions.py:3-13 | the three role predicates can all hold at once, and none holds of no groups |
| Permissions.PromotionToModerator | core/services/users.py:45-47 | after a promotion that raises nothing the user is a moderator and not a normal user; admin status is unchanged |
| Permissions.PromotionToAdmin | core/services/users.py:50-52 | after a promotion that raises nothing the user is an admin and not a normal user; moderator status is unchanged |
| Assets.GetAssetById | core/services/assets.py:12-17 | an asset is found iff a row has that id; in a table with unique ids it is that row |
| Assets.TallyRequisitions | core/services/assets.py:45-53 | the tally's error lists are the not-found and over-quantity ids in input order; the accepted pairs are exactly those of fitting rows, without repeats |
| Assets.ValidateRequisitions | core/services/assets.py:38-65 | accepted iff every requisition fits; rejected carries both error lists, one of them non-empty; accepted carries each fitting pair once |
| Assets.NoErrorsIffAllFit | core/services/assets.py:55-60 | both error lists are empty iff every requisition fits |
| Assets.Partition | core/services/assets.py:45-53 | every requisition lands in exactly one of not-found, over-quantity, accepted |
| Assets.NoLowerBound | core/services/assets.py:34-35 | a zero or negative requisition of a stored asset is accepted |
| Assets.AssignAssetToUser | core/services/assets.py:67-70 | the asset gets the new owner and loses the quantity, nothing else changes; a saved asset is valid; on a valid asset it saves iff the remainder lies in 0..2147483647 |
| Assets.AssignRows | core/services/assets.py:72-75 | with pairs whose asset is stored and whose remainder lies in 0..2147483647, assignment never fails, and each row ends as its last pair left it |
| Assets.AssignValidPairs | core/services/assets.py:72-75 | assigning pairs whose asset is stored and whose remainder lies in 0..2147483647 never fails and the table stays valid (no stock below zero or above the ceiling) |
| Assets.AssignDistinctPairs | core/services/assets.py:72-75 | with one such pair per asset (stored, remainder in 0..2147483647), each named row ends up that pair's reassignment to the user |
| Assets.AssignAfterValidation | core/services/assets.py:50-53 | after a successful validation the table stays valid, and no save raises iff every requisition leaves a remainder in 0..2147483647 |
| Assets.AssignKeepsValid | core/services/assets.py:72-75 | assignment keeps the table's length, every row's id, and a valid table valid, whether or not a save raises |
| Assets.AssignSucceedsIff | core/services/assets.py:67-75 | with valid fetched assets, no save raises iff every pair's remainder lies in 0..2147483647 |
| Assets.AcceptedCovered | core/services/assets.py:34-53 | every accepted pair is a stored, valid asset whose stock covers the quantity |
| Assets.AcceptedPairsFit | core/services/assets.py:38-65 | every accepted pair's remainder fits the column iff every requisition's does |
| Assets.HugeNegativeRequisitionFails | core/services/assets.py:34-35 | a requisition of -2147483643 units of a five-unit asset is accepted, and its save then raises, leaving the table unchanged |
| Assets.RepeatedRequisitionCountsOnce | core/services/assets.py:43-53 | two identical requisitions collapse into one accepted pair |
| Assets.SplitRequisitionsOverbook | core/services/assets.py:45-53 | four and three units of a five-unit asset are both accepted; whichever pair is written last decides the stock: 2 if the 3-unit pair, 1 if the 4-unit one |
| Timeline.RowSpan | core/services/files.py:29-40 | an uploaded row starts and ends on its start date |
| Timeline.HistorySpan | core/services/files.py:43-54 | a record starts and ends on the days of its instants |
| Timeline.OpenAt | core/services/files.py:109 | the records kept are exactly those ending at or after now |
| Timeline.BucketsTotal | core/services/files.py:29-54 | the buckets hold, for every measure, the same total as the spans |
| Timeline.TotalSort | core/services/files.py:56-57 | sorting keeps every total |
| Timeline.TimelineContents | core/services/files.py:25-59 | sorted by date, one unit per date, dates are exactly the span endpoints, each unit's amounts are the sums of the spans starting/ending that day |
| Timeline.TimelineTotal | core/services/files.py:25-59 | every total over the timeline equals the total over the spans |
| Totality.Violations | core/services/files.py:85-98 | every reported violation is for the asset, on or after today, with a negative projection |
| Totality.ViolationsEmptyIff | core/services/files.py:85-98 | no violation is reported iff the running quantity is non-negative after every unit from today on |
| Totality.ViolationsExact | core/services/files.py:85-98 | an entry is reported iff it names a unit on or after today after which the running quantity is negative, with that unit's date, starting quantity and running quantity |
| Totality.RunTotalityCheck | core/services/files.py:61-98 | the walk's verdict holds iff no running total from today on is negative, iff no message; the messages are the entries of `Totality.Violations`, one per violating unit (`Totality.ViolationsExact`), not just the first |
| Totality.WalkStep | core/services/files.py:85-96 | one more unit adds its net change only when not in the past, and is reported only when the quantity then is negative |
| Totality.PrefixIsWindow | core/services/files.py:85-88 | the running total at a unit is the stock plus the net change from today to that unit's date |
| Totality.Criterion | core/services/files.py:85-96 | the check passes iff at every endpoint on or after today the stock plus the net change of the spans is non-negative |
| Totality.RowsNeverDecide | core/services/files.py:30-40 | with non-negative stock, the uploaded rows never change the verdict |
| Totality.OverbookedUploadPasses | core/services/files.py:29-40 | two rows of 5 units on a stock of 9 pass |
| Files.FileExtensionValidation | core/services/files.py:124-140 | refused for no "."; refused iff the text after the last "." is not "csv"; accepted otherwise |
| Files.ExtensionIffCsvSuffix | core/services/files.py:129-138 | a name is accepted iff it ends in ".csv", case-sensitive |
| Files.RefusedNames | core/services/files.py:129-138 | "assets" is refused for lacking a "."; "data.csv.txt" and "data.CSV" are refused as not csv |
| Files.AcceptedNames | core/services/files.py:133-140 | "assets.csv" and ".csv" are accepted |
| Files.FirstUnknown | core/services/files.py:70-71 | finds the first id naming no stored asset, and none iff all are stored |
| Files.AllViolationsEmptyIff | core/services/files.py:100-122 | the concatenated errors are empty iff every asset passes |
| Files.CheckJobs | core/services/files.py:104-120 | the loop's verdict holds iff every asset passes (so also with none), and its errors are all failing assets' errors in order |
| Files.JobsPass | core/services/files.py:106-112 | the per-asset jobs pass exactly when the stored assets they name pass |
| Files.CheckFileInTotality | core/services/files.py:100-122 | raises iff some id names no stored asset; otherwise the verdict holds iff every asset passes, and iff there are no errors |
| Files.UploadRowsNeverDecide | core/services/files.py:104-112 | an asset's verdict with the file's rows equals its verdict with none |
| Files.AssetIds | core/services/files.py:201 | the ids of the rows, each once, and only those |
| Files.DistinctIdsKnown | core/services/files.py:201 | every distinct id names a stored asset iff every row's asset id does |
| Files.DistinctIdsSuffice | core/services/files.py:201-202 | checking each distinct id once decides as checking the asset of every row |
| Files.ValidateFile | core/services/files.py:221-241 | a bad name stops validation; an unknown asset raises; otherwise (by intent when the row-wise check fails) status is row-wise verdict and totality verdict, and the totality verdict holds iff every row's asset passes, iff no errors |
| Views.Allowed | asset/views.py:53-61 | only signed-in users pass; admins and staff pass everywhere; plain users only read assets; only admins and staff write asset types |
| Views.DecidedByRoles | asset/views.py:129-137 | a decision depends only on sign-in, staff flag, admin and moderator groups |
| Views.AnonymousDenied | asset/views.py:73-76 | nobody signed in may call anything |
| Views.PlainUserAccess | asset/views.py:129-137 | a plain "Asset User" may list and retrieve assets and nothing else |
| Views.ModeratorAccess | asset/views.py:53-61 | a moderator may do everything but write asset types |
| Views.AssetTypesStricter | asset/views.py:53-61 | asset types are guarded at least as strictly as assets |
| Views.GetObject | asset/views.py:139-148 | 404 iff missing; 403 iff an "Asset User" asks for an asset they do not own; otherwise that asset |
| Views.Target | asset/views.py:139-148 | the permission check comes before the object lookup |
| Views.Queryset | asset/views.py:150-155 | lists exactly the visible rows, each as often as it is stored (an "Asset User" their own rows, others every row), as the same multiset, by descending quantity |
| Views.ListAssets | asset/views.py:179-185 | any signed-in user gets exactly their visible rows, each as often as stored, by descending quantity; anyone else is denied |
| Views.ListedIffRetrievable | asset/views.py:139-155 | a row is listed iff it can be retrieved |
| Views.FirstSuperuser | asset/views.py:167-169 | the first user with the superuser flag, none iff there is none |
| Views.CreateAsset | asset/views.py:157-177 | the text fields are stripped first; 400 iff a stripped text holds a NUL character, the stripped asset is invalid (a quantity above 2147483647 included) or the quantity is not positive; 500 iff no superuser; otherwise a fresh-keyed row with the stripped texts, owned by the first superuser, is appended; the table stays valid |
| Views.CreateSubmitted | asset/views.py:157-177 | on the submitted asset: 403 iff not permitted; 400 iff a text holds a NUL character, the asset is invalid or the quantity not positive; 500 iff no superuser; otherwise the row is appended under an unused key, owned by the first superuser, and a valid table stays valid |
| Views.FirstMatch | asset/views.py:86-88 | the first type matching all three fields exactly, none iff no type matches |
| Views.GetCode | asset/views.py:78-95 | the query texts are stripped; 400 iff a stripped text is out of bounds or holds a NUL character, 404 iff no type matches the stripped texts, otherwise the code of a matching type |
| Views.CodeOfQuery | asset/views.py:86-95 | the code found is the code read off the stripped query's own fields |
| Views.StrippedQuery | asset/serializers.py:45-48 | the reply depends on the query texts only through their stripped forms |
| Views.PaddedQuery | asset/serializers.py:45-48 | whitespace around a query text changes nothing, and a whitespace-only text is a 400 |
| Views.NulInQueryRefused | asset/serializers.py:45-48 | a query with a NUL character in any of its texts is a 400, whatever types are stored, since stripping keeps it |
| Views.AssignView | asset/views.py:198-252 | 403 iff not permitted; 404 iff the user is unknown; 200 only if every requisition fits; 400 iff no asset is missing but some exceeds stock, reporting nothing; only assignment writes |
| Views.AssignViewOnValidTable | asset/views.py:211-216 | on a valid table: it stays valid; 200 iff every requisition fits and leaves a remainder in 0..2147483647; 500 iff an asset is missing, or all fit and some remainder does not |
| Views.AssignStepsOnValidTable | asset/views.py:211-216 | validation accepts iff every requisition fits; the assignment then keeps the table valid and raises iff some remainder leaves 0..2147483647 |
| Views.OverQuantityReportsNothing | asset/views.py:217-252 | asking for more than stored gives a 400 with no messages and no change |
| Views.MissingAssetFails | asset/views.py:225-232 | asking for an asset that is not stored gives a 500 |

## Left out

- File and dataframe I/O is not modelled: reading and writing CSV, streaming
  the template, `generate_file_path`, and storing the upload record. Uploaded
  rows are a sequence of records.
- The row-wise validation of an upload is not modelled. As written it cannot
  run: it calls a validator that does not exist and returns no dataframe. Its
  verdict is a boolean input to `Files.ValidateFile`.
- The upload view's later steps are not modelled (writing the validated file,
  the reply). Quantities are never subtracted there.
- The wording of messages and replies is not modelled, nor the response
  helpers or debug printing. Replies are status values, and totality errors
  are `Violation` records.
- The 401/403 distinction is not modelled. A request refused by the
  permission check is one `Denied403` outcome.
- The request serializers are modelled only by what they do to the fields:
  - their text fields strip surrounding whitespace first, as the
    framework's `CharField` does by default (`Seqs.Strip`), and refuse a
    text holding a NUL character (`Views.NulFree`);
  - `Views.CreateAsset` then checks the asset's column bounds, and
    `Views.GetCode` the asset-type text bounds.

  Type coercion of the submitted values is not modelled, nor a malformed
  requisition entry (not a two-value mapping), nor the `asset_type_id` field
  of a new asset. Fields are typed values here.
- The framework's composition of permission classes is not modelled. Only the
  resulting boolean formula is.
- Password hashing, email normalisation and the ORM itself are not modelled.
  Stores are sequences in key order, and a new key is one above every key in
  use.
- Uniqueness checks are not modelled: the user email, the profile phone
  number, and foreign keys of a new asset. These are database constraints.
- Managers.CreateUser: a duplicate email is not refused. `User.email` is
  unique (core/models.py:44), so `user.save()` (core/managers.py:55) raises
  `IntegrityError` for an email already stored, and `create_superuser`
  inherits that failure (`Managers.CreateSuperuser`). The model has no user
  store here, so every non-missing email is accepted.
- The updates and deletes themselves are not modelled. Only the guards in
  front of them are (`Views.Target`).
- Among equal quantities the listing order is the sort's, not the database's.
  The database's tie order is not defined.
- Transactions are not modelled. A save that raises midway through `assign`
  keeps the earlier saves (`Assets.Assign`, `failedAt`).
- Concurrency between requests is not modelled. There is none in the code.
- The `wait_for_db` command and the middleware are not modelled.
- Assets.TallyRequisitions: accepted pairs are kept in order of first
  insertion. The source puts them in a Python set, hashed by primary key,
  so CPython's order is not the model's. Which of two accepted pairs of one
  asset is written last, and so the stock the asset ends with, therefore
  depends on an order the model fixes arbitrarily.
  `Assets.SplitRequisitionsOverbook` shows both orders: the stock ends at 2
  or at 1.
- Files.AssetIds: the distinct ids are kept in order of first occurrence.
  The source iterates a Python set of ints (core/services/files.py:201) in
  hash order, so the order of the concatenated totality messages is the
  model's choice. The verdict does not depend on it.
- Views.ListAssets: the query parameters of the listing are not modelled.
  The listing is what it returns with no parameters. Left out:
  - the `DjangoFilterBackend` filters over the fields of
    asset/views.py:121-127;
  - `?ordering=`, which the ordering backend accepts on any field the
    serializer reads and which overrides the descending quantity order,
    because the allowed fields are declared as `ordering_filter`
    (asset/views.py:110) instead of `ordering_fields`;
  - `?search=`, which does nothing, because the fields are declared as
    `search_filter` (asset/views.py:101) instead of `search_fields`.
