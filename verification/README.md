# Verified model of the starter's core logic

A Dafny 4.11 model of the parts of the API starter that carry state, recursion, query building or
arithmetic, with proofs about them. `dafny verify dfyconfig.toml` checks everything.

The tables are in-memory values that follow the schema in `migrations/iam`. Statements that the code sends
to PostgreSQL are modelled twice where their text is built at run time: as the tokens and arguments the
builder holds, whose string is given exactly for every request and every patch, and as what a database that reads
the tokens back would do. Which calls fail, what is drawn at random and how much time passes are arguments of the
operations; their contracts name the outcome for each.

* **Password reset** (`ResetProtocol`, `ResetSafety`, `ResetTokens`, `PendingRows`, `AuthService`).
  Neither `password_recovery` nor `reset_password` runs in a transaction, so every store call is one step of a
  transition system: steps of different calls interleave, time passes, and any call may stop after any
  step. Theorems are about every run. The class `AuthServices.AuthService` runs the same statements on
  tables updated in place and carries the run it has taken as ghost state, so the theorems about sequential
  runs are facts about the object.
* **Sessions** (`Jwt`, `Session`, `SessionRuns`). Claims around an abstract signer; logging in, refreshing,
  resolving a token. The class records every pair it hands out, and the theorems are about every such log.
* **User listing** (`QueryBuilder`, `Like`, `UserQuery`, `StatementText`, `Listing`, `PageTies`, `Pagination`).
  The statement built for a request reads back as what the request asks, its evaluation is a filter over users, and the pages cut the
  sorted list exactly, up to the ties that the missing tie-break leaves open.
* **User service** (`IamTables`, `UserUpdate`, `UpdateText`, `UserTables`, `UserRepository`, `UserService`,
  `UserRuns`). Create, patch and soft delete inside a transaction over tables with unique and foreign keys, and runs of
  those through the handlers.
* **RBAC** (`Rbac`), **passwords** (`Passwords`), **validation flattening** (`Validation`,
  `FlattenedPaths`), **DSN** (`Dsn`), **mail templates** (`Template`).

Some promises are false of the code as it stands. For each there is a lemma with an input that shows it and a
theorem that says exactly when the promise holds.

* "Only one pending request per address is kept" (`src/package/auth/service.rs:146`): k overlapping recoveries,
  each with a token of its own, leave k rows (`ResetSafety.PendingBoundIsReached`). A given run keeps the promise
  exactly when no two inserts for the address follow each other without a delete between
  (`PendingRows.AtMostOnePendingIff`), and m bounds the rows in every run whose recoveries overlap at most k-fold
  if and only if k <= m (`ResetSafety.PendingAtMostIff`).
* A reset token works once: two overlapping resets can both succeed
  (`ResetTokens.OverlappingResetsBothSucceed`), and do so from any run in which both have passed their checks
  (`ResetTokens.CheckedResetsBothSucceed`). After one success another reset can still succeed exactly when it had
  read the row before and is in time (`ResetTokens.SecondSuccessIff`); one that begins later, exactly while the
  token is alive (`ResetTokens.TokenCanStillWorkIff`).
* Sorting has no tie-break: a tie across a page boundary can show a row twice (`Listings.TieCanRepeatARow`); the
  rows of every page are settled exactly when there is no such tie (`PageTies.PagesAreSettledIff`), and the whole
  order exactly when the keys are distinct (`Listings.OrderingIsUniqueIff`).
* `page` has no upper bound: in a release build the largest page gets offset -20 and a negative next page
  (`Pagination.HugePageWraps`); the exact bounds are `Pagination.OffsetIsExactIff` and
  `Pagination.NextPageIsRightIff`.
* `can_any` is not "some action passes `can`": they differ on an empty action list for the super role
  (`Rbac.RbacEngine.EmptyListSplitsTheChecks`) and on a joined row with a NULL
  (`Rbac.RbacEngine.NullRowSplitsTheChecks`), and exactly there (`Rbac.RbacEngine.CanAnyAgreesIff`).
* `encode` leaves `%` alone: the password `%41` comes back as `A` (`Dsn.PercentPasswordIsLost`); credentials
  survive exactly when they hold no percent triplet, and the database when it holds no `?` and no `#`
  (`Dsn.UrlRoundTripIff`).
* The first-name filter is no substring test for `_` (`LikePatterns.UnderscoreMatchesAnything`), and one exactly
  for texts without LIKE wildcards and escape characters (`LikePatterns.ILikeIsSubstringIff`).
* Mail templates: the recovery mail of a user named `{{callbackURI}}`, which the create handler accepts, depends
  on the order of the hash map (`Templates.RecoveryMailShowsTheOrder`); two entries can be replaced in either
  order exactly when neither value holds or begins an occurrence of the other's placeholder, or that key stands
  for its own placeholder (`Templates.OrderIsInvisibleIff`).

Where code and documentation disagree the model follows the code: an empty or invalid order sorts
descending, although `src/server/openapi.yaml` documents ascending; a self patch keeps `department_id` and
drops `email`, although the same file says the opposite. The age check of a reset is strict, so a row
exactly fifteen minutes old is accepted.

Assumptions, stated as hypotheses where they are used: the token digest is injective, no reset token
is generated twice, what the signer signed verifies and nobody else can sign, a printed id parses back, and a database answers what the statement it was sent
says. Rust's character classes, bcrypt, the clock, the random source, case folding and the collation are
parameters.

## Model

| member | source | states |
|---|---|---|
| ResetSafety.PendingBound | src/package/auth/service.rs:138-171 | In every interleaving with aborts after any step: if at most k recoveries for an address are ever between their delete and their insert, then pending rows for it plus such recoveries never exceed k. |
| ResetSafety.OnePendingWhenSequential | src/package/auth/service.rs:146-150 | When calls run one at a time, at every moment at most one row is pending for an address. |
| ResetSafety.PendingBoundIsReached | src/package/auth/store.rs:84-94 | For any k different tokens and every registered address some run stores each token once, keeps the premise and ends with k pending rows, so the promise of one row is false under overlap. |
| ResetSafety.PendingAtMostIff | src/package/auth/service.rs:138-171 | From any users table with the address: m bounds its pending rows at the end of every run with fresh tokens and at most k open gaps if and only if k <= m. |
| PendingRows.PendingIsStoresSinceDelete | src/package/auth/store.rs:84-134 | In every interleaving, the number of rows pending for an address is the number of inserts for it since the last delete for it. |
| PendingRows.AtMostOnePendingIff | src/package/auth/service.rs:146-158 | A run keeps at most one row for an address throughout if and only if no two inserts for it follow each other without a delete for it between them. |
| ResetSafety.RowOrigin | src/package/auth/service.rs:152-158 | In every interleaving, each pending row was inserted by a recovery for its own address, at its own time, and holds the digest of the token that recovery drew. |
| ResetSafety.FindOrigin | src/package/auth/store.rs:106-125 | A reset call that holds a row had read it from the table under the digest of its token, and keeps that row to its end. |
| ResetSafety.CheckOrigin | src/package/auth/service.rs:181-183 | A reset call about to write passed the age check, on the row it had read, no later than fifteen minutes after the row's creation. |
| ResetSafety.WritesAreAuthorised | src/package/auth/service.rs:173-198 | In every interleaving, each password write is for a token that a recovery for that very address had stored at most fifteen minutes before the call's check, and the call had found that row: store, find, check and write come in this order. |
| ResetTokens.DeletedTokenStaysDead | src/package/auth/store.rs:127-134 | In every interleaving, once a delete for the address of a stored token has run, no later state holds a row for that token. |
| ResetTokens.TokenLivesIff | src/package/auth/store.rs:84-134 | In every interleaving, the table holds a row for a stored token if and only if no recovery or reset for its address has deleted since. |
| ResetTokens.FoundTokenIsLive | src/package/auth/service.rs:174-179 | A reset finds a token only if no recovery or reset for its address has deleted since it was stored. |
| ResetTokens.SuccessesWithOneTokenOverlap | src/package/auth/service.rs:173-198 | In every interleaving, two resets that succeed with one token overlap: each found the row before the other deleted it. |
| ResetTokens.TokenWorksOnceWhenSequential | src/package/auth/service.rs:173-198 | When calls run one at a time, a token succeeds at most once. |
| ResetTokens.OverlappingResetsBothSucceed | src/package/auth/service.rs:187-195 | A concrete run in which two overlapping resets succeed with one token. |
| ResetTokens.CheckedResetsBothSucceed | src/package/auth/service.rs:181-197 | Every run with fresh tokens in which two resets have passed their checks with one token has a continuation in which both succeed. |
| ResetTokens.TokenCanStillWorkIff | src/package/auth/service.rs:173-198 | After any run, some continuation lets a new reset call succeed with a stored token if and only if no delete for its address has happened since and at most fifteen minutes have passed. |
| ResetTokens.SecondSuccessIff | src/package/auth/service.rs:173-198 | After a reset has succeeded with a token, another reset begun with it can still succeed in some continuation if and only if it has already read the row and is past its age check or still in time for it. |
| ResetTokens.OnlyTheLatestTokenLives | src/package/auth/service.rs:146-158 | When calls run one at a time, a later stored token for an address kills every earlier one for good. |
| ResetTokens.TokenIsMailedToItsAddress | src/package/auth/service.rs:160-168 | A raw token is mailed only to the address its row was stored for. |
| ResetTokens.PasswordIsTheLastOneWritten | src/package/auth/store.rs:96-104 | In every interleaving, each user row is the row it started as, except that its password is the last one written for its own address; no user appears or disappears. |
| AuthServices.AuthService.PasswordRecovery | src/package/auth/service.rs:138-171 | An unknown address is not found and changes nothing. For a known one, when no call fails, exactly the rows of the other addresses remain plus one with the digest of the token, and one mail with that token goes to the user found; a failing call is an internal error and leaves what the statements before it did. The steps taken extend a valid sequential run. |
| AuthServices.AuthService.ResetPassword | src/package/auth/service.rs:173-198 | When no call fails it succeeds if and only if the row found under the digest of the token is no older than fifteen minutes; then the password of exactly that address is the hash of the new one and no row of that address remains. Otherwise it is a bad request and changes nothing. An internal error means that a call failed, and leaves at most the password written. |
| AuthServices.AuthService.AtMostOnePending | src/package/auth/service.rs:146-150 | Whatever operations have run on the object, its resets table holds at most one row for each address. |
| AuthServices.AuthService.CreatePasswordReset | src/package/auth/store.rs:84-94 | The INSERT adds one row under a new identifier with the current time, and is the store step of the protocol. |
| AuthServices.AuthService.StorePassword | src/package/auth/store.rs:96-104 | The UPDATE changes the password of exactly the rows with that address, and is the write step of the protocol. |
| AuthServices.AuthService.DeletePasswordResets | src/package/auth/store.rs:127-134 | The DELETE removes exactly the rows of that address. |
| Jwt.ValidateGenerated | src/package/jwt/mod.rs:39-60 | With an ideal signer, validating a generated token gives the claims minus exp up to the second it expires, and an error after, for all claims. |
| Sessions.SessionService.GenerateToken | src/package/auth/service.rs:103-123 | An address nobody has and a wrong password get one and the same error. A right password gets, unless a query fails, the pair for that record, exactly if both tokens can be signed. |
| Sessions.SessionService.RefreshToken | src/package/auth/service.rs:125-130 | A token that names no user is refused, and so is one that names a user the tables do not hold; any other gets, unless a query fails, a pair for that user's record as it is now. Naming is said of the signer's verification alone. |
| Sessions.SessionService.GetIdentity | src/package/auth/service.rs:132-136 | A token that names no user is refused, and so is one that names a user the tables do not hold; any other gives, unless a query fails, that user's current record with exactly its current role names. |
| Sessions.SessionService.FindUserByEmail | src/package/auth/store.rs:75-82 | Unless a query fails: a row with that address together with all its role names, or nothing exactly when there is none. |
| Sessions.SessionService.FindUserById | src/package/auth/store.rs:66-73 | Unless a query fails: the row with that id together with all its role names, or nothing exactly when there is none. |
| Sessions.SessionService.Enrich | src/package/auth/store.rs:31-59 | The identity carries the row's fields and every role name of the user exactly once. |
| Sessions.ResolvesIff | src/package/auth/service.rs:79-90 | A token resolves to a user if and only if the signer verifies it, it carries an expiry that has not passed, and its user_id is a text that parses to that user; every other token, an unverifiable one or one without an expiry included, is refused with one error. |
| Sessions.PairIsSigned | src/package/auth/service.rs:46-77 | A pair is what the signer makes of the id, the roles and the access lifetime, and of the id and the refresh lifetime; there is none exactly if one of the two cannot be signed. |
| Sessions.TokensResolveIff | src/package/auth/service.rs:79-90 | Each token of a pair resolves to the user it was made for up to the second of its own lifetime, and is an invalid token after. |
| Sessions.RefreshingKeepsTheUser | src/package/auth/service.rs:125-130 | Every pair reached from a login by any number of refreshes is for the user who logged in. |
| Sessions.SessionsGoBackToALogin | src/package/auth/service.rs:103-130 | In every log, if only issued tokens are presented, each pair goes back refresh by refresh to a login of the same user with a matching password. |
| Sessions.TokenCarriesCurrentRoles | src/package/auth/service.rs:46-60 | The access token of every pair, after any refreshes, carries exactly the role names the tables held when that pair was made, and its refresh token carries the id alone. |
| Sessions.SessionsEnd | src/package/auth/service.rs:66-71 | No issued token resolves to a user once both lifetimes have passed since the last pair made for that user. |
| SessionRuns.SessionsOutliveCommits | src/module/iam/adapter/repository/user.rs:358-367 | Over every run of the user service after a pair was made, its user is still in the tables, and either token resolves to that user exactly until it expires, soft deletion included. |
| Pagination.ListRequest.FromQuery | src/package/pagination.rs:34-53 | For pair lists of any length the loop ends in the request given by the last value of each key (parsed or defaulted), normalised. |
| Pagination.ListRequest.Normalize | src/package/pagination.rs:55-65 | The page becomes at least 1, the page size falls back to the default outside 1 to 100, and an order other than asc or desc becomes empty. |
| Pagination.NormalizedIsNormal | src/package/pagination.rs:55-65 | A normalised request has a page from 1, a page size from 1 to 100 and order asc, desc or empty; a request that is so already is left alone, and a value that is not becomes 1, 10 or empty. |
| Pagination.NumbersOfAQuery | src/package/pagination.rs:41-42 | A printed page number is taken as it stands from 1 to the largest i64, and a printed page size from 1 to 100; anything else in its place, and nothing at all, asks for page 1 and size 10. |
| Pagination.TextsOfAQuery | src/package/pagination.rs:43-47 | sort_by and order are their last values or empty, and every other key, and none of the four, becomes a filter with its last value. |
| Numbers.ParseIntIff | src/package/pagination.rs:41-42 | A text is read as a number if and only if it is an optional sign, any zeros and the shortest text of the absolute value, and the number is in range. |
| Pagination.ReadingIsDetermined | src/package/pagination.rs:39-49 | Two pair lists with the same last value for every key read as the same request. |
| Pagination.OffsetIsExactIff | src/package/pagination.rs:67-69 | For a normal request the i64 offset is (page - 1) * per_page if and only if page - 1 <= i64::MAX / per_page. |
| Pagination.HugePageWraps | src/package/pagination.rs:41 | The largest page number is read as it stands; its offset is -20 and its next page i64::MIN. |
| Pagination.NewMetaData | src/package/pagination.rs:104-127 | The number of pages is the exact ceiling of the count over the page size; the next link is the following page if it exists, and the previous link the page before, on every existing page and on the one right after the last. |
| Pagination.NextPageIsRightIff | src/package/pagination.rs:112 | The next link is the following existing page, or none at the end, if and only if the page number can be incremented in i64. |
| Pagination.FollowingVisitsEveryPage | src/package/pagination.rs:112 | For page counts below i64::MAX, following the next links from any page visits every later page once, in order, and stops. |
| Pagination.PreviousInvertsNext | src/package/pagination.rs:112-114 | For page counts below i64::MAX, on existing pages the previous link leads back exactly where the next link came from. |
| Pagination.LinksPastTheEnd | src/package/pagination.rs:112-114 | Past the end there is no next link unless the page number wraps around, and a previous link only right after the last page, to that page. |
| QueryBuilders.QueryBuilder.PushBind | src/module/iam/adapter/repository/user.rs:59-91 | A bound value goes to the end of the arguments and its placeholder, numbered by its position, to the end of the text, so placeholders stay numbered 1 to n. |
| QueryBuilders.Separated.Push | src/module/iam/adapter/repository/user.rs:306-312 | The separator is written before every pushed fragment but the first. |
| LikePatterns.ILikeIsSubstring | src/module/iam/adapter/repository/user.rs:86-90 | A text free of wildcards and of the escape character, between two percent signs, matches exactly the texts that contain it up to case. |
| LikePatterns.UnderscoreMatchesAnything | src/module/iam/adapter/repository/user.rs:86-90 | The first name _ matches every non-empty name without an underscore, although such a name does not contain it. |
| LikePatterns.ILikeIsSubstringIff | src/module/iam/adapter/repository/user.rs:86-90 | The first-name filter is a case-insensitive substring test on all names if and only if its text holds no LIKE wildcard and no escape character. |
| UserQueries.ReadWrittenConditions | src/module/iam/adapter/repository/user.rs:59-91 | Reading the written filter text inverts writing it, whatever arguments stand around its own and whatever text follows that begins no condition: placeholders and values correspond one to one, in order. |
| UserQueries.CountStatementMeans | src/module/iam/adapter/repository/user.rs:153-161 | The count statement with its arguments reads back as a count under exactly its conditions. |
| UserQueries.SelectStatementMeans | src/module/iam/adapter/repository/user.rs:163-175 | The select statement with its arguments reads back as exactly its conditions, sort, limit and offset. |
| ListingTexts.CountTextIff | src/module/iam/adapter/repository/user.rs:153-155 | Two requests get the same count string if and only if the same filters are recognised in both. |
| ListingTexts.SelectTextIff | src/module/iam/adapter/repository/user.rs:29-48 | Two requests get the same select string if and only if the same filters are recognised and they ask for the same sort column and direction: no value, page or unknown key reaches the text. |
| ListingTexts.CountTextIs | src/module/iam/adapter/repository/user.rs:24-27 | The count string of every request, written with the tables and columns of the schema: the joins, and for each recognised filter its clause with its number. |
| ListingTexts.SelectTextIs | src/module/iam/adapter/repository/user.rs:163-175 | The select string of every request: the columns, the joins, each recognised filter's clause with its number, the sort by the named column and direction, and the page. |
| UserQueries.ConditionsMean | src/module/iam/adapter/repository/user.rs:59-91 | Evaluating the conditions on a row is the conjunction of the recognised filters; unknown status names, departments that are no 32-bit integers, empty values and unknown keys ask nothing. |
| UserQueries.SortMeans | src/module/iam/adapter/repository/user.rs:31-48 | A public name sorts by its own column, any other text by user name; the order is ascending exactly when it is asc, so an empty one sorts descending. |
| UserQueries.JoinedRowsAreUsers | src/module/iam/adapter/repository/user.rs:16-27 | Every row of the three inner joins is the one row of a user whose department has a company. |
| UserQueries.SelectedIsListed | src/module/iam/adapter/repository/user.rs:75-84 | The filtered join holds exactly the listed users, each once, so the count and the list see the same users in spite of joins and the EXISTS test. |
| UserRepositories.PushFilters | src/module/iam/adapter/repository/user.rs:59-91 | Appends exactly the text of the recognised conditions and binds exactly their values, in order. |
| UserRepositories.PushDepartmentFilter | src/module/iam/adapter/repository/user.rs:66-73 | Appends the department condition when the value parses as a 32-bit integer and nothing otherwise. |
| UserRepositories.BuildSelect | src/module/iam/adapter/repository/user.rs:163-175 | The text and arguments built for a request are those of its conditions, sort column, direction, page size and offset. |
| UserRepositories.Index | src/module/iam/adapter/repository/user.rs:152-187 | Succeeds if and only if the two statements, sent as exactly those strings, are answered, no name on the page is NULL and every role query is answered. Then the total counts exactly the listed users, and the users are the rows of the request's page in order, each equal column by column to what the tables hold under its id, with exactly its roles. |
| UserRepositories.CountUsers | src/module/iam/adapter/repository/user.rs:153-161 | Sends exactly the count string; the answer is the number of users that the request's own question accepts. |
| UserRepositories.SelectUsers | src/module/iam/adapter/repository/user.rs:163-177 | Sends exactly the select string; the rows are a page of some order of the matching rows that is sorted as the request asks. |
| Listings.PageIsSorted | src/module/iam/adapter/repository/user.rs:166-175 | The rows of a page are distinct and sorted by the field the request names, by user name for any other text, and upwards exactly if it asks for asc. |
| UserRepositories.FindById | src/module/iam/adapter/repository/user.rs:222-229 | Unless a query fails: the user as the tables hold it, column by column and with exactly its roles; nothing exactly when the join has no row for it, and an error when a name in that row is NULL. |
| UserRepositories.DecodedShows | src/module/iam/adapter/repository/user.rs:93-116 | A joined row becomes a user if and only if neither name is NULL, and the user is then what the tables hold under its id. |
| Listings.OrderingIsUnique | src/module/iam/adapter/repository/user.rs:166-171 | When no two rows share a sort key, every sorted list of the rows is the same. |
| Listings.OrderingIsUniqueIff | src/module/iam/adapter/repository/user.rs:166-171 | A listing has exactly one possible order if and only if its rows have distinct sort keys. |
| Listings.TieCanRepeatARow | src/module/iam/adapter/repository/user.rs:166-175 | With a tie across a page boundary, one row can appear on both pages. |
| PageTies.CutIsSettled | src/module/iam/adapter/repository/user.rs:166-171 | Where two neighbouring rows of one order differ in key, every order the database may pick has the same rows before that place. |
| PageTies.PagesAreSettledIff | src/module/iam/adapter/repository/user.rs:166-175 | For every sort column, each page holds the same rows in whatever order the database sorts it if and only if no two rows with equal keys meet at a page boundary. |
| PageTies.EveryRowHasOnePage | src/module/iam/adapter/repository/user.rs:166-175 | Without such a tie, every row is on exactly one page, the same in every order: none is missed and none repeated although each page is sorted anew. |
| Listings.UniqueColumnsHaveDistinctKeys | migrations/iam/20250609224133_create_users_table.up.sql:5-7 | Sorted by user name or email, the rows of every request have distinct keys. |
| Listings.PagesAreExact | src/module/iam/adapter/repository/user.rs:152-187 | For fixed tables and a unique sort column, the pages 1 to total_pages, each sorted by the database on its own, together are exactly the filtered sorted list: nothing missed or repeated, every page but the last full. |
| Listings.AllPagesFull | src/package/pagination.rs:67-69 | Slices at the offsets of pages 1 to the ceiling are, put together, the whole list, and all but the last are full. |
| Listings.PageOffset | src/package/pagination.rs:67-69 | On existing pages of a table that fits i64 the offset never wraps. |
| Passwords.BothCheckersAcceptTheRules | src/package/validation.rs:7-43 | strong_password and password_checker accept the same passwords: exactly those that meet all five rules. |
| Passwords.ComplaintIsFirstBroken | src/package/validation.rs:22-43 | A password gets a complaint if and only if it breaks that rule and none before it, in the order length, upper case, lower case, digit, special character. |
| UserUpdates.UpdateStatementMeans | src/module/iam/adapter/repository/user.rs:306-344 | For every patch that changes a column, the UPDATE text is well formed (non-empty SET list, separators only between assignments, id last) and reads back as exactly the present fields on exactly that id. |
| UpdateTexts.UpdateTextIff | src/module/iam/adapter/repository/user.rs:306-344 | Two patches get the same UPDATE string if and only if the same fields are present in both: no value reaches the text. |
| UpdateTexts.UpdateTextIs | src/module/iam/adapter/repository/user.rs:306-344 | The UPDATE string of every patch, written with the columns of the schema: the present fields in order with their numbers, and the id condition with the number after them. |
| UserUpdates.ReadWrittenSet | src/module/iam/adapter/repository/user.rs:306-342 | Reading a SET list inverts writing it, for any assignments and any arguments around it. |
| UserUpdates.AssignmentsPatch | src/module/iam/adapter/repository/user.rs:309-342 | Executing the generated assignments on a row is the record update of exactly the present fields. |
| UserRepositories.PartialUpdate | src/module/iam/adapter/repository/user.rs:296-356 | A patch without columns or with an unknown status name sends nothing, and only the latter is an error of the status. Any other sends exactly one statement, with exactly that string and those values, and its effect is the record update of exactly the present fields on exactly this user, or one of the constraint errors told apart, or a failure. |
| UserRepositories.WriteAssignments | src/module/iam/adapter/repository/user.rs:309-342 | The SET list written is that of the present fields in column order, unless the status name is unknown. |
| UserRepositories.Create | src/module/iam/adapter/repository/user.rs:189-220 | Unless a statement fails: a taken name or email is reported first, then a missing department or status, and otherwise there is one user under a new id with its known roles. |
| UserRepositories.AddUserRoles | src/module/iam/adapter/repository/user.rs:249-271 | Links the user to exactly the roles named, once each, or changes nothing, and says exactly when; an empty list needs no statement. |
| UserRepositories.RemoveUserRoles | src/module/iam/adapter/repository/user.rs:273-294 | Unlinks the user from exactly the roles named, or changes nothing, exactly when the statement fails; an empty list needs none. |
| UserRepositories.Delete | src/module/iam/adapter/repository/user.rs:359-367 | Unless the statement fails, only the status of exactly this user becomes Deleted; the row stays. |
| UserRepositories.Transaction.ExecuteUpdate | src/module/iam/adapter/repository/user.rs:346-353 | Sends the string its tokens render to; the statement runs as what tokens and arguments read back as, under the unique and foreign keys, or leaves the tables alone. |
| UserTables.PutUserSucceedsIff | migrations/iam/20250609224133_create_users_table.up.sql:3-15 | The constraint checks let a user row in exactly when the tables would stay consistent. |
| UserTables.PatchRefusedIff | src/module/iam/adapter/repository/user.rs:346-353 | On consistent tables a patch is refused as a duplicate exactly if another user has the email it asks for, as a missing reference exactly if the email is free and its department or status is not there, and never otherwise. |
| UserTables.CreateAddsOneUser | src/module/iam/core/service/user.rs:67-87 | A committed create adds one active user with the given fields, the hash and exactly the known roles; all other users and their roles stay. |
| UserTables.PatchChangesRoles | src/module/iam/core/service/user.rs:106-130 | After a committed patch this user's role names are (old plus known added) minus known removed, and everybody else's are as before. |
| UserTables.RolesAfterChange | src/module/iam/core/service/user.rs:113-125 | After a patch the role names are (old plus known added) minus known removed, for this user only; unknown names and repeats change nothing. |
| UserTables.ChangeRolesTwice | src/module/iam/adapter/repository/user.rs:259-263 | Applying the same role changes twice equals applying them once. |
| UserTables.CreateKeepsConsistency | src/module/iam/core/service/user.rs:67-87 | A committed create keeps all unique and foreign keys and adds exactly one id. |
| UserTables.PatchKeepsConsistency | src/module/iam/core/service/user.rs:93-130 | A committed patch keeps all unique and foreign keys and the set of ids. |
| UserTables.DeleteKeepsConsistency | src/module/iam/core/service/user.rs:132-145 | A committed delete keeps all unique and foreign keys and the set of ids. |
| UserRepositories.VisibleIsJoined | src/module/iam/adapter/repository/user.rs:222-229 | A user is found by id exactly when the joined query has a row for it, so not when its department has no company. |
| UserServices.UserService.RequireUser | src/module/iam/core/service/user.rs:39-45 | Not found exactly when the join has no row for the id; an internal error exactly when a query fails or a name is NULL; otherwise the user as the tables hold it. |
| UserServices.UserService.Create | src/module/iam/core/service/user.rs:67-87 | All or nothing. Unless a call fails: a taken name or email is unprocessable, a missing department or status an invalid department, and otherwise there is one new active user with the known roles and the hash; an internal error means that a call failed. Consistency is kept. |
| UserServices.UserService.PartialUpdate | src/module/iam/core/service/user.rs:93-130 | All or nothing, with the first reason in order named: the user not found or not readable, the first broken password rule, an unknown status name, an email taken, a reference missing, a call that failed. Otherwise exactly the present fields of exactly this user (the password hashed) and its roles change. Consistency is kept. |
| UserServices.UserService.Delete | src/module/iam/core/service/user.rs:132-145 | All or nothing: unless the user is not found or a call fails, its status becomes Deleted and no other column, row or role changes. Consistency is kept. |
| UserServices.UserService.Index | src/module/iam/core/service/user.rs:50-65 | A page of the listing, exactly if its queries are answered and no name on it is NULL, with the exact ceiling of the number of listed users as its page count, the users of its page as the tables hold them, and both page links. |
| UserRuns.RunsStayConsistent | src/module/iam/core/service/user.rs:67-145 | Over every run of create, patch, self patch, delete and reset, names and emails stay unique, all foreign keys hold, and no id ever disappears, with existence checks taken any number of commits earlier. |
| UserRuns.CheckedUserStillExists | src/module/iam/core/service/user.rs:93-111 | The existence check made outside the transaction still holds when the UPDATE runs. |
| UserRuns.StoredPasswordsMeetTheRules | src/module/iam/adapter/handler/user.rs:75-76 | In every run through the handlers, each stored password is the one at the start or a hash of one that meets all five rules. |
| UserRuns.SelfPatchKeepsAccount | src/module/iam/core/ports.rs:35-43 | A committed self patch changes at most the avatar, first name, last name and department of its own user, to the values present; a given email, status, password or role change is dropped. |
| UserRuns.SelfServiceKeepsAccounts | src/module/iam/core/ports.rs:35-43 | After any self patches by any users, everybody's email, user name, password, status and roles are as at the start. |
| UserRuns.SelfServiceKeepsPermissions | src/module/iam/adapter/handler/user.rs:153-163 | After any self patches by any users, every answer of can and of can_any is as at the start, for any engines with the same super role and stores that answer. |
| Rbac.SplitActionIff | src/package/rbac/mod.rs:18-20 | An action splits into two parts exactly when it is the first, a dot and the second, and the first has no dot. |
| Rbac.RbacEngine.CanAny | src/package/rbac/engine.rs:61-90 | The hash index from resource to names answers as the plain list of permissions would. |
| Rbac.RbacEngine.CanAnyAgreesIff | src/package/rbac/engine.rs:35-90 | With a reliable store, can_any equals "some action passes can" if and only if: for the super role, the action list is not empty; otherwise, no joined row holds a NULL or the tables allow none of the actions. |
| Rbac.RbacEngine.CanAnyIsAllowed | src/package/rbac/engine.rs:61-90 | With a reliable store, can_any is true exactly for the super role, or when no joined row holds a NULL and the tables allow some action of the list. |
| Rbac.RbacEngine.EmptyListSplitsTheChecks | src/package/rbac/engine.rs:61-65 | For the super role and an empty action list can_any is true and no action passes can. |
| Rbac.JoinedStoreIsReliable | src/package/rbac/store.rs:34-90 | For all tables, a store that answers its three queries by the joins, decoding permissions row by row, is reliable: it says what the relations say and fails only on a NULL. |
| Rbac.RbacEngine.NullRowSplitsTheChecks | src/package/rbac/store.rs:46-66 | Consistent tables with a granted action and a nameless permission, served by the joins, on which can says yes and can_any, asked for that action, says no. |
| Rbac.RbacEngine.TrueIsJustified | src/package/rbac/store.rs:46-90 | Under any store errors, a true answer of either check is justified by the super role or by a joined row. |
| Rbac.RbacEngine.ChecksUnderFailures | src/package/rbac/engine.rs:35-90 | Whichever queries fail, can and can_any are true exactly for a super role that is answered, or for a granted resource.name among the actions whose own query is answered. |
| Rbac.RbacEngine.CanIsAllowed | src/package/rbac/engine.rs:35-59 | With a reliable store, can decides exactly what the joined tables allow. |
| Rbac.AllowedIsMonotone | src/package/rbac/store.rs:34-44 | More role links never take an action away. |
| Rbac.RolePatchesAreMonotone | src/module/iam/core/service/user.rs:113-125 | A patch that only adds roles never removes an allowed action, and one that only removes never grants one. |
| Validation.Error.PushViolation | src/package/errdef.rs:128-135 | A violation goes to the end of its field's list and no other list changes; an application error takes none. |
| Validation.Collect | src/package/validation.rs:51-73 | The recursive walk pushes exactly the leaves of the tree, under their dotted and indexed paths, in order. |
| FlattenedPaths.ToError | src/package/validation.rs:45-49 | The error holds the flattened tree: under the path of each leaf what is to be said of its failed rules, and no other key. |
| FlattenedPaths.LeafPathIsInjective | src/package/validation.rs:53-57 | With non-empty dot-free names, different leaves have different paths. |
| FlattenedPaths.FlattenedHoldsExactlyTheLeaves | src/package/validation.rs:51-73 | For trees of any depth: under the path of each leaf is exactly one message for each of its failed rules, in order, the one its code asks for (with the minimum of a length rule), and there are no other keys. |
| FlattenedPaths.SameMessageIff | src/package/validation.rs:75-97 | Two failed rules get the same message if and only if they have the same code, or both have a code without a message of its own, and two length rules also the same minimum. |
| FlattenedPaths.SameLeavesSameMap | src/package/validation.rs:51-73 | Trees with the same leaves flatten to the same map. |
| FlattenedPaths.FlatteningIgnoresOrder | src/package/validation.rs:52 | The flattened map is the same for every order in which the hash maps list their fields, at every depth. |
| FlattenedPaths.FlatteningConservesMessages | src/package/errdef.rs:128-135 | For every tree, whatever its names, the map holds as many messages as rules failed. |
| Dsn.EncodedIsFree | src/config/db.rs:42-56 | Encoded credentials never contain a delimiter. |
| Dsn.EncodesByCode | src/config/db.rs:42-56 | Wherever a delimiter stands it becomes a percent sign and its code in two upper-case hexadecimal digits; every other character stays. |
| Dsn.DecodeEncodeIff | src/config/db.rs:42-56 | Percent-decoding (section 2.1 of RFC 3986) undoes the encoding if and only if the text contains no percent triplet; otherwise characters are lost. |
| Dsn.ComponentsOfUrl | src/config/db.rs:16-26 | For a host free of delimiters, splitting the URL at its delimiters (section 3.2 of RFC 3986) finds the host and port, the two credentials encoded then decoded, and the database up to its first question mark or number sign. |
| Dsn.PercentPasswordIsLost | src/config/db.rs:42-56 | The password %41 is read back as A. |
| Dsn.UrlRoundTripIff | src/config/db.rs:16-26 | For a host free of delimiters, reading the URL gives back the configuration if and only if neither credential contains a percent triplet and the database neither a question mark nor a number sign; so it does without percent signs and with a database free of delimiters. |
| Templates.ReplaceIsFill | src/package/emailer/mod.rs:66-68 | Replacing one key in the text of a template fills exactly the placeholders of that key, if no literal holds or begins an occurrence of it. |
| Templates.CleanIsHarmless | src/package/emailer/mod.rs:66-68 | Text without a doubled opening brace that does not end in one meets that condition for every key. |
| Templates.SequentialIsSimultaneous | src/package/emailer/mod.rs:66-68 | For any number of entries: one key after another gives the same text as all at once, if no value holds or begins an occurrence of a later key. |
| Templates.SimultaneousIff | src/package/emailer/mod.rs:66-68 | For two entries with given values: replacing one after the other is filling both at once in every safe template if and only if the first value neither holds nor begins an occurrence of the second key, or that key stands for its own placeholder. |
| Templates.OrderIsInvisibleIff | src/package/emailer/mod.rs:66-68 | For two entries with given values: both orders give the same text in every safe template if and only if that condition holds of each value and the other key. |
| Templates.RenderFills | src/package/emailer/mod.rs:59-69 | Under that condition on the map, rendering fills every placeholder that has a value and leaves the others, and fails exactly for an unknown template name. |
| Templates.RenderIgnoresOrder | src/package/emailer/mod.rs:59-69 | Under the same condition the rendered body, or the missing-template error, does not depend on the order of the hash map. |
| Templates.NestedNameShowsTheOrder | src/package/emailer/mod.rs:66-68 | With the user name {{callbackURI}}, every safe template that names the user renders to two different texts in the two orders, and what they are. |
| Templates.RecoveryMailShowsTheOrder | src/package/auth/service.rs:160-163 | So does the recovery mail with its entries username and callbackURI, whatever its texts between the placeholders. |

## Left out

- HTTP routing, middleware, extractors, CORS, logging, request context, the docs page and the process life cycle: input, output and wiring.
- PostgreSQL, the connection pool, migrations and SMTP: only table semantics, declared constraints, success or failure, and commit or rollback are modelled.
- Isolation of transactions from each other: runs of the user service interleave whole commits, with existence checks that may be stale, but not the statements inside two transactions.
- A commit that reports an error although it took effect: a failed commit changes nothing in the model.
- VARCHAR lengths and other database errors: they are failures that may happen at any statement.
- A store call of the reset protocol that fails after it took effect: in the transition system this is a call that stops after that step; the methods of the class `AuthService` model a failed statement as one without effect.
- UserServices.UserService.Create: the create handler's other field rules (lengths, email format, department range) are not modelled, only the password rule.
- Query-string decoding before `from_query`: the model starts from the decoded pairs.
- bcrypt, SHA-256, HMAC, the random source and UUID text: abstract functions with the assumptions above.
- The registered claims other than `exp` that the token library would check: the program never sets them.
- Access versus refresh tokens: `user_id_from` does not distinguish them, so nothing is stated about it.
- Overflow of the date arithmetic behind token expiry: lifetimes are unbounded integers.
- Hosts with delimiters in the connection string, bracketed IP literals among them: the URL reader is stated for hosts free of delimiters.
- Percent-decoding of bytes above 127: the encoder only escapes ASCII delimiters, so decoding is modelled on characters.
- UserRuns.RunsStayConsistent: assumes that nothing but the service and the password reset writes to these tables.
- Changes of an email while a reset for it is pending: the reset protocol and the user tables are two models.
- Validation.Collect: the text of a rule's parameter is taken as given; trimming its quotes is not modelled.
- Sessions.SessionService.Enrich: the two queries of a lookup see the same tables; a role change between them is not modelled.
- Log levels, environment names, the mapping of error codes to HTTP statuses, DTO conversions and masking: finite facts about one branch.
