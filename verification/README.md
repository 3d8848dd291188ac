# HR management front end — a verified model of its logic

This project models the behaviour behind the screens of an HR management web
front end (HR-System). The model is written in Dafny. It covers these parts:

- **Generic data table.** A search filter, a stable sort that puts missing
  values last, pagination, a five-button page window, and the sort, search
  and paging handlers.
- **In-memory data service.** Ten CRUD tables (regions, countries,
  departments, positions, employees, employee history, attendance,
  contracts, payroll, leaves). Some tables copy a display name from a
  parent table.
- **Generic CRUD page.** It builds the create and edit forms, sends a
  submit to exactly one delegate, runs a two-step delete and coerces field
  values.
- **Sign-in and session handling.**
  - The demo-account credential check and the `Basic` session-header check.
  - The browser's `btoa`/`atob`, which the session token goes through.
  - The auth context, with its two browser-storage entries.
  - The sign-in page's outcome routing and the route guards.
- **Other screens.**
  - The five-step registration wizard.
  - The automatic status badge.
  - The sidebar's group toggling and admin filter.
  - The leave-balance report's summary counts and colour thresholds.

Pure code is modelled as datatypes, functions and lemmas. Code that updates
state becomes classes whose methods state the new state in terms of the old
one. These classes are `MockData.Table`, `MockData.DataService`,
`CrudPage.CrudPage`, `AuthContext.AuthProvider`, `LoginPage.LoginForm`,
`Register.RegisterWizard` and `Layout.Sidebar`. JS values, truthiness, `??`,
`String()`, `toLowerCase`, `includes`, `replace`, `split` and `slice` are
modelled in `JsValues` and `Text`.

Files:

| file | module | models |
|---|---|---|
| js_values.dfy | JsValues | JS values, records, truthiness, number-to-string |
| text.dfy | Text | the string methods the core uses |
| data_table.dfy | DataTable | src/components/common/DataTable.tsx |
| mock_data.dfy | MockData | src/services/mockDataService.ts |
| crud_page.dfy | CrudPage | src/components/admin/CrudPage.tsx |
| base64.dfy | Base64 | `btoa`/`atob` (section 4 of RFC 4648; WHATWG forgiving-base64 decode) |
| auth_service.dfy | AuthService | src/services/authService.ts |
| auth_context.dfy | AuthContext | src/context/AuthContext.tsx |
| login_page.dfy | LoginPage | src/pages/Login.tsx |
| protected_route.dfy | ProtectedRoute | src/components/auth/ProtectedRoute.tsx and the route nesting of src/App.tsx |
| register.dfy | Register | src/pages/Register.tsx |
| status_badge.dfy | StatusBadge | src/components/common/StatusBadge.tsx |
| layout.dfy | Layout | src/components/layout/Layout.tsx (the sidebar) |
| leave_balance.dfy | LeaveBalance | src/pages/reports/LeaveBalance.tsx |

Three behaviours of the code worth knowing, each modelled as the code has
it:

- The page window tests `totalPages <= 5` before anything else.
- A failed `btoa` during login leaves the user signed in without writing
  storage.
- An invalid birth date passes the age check, because the age is NaN and
  NaN is never below 18.

## Model

| member | source | states |
|---|---|---|
| JsValues.NatToStringRoundTrip | src/components/common/DataTable.tsx:50-51 | the decimal text of a number reads back as that number |
| Text.Lower | src/components/common/DataTable.tsx:44 | lower-casing keeps the length and maps each character |
| Text.LowerIdempotent | src/services/authService.ts:62 | lower-casing twice is lower-casing once |
| Text.IncludesIff | src/components/common/DataTable.tsx:48 | `includes` holds iff the needle occurs at some position |
| Text.IncludesWithin | src/components/common/DataTable.tsx:48 | text added around a match keeps it |
| Text.MissingCharExcludes | src/components/common/StatusBadge.tsx:45-72 | a needle with a character the text lacks does not occur |
| Text.SplitNoSeparator | src/services/authService.ts:79 | a string without the separator splits into itself |
| Text.SplitAtFirst | src/services/authService.ts:79 | `a:b` with no `:` in `a` splits into `a`, then the segments of `b` |
| DataTable.FilterRows | src/components/common/DataTable.tsx:42-55 | the filtered rows are exactly the data rows the search keeps |
| DataTable.FilterIsSubsequence | src/components/common/DataTable.tsx:42-55 | filtering keeps the order of the rows it keeps |
| DataTable.EmptySearchKeepsAll | src/components/common/DataTable.tsx:43 | an empty search returns the data unchanged |
| DataTable.FilterMultiset | src/components/common/DataTable.tsx:42-55 | filtering never adds or duplicates a row |
| DataTable.OnlyStringsAndNumbersMatch | src/components/common/DataTable.tsx:45-54 | a row whose search fields are neither strings nor numbers never matches a non-empty search |
| DataTable.CompareLaws | src/components/common/DataTable.tsx:63-68 | equal values compare 0; a missing value sorts after a present one in both directions; `desc` negates `asc` |
| DataTable.SortIsPermutation | src/components/common/DataTable.tsx:58-69 | sorting is a permutation of the filtered rows |
| DataTable.UnsortedKeepsOrder | src/components/common/DataTable.tsx:59 | with no sort column the order is unchanged |
| DataTable.InsertAppends | src/components/common/DataTable.tsx:59 | with no sort column an inserted row goes last |
| DataTable.InsertMultiset | src/components/common/DataTable.tsx:58-69 | inserting adds exactly that row |
| DataTable.StrLessIrreflexive | src/components/common/DataTable.tsx:67 | string `<` is irreflexive |
| DataTable.StrLessTransitive | src/components/common/DataTable.tsx:67 | string `<` is transitive |
| DataTable.StrLessTotal | src/components/common/DataTable.tsx:67 | distinct strings are ordered one way |
| DataTable.StrLessAsymmetric | src/components/common/DataTable.tsx:67 | string `<` is asymmetric |
| DataTable.LessOrder | src/components/common/DataTable.tsx:67 | `<` on values of one kind is a strict total order |
| DataTable.BeforeTransitive | src/components/common/DataTable.tsx:63-68 | the comparator's order is transitive, missing values last |
| DataTable.CompareNotAboveIsBefore | src/components/common/DataTable.tsx:63-68 | a comparison of at most 0 puts the first row first |
| DataTable.CompareAboveIsAfter | src/components/common/DataTable.tsx:63-68 | a positive comparison puts the second row first |
| DataTable.InsertSorted | src/components/common/DataTable.tsx:58-69 | inserting into a sorted list keeps it sorted |
| DataTable.SortIsOrdered | src/components/common/DataTable.tsx:58-69 | on a column of one kind, the sorted rows are ordered by the chosen direction, missing values last |
| DataTable.InsertSelect | src/components/common/DataTable.tsx:58-69 | inserting a row into a sorted column keeps the rows of every value in order and puts the new row after those of its own value |
| DataTable.SortIsStable | src/components/common/DataTable.tsx:58-69 | the sort is stable: on a column of one kind without both null and undefined, rows holding the same value keep their relative order |
| DataTable.MixedKindsReorder | src/components/common/DataTable.tsx:58-69 | with a string between two equal numbers, the sort puts the later number first, so stability needs a column of one kind |
| DataTable.TotalPages | src/components/common/DataTable.tsx:72 | the page count is the ceiling of rows over page size |
| DataTable.SliceIndex | src/components/common/DataTable.tsx:73-76 | a clamped slice index stays within the length |
| DataTable.PageIsSlice | src/components/common/DataTable.tsx:73-76 | page p is rows `(p-1)*size` up to `p*size`, at most `size` of them |
| DataTable.PagesUpToIsPrefix | src/components/common/DataTable.tsx:73-76 | the first k pages together are the first `k*size` rows |
| DataTable.AllPagesRebuildRows | src/components/common/DataTable.tsx:72-76 | all pages concatenated give back the sorted rows |
| DataTable.PageStartsInside | src/components/common/DataTable.tsx:72-76 | every page up to the total starts inside the rows |
| DataTable.PageSizes | src/components/common/DataTable.tsx:72-76 | every page but the last is full; the last holds the remainder |
| DataTable.ShowingMatchesPage | src/components/common/DataTable.tsx:192-193 | "Showing X to Y" runs over exactly the rows of the page |
| DataTable.PageWindow | src/components/common/DataTable.tsx:206-216 | `min(5, total)` consecutive buttons within `[1, total]`, including the current page; they start at 1 when there are at most five pages or the current page is at most 3, end at the last page when the current page is within 2 of it, and otherwise centre the current page |
| DataTable.PageWindowDistinct | src/components/common/DataTable.tsx:206-216 | the page buttons are distinct and increasing |
| DataTable.HandleSort | src/components/common/DataTable.tsx:78-85 | the current column flips direction; another column starts ascending; sorting never switches off |
| DataTable.HandleSortTwice | src/components/common/DataTable.tsx:78-85 | two clicks on the sorted column restore the view; on a new column they end descending |
| DataTable.SetSearch | src/components/common/DataTable.tsx:108-111 | editing the search resets to page 1 and keeps the sort |
| DataTable.PrevPage | src/components/common/DataTable.tsx:199 | Previous moves back one page, stops at page 1, and keeps the search and the sort |
| DataTable.NextPage | src/components/common/DataTable.tsx:233 | Next moves on one page, stops at the last page, and keeps the search and the sort |
| DataTable.PrevNextStayInRange | src/components/common/DataTable.tsx:199-233 | from a page in range, Previous and Next stay in range |
| DataTable.VisibleRowsAreMatches | src/components/common/DataTable.tsx:42-76 | every row shown is a data row that the search keeps |
| DataTable.SearchExample | src/components/common/DataTable.tsx:42-55 | rows Alice and Bob searched for "ali" on the name column keep only Alice |
| DataTable.PaginationExample | src/components/common/DataTable.tsx:72-76 | 23 rows at 10 per page give pages of 10, 10 and 3 |
| MockData.IndexOf | src/services/mockDataService.ts:349 | `findIndex`: the first index holding the id, or -1 |
| MockData.FindRow | src/services/mockDataService.ts:369 | `find`: the first row holding the key, or none iff no row holds it |
| MockData.CreateNames | src/services/mockDataService.ts:369-373 | a create writes exactly the table's denormalised name fields |
| MockData.UpdateNames | src/services/mockDataService.ts:383-384 | an update writes exactly the table's denormalised name fields |
| MockData.CreatedRecord | src/services/mockDataService.ts:337-346 | the new record has the fresh id and `createdAt`, and otherwise `data`'s fields |
| MockData.UpdatedRecord | src/services/mockDataService.ts:351 | the merged record: `data` over the stored fields, plus `updatedAt` |
| MockData.Table.constructor | src/services/mockDataService.ts:20-325 | a table starts with its seed rows |
| MockData.Table.GetAll | src/services/mockDataService.ts:333-336 | the copy has the stored rows, in order; the table is unchanged |
| MockData.Table.FindIndex | src/services/mockDataService.ts:349 | the loop finds the first index with the id |
| MockData.Table.Create | src/services/mockDataService.ts:337-346 | exactly the created record is appended |
| MockData.Table.Update | src/services/mockDataService.ts:347-355 | the first match is replaced by the merge, or "… not found" with the rows unchanged |
| MockData.Table.Delete | src/services/mockDataService.ts:356-360 | the first match is removed; a missing id changes nothing |
| MockData.DataService.constructor | src/services/mockDataService.ts:20-325 | ten distinct tables, each with its seed |
| MockData.DataService.Get | src/services/mockDataService.ts:333-336 | the getter of one table returns its rows |
| MockData.DataService.Create | src/services/mockDataService.ts:337-346 | a create on one table, names looked up in the current parents; other tables unchanged |
| MockData.DataService.Update | src/services/mockDataService.ts:347-355 | an update on one table; other tables unchanged |
| MockData.DataService.Delete | src/services/mockDataService.ts:356-360 | a delete on one table; other tables unchanged |
| MockData.CreateKeepsIdsUnique | src/services/mockDataService.ts:337-346 | a fresh id keeps ids unique |
| MockData.UpdateKeepsIdsUnique | src/services/mockDataService.ts:347-355 | an update whose data keeps the id keeps ids unique, and the record is still found at the same index |
| MockData.DeleteKeepsOthers | src/services/mockDataService.ts:356-360 | a delete removes one row and keeps the rest in order |
| MockData.RemoveAt | src/services/mockDataService.ts:359 | `splice(i, 1)` shifts later rows down by one |
| MockData.DeleteRemovesId | src/services/mockDataService.ts:356-360 | with unique ids, after a delete no row holds the id |
| MockData.DeleteUndoesCreate | src/services/mockDataService.ts:337-360 | deleting a just-created record restores the table |
| MockData.UpdateMissingIsError | src/services/mockDataService.ts:354 | a missing id is not found, and deleting it changes nothing |
| MockData.CountryRegionName | src/services/mockDataService.ts:369-373 | a new country carries its region's name, or undefined |
| MockData.CountryUpdateOverwritesRegionName | src/services/mockDataService.ts:383-384 | an update with an unknown region erases the stored region name |
| MockData.DepartmentUpdateOverwritesCountryName | src/services/mockDataService.ts:412-417 | a department's country name is overwritten, and is undefined when the key is unknown |
| MockData.CreatedEmployeeName | src/services/mockDataService.ts:495-501 | `employeeName` is "first last" of the employee, or undefined |
| MockData.UpdateKeepsOldNames | src/services/mockDataService.ts:519-521 | an update whose lookups fail keeps the stored names |
| MockData.HistoryEmptyDepartmentNameFallsBack | src/services/mockDataService.ts:520 | an empty looked-up name also falls back to the stored one (`\|\|`) |
| CrudPage.EditValue | src/components/admin/CrudPage.tsx:99 | `item[f] ?? ''` is never nullish and keeps defined values |
| CrudPage.FormFor | src/components/admin/CrudPage.tsx:83-90 | the form has exactly one entry per field name |
| CrudPage.FormForEntry | src/components/admin/CrudPage.tsx:84-90 | each field's entry is the value set for the last field of that name |
| CrudPage.CreateFormValues | src/components/admin/CrudPage.tsx:84-90 | a new form holds `true` for switches and `''` for all other fields |
| CrudPage.EditFormValues | src/components/admin/CrudPage.tsx:98-100 | an edit form holds `item[f] ?? ''` for every field |
| CrudPage.EditKeepsDefinedValues | src/components/admin/CrudPage.tsx:99 | defined item values are kept as they are |
| CrudPage.SaveUnchangedEdit | src/components/admin/CrudPage.tsx:94-116 | saving an unchanged edit form of a record whose form fields are all defined gives the record back with only a new `updatedAt`, for tables without display names |
| CrudPage.SaveUnchangedEditFillsNull | src/components/admin/CrudPage.tsx:94-116 | a form field stored as null or undefined comes back from an unchanged edit as `''` |
| CrudPage.DefaultAccessor | src/components/admin/CrudPage.tsx:150-153 | null or undefined shows as `''`; a string as itself, a number as its digits, a boolean as "true" or "false" |
| CrudPage.TableColumns | src/components/admin/CrudPage.tsx:145-155 | one column per config, same key and header, all sortable |
| CrudPage.EffectiveSearchKeys | src/components/admin/CrudPage.tsx:158-160 | the given search keys if any, else every column key |
| CrudPage.SwitchCheckedCases | src/components/admin/CrudPage.tsx:187 | a switch is on for `true` or `'true'` only |
| CrudPage.DateTimeDisplay | src/components/admin/CrudPage.tsx:224 | a truthy datetime shows its first 16 characters, or all of it when shorter; a falsy one shows `''` |
| CrudPage.NumberBoxHidesZero | src/components/admin/CrudPage.tsx:203-206 | the number box shows empty exactly when the entry was unparseable or 0, and shows any other number |
| CrudPage.TextBoxShowsStoredText | src/components/admin/CrudPage.tsx:194 | a text input shows its stored string, empty for a falsy value, and showing is idempotent |
| CrudPage.Singular | src/components/admin/CrudPage.tsx:116 | `title.slice(0, -1)` drops the last character |
| CrudPage.SingularExample | src/components/admin/CrudPage.tsx:302 | "Regions" gives "Region"; the dialog title is built from it |
| CrudPage.CrudPage.constructor | src/components/admin/CrudPage.tsx:74-79 | both dialogs closed, nothing selected, an empty form |
| CrudPage.CrudPage.BuildForm | src/components/admin/CrudPage.tsx:83-90 | the `forEach` loop builds the form that `FormFor` specifies |
| CrudPage.CrudPage.HandleOpenCreate | src/components/admin/CrudPage.tsx:81-93 | clears the edited item, builds the create form, opens the dialog |
| CrudPage.CrudPage.HandleOpenEdit | src/components/admin/CrudPage.tsx:95-103 | records the item, builds the edit form, opens the dialog |
| CrudPage.CrudPage.HandleOpenDelete | src/components/admin/CrudPage.tsx:105-108 | records the id and opens the confirmation |
| CrudPage.CrudPage.SetField | src/components/admin/CrudPage.tsx:188 | one form entry changes |
| CrudPage.CrudPage.CloseForm | src/components/admin/CrudPage.tsx:318 | Cancel closes the form and nothing else |
| CrudPage.CrudPage.CloseDeleteDialog | src/components/admin/CrudPage.tsx:330 | the confirmation closes and nothing else |
| CrudPage.CrudPage.HandleSubmit | src/components/admin/CrudPage.tsx:110-127 | exactly one call, update with the item's id when editing and create otherwise; the form closes only on success; not saving afterwards |
| CrudPage.CrudPage.HandleDelete | src/components/admin/CrudPage.tsx:129-142 | nothing without an id; otherwise one delete call, closing only on success, the id always cleared |
| Base64.AlphabetBijection | src/context/AuthContext.tsx:51 | the alphabet maps the 64 sextets to 64 characters and back |
| Base64.EncodeSextets | src/context/AuthContext.tsx:51 | 3 bytes become 4 sextets; 1 or 2 left over become 2 or 3 |
| Base64.Chars | src/context/AuthContext.tsx:51 | each sextet becomes its alphabet character |
| Base64.Encode | src/context/AuthContext.tsx:51 | the encoding has a length that is a multiple of 4 and uses only the alphabet and `=` |
| Base64.StripWhitespace | src/services/authService.ts:76 | the decoder's input has no ASCII whitespace |
| Base64.Values | src/services/authService.ts:76 | one sextet per character |
| Base64.GroupRoundTrip | src/services/authService.ts:76 | each byte is rebuilt from its split bits |
| Base64.DecodeEncodeSextets | src/services/authService.ts:76 | decoding the sextets of bytes gives the bytes back |
| Base64.StripNoWhitespace | src/services/authService.ts:76 | removing whitespace from an encoding changes nothing |
| Base64.DropPaddingOfEncode | src/services/authService.ts:76 | dropping padding leaves the alphabet characters |
| Base64.DecodeEncode | src/services/authService.ts:76 | forgiving decode of an encoding gives the bytes back |
| Base64.BytesToLatin1 | src/services/authService.ts:76 | the decoded string is Latin-1 |
| Base64.Btoa | src/context/AuthContext.tsx:51 | `btoa` succeeds iff every character is at most U+00FF |
| Base64.AtobBtoa | src/services/authService.ts:76 | `atob(btoa(s)) == s` |
| Base64.BtoaRejectsWideChars | src/context/AuthContext.tsx:51 | an en dash makes `btoa` throw |
| AuthService.Login | src/services/authService.ts:58-71 | succeeds iff the lower-cased email is known and the password equal; returns the profile without the password; else "Invalid email or password" |
| AuthService.LoginIgnoresEmailCase | src/services/authService.ts:62 | the email's case does not matter |
| AuthService.MockUsersKeyedByEmail | src/services/authService.ts:4-55 | each account sits under its own lower-case email |
| AuthService.DemoAccountsLogIn | src/services/authService.ts:4-71 | every demo account logs in, with any casing of its email |
| AuthService.DeveloperAuthenticates | src/services/authService.ts:45-71 | the role -1 account still authenticates here |
| AuthService.PasswordIsCaseSensitive | src/services/authService.ts:63-64 | the password is matched exactly |
| AuthService.SessionImpliesLogin | src/services/authService.ts:73-91 | any accepted session names credentials that log in as that user |
| AuthService.StripBasic | src/services/authService.ts:75 | removing "Basic " gives back the token |
| AuthService.SessionRoundTrip | src/services/authService.ts:73-91 | the header of a valid login's token validates to the login's user |
| AuthService.ColonInPasswordBreaksSession | src/services/authService.ts:79-80 | a password with `:` is cut at the `:`, so its session fails |
| AuthService.MalformedHeaderIsRejected | src/services/authService.ts:87-90 | a header that is not Base64 gives null instead of throwing |
| AuthContext.RoleFlagsExclusive | src/context/AuthContext.tsx:73-75 | admin and read-only are never both set, and each implies signed in |
| AuthContext.AuthHeaderFor | src/context/AuthContext.tsx:65-68 | "Basic " + token when a token is stored, else null |
| AuthContext.LoginEffect | src/context/AuthContext.tsx:39-57 | a login succeeds iff the service accepts the credentials, the role level is not -1, and `btoa` accepts `email:password` |
| AuthContext.LoginSuccessWritesBoth | src/context/AuthContext.tsx:48-53 | a successful login sets the user and writes the token and the user record |
| AuthContext.RefusedLoginChangesNothing | src/context/AuthContext.tsx:42-46 | a service error or role -1 fails and leaves user and storage unchanged |
| AuthContext.DeveloperIsDenied | src/context/AuthContext.tsx:44-46 | the developer account is refused with ACCESS_DENIED |
| AuthContext.LoginHeaderValidates | src/context/AuthContext.tsx:51-68 | after a login the auth header passes the service's session check as the same user |
| AuthContext.LogoutStorage | src/context/AuthContext.tsx:59-63 | logout removes both keys and keeps every other entry |
| AuthContext.RestoreNeedsBoth | src/context/AuthContext.tsx:22-37 | a user is restored only when both keys exist |
| AuthContext.ReloadRestoresUser | src/context/AuthContext.tsx:22-53 | a reload after a login restores that user |
| AuthContext.LogoutThenRestore | src/context/AuthContext.tsx:22-63 | after a logout nothing is restored |
| AuthContext.AuthProvider.constructor | src/context/AuthContext.tsx:19-20 | no user, loading |
| AuthContext.AuthProvider.RestoreSession | src/context/AuthContext.tsx:22-37 | the restore effect; a parse failure removes both keys; loading ends |
| AuthContext.AuthProvider.Login | src/context/AuthContext.tsx:39-57 | the login effect; loading ends in every outcome |
| AuthContext.AuthProvider.Logout | src/context/AuthContext.tsx:59-63 | signs out and removes both keys |
| LoginPage.SubmitResult | src/pages/Login.tsx:26-43 | success goes to /dashboard; ACCESS_DENIED to /access-denied with no inline error; any other error shows its message, or "Login failed" when not an Error |
| LoginPage.LoginForm.constructor | src/pages/Login.tsx:12-16 | an empty form, no error, not loading |
| LoginPage.LoginForm.HandleSubmit | src/pages/Login.tsx:22-44 | runs the context's login and routes on its outcome; loading ends false |
| LoginPage.LoginForm.HandleDemoAccountClick | src/pages/Login.tsx:47-55 | fills email and password and clears the error, without signing in |
| LoginPage.FailureMessages | src/pages/Login.tsx:35-40 | a non-Error gives "Login failed"; wrong credentials show the service's message |
| LoginPage.DemoAccountsRoute | src/pages/Login.tsx:57-76 | the admin and read-only demo accounts reach the dashboard; the no-access one the access-denied page |
| ProtectedRoute.ProtectedRouteDecision | src/components/auth/ProtectedRoute.tsx:6-18 | loader while loading; else the outlet iff signed in, otherwise /login |
| ProtectedRoute.AdminRouteDecision | src/components/auth/ProtectedRoute.tsx:20-32 | loader while loading; else the outlet iff admin, otherwise /dashboard |
| ProtectedRoute.AdminPathOutcomes | src/App.tsx:51-74 | on an admin path: loader while loading, anonymous to /login, non-admin to /dashboard, the page iff admin |
| ProtectedRoute.LoadingNeverRedirects | src/components/auth/ProtectedRoute.tsx:9-25 | no guard redirects while loading |
| Register.InitialForm | src/pages/Register.tsx:42-61 | all eighteen inputs, empty |
| Register.EmailPatternUnanchored | src/pages/Register.tsx:88 | the email test accepts any text containing a match |
| Register.EmailPatternNeeds | src/pages/Register.tsx:88 | a match needs at least five characters, an `@` and a `.` |
| Register.EmailPatternExamples | src/pages/Register.tsx:88 | "john@example.com" passes; "john@example" and "a@.c" fail |
| Register.StepError | src/pages/Register.tsx:81-135 | each step passes iff its required fields are present and its checks hold; other step numbers pass |
| Register.PasswordMessages | src/pages/Register.tsx:119-130 | step 5 reports missing, then too short, then mismatch |
| Register.PersonalMessages | src/pages/Register.tsx:84-91 | step 1 reports missing fields before a bad email |
| Register.AgeIsYearDifference | src/pages/Register.tsx:98-104 | only the year difference counts; an invalid date passes |
| Register.OptionalFieldsDoNotMatter | src/pages/Register.tsx:107-116 | gender, address line 2 and the emergency contact never change a verdict |
| Register.RequiredFieldsDecide | src/pages/Register.tsx:81-135 | forms that agree on the thirteen checked fields get the same verdict at every step |
| Register.EmptyFormFailsEveryStep | src/pages/Register.tsx:81-135 | the initial form fails all five steps |
| Register.RegisterWizard.constructor | src/pages/Register.tsx:42-67 | step 1, the empty form, no error |
| Register.RegisterWizard.HandleInputChange | src/pages/Register.tsx:72-75 | one input changes |
| Register.RegisterWizard.HandleGenderChange | src/pages/Register.tsx:77-79 | the gender changes |
| Register.RegisterWizard.ValidateStep | src/pages/Register.tsx:81-135 | sets the step's message or clears it, and reports the verdict |
| Register.RegisterWizard.HandleNext | src/pages/Register.tsx:137-141 | advances one step exactly when the step validates; stays within 1..5 |
| Register.RegisterWizard.HandleBack | src/pages/Register.tsx:143-146 | goes back one step and clears the error, without validating |
| Register.RegisterWizard.HandleSubmit | src/pages/Register.tsx:148-176 | re-validates the current step and only then goes to /login |
| StatusBadge.KeywordLists | src/components/common/StatusBadge.tsx:45-72 | each category's test is "some keyword of the list occurs" |
| StatusBadge.StatusBadge | src/components/common/StatusBadge.tsx:18-34 | the text is shown unchanged; the variant defaults to `default` |
| StatusBadge.AutoVariant | src/components/common/StatusBadge.tsx:41-72 | the first category, in the order success, warning, error, info, with a keyword in the lower-cased status; `default` otherwise |
| StatusBadge.AutoStatusBadge | src/components/common/StatusBadge.tsx:37-75 | shows the status unchanged with the detected variant |
| StatusBadge.AutoVariantIgnoresCase | src/components/common/StatusBadge.tsx:41 | statuses with the same lower case get the same variant |
| StatusBadge.SubstringSurprises | src/components/common/StatusBadge.tsx:46-50 | "Inactive" and "Unpaid" are success |
| StatusBadge.SuccessWinsOverError | src/components/common/StatusBadge.tsx:45-66 | a success keyword wins over a later category's keyword |
| StatusBadge.GoodStandingVariant | src/components/common/StatusBadge.tsx:48 | "OK" is success |
| StatusBadge.LowBalanceVariant | src/components/common/StatusBadge.tsx:41-58 | "LOW" followed by text with no c, p or k in either case is a warning; the seeded "LOW - Less than 3 days" has this form |
| StatusBadge.NoSuccessWord | src/components/common/StatusBadge.tsx:45-51 | text without `c`, `p` and `k` has no success keyword |
| StatusBadge.EmptyStatusIsDefault | src/components/common/StatusBadge.tsx:43 | an empty status is `default` |
| Layout.VisibleItems | src/components/layout/Layout.tsx:96 | the items kept are exactly those not admin-only, or all for an admin |
| Layout.VisibleItemsInOrder | src/components/layout/Layout.tsx:96 | the filter keeps the items' order |
| Layout.AdminSeesEverything | src/components/layout/Layout.tsx:96 | an admin sees every item |
| Layout.NonAdminNavigation | src/components/layout/Layout.tsx:36-66 | anyone else sees the dashboard and reports only |
| Layout.IsParentActive | src/components/layout/Layout.tsx:93-94 | a group is active iff a child's non-empty href is the current path |
| Layout.ReportsGroupActive | src/components/layout/Layout.tsx:92-94 | on a report page the reports group is active and administration is not |
| Layout.Toggle | src/components/layout/Layout.tsx:79-85 | a present name is removed; an absent one is appended |
| Layout.Without | src/components/layout/Layout.tsx:82 | the filter removes every copy of the name and keeps the rest |
| Layout.ToggleFlips | src/components/layout/Layout.tsx:79-85 | a toggle flips that name's membership and no other's |
| Layout.ToggleTwice | src/components/layout/Layout.tsx:79-85 | two toggles restore membership, and restore the list when the group started collapsed |
| Layout.WithoutAppended | src/components/layout/Layout.tsx:82-83 | removing a just-appended name restores the list |
| Layout.ToggleKeepsDistinct | src/components/layout/Layout.tsx:79-85 | names never repeat |
| Layout.WithoutKeepsDistinct | src/components/layout/Layout.tsx:82 | filtering keeps names distinct |
| Layout.Sidebar.constructor | src/components/layout/Layout.tsx:77 | both groups start expanded |
| Layout.Sidebar.ToggleExpanded | src/components/layout/Layout.tsx:79-85 | the expanded list becomes its toggle |
| Layout.Sidebar.HandleLogout | src/components/layout/Layout.tsx:87-90 | signs out, then goes to /login |
| LeaveBalance.CardRows | src/pages/reports/LeaveBalance.tsx:146-168 | the rows a card counts are exactly those passing its test |
| LeaveBalance.CardCount | src/pages/reports/LeaveBalance.tsx:146-168 | a count is at most the row count, and 0 iff no row passes |
| LeaveBalance.CardCountFull | src/pages/reports/LeaveBalance.tsx:146-168 | a count equals the row count iff every row passes |
| LeaveBalance.CardCountAppend | src/pages/reports/LeaveBalance.tsx:146-168 | counts add over concatenation |
| LeaveBalance.GoodStandingIsExclusive | src/pages/reports/LeaveBalance.tsx:146-168 | "OK" passes neither the low nor the critical test |
| LeaveBalance.GoodStandingCountsSeparately | src/pages/reports/LeaveBalance.tsx:146-168 | good standing plus low, and good standing plus critical, never exceed the rows |
| LeaveBalance.LowAndCriticalOverlap | src/pages/reports/LeaveBalance.tsx:157-168 | a status may count as both low and critical |
| LeaveBalance.StatusTestsAreCaseSensitive | src/pages/reports/LeaveBalance.tsx:146-157 | "ok" and "low" count in no card |
| LeaveBalance.RemainingColour | src/pages/reports/LeaveBalance.tsx:73-74 | destructive below 5, warning below 10, success otherwise |
| LeaveBalance.ColourMonotone | src/pages/reports/LeaveBalance.tsx:73-74 | more days remaining never makes the bar more severe |
| LeaveBalance.JoinFirsts | src/pages/reports/LeaveBalance.tsx:35 | at most one initial per name part |
| LeaveBalance.TwoWordInitials | src/pages/reports/LeaveBalance.tsx:35 | "First Last" gives its two initials |
| LeaveBalance.SearchSeesOnlyNames | src/pages/reports/LeaveBalance.tsx:179 | the search matches through name, department or position only |

## Left out

- Markup, styling, icons and toasts' visual form. The toast texts of the CRUD page are modelled; those of the sign-in and registration pages are not.
- The simulated network delay, and the waits before a result. The model does not show the intermediate `isSaving`/`isLoading` states that React renders while an `await` is pending. It states only the state before and after.
- `crypto.randomUUID` and `new Date()`. A fresh id and a timestamp are parameters of `Create` and `Update`. The random seed data of the data service is a constructor parameter.
- The report getters of the data service (`getActiveEmployees`, … `getLeaveBalance`). Each returns a copy of a constant seeded list, like `MockData.Table.GetAll`.
- `localStorage` is a map, and `JSON.stringify`/`JSON.parse` are opaque functions. A parse that yields anything other than a user record or null is not modelled.
- MOCK_USERS is an object literal, so a lookup can also hit inherited properties such as "constructor". `AuthService.Login` and `AuthService.ValidateSession` look up only the five accounts.
- `Text.Lower`: lower-cases ASCII letters only. The emails, statuses and search texts in question are ASCII.
- Strings are sequences of code points, while JS strings are sequences of UTF-16 code units. The two agree on text inside the Basic Multilingual Plane and differ outside it, in these members:
  - `Register.RegisterWizard.ValidateStep`: `password.length` counts code units; the model counts code points.
  - `DataTable.StrLess`, and with it `DataTable.LessOrder` and `DataTable.SortIsOrdered`: JS `<` compares code units, so a character outside the plane (a surrogate pair starting at 0xD800) sorts below U+E000–U+FFFF in JS but above them in the model.
  - `DataTable.JsSlice`, and with it `CrudPage.Singular` and `CrudPage.DateTimeDisplay`: `slice` counts code units, so it can cut a surrogate pair in half where the model keeps the whole character.
  - `LeaveBalance.JoinFirsts`: `n[0]` is the first code unit, half of a surrogate pair for a name starting outside the plane.
- `SortIsStable`: stated for columns of one kind that never hold both null and undefined. The comparator ranks null and undefined above each other both ways, and a string against a number both ways, so with such mixes the insertion sort can swap rows of equal value (`DataTable.MixedKindsReorder`: values 1, "x", 1 end as the second 1, "x", the first 1); `Array.prototype.sort` leaves the order implementation-defined then.
- `Register.StepError`: the birth year is passed in already parsed from `new Date(dateOfBirth)`, and the current year comes from the clock. Both are parameters.
- Numbers are integers. `parseFloat` is abstracted as "unparseable → 0". Fractional values and the bar-width percentages are not modelled.
- Sorting values of mixed kinds (a string against a number) is modelled as "not less". The ordering lemmas assume one kind per column.
- The `useAuth` error outside a provider, `apiClient.ts`, and the admin pages' `loadData` fan-out are not modelled.
- The registration form's `handleSubmit` never rejects, because the simulated call always resolves. Its `catch` branch is not modelled.
- The show/hide password toggles of the registration page are not modelled.
