# Candidate intake: registration, dashboard listing and detail lookup

This project models, in Dafny, the server-side logic of a small recruitment
intake application written in PHP, and proves properties of that model.

- **Registration form** (`candidate_registration.php`).
  - Normalises the posted fields: five are trimmed; gender is not; an `empty()` salary, `"0"` included, becomes NULL.
  - Runs nine field checks. Every check runs, and each failed one adds its message in a fixed order.
  - Looks the phone number up only when no field check failed.
  - Inserts the candidate only when the error list is still empty.
  - Also modelled: the client-side selector that offers the roles of the chosen job category.
- **Candidate dashboard** (`admin/candidate_dashboard.php`).
  - The admin role gate.
  - Page clamp and offset, the page count, and the "Showing a-b of n" line.
  - The page-link window and the Previous/Next buttons.
  - The filter builder. It turns six optional filters into condition fragments, bound values and a type string.
  - The WHERE clause, and the count and page statements.
  - The two quick actions, `update_status` and `delete_candidate`.
- **Detail fragment** (`admin/fetch_candidate_details.php`).
  - The same role gate.
  - The guard on the requested id, and the lookup by id.
  - The "Last Updated" condition.
  - The three quick-action buttons.

The database is an abstract store: `Store.CandidateStore` holds a map from
id to row and the auto-increment counter. The prepared statements that
change the table are the store's `Insert`, `SetStatus` and `Remove`. A
statement's failure to execute is a boolean parameter. The invariant "no
two rows share a phone number" is proved to survive registration, status
updates and deletion.

Modules:

- `Php`: the PHP built-ins the pages rely on:
  - `??`/`isset` as `Option`;
  - `trim`;
  - `empty` on strings;
  - `strlen`, which counts UTF-8 bytes;
  - `implode`;
  - integer-to-string conversion.
- `Store`: the `candidates` table.
- `Registration`, `Dashboard`, `Details`: the three pages.

Behaviour of the code worth noting:

- **Listing order.** The page query orders by `created_at DESC` only, with no tie-break on id.
- **`update_status`.** It writes only the `status` column. It reports success whenever the statement executes, whether or not a row matched.
- **Job category and role.** They are only required to be non-empty. They are not checked against the category list.
- **Duplicate phones.** Nothing catches a uniqueness violation raised by the database. Only the look-up before the insert guards against duplicates.
- **Very large page numbers.** `$start = ($page - 1) * $limit` is a 64-bit PHP integer. From page 461168601842738792 on, the product exceeds `PHP_INT_MAX` and becomes a float. The float is written into the page query in E notation (for example `9.2233720368548E+18`), which does not parse, so the page is never rendered. The model carries this as `Dashboard.PhpOffset` and the `PageQueryFails` outcome of `Dashboard.PrepareListing`.
- **Access.** The dashboard's role gate runs before the listing and before both quick actions. A session that is not an admin's is redirected and changes nothing.
- **Quick actions run after the listing.** The POST handler comes after the whole listing code, which reads the same `page` query parameter. A quick action posted to a URL whose page overflows the offset ends at the failed page query: no row changes and no JSON reply is sent (`Dashboard.Aborted`). The page's own buttons post without a query string, so only a hand-made request meets this.

## Model

| member | source | states |
|---|---|---|
| Php.Trim | candidate_registration.php:21 | `trim()` leaves no trim character (space, tab, LF, CR, NUL, VT) at either end and never lengthens its input |
| Php.TrimIsSlice | admin/candidate_dashboard.php:17-20 | what `trim()` keeps is the middle slice of its input; everything cut before and after it is a trim character |
| Php.TrimIdempotent | candidate_registration.php:21-27 | trimming a trimmed value changes nothing |
| Php.Utf8Length | candidate_registration.php:34 | `strlen` is at least the number of characters and at most four bytes per character |
| Php.ImplodeOccurrences | admin/candidate_dashboard.php:66 | joining parts with a separator free of `?` yields exactly the parts' `?` count |
| Php.Decimal | admin/candidate_dashboard.php:79 | an integer interpolated into SQL is a non-empty run of decimal digits |
| Store.NewCandidate | candidate_registration.php:84 | the inserted row has the generated id and the posted profile; the columns the INSERT leaves out hold their assumed defaults: status `active`, NULL experience range and equal creation and update times |
| Store.PhoneTakenAfterInsert | candidate_registration.php:72-87 | after an insert under an unused id, the phone look-up finds a phone iff it found it before or it is the new row's |
| Store.PhoneTakenAfterRemove | admin/candidate_dashboard.php:121-124 | in a table with distinct phones, after a row is deleted the look-up finds a phone iff it found it before and it was not that row's, so the phone can register again |
| Store.WithStatus | admin/candidate_dashboard.php:104 | `UPDATE ... SET status` keeps the set of ids, changes only the status of the matching row, and leaves every other row identical |
| Store.WithStatusKeepsPhonesDistinct | admin/candidate_dashboard.php:104-107 | a status update preserves "no two rows share a phone" |
| Store.InsertKeepsPhonesDistinct | candidate_registration.php:71-87 | inserting, under a fresh id, a row whose phone the look-up did not find preserves "no two rows share a phone" |
| Store.CandidateStore.Insert | candidate_registration.php:84-87 | the new row lands under the next auto-increment id, which was unused; the table grows by exactly that row |
| Store.CandidateStore.SetStatus | admin/candidate_dashboard.php:104-107 | the table becomes `WithStatus` of the old table; the id counter is untouched |
| Store.CandidateStore.Remove | admin/candidate_dashboard.php:121-124 | the table loses the row under the id (if any) and nothing else |
| Registration.NormalizeSpec | candidate_registration.php:21-29 | name, phone, city, category and role come out trimmed; gender, age and experience pass through; the salary is NULL exactly when missing or `empty` (so also for "0") |
| Registration.FailingSpec | candidate_registration.php:32-68 | running a list of checks keeps exactly the failed ones, in the list's order |
| Registration.FailingMembers | candidate_registration.php:32-68 | a message is kept exactly when its check is in the list and fails |
| Registration.FailingInOrder | candidate_registration.php:32-68 | checks run in rank order report their messages in rank order |
| Registration.FieldErrorsSpec | candidate_registration.php:32-68 | the field errors are exactly the failed checks among the nine, each once, in the order name, age, phone, gender, city, category, role, experience, salary |
| Registration.FieldErrorsHas | candidate_registration.php:32-68 | a given message is present exactly when its check fails |
| Registration.FieldErrorsUnfold | candidate_registration.php:34-68 | the field errors are the nine checks' contributions concatenated in source order |
| Registration.CheckFields | candidate_registration.php:32-68 | the nine `if` blocks, none stopping the others, produce exactly the field errors |
| Registration.ValidationErrorsSpec | candidate_registration.php:70-80 | the final list is empty iff every field check passes and the phone is new; "already registered" appears iff the field checks pass and the phone is taken, and then it is the sole error; the list stays in the fixed order |
| Registration.NoErrorsMeansNewPhone | candidate_registration.php:70-83 | an empty final list implies no field error and an unregistered phone |
| Registration.Validate | candidate_registration.php:32-80 | the validation block computes exactly the final error list |
| Registration.Register | candidate_registration.php:19-96 | a row is inserted iff the error list is empty and the INSERT runs, and then the table gains exactly that row; otherwise the table is unchanged and the message is the errors joined with `<br>` or the failure text; phones stay pairwise distinct |
| Registration.PhoneAcceptedIff | candidate_registration.php:42 | for a trimmed phone the pattern check passes iff it is ten digits starting with 6-9 (PCRE's `$` before a final line feed cannot matter) |
| Registration.NameAndCityAcceptedIff | candidate_registration.php:34-52 | name and city pass iff their byte length is at least 2 |
| Registration.OneCharacterNameAccepted | candidate_registration.php:34 | every one-character name whose character is outside ASCII (such as "é") passes the two-character minimum, since `strlen` counts bytes |
| Registration.ZeroSalaryBecomesNull | candidate_registration.php:29 | a salary posted as "0" is stored as NULL and never triggers the negative-salary message |
| Registration.ZeroCategoryRejected | candidate_registration.php:54-60 | a category posted as "0" raises the missing-category message, and a role posted as "0" the missing-role message, each whatever the other field holds |
| Registration.UnlistedGenderRejected | candidate_registration.php:46 | every gender outside Male/Female/Other fails its check |
| Registration.PaddedGenderRejected | candidate_registration.php:24 | gender is not trimmed, so a posted " Male" is rejected |
| Registration.FieldChecksAreRules | candidate_registration.php:34-68 | with a trimmed phone, passing all nine checks is the same as meeting the stated rules (byte lengths, 16-80, mobile number, gender list, non-empty category and role, 0-50 years, salary NULL or non-negative) |
| Registration.FieldErrorsEmptyIff | candidate_registration.php:32-68 | no field errors iff no field check fails |
| Registration.ProfileAcceptedIff | candidate_registration.php:32-80 | with a trimmed phone, the final list is empty iff the rules are met and the phone is new |
| Registration.AcceptedIff | candidate_registration.php:21-83 | a submission is accepted iff its normalised fields meet the rules and its phone is new |
| Registration.ResubmissionRejected | candidate_registration.php:70-87 | after an accepted form is inserted, the same form again gets only "already registered" |
| Registration.FindCategory | candidate_registration.php:496 | `find` returns the first category with exactly that name, or nothing when none has it |
| Registration.RoleMenuFor | candidate_registration.php:488-508 | an empty selection asks for a category; otherwise the menu offers exactly the roles of the first matching category, or none |
| Dashboard.ClampPage | admin/candidate_dashboard.php:13 | the page lies between 1 and `PHP_INT_MAX`; it is 1 without a page parameter, the requested page raised to 1 otherwise, and `PHP_INT_MAX` when `(int)` saturates a larger number |
| Dashboard.OffsetSpec | admin/candidate_dashboard.php:14 | the exact offset is a whole number of pages, one fewer than the page number, and grows by 20 per page; PHP's `$start` equals it exactly up to page `MaxFittingPage` (461168601842738791) and is a float (no integer offset) for every later page |
| Dashboard.TotalPagesSpec | admin/candidate_dashboard.php:76 | (pages-1)*20 < total <= pages*20, and there are 0 pages exactly when there are 0 rows |
| Dashboard.PageSize | admin/candidate_dashboard.php:79 | `LIMIT start, 20` returns at most 20 rows, and none exactly when the offset is at or past the total |
| Dashboard.ShowingFor | admin/candidate_dashboard.php:598 | the displayed range never exceeds the total and is not reversed |
| Dashboard.ShowingCountsPage | admin/candidate_dashboard.php:598 | on a page with rows, the range starts after the offset and counts exactly the rows the page query returns |
| Dashboard.PagePastEndIsEmpty | admin/candidate_dashboard.php:598 | a page past the last has no rows and its line reads "total-total of total", including for PHP's own offset while that is an integer; later pages fail at the page query (see `Dashboard.PrepareListing`) |
| Dashboard.ExistingPageIsNotEmpty | admin/candidate_dashboard.php:76-79 | every page from 1 to the page count returns at least one row |
| Dashboard.Span | admin/candidate_dashboard.php:687 | the numbers from lo to hi counting up by one, none when lo > hi |
| Dashboard.PageLinks | admin/candidate_dashboard.php:687-691 | the `for` loop writes exactly the links of the window [max(1,page-2), min(pages,page+2)] |
| Dashboard.LinkWindowSpec | admin/candidate_dashboard.php:687-691 | every link is within [1, pages], there are at most five, they are consecutive, and the current page is among them iff it exists |
| Dashboard.PagerSpec | admin/candidate_dashboard.php:680-694 | the bar appears iff there is more than one page; Previous is disabled iff on page 1; Next is disabled iff no rows follow the current page; an enabled Previous leads to a page >= 1 |
| Dashboard.ActiveMembers | admin/candidate_dashboard.php:29-64 | a filter is in effect iff its value is not `empty()` ("" or "0") |
| Dashboard.ActiveInOrder | admin/candidate_dashboard.php:29-64 | the filters in effect keep the order in which the blocks examine them |
| Dashboard.CriteriaSpec | admin/candidate_dashboard.php:17-64 | for a request, each trimmed non-empty filter contributes one criterion, empty ones and "0" none, at most six, in the order search, category, experience, status, from-date, to-date |
| Dashboard.ParamsSpec | admin/candidate_dashboard.php:29-64 | the type string is as long as the value list and every letter is `s` |
| Dashboard.PlaceholdersOfOne | admin/candidate_dashboard.php:29-63 | each condition fragment holds one `?` per value it binds: two for search (both `%term%`), one for the others |
| Dashboard.PlaceholdersOfAll | admin/candidate_dashboard.php:25-64 | across the conditions in effect, the `?` count equals the number of bound values |
| Dashboard.AddFilter | admin/candidate_dashboard.php:36-40 | one `if (!empty(...))` block appends the filter's condition, values and type letters, or changes nothing for an `empty()` value |
| Dashboard.BuildFilter | admin/candidate_dashboard.php:25-64 | the six blocks produce exactly the conditions, values and type string of the filters in effect, in order |
| Dashboard.WhereClauseSpec | admin/candidate_dashboard.php:66 | the WHERE clause is empty iff no filter is in effect, and holds one `?` per bound value |
| Dashboard.CountSqlHoles | admin/candidate_dashboard.php:69 | the count query adds no `?` to the WHERE clause |
| Dashboard.PageSqlHoles | admin/candidate_dashboard.php:79 | the page query adds no `?` to the WHERE clause; its offset and limit are digits |
| Dashboard.CountStatementSpec | admin/candidate_dashboard.php:69-73 | the count statement has as many `?` as values and type letters, all `s` |
| Dashboard.PageStatementSpec | admin/candidate_dashboard.php:69-83 | the page statement binds the same values and types as the count statement and is equally well bound |
| Dashboard.ListFiltered | admin/candidate_dashboard.php:25-84 | for a page and six filter values: the count statement of the filters in effect, and either the page statement from the page's offset or, when that offset is no longer an integer, the failure of the page query |
| Dashboard.PrepareListing | admin/candidate_dashboard.php:6-84 | a session that is not an admin's is sent home, and nothing else is; an admin gets the count and page statements of the request's filters in effect and its clamped page's offset, or the page-query failure when that offset overflows |
| Dashboard.Matching | admin/candidate_dashboard.php:66-79 | the matched rows are rows of the table, and with no filter in effect every row matches; `=` and `LIKE` are the database's collation-dependent comparisons, given as parameters |
| Dashboard.ExperienceFilterHidesRegistered | admin/candidate_dashboard.php:42-46 | with an experience filter in effect, only rows whose experience range is set match (NULL equals nothing under any collation), so none inserted by the registration form, given the assumed NULL default |
| Dashboard.UpdateStatus | admin/candidate_dashboard.php:6-116 | a session that is not an admin's is redirected and the table is unchanged; for an admin whose `page` parameter overflows the offset, the request ends at the page query with no reply and the table unchanged; otherwise a status outside active/archived/contacted gets "Invalid status" and leaves the table unchanged; otherwise only that row's status changes, reported as success unless the statement fails; phones stay distinct |
| Dashboard.DeleteCandidate | admin/candidate_dashboard.php:6-130 | a session that is not an admin's is redirected and the table is unchanged; for an admin whose `page` parameter overflows the offset, the request ends at the page query with no reply and the table unchanged; otherwise the row under the id is removed and success is reported whenever the statement runs, even if no row matched; on failure nothing changes |
| Details.FetchDetails | admin/fetch_candidate_details.php:6-29 | 403 iff the role is neither admin nor super_admin; "Invalid candidate ID" iff allowed and the id (0 when missing) is <= 0; "Candidate not found" iff a positive id has no row; otherwise exactly the stored row, with "Last Updated" iff its update time differs from its creation time |
| Details.InvalidIdIgnoresStore | admin/fetch_candidate_details.php:11-16 | an id <= 0 is answered without looking at the table |
| Details.MissingIdRefused | admin/fetch_candidate_details.php:11-16 | a request without an id gets "Invalid candidate ID" |
| Details.ShownIsRequested | admin/fetch_candidate_details.php:19-29 | in a table whose rows sit under their own ids, the row shown has the requested id |
| Details.FetchAfterDelete | admin/fetch_candidate_details.php:19-27 | after the dashboard deletes a row, its details are "Candidate not found" |
| Details.FetchOtherAfterDelete | admin/fetch_candidate_details.php:19-29 | deleting one row does not change the details of any other request |
| Details.FetchAfterUpdate | admin/fetch_candidate_details.php:19-29 | after a status update, the details show the new status and otherwise the same row |
| Details.FreshRowNotUpdated | admin/fetch_candidate_details.php:109 | a row just inserted by registration, with both timestamps at their assumed default, shows no "Last Updated" line |
| Details.QuickActionsMatchWhitelist | admin/fetch_candidate_details.php:125-133 | the three buttons offer exactly the statuses `update_status` accepts |
| Details.QuickAction | admin/fetch_candidate_details.php:125-133 | under a session that is not an admin's the action is redirected and changes nothing; for an admin it posts no page parameter, so the listing code never stops it, and it is never refused as invalid, and it sets that status when the statement runs and changes nothing otherwise |

## Left out

- Database access (`prepare`, `bind_param`, `execute`, `get_result`). The table is an abstract map, and whether a statement executes is a boolean parameter.
- Dashboard.Passes: the filters' `=` and `LIKE` comparisons, under the columns' collation (which may ignore case and trailing spaces), `DATE(created_at)` and date comparison are uninterpreted functions in `Dashboard.SqlSemantics`. The model states nothing about which strings a collation equates.
- Store.PhoneTaken: the duplicate-phone look-up compares with exact equality. The look-up only runs for a phone that passed the pattern check, which is ten digits, and collations compare digits exactly.
- `ORDER BY created_at DESC` and the `LIMIT` window. `Dashboard.Matching` gives the set of matched rows, not their order or the page's slice.
- The `candidate_stats` view and the `SELECT DISTINCT job_category` query. They depend on database definitions that are not part of this model.
- Reading and decoding `job_roles.json`. The category list is an input.
- `intval`, `floatval` and `(int)` parsing of request text. Ages, ids and page numbers are integers. Experience and salary are reals, because only comparisons are used; floating-point rounding is not modelled.
- The JavaScript date shortcut buttons. They rely on browser dates, local time against UTC, and day-of-week arithmetic.
- The jQuery handlers that post the quick actions. They are client-side plumbing; the quick actions themselves are modelled as calls to the dashboard's handlers.
- HTML rendering, `htmlspecialchars`, `number_format`, `date()` formatting, export, and session and authentication setup. Only the role predicate is kept.
- The redirect's target, `../index.php`, is not modelled. The dashboard's answers say only that the session was redirected (`Dashboard.Redirect`, `Dashboard.SentHome`), while the detail fragment answers 403.
- Re-population of the form fields after a submission.
- Posted text that is not valid UTF-8. Strings are sequences of Unicode characters, so such input cannot be represented. PHP's `strlen`, `trim` and `preg_match` work on raw bytes and would accept it.
- Dashboard.TotalPagesSpec: `ceil($total_records / $limit)` divides in floating point. The model's exact integer result matches it for every count below 2^53.
- Dashboard.PagerSpec, Dashboard.ShowingCountsPage: stated for the exact offset. For pages past `Dashboard.MaxFittingPage` the page query fails first, so the page is never rendered.
- A failure of the duplicate-phone look-up statement.
- Concurrency between requests, including the race between the phone look-up and the insert. The model is sequential.
- POST requests with an action other than the two quick actions. They fall through to rendering the page.
- Store.NewCandidate: the table definition is not part of this model. The row assumes three column defaults: status `active`, `experience_range` NULL, and `updated_at` equal to `created_at` at insertion. `Dashboard.ExperienceFilterHidesRegistered` (for rows inserted by the form) and `Details.FreshRowNotUpdated` rest on them. A default of `''` for `experience_range`, or an `updated_at` that starts NULL, would change both.
- Dashboard.UpdateStatus, Dashboard.DeleteCandidate: the listing code before the handler is assumed to complete except for the page-query failure, which is modelled (`Dashboard.Aborted`). A failure of the count query, of the `candidate_stats` query or of the category query would also end the request before the handler; those depend on database definitions that are not part of this model.
- Store.CandidateStore.SetStatus: writes only the `status` column, as the UPDATE statement does. Whether the table also moves `updated_at` depends on a schema that is not part of this model. So `Details.FetchAfterUpdate` states that "Last Updated" is as before, not that it appears.
- Dashboard.PageLinks: the `active` highlight of the current link is not modelled separately. `Dashboard.LinkWindowSpec` states when the current page is among the links.
