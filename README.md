# Email archive data-access layer, in Dafny

This project models the email data-access module of a small mail-archive server
(`server/dao/email.js`). The module has two parts:

- two SQL fragment builders. `buildWhereClause` turns a filter record (sender, recipient,
  a creation-time range, a tag list) into a `WHERE` fragment. `buildHavingClause` turns
  the tag list's length into a `HAVING count(tags.id) = n` fragment;
- the repository operations over two SQLite tables, `emails` and the polymorphic `tags`
  table. These are `getAll` (a filtered, paginated, newest-first listing plus a total),
  `getOne`, `create`, `insertTags`, `getTagsOfEmail`, `getTags` and the two address
  suggestion queries `getFromAddresses` and `getToAddresses`.

The two tables are sequences of rows. The id counters stand in for SQLite's row ids. The
SQL statements are spelled out as functions:

- the `LEFT JOIN` of an email with its `'Email'` tag rows;
- `WHERE` evaluated on each joined row;
- `GROUP BY emails.id`, where an email is listed when at least one of its rows survives;
- `HAVING count(tags.id) = n`, which counts surviving non-null tag rows;
- `ORDER BY createdAt desc`;
- SQLite's `LIMIT`/`OFFSET`, where a negative limit means no limit and a negative offset means 0.

JavaScript truthiness is modelled exactly. An empty string filter field counts as absent.
A `createdAtFrom`/`createdAtTo` of 0 counts as absent. A tag array always counts as present,
even when it is empty.

Modules:

- `Wrappers`: `Option`.
- `Seqs`: duplicate-free sequences, counting, taking a prefix, removing duplicates.
- `Text`: joining, decimal numerals, substring search.
- `Schema`: the rows, the hydrated email, the payload, the errors.
- `Clauses`: the two fragment builders, what their conditions mean, and the IN-list round trip.
- `TagRepository`: the tag queries and inserts.
- `Listing`: the listing query, its count and its pagination.
- `Suggestions`: the address suggestions.
- `EmailDao`: the `EmailStore` class whose methods are the transactional operations.

## Model

| member | source | states |
|---|---|---|
| Clauses.BuildWhereClause | server/dao/email.js:95-114 | the clause renders exactly the conditions of the present fields, in order, as "WHERE " plus the conditions joined by " AND "; it is "" exactly when no field is present or truthy |
| Clauses.PushIf | server/dao/email.js:97-112 | each guarded push appends the current field's condition text exactly when that field is truthy, so the list always holds the conditions of the fields handled so far |
| Clauses.Conditions | server/dao/email.js:95-112 | one condition per present field and none for an absent or falsy field; conditions are in the order fromAddress, toAddress, createdAtFrom, createdAtTo, tags; each condition carries its field's value; the list is empty exactly when no field is present |
| Clauses.Render | server/dao/email.js:98-111 | the SQL text each condition contributes: the scalar conditions compare a column with its bound parameter, the tag condition is `tags.name in (` the interpolated list `)` |
| Clauses.Holds | server/dao/email.js:98-111 | what each condition means on one joined row: the column comparison, and for the tag condition a non-NULL tag name that is in the list |
| Clauses.TagList | server/dao/email.js:110 | the IN list: every name in single quotes, as it is, separated by commas; read back by Clauses.TagListRoundTrip |
| Clauses.RenderAllSnoc | server/dao/email.js:98-111 | rendering a condition list extended by one condition extends its texts by that condition's text |
| Clauses.ConditionsMeaning | server/dao/email.js:97-111 | the WHERE conditions hold on a joined row exactly when the email matches the sender, recipient and time bounds and, under a tag filter, the row carries a tag whose name is listed |
| Clauses.HavingClause | server/dao/email.js:116-121 | "" exactly when there is no tag list; otherwise "HAVING count(tags.id) = " followed by a numeral that reads back as the list's length |
| Text.NatToString | server/dao/email.js:118 | the numeral of a length is a non-empty string of digits with no leading zero |
| Text.ParseNatToString | server/dao/email.js:118 | reading back the numeral of n gives n |
| Clauses.TagListRoundTrip | server/dao/email.js:110 | for names without a quote, the interpolated IN list reads back as exactly the requested names, in order |
| Clauses.QuoteInNameIsAmbiguous | server/dao/email.js:110 | names are interpolated as they are: the one name `a','b` gives the same IN list as the two names `a` and `b` |
| TagRepository.TagsOfEmail | server/dao/email.js:85-87 | the names of the tags of an email are exactly the names of the rows with targetType 'Email' and that targetId, one entry per row |
| TagRepository.TagsOfEmailAppend | server/dao/email.js:85-87 | looking tags up over appended rows gives the lookup in the old rows followed by the lookup in the new rows |
| TagRepository.UntargetedIdHasNoTags | server/dao/email.js:85-87 | an id that no 'Email' tag row targets has no tags |
| TagRepository.NewTagRows | server/dao/email.js:89-93 | insertTags adds one row per name, in order, with targetType 'Email', the email's id and consecutive tag ids |
| TagRepository.TagsOfNewRows | server/dao/email.js:85-93 | the rows inserted for an email give back exactly the inserted names, duplicates and order kept, and nothing for any other email |
| TagRepository.EmailTagNames | server/dao/email.js:44 | a name is listed exactly when some tag row with targetType 'Email' has that name |
| TagRepository.GetTags | server/dao/email.js:81-83 | the result has no duplicates, and a name is listed exactly when some tag row with targetType 'Email' has that name |
| Listing.Offset | server/dao/email.js:49-52 | the offset is `from - 1` rows, `from` defaulting to 1 |
| Listing.Limit | server/dao/email.js:49-52 | the limit is `size`, defaulting to 10 |
| Listing.JoinedRowsOf | server/dao/email.js:6 | the left join gives an email at least one joined row, each carrying that email: one per attached tag row, or one with NULL tag columns |
| Listing.Where | server/dao/email.js:7 | a joined row survives WHERE exactly when every condition holds on it; never more rows than before |
| Listing.CountTagIds | server/dao/email.js:118 | `count(tags.id)` is at most the number of rows of the group, and 0 exactly when every row of the group has NULL tag columns |
| Listing.GroupSelected | server/dao/email.js:3-9 | an email is listed when its group is non-empty after WHERE and, under a HAVING clause, its count of tag ids equals the requested number |
| Listing.GroupTestIsSelected | server/dao/email.js:3-9 | the SQL test of a group agrees with the field-by-field reading of the filter on every email |
| Listing.GroupSelectedIffSelected | server/dao/email.js:3-9 | an email's group survives WHERE and HAVING exactly when it matches the scalar fields and, under a tag list, the number of its tag rows named in the list is at least one and equals the list's length |
| Listing.CountNamedInRows | server/dao/email.js:116-118 | the count of an email's joined rows whose tag name is listed equals the count over the email's own tag names |
| Listing.FilterRows | server/dao/email.js:8-9 | keeping the groups that pass: a row is kept exactly when it is stored and accepted, and never more rows than stored |
| Listing.Matching | server/dao/email.js:13-21 | the matching emails are exactly the stored emails that are Selected; there are no more of them than emails |
| Listing.MatchingCounts | server/dao/email.js:13-21 | a selected stored email is counted as often as it is stored, an email not selected not at all |
| Listing.Total | server/dao/email.js:13-22 | the total is the number of groups that pass WHERE and HAVING, computed without LIMIT or OFFSET |
| Listing.NoFieldsMatchAll | server/dao/email.js:3-9 | with no filter field present or truthy (each missing, "" or 0), every email matches, in storage order, and the total is the number of emails |
| Listing.EmptyTagListMatchesNothing | server/dao/email.js:109-111 | an empty tag array is still present; `tags.name in ()` holds for no row, so nothing matches and the total is 0 |
| Listing.AllRequestedTagsRequired | server/dao/email.js:109-118 | with a non-empty duplicate-free list and an email without duplicate tag rows, the tag filter holds exactly when the email has every listed tag |
| Listing.TwoTagsExample | server/dao/email.js:109-118 | an email tagged A and B passes [A] and [A, B] and fails [A, B, C] |
| Listing.DuplicateTagRowsPassLargerFilter | server/dao/email.js:118 | HAVING counts tag rows, not distinct names: an email with two rows named A passes [A, B] although it has no tag B |
| Listing.OrderByCreatedAtDesc | server/dao/email.js:10 | the rows are rearranged, as a permutation, so that createdAt never increases |
| Listing.Window | server/dao/email.js:11 | LIMIT/OFFSET give the run of rows starting at the offset (a negative offset counts as 0), of length min(limit, rows left), or every row left when the limit is negative |
| Listing.OrderedSelection | server/dao/email.js:10 | a row order ORDER BY may return: newest first, and each matching email exactly as often as it is stored; the order of equal `createdAt` is not fixed |
| Listing.TieOrderIsOpen | server/dao/email.js:10 | two emails with the same `createdAt` may be listed in either order: both orders are OrderedSelections |
| Listing.SortedUnique | server/dao/email.js:10 | without ties, two newest-first orders of the same rows are equal |
| Listing.SameOrderWithoutTies | server/dao/email.js:10 | two newest-first orders of the matching rows agree when no two of them share a `createdAt` |
| Listing.PageWithinTotal | server/dao/email.js:49-53 | for any OrderedSelection, the page is never longer than the total; with from >= 1 and size >= 0 it holds min(size, total - (from - 1)) rows, or none when from - 1 reaches the total |
| Listing.PageIsOrderedSelection | server/dao/email.js:3-11 | for any OrderedSelection, every row on a page is a stored email that matches the filter, and the page is ordered newest first |
| Listing.NextPageShiftsByOneRow | server/dao/email.js:52 | the offset is from - 1 rows: for two requests with the same filters and size whose offsets differ by one, and matching emails without equal `createdAt`, the later page is the earlier one shifted by one row, not by one page, whichever OrderedSelection each statement returns |
| Listing.ShiftWithoutTies | server/dao/email.js:10-11 | two newest-first orders of the same rows without ties, windowed at consecutive offsets, give pages shifted by one row |
| Listing.WindowShift | server/dao/email.js:11 | moving OFFSET on by one row moves the LIMIT window on by one row |
| Suggestions.LikeText | server/dao/email.js:74 | the text between the `%` wildcards: the filter, or "undefined" when it is missing |
| Suggestions.Suggest | server/dao/email.js:27-42 | at most 10 values, without duplicates, each a stored value containing the filter text; fewer than 10 means every such value is listed |
| Suggestions.FromAddresses | server/dao/email.js:73-75 | at most 10 distinct sender addresses of stored emails, each containing the filter text (the text "undefined" when the filter is missing); fewer than 10 means every such address is listed |
| Suggestions.ToAddresses | server/dao/email.js:77-79 | at most 10 distinct recipient addresses of stored emails, each containing the filter text; fewer than 10 means every such address is listed |
| Suggestions.EmptyFilterSuggestsFromAll | server/dao/email.js:73-75 | an empty filter text is in every address, so a short result lists every sender address |
| EmailDao.FindEmail | server/dao/email.js:61-62 | a row is found exactly when some row has the id, and the row found has that id |
| EmailDao.FindEmailAppend | server/dao/email.js:67-70 | after an insert, a lookup finds the new row only for its own id and only when no earlier row has that id |
| EmailDao.NewEmailRow | server/dao/email.js:24-25 | the inserted row carries the given id, the payload's columns and the storage timestamp |
| EmailDao.InsertEmailKeepsInvariant | server/dao/email.js:68 | inserting a row under the next email id keeps ids increasing and every 'Email' tag pointing at an id already handed out |
| EmailDao.NewEmailReadsBack | server/dao/email.js:67-71 | after the insert and its tag rows, the new id reads back as the new row with exactly the inserted names |
| EmailDao.OtherEmailsUnchanged | server/dao/email.js:67-71 | after the insert and its tag rows, every other id reads back the same row and the same tags as before |
| EmailDao.EmailStore.GetAll | server/dao/email.js:49-59 | a tag name holding a quote is refused exactly then; otherwise the total is the number of all matching emails whatever from and size are, and the page is the LIMIT/OFFSET window of some OrderedSelection (newest first, tie order not fixed), each row with its own tags in page order |
| EmailDao.EmailStore.AttachTags | server/dao/email.js:55-57 | each row of the page gets its own tags, in page order |
| EmailDao.EmailStore.GetOne | server/dao/email.js:61-65 | succeeds exactly when some row has the id, returning that row with its tags; otherwise it fails with NotFound(id) |
| EmailDao.EmailStore.InsertTags | server/dao/email.js:89-93 | appends exactly the new tag rows, one per name in order with consecutive ids; the emails do not change; the invariant is kept for an id already handed out |
| EmailDao.EmailStore.Create | server/dao/email.js:67-71 | appends one row with the next id and the payload's fields, then the payload's tags (none when left out); returns what getOne reads back, which carries exactly those tags; the email counter moves on by one and the tag counter by the number of tags; every other id reads back as before; the invariant is kept |

## Left out

- The `./db` module is not part of this model: better-sqlite3, prepared statements and `db.transaction`. Each operation is one atomic update of the store. Rollback and storage errors are not modelled.
- `server/routes/api.js` is not part of this model. It only wires HTTP routes to these operations.
- EmailDao.EmailStore.GetAll: a tag filter name holding a single quote is answered with `Err(QuotedTagName)`. Such a name is interpolated into the SQL text as it is, and the statement then no longer means "the name is in the list". It may fail to parse or select something else, and SQL semantics for that text are not modelled. `Clauses.QuoteInNameIsAmbiguous` shows the ambiguity. No injection-safety property is claimed.
- EmailDao.EmailStore.GetAll: values are typed. `from` and `size` are integers, and JavaScript coercion of strings or other values is not modelled.
- EmailDao.EmailStore.GetAll: the order among emails with equal `createdAt` is not fixed. The page is promised to be the window of some OrderedSelection, and `Listing.TieOrderIsOpen` shows that either order of a tie is one. The body picks the order of `Listing.OrderByCreatedAtDesc`, an insertion sort, as one such order.
- Listing.NextPageShiftsByOneRow: stated only when no two matching emails share a `createdAt`. With ties, the two statements may order the tied rows differently, and the later page need not be the earlier one shifted.
- Suggestions.FromAddresses: SQL `LIKE` is modelled as case-sensitive substring search. SQLite's case folding of ASCII letters, and `%`/`_` inside the filter acting as wildcards, are not modelled.
- Suggestions.ToAddresses: the same `LIKE` simplification as for FromAddresses.
- Suggestions.Suggest: nothing is claimed about the order of the suggestions. `GROUP BY` picks an arbitrary row's `createdAt` for `ORDER BY createdAt desc`, so the model lists distinct values in storage order before taking 10.
- EmailDao.EmailStore.Create: `createdAt` is a parameter. The storage layer's clock is not modelled. Ids come from counters that are never reused, because no delete exists in this module.

## Behaviour of the code worth knowing

The model follows the code in each of these:

- paging skips `from - 1` rows: raising `from` by one moves the page by one row;
- `from` and `size` are passed to the statement as they are, without validation;
- the tag names are interpolated into the statement as quoted literals;
- `HAVING` counts tag rows, so an email with two rows of one name passes a larger tag list;
- a missing suggestion filter becomes the text "undefined" inside the `LIKE` pattern;
- `getOne` on a missing id throws when it sets `tags`; here it is `Err(NotFound(id))`.
