/**
  The listing query of `getAll` in server/dao/email.js, read as the SQL engine
  evaluates it: the left join of each email with its 'Email' tag rows, the WHERE
  conditions per joined row, one group per email, the HAVING count of tag ids,
  newest first, then the limit and the offset; and the total count of the same groups.
 */
module Listing {
  import opened Wrappers
  import opened Seqs
  import opened Schema
  import opened Clauses
  import opened TagRepository

  const DefaultFrom: int := 1
  const DefaultSize: int := 10

  /** The argument of `getAll`: `from` and `size` split off, the rest are the filters. */
  datatype ListRequest = ListRequest(from: Option<int>, size: Option<int>, filters: Filters)

  /** `limit: size`, with `size` defaulting to 10. */
  function Limit(req: ListRequest): int {
    req.size.GetOr(DefaultSize)
  }

  /** `offset: from - 1`, with `from` defaulting to 1: an offset in rows, not in pages. */
  function Offset(req: ListRequest): int {
    req.from.GetOr(DefaultFrom) - 1
  }

  /** The joined rows of one email with each of its tag rows. */
  function WithTag(e: EmailRow, ts: seq<TagRow>): (r: seq<JoinedRow>)
    ensures |r| == |ts|
    ensures forall row :: row in r ==> row.email == e && row.tag.Some?
    decreases |ts|
  {
    if ts == [] then [] else [JoinedRow(e, Some(ts[0]))] + WithTag(e, ts[1..])
  }

  /**
    The rows the left join of an email with its tag rows (type 'Email', target the
    email's id) yields: one per attached tag row, or a single row with NULL tag columns.
   */
  function JoinedRowsOf(e: EmailRow, tags: seq<TagRow>): (r: seq<JoinedRow>)
    ensures |r| >= 1
    ensures forall row :: row in r ==> row.email == e
  {
    var attached := RowsOfEmail(tags, e.id);
    if attached == [] then [JoinedRow(e, None)] else WithTag(e, attached)
  }

  /** The joined rows that pass the WHERE clause. */
  function Where(rows: seq<JoinedRow>, conds: seq<Condition>): (r: seq<JoinedRow>)
    ensures |r| <= |rows|
    ensures forall row :: row in r <==> row in rows && AllHold(conds, row)
    decreases |rows|
  {
    if rows == [] then []
    else
      assert forall row :: row in rows <==> row == rows[0] || row in rows[1..];
      (if AllHold(conds, rows[0]) then [rows[0]] else []) + Where(rows[1..], conds)
  }

  /** `count(tags.id)`: the rows of a group whose tag columns are not NULL. */
  function CountTagIds(rows: seq<JoinedRow>): (r: nat)
    ensures r <= |rows|
    ensures r == 0 <==> forall row :: row in rows ==> row.tag.None?
    decreases |rows|
  {
    if rows == [] then 0 else (if rows[0].tag.Some? then 1 else 0) + CountTagIds(rows[1..])
  }

  /** The email's group exists after WHERE and passes HAVING. */
  predicate GroupSelected(e: EmailRow, tags: seq<TagRow>, conds: seq<Condition>, having: Option<nat>) {
    var group := Where(JoinedRowsOf(e, tags), conds);
    |group| > 0 && (having.None? || CountTagIds(group) == having.value)
  }

  /**
    The filter read field by field: the scalar fields match and, under a tag list,
    the email's tag rows whose name is listed number at least one and exactly as
    many as the list has entries.
   */
  predicate Selected(f: Filters, e: EmailRow, tags: seq<TagRow>) {
    && EmailFieldsMatch(f, e)
    && (f.tags.Some? ==>
          var k := CountIn(TagsOfEmail(tags, e.id), f.tags.value);
          k >= 1 && k == |f.tags.value|)
  }

  /** Tag rows whose name is in `names`. */
  function CountNamedIn(ts: seq<TagRow>, names: seq<string>): nat
    decreases |ts|
  {
    if ts == [] then 0 else (if ts[0].name in names then 1 else 0) + CountNamedIn(ts[1..], names)
  }

  lemma {:induction false} CountNamedInRows(tags: seq<TagRow>, emailId: int, names: seq<string>)
    ensures CountNamedIn(RowsOfEmail(tags, emailId), names) == CountIn(TagsOfEmail(tags, emailId), names)
    decreases |tags|
  {
    if tags != [] {
      CountNamedInRows(tags[1..], emailId, names);
      var rows, rest := RowsOfEmail(tags, emailId), RowsOfEmail(tags[1..], emailId);
      var ns, nrest := TagsOfEmail(tags, emailId), TagsOfEmail(tags[1..], emailId);
      if IsTagOfEmail(tags[0], emailId) {
        assert rows == [tags[0]] + rest && rows[1..] == rest;
        assert ns == [tags[0].name] + nrest && ns[1..] == nrest;
      } else {
        assert rows == rest && ns == nrest;
      }
    }
  }

  lemma {:induction false} WhereUniform(rows: seq<JoinedRow>, conds: seq<Condition>, b: bool)
    requires forall row :: row in rows ==> AllHold(conds, row) == b
    ensures Where(rows, conds) == if b then rows else []
    decreases |rows|
  {
    if rows != [] {
      WhereUniform(rows[1..], conds, b);
      if b {
        assert rows == [rows[0]] + rows[1..];
      }
    }
  }

  /** Under a tag filter, the surviving rows of a tagged email are its rows with a listed name; each has a tag id. */
  lemma {:induction false} WhereOverTaggedRows(e: EmailRow, ts: seq<TagRow>, f: Filters)
    requires f.tags.Some?
    ensures var g := Where(WithTag(e, ts), Conditions(f));
      && CountTagIds(g) == |g|
      && |g| == if EmailFieldsMatch(f, e) then CountNamedIn(ts, f.tags.value) else 0
    decreases |ts|
  {
    if ts != [] {
      var row := JoinedRow(e, Some(ts[0]));
      var rows := WithTag(e, ts);
      assert rows[0] == row && rows[1..] == WithTag(e, ts[1..]);
      ConditionsMeaning(f, row);
      WhereOverTaggedRows(e, ts[1..], f);
      var g, rest := Where(rows, Conditions(f)), Where(rows[1..], Conditions(f));
      if AllHold(Conditions(f), row) {
        assert g == [row] + rest && g[1..] == rest;
      } else {
        assert g == rest;
      }
    }
  }

  /**
    The SQL reading and the field-by-field reading agree: an email's group survives
    WHERE and HAVING exactly when the email is Selected.
   */
  lemma GroupSelectedIffSelected(e: EmailRow, tags: seq<TagRow>, f: Filters)
    ensures GroupSelected(e, tags, Conditions(f), HavingCount(f)) <==> Selected(f, e, tags)
  {
    var joined := JoinedRowsOf(e, tags);
    var attached := RowsOfEmail(tags, e.id);
    forall row | row in joined
      ensures AllHold(Conditions(f), row) <==>
        EmailFieldsMatch(f, e) && (f.tags.Some? ==> row.tag.Some? && row.tag.value.name in f.tags.value)
    {
      ConditionsMeaning(f, row);
    }
    CountNamedInRows(tags, e.id, if f.tags.Some? then f.tags.value else []);
    if f.tags.None? {
      WhereUniform(joined, Conditions(f), EmailFieldsMatch(f, e));
    } else if attached == [] {
      WhereUniform(joined, Conditions(f), false);
    } else {
      WhereOverTaggedRows(e, attached, f);
    }
  }

  /** The rows that `keep` accepts, in order, each as often as it occurs. */
  function FilterRows(rows: seq<EmailRow>, keep: EmailRow -> bool): (r: seq<EmailRow>)
    ensures |r| <= |rows|
    ensures forall e :: e in r <==> e in rows && keep(e)
    decreases |rows|
  {
    if rows == [] then []
    else
      var rest := FilterRows(rows[1..], keep);
      assert forall e :: e in rows <==> e == rows[0] || e in rows[1..];
      if keep(rows[0]) then [rows[0]] + rest else rest
  }

  lemma {:induction false} FilterRowsCounts(rows: seq<EmailRow>, keep: EmailRow -> bool)
    ensures forall e :: multiset(FilterRows(rows, keep))[e] == if keep(e) then multiset(rows)[e] else 0
    decreases |rows|
  {
    if rows != [] {
      FilterRowsCounts(rows[1..], keep);
      assert rows == [rows[0]] + rows[1..];
    }
  }

  lemma {:induction false} FilterRowsAll(rows: seq<EmailRow>, keep: EmailRow -> bool)
    requires forall e :: e in rows ==> keep(e)
    ensures FilterRows(rows, keep) == rows
    decreases |rows|
  {
    if rows != [] {
      assert rows[0] in rows;
      FilterRowsAll(rows[1..], keep);
      assert rows == [rows[0]] + rows[1..];
    }
  }

  lemma {:induction false} FilterRowsNone(rows: seq<EmailRow>, keep: EmailRow -> bool)
    requires forall e :: e in rows ==> !keep(e)
    ensures FilterRows(rows, keep) == []
    decreases |rows|
  {
    if rows != [] {
      assert rows[0] in rows;
      FilterRowsNone(rows[1..], keep);
    }
  }

  /** The SQL test one email's group goes through: it exists after WHERE and passes HAVING. */
  function GroupTest(tags: seq<TagRow>, f: Filters): EmailRow -> bool {
    e => GroupSelected(e, tags, Conditions(f), HavingCount(f))
  }

  /** The SQL test agrees with the field-by-field reading of the filter on every email. */
  lemma GroupTestIsSelected(tags: seq<TagRow>, f: Filters)
    ensures forall e :: GroupTest(tags, f)(e) == Selected(f, e, tags)
  {
    forall e ensures GroupTest(tags, f)(e) == Selected(f, e, tags) {
      GroupSelectedIffSelected(e, tags, f);
    }
  }

  /** The emails whose groups survive WHERE and HAVING, in storage order. */
  function Matching(emails: seq<EmailRow>, tags: seq<TagRow>, f: Filters): (r: seq<EmailRow>)
    ensures |r| <= |emails|
    ensures forall e :: e in r <==> e in emails && Selected(f, e, tags)
  {
    GroupTestIsSelected(tags, f);
    FilterRows(emails, GroupTest(tags, f))
  }

  /** Each selected stored email is matched exactly as often as it is stored, and no other is. */
  lemma MatchingCounts(emails: seq<EmailRow>, tags: seq<TagRow>, f: Filters)
    ensures forall e :: multiset(Matching(emails, tags, f))[e] == if Selected(f, e, tags) then multiset(emails)[e] else 0
  {
    FilterRowsCounts(emails, GroupTest(tags, f));
    GroupTestIsSelected(tags, f);
  }

  /**
    The count query: the number of groups, from the same WHERE and HAVING and
    without LIMIT or OFFSET; by MatchingCounts, each selected stored row once.
   */
  function Total(emails: seq<EmailRow>, tags: seq<TagRow>, f: Filters): nat {
    |Matching(emails, tags, f)|
  }

  /** Newer first: `createdAt` never increases along the sequence. */
  predicate SortedDesc(rows: seq<EmailRow>) {
    forall i, j :: 0 <= i < j < |rows| ==> rows[i].createdAt >= rows[j].createdAt
  }

  lemma ConsSortedDesc(a: EmailRow, rest: seq<EmailRow>)
    requires SortedDesc(rest)
    requires forall y :: y in rest ==> a.createdAt >= y.createdAt
    ensures SortedDesc([a] + rest)
  {
    var s := [a] + rest;
    forall i, j | 0 <= i < j < |s| ensures s[i].createdAt >= s[j].createdAt {
      assert s[j] == rest[j - 1];
      if i > 0 {
        assert s[i] == rest[i - 1];
      }
    }
  }

  function InsertDesc(x: EmailRow, rows: seq<EmailRow>): (r: seq<EmailRow>)
    requires SortedDesc(rows)
    ensures forall y :: y in r <==> y == x || y in rows
    ensures SortedDesc(r)
    ensures multiset(r) == multiset(rows) + multiset{x}
    decreases |rows|
  {
    if rows == [] || x.createdAt >= rows[0].createdAt then
      ConsSortedDesc(x, rows);
      [x] + rows
    else
      var rest := InsertDesc(x, rows[1..]);
      assert rows == [rows[0]] + rows[1..];
      assert forall y :: y in rows[1..] ==> rows[0].createdAt >= y.createdAt by {
        forall y | y in rows[1..] ensures rows[0].createdAt >= y.createdAt {
          var j :| 0 <= j < |rows[1..]| && rows[1..][j] == y;
          assert rows[j + 1] == y;
        }
      }
      ConsSortedDesc(rows[0], rest);
      [rows[0]] + rest
  }

  /**
    `ORDER BY createdAt desc`: a rearrangement of the rows with newer rows first.
    Rows with equal `createdAt` may come in any order; nothing here fixes it.
   */
  function OrderByCreatedAtDesc(rows: seq<EmailRow>): (r: seq<EmailRow>)
    ensures SortedDesc(r)
    ensures multiset(r) == multiset(rows)
    decreases |rows|
  {
    if rows == [] then []
    else
      assert rows == [rows[0]] + rows[1..];
      InsertDesc(rows[0], OrderByCreatedAtDesc(rows[1..]))
  }

  /** Where `OFFSET offset` starts in `n` rows: a negative offset counts as 0. */
  function StartOf(offset: int, n: nat): (start: nat)
    ensures start <= n
  {
    if offset <= 0 then 0 else if offset < n then offset else n
  }

  /**
    `LIMIT limit OFFSET offset`: the run of rows starting at the offset, at most
    `limit` long; a negative limit sets no bound.
   */
  function Window(rows: seq<EmailRow>, limit: int, offset: int): (r: seq<EmailRow>)
    ensures var start := StartOf(offset, |rows|);
      && |r| == (if limit < 0 || |rows| - start <= limit then |rows| - start else limit)
      && r == rows[start..start + |r|]
  {
    var rest := rows[StartOf(offset, |rows|)..];
    if limit < 0 || |rest| <= limit then rest else rest[..limit]
  }

  /**
    A row order `ORDER BY createdAt desc` may return for the matching emails:
    newest first, each matching row as often as it is stored. Rows with equal
    `createdAt` may come in any order, and two statements need not agree on it.
   */
  predicate OrderedSelection(s: seq<EmailRow>, emails: seq<EmailRow>, tags: seq<TagRow>, f: Filters) {
    SortedDesc(s) && multiset(s) == multiset(Matching(emails, tags, f))
  }

  /** No two different rows share a `createdAt`, so ORDER BY leaves no tie to break. */
  predicate DistinctTimes(rows: seq<EmailRow>) {
    forall x, y :: x in rows && y in rows && x.createdAt == y.createdAt ==> x == y
  }

  /**
    The total counts every matching email and does not depend on the pagination;
    a page is never longer than it, and with `from >= 1` and `size >= 0` the page
    holds min(size, total - (from - 1)) rows, or none when `from - 1` reaches the total.
   */
  lemma PageWithinTotal(emails: seq<EmailRow>, tags: seq<TagRow>, req: ListRequest, s: seq<EmailRow>)
    requires OrderedSelection(s, emails, tags, req.filters)
    ensures |Window(s, Limit(req), Offset(req))| <= Total(emails, tags, req.filters)
    ensures req.from.GetOr(DefaultFrom) >= 1 && Limit(req) >= 0 ==>
      var total, skip := Total(emails, tags, req.filters), Offset(req);
      |Window(s, Limit(req), Offset(req))| == if skip >= total then 0 else if total - skip < Limit(req) then total - skip else Limit(req)
  {
    var m := Matching(emails, tags, req.filters);
    assert |s| == |multiset(s)| == |multiset(m)| == |m|;
  }

  /**
    Every row on a page matches the filter, and the page is ordered by createdAt,
    newest first.
   */
  lemma PageIsOrderedSelection(emails: seq<EmailRow>, tags: seq<TagRow>, req: ListRequest, s: seq<EmailRow>)
    requires OrderedSelection(s, emails, tags, req.filters)
    ensures SortedDesc(Window(s, Limit(req), Offset(req)))
    ensures forall e :: e in Window(s, Limit(req), Offset(req)) ==> e in emails && Selected(req.filters, e, tags)
  {
    var m := Matching(emails, tags, req.filters);
    var page := Window(s, Limit(req), Offset(req));
    var start := StartOf(Offset(req), |s|);
    SliceOfSorted(s, start, start + |page|);
    forall e | e in page ensures e in m {
      assert e in multiset(s);
    }
  }

  lemma SliceOfSorted(s: seq<EmailRow>, lo: nat, hi: nat)
    requires lo <= hi <= |s| && SortedDesc(s)
    ensures SortedDesc(s[lo..hi])
    ensures forall e :: e in s[lo..hi] ==> e in s
  {
    var t := s[lo..hi];
    forall i, j | 0 <= i < j < |t| ensures t[i].createdAt >= t[j].createdAt {
      assert t[i] == s[lo + i] && t[j] == s[lo + j];
    }
    forall e | e in t ensures e in s {
      var i :| 0 <= i < |t| && t[i] == e;
      assert s[lo + i] == e;
    }
  }

  /** The head of a newest-first sequence is at least as new as every row in it. */
  lemma HeadIsNewest(s: seq<EmailRow>, x: EmailRow)
    requires SortedDesc(s) && x in s
    ensures s[0].createdAt >= x.createdAt
  {
    var i :| 0 <= i < |s| && s[i] == x;
    if i > 0 {
      assert s[0].createdAt >= s[i].createdAt;
    }
  }

  /** Dropping the head keeps a sequence newest first and without ties, and removes one copy of the head. */
  lemma DropHead(s: seq<EmailRow>)
    requires s != [] && SortedDesc(s)
    ensures SortedDesc(s[1..])
    ensures DistinctTimes(s) ==> DistinctTimes(s[1..])
    ensures multiset(s[1..]) == multiset(s) - multiset{s[0]}
  {
    assert s == [s[0]] + s[1..];
    SliceOfSorted(s, 1, |s|);
  }

  /** Two newest-first orders of the same rows without ties start with the same row. */
  lemma HeadsAgree(s: seq<EmailRow>, t: seq<EmailRow>)
    requires SortedDesc(s) && SortedDesc(t) && multiset(s) == multiset(t) && DistinctTimes(s) && s != []
    ensures t != [] && s[0] == t[0]
  {
    assert s[0] in multiset(t);
    assert t[0] in multiset(s);
    HeadIsNewest(s, t[0]);
    HeadIsNewest(t, s[0]);
  }

  /** With equal heads, the tails of two orders of the same rows meet SortedUnique's requirements. */
  lemma TailsAgreeInShape(s: seq<EmailRow>, t: seq<EmailRow>)
    requires SortedDesc(s) && SortedDesc(t) && multiset(s) == multiset(t) && DistinctTimes(s)
    requires s != [] && t != [] && s[0] == t[0]
    ensures SortedDesc(s[1..]) && SortedDesc(t[1..]) && DistinctTimes(s[1..])
    ensures multiset(s[1..]) == multiset(t[1..])
  {
    DropHead(s);
    DropHead(t);
  }

  lemma ConsEqual(s: seq<EmailRow>, t: seq<EmailRow>)
    requires s != [] && t != [] && s[0] == t[0] && s[1..] == t[1..]
    ensures s == t
  {
    assert s == [s[0]] + s[1..];
    assert t == [t[0]] + t[1..];
  }

  /** Without ties, there is only one newest-first order of a collection of rows. */
  lemma {:induction false} SortedUnique(s: seq<EmailRow>, t: seq<EmailRow>)
    requires SortedDesc(s) && SortedDesc(t) && multiset(s) == multiset(t) && DistinctTimes(s)
    ensures s == t
    decreases |s|
  {
    if s == [] {
      assert |t| == |multiset(t)| == 0;
    } else {
      HeadsAgree(s, t);
      TailsAgreeInShape(s, t);
      SortedUnique(s[1..], t[1..]);
      ConsEqual(s, t);
    }
  }

  /** Two newest-first orders of the same rows agree when the rows have no ties. */
  lemma SameOrderWithoutTies(s: seq<EmailRow>, t: seq<EmailRow>, m: seq<EmailRow>)
    requires SortedDesc(s) && SortedDesc(t) && multiset(s) == multiset(m) && multiset(t) == multiset(m)
    requires DistinctTimes(m)
    ensures s == t
  {
    forall x | x in s ensures x in m {
      assert x in multiset(s);
    }
    SortedUnique(s, t);
  }

  /**
    The offset is `from - 1` rows, so raising `from` by one moves the page by one
    row, not by a page: for two requests with the same filters and size whose
    offsets differ by one, the later page is the earlier one without its first row,
    possibly extended by one row. This holds when no two matching emails share a
    `createdAt`; with ties, the two statements may order the tied rows differently.
   */
  lemma NextPageShiftsByOneRow(emails: seq<EmailRow>, tags: seq<TagRow>, req: ListRequest, next: ListRequest, s: seq<EmailRow>, t: seq<EmailRow>)
    requires next.filters == req.filters && Limit(next) == Limit(req) >= 1
    requires Offset(req) >= 0 && Offset(next) == Offset(req) + 1
    requires OrderedSelection(s, emails, tags, req.filters) && OrderedSelection(t, emails, tags, next.filters)
    requires DistinctTimes(Matching(emails, tags, req.filters))
    ensures var p, q := Window(s, Limit(req), Offset(req)), Window(t, Limit(next), Offset(next));
      && (|p| >= 1 ==> |q| >= |p| - 1)
      && forall i :: 0 <= i < |q| && i + 1 < |p| ==> q[i] == p[i + 1]
  {
    ShiftWithoutTies(s, t, Matching(emails, tags, req.filters), Limit(req), Offset(req));
  }

  /** Two newest-first orders of the same rows without ties, windowed at consecutive offsets. */
  lemma ShiftWithoutTies(s: seq<EmailRow>, t: seq<EmailRow>, m: seq<EmailRow>, limit: int, offset: int)
    requires SortedDesc(s) && SortedDesc(t) && multiset(s) == multiset(m) && multiset(t) == multiset(m)
    requires DistinctTimes(m) && offset >= 0 && limit >= 1
    ensures var p, q := Window(s, limit, offset), Window(t, limit, offset + 1);
      && (|p| >= 1 ==> |q| >= |p| - 1)
      && forall i :: 0 <= i < |q| && i + 1 < |p| ==> q[i] == p[i + 1]
  {
    SameOrderWithoutTies(s, t, m);
    WindowShift(s, limit, offset);
  }

  /** Two different emails with the same `createdAt` may be listed in either order. */
  lemma TieOrderIsOpen(a: EmailRow, b: EmailRow, tags: seq<TagRow>, f: Filters)
    requires a.createdAt == b.createdAt && NoFieldPresent(f)
    ensures OrderedSelection([a, b], [a, b], tags, f)
    ensures OrderedSelection([b, a], [a, b], tags, f)
  {
    NoFieldsMatchAll([a, b], tags, f);
    EitherOrderOfTie(a, b, Matching([a, b], tags, f));
  }

  lemma EitherOrderOfTie(a: EmailRow, b: EmailRow, m: seq<EmailRow>)
    requires a.createdAt == b.createdAt && m == [a, b]
    ensures SortedDesc([a, b]) && SortedDesc([b, a])
    ensures multiset([a, b]) == multiset(m) && multiset([b, a]) == multiset(m)
  {
    assert multiset([b, a]) == multiset([a, b]);
  }

  /** Moving the offset on by one row moves the window on by one row. */
  lemma WindowShift(rows: seq<EmailRow>, limit: int, offset: int)
    requires offset >= 0 && limit >= 1
    ensures var p, q := Window(rows, limit, offset), Window(rows, limit, offset + 1);
      && (|p| >= 1 ==> |q| >= |p| - 1)
      && forall i :: 0 <= i < |q| && i + 1 < |p| ==> q[i] == p[i + 1]
  {
    var p, q := Window(rows, limit, offset), Window(rows, limit, offset + 1);
    var a, b := StartOf(offset, |rows|), StartOf(offset + 1, |rows|);
    assert |p| >= 1 ==> b == a + 1;
    forall i | 0 <= i < |q| && i + 1 < |p|
      ensures q[i] == p[i + 1]
    {
      assert q[i] == rows[b + i] && p[i + 1] == rows[a + i + 1];
    }
  }

  /**
    With no filter field present or truthy (every field missing, "" or 0), every
    email is listed and the total is the number of emails.
   */
  lemma NoFieldsMatchAll(emails: seq<EmailRow>, tags: seq<TagRow>, f: Filters)
    requires NoFieldPresent(f)
    ensures Matching(emails, tags, f) == emails
    ensures Total(emails, tags, f) == |emails|
  {
    GroupTestIsSelected(tags, f);
    FilterRowsAll(emails, GroupTest(tags, f));
  }

  /** An empty tag list is still present: `tags.name in ()` holds for no row, so nothing is listed. */
  lemma EmptyTagListMatchesNothing(emails: seq<EmailRow>, tags: seq<TagRow>, f: Filters)
    requires f.tags == Some([])
    ensures Matching(emails, tags, f) == []
    ensures Total(emails, tags, f) == 0
  {
    GroupTestIsSelected(tags, f);
    FilterRowsNone(emails, GroupTest(tags, f));
  }

  /** A store of one email lists it exactly when it is Selected. */
  lemma OneEmailMatching(e: EmailRow, tags: seq<TagRow>, f: Filters)
    ensures Matching([e], tags, f) == if Selected(f, e, tags) then [e] else []
  {
    assert [e][1..] == [];
    GroupTestIsSelected(tags, f);
  }

  /**
    For an email without duplicate tag rows and a list without repeated names, the
    tag filter is an exact "has all of these" test.
   */
  lemma AllRequestedTagsRequired(f: Filters, e: EmailRow, tags: seq<TagRow>)
    requires f.tags.Some? && f.tags.value != []
    requires NoDup(f.tags.value) && NoDup(TagsOfEmail(tags, e.id))
    ensures Selected(f, e, tags) <==>
      EmailFieldsMatch(f, e) && forall n :: n in f.tags.value ==> n in TagsOfEmail(tags, e.id)
  {
    CountInAllIff(TagsOfEmail(tags, e.id), f.tags.value);
  }

  function TagsOnly(names: seq<string>): Filters {
    Filters(None, None, None, None, Some(names))
  }

  /** The email with id 1 and two tag rows named `a` and `b`. */
  lemma TwoRowsOfOneEmail(a: string, b: string)
    ensures TagsOfEmail([TagRow(1, a, EmailTarget, 1), TagRow(2, b, EmailTarget, 1)], 1) == [a, b]
  {
    var tags := [TagRow(1, a, EmailTarget, 1), TagRow(2, b, EmailTarget, 1)];
    assert tags[1..] == [TagRow(2, b, EmailTarget, 1)] && tags[1..][1..] == [];
  }

  lemma CountInPair(a: string, b: string, among: seq<string>)
    ensures CountIn([a, b], among) == (if a in among then 1 else 0) + (if b in among then 1 else 0)
  {
    assert [a, b][1..] == [b] && [b][1..] == [];
    assert CountIn([b], among) == (if b in among then 1 else 0) + CountIn([], among);
  }

  /** An email tagged with the distinct names A and B passes [A] and [A, B] and fails [A, B, C]. */
  lemma TwoTagsExample()
    ensures var e := EmailRow(1, "", "", "", "", "", "", "", 0);
      var tags := [TagRow(1, "A", EmailTarget, 1), TagRow(2, "B", EmailTarget, 1)];
      && Matching([e], tags, TagsOnly(["A"])) == [e]
      && Matching([e], tags, TagsOnly(["A", "B"])) == [e]
      && Matching([e], tags, TagsOnly(["A", "B", "C"])) == []
  {
    var e := EmailRow(1, "", "", "", "", "", "", "", 0);
    var tags := [TagRow(1, "A", EmailTarget, 1), TagRow(2, "B", EmailTarget, 1)];
    TwoRowsOfOneEmail("A", "B");
    CountInPair("A", "B", ["A"]);
    CountInPair("A", "B", ["A", "B"]);
    CountInPair("A", "B", ["A", "B", "C"]);
    OneEmailMatching(e, tags, TagsOnly(["A"]));
    OneEmailMatching(e, tags, TagsOnly(["A", "B"]));
    OneEmailMatching(e, tags, TagsOnly(["A", "B", "C"]));
  }

  /**
    HAVING counts tag rows, not distinct names: an email whose two tag rows both say
    A passes the filter [A, B] although it has no tag B.
   */
  lemma DuplicateTagRowsPassLargerFilter()
    ensures var e := EmailRow(1, "", "", "", "", "", "", "", 0);
      var tags := [TagRow(1, "A", EmailTarget, 1), TagRow(2, "A", EmailTarget, 1)];
      && "B" !in TagsOfEmail(tags, 1)
      && Matching([e], tags, TagsOnly(["A", "B"])) == [e]
  {
    var e := EmailRow(1, "", "", "", "", "", "", "", 0);
    var tags := [TagRow(1, "A", EmailTarget, 1), TagRow(2, "A", EmailTarget, 1)];
    TwoRowsOfOneEmail("A", "A");
    CountInPair("A", "A", ["A", "B"]);
    OneEmailMatching(e, tags, TagsOnly(["A", "B"]));
  }
}
