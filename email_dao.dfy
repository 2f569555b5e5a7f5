/**
  The email data-access object over one store holding both tables. Each operation
  runs as a single transaction in server/dao/email.js; here each method is one atomic update.
 */
module EmailDao {
  import opened Wrappers
  import opened Schema
  import opened Clauses
  import opened TagRepository
  import opened Listing

  /** What getAll returns: one page of hydrated emails and the number of all matches. */
  datatype EmailPage = EmailPage(emails: seq<Email>, total: nat)

  /** The lookup of getOne: the first stored row whose id is the one asked for, if there is one. */
  function FindEmail(rows: seq<EmailRow>, id: int): (r: Option<EmailRow>)
    ensures r.Some? <==> exists i :: 0 <= i < |rows| && rows[i].id == id
    ensures r.Some? ==> r.value in rows && r.value.id == id
    decreases |rows|
  {
    if rows == [] then None
    else if rows[0].id == id then Some(rows[0])
    else
      var r := FindEmail(rows[1..], id);
      assert forall i :: 0 < i < |rows| ==> rows[i] == rows[1..][i - 1];
      r
  }

  /** A row appended at the end is found only for its own id, and only when no earlier row has it. */
  lemma {:induction false} FindEmailAppend(rows: seq<EmailRow>, row: EmailRow, id: int)
    ensures FindEmail(rows + [row], id) ==
      if FindEmail(rows, id).Some? then FindEmail(rows, id)
      else if row.id == id then Some(row) else None
    decreases |rows|
  {
    if rows == [] {
      assert rows + [row] == [row];
      assert [row][1..] == [];
    } else {
      assert (rows + [row])[1..] == rows[1..] + [row];
      FindEmailAppend(rows[1..], row, id);
    }
  }

  /** Each page entry is its row with the row's tags attached, in page order. */
  predicate Hydrates(page: seq<Email>, rows: seq<EmailRow>, tags: seq<TagRow>) {
    |page| == |rows| && forall i :: 0 <= i < |rows| ==> page[i] == Email(rows[i], TagsOfEmail(tags, rows[i].id))
  }

  /** The row `create` inserts: the payload's columns, the next id and the storage timestamp. */
  function NewEmailRow(id: int, p: EmailPayload, createdAt: int): (r: EmailRow)
    ensures r.id == id && r.createdAt == createdAt
    ensures r.fromAddress == p.fromAddress && r.toAddress == p.toAddress
  {
    EmailRow(id, p.fromName, p.fromAddress, p.toName, p.toAddress, p.subject, p.emailType, p.content, createdAt)
  }

  /**
    Ids are handed out in increasing order and never reused, and every 'Email'
    tag points at an email id already handed out; so a fresh email id has no tags yet.
   */
  predicate StoreInvariant(emails: seq<EmailRow>, tags: seq<TagRow>, nextEmailId: int, nextTagId: int) {
    && 1 <= nextEmailId && 1 <= nextTagId
    && (forall i :: 0 <= i < |emails| ==> emails[i].id < nextEmailId)
    && (forall i, j :: 0 <= i < j < |emails| ==> emails[i].id < emails[j].id)
    && (forall i :: 0 <= i < |tags| ==> tags[i].id < nextTagId)
    && (forall i :: 0 <= i < |tags| && tags[i].targetType == EmailTarget ==> tags[i].targetId < nextEmailId)
  }

  /** Inserting a row under the next email id keeps the invariant. */
  lemma InsertEmailKeepsInvariant(emails: seq<EmailRow>, tags: seq<TagRow>, nextEmailId: int, nextTagId: int, row: EmailRow)
    requires StoreInvariant(emails, tags, nextEmailId, nextTagId) && row.id == nextEmailId
    ensures StoreInvariant(emails + [row], tags, nextEmailId + 1, nextTagId)
  {
    var e := emails + [row];
    forall i, j | 0 <= i < j < |e| ensures e[i].id < e[j].id {
      assert e[i] == emails[i];
    }
  }

  /**
    After the insert and its tag rows, the new id reads back as the new row with
    exactly the inserted names.
   */
  lemma NewEmailReadsBack(emails: seq<EmailRow>, tags: seq<TagRow>, nextTagId: int, row: EmailRow, names: seq<string>)
    requires StoreInvariant(emails, tags, row.id, nextTagId)
    ensures FindEmail(emails + [row], row.id) == Some(row)
    ensures TagsOfEmail(tags + NewTagRows(nextTagId, names, row.id), row.id) == names
  {
    FindEmailAppend(emails, row, row.id);
    TagsOfEmailAppend(tags, NewTagRows(nextTagId, names, row.id), row.id);
    UntargetedIdHasNoTags(tags, row.id);
    TagsOfNewRows(nextTagId, names, row.id, row.id + 1);
  }

  /** Every other id reads back the same row and the same tags as before the insert. */
  lemma OtherEmailsUnchanged(emails: seq<EmailRow>, tags: seq<TagRow>, nextTagId: int, row: EmailRow, names: seq<string>, id: int)
    requires id != row.id
    ensures FindEmail(emails + [row], id) == FindEmail(emails, id)
    ensures TagsOfEmail(tags + NewTagRows(nextTagId, names, row.id), id) == TagsOfEmail(tags, id)
  {
    FindEmailAppend(emails, row, id);
    TagsOfEmailAppend(tags, NewTagRows(nextTagId, names, row.id), id);
    TagsOfNewRows(nextTagId, names, row.id, id);
  }

  /** The `emails` and `tags` tables with the row ids their autoincrementing keys hand out next. */
  class EmailStore {
    var emails: seq<EmailRow>
    var tags: seq<TagRow>
    var nextEmailId: int
    var nextTagId: int

    ghost predicate Valid()
      reads this
    {
      StoreInvariant(emails, tags, nextEmailId, nextTagId)
    }

    constructor ()
      ensures Valid()
      ensures emails == [] && tags == []
      ensures nextEmailId == 1 && nextTagId == 1
    {
      emails := [];
      tags := [];
      nextEmailId := 1;
      nextTagId := 1;
    }

    /**
      getAll: the page of matching emails, newest first, that `from` and `size` select,
      each with its tags, and the count of all matching emails. A tag filter name holding
      a quote is refused, since the statement text would no longer list the names.
      The page and the total come from the same WHERE and HAVING clauses.
     */
    method GetAll(req: ListRequest) returns (r: Result<EmailPage>)
      ensures r.Err? <==> HasQuotedTag(req.filters)
      ensures r.Err? ==> r.error == QuotedTagName
      ensures r.Ok? ==> r.value.total == Total(emails, tags, req.filters)
      ensures r.Ok? ==>
        exists s :: OrderedSelection(s, emails, tags, req.filters) && Hydrates(r.value.emails, Window(s, Limit(req), Offset(req)), tags)
    {
      var whereClause := BuildWhereClause(req.filters);
      var havingClause := HavingClause(req.filters);
      // The rows and the count below are those of the conditions and the bound these texts render.
      if HasQuotedTag(req.filters) {
        return Err(QuotedTagName);
      }
      var sorted := OrderByCreatedAtDesc(Matching(emails, tags, req.filters));
      var rows := Window(sorted, Limit(req), Offset(req));
      var total := Total(emails, tags, req.filters);
      var page := AttachTags(rows);
      return Ok(EmailPage(page, total));
    }

    /** The loop of getAll that sets `email.tags` on each row of the page, in order. */
    method AttachTags(rows: seq<EmailRow>) returns (page: seq<Email>)
      ensures Hydrates(page, rows, tags)
    {
      page := [];
      for i := 0 to |rows|
        invariant Hydrates(page, rows[..i], tags)
      {
        page := page + [Email(rows[i], TagsOfEmail(tags, rows[i].id))];
      }
      assert rows[..|rows|] == rows;
    }

    /**
      getOne: the email with that id and its tags; an id without a row is an error
      where server/dao/email.js throws a TypeError on setting `tags` of an undefined row.
     */
    function GetOne(id: int): (r: Result<Email>)
      reads this
      ensures r.Ok? <==> exists i :: 0 <= i < |emails| && emails[i].id == id
      ensures r.Ok? ==> r.value.row in emails && r.value.row.id == id && r.value.tags == TagsOfEmail(tags, id)
      ensures r.Err? ==> r.error == NotFound(id)
    {
      match FindEmail(emails, id)
      case None => Err(NotFound(id))
      case Some(row) => Ok(Email(row, TagsOfEmail(tags, id)))
    }

    /** insertTags: one 'Email' tag row per name, in order, each with the next tag id. */
    method InsertTags(emailId: int, names: seq<string>)
      modifies this
      ensures tags == old(tags) + NewTagRows(old(nextTagId), names, emailId)
      ensures nextTagId == old(nextTagId) + |names|
      ensures emails == old(emails) && nextEmailId == old(nextEmailId)
      ensures old(Valid()) && emailId < nextEmailId ==> Valid()
    {
      for k := 0 to |names|
        invariant tags == old(tags) + NewTagRows(old(nextTagId), names[..k], emailId)
        invariant nextTagId == old(nextTagId) + k
        invariant emails == old(emails) && nextEmailId == old(nextEmailId)
        invariant old(Valid()) && emailId < nextEmailId ==> Valid()
      {
        assert NewTagRows(old(nextTagId), names[..k + 1], emailId)
          == NewTagRows(old(nextTagId), names[..k], emailId) + [TagRow(nextTagId, names[k], EmailTarget, emailId)];
        tags := tags + [TagRow(nextTagId, names[k], EmailTarget, emailId)];
        nextTagId := nextTagId + 1;
      }
      assert names[..|names|] == names;
    }

    /**
      create: inserts the row under the next email id, attaches the payload's tags
      (none when left out) and returns the email as getOne reads it back, which is
      the payload with exactly those tags. No other email changes.
     */
    method Create(payload: EmailPayload, createdAt: int) returns (email: Email)
      requires Valid()
      modifies this
      ensures Valid()
      ensures email.row == NewEmailRow(old(nextEmailId), payload, createdAt)
      ensures email.tags == payload.tags.GetOr([])
      ensures emails == old(emails) + [email.row] && nextEmailId == old(nextEmailId) + 1
      ensures tags == old(tags) + NewTagRows(old(nextTagId), payload.tags.GetOr([]), email.row.id)
      ensures nextTagId == old(nextTagId) + |payload.tags.GetOr([])|
      ensures GetOne(email.row.id) == Ok(email)
      ensures forall id :: id != email.row.id ==> GetOne(id) == old(GetOne(id))
    {
      var names := payload.tags.GetOr([]);
      var emailId := nextEmailId;
      var row := NewEmailRow(emailId, payload, createdAt);
      InsertEmailKeepsInvariant(emails, tags, nextEmailId, nextTagId, row);
      NewEmailReadsBack(emails, tags, nextTagId, row, names);
      ghost var oldEmails, oldTags, firstTagId := emails, tags, nextTagId;
      emails := emails + [row];
      nextEmailId := nextEmailId + 1;
      InsertTags(emailId, names);
      var found := GetOne(emailId);
      email := found.value;
      forall id | id != emailId
        ensures GetOne(id) == old(GetOne(id))
      {
        OtherEmailsUnchanged(oldEmails, oldTags, firstTagId, row, names, id);
      }
    }
  }
}
