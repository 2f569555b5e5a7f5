/** The two SQLite tables of the email archive, the hydrated email and the errors of the data-access layer. */
module Schema {
  import opened Wrappers

  /** The discriminator that ties a tag row to the `emails` table. */
  const EmailTarget: string := "Email"

  /** One row of `emails`; `createdAt` is the timestamp the storage layer assigns. */
  datatype EmailRow = EmailRow(
    id: int,
    fromName: string,
    fromAddress: string,
    toName: string,
    toAddress: string,
    subject: string,
    emailType: string,
    content: string,
    createdAt: int)

  /** One row of `tags`: a name attached to the target (`targetType`, `targetId`). */
  datatype TagRow = TagRow(id: int, name: string, targetType: string, targetId: int)

  /** An email as returned to callers: its row with `tags` filled in. */
  datatype Email = Email(row: EmailRow, tags: seq<string>)

  /** The payload `create` accepts; `tags` may be left out. */
  datatype EmailPayload = EmailPayload(
    fromName: string,
    fromAddress: string,
    toName: string,
    toAddress: string,
    subject: string,
    emailType: string,
    content: string,
    tags: Option<seq<string>>)

  /** One row of `emails LEFT JOIN tags`: the tag part is `None` when the email has no tag row. */
  datatype JoinedRow = JoinedRow(email: EmailRow, tag: Option<TagRow>)

  datatype DaoError =
    | NotFound(id: int)   // `getOne` on an id without a row: server/dao/email.js throws when it sets `tags` on the missing row
    | QuotedTagName       // a tag filter name holding `'`: the statement text no longer lists the names

  datatype Result<+T> = Ok(value: T) | Err(error: DaoError)
}
