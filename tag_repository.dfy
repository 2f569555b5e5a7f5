/** The tag repository: the polymorphic `tags` table as seen from emails. */
module TagRepository {
  import opened Seqs
  import opened Schema

  predicate IsTagOfEmail(t: TagRow, emailId: int) {
    t.targetType == EmailTarget && t.targetId == emailId
  }

  /** The tag rows attached to one email, in storage order. */
  function RowsOfEmail(tags: seq<TagRow>, emailId: int): (r: seq<TagRow>)
    ensures forall t :: t in r <==> t in tags && IsTagOfEmail(t, emailId)
    decreases |tags|
  {
    if tags == [] then []
    else (if IsTagOfEmail(tags[0], emailId) then [tags[0]] else []) + RowsOfEmail(tags[1..], emailId)
  }

  /**
    getTagsOfEmail: the names of the tag rows whose targetType is 'Email' and whose
    targetId is the email's id, in storage order, one entry per row.
   */
  function TagsOfEmail(tags: seq<TagRow>, emailId: int): (r: seq<string>)
    ensures |r| <= |tags|
    ensures forall n :: n in r <==> exists t :: t in tags && IsTagOfEmail(t, emailId) && t.name == n
    decreases |tags|
  {
    if tags == [] then []
    else
      var rest := TagsOfEmail(tags[1..], emailId);
      assert forall t :: t in tags <==> t == tags[0] || t in tags[1..];
      if IsTagOfEmail(tags[0], emailId) then [tags[0].name] + rest else rest
  }

  /** Looking tags up over appended rows looks them up in each part. */
  lemma {:induction false} TagsOfEmailAppend(tags: seq<TagRow>, more: seq<TagRow>, emailId: int)
    ensures TagsOfEmail(tags + more, emailId) == TagsOfEmail(tags, emailId) + TagsOfEmail(more, emailId)
    decreases |tags|
  {
    if tags != [] {
      assert (tags + more)[1..] == tags[1..] + more;
      TagsOfEmailAppend(tags[1..], more, emailId);
    } else {
      assert tags + more == more;
    }
  }

  /** An email id that no 'Email' row targets has no tags. */
  lemma UntargetedIdHasNoTags(tags: seq<TagRow>, emailId: int)
    requires forall i :: 0 <= i < |tags| && tags[i].targetType == EmailTarget ==> tags[i].targetId != emailId
    ensures TagsOfEmail(tags, emailId) == []
  {
  }

  /** The rows insertTags adds for `names`: one per name, in order, with consecutive ids from `firstId`. */
  function NewTagRows(firstId: int, names: seq<string>, emailId: int): (r: seq<TagRow>)
    ensures |r| == |names|
    ensures forall i :: 0 <= i < |names| ==> r[i] == TagRow(firstId + i, names[i], EmailTarget, emailId)
  {
    seq(|names|, i requires 0 <= i < |names| => TagRow(firstId + i, names[i], EmailTarget, emailId))
  }

  /** The rows inserted for one email give back exactly the names inserted, duplicates and order included, and nothing for any other email. */
  lemma {:induction false} TagsOfNewRows(firstId: int, names: seq<string>, emailId: int, otherId: int)
    requires otherId != emailId
    ensures TagsOfEmail(NewTagRows(firstId, names, emailId), emailId) == names
    ensures TagsOfEmail(NewTagRows(firstId, names, emailId), otherId) == []
    decreases |names|
  {
    var rows := NewTagRows(firstId, names, emailId);
    if names != [] {
      assert rows[1..] == NewTagRows(firstId + 1, names[1..], emailId);
      TagsOfNewRows(firstId + 1, names[1..], emailId, otherId);
      assert names == [names[0]] + names[1..];
    }
  }

  /** The names of all 'Email' tag rows, one per row, in storage order. */
  function EmailTagNames(tags: seq<TagRow>): (r: seq<string>)
    ensures forall n :: n in r <==> exists t :: t in tags && t.targetType == EmailTarget && t.name == n
    decreases |tags|
  {
    if tags == [] then []
    else
      var rest := EmailTagNames(tags[1..]);
      assert forall t :: t in tags <==> t == tags[0] || t in tags[1..];
      if tags[0].targetType == EmailTarget then [tags[0].name] + rest else rest
  }

  /**
    getTags: the distinct names used by tag rows of type 'Email'. A name used only
    by another target type (a short message, a template) is not listed.
   */
  function GetTags(tags: seq<TagRow>): (r: seq<string>)
    ensures NoDup(r)
    ensures forall n :: n in r <==> exists t :: t in tags && t.targetType == EmailTarget && t.name == n
  {
    Dedup(EmailTagNames(tags))
  }
}
