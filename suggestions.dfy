/** The address suggestion queries: sender and recipient addresses containing a filter text. */
module Suggestions {
  import opened Wrappers
  import opened Seqs
  import opened Text
  import opened Schema

  /** `LIMIT @limit` with `limit: 10`. */
  const SuggestionLimit: nat := 10

  /**
    The text between the two `%` wildcards of the LIKE pattern: a template literal
    renders a missing filter as "undefined", so it is not a match-everything pattern.
   */
  function LikeText(filter: Option<string>): string {
    filter.GetOr("undefined")
  }

  /** The values that `LIKE '%text%'` keeps, in storage order. */
  function ValuesContaining(values: seq<string>, text: string): (r: seq<string>)
    ensures forall v :: v in r <==> v in values && Contains(v, text)
    decreases |values|
  {
    if values == [] then []
    else
      var rest := ValuesContaining(values[1..], text);
      assert forall v :: v in values <==> v == values[0] || v in values[1..];
      if Contains(values[0], text) then [values[0]] + rest else rest
  }

  /**
    The shared shape of both queries: keep the values containing the text, one per
    distinct value (GROUP BY), then at most ten. Fewer than ten means none was cut.
   */
  function Suggest(values: seq<string>, filter: Option<string>): (r: seq<string>)
    ensures |r| <= SuggestionLimit
    ensures NoDup(r)
    ensures forall a :: a in r ==> a in values && Contains(a, LikeText(filter))
    ensures |r| < SuggestionLimit ==> forall a :: a in values && Contains(a, LikeText(filter)) ==> a in r
  {
    var distinct := Dedup(ValuesContaining(values, LikeText(filter)));
    var r := Take(distinct, SuggestionLimit);
    assert forall a :: a in r ==> a in distinct;
    assert |r| < SuggestionLimit ==> r == distinct;
    r
  }

  function FromAddressColumn(emails: seq<EmailRow>): (r: seq<string>)
    ensures |r| == |emails| && forall i :: 0 <= i < |emails| ==> r[i] == emails[i].fromAddress
  {
    seq(|emails|, i requires 0 <= i < |emails| => emails[i].fromAddress)
  }

  function ToAddressColumn(emails: seq<EmailRow>): (r: seq<string>)
    ensures |r| == |emails| && forall i :: 0 <= i < |emails| ==> r[i] == emails[i].toAddress
  {
    seq(|emails|, i requires 0 <= i < |emails| => emails[i].toAddress)
  }

  /**
    getFromAddresses: at most ten distinct sender addresses, each one some email's
    fromAddress and containing the filter text; when fewer than ten come back, every
    such address is among them.
   */
  function FromAddresses(emails: seq<EmailRow>, filter: Option<string>): (r: seq<string>)
    ensures |r| <= SuggestionLimit && NoDup(r)
    ensures forall a :: a in r ==> Contains(a, LikeText(filter)) && exists i :: 0 <= i < |emails| && emails[i].fromAddress == a
    ensures |r| < SuggestionLimit ==>
      forall i :: 0 <= i < |emails| && Contains(emails[i].fromAddress, LikeText(filter)) ==> emails[i].fromAddress in r
  {
    var column := FromAddressColumn(emails);
    var r := Suggest(column, filter);
    assert forall a :: a in column ==> exists i :: 0 <= i < |emails| && emails[i].fromAddress == a;
    assert forall i :: 0 <= i < |emails| ==> emails[i].fromAddress in column by {
      forall i | 0 <= i < |emails| ensures emails[i].fromAddress in column {
        assert column[i] == emails[i].fromAddress;
      }
    }
    r
  }

  /**
    getToAddresses: at most ten distinct recipient addresses, each one some email's
    toAddress and containing the filter text; when fewer than ten come back, every
    such address is among them.
   */
  function ToAddresses(emails: seq<EmailRow>, filter: Option<string>): (r: seq<string>)
    ensures |r| <= SuggestionLimit && NoDup(r)
    ensures forall a :: a in r ==> Contains(a, LikeText(filter)) && exists i :: 0 <= i < |emails| && emails[i].toAddress == a
    ensures |r| < SuggestionLimit ==>
      forall i :: 0 <= i < |emails| && Contains(emails[i].toAddress, LikeText(filter)) ==> emails[i].toAddress in r
  {
    var column := ToAddressColumn(emails);
    var r := Suggest(column, filter);
    assert forall a :: a in column ==> exists i :: 0 <= i < |emails| && emails[i].toAddress == a;
    assert forall i :: 0 <= i < |emails| ==> emails[i].toAddress in column by {
      forall i | 0 <= i < |emails| ensures emails[i].toAddress in column {
        assert column[i] == emails[i].toAddress;
      }
    }
    r
  }

  /** An empty filter text is contained in every address, so it suggests from all of them. */
  lemma EmptyFilterSuggestsFromAll(emails: seq<EmailRow>)
    ensures |FromAddresses(emails, Some(""))| < SuggestionLimit ==>
      forall i :: 0 <= i < |emails| ==> emails[i].fromAddress in FromAddresses(emails, Some(""))
  {
    forall i | 0 <= i < |emails| ensures Contains(emails[i].fromAddress, "") {
      assert OccursAt(emails[i].fromAddress, "", 0);
    }
  }
}
