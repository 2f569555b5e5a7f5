/**
  The filter clause builder: a filter record becomes the WHERE and HAVING fragments
  of the listing statement in server/dao/email.js. Each condition is kept both as
  the SQL text the builder emits and as its meaning on one joined row, so that the listing model evaluates
  exactly the conditions whose text the builder produces.
 */
module Clauses {
  import opened Wrappers
  import opened Text
  import opened Schema

  /** The filter fields of a listing request (pagination is split off first). */
  datatype Filters = Filters(
    fromAddress: Option<string>,
    toAddress: Option<string>,
    createdAtFrom: Option<int>,
    createdAtTo: Option<int>,
    tags: Option<seq<string>>)

  const NoFilters := Filters(None, None, None, None, None)

  /** JavaScript truthiness of an optional string: present and not "". */
  predicate TruthyString(o: Option<string>) {
    o.Some? && o.value != ""
  }

  /** JavaScript truthiness of an optional number: present and not 0. */
  predicate TruthyNumber(o: Option<int>) {
    o.Some? && o.value != 0
  }

  /** Whether the field of the given position (0 fromAddress .. 4 tags) contributes a condition. An array is always truthy. */
  predicate Present(f: Filters, field: nat) {
    match field
    case 0 => TruthyString(f.fromAddress)
    case 1 => TruthyString(f.toAddress)
    case 2 => TruthyNumber(f.createdAtFrom)
    case 3 => TruthyNumber(f.createdAtTo)
    case 4 => f.tags.Some?
    case _ => false
  }

  predicate NoFieldPresent(f: Filters) {
    forall field: nat :: field < 5 ==> !Present(f, field)
  }

  datatype Condition =
    | FromAddressIs(address: string)
    | ToAddressIs(address: string)
    | CreatedNotBefore(bound: int)
    | CreatedNotAfter(bound: int)
    | TagNameIn(names: seq<string>)

  /** The filter field a condition comes from. */
  function Field(c: Condition): nat {
    match c
    case FromAddressIs(_) => 0
    case ToAddressIs(_) => 1
    case CreatedNotBefore(_) => 2
    case CreatedNotAfter(_) => 3
    case TagNameIn(_) => 4
  }

  /** The condition carries the value of its own filter field. */
  predicate Carries(f: Filters, c: Condition) {
    match c
    case FromAddressIs(a) => f.fromAddress == Some(a)
    case ToAddressIs(a) => f.toAddress == Some(a)
    case CreatedNotBefore(b) => f.createdAtFrom == Some(b)
    case CreatedNotAfter(b) => f.createdAtTo == Some(b)
    case TagNameIn(ns) => f.tags == Some(ns)
  }

  /** A tag name as a single-quoted SQL literal, interpolated as it is. */
  function Quote(name: string): string {
    "'" + name + "'"
  }

  function QuotedNames(names: seq<string>): (r: seq<string>)
    ensures |r| == |names|
    decreases |names|
  {
    if names == [] then [] else [Quote(names[0])] + QuotedNames(names[1..])
  }

  /** The IN list: each name wrapped in single quotes, as it is, and the results separated by commas. */
  function TagList(names: seq<string>): string {
    Join(QuotedNames(names), ",")
  }

  /** The SQL text of one condition; scalar values are bound parameters, tag names are literals. */
  function Render(c: Condition): string {
    match c
    case FromAddressIs(_) => "emails.fromAddress = @fromAddress"
    case ToAddressIs(_) => "emails.toAddress = @toAddress"
    case CreatedNotBefore(_) => "createdAt >= @createdAtFrom"
    case CreatedNotAfter(_) => "createdAt <= @createdAtTo"
    case TagNameIn(ns) => "tags.name in (" + TagList(ns) + ")"
  }

  /** What a condition means on one row of `emails LEFT JOIN tags`; a NULL tag name is in no list. */
  predicate Holds(c: Condition, row: JoinedRow) {
    match c
    case FromAddressIs(a) => row.email.fromAddress == a
    case ToAddressIs(a) => row.email.toAddress == a
    case CreatedNotBefore(b) => row.email.createdAt >= b
    case CreatedNotAfter(b) => row.email.createdAt <= b
    case TagNameIn(ns) => row.tag.Some? && row.tag.value.name in ns
  }

  predicate AllHold(conds: seq<Condition>, row: JoinedRow) {
    forall c :: c in conds ==> Holds(c, row)
  }

  /** The condition a present field contributes. */
  function ConditionFor(f: Filters, field: nat): (c: Condition)
    requires field < 5 && Present(f, field)
    ensures Field(c) == field && Carries(f, c)
  {
    match field
    case 0 => FromAddressIs(f.fromAddress.value)
    case 1 => ToAddressIs(f.toAddress.value)
    case 2 => CreatedNotBefore(f.createdAtFrom.value)
    case 3 => CreatedNotAfter(f.createdAtTo.value)
    case 4 => TagNameIn(f.tags.value)
  }

  /** A one-element list when the field is present, else empty. */
  function Contribution(f: Filters, field: nat): (cs: seq<Condition>)
    requires field < 5
  {
    if Present(f, field) then [ConditionFor(f, field)] else []
  }

  /** The conditions the fields before `upTo` contribute, in field order. */
  function ConditionsUpTo(f: Filters, upTo: nat): seq<Condition>
    requires upTo <= 5
    decreases upTo
  {
    if upTo == 0 then [] else ConditionsUpTo(f, upTo - 1) + Contribution(f, upTo - 1)
  }

  lemma {:induction false} ConditionsUpToFacts(f: Filters, upTo: nat)
    requires upTo <= 5
    ensures var cs := ConditionsUpTo(f, upTo);
      && (forall i, j :: 0 <= i < j < |cs| ==> Field(cs[i]) < Field(cs[j]))
      && (forall c :: c in cs ==> Field(c) < upTo && Present(f, Field(c)) && Carries(f, c))
      && (forall field: nat :: field < upTo && Present(f, field) ==> ConditionFor(f, field) in cs)
    decreases upTo
  {
    if upTo > 0 {
      ConditionsUpToFacts(f, upTo - 1);
    }
  }

  /**
    The conditions a filter record contributes: one for each present field and no
    other, in the fixed field order, each carrying that field's value.
   */
  function Conditions(f: Filters): (cs: seq<Condition>)
    ensures forall i, j :: 0 <= i < j < |cs| ==> Field(cs[i]) < Field(cs[j])
    ensures forall field: nat :: field < 5 && Present(f, field) ==> ConditionFor(f, field) in cs
    ensures forall c :: c in cs ==> Present(f, Field(c)) && Carries(f, c)
    ensures cs == [] <==> NoFieldPresent(f)
  {
    var cs := ConditionsUpTo(f, 5);
    ConditionsUpToFacts(f, 5);
    assert !NoFieldPresent(f) ==> cs != [] by {
      if !NoFieldPresent(f) {
        var field: nat :| field < 5 && Present(f, field);
        assert ConditionFor(f, field) in cs;
      }
    }
    cs
  }

  /** The texts of a condition list, in order. */
  function RenderAll(cs: seq<Condition>): (r: seq<string>)
    ensures |r| == |cs|
    decreases |cs|
  {
    if cs == [] then [] else RenderAll(cs[..|cs| - 1]) + [Render(cs[|cs| - 1])]
  }

  lemma RenderAllSnoc(cs: seq<Condition>, c: Condition)
    ensures RenderAll(cs + [c]) == RenderAll(cs) + [Render(c)]
  {
    assert (cs + [c])[..|cs|] == cs;
  }

  /** The WHERE fragment for a condition list: empty, or "WHERE " and the conditions joined by " AND ". */
  function WhereSql(cs: seq<Condition>): string {
    if cs == [] then "" else "WHERE " + Join(RenderAll(cs), " AND ")
  }

  /**
    buildWhereClause: pushes one condition per truthy field, in field order, then
    joins them. The result is "" exactly when no field is present, and otherwise
    "WHERE " followed by the rendered conditions of the present fields.
   */
  method BuildWhereClause(f: Filters) returns (clause: string)
    ensures clause == WhereSql(Conditions(f))
    ensures clause == "" <==> NoFieldPresent(f)
    ensures clause != "" ==> clause[..6] == "WHERE "
  {
    var whereConditions: seq<string> := [];
    whereConditions := PushIf(f, 0, whereConditions, TruthyString(f.fromAddress), "emails.fromAddress = @fromAddress");
    whereConditions := PushIf(f, 1, whereConditions, TruthyString(f.toAddress), "emails.toAddress = @toAddress");
    whereConditions := PushIf(f, 2, whereConditions, TruthyNumber(f.createdAtFrom), "createdAt >= @createdAtFrom");
    whereConditions := PushIf(f, 3, whereConditions, TruthyNumber(f.createdAtTo), "createdAt <= @createdAtTo");
    var tagsString := if f.tags.Some? then TagList(f.tags.value) else "";
    whereConditions := PushIf(f, 4, whereConditions, f.tags.Some?, "tags.name in (" + tagsString + ")");
    clause := if |whereConditions| > 0 then "WHERE " + Join(whereConditions, " AND ") else "";
    WhereText(f, whereConditions);
  }

  /**
    One `if (filters.field) whereConditions.push(text)` of BuildWhereClause: the
    pushed texts stay those of the conditions of the fields handled so far.
   */
  method PushIf(ghost f: Filters, ghost field: nat, conds: seq<string>, truthy: bool, text: string) returns (r: seq<string>)
    requires field < 5 && truthy == Present(f, field)
    requires truthy ==> text == Render(ConditionFor(f, field))
    requires conds == RenderAll(ConditionsUpTo(f, field))
    ensures r == RenderAll(ConditionsUpTo(f, field + 1))
  {
    r := if truthy then conds + [text] else conds;
    var cs := ConditionsUpTo(f, field);
    if truthy {
      RenderAllSnoc(cs, ConditionFor(f, field));
    } else {
      assert cs + [] == cs;
    }
  }

  lemma WhereText(f: Filters, wc: seq<string>)
    requires wc == RenderAll(Conditions(f))
    ensures var clause := if |wc| > 0 then "WHERE " + Join(wc, " AND ") else "";
      && clause == WhereSql(Conditions(f))
      && (clause == "" <==> NoFieldPresent(f))
      && (clause != "" ==> clause[..6] == "WHERE ")
  {
    if |wc| > 0 {
      var joined := Join(wc, " AND ");
      assert ("WHERE " + joined)[..6] == "WHERE ";
    }
  }

  /** The scalar part of a filter: what the four email-column conditions demand of an email. */
  predicate EmailFieldsMatch(f: Filters, e: EmailRow) {
    && (TruthyString(f.fromAddress) ==> e.fromAddress == f.fromAddress.value)
    && (TruthyString(f.toAddress) ==> e.toAddress == f.toAddress.value)
    && (TruthyNumber(f.createdAtFrom) ==> e.createdAt >= f.createdAtFrom.value)
    && (TruthyNumber(f.createdAtTo) ==> e.createdAt <= f.createdAtTo.value)
  }

  /** The WHERE conditions of a filter hold on a joined row exactly when its email matches the scalar fields and, under a tag filter, its tag is a listed name. */
  lemma ConditionsMeaning(f: Filters, row: JoinedRow)
    ensures AllHold(Conditions(f), row) <==>
      EmailFieldsMatch(f, row.email) && (f.tags.Some? ==> row.tag.Some? && row.tag.value.name in f.tags.value)
  {
    var cs := Conditions(f);
    if AllHold(cs, row) {
      if TruthyString(f.fromAddress) { assert FromAddressIs(f.fromAddress.value) in cs; }
      if TruthyString(f.toAddress) { assert ToAddressIs(f.toAddress.value) in cs; }
      if TruthyNumber(f.createdAtFrom) { assert CreatedNotBefore(f.createdAtFrom.value) in cs; }
      if TruthyNumber(f.createdAtTo) { assert CreatedNotAfter(f.createdAtTo.value) in cs; }
      if f.tags.Some? { assert TagNameIn(f.tags.value) in cs; }
    }
  }

  /** The HAVING bound: the number of requested tags, when a tag list is present. */
  function HavingCount(f: Filters): Option<nat> {
    if f.tags.Some? then Some(|f.tags.value|) else None
  }

  const HavingPrefix: string := "HAVING count(tags.id) = "

  /**
    buildHavingClause: "" without a tag list; otherwise the HAVING prefix followed by
    a decimal numeral that reads back as the length of the tag list.
   */
  function HavingClause(f: Filters): (r: string)
    ensures r == "" <==> f.tags.None?
    ensures f.tags.Some? ==>
      |r| > |HavingPrefix| && r[..|HavingPrefix|] == HavingPrefix && ParseNat(r[|HavingPrefix|..]) == Some(|f.tags.value|)
  {
    if f.tags.Some? then
      var n := NatToString(|f.tags.value|);
      ParseNatToString(|f.tags.value|);
      assert (HavingPrefix + n)[|HavingPrefix|..] == n;
      HavingPrefix + n
    else ""
  }

  predicate HasQuote(s: string) {
    '\'' in s
  }

  /** A tag filter whose names would break out of their quotes. */
  predicate HasQuotedTag(f: Filters) {
    f.tags.Some? && exists i :: 0 <= i < |f.tags.value| && HasQuote(f.tags.value[i])
  }

  /** Reads back a list of single-quoted names separated by commas; the inverse of TagList on quote-free names. */
  function ParseTagList(s: string): Option<seq<string>> {
    if s == [] then Some([]) else ParseQuoted(s)
  }

  function ParseQuoted(s: string): Option<seq<string>>
    decreases |s|
  {
    if s == [] || s[0] != '\'' then None
    else
      match IndexOf(s[1..], '\'')
      case None => None
      case Some(k) =>
        var name := s[1..k + 1];
        var after := s[k + 2..];
        if after == [] then Some([name])
        else if after[0] != ',' then None
        else
          match ParseQuoted(after[1..])
          case None => None
          case Some(rest) => Some([name] + rest)
  }

  /** Parsing one quoted, quote-free name followed by the rest of the list. */
  lemma ParseQuotedStep(n: string, after: string)
    requires !HasQuote(n)
    ensures ParseQuoted("'" + n + "'" + after) ==
      if after == [] then Some([n])
      else if after[0] != ',' then None
      else match ParseQuoted(after[1..])
        case None => None
        case Some(rest) => Some([n] + rest)
  {
    var s := "'" + n + "'" + after;
    assert s[1..] == n + "'" + after;
    IndexOfAfterQuoteFree(n, after);
    assert s[1..|n| + 1] == n;
    assert s[|n| + 2..] == after;
  }

  lemma {:induction false} ParseQuotedJoin(names: seq<string>)
    requires names != []
    requires forall i :: 0 <= i < |names| ==> !HasQuote(names[i])
    ensures ParseQuoted(Join(QuotedNames(names), ",")) == Some(names)
    decreases |names|
  {
    var n := names[0];
    var q := QuotedNames(names);
    assert q[0] == Quote(n) && q[1..] == QuotedNames(names[1..]);
    if |names| == 1 {
      ParseQuotedStep(n, "");
      assert Join(q, ",") == "'" + n + "'" + "";
      assert names == [n];
    } else {
      var rest := Join(QuotedNames(names[1..]), ",");
      assert Join(q, ",") == "'" + n + "'" + ("," + rest);
      ParseQuotedStep(n, "," + rest);
      assert ("," + rest)[1..] == rest;
      assert forall i :: 0 <= i < |names[1..]| ==> !HasQuote(names[1..][i]) by {
        forall i | 0 <= i < |names[1..]| ensures !HasQuote(names[1..][i]) {
          assert names[1..][i] == names[i + 1];
        }
      }
      ParseQuotedJoin(names[1..]);
      assert names == [n] + names[1..];
    }
  }

  lemma {:induction false} IndexOfAfterQuoteFree(n: string, tail: string)
    requires !HasQuote(n)
    ensures IndexOf(n + "'" + tail, '\'') == Some(|n|)
    decreases |n|
  {
    if n != [] {
      IndexOfAfterQuoteFree(n[1..], tail);
      assert (n + "'" + tail)[1..] == n[1..] + "'" + tail;
    }
  }

  /** Quote-free tag names survive interpolation: the IN list reads back as exactly the requested names. */
  lemma TagListRoundTrip(names: seq<string>)
    requires forall i :: 0 <= i < |names| ==> !HasQuote(names[i])
    ensures ParseTagList(TagList(names)) == Some(names)
  {
    if names != [] {
      ParseQuotedJoin(names);
      assert TagList(names) != [] by {
        assert TagList(names)[0] == '\'' by {
          assert QuotedNames(names)[0] == Quote(names[0]);
        }
      }
    }
  }

  /** A name holding a quote is interpolated as it is: one such name yields the same IN list as two plain names. */
  lemma QuoteInNameIsAmbiguous()
    ensures TagList(["a','b"]) == TagList(["a", "b"])
  {
    var one, two := ["a','b"], ["a", "b"];
    assert two[1..] == ["b"] && ["b"][1..] == [] && one[1..] == [];
    assert Quote("b") == "'b'" && Quote("a") == "'a'" && Quote("a','b") == "'a','b'";
    assert QuotedNames(["b"]) == [Quote("b")] + QuotedNames([]);
    assert QuotedNames(two) == ["'a'", "'b'"];
    assert QuotedNames(one) == ["'a','b'"];
  }
}
