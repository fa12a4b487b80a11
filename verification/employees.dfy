/** The contact record and the normalisation that turns a decoded sheet row
    into one: the row is laid over an all-empty nine-field template, and a
    row with no usable id gets one made from its name, email and position,
    or from the clock and its position. */
module Employees {
  import opened JsText
  import opened Csv

  /** The eight fields of a card other than its id: what the card form edits
      and what `addEmployee` receives. */
  datatype Card = Card(
    name: string,
    title: string,
    companyName: string,
    phone: string,
    email: string,
    website: string,
    photoUrl: string,
    logoUrl: string)

  /** One contact record. */
  datatype Employee = Employee(id: string, card: Card)

  /** The nine properties of a record. */
  datatype Field = Id | Name | Title | CompanyName | Phone | Email | Website | PhotoUrl | LogoUrl

  /** A property's name, as the sheet's header row spells it. */
  function FieldName(f: Field): string
  {
    match f
    case Id => "id"
    case Name => "name"
    case Title => "title"
    case CompanyName => "companyName"
    case Phone => "phone"
    case Email => "email"
    case Website => "website"
    case PhotoUrl => "photoUrl"
    case LogoUrl => "logoUrl"
  }

  /** A record read as the object it is in the source: its property by name. */
  function FieldOf(e: Employee, f: Field): string
  {
    match f
    case Id => e.id
    case Name => e.card.name
    case Title => e.card.title
    case CompanyName => e.card.companyName
    case Phone => e.card.phone
    case Email => e.card.email
    case Website => e.card.website
    case PhotoUrl => e.card.photoUrl
    case LogoUrl => e.card.logoUrl
  }

  /** What `{ id: '', name: '', ..., ...emp }` holds under `key`: the row's
      value when the row has that key, the template's empty string when not. */
  function Supplied(entry: Entry, key: string): string
  {
    if key in entry then entry[key] else ""
  }

  /** What `${emp[key]}` renders: the row's value, or the text "undefined"
      when the row has no such key. */
  function Interpolated(entry: Entry, key: string): string
  {
    if key in entry then entry[key] else "undefined"
  }

  /** JavaScript truthiness of `emp[key]`: present and not the empty string. */
  predicate Truthy(entry: Entry, key: string)
  {
    key in entry && entry[key] != ""
  }

  /** The row spread over the all-empty template. */
  function Overlay(entry: Entry): (e: Employee)
    ensures forall f :: FieldOf(e, f) == Supplied(entry, FieldName(f))
  {
    Employee(Supplied(entry, "id"), Card(
      Supplied(entry, "name"), Supplied(entry, "title"), Supplied(entry, "companyName"),
      Supplied(entry, "phone"), Supplied(entry, "email"), Supplied(entry, "website"),
      Supplied(entry, "photoUrl"), Supplied(entry, "logoUrl")))
  }

  /** `id` ends in a dash followed by the decimal rendering of `index`. */
  predicate EndsWithIndex(id: string, index: nat)
  {
    var d := Decimal(index);
    |id| > |d| && id[|id| - |d| - 1..] == ['-'] + d
  }

  /** The id made for a row without one: `name-email-index` when the row has
      a non-empty name or email, `timestamp-index` otherwise. */
  function SynthesisedId(entry: Entry, index: nat, stamp: nat): (id: string)
    ensures id != ""
    ensures EndsWithIndex(id, index)
  {
    var tail := ['-'] + Decimal(index);
    var head :=
      if Truthy(entry, "email") || Truthy(entry, "name")
      then Interpolated(entry, "name") + ['-'] + Interpolated(entry, "email")
      else Decimal(stamp);
    assert (head + tail)[|head + tail| - |tail|..] == tail;
    head + tail
  }

  lemma DashBeforeIndex(id: string, index: nat)
    requires EndsWithIndex(id, index)
    ensures id[|id| - |Decimal(index)| - 1] == '-'
  {
    var d := Decimal(index);
    assert id[|id| - |d| - 1..][0] == '-';
  }

  lemma DigitInIndex(id: string, index: nat, p: int)
    requires EndsWithIndex(id, index)
    requires |id| - |Decimal(index)| <= p < |id|
    ensures id[p] != '-'
  {
    var d := Decimal(index);
    assert id[|id| - |d| - 1..][p - (|id| - |d| - 1)] == d[p - (|id| - |d|)];
  }

  /** Two ids that both end in a dash and a decimal index end in the same
      index: the index is the digit run after the last dash. */
  lemma IndexSuffixDetermined(id: string, i: nat, j: nat)
    requires EndsWithIndex(id, i) && EndsWithIndex(id, j)
    ensures i == j
  {
    var di := Decimal(i);
    var dj := Decimal(j);
    if |di| < |dj| {
      DashBeforeIndex(id, i);
      DigitInIndex(id, j, |id| - |di| - 1);
      assert false;
    } else if |dj| < |di| {
      DashBeforeIndex(id, j);
      DigitInIndex(id, i, |id| - |dj| - 1);
      assert false;
    } else {
      assert di == id[|id| - |di|..] == dj;
      DecimalInjective(i, j);
    }
  }

  /** Ids made for rows at different positions differ, whatever the rows
      hold and whatever the clock read. */
  lemma SynthesisedIdsDistinct(e1: Entry, i: nat, s1: nat, e2: Entry, j: nat, s2: nat)
    requires i != j
    ensures SynthesisedId(e1, i, s1) != SynthesisedId(e2, j, s2)
  {
    if SynthesisedId(e1, i, s1) == SynthesisedId(e2, j, s2) {
      IndexSuffixDetermined(SynthesisedId(e1, i, s1), i, j);
    }
  }

  /** One row of the sheet as a full record: every field the row supplies,
      the empty string for the rest, a supplied non-empty id kept as it is
      and a synthesised one otherwise, so the id is never empty. */
  function Normalise(entry: Entry, index: nat, stamp: nat): (e: Employee)
    ensures forall f :: f != Id ==> FieldOf(e, f) == Supplied(entry, FieldName(f))
    ensures Supplied(entry, "id") != "" ==> e.id == entry["id"]
    ensures Supplied(entry, "id") == "" ==> e.id == SynthesisedId(entry, index, stamp)
    ensures e.id != ""
  {
    var full := Overlay(entry);
    if full.id == "" then Employee(SynthesisedId(entry, index, stamp), full.card) else full
  }

  /** `parsedData.map((emp, index) => ...)`: the row at position `index` of
      the decoded (blank-free) sequence is normalised with that position and
      the clock reading taken for it. */
  function NormaliseAll(parsed: seq<Entry>, clock: nat -> nat): (roster: seq<Employee>)
    ensures |roster| == |parsed|
    ensures forall i :: 0 <= i < |roster| ==> roster[i] == Normalise(parsed[i], i, clock(i))
    ensures forall i :: 0 <= i < |roster| ==> roster[i].id != ""
  {
    seq(|parsed|, i requires 0 <= i < |parsed| => Normalise(parsed[i], i, clock(i)))
  }

  /** Rows that had to have their id made up get pairwise different ids. */
  lemma SynthesisedIdsOfRosterDistinct(parsed: seq<Entry>, clock: nat -> nat, i: nat, j: nat)
    requires i < |parsed| && j < |parsed| && i != j
    requires Supplied(parsed[i], "id") == "" && Supplied(parsed[j], "id") == ""
    ensures NormaliseAll(parsed, clock)[i].id != NormaliseAll(parsed, clock)[j].id
  {
    SynthesisedIdsDistinct(parsed[i], i, clock(i), parsed[j], j, clock(j));
  }

  /** The clock only ever reaches the ids of rows with no id, no name and no
      email: the cards never depend on it, and neither does anything when
      every row has one of those three. */
  lemma ClockOnlyReachesBareRows(parsed: seq<Entry>, c1: nat -> nat, c2: nat -> nat)
    ensures forall i :: 0 <= i < |parsed| ==>
              NormaliseAll(parsed, c1)[i].card == NormaliseAll(parsed, c2)[i].card
    ensures (forall i :: 0 <= i < |parsed| ==>
               Supplied(parsed[i], "id") != "" || Truthy(parsed[i], "name") || Truthy(parsed[i], "email"))
            ==> NormaliseAll(parsed, c1) == NormaliseAll(parsed, c2)
  {
  }

  /** The roster a fetched sheet payload becomes. */
  function DecodeSheet(text: string, clock: nat -> nat): (roster: seq<Employee>)
    ensures |Lines(text)| < 2 ==> roster == []
    ensures |Lines(text)| >= 2 ==> |roster| == CountNonBlank(Lines(text)[1..])
    ensures forall i :: 0 <= i < |roster| ==> roster[i].id != ""
  {
    NormaliseAll(ParseCSV(text), clock)
  }
}
