/**
 * The table component's derived view state: criterion updates, the country
 * dropdown, the cells of a row and the empty-state decision.
 */
module TaxTable {
  import opened Wrappers
  import opened Text
  import opened Seqs
  import opened Customers
  import opened Formatting
  import opened FilterEngine

  // ---------------------------------------------------------------- criteria

  /** `handleFilterChange(field, value)`: `{...prev, [field]: value}`. */
  function HandleFilterChange(c: Criteria, f: Field, v: string): (r: Criteria)
    ensures Get(r, f) == v
    ensures forall g :: g != f ==> Get(r, g) == Get(c, g)
  {
    match f
    case NameField => c.(name := v)
    case CountryField => c.(country := v)
    case GenderField => c.(gender := v)
    case DateField => c.(date := v)
  }

  /** Writing a field's current value back changes nothing; a second write to a field overrides the first. */
  lemma HandleFilterChangeLaws(c: Criteria, f: Field, v: string, w: string)
    ensures HandleFilterChange(c, f, Get(c, f)) == c
    ensures HandleFilterChange(HandleFilterChange(c, f, v), f, w) == HandleFilterChange(c, f, w)
  {
  }

  /** `clearFilters`: all four fields empty, so no filter is active. */
  function ClearFilters(): (r: Criteria)
    ensures forall f :: Get(r, f) == ""
    ensures !HasActiveFilters(r)
  {
    NoCriteria
  }

  /** After clearing, the table shows every record, in order. */
  lemma ClearFiltersShowsAll(renderDate: string -> string, data: seq<Customer>)
    ensures FilteredData(renderDate, ClearFilters(), Some(data)) == data
  {
    FilteredDataInactiveIsIdentity(renderDate, ClearFilters(), data);
  }

  // ------------------------------------------------------- country dropdown

  /** `data.map(item => item.country).filter(Boolean)`: the truthy countries, in record order. */
  function PresentCountries(s: seq<Customer>): (r: seq<string>)
    ensures forall x :: x in r ==> x != ""
    ensures forall x :: x in r <==> exists i :: 0 <= i < |s| && s[i].country == Some(x) && x != ""
    decreases |s|
  {
    if s == [] then []
    else
      var rest := PresentCountries(s[1..]);
      assert forall i :: 0 < i < |s| ==> s[i] == s[1..][i - 1];
      if Truthy(s[0].country) then [s[0].country.value] + rest else rest
  }

  /** Mapping and filtering a concatenation handles each part on its own, so record order is kept. */
  lemma {:induction false} PresentCountriesAppend(a: seq<Customer>, b: seq<Customer>)
    ensures PresentCountries(a + b) == PresentCountries(a) + PresentCountries(b)
    decreases |a|
  {
    if a == [] {
      assert a + b == b;
    } else {
      var ab := a + b;
      assert ab[0] == a[0] && ab[1..] == a[1..] + b;
      PresentCountriesAppend(a[1..], b);
      var head := if Truthy(a[0].country) then [a[0].country.value] else [];
      calc {
        PresentCountries(ab);
        head + PresentCountries(a[1..] + b);
        head + (PresentCountries(a[1..]) + PresentCountries(b));
        (head + PresentCountries(a[1..])) + PresentCountries(b);
        PresentCountries(a) + PresentCountries(b);
      }
    }
  }

  /** The countries of the records before `k`, then the one at `k` (if truthy), then those after it. */
  lemma PresentCountriesSplit(data: seq<Customer>, k: int)
    requires 0 <= k < |data| && Truthy(data[k].country)
    ensures PresentCountries(data) ==
      PresentCountries(data[..k]) + ([data[k].country.value] + PresentCountries(data[k + 1..]))
  {
    var tail := data[k..];
    assert data[..k] + tail == data;
    assert tail[0] == data[k] && tail[1..] == data[k + 1..];
    PresentCountriesAppend(data[..k], tail);
    SplitHead(tail);
  }

  /** A non-empty list of records contributes its head's country, then the rest. */
  lemma SplitHead(tail: seq<Customer>)
    requires tail != [] && Truthy(tail[0].country)
    ensures PresentCountries(tail) == [tail[0].country.value] + PresentCountries(tail[1..])
  {
  }

  /** A record contributes its country, or nothing when the country is missing or empty. */
  lemma PresentCountriesSingleton(x: Customer)
    ensures PresentCountries([x]) == if Truthy(x.country) then [x.country.value] else []
  {
    assert [x][1..] == [];
  }

  /** `[...new Set(xs)]`: each value once, at the position of its first occurrence. */
  function Dedup(xs: seq<string>): (r: seq<string>)
    ensures forall x :: x in r <==> x in xs
    ensures NoDuplicates(r)
    decreases |xs|
  {
    if xs == [] then []
    else
      var d := Dedup(xs[..|xs| - 1]);
      var e := xs[|xs| - 1];
      assert xs == xs[..|xs| - 1] + [e];
      if e in d then d else d + [e]
  }

  /** `r` lists values in the order of their first occurrences in `xs`: every occurrence of a later value is preceded by an earlier value. */
  ghost predicate InFirstOccurrenceOrder(r: seq<string>, xs: seq<string>) {
    forall i, j, k :: 0 <= i < j < |r| && 0 <= k < |xs| && xs[k] == r[j] ==> r[i] in xs[..k]
  }

  /** `Dedup` keeps first-occurrence order. */
  lemma {:induction false} DedupFirstOccurrenceOrder(xs: seq<string>)
    ensures InFirstOccurrenceOrder(Dedup(xs), xs)
    decreases |xs|
  {
    if xs != [] {
      var init := xs[..|xs| - 1];
      var d := Dedup(init);
      var e := xs[|xs| - 1];
      var r := Dedup(xs);
      DedupFirstOccurrenceOrder(init);
      assert forall k :: 0 <= k < |init| ==> xs[k] == init[k] && xs[..k] == init[..k];
      assert xs[..|init|] == init;
      forall i, j, k | 0 <= i < j < |r| && 0 <= k < |xs| && xs[k] == r[j]
        ensures r[i] in xs[..k]
      {
        if k < |init| {
          assert xs[k] == init[k] && init[k] in init;
          assert j < |d|;  // a value appended at |d| does not occur in init
          assert r[i] == d[i] && r[j] == d[j];
        } else {
          assert r[i] in d;
        }
      }
    }
  }

  /** The country dropdown: every truthy country of the whole data set once, in first-occurrence order. */
  method UniqueCountries(data: Option<seq<Customer>>) returns (r: seq<string>)
    ensures data.None? ==> r == []
    ensures NoDuplicates(r)
    ensures forall x :: x in r ==> x != ""
    ensures forall x :: x in r <==> data.Some? && exists i :: 0 <= i < |data.value| && data.value[i].country == Some(x) && x != ""
    ensures data.Some? ==> r == Dedup(PresentCountries(data.value))
    ensures data.Some? ==> InFirstOccurrenceOrder(r, PresentCountries(data.value))
    ensures data.Some? ==> forall i, j, k ::
      0 <= i < j < |r| && 0 <= k < |data.value| && data.value[k].country == Some(r[j]) ==>
      exists k' :: 0 <= k' < k && data.value[k'].country == Some(r[i])
  {
    var xs := if data.Some? then PresentCountries(data.value) else [];
    r := [];
    var seen: set<string> := {};
    for n := 0 to |xs|
      invariant r == Dedup(xs[..n])
      invariant forall x :: x in seen <==> x in r
    {
      assert xs[..n + 1] == xs[..n] + [xs[n]];
      assert xs[..n + 1][..n] == xs[..n];
      if xs[n] !in seen {
        r := r + [xs[n]];
        seen := seen + {xs[n]};
      }
    }
    assert xs[..|xs|] == xs;
    DedupFirstOccurrenceOrder(xs);
    if data.Some? {
      RecordOrderFromFirstOccurrence(data.value, r);
    }
  }

  /** First-occurrence order over the mapped countries is first-occurrence order over the records. */
  lemma RecordOrderFromFirstOccurrence(data: seq<Customer>, r: seq<string>)
    requires InFirstOccurrenceOrder(r, PresentCountries(data))
    requires forall x :: x in r ==> x != ""
    ensures forall i, j, k ::
      0 <= i < j < |r| && 0 <= k < |data| && data[k].country == Some(r[j]) ==>
      exists k' :: 0 <= k' < k && data[k'].country == Some(r[i])
  {
    forall i, j, k | 0 <= i < j < |r| && 0 <= k < |data| && data[k].country == Some(r[j])
      ensures exists k' :: 0 <= k' < k && data[k'].country == Some(r[i])
    {
      assert r[j] in r;
      EarlierCountryBefore(data, r, i, j, k);
    }
  }

  /** One instance: the record at `k` carries `r[j]`, so some record before `k` carries `r[i]`. */
  lemma EarlierCountryBefore(data: seq<Customer>, r: seq<string>, i: int, j: int, k: int)
    requires InFirstOccurrenceOrder(r, PresentCountries(data))
    requires 0 <= i < j < |r| && 0 <= k < |data| && data[k].country == Some(r[j]) && r[j] != ""
    ensures exists k' :: 0 <= k' < k && data[k'].country == Some(r[i])
  {
    var xs := PresentCountries(data);
    var front := PresentCountries(data[..k]);
    PresentCountriesSplit(data, k);
    var p := |front|;
    assert xs[p] == r[j] && xs[..p] == front;
    assert r[i] in front;
    var k' :| 0 <= k' < k && data[..k][k'].country == Some(r[i]) && r[i] != "";
    assert data[k'].country == Some(r[i]);
  }

  /** The dropdown never loses a country of a visible row, whatever the criteria: users can always broaden a search. */
  lemma VisibleCountriesAreOffered(renderDate: string -> string, c: Criteria, data: seq<Customer>, x: Customer)
    requires x in FilteredData(renderDate, c, Some(data))
    requires Truthy(x.country)
    ensures x.country.value in Dedup(PresentCountries(data))
  {
  }

  // ------------------------------------------------------------------ cells

  /** The style class of a gender tag. */
  datatype GenderClass = MaleClass | FemaleClass | OtherClass {
    /** The CSS class name. */
    function Name(): string {
      match this
      case MaleClass => "male"
      case FemaleClass => "female"
      case OtherClass => "other"
    }
  }

  /** The gender cell's class: "male"/"female" on an exact lower-cased match, "other" otherwise, including when absent. */
  function GenderClassOf(gender: Option<string>): (r: GenderClass)
    ensures r.Name() == "male" <==> Truthy(gender) && Lower(gender.value) == "male"
    ensures r.Name() == "female" <==> Truthy(gender) && Lower(gender.value) == "female"
    ensures r.Name() == "other" <==> !(Truthy(gender) && Lower(gender.value) in ["male", "female"])
  {
    if Truthy(gender) && Lower(gender.value) == "male" then MaleClass
    else if Truthy(gender) && Lower(gender.value) == "female" then FemaleClass
    else OtherClass
  }

  /** The class agrees with the gender filter's dropdown options: "Male" keeps exactly the male-class rows, "Female" the female-class rows. */
  lemma GenderClassAgreesWithFilter(gender: Option<string>)
    ensures MatchesExact(gender, "Male") <==> GenderClassOf(gender) == MaleClass
    ensures MatchesExact(gender, "Female") <==> GenderClassOf(gender) == FemaleClass
  {
  }

  /** Text of a name, gender or country cell: the value, or "Unknown" when it is missing or empty. */
  function CellText(v: Option<string>): (r: string)
    ensures r != ""
    ensures Truthy(v) ==> r == v.value
    ensures !Truthy(v) ==> r == "Unknown"
  {
    Or(v, "Unknown")
  }

  /** One rendered row: five columns, the edit action carrying the original record. */
  datatype Row = Row(
    name: string,
    genderClass: GenderClass,
    genderText: string,
    datePrimary: string,
    dateSecondary: string,
    country: string,
    original: Customer)

  /** The cells of one visible record. */
  function ProjectRow(renderDate: string -> string, renderTime: string -> string, x: Customer): (r: Row)
    ensures r.original == x
    ensures Truthy(x.name) ==> r.name == x.name.value
    ensures !Truthy(x.name) ==> r.name == "Unknown"
    ensures Truthy(x.gender) ==> r.genderText == x.gender.value
    ensures !Truthy(x.gender) ==> r.genderText == "Unknown"
    ensures Truthy(x.country) ==> r.country == x.country.value
    ensures !Truthy(x.country) ==> r.country == "Unknown"
    ensures r.genderClass == GenderClassOf(x.gender)
    ensures !Truthy(x.createdAt) ==> r.datePrimary == DateFallback && r.dateSecondary == TimeFallback
    ensures Truthy(x.createdAt) ==>
      r.datePrimary == renderDate(x.createdAt.value) && r.dateSecondary == renderTime(x.createdAt.value)
  {
    Row(CellText(x.name), GenderClassOf(x.gender), CellText(x.gender),
        FormatDate(renderDate, x.createdAt), FormatTime(renderTime, x.createdAt),
        CellText(x.country), x)
  }

  /** The table body: one row per visible record, in order; editing row `i` hands over the full `visible[i]`. */
  function ProjectRows(renderDate: string -> string, renderTime: string -> string, visible: seq<Customer>): (r: seq<Row>)
    ensures |r| == |visible|
    ensures forall i :: 0 <= i < |visible| ==> r[i] == ProjectRow(renderDate, renderTime, visible[i])
    decreases |visible|
  {
    if visible == [] then []
    else [ProjectRow(renderDate, renderTime, visible[0])] + ProjectRows(renderDate, renderTime, visible[1..])
  }

  // ------------------------------------------------------------ empty state

  /** What the table body shows. */
  datatype EmptyState =
    | ShowRows      // one row per visible record
    | NoMatches     // "No matching records found", with "Clear Filters"
    | NoRecords     // "No records found", with "Add First Customer"

  /** The empty-state decision on the visible count and the active-filter flag. */
  function ResolveEmptyState(visibleCount: nat, active: bool): (r: EmptyState)
    ensures r == ShowRows <==> visibleCount > 0
    ensures r == NoMatches <==> visibleCount == 0 && active
    ensures r == NoRecords <==> visibleCount == 0 && !active
  {
    if visibleCount != 0 then ShowRows
    else if active then NoMatches
    else NoRecords
  }

  /** The empty state the table renders for its data and criteria. */
  function TableEmptyState(renderDate: string -> string, c: Criteria, data: seq<Customer>): EmptyState {
    ResolveEmptyState(|FilteredData(renderDate, c, Some(data))|, HasActiveFilters(c))
  }

  /** "Add First Customer" is offered only when there are no records at all. */
  lemma NoRecordsMeansEmptyData(renderDate: string -> string, c: Criteria, data: seq<Customer>)
    ensures TableEmptyState(renderDate, c, data) == NoRecords <==> data == [] && !HasActiveFilters(c)
  {
  }

  /** "Clear Filters" from the no-matches state brings back every record: afterwards the table shows all rows, or "add first" when there are none. */
  lemma ClearFiltersLeavesNoMatches(renderDate: string -> string, c: Criteria, data: seq<Customer>)
    requires TableEmptyState(renderDate, c, data) == NoMatches
    ensures FilteredData(renderDate, ClearFilters(), Some(data)) == data
    ensures TableEmptyState(renderDate, ClearFilters(), data) == if data == [] then NoRecords else ShowRows
  {
    ClearFiltersShowsAll(renderDate, data);
  }
}
