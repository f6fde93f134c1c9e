/**
 * The table's filter engine (`filteredData`): keeps, in order, the records that
 * satisfy every non-empty criterion.
 */
module FilterEngine {
  import opened Wrappers
  import opened Text
  import opened Seqs
  import opened Customers
  import opened Formatting

  /** The four filter inputs; the empty string means "no constraint". */
  datatype Criteria = Criteria(name: string, country: string, gender: string, date: string)

  /** The keys of the criteria object. */
  datatype Field = NameField | CountryField | GenderField | DateField

  /** Every field empty: the initial state and the state after clearing. */
  const NoCriteria := Criteria("", "", "", "")

  /** `filters[field]`. */
  function Get(c: Criteria, f: Field): string {
    match f
    case NameField => c.name
    case CountryField => c.country
    case GenderField => c.gender
    case DateField => c.date
  }

  /** `hasActiveFilters`: some criterion is non-empty. */
  function HasActiveFilters(c: Criteria): (b: bool)
    ensures b <==> exists f :: Get(c, f) != ""
  {
    assert Get(c, NameField) == c.name && Get(c, CountryField) == c.country;
    assert Get(c, GenderField) == c.gender && Get(c, DateField) == c.date;
    c.name != "" || c.country != "" || c.gender != "" || c.date != ""
  }

  /** Name and country test: case-insensitive substring; a missing field fails a non-empty query. */
  predicate MatchesText(field: Option<string>, query: string) {
    query == "" || (Truthy(field) && Includes(Lower(field.value), Lower(query)))
  }

  /** Gender test: case-insensitive exact equality; a missing field fails a non-empty query. */
  predicate MatchesExact(field: Option<string>, query: string) {
    query == "" || (Truthy(field) && Lower(field.value) == Lower(query))
  }

  /** Date test: case-insensitive substring of the formatted date (so a missing timestamp is tested as the fallback). */
  predicate MatchesDate(renderDate: string -> string, createdAt: Option<string>, query: string) {
    query == "" || Includes(Lower(FormatDate(renderDate, createdAt)), Lower(query))
  }

  /** The per-record predicate of `data.filter(...)`: all four tests hold. */
  predicate Matches(renderDate: string -> string, c: Criteria, x: Customer) {
    && MatchesText(x.name, c.name)
    && MatchesText(x.country, c.country)
    && MatchesExact(x.gender, c.gender)
    && MatchesDate(renderDate, x.createdAt, c.date)
  }

  /** `Array.prototype.filter` with `Matches`. */
  function Keep(renderDate: string -> string, c: Criteria, s: seq<Customer>): (r: seq<Customer>)
    ensures |r| <= |s|
    ensures forall x :: x in r <==> x in s && Matches(renderDate, c, x)
    decreases |s|
  {
    if s == [] then []
    else (if Matches(renderDate, c, s[0]) then [s[0]] else []) + Keep(renderDate, c, s[1..])
  }

  /** `filteredData`: no data gives no rows; otherwise the matching records in their original order. */
  function FilteredData(renderDate: string -> string, c: Criteria, data: Option<seq<Customer>>): (r: seq<Customer>)
    ensures data.None? ==> r == []
    ensures data.Some? ==> IsSubsequence(r, data.value)
    ensures forall x :: x in r <==> data.Some? && x in data.value && Matches(renderDate, c, x)
    ensures data.Some? ==> forall x :: multiset(r)[x] == if Matches(renderDate, c, x) then multiset(data.value)[x] else 0
  {
    match data
    case None => []
    case Some(s) =>
      KeepIsSubsequence(renderDate, c, s);
      KeepMultiset(renderDate, c, s);
      Keep(renderDate, c, s)
  }

  /** Every occurrence of a matching record is kept, and nothing else. */
  lemma {:induction false} KeepMultiset(renderDate: string -> string, c: Criteria, s: seq<Customer>)
    ensures forall x :: multiset(Keep(renderDate, c, s))[x] == if Matches(renderDate, c, x) then multiset(s)[x] else 0
    decreases |s|
  {
    if s != [] {
      KeepMultiset(renderDate, c, s[1..]);
      assert s == [s[0]] + s[1..];
      assert multiset(s) == multiset([s[0]]) + multiset(s[1..]);
    }
  }

  /** Filtering deletes records but never reorders them. */
  lemma {:induction false} KeepIsSubsequence(renderDate: string -> string, c: Criteria, s: seq<Customer>)
    ensures IsSubsequence(Keep(renderDate, c, s), s)
    decreases |s|
  {
    if s != [] {
      var rest := Keep(renderDate, c, s[1..]);
      KeepIsSubsequence(renderDate, c, s[1..]);
      if Matches(renderDate, c, s[0]) {
        var r := [s[0]] + rest;
        assert r[0] == s[0] && r[1..] == rest;
      } else {
        assert Keep(renderDate, c, s) == rest;
      }
    }
  }

  /** Filtering a concatenation filters each part. */
  lemma {:induction false} KeepAppend(renderDate: string -> string, c: Criteria, a: seq<Customer>, b: seq<Customer>)
    ensures Keep(renderDate, c, a + b) == Keep(renderDate, c, a) + Keep(renderDate, c, b)
    decreases |a|
  {
    if a == [] {
      assert a + b == b;
    } else {
      var ab := a + b;
      assert ab[0] == a[0] && ab[1..] == a[1..] + b;
      var head := if Matches(renderDate, c, a[0]) then [a[0]] else [];
      var ra, rb := Keep(renderDate, c, a[1..]), Keep(renderDate, c, b);
      KeepAppend(renderDate, c, a[1..], b);
      calc {
        Keep(renderDate, c, ab);
        head + Keep(renderDate, c, a[1..] + b);
        head + (ra + rb);
        (head + ra) + rb;
        Keep(renderDate, c, a) + rb;
      }
    }
  }

  /** A record is kept exactly when it matches: a one-record list filters to itself or to nothing. */
  lemma KeepSingleton(renderDate: string -> string, c: Criteria, x: Customer)
    ensures Keep(renderDate, c, [x]) == if Matches(renderDate, c, x) then [x] else []
  {
  }

  /** Filtering twice with the same criteria is filtering once. */
  lemma {:induction false} KeepIdempotent(renderDate: string -> string, c: Criteria, s: seq<Customer>)
    ensures Keep(renderDate, c, Keep(renderDate, c, s)) == Keep(renderDate, c, s)
    decreases |s|
  {
    if s != [] {
      var rest := Keep(renderDate, c, s[1..]);
      KeepIdempotent(renderDate, c, s[1..]);
      if Matches(renderDate, c, s[0]) {
        KeepAppend(renderDate, c, [s[0]], rest);
        KeepSingleton(renderDate, c, s[0]);
        calc {
          Keep(renderDate, c, Keep(renderDate, c, s));
          Keep(renderDate, c, [s[0]] + rest);
          Keep(renderDate, c, [s[0]]) + Keep(renderDate, c, rest);
          [s[0]] + rest;
          Keep(renderDate, c, s);
        }
      } else {
        assert Keep(renderDate, c, s) == rest;
      }
    }
  }

  /** `filteredData` is idempotent. */
  lemma FilteredDataIdempotent(renderDate: string -> string, c: Criteria, data: Option<seq<Customer>>)
    ensures FilteredData(renderDate, c, Some(FilteredData(renderDate, c, data))) == FilteredData(renderDate, c, data)
  {
    if data.Some? {
      KeepIdempotent(renderDate, c, data.value);
    }
  }

  /** With no active criterion every record matches, so filtering is the identity. */
  lemma {:induction false} KeepInactiveIsIdentity(renderDate: string -> string, c: Criteria, s: seq<Customer>)
    requires !HasActiveFilters(c)
    ensures Keep(renderDate, c, s) == s
    decreases |s|
  {
    if s != [] {
      KeepInactiveIsIdentity(renderDate, c, s[1..]);
      assert s == [s[0]] + s[1..];
    }
  }

  /** `filteredData` with all four criteria empty returns the data unchanged. */
  lemma FilteredDataInactiveIsIdentity(renderDate: string -> string, c: Criteria, data: seq<Customer>)
    requires !HasActiveFilters(c)
    ensures FilteredData(renderDate, c, Some(data)) == data
  {
    KeepInactiveIsIdentity(renderDate, c, data);
  }

  /** The name/country test is substring search after lower-casing both sides, read through indices. */
  lemma MatchesTextIsSubstring(field: Option<string>, query: string)
    ensures MatchesText(field, query) <==>
      query == "" || (Truthy(field) && exists i :: OccursAt(Lower(field.value), Lower(query), i))
  {
    if Truthy(field) {
      IncludesIffOccurs(Lower(field.value), Lower(query));
    }
  }

  /** A missing or empty field never satisfies a non-empty criterion on that field. */
  lemma MissingFieldFailsCriterion(renderDate: string -> string, c: Criteria, x: Customer)
    ensures c.name != "" && !Truthy(x.name) ==> !Matches(renderDate, c, x)
    ensures c.country != "" && !Truthy(x.country) ==> !Matches(renderDate, c, x)
    ensures c.gender != "" && !Truthy(x.gender) ==> !Matches(renderDate, c, x)
  {
  }

  /** The tests ignore the case of the query. */
  lemma MatchesIgnoreQueryCase(field: Option<string>, query: string)
    ensures MatchesText(field, query) == MatchesText(field, Lower(query))
    ensures MatchesExact(field, query) == MatchesExact(field, Lower(query))
  {
    LowerIdempotent(query);
  }

  /** The tests ignore the case of the record's field. */
  lemma MatchesIgnoreFieldCase(field: string, query: string)
    ensures MatchesText(Some(field), query) == MatchesText(Some(Lower(field)), query)
    ensures MatchesExact(Some(field), query) == MatchesExact(Some(Lower(field)), query)
  {
    LowerIdempotent(field);
  }

  /** Gender is an exact test: "Male" keeps "male" and "MALE", drops "malee", "female" and a missing gender. */
  lemma GenderIsExactMatch()
    ensures MatchesExact(Some("male"), "Male")
    ensures MatchesExact(Some("MALE"), "Male")
    ensures !MatchesExact(Some("malee"), "Male")
    ensures !MatchesExact(Some("female"), "Male")
    ensures !MatchesExact(None, "Male")
  {
  }

  /** Name and country are substring tests: "fr" matches "France" and "Fred"; the same query on gender does not. */
  lemma NameCountryAreSubstringMatch()
    ensures MatchesText(Some("France"), "fr")
    ensures MatchesText(Some("Fred"), "fr")
    ensures MatchesText(Some("Alfred"), "FR")
    ensures !MatchesExact(Some("France"), "fr")
  {
  }

  /** A record without a timestamp is date-filtered as if it were dated "Jan 20, 2025". */
  lemma MissingDateMatchesFallback(renderDate: string -> string, createdAt: Option<string>, query: string)
    requires !Truthy(createdAt)
    ensures MatchesDate(renderDate, createdAt, query) <==> query == "" || Includes(Lower(DateFallback), Lower(query))
    ensures MatchesDate(renderDate, createdAt, "JAN 20")
  {
  }

  /** One female customer: the criterion "Female" shows her, "Male" shows nobody. */
  lemma GenderScenario(renderDate: string -> string)
    ensures var ann := Customer(Some("1"), Some("Ann"), Some("France"), Some("female"), Some("2025-01-01T00:00:00Z"));
      && FilteredData(renderDate, Criteria("", "", "Female", ""), Some([ann])) == [ann]
      && FilteredData(renderDate, Criteria("", "", "Male", ""), Some([ann])) == []
  {
  }
}
