# Customer table: filtering, view state and record reconciliation

A functional Dafny model of the logic inside a React customer-management screen:

- the table's filter engine (`filteredData` in `src/components/TaxTable.js`), which keeps, in order,
  the customer records satisfying every non-empty criterion — case-insensitive substring on name and
  country, case-insensitive exact match on gender, substring on the formatted date;
- the table's derived view state: `handleFilterChange`, `clearFilters`, `hasActiveFilters`, the
  de-duplicated country dropdown, the gender style class, the "Unknown" cell fallbacks and the
  three-way empty-state decision;
- the edit form (`src/components/EditModal.js`): initialisation from an optional customer, the submit
  guard and the save button's disabled state;
- the application's state transitions (`src/App.js`): edit/create mode, closing the modal (ignored
  while saving), and `handleSave` — the create and update request bodies, prepend on create,
  replace-by-id on update, unchanged collection plus an error message on failure, and the reset in
  `finally`.

Records are immutable datatypes whose properties are `Option<string>` (absent = `null`/`undefined`);
JavaScript truthiness of such a property is `Text.Truthy` (present and non-empty). Every operation is a
pure function from the old state to the new one; the country dropdown is a method with a loop mirroring
`new Set(...)`.

Files: `wrappers.dfy` (Option), `text.dfy` (ASCII `toLowerCase`, `includes`, truthiness, `||` fallback),
`seqs.dfy` (subsequence, no duplicates), `customers.dfy` (the record), `formatting.dfy` (date/time
fallbacks), `filter_engine.dfy`, `tax_table.dfy`, `edit_modal.dfy`, `app.dfy`.

Two behaviours of the source that the model keeps as written:

- `formatDate`/`formatTime` fall back only for a missing or empty timestamp (`src/components/TaxTable.js`
  lines 16 and 30). `new Date(...)` does not throw, so the `catch` branches at lines 24-26 and 38-40 are
  never reached, and an unparsable timestamp shows whatever the locale renderer returns. The model passes
  that renderer in as a function and fixes only the fallbacks.
- A failed save sets `error` (`src/App.js` line 101), and `App` then renders its error screen with a retry
  button in place of the table (`src/App.js` lines 137-144). The model records the error message.

## Model

| member | source | states |
|---|---|---|
| Text.IncludesIffOccurs | src/components/TaxTable.js:47-51 | `includes` as modelled holds exactly when the query occurs at some index of the text |
| Formatting.FormatDate | src/components/TaxTable.js:15-16 | a missing or empty timestamp is displayed as "Jan 20, 2025" |
| Formatting.FormatTime | src/components/TaxTable.js:29-30 | a missing or empty timestamp is displayed as "15:30 PM" |
| FilterEngine.HasActiveFilters | src/components/TaxTable.js:182 | the active-filter flag is true exactly when some one of the four criteria is non-empty |
| FilterEngine.Keep | src/components/TaxTable.js:46-61 | the filtered list is no longer than the data and contains a record iff the record is in the data and passes all four per-field tests |
| FilterEngine.KeepMultiset | src/components/TaxTable.js:46-61 | each matching record occurs in the result as often as in the data, and no other record occurs |
| FilterEngine.FilteredData | src/components/TaxTable.js:43-62 | absent data gives `[]`; otherwise the result is an order-preserving subsequence of the data in which each matching record occurs as often as in the data and no other record occurs |
| FilterEngine.KeepIsSubsequence | src/components/TaxTable.js:46-61 | filtering only deletes records, never reorders them |
| FilterEngine.KeepAppend | src/components/TaxTable.js:46-61 | filtering a concatenation is the concatenation of the filtered parts (each record is judged on its own) |
| FilterEngine.KeepSingleton | src/components/TaxTable.js:57-60 | a single record is kept iff name, country, gender and date tests all hold |
| FilterEngine.KeepIdempotent | src/components/TaxTable.js:46-61 | filtering the filtered list again with the same criteria changes nothing |
| FilterEngine.FilteredDataIdempotent | src/components/TaxTable.js:43-62 | `filteredData` applied to its own output returns that output |
| FilterEngine.KeepInactiveIsIdentity | src/components/TaxTable.js:47-60 | with all four criteria empty every record passes, so the filter returns its input |
| FilterEngine.FilteredDataInactiveIsIdentity | src/components/TaxTable.js:43-60 | with no active criterion the visible rows are the data, in order |
| FilterEngine.MatchesTextIsSubstring | src/components/TaxTable.js:47-51 | a non-empty name/country criterion holds iff the field is present and its lower-cased query occurs at some index of the lower-cased field |
| FilterEngine.MissingFieldFailsCriterion | src/components/TaxTable.js:47-55 | a record with a missing or empty name, country or gender is dropped by any non-empty criterion on that field |
| FilterEngine.MatchesIgnoreQueryCase | src/components/TaxTable.js:47-55 | the name/country and gender tests give the same answer for a query and its lower-cased form |
| FilterEngine.MatchesIgnoreFieldCase | src/components/TaxTable.js:47-55 | the tests give the same answer for a field value and its lower-cased form |
| FilterEngine.GenderIsExactMatch | src/components/TaxTable.js:53-55 | criterion "Male" keeps "male" and "MALE" but drops "malee", "female" and a missing gender |
| FilterEngine.NameCountryAreSubstringMatch | src/components/TaxTable.js:47-51 | "fr" matches "France" and "Fred", "FR" matches "Alfred", while the exact gender test rejects "fr" against "France" |
| FilterEngine.MissingDateMatchesFallback | src/components/TaxTable.js:57-58 | a record without a timestamp is date-filtered against "Jan 20, 2025", so "JAN 20" keeps it |
| FilterEngine.GenderScenario | src/components/TaxTable.js:53-55 | one female customer is shown under criterion "Female" and hidden under "Male" |
| TaxTable.HandleFilterChange | src/components/TaxTable.js:166-171 | the chosen field takes the new value and the other three criteria are unchanged |
| TaxTable.HandleFilterChangeLaws | src/components/TaxTable.js:166-171 | writing a field's current value is a no-op; a second write to the same field overrides the first |
| TaxTable.ClearFilters | src/components/TaxTable.js:173-180 | all four criteria are empty and no filter is active |
| TaxTable.ClearFiltersShowsAll | src/components/TaxTable.js:173-182 | after clearing, the visible rows are exactly the data |
| TaxTable.PresentCountries | src/components/TaxTable.js:184 | the mapped-and-filtered countries are non-empty and are exactly the truthy countries of the records |
| TaxTable.PresentCountriesAppend | src/components/TaxTable.js:184 | mapping and filtering a concatenation is the concatenation of the two results, so record order is kept |
| TaxTable.PresentCountriesSingleton | src/components/TaxTable.js:184 | one record contributes its country when truthy and nothing otherwise |
| TaxTable.SplitHead | src/components/TaxTable.js:184 | a list whose first record has a truthy country starts with that country, followed by the countries of the rest |
| TaxTable.PresentCountriesSplit | src/components/TaxTable.js:184 | the countries are those of the records before k, then record k's, then those after k |
| TaxTable.Dedup | src/components/TaxTable.js:184 | spreading a `Set` keeps exactly the same values, each once |
| TaxTable.DedupFirstOccurrenceOrder | src/components/TaxTable.js:184 | the `Set` lists values in the order of their first occurrences |
| TaxTable.UniqueCountries | src/components/TaxTable.js:184 | the result is the `Set`-deduplication of the mapped countries; the dropdown holds every non-empty country of the whole data set (independent of the criteria), no empty value, no duplicate; whenever a record carries a later entry, some earlier record carries each earlier entry (first-occurrence order over the records); absent data gives `[]` |
| TaxTable.RecordOrderFromFirstOccurrence | src/components/TaxTable.js:184 | first-occurrence order over the mapped country list is first-occurrence order over the records themselves |
| TaxTable.EarlierCountryBefore | src/components/TaxTable.js:184 | if record k carries a later dropdown entry, a record before k carries the earlier one |
| TaxTable.VisibleCountriesAreOffered | src/components/TaxTable.js:184 | the country of any visible row is offered in the dropdown, whatever the criteria |
| TaxTable.GenderClassOf | src/components/TaxTable.js:92-98 | the CSS class name is "male"/"female" exactly when the lower-cased gender equals that word, "other" otherwise (including absent) |
| TaxTable.GenderClassAgreesWithFilter | src/components/TaxTable.js:92-98 | gender criterion "Male" ("Female") keeps a record iff its tag has class male (female) |
| TaxTable.CellText | src/components/TaxTable.js:75 | a cell shows the value when present and non-empty, else "Unknown", so it is never blank |
| TaxTable.ProjectRow | src/components/TaxTable.js:64-157 | the name, gender and country cells show the record's value when present and non-empty and "Unknown" otherwise; the class follows the gender; the date cells show the rendered date and time of a present timestamp and the two fallbacks of a missing one; the edit action carries the original record |
| TaxTable.ProjectRows | src/components/TaxTable.js:327-335 | one row per visible record, row i being the projection of visible record i and editing exactly that record |
| TaxTable.ResolveEmptyState | src/components/TaxTable.js:339-361 | rows when some record is visible; "clear filters" when none is and a filter is active; "add first" when none is and no filter is active |
| TaxTable.NoRecordsMeansEmptyData | src/components/TaxTable.js:339-361 | "add first customer" appears iff the data is empty and no filter is active |
| TaxTable.ClearFiltersLeavesNoMatches | src/components/TaxTable.js:339-350 | from the no-matches state, "clear filters" shows every record, leaving rows or the "add first" state |
| EditModal.InitForm | src/components/EditModal.js:12-26 | with a customer the form holds its name, country and gender, `''` exactly when missing; with none all three are `''` |
| EditModal.HandleSubmit | src/components/EditModal.js:28-33 | `onSave` receives the unchanged form iff name, country and gender are all non-empty |
| EditModal.SaveDisabled | src/components/EditModal.js:135 | the save button is disabled iff a field is empty or a save is in progress |
| EditModal.SaveButtonAgreesWithSubmit | src/components/EditModal.js:28-33 | an enabled button always submits; outside a save, disabled exactly when submit would do nothing |
| EditModal.BlankFormCannotSubmit | src/components/EditModal.js:19-33 | a create form cannot be submitted until filled in |
| EditModal.EditFormSubmittable | src/components/EditModal.js:12-33 | an edit form can be submitted unchanged iff the customer has all three fields |
| App.HandleEdit | src/App.js:45-49 | edit mode with the given customer, modal open, collection and save flag untouched |
| App.HandleAddNew | src/App.js:51-55 | create mode with no customer, modal open, collection and save flag untouched |
| App.HandleCloseModal | src/App.js:110-116 | ignored while saving; otherwise the modal closes and the mode and customer are cleared |
| App.CreatePayload | src/App.js:63-68 | the create body has no id, the draft's three fields and the supplied timestamp |
| App.UpdatePayload | src/App.js:79-84 | the update body keeps the edited customer's id and timestamp and takes name, country and gender from the draft |
| App.PayloadFormRoundTrip | src/App.js:63-84 | reading either body back into the form gives the draft it was built from |
| App.UnchangedEditRoundTrip | src/App.js:79-84 | saving an untouched edit form of a complete customer sends that customer unchanged |
| App.ReplaceById | src/App.js:90-94 | same length; every record with the edited id becomes the response, every other record stays in place |
| App.ReplaceByIdIdempotent | src/App.js:90-94 | applying the same replacement twice equals applying it once |
| App.ReplaceByIdAbsent | src/App.js:90-94 | when no record has the id the collection is unchanged |
| App.SaveErrorNamesMode | src/App.js:99-101 | the failure message contains "create" or "update" according to the mode, and the two messages differ |
| App.HandleSave | src/App.js:57-108 | the request matches the mode; afterwards not saving, modal closed, no customer, not creating; failure keeps the collection and sets the mode's message; success prepends on create and replaces by id in place on update |
| App.CloseIgnoredWhileSaving | src/App.js:110-116 | closing while the save is in flight leaves the state unchanged |
| App.CreateFlowPrepends | src/App.js:61-75 | add-new then a successful save sends the create body and puts the stored record in front of the unchanged collection |
| App.EditFlowReplaces | src/App.js:77-94 | edit then a successful save sends the update body to the customer's id and replaces exactly the records with that id |
| App.FailedSaveKeepsRecords | src/App.js:99-101 | a rejected save, in either mode, leaves the collection unchanged and sets an error |
| App.EditFormMatchesRow | src/components/TaxTable.js:144-148 | the form opened from a row's edit action shows the row's name, country and gender, with `''` where the row shows "Unknown" |

## Left out

- `src/services/api.js`: the HTTP client (base URL, timeout, logging interceptors) is network plumbing; a save's outcome is a parameter (`App.SaveOutcome`).
- `loadData` and its `Promise.all`, loading flag and retry: asynchronous orchestration, not modelled.
- JSX rendering, react-table, `useMemo`/`useState`/`useEffect` mechanics, icons, CSS beyond the gender class, column widths, the filter-panel toggle, the active-filter tags and the "(of N)" record counter.
- Formatting.FormatDate: only the missing/empty-timestamp fallback is stated; the locale rendering of a present timestamp is a function parameter, because `toLocaleDateString` is outside the model.
- Formatting.FormatTime: only the fallback is stated, for the same reason with `toLocaleTimeString`.
- `toLowerCase` is modelled on ASCII letters only; Unicode case mapping is not modelled.
- `new Date().toISOString()` for a new record's timestamp is a parameter (`now`).
- App.UpdatePayload: a record is modelled with the five properties the application reads (id, name, country, gender, createdAt); other properties the store may return, which the spread would also preserve, are not represented.
- Record ids are strings compared with `==`; JavaScript's distinction between a numeric and a string id under `===` is not modelled.
- `handleFilterChange` is modelled for the four criteria keys only; the page never passes another key.
- Store records are assumed to hold strings or nothing in each property. Non-string values are not represented: the `typeof gender === 'string'` guard (`src/components/TaxTable.js` line 95) that gives such a gender the class `other`, and the `TypeError` that `toLowerCase` would throw on them at lines 48, 51 and 55. Nor is the distinction between `null` and `undefined`: both are `None`, although `null === undefined` is false at `src/App.js` line 92, so two absent ids compare equal in the model while in the source that holds only when both are `undefined` (or both `null`).
- `console.log` calls.
