/**
 * The application's state transitions: opening the modal for create or edit,
 * closing it, and reconciling the record collection after a save.
 */
module App {
  import opened Wrappers
  import opened Text
  import opened Customers
  import opened EditModal
  import opened TaxTable

  /** The state `App` keeps (loading flags and the country list are not modelled). */
  datatype AppState = AppState(
    records: seq<Customer>,
    editing: Option<Customer>,
    modalOpen: bool,
    saving: bool,
    creatingNew: bool,
    error: Option<string>)

  // ------------------------------------------------------------ modal mode

  /** `handleEdit(customer)`: edit mode with that customer, modal open. */
  function HandleEdit(s: AppState, customer: Customer): (r: AppState)
    ensures r.editing == Some(customer) && !r.creatingNew && r.modalOpen
    ensures r.records == s.records && r.saving == s.saving && r.error == s.error
  {
    s.(editing := Some(customer), creatingNew := false, modalOpen := true)
  }

  /** `handleAddNew()`: create mode with no customer, modal open. */
  function HandleAddNew(s: AppState): (r: AppState)
    ensures r.editing == None && r.creatingNew && r.modalOpen
    ensures r.records == s.records && r.saving == s.saving && r.error == s.error
  {
    s.(editing := None, creatingNew := true, modalOpen := true)
  }

  /** Modal closed, nobody edited, not creating: the state after a close or a save. */
  predicate Closed(s: AppState) {
    !s.modalOpen && s.editing.None? && !s.creatingNew
  }

  /** `handleCloseModal()`: ignored while a save is in flight; otherwise closes and leaves the mode. */
  function HandleCloseModal(s: AppState): (r: AppState)
    ensures s.saving ==> r == s
    ensures !s.saving ==> Closed(r) && r.records == s.records && r.error == s.error && !r.saving
  {
    if s.saving then s
    else s.(modalOpen := false, editing := None, creatingNew := false)
  }

  // ------------------------------------------------------------- payloads

  /** The body of a create request: the draft's three fields and the given timestamp, nothing else. */
  function CreatePayload(d: FormData, now: string): (c: Customer)
    ensures c.id == None
    ensures c.name == Some(d.name) && c.country == Some(d.country) && c.gender == Some(d.gender)
    ensures c.createdAt == Some(now)
  {
    Customer(None, Some(d.name), Some(d.country), Some(d.gender), Some(now))
  }

  /** The body of an update request: `{...editingCustomer, name, country, gender}`; a missing customer spreads as `{}`. */
  function UpdatePayload(editing: Option<Customer>, d: FormData): (c: Customer)
    ensures c.id == editing.ValueOr(Blank).id
    ensures c.createdAt == editing.ValueOr(Blank).createdAt
    ensures c.name == Some(d.name) && c.country == Some(d.country) && c.gender == Some(d.gender)
  {
    editing.ValueOr(Blank).(name := Some(d.name), country := Some(d.country), gender := Some(d.gender))
  }

  /** A payload read back into the form gives the draft it was built from. */
  lemma PayloadFormRoundTrip(editing: Option<Customer>, d: FormData, now: string)
    ensures InitForm(Some(CreatePayload(d, now))) == d
    ensures InitForm(Some(UpdatePayload(editing, d))) == d
  {
  }

  /** Saving an edit form unchanged sends back the very customer that was edited, when it had all three fields. */
  lemma UnchangedEditRoundTrip(c: Customer)
    requires Truthy(c.name) && Truthy(c.country) && Truthy(c.gender)
    ensures UpdatePayload(Some(c), InitForm(Some(c))) == c
  {
  }

  // ----------------------------------------------------------- collection

  /** `prevData.map(item => item.id === id ? response : item)`. */
  function ReplaceById(s: seq<Customer>, id: Option<Id>, response: Customer): (r: seq<Customer>)
    ensures |r| == |s|
    ensures forall i :: 0 <= i < |s| && s[i].id == id ==> r[i] == response
    ensures forall i :: 0 <= i < |s| && s[i].id != id ==> r[i] == s[i]
    decreases |s|
  {
    if s == [] then []
    else [if s[0].id == id then response else s[0]] + ReplaceById(s[1..], id, response)
  }

  /** Replacing twice by the same id and response is replacing once. */
  lemma ReplaceByIdIdempotent(s: seq<Customer>, id: Option<Id>, response: Customer)
    ensures ReplaceById(ReplaceById(s, id, response), id, response) == ReplaceById(s, id, response)
  {
  }

  /** When no record carries the id, the collection is unchanged. */
  lemma ReplaceByIdAbsent(s: seq<Customer>, id: Option<Id>, response: Customer)
    requires forall i :: 0 <= i < |s| ==> s[i].id != id
    ensures ReplaceById(s, id, response) == s
  {
  }

  // ---------------------------------------------------------------- saving

  /** The request `handleSave` sends to the record store. */
  datatype SaveRequest =
    | CreateRequest(body: Customer)
    | UpdateRequest(id: Option<Id>, body: Customer)

  /** What the record store answered: the stored record, or a rejection. */
  datatype SaveOutcome = Saved(response: Customer) | SaveFailed

  /** The request sent and the state once the response has been handled. */
  datatype SaveStep = SaveStep(request: SaveRequest, after: AppState)

  /** The id an update targets: the edited customer's, absent when there is none. */
  function EditedId(s: AppState): Option<Id> {
    s.editing.ValueOr(Blank).id
  }

  /** The verb the error message uses for the current mode. */
  function Verb(creatingNew: bool): string {
    if creatingNew then "create" else "update"
  }

  /** The message shown when a save is rejected. */
  function SaveErrorMessage(creatingNew: bool): string {
    "Failed to " + Verb(creatingNew) + " customer. Please try again."
  }

  /** The message names the mode that failed, and the two messages differ. */
  lemma SaveErrorNamesMode(creatingNew: bool)
    ensures Includes(SaveErrorMessage(creatingNew), Verb(creatingNew))
    ensures SaveErrorMessage(true) != SaveErrorMessage(false)
  {
    var m := SaveErrorMessage(creatingNew);
    assert m[10..16] == Verb(creatingNew);
    assert OccursAt(m, Verb(creatingNew), 10);
    IncludesIffOccurs(m, Verb(creatingNew));
    assert SaveErrorMessage(true)[10] != SaveErrorMessage(false)[10];
  }

  /** `setSaving(true)`: the state while the request is in flight. */
  function BeginSave(s: AppState): AppState {
    s.(saving := true)
  }

  /** The request for the current mode. */
  function RequestFor(s: AppState, d: FormData, now: string): SaveRequest {
    if s.creatingNew then CreateRequest(CreatePayload(d, now))
    else
      var body := UpdatePayload(s.editing, d);
      UpdateRequest(body.id, body)
  }

  /** The `try`/`catch`: prepend on create, replace by id on update, error message on failure. */
  function ApplyOutcome(s: AppState, outcome: SaveOutcome): AppState {
    match outcome
    case SaveFailed => s.(error := Some(SaveErrorMessage(s.creatingNew)))
    case Saved(response) =>
      if s.creatingNew then s.(records := [response] + s.records)
      else s.(records := ReplaceById(s.records, EditedId(s), response))
  }

  /** The `finally`: not saving, modal closed, no customer, not creating. */
  function ResetAfterSave(s: AppState): AppState {
    s.(saving := false, modalOpen := false, editing := None, creatingNew := false)
  }

  /** `handleSave(draft)`: the request sent for the mode, and the reconciled state afterwards. */
  function HandleSave(s: AppState, d: FormData, now: string, outcome: SaveOutcome): (r: SaveStep)
    ensures r.request.CreateRequest? <==> s.creatingNew
    ensures s.creatingNew ==> r.request.body == CreatePayload(d, now)
    ensures !s.creatingNew ==> r.request.id == EditedId(s) && r.request.body == UpdatePayload(s.editing, d)
    ensures Closed(r.after) && !r.after.saving
    ensures outcome.SaveFailed? ==>
      r.after.records == s.records && r.after.error == Some(SaveErrorMessage(s.creatingNew))
    ensures outcome.Saved? ==> r.after.error == s.error
    ensures outcome.Saved? && s.creatingNew ==>
      |r.after.records| == |s.records| + 1 &&
      r.after.records[0] == outcome.response && r.after.records[1..] == s.records
    ensures outcome.Saved? && !s.creatingNew ==>
      && |r.after.records| == |s.records|
      && (forall i :: 0 <= i < |s.records| && s.records[i].id == EditedId(s) ==> r.after.records[i] == outcome.response)
      && (forall i :: 0 <= i < |s.records| && s.records[i].id != EditedId(s) ==> r.after.records[i] == s.records[i])
  {
    var inFlight := BeginSave(s);
    SaveStep(RequestFor(inFlight, d, now), ResetAfterSave(ApplyOutcome(inFlight, outcome)))
  }

  /** A close request during the save is ignored. */
  lemma CloseIgnoredWhileSaving(s: AppState)
    ensures HandleCloseModal(BeginSave(s)) == BeginSave(s)
  {
  }

  /** The create flow: add new, submit, the store's record becomes the head and the rest follows unchanged. */
  lemma CreateFlowPrepends(s: AppState, d: FormData, now: string, created: Customer)
    ensures var r := HandleSave(HandleAddNew(s), d, now, Saved(created));
      && r.request == CreateRequest(CreatePayload(d, now))
      && r.after.records == [created] + s.records
  {
  }

  /** The edit flow: edit a customer, submit; exactly the records sharing its id are replaced, in place. */
  lemma EditFlowReplaces(s: AppState, c: Customer, d: FormData, now: string, stored: Customer)
    ensures var r := HandleSave(HandleEdit(s, c), d, now, Saved(stored));
      && r.request == UpdateRequest(c.id, UpdatePayload(Some(c), d))
      && r.after.records == ReplaceById(s.records, c.id, stored)
  {
  }

  /** A failed save leaves the collection as it was, whatever the mode. */
  lemma FailedSaveKeepsRecords(s: AppState, d: FormData, now: string)
    ensures HandleSave(s, d, now, SaveFailed).after.records == s.records
    ensures HandleSave(s, d, now, SaveFailed).after.error.Some?
  {
  }

  /** The form opened from a row's edit action shows what the row showed, with `''` where the row shows "Unknown". */
  lemma EditFormMatchesRow(s: AppState, renderDate: string -> string, renderTime: string -> string, x: Customer)
    ensures var row := ProjectRow(renderDate, renderTime, x);
      var f := InitForm(HandleEdit(s, row.original).editing);
      && row.name == (if f.name == "" then "Unknown" else f.name)
      && row.country == (if f.country == "" then "Unknown" else f.country)
      && row.genderText == (if f.gender == "" then "Unknown" else f.gender)
  {
  }
}
