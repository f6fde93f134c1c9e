/** The create/edit form: initialisation from a customer, the submit guard and the save button. */
module EditModal {
  import opened Wrappers
  import opened Text
  import opened Customers

  /** The form's three inputs, also the draft handed to `onSave`. */
  datatype FormData = FormData(name: string, country: string, gender: string)

  /** All three inputs are filled in. */
  predicate Complete(f: FormData) {
    f.name != "" && f.country != "" && f.gender != ""
  }

  /** The form state when the modal opens: the customer's fields, each `''` when missing; all `''` with no customer. */
  function InitForm(customer: Option<Customer>): (f: FormData)
    ensures customer.None? ==> f == FormData("", "", "")
    ensures customer.Some? ==>
      && (Truthy(customer.value.name) ==> f.name == customer.value.name.value)
      && (Truthy(customer.value.country) ==> f.country == customer.value.country.value)
      && (Truthy(customer.value.gender) ==> f.gender == customer.value.gender.value)
    ensures customer.Some? ==>
      && (f.name == "" <==> !Truthy(customer.value.name))
      && (f.country == "" <==> !Truthy(customer.value.country))
      && (f.gender == "" <==> !Truthy(customer.value.gender))
  {
    match customer
    case Some(c) => FormData(Or(c.name, ""), Or(c.country, ""), Or(c.gender, ""))
    case None => FormData("", "", "")
  }

  /** `handleSubmit`: the draft passed to `onSave`, unchanged, or nothing when a field is empty. */
  function HandleSubmit(f: FormData): (r: Option<FormData>)
    ensures r.Some? <==> Complete(f)
    ensures r.Some? ==> r.value == f
  {
    if f.name != "" && f.country != "" && f.gender != "" then Some(f) else None
  }

  /** The save button's `disabled` attribute. */
  function SaveDisabled(f: FormData, saving: bool): (r: bool)
    ensures r <==> !Complete(f) || saving
  {
    f.name == "" || f.country == "" || f.gender == "" || saving
  }

  /** An enabled save button always submits; outside a save, the button is disabled exactly when submitting would do nothing. */
  lemma SaveButtonAgreesWithSubmit(f: FormData, saving: bool)
    ensures !SaveDisabled(f, saving) ==> HandleSubmit(f) == Some(f)
    ensures SaveDisabled(f, false) <==> HandleSubmit(f).None?
  {
  }

  /** A new form cannot be submitted until every field is filled in. */
  lemma BlankFormCannotSubmit()
    ensures HandleSubmit(InitForm(None)) == None
    ensures SaveDisabled(InitForm(None), false)
  {
  }

  /** An edit form can be submitted unchanged exactly when the customer has all three fields. */
  lemma EditFormSubmittable(c: Customer)
    ensures HandleSubmit(InitForm(Some(c))).Some? <==> Truthy(c.name) && Truthy(c.country) && Truthy(c.gender)
  {
  }
}
