/** The contact form controller: the seven field values, the hidden honeypot
    field, the per-field error map, the submitting flag and the success toast,
    and the handlers that change them. */
module ContactFormComponent {
  import opened Wrappers
  import opened JsString
  import opened FormValidation
  import opened CustomSelect

  /** `initialFormData`: every field empty. */
  const InitialFormData := ContactFormData("", "", "", "", "", "", "")

  /** The option catalogues handed to the two dropdowns. */
  const ServiceOptions: seq<SelectOption> := [
    SelectOption("Automatizacion de Procesos", "Automatización de Procesos"),
    SelectOption("Integraciones con IA", "Integraciones con IA"),
    SelectOption("Desarrollo de Software", "Desarrollo de Software"),
    SelectOption("Aun por definir", "Aún por definir")]

  const BudgetOptions: seq<SelectOption> := [
    SelectOption("$1,000-$5,000", "$1,000 - $5,000"),
    SelectOption("$5,000-$10,000", "$5,000 - $10,000"),
    SelectOption("$10,000+", "$10,000+"),
    SelectOption("Por definir", "Por definir")]

  /** Whichever option is chosen in a dropdown, that field passes its
      required check. */
  lemma CatalogueValuesPass()
    ensures forall k :: 0 <= k < |ServiceOptions| ==> ValidateRequired(ServiceOptions[k].value, "Servicio").None?
    ensures forall k :: 0 <= k < |BudgetOptions| ==> ValidateRequired(BudgetOptions[k].value, "Presupuesto").None?
  {
    forall k | 0 <= k < |ServiceOptions| ensures !AllSpace(ServiceOptions[k].value) {
      assert !IsSpace(ServiceOptions[k].value[0]);
    }
    forall k | 0 <= k < |BudgetOptions| ensures !AllSpace(BudgetOptions[k].value) {
      assert !IsSpace(BudgetOptions[k].value[0]);
    }
  }

  /** The `forEach` of the invalid-submit path: each error in turn writes its
      message under its field, so a later entry for the same field would
      overwrite an earlier one. */
  method ErrorMapFrom(errors: seq<FormFieldError>) returns (m: map<Field, string>)
    ensures forall f :: f in m <==> HasEntry(errors, f)
    ensures forall i :: 0 <= i < |errors| ==> errors[i].field in m
    ensures forall i :: 0 <= i < |errors| && (forall j :: i < j < |errors| ==> errors[j].field != errors[i].field) ==>
      m[errors[i].field] == errors[i].message
  {
    m := map[];
    var k := 0;
    while k < |errors|
      invariant 0 <= k <= |errors|
      invariant forall f :: f in m <==> HasEntry(errors[..k], f)
      invariant forall i :: 0 <= i < k ==> errors[i].field in m
      invariant forall i :: 0 <= i < k && (forall j :: i < j < k ==> errors[j].field != errors[i].field) ==>
        m[errors[i].field] == errors[i].message
    {
      m := m[errors[k].field := errors[k].message];
      k := k + 1;
    }
  }

  /** When an ordered error list reports exactly the fields a verdict
      rejects, with the verdict's messages, the map the `forEach` builds from
      it holds exactly the rejected fields, each with its message. */
  lemma ErrorMapAgrees(errors: seq<FormFieldError>, d: ContactFormData, m: map<Field, string>)
    requires ErrorsOrdered(errors)
    requires forall e :: e in errors ==> FieldError(e.field, Get(d, e.field)) == Some(e.message)
    requires forall f :: FieldError(f, Get(d, f)).Some? <==> HasEntry(errors, f)
    requires forall f :: f in m <==> HasEntry(errors, f)
    requires forall i :: 0 <= i < |errors| && (forall j :: i < j < |errors| ==> errors[j].field != errors[i].field) ==>
      m[errors[i].field] == errors[i].message
    ensures forall f :: f in m <==> FieldError(f, Get(d, f)).Some?
    ensures forall f :: f in m ==> FieldError(f, Get(d, f)) == Some(m[f])
    ensures forall e :: e in errors ==> e.field in m && m[e.field] == e.message
  {
    OrderedErrorsDistinct(errors);
    forall e | e in errors ensures e.field in m && m[e.field] == e.message {
      var i :| 0 <= i < |errors| && errors[i] == e;
    }
    forall f | f in m ensures FieldError(f, Get(d, f)) == Some(m[f]) {
      var i :| 0 <= i < |errors| && errors[i].field == f;
      assert errors[i] in errors;
    }
  }

  /** The error map the invalid-submit path builds for `d`: exactly the
      fields that fail their rule, each with its message. */
  method ErrorMapOfForm(d: ContactFormData) returns (m: map<Field, string>)
    ensures forall f :: f in m <==> FieldError(f, Get(d, f)).Some?
    ensures forall f :: f in m ==> FieldError(f, Get(d, f)) == Some(m[f])
    ensures forall e :: e in ValidateContactForm(d).errors ==> e.field in m && m[e.field] == e.message
    ensures m == map[] <==> ValidateContactForm(d).isValid
  {
    var result := ValidateContactForm(d);
    m := ErrorMapFrom(result.errors);
    ValidateContactFormErrors(d);
    ValidateContactFormValidity(d);
    ErrorMapAgrees(result.errors, d, m);
    if result.errors != [] {
      assert result.errors[0].field in m;
    }
  }

  /** An error map that agrees with the verdicts on a valid form is empty. */
  lemma NoErrorsOnValidForm(d: ContactFormData, errors: map<Field, string>)
    requires ValidateContactForm(d).isValid
    requires forall f :: f in errors ==> FieldError(f, Get(d, f)) == Some(errors[f])
    ensures errors == map[]
  {
    ValidateContactFormValidity(d);
  }

  /** The screen-reader announcement of the live region: nothing without
      errors, otherwise the count with "error" in the singular for one and
      "errores" for more. */
  function LiveRegionText(count: nat): (r: Option<string>)
    ensures r.Some? <==> count > 0
    ensures count == 1 ==> r == Some("Hay 1 error en el formulario")
    ensures count > 1 ==> r == Some("Hay " + NatToString(count) + " errores en el formulario")
  {
    if count > 0 then
      var plural := if count > 1 then "es" else "";
      var text := "Hay " + NatToString(count) + " error" + plural + " en el formulario";
      assert count == 1 ==> text == "Hay 1 error en el formulario";
      assert count > 1 ==> text == "Hay " + NatToString(count) + " errores en el formulario";
      Some(text)
    else None
  }

  lemma {:induction false} SubsetSize<T>(a: set<T>, b: set<T>)
    requires a <= b
    ensures |a| <= |b|
  {
    if a != {} {
      var x :| x in a;
      SubsetSize(a - {x}, b - {x});
    }
  }

  /** An error map never names more than the seven fields. */
  lemma ErrorMapSize(m: map<Field, string>)
    ensures |m| <= 7
  {
    var all := {Nombre, Telefono, Correo, Empresa, Servicio, Presupuesto, Mensaje};
    assert m.Keys <= all by {
      forall f | f in m.Keys ensures f in all {
        match f
        case Nombre =>
        case Telefono =>
        case Correo =>
        case Empresa =>
        case Servicio =>
        case Presupuesto =>
        case Mensaje =>
      }
    }
    SubsetSize(m.Keys, all);
  }

  class ContactForm {
    var formData: ContactFormData
    var honeypot: string
    var errors: map<Field, string>
    var isSubmitting: bool
    var showToast: bool
    /** Submission timers scheduled and not yet fired. */
    var pendingCompletions: nat
    /** Whether the caller supplied `onSuccess`. */
    const hasOnSuccess: bool
    /** How many times `onSuccess` has been called. */
    ghost var successCalls: nat

    /** Every error shown is the current verdict on the field's current value,
        and the submitting flag is only up while a completion is pending. */
    ghost predicate Valid()
      reads this
    {
      && (forall f :: f in errors ==> FieldError(f, Get(formData, f)) == Some(errors[f]))
      && (isSubmitting ==> pendingCompletions > 0)
    }

    constructor (hasOnSuccess: bool)
      ensures Valid()
      ensures formData == InitialFormData && honeypot == "" && errors == map[]
      ensures !isSubmitting && !showToast && pendingCompletions == 0
      ensures this.hasOnSuccess == hasOnSuccess && successCalls == 0
    {
      formData := InitialFormData;
      honeypot := "";
      errors := map[];
      isSubmitting := false;
      showToast := false;
      pendingCompletions := 0;
      this.hasOnSuccess := hasOnSuccess;
      successCalls := 0;
    }

    /** `handleInputChange`: sets one field, drops that field's error if it
        has one, and re-validates nothing. */
    method HandleInputChange(f: Field, value: string)
      requires Valid()
      modifies this
      ensures Valid()
      ensures formData == With(old(formData), f, value)
      ensures errors == old(errors) - {f}
      ensures honeypot == old(honeypot) && isSubmitting == old(isSubmitting) && showToast == old(showToast)
      ensures pendingCompletions == old(pendingCompletions) && successCalls == old(successCalls)
    {
      FieldErrorNonEmpty(f, Get(formData, f));
      formData := With(formData, f, value);
      if f in errors && errors[f] != "" {
        errors := errors - {f};
      }
    }

    /** `handleSelectChange`: the same effect for a dropdown choice. */
    method HandleSelectChange(f: Field, value: string)
      requires Valid()
      modifies this
      ensures Valid()
      ensures formData == With(old(formData), f, value)
      ensures errors == old(errors) - {f}
      ensures honeypot == old(honeypot) && isSubmitting == old(isSubmitting) && showToast == old(showToast)
      ensures pendingCompletions == old(pendingCompletions) && successCalls == old(successCalls)
    {
      HandleInputChange(f, value);
    }

    /** `handleHoneypotChange`. */
    method HandleHoneypotChange(value: string)
      requires Valid()
      modifies this
      ensures Valid()
      ensures honeypot == value
      ensures formData == old(formData) && errors == old(errors)
      ensures isSubmitting == old(isSubmitting) && showToast == old(showToast)
      ensures pendingCompletions == old(pendingCompletions) && successCalls == old(successCalls)
    {
      honeypot := value;
    }

    /** `resetForm`. */
    method ResetForm()
      requires Valid()
      modifies this
      ensures Valid()
      ensures formData == InitialFormData && honeypot == "" && errors == map[]
      ensures isSubmitting == old(isSubmitting) && showToast == old(showToast)
      ensures pendingCompletions == old(pendingCompletions) && successCalls == old(successCalls)
    {
      formData := InitialFormData;
      honeypot := "";
      errors := map[];
    }

    /** The invalid-submit branch of `handleSubmit`: the error map becomes
        the map of the current validation result. */
    method ShowValidationErrors()
      requires Valid()
      modifies this
      ensures Valid()
      ensures errors == map[] <==> ValidateContactForm(formData).isValid
      ensures forall f :: f in errors <==> FieldError(f, Get(formData, f)).Some?
      ensures forall e :: e in ValidateContactForm(formData).errors ==> e.field in errors && errors[e.field] == e.message
      ensures formData == old(formData) && honeypot == old(honeypot)
      ensures showToast == old(showToast) && isSubmitting == old(isSubmitting)
      ensures pendingCompletions == old(pendingCompletions) && successCalls == old(successCalls)
    {
      var m := ErrorMapOfForm(formData);
      errors := m;
    }

    /** `handleSubmit`, up to the scheduling of the completion timer. */
    method HandleSubmit()
      requires Valid()
      modifies this
      ensures Valid()
      ensures successCalls == old(successCalls)
      // A bot filled the honeypot: silent success, no validation.
      ensures old(honeypot) != "" ==>
        && formData == InitialFormData && honeypot == "" && errors == map[] && showToast
        && isSubmitting == old(isSubmitting) && pendingCompletions == old(pendingCompletions)
      // Otherwise the data and the honeypot are kept and the outcome depends on validation.
      ensures old(honeypot) == "" ==> formData == old(formData) && honeypot == old(honeypot) && showToast == old(showToast)
      // Invalid data: the error map is replaced by the result's fields and messages.
      ensures old(honeypot) == "" && !ValidateContactForm(old(formData)).isValid ==>
        && isSubmitting == old(isSubmitting) && pendingCompletions == old(pendingCompletions)
        && errors != map[]
        && (forall f :: f in errors <==> FieldError(f, Get(formData, f)).Some?)
        && (forall e :: e in ValidateContactForm(formData).errors ==> e.field in errors && errors[e.field] == e.message)
      // Valid data: no error was showing; the submission is under way.
      ensures old(honeypot) == "" && ValidateContactForm(old(formData)).isValid ==>
        errors == map[] && isSubmitting && pendingCompletions == old(pendingCompletions) + 1
      // The button is disabled by a valid submission and otherwise left as it was.
      ensures SubmitDisabled() <==>
        old(SubmitDisabled()) || (old(honeypot) == "" && ValidateContactForm(old(formData)).isValid)
    {
      if honeypot != "" {
        SubmitAsBot();
      } else {
        SubmitAsPerson();
      }
    }

    /** The honeypot branch of `handleSubmit`. */
    method SubmitAsBot()
      requires Valid()
      modifies this
      ensures Valid()
      ensures formData == InitialFormData && honeypot == "" && errors == map[] && showToast
      ensures isSubmitting == old(isSubmitting) && pendingCompletions == old(pendingCompletions)
      ensures successCalls == old(successCalls)
    {
      showToast := true;
      ResetForm();
    }

    /** The rest of `handleSubmit`, for an empty honeypot. */
    method SubmitAsPerson()
      requires Valid()
      modifies this
      ensures Valid()
      ensures formData == old(formData) && honeypot == old(honeypot) && showToast == old(showToast)
      ensures successCalls == old(successCalls)
      ensures !ValidateContactForm(formData).isValid ==>
        && isSubmitting == old(isSubmitting) && pendingCompletions == old(pendingCompletions)
        && errors != map[]
        && (forall f :: f in errors <==> FieldError(f, Get(formData, f)).Some?)
        && (forall e :: e in ValidateContactForm(formData).errors ==> e.field in errors && errors[e.field] == e.message)
      ensures ValidateContactForm(formData).isValid ==>
        errors == map[] && isSubmitting && pendingCompletions == old(pendingCompletions) + 1
    {
      if ValidateContactForm(formData).isValid {
        NoErrorsOnValidForm(formData, errors);
        StartSubmission();
      } else {
        ShowValidationErrors();
      }
    }

    /** A form with no error on display enters the submitting state and
        schedules one completion. */
    method StartSubmission()
      requires Valid() && errors == map[]
      modifies this
      ensures Valid()
      ensures errors == map[] && isSubmitting && pendingCompletions == old(pendingCompletions) + 1
      ensures formData == old(formData) && honeypot == old(honeypot) && showToast == old(showToast)
      ensures successCalls == old(successCalls)
    {
      isSubmitting := true;
      pendingCompletions := pendingCompletions + 1;
    }

    /** The body of the submission timer. */
    method CompleteSubmission()
      requires Valid()
      requires pendingCompletions > 0
      modifies this
      ensures Valid()
      ensures !isSubmitting && showToast
      ensures formData == InitialFormData && honeypot == "" && errors == map[]
      ensures pendingCompletions == old(pendingCompletions) - 1
      ensures successCalls == old(successCalls) + (if hasOnSuccess then 1 else 0)
      ensures !SubmitDisabled()
    {
      isSubmitting := false;
      showToast := true;
      ResetForm();
      if hasOnSuccess {
        successCalls := successCalls + 1;
      }
      pendingCompletions := pendingCompletions - 1;
    }

    /** The toast's `onClose`. */
    method CloseToast()
      requires Valid()
      modifies this
      ensures Valid()
      ensures !showToast
      ensures formData == old(formData) && honeypot == old(honeypot) && errors == old(errors)
      ensures isSubmitting == old(isSubmitting) && pendingCompletions == old(pendingCompletions)
      ensures successCalls == old(successCalls)
    {
      showToast := false;
    }

    /** The `disabled` attribute of the submit button. */
    predicate SubmitDisabled()
      reads this
    {
      isSubmitting
    }

    /** The live region counts the fields with an error. */
    function ErrorAnnouncement(): (r: Option<string>)
      reads this
      ensures r.Some? <==> errors != map[]
      ensures |errors| == 1 ==> r == Some("Hay 1 error en el formulario")
      ensures |errors| > 1 ==> r == Some("Hay " + NatToString(|errors|) + " errores en el formulario")
    {
      LiveRegionText(|errors|)
    }
  }

  /** Typing every value of `d` into its field, starting from a form that
      shows no error. */
  method FillIn(c: ContactForm, d: ContactFormData)
    requires c.Valid() && c.errors == map[]
    modifies c
    ensures c.Valid()
    ensures c.formData == d && c.errors == map[] && c.honeypot == old(c.honeypot)
    ensures c.isSubmitting == old(c.isSubmitting) && c.showToast == old(c.showToast)
    ensures c.pendingCompletions == old(c.pendingCompletions) && c.successCalls == old(c.successCalls)
  {
    c.HandleInputChange(Nombre, d.nombre);
    c.HandleInputChange(Telefono, d.telefono);
    c.HandleInputChange(Correo, d.correo);
    c.HandleInputChange(Empresa, d.empresa);
    c.HandleSelectChange(Servicio, d.servicio);
    c.HandleSelectChange(Presupuesto, d.presupuesto);
    c.HandleInputChange(Mensaje, d.mensaje);
  }

  /** The reset-after-success journey: valid data typed into a fresh form,
      submitted, and the completion fired.  The form ends up empty with the
      toast shown and `onSuccess` run once. */
  method SubmitJourney(d: ContactFormData) returns (dataAfter: ContactFormData, toast: bool, submitting: bool)
    requires ValidateContactForm(d).isValid
    ensures dataAfter == InitialFormData && toast && !submitting
  {
    var c := new ContactForm(true);
    FillIn(c, d);
    SubmitAndComplete(c);
    dataAfter, toast, submitting := c.formData, c.showToast, c.isSubmitting;
  }

  /** Submitting valid data with nothing pending, then firing the timer. */
  method SubmitAndComplete(c: ContactForm)
    requires c.Valid() && c.honeypot == "" && c.pendingCompletions == 0
    requires ValidateContactForm(c.formData).isValid
    modifies c
    ensures c.Valid()
    ensures c.formData == InitialFormData && c.honeypot == "" && c.errors == map[]
    ensures c.showToast && !c.isSubmitting && c.pendingCompletions == 0
    ensures c.successCalls == old(c.successCalls) + (if c.hasOnSuccess then 1 else 0)
  {
    c.HandleSubmit();
    c.CompleteSubmission();
  }
}
