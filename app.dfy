/**
  The App component: its state (the form record, the error map and the
  isProcessing flag), the field-change handler, validation, the WhatsApp
  deep link and the submit handler. The browser's window.open and alert
  are recorded in a ghost log of effects instead of being performed.
 */
module App {
  import opened JsString
  import opened Types
  import Message
  import Uri

  const DESTINATION_NUMBER: string := "5511936200509"

  const UrlPrefix: string := "https://wa.me/" + DESTINATION_NUMBER + "?text="

  /**
    The URL sendToWhatsApp opens: the fixed prefix, then the text through
    encodeURIComponent, which throws a URIError on an unpaired surrogate.
   */
  function WhatsAppUrl(text: JSString): (r: Result<string>)
    ensures r.Ok? <==> WellFormed(text)
  {
    Uri.EncodeURIComponentSpec(text);
    match Uri.EncodeURIComponent(text)
    case Ok(e) => Ok(UrlPrefix + e)
    case URIError => URIError
  }

  /**
    The link is the prefix followed by an escaped text (unreserved
    characters and %XY only) that decodes back to `text`, so the chat
    receives exactly the text that was composed.
   */
  lemma WhatsAppUrlCarriesText(text: JSString)
    requires WellFormed(text)
    ensures var url := WhatsAppUrl(text).value;
      && |UrlPrefix| <= |url| && url[..|UrlPrefix|] == UrlPrefix
      && Uri.IsEscaped(url[|UrlPrefix|..])
      && Uri.DecodeURIComponent(url[|UrlPrefix|..]) == Ok(text)
  {
    Uri.EncodeURIComponentSpec(text);
    var e := Uri.EncodeURIComponent(text).value;
    assert (UrlPrefix + e)[|UrlPrefix|..] == e;
  }

  // ---------------------------------------------------------------------
  // Validation

  const CompanyNameRequired: string := "Nome da empresa é obrigatório"
  const WhatsappRequired: string := "WhatsApp é obrigatório"
  const ServicesRequired: string := "Serviços são obrigatórios"

  /** The only fields validation looks at. */
  const RequiredFields: set<Field> := {CompanyName, Whatsapp, Services}

  function RequiredMessage(f: Field): string
    requires f in RequiredFields
  {
    match f
    case CompanyName => CompanyNameRequired
    case Whatsapp => WhatsappRequired
    case _ => ServicesRequired
  }

  /** The error map validate must build: one fixed message per required field that is empty or white space only. */
  function ValidationErrors(d: FormData): FormErrors {
    map f | f in RequiredFields && IsBlank(Get(d, f)) :: RequiredMessage(f)
  }

  /** One step of validate: record field `f`'s message when its value is blank. */
  function CheckField(errors: FormErrors, d: FormData, f: Field): FormErrors
    requires f in RequiredFields
  {
    if IsBlank(Get(d, f)) then errors[f := RequiredMessage(f)] else errors
  }

  /** The three checks of validate, one after another, build exactly the error map. */
  lemma ValidationErrorsStepwise(d: FormData)
    ensures ValidationErrors(d) ==
      CheckField(CheckField(CheckField(map[], d, CompanyName), d, Whatsapp), d, Services)
  {
    var e := CheckField(CheckField(CheckField(map[], d, CompanyName), d, Whatsapp), d, Services);
    assert e.Keys == ValidationErrors(d).Keys;
  }

  /** `!value.trim()`: the value is empty once white space is cut from both ends. */
  method TrimsToEmpty(value: JSString) returns (missing: bool)
    ensures missing <==> IsBlank(value)
  {
    TrimEmptyIffBlank(value);
    missing := Trim(value) == [];
  }

  /** All three required fields hold something other than white space. */
  predicate IsComplete(d: FormData) {
    !IsBlank(d.companyName) && !IsBlank(d.whatsapp) && !IsBlank(d.services)
  }

  /**
    The errors are exactly the required fields whose value trims to the
    empty string (the test validate performs), each with its own message;
    the values of the other nine fields play no part.
   */
  lemma ValidationErrorsExact(d: FormData)
    ensures forall f :: f in ValidationErrors(d) <==> f in RequiredFields && Trim(Get(d, f)) == []
    ensures forall f :: f in ValidationErrors(d) ==> ValidationErrors(d)[f] == RequiredMessage(f)
  {
    forall f ensures f in ValidationErrors(d) <==> f in RequiredFields && Trim(Get(d, f)) == [] {
      TrimEmptyIffBlank(Get(d, f));
    }
  }

  /** validate returns true exactly when all three required fields are filled in. */
  lemma ValidationPassesIffComplete(d: FormData)
    ensures ValidationErrors(d) == map[] <==> IsComplete(d)
  {
    var e := ValidationErrors(d);
    if IsComplete(d) {
      assert e.Keys == {};
    } else {
      assert e.Keys != {} by {
        if IsBlank(d.companyName) {
          assert CompanyName in e;
        } else if IsBlank(d.whatsapp) {
          assert Whatsapp in e;
        } else {
          assert Services in e;
        }
      }
    }
  }

  /** Every message is a non-empty string, so a shown error is truthy. */
  lemma RequiredMessagesNonEmpty()
    ensures forall f :: f in RequiredFields ==> RequiredMessage(f) != []
  {
    assert |CompanyNameRequired| == 29 && |WhatsappRequired| == 22 && |ServicesRequired| == 25;
  }

  /** Changing one field leaves validation of every other field as it was. */
  lemma ValidationErrorsLocal(d: FormData, name: Field, v: JSString)
    ensures forall f :: f != name ==>
      (f in ValidationErrors(d.With(name, v)) <==> f in ValidationErrors(d))
  {
  }

  // ---------------------------------------------------------------------
  // Initial state and field changes

  /** The record the form starts with: empty text, the first option of each select. */
  const InitialFormData: FormData :=
    FormData([], [], [], SERVICE_TYPES[0], [], [], [], [], [], [], LOGO_OPTIONS[0], [])

  /**
    The form starts with the ten text fields empty and each select on its
    first option, and that record fails validation with all three errors.
   */
  lemma InitialFormRejected()
    ensures forall f :: f != ServiceType && f != HasLogo ==> Get(InitialFormData, f) == []
    ensures InitialFormData.serviceType == Str("Local")
    ensures InitialFormData.hasLogo == LOGO_OPTIONS[0]
    ensures ValidationErrors(InitialFormData) ==
      map[CompanyName := CompanyNameRequired, Whatsapp := WhatsappRequired, Services := ServicesRequired]
    ensures !IsComplete(InitialFormData)
  {
    ServiceTypesDistinct();
    ValidationPassesIffComplete(InitialFormData);
  }

  /**
    handleChange's error update: the field's error is dropped when one is
    shown (the message is truthy), and no other error is added or changed.
   */
  function ClearError(errors: FormErrors, name: Field): FormErrors {
    if name in errors && errors[name] != [] then errors - {name} else errors
  }

  /** Clearing never adds or changes an error, drops at most `name`'s, and drops it when it is shown. */
  lemma ClearErrorDropsOnlyName(errors: FormErrors, name: Field)
    ensures var r := ClearError(errors, name);
      && r.Keys <= errors.Keys && errors.Keys - {name} <= r.Keys
      && (forall f :: f in r ==> r[f] == errors[f])
      && (name in errors && errors[name] != [] ==> name !in r)
      && (name in r ==> errors[name] == [])
  {
  }

  /** Every error on show is one validation reports for `d`, with the same message. */
  predicate ErrorsCurrent(errors: FormErrors, d: FormData) {
    forall f :: f in errors ==> f in ValidationErrors(d) && errors[f] == ValidationErrors(d)[f]
  }

  /**
    handleChange keeps the shown errors accurate: the error of the edited
    field goes away, and every other error still describes its unchanged field.
   */
  lemma ClearErrorKeepsCurrent(errors: FormErrors, d: FormData, name: Field, v: JSString)
    requires ErrorsCurrent(errors, d)
    ensures ErrorsCurrent(ClearError(errors, name), d.With(name, v))
  {
    ValidationErrorsLocal(d, name, v);
    RequiredMessagesNonEmpty();
    ClearErrorDropsOnlyName(errors, name);
  }

  // ---------------------------------------------------------------------
  // Submit

  /** What the page does outside its own state. */
  datatype Effect =
    | SetProcessing(on: bool)    // setIsProcessing
    | OpenWindow(url: string)    // window.open(url, '_blank')
    | Alert(message: string)   // alert(...) in the catch block

  datatype SubmitOutcome = Rejected | Dispatched | Failed

  const AlertMessage: string := "Ocorreu um erro ao processar."

  /**
    The effects of one submit, in order: nothing when validation fails;
    otherwise the flag goes up, the link is opened (or, when encoding
    throws, the alert is shown), and the flag goes down in `finally`.
   */
  function SubmitEffects(d: FormData): seq<Effect> {
    if !IsComplete(d) then []
    else [SetProcessing(true), SendEffect(Message.Compose(d)), SetProcessing(false)]
  }

  /** What sending `text` shows: the opened link, or the alert when encoding throws. */
  function SendEffect(text: JSString): Effect {
    match WhatsAppUrl(text)
    case Ok(url) => OpenWindow(url)
    case URIError => Alert(AlertMessage)
  }

  function SubmitOutcomeOf(d: FormData): SubmitOutcome {
    if !IsComplete(d) then Rejected
    else if WhatsAppUrl(Message.Compose(d)).Ok? then Dispatched
    else Failed
  }

  /** A submit that fails validation does nothing outside the error map: no link, no flag change. */
  lemma SubmitRejectsIncomplete(d: FormData)
    ensures ValidationErrors(d) != map[] <==> SubmitEffects(d) == []
    ensures ValidationErrors(d) != map[] <==> SubmitOutcomeOf(d) == Rejected
  {
    ValidationPassesIffComplete(d);
  }

  /**
    isProcessing is raised once and always lowered last, whether the link
    was opened or the failure was caught; exactly one of the two happens.
   */
  lemma ProcessingFlagResets(d: FormData)
    ensures SubmitEffects(d) != [] ==>
      && |SubmitEffects(d)| == 3
      && SubmitEffects(d)[0] == SetProcessing(true)
      && SubmitEffects(d)[2] == SetProcessing(false)
      && (SubmitEffects(d)[1].OpenWindow? || SubmitEffects(d)[1] == Alert(AlertMessage))
  {
  }

  /**
    A submit sends the message exactly when the three required fields are
    filled in and no field holds an unpaired surrogate; it ends in the
    alert exactly when the fields are filled in but one holds one.
   */
  lemma SubmitDispatchesIff(d: FormData)
    ensures SubmitOutcomeOf(d) == Dispatched <==> IsComplete(d) && forall f :: WellFormed(Get(d, f))
    ensures SubmitOutcomeOf(d) == Failed <==> IsComplete(d) && exists f :: !WellFormed(Get(d, f))
  {
    ValidationPassesIffComplete(d);
    Message.ComposeWellFormed(d);
  }

  /**
    The one link a successful submit opens is the prefix followed by an
    escaped text (unreserved characters and %XY only) that decodes to the
    composed message.
   */
  lemma DispatchedUrl(d: FormData)
    requires SubmitOutcomeOf(d) == Dispatched
    ensures SubmitEffects(d)[1].OpenWindow?
    ensures var url := SubmitEffects(d)[1].url;
      && url[..|UrlPrefix|] == UrlPrefix
      && Uri.IsEscaped(url[|UrlPrefix|..])
      && Uri.DecodeURIComponent(url[|UrlPrefix|..]) == Ok(Message.Compose(d))
  {
    WhatsAppUrlCarriesText(Message.Compose(d));
  }

  // ---------------------------------------------------------------------
  // The component's state

  class BriefingForm {
    var formData: FormData
    var errors: FormErrors
    var isProcessing: bool
    /** Flag changes, opened links and alerts, oldest first. */
    ghost var effects: seq<Effect>

    /**
      Between two events: not processing, and every error on show is one
      validation would still report for the current values.
     */
    ghost predicate Valid()
      reads this
    {
      !isProcessing && ErrorsCurrent(errors, formData)
    }

    constructor ()
      ensures Valid()
      ensures formData == InitialFormData && errors == map[] && !isProcessing && effects == []
    {
      formData := InitialFormData;
      errors := map[];
      isProcessing := false;
      effects := [];
    }

    /** handleChange: set one field, and clear its error if one is shown. */
    method HandleChange(name: Field, value: JSString)
      requires Valid()
      modifies this`formData, this`errors
      ensures Valid()
      ensures formData == old(formData).With(name, value)
      ensures errors == ClearError(old(errors), name)
    {
      var newErrors := errors;
      if name in errors && errors[name] != [] {
        newErrors := errors - {name};
      }
      assert newErrors == ClearError(errors, name);
      ClearErrorKeepsCurrent(errors, formData, name, value);
      formData, errors := formData.With(name, value), newErrors;
    }

    /** validate: rebuild the error map from scratch and report whether it is empty. */
    method Validate() returns (ok: bool)
      modifies this`errors
      ensures errors == ValidationErrors(formData)
      ensures ok <==> IsComplete(formData)
    {
      var d := formData;
      var newErrors: FormErrors := map[];
      var missing := TrimsToEmpty(d.companyName);
      if missing {
        newErrors := newErrors[CompanyName := CompanyNameRequired];
      }
      assert newErrors == CheckField(map[], d, CompanyName);
      missing := TrimsToEmpty(d.whatsapp);
      if missing {
        newErrors := newErrors[Whatsapp := WhatsappRequired];
      }
      assert newErrors == CheckField(CheckField(map[], d, CompanyName), d, Whatsapp);
      missing := TrimsToEmpty(d.services);
      if missing {
        newErrors := newErrors[Services := ServicesRequired];
      }
      ValidationErrorsStepwise(d);
      assert newErrors == ValidationErrors(d);
      errors := newErrors;
      ok := |newErrors| == 0;
      ValidationPassesIffComplete(d);
    }

    /** sendToWhatsApp: open the deep link, or throw when encoding fails. */
    method SendToWhatsApp(text: JSString) returns (thrown: bool)
      modifies this`effects
      ensures thrown <==> !WellFormed(text)
      ensures thrown <==> SendEffect(text).Alert?
      ensures effects == old(effects) + (if thrown then [] else [SendEffect(text)])
    {
      var url := WhatsAppUrl(text);
      if url.URIError? {
        return true;
      }
      effects := effects + [OpenWindow(url.value)];
      return false;
    }

    /**
      handleSubmit: validate; on success raise the flag, compose and send
      the message, show the alert if sending threw, and lower the flag.
     */
    method HandleSubmit() returns (outcome: SubmitOutcome)
      requires Valid()
      modifies this`errors, this`isProcessing, this`effects
      ensures Valid()
      ensures errors == ValidationErrors(formData)
      ensures effects == old(effects) + SubmitEffects(formData)
      ensures outcome == SubmitOutcomeOf(formData)
    {
      ghost var d := formData;
      var ok := Validate();
      if !ok {
        return Rejected;
      }
      ghost var before := effects;
      isProcessing := true;
      effects := effects + [SetProcessing(true)];
      var finalMessage := Message.Compose(formData);
      var thrown := SendToWhatsApp(finalMessage);
      if thrown {
        effects := effects + [Alert(AlertMessage)];
        outcome := Failed;
      } else {
        outcome := Dispatched;
      }
      isProcessing := false;
      effects := effects + [SetProcessing(false)];
      assert effects == before + [SetProcessing(true), SendEffect(finalMessage), SetProcessing(false)];
    }
  }
}
