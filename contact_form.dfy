/** The lead-capture wizard of src/pages/ContactForm.tsx: an introduction
    screen, then eight fixed questions answered one at a time, each checked
    before the next one is shown, and a final submission. */
module ContactForm {
  import opened Wrappers
  import Strings
  import opened ContactFields
  import LanguageContext

  /** The eight answers the form collects. */
  datatype Field = Name | Email | Phone | Company | Service | Budget | Timeline | Message

  /** How a question is answered. */
  datatype InputKind = TextInput | EmailInput | TelInput | ServiceSelection | SelectInput | TextArea

  /** One question: its ordinal, the translation keys of its prompt and of
      its placeholder or option list, the answer it fills and whether it
      must be answered. */
  datatype Step = Step(
    id: nat,
    questionKey: string,
    field: Field,
    required: bool,
    kind: InputKind,
    placeholderKey: Option<string>,
    optionsKey: Option<string>)

  /** The question catalogue, in order; position 0 of the wizard is the
      introduction, position i in 1..8 shows Steps[i - 1]. */
  const Steps: seq<Step> := [
    Step(1, "form.steps.name", Name, true, TextInput, Some("form.placeholders.name"), None),
    Step(2, "form.steps.email", Email, true, EmailInput, Some("form.placeholders.email"), None),
    Step(3, "form.steps.phone", Phone, true, TelInput, Some("form.placeholders.phone"), None),
    Step(4, "form.steps.company", Company, false, TextInput, Some("form.placeholders.company"), None),
    Step(5, "form.steps.service", Service, true, ServiceSelection, None, Some("service")),
    Step(6, "form.steps.budget", Budget, false, SelectInput, None, Some("budget")),
    Step(7, "form.steps.timeline", Timeline, false, SelectInput, None, Some("timeline")),
    Step(8, "form.steps.message", Message, true, TextArea, Some("form.placeholders.message"), None)
  ]

  /** The position of the service multi-select. */
  const ServiceStep: nat := 5

  /** Every question fills a different answer, the ordinals run from 1 to
      8, and only company, budget and timeline may be left empty. */
  lemma StepCatalogue()
    ensures |Steps| == 8
    ensures forall i | 0 <= i < |Steps| :: Steps[i].id == i + 1
    ensures forall i, j | 0 <= i < j < |Steps| :: Steps[i].field != Steps[j].field
    ensures forall i | 0 <= i < |Steps| ::
              !Steps[i].required <==> Steps[i].field in {Company, Budget, Timeline}
    ensures Steps[ServiceStep - 1].field == Service && Steps[ServiceStep - 1].kind == ServiceSelection
  {
  }

  const AllFields: set<Field> := {Name, Email, Phone, Company, Service, Budget, Timeline, Message}

  /** An answer set holds a value for each of the eight fields. */
  predicate Complete(answers: map<Field, string>) {
    forall f: Field :: f in answers
  }

  lemma AllFieldsListed(f: Field)
    ensures f in AllFields
  {
    match f
    case Name => case Email => case Phone => case Company =>
    case Service => case Budget => case Timeline => case Message =>
  }

  /** Why an answer was refused. */
  datatype ErrorKind = Required | InvalidEmail | InvalidPhone

  /** The translation key of the message shown for a refusal; each kind
      has its own. */
  function MessageKey(kind: ErrorKind): (key: string)
    ensures |key| > 12 && key[..12] == "form.errors."
  {
    match kind
    case Required => "form.errors.required"
    case InvalidEmail => "form.errors.invalidEmail"
    case InvalidPhone => "form.errors.invalidPhone"
  }

  /** Different refusals show different messages. */
  lemma MessageKeysDistinct(a: ErrorKind, b: ErrorKind)
    requires MessageKey(a) == MessageKey(b)
    ensures a == b
  {
    var ka, kb := MessageKey(a), MessageKey(b);
    assert ka[12] == kb[12] && ka[|ka| - 1] == kb[|kb| - 1];
  }

  /** The checks run when leaving a question, in order: a required answer
      must not be empty, and a non-empty e-mail or phone answer must pass
      its validator. */
  function Check(step: Step, value: string): (error: Option<ErrorKind>)
    ensures error == Some(Required) <==> step.required && value == ""
    ensures error == Some(InvalidEmail) <==>
              !(step.required && value == "") && step.field == Email && value != "" && !ValidateEmail(value)
    ensures error == Some(InvalidPhone) <==>
              !(step.required && value == "") && step.field == Phone && value != "" && !ValidatePhone(value)
    ensures error.None? <==>
              && (step.required ==> value != "")
              && (step.field == Email && value != "" ==> ValidateEmail(value))
              && (step.field == Phone && value != "" ==> ValidatePhone(value))
  {
    if step.required && value == "" then Some(Required)
    else if step.field == Email && value != "" && !ValidateEmail(value) then Some(InvalidEmail)
    else if step.field == Phone && value != "" && !ValidatePhone(value) then Some(InvalidPhone)
    else None
  }

  /** A phone typed through the mask is refused only when fewer than ten
      digits were typed. */
  lemma MaskedPhoneCheck(typed: string)
    requires Digits(typed) != ""
    ensures Check(Steps[2], FormatPhone(typed)) == (if |Digits(typed)| >= 10 then None else Some(InvalidPhone))
  {
    var step := Steps[2];
    assert step.field == Phone && step.required;
    var masked := FormatPhone(typed);
    FormatPhoneValid(typed);
    assert Digits(masked) == Digits(typed)[..Min(11, |Digits(typed)|)];
    assert masked != "";
  }

  /** One offered service: its id and its label in each language. */
  datatype ServiceOption = ServiceOption(id: string, pt: string, en: string, es: string)

  const VisualIdentity := ServiceOption("visual-identity", "Identidade Visual", "Visual Identity", "Identidad Visual")
  const WebDevelopment := ServiceOption("web-development", "Web Development", "Web Development", "Desarrollo Web")
  const PaidTraffic := ServiceOption("traffic", "Tráfego Pago", "Paid Traffic", "Tráfico Pago")
  const CrmSales := ServiceOption("crm", "CRM & Vendas", "CRM & Sales", "CRM y Ventas")
  const AutomationAi := ServiceOption("automation", "Automação & IA", "Automation & AI", "Automatización e IA")
  const ContentProduction :=
    ServiceOption("content", "Produção de Conteúdo", "Content Production", "Producción de Contenido")

  /** The service grid, in display order. */
  const ServicesList: seq<ServiceOption> :=
    [VisualIdentity, WebDevelopment, PaidTraffic, CrmSales, AutomationAi, ContentProduction]

  /** The label shown and stored for a service: the one of the active
      language, or the Portuguese one when that is empty. */
  function ServiceLabel(option: ServiceOption, lang: LanguageContext.Language): (shown: string)
    ensures shown == option.pt || shown == option.en || shown == option.es
    ensures shown == "" ==> option.pt == ""
    ensures PlainLabels(option) ==> shown != "" && ',' !in shown
  {
    var choice := (match lang
                  case Pt => option.pt
                  case En => option.en
                  case Es => option.es);
    if choice != "" then choice else option.pt
  }

  /** The chosen services are stored as one text, joined with ", ". */
  const Separator: string := ", "

  /** A label that survives being stored: not empty and without ", ". */
  predicate StorableLabel(choice: string) {
    choice != "" && Strings.Free(choice, Separator)
  }

  /** A label without a comma cannot hold ", ". */
  lemma CommaFreeStorable(choice: string)
    requires choice != "" && ',' !in choice
    ensures StorableLabel(choice)
  {
    forall j | 0 <= j <= |choice| ensures !Strings.StartsWith(choice[j..], Separator) {
      if j < |choice| {
        assert choice[j] in choice;
        assert choice[j..][0] == choice[j];
      }
    }
  }

  /** The labels of a service contain no comma and are not empty. */
  predicate PlainLabels(option: ServiceOption) {
    && option.pt != "" && option.en != "" && option.es != ""
    && ',' !in option.pt && ',' !in option.en && ',' !in option.es
  }

  lemma VisualIdentityPlain() ensures PlainLabels(VisualIdentity) {}
  lemma WebDevelopmentPlain() ensures PlainLabels(WebDevelopment) {}
  lemma PaidTrafficPlain() ensures PlainLabels(PaidTraffic) {}
  lemma CrmSalesPlain() ensures PlainLabels(CrmSales) {}
  lemma AutomationAiPlain() ensures PlainLabels(AutomationAi) {}
  lemma ContentProductionPlain() ensures PlainLabels(ContentProduction) {}

  /** Every service label, in every language, is storable, so the round
      trips below hold for every click the grid can produce. */
  lemma ServiceLabelsStorable(lang: LanguageContext.Language, i: nat)
    requires i < |ServicesList|
    ensures StorableLabel(ServiceLabel(ServicesList[i], lang))
  {
    VisualIdentityPlain();
    WebDevelopmentPlain();
    PaidTrafficPlain();
    CrmSalesPlain();
    AutomationAiPlain();
    ContentProductionPlain();
    CommaFreeStorable(ServiceLabel(ServicesList[i], lang));
  }

  /** `value ? value.split(', ') : []` */
  function Selection(value: string): (selected: seq<string>)
    ensures selected == [] <==> value == ""
    ensures Strings.Join(selected, Separator) == value
  {
    if value == "" then [] else Strings.Split(value, Separator)
  }

  /** `selected.filter(s => s !== choice)` */
  function Without(selected: seq<string>, choice: string): (rest: seq<string>)
    ensures forall s :: s in rest <==> s in selected && s != choice
    ensures choice !in selected ==> rest == selected
  {
    if selected == [] then []
    else if selected[0] == choice then Without(selected[1..], choice)
    else [selected[0]] + Without(selected[1..], choice)
  }

  /** The list after a click on `choice`: removed if chosen, else added last. */
  function ToggledList(selected: seq<string>, choice: string): (next: seq<string>)
    ensures forall s :: s in next <==> (s in selected && s != choice) || (s == choice && choice !in selected)
  {
    if choice in selected then Without(selected, choice) else selected + [choice]
  }

  /** The stored text after a click on `choice` in the service grid. */
  function Toggled(value: string, choice: string): (stored: string)
    ensures value == "" ==> stored == choice
    ensures value != "" && choice !in Selection(value) ==> stored == value + Separator + choice
  {
    var selected := Selection(value);
    if selected != [] && choice !in selected then
      Strings.JoinSnoc(selected, choice, Separator);
      Strings.Join(ToggledList(selected, choice), Separator)
    else
      Strings.Join(ToggledList(selected, choice), Separator)
  }

  lemma SeparatorBorderFree()
    ensures Strings.BorderFree(Separator)
  {
    assert Separator[..1] == [','] && Separator[1..] == [' '];
  }

  /** The stored text of a list of storable labels reads back as that
      list; nothing chosen is stored as "". */
  lemma SelectionOfJoin(selected: seq<string>)
    requires forall i | 0 <= i < |selected| :: StorableLabel(selected[i])
    ensures Selection(Strings.Join(selected, Separator)) == selected
    ensures Strings.Join(selected, Separator) == "" <==> selected == []
  {
    if selected != [] {
      var joined := Strings.Join(selected, Separator);
      if |selected| == 1 {
        assert joined == selected[0];
      } else {
        assert joined == selected[0] + Separator + Strings.Join(selected[1..], Separator);
      }
      assert joined != "";
      SeparatorBorderFree();
      Strings.SplitJoin(selected, Separator);
    }
  }

  /** A click adds a storable label that is not chosen and removes one that
      is; the other labels stay as they were, and an empty choice is
      stored as "". */
  lemma ToggleAddsOrRemoves(selected: seq<string>, choice: string)
    requires forall i | 0 <= i < |selected| :: StorableLabel(selected[i])
    requires StorableLabel(choice)
    ensures Selection(Toggled(Strings.Join(selected, Separator), choice)) ==
            if choice in selected then Without(selected, choice) else selected + [choice]
    ensures (choice in Selection(Toggled(Strings.Join(selected, Separator), choice))) <==> choice !in selected
    ensures Toggled(Strings.Join(selected, Separator), choice) == "" <==> ToggledList(selected, choice) == []
  {
    SelectionOfJoin(selected);
    var next := ToggledList(selected, choice);
    assert forall s :: s in next ==> s in selected || s == choice;
    forall i | 0 <= i < |next| ensures StorableLabel(next[i]) {
      assert next[i] in next;
    }
    SelectionOfJoin(next);
  }

  /** Clicking twice on a label that was not chosen gives back the stored text
      exactly. */
  lemma ToggleTwiceRestores(value: string, choice: string)
    requires StorableLabel(choice) && choice !in Selection(value)
    ensures Toggled(Toggled(value, choice), choice) == value
  {
    var selected := Selection(value);
    if value == "" {
      Strings.SplitFree(choice, Separator);
      assert Toggled(value, choice) == choice;
      assert Selection(choice) == [choice];
      assert Without([choice], choice) == [];
    } else {
      Strings.JoinSnoc(selected, choice, Separator);
      var once := value + Separator + choice;
      assert Toggled(value, choice) == once;
      SeparatorBorderFree();
      Strings.SplitConcat(value, choice, Separator);
      Strings.SplitFree(choice, Separator);
      assert Selection(once) == selected + [choice];
      assert Without(selected + [choice], choice) == selected by {
        WithoutAppend(selected, [choice], choice);
        assert Without([choice], choice) == [];
      }
    }
  }

  lemma {:induction false} WithoutAppend(a: seq<string>, b: seq<string>, choice: string)
    ensures Without(a + b, choice) == Without(a, choice) + Without(b, choice)
    decreases |a|
  {
    if a == [] {
      assert a + b == b;
    } else {
      WithoutAppend(a[1..], b, choice);
      assert (a + b)[0] == a[0];
      assert (a + b)[1..] == a[1..] + b;
    }
  }

  /** What an advance did. */
  datatype Advance =
    | Opened                               // intro to the first question
    | Rejected(field: Field, error: ErrorKind) // stays; error and toast for `field`
    | Advanced                             // on to the next question
    | SubmissionStarted                    // last question passed: sending

  /** The answer the primary intake endpoint gave (a 2xx status, or a
      non-2xx status, network failure or 15-second timeout), and the same
      for the secondary endpoint, whose outcome is only logged. */
  datatype Delivery = Delivered | NotDelivered

  /** The notice shown when a submission ends. */
  datatype Notice = SuccessNotice | FailureNotice

  /** `handlePrevious`: back one question, from the first question back to
      the introduction, and nowhere from the introduction. */
  function PreviousStep(step: nat): (back: nat)
    ensures step > 0 ==> back == step - 1
    ensures step == 0 ==> back == 0
  {
    if step > 1 then step - 1 else 0
  }

  class Wizard {
    var currentStep: nat
    var formData: map<Field, string>
    var errors: map<Field, string>
    var isSubmitting: bool
    var isSubmitted: bool

    /** The step pointer stays within the introduction and the eight
        questions, every answer is present, and at most one error is shown. */
    ghost predicate Valid()
      reads this
    {
      currentStep <= |Steps| && Complete(formData) && |errors| <= 1
    }

    /** The question on screen, if any. */
    function CurrentField(): (f: Option<Field>)
      reads this
      requires Valid()
      ensures f.Some? <==> currentStep > 0
    {
      if currentStep > 0 then Some(Steps[currentStep - 1].field) else None
    }

    constructor ()
      ensures Valid()
      ensures currentStep == 0 && errors == map[] && !isSubmitting && !isSubmitted
      ensures forall f: Field :: formData[f] == ""
    {
      currentStep := 0;
      formData := map f | f in AllFields :: "";
      errors := map[];
      isSubmitting := false;
      isSubmitted := false;
      new;
      forall f: Field ensures f in formData {
        AllFieldsListed(f);
      }
    }

    /** The "next" button, disabled while sending and while a required
        question is unanswered. */
    function NextDisabled(): (disabled: bool)
      reads this
      requires Valid()
      ensures isSubmitting ==> disabled
      ensures currentStep == 0 ==> disabled == isSubmitting
      ensures !disabled && currentStep > 0 ==>
                var step := Steps[currentStep - 1];
                Check(step, formData[step.field]) != Some(Required)
      ensures currentStep > 0 ==>
                var step := Steps[currentStep - 1];
                (disabled <==> isSubmitting || Check(step, formData[step.field]) == Some(Required))
    {
      isSubmitting || (currentStep > 0 && formData[Steps[currentStep - 1].field] == "" && Steps[currentStep - 1].required)
    }

    /** `handleNext`. From the introduction it opens the first question
        without checking anything. On a question it runs the checks: a
        refusal keeps the step and the answers and leaves exactly one
        error, for this question; a pass clears every error and moves on,
        or on the last question starts the submission. */
    method HandleNext() returns (r: Advance)
      requires Valid()
      modifies this`currentStep, this`errors, this`isSubmitting
      ensures Valid()
      ensures formData == old(formData) && isSubmitted == old(isSubmitted)
      ensures old(currentStep) == 0 ==>
                r == Opened && currentStep == 1 && errors == old(errors) && isSubmitting == old(isSubmitting)
      ensures old(currentStep) > 0 ==>
                var step := Steps[old(currentStep) - 1];
                match Check(step, formData[step.field])
                case Some(e) =>
                  && r == Rejected(step.field, e) && currentStep == old(currentStep)
                  && errors == map[step.field := MessageKey(e)] && isSubmitting == old(isSubmitting)
                case None =>
                  && errors == map[]
                  && (old(currentStep) < |Steps| ==>
                        r == Advanced && currentStep == old(currentStep) + 1 && isSubmitting == old(isSubmitting))
                  && (old(currentStep) == |Steps| ==>
                        r == SubmissionStarted && currentStep == old(currentStep) && isSubmitting)
    {
      if currentStep == 0 {
        currentStep := 1;
        return Opened;
      }
      var step := Steps[currentStep - 1];
      var value := formData[step.field];
      errors := map[];
      var error := Check(step, value);
      if error.Some? {
        errors := map[step.field := MessageKey(error.value)];
        return Rejected(step.field, error.value);
      }
      errors := map[];
      if currentStep < |Steps| {
        currentStep := currentStep + 1;
        r := Advanced;
      } else {
        isSubmitting := true;
        r := SubmissionStarted;
      }
    }

    /** `handlePrevious`. */
    method HandlePrevious()
      requires Valid()
      modifies this`currentStep
      ensures Valid()
      ensures currentStep == PreviousStep(old(currentStep))
    {
      if currentStep > 1 {
        currentStep := currentStep - 1;
      } else if currentStep == 1 {
        currentStep := 0;
      }
    }

    /** `handleInputChange`: stores `value` (through the phone mask for the
        phone answer) in the given answer, or the current question's, and
        drops that answer's error; on the introduction with no answer named
        it does nothing. */
    method HandleInputChange(value: string, field: Option<Field>)
      requires Valid()
      modifies this`formData, this`errors
      ensures Valid()
      ensures var target := if field.Some? then field else old(CurrentField());
              match target
              case None => formData == old(formData) && errors == old(errors)
              case Some(f) =>
                && formData == old(formData)[f := if f == Phone then FormatPhone(value) else value]
                && errors == old(errors) - {f}
    {
      var target := if field.Some? then field else CurrentField();
      if target.None? {
        return;
      }
      var f := target.value;
      var processed := value;
      if f == Phone {
        processed := FormatPhone(value);
      }
      formData := formData[f := processed];
      if f in errors {
        errors := errors - {f};
        assert errors.Keys == old(errors).Keys - {f};
      } else {
        assert errors - {f} == errors;
      }
    }

    /** `toggleService`, shown only on the service question: a click on
        `choice` adds that label to, or removes it from, the stored text. */
    method ToggleService(choice: string)
      requires Valid() && currentStep == ServiceStep
      modifies this`formData, this`errors
      ensures Valid()
      ensures formData == old(formData)[Service := Toggled(old(formData)[Service], choice)]
      ensures errors == old(errors) - {Service}
    {
      var selected := Selection(formData[Service]);
      var next := if choice in selected then Without(selected, choice) else selected + [choice];
      HandleInputChange(Strings.Join(next, Separator), None);
    }

    /** `handleKeyDown`: Enter without Shift is a click on "next". */
    method HandleKeyDown(key: string, shiftKey: bool) returns (r: Option<Advance>)
      requires Valid()
      modifies this`currentStep, this`errors, this`isSubmitting
      ensures Valid()
      ensures formData == old(formData) && isSubmitted == old(isSubmitted)
      ensures !(key == "Enter" && !shiftKey) ==>
                r == None && currentStep == old(currentStep) && errors == old(errors) &&
                isSubmitting == old(isSubmitting)
      ensures key == "Enter" && !shiftKey && old(currentStep) == 0 ==>
                r == Some(Opened) && currentStep == 1 && errors == old(errors) && isSubmitting == old(isSubmitting)
      ensures key == "Enter" && !shiftKey && old(currentStep) > 0 ==>
                var step := Steps[old(currentStep) - 1];
                match Check(step, formData[step.field])
                case Some(e) =>
                  && r == Some(Rejected(step.field, e)) && currentStep == old(currentStep)
                  && errors == map[step.field := MessageKey(e)] && isSubmitting == old(isSubmitting)
                case None =>
                  && errors == map[]
                  && (old(currentStep) < |Steps| ==>
                        r == Some(Advanced) && currentStep == old(currentStep) + 1 && isSubmitting == old(isSubmitting))
                  && (old(currentStep) == |Steps| ==>
                        r == Some(SubmissionStarted) && currentStep == old(currentStep) && isSubmitting)
    {
      if key == "Enter" && !shiftKey {
        var advance := HandleNext();
        r := Some(advance);
      } else {
        r := None;
      }
    }

    /** The end of `handleSubmit`: only the primary endpoint decides; the
        form is marked sent on success, and the sending flag is cleared
        either way so a failed submission can be retried. */
    method CompleteSubmission(primary: Delivery, secondary: Delivery) returns (notice: Notice)
      requires Valid()
      modifies this`isSubmitting, this`isSubmitted
      ensures Valid()
      ensures !isSubmitting
      ensures isSubmitted == (old(isSubmitted) || primary == Delivered)
      ensures notice == if primary == Delivered then SuccessNotice else FailureNotice
    {
      if primary == Delivered {
        isSubmitted := true;
        notice := SuccessNotice;
      } else {
        notice := FailureNotice;
      }
      isSubmitting := false;
    }
  }
}
