/** The terms agreement of the customer app's payment screen: a checkbox, a
    terms modal with Agree and Close, and a Refund button enabled only under
    agreement. The card and address fields are carried but never checked. */
module PaymentBilling {
  import opened Base

  datatype Terms = Terms(agreed: bool, modalVisible: bool)

  const InitialTerms: Terms := Terms(false, false)

  /** Close stands for the header X, the Close button and a request to close
      the modal alike; TermsLink is the "terms and conditions" link. */
  datatype Event = CheckboxClicked | Agree | Close | TermsLink

  function Step(t: Terms, e: Event): (next: Terms)
    ensures next.agreed <==> e.Agree? || (t.agreed && !e.CheckboxClicked?)
    ensures next.modalVisible <==> e.TermsLink? || (e.CheckboxClicked? && (!t.agreed || t.modalVisible))
  {
    match e
    case CheckboxClicked => if !t.agreed then t.(modalVisible := true) else t.(agreed := false)
    case Agree => Terms(true, false)
    case Close => t.(modalVisible := false)
    case TermsLink => t.(modalVisible := true)
  }

  function Run(t: Terms, trace: seq<Event>): Terms
  {
    if |trace| == 0 then t else Step(Run(t, trace[..|trace| - 1]), trace[|trace| - 1])
  }

  predicate RefundEnabled(t: Terms)
  {
    t.agreed
  }

  datatype BillingForm = BillingForm(
    cardNumber: string, cardHolderName: string, expiryDate: string, cvv: string,
    address: string, city: string, postalCode: string, country: string)

  /** Pressing Refund: the disabled button does nothing; the enabled one
      navigates to the refund status page whatever the form holds. */
  function RefundPressed(t: Terms, form: BillingForm): (destination: Option<string>)
    ensures destination.Some? <==> t.agreed
    ensures destination.Some? ==> destination.value == "/refund-status"
  {
    if RefundEnabled(t) then Some("/refund-status") else None
  }

  /** The one-event behaviour: the checkbox opens the modal while not agreed
      and otherwise withdraws agreement leaving the modal alone; Agree agrees
      and hides; Close hides and keeps agreement; the link opens the modal and
      keeps agreement. */
  lemma EventEffects(t: Terms)
    ensures !t.agreed ==> Step(t, CheckboxClicked) == Terms(false, true)
    ensures t.agreed ==> Step(t, CheckboxClicked) == Terms(false, t.modalVisible)
    ensures Step(t, Agree) == Terms(true, false)
    ensures Step(t, Close) == Terms(t.agreed, false)
    ensures Step(t, TermsLink) == Terms(t.agreed, true)
  {
  }

  /** Only Agree can set the agreement. */
  lemma OnlyAgreeAgrees(t: Terms, e: Event)
    requires !t.agreed && Step(t, e).agreed
    ensures e == Agree
  {
  }

  /** The agreement stands after a trace exactly when it holds an Agree with
      no checkbox click after it. */
  ghost predicate AgreementStands(trace: seq<Event>)
  {
    exists i :: 0 <= i < |trace| && trace[i] == Agree &&
      forall j :: i < j < |trace| ==> trace[j] != CheckboxClicked
  }

  lemma {:induction false} AgreedIffAgreementStands(trace: seq<Event>)
    ensures Run(InitialTerms, trace).agreed <==> AgreementStands(trace)
  {
    if |trace| > 0 {
      var prefix := trace[..|trace| - 1];
      var last := trace[|trace| - 1];
      AgreedIffAgreementStands(prefix);
      assert forall j :: 0 <= j < |prefix| ==> prefix[j] == trace[j];
      if last == Agree {
        assert trace[|trace| - 1] == Agree;
      } else if last == CheckboxClicked {
        if AgreementStands(trace) {
          var i :| 0 <= i < |trace| && trace[i] == Agree &&
            forall j :: i < j < |trace| ==> trace[j] != CheckboxClicked;
          assert false;
        }
      } else {
        if AgreementStands(prefix) {
          var i :| 0 <= i < |prefix| && prefix[i] == Agree &&
            forall j :: i < j < |prefix| ==> prefix[j] != CheckboxClicked;
          assert trace[i] == Agree;
        }
        if AgreementStands(trace) {
          var i :| 0 <= i < |trace| && trace[i] == Agree &&
            forall j :: i < j < |trace| ==> trace[j] != CheckboxClicked;
          assert prefix[i] == Agree;
        }
      }
    }
  }

  /** Refund is enabled after a trace exactly when the agreement stands, and
      what it does never depends on the card or address fields. */
  lemma RefundGatedOnAgreement(trace: seq<Event>, form: BillingForm, other: BillingForm)
    ensures RefundPressed(Run(InitialTerms, trace), form).Some? <==> AgreementStands(trace)
    ensures RefundPressed(Run(InitialTerms, trace), form) == RefundPressed(Run(InitialTerms, trace), other)
  {
    AgreedIffAgreementStands(trace);
  }

  /** Initially nothing is agreed and the modal is hidden, so Refund is
      disabled. */
  lemma InitiallyDisabled()
    ensures !InitialTerms.agreed && !InitialTerms.modalVisible
    ensures RefundPressed(InitialTerms, BillingForm("", "", "", "", "", "", "", "")) == None
  {
  }
}
