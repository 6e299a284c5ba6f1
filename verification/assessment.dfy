/** The assessment screen of the customer app: a loading gate that only
    opens, the choice between the non-returnable view and the return-options
    view, the return-option picker, and the record Continue writes into the
    product context. */
module Assessment {
  import opened Base
  import opened ProductContext
  import opened AssessmentApi

  datatype ReturnOption = ReturnOption(id: string, name: string, price: string)

  const ReturnOptions: seq<ReturnOption> := [
    ReturnOption("canada-post", "Canada Post Drop-off", "$19.99"),
    ReturnOption("staples", "Staples", "FREE"),
    ReturnOption("purolator", "Purolator", "FREE")
  ]

  datatype Screen = Screen(isLoading: bool, data: Option<AssessmentData>, selectedOption: Option<string>)

  const InitialScreen: Screen := Screen(true, None, None)

  /** What can happen to the screen: the fetch resolves with a value (None
      for `undefined`), the fetch rejects, the two-second timer fires, or a
      return option is tapped. */
  datatype Event =
    | FetchSucceeded(payload: Option<Json>)
    | FetchFailed
    | TimerFired
    | PickOption(id: string)

  /** One event: a settled fetch stores its payload (only when it reads as
      an assessment) and clears the loading flag, a rejection or the timer
      only clears the flag, and a tap selects an option. */
  function Step(s: Screen, e: Event): (next: Screen)
    ensures next.isLoading <==> s.isLoading && !Settles(e)
    ensures next.data == (if e.FetchSucceeded? then AsAssessment(e.payload) else s.data)
    ensures next.selectedOption == (if e.PickOption? then Some(e.id) else s.selectedOption)
  {
    match e
    case FetchSucceeded(payload) => s.(data := AsAssessment(payload), isLoading := false)
    case FetchFailed => s.(isLoading := false)
    case TimerFired => s.(isLoading := false)
    case PickOption(id) => s.(selectedOption := Some(id))
  }

  /** The screen after the events of `trace`, in order. */
  function Run(s: Screen, trace: seq<Event>): Screen
  {
    if |trace| == 0 then s else Step(Run(s, trace[..|trace| - 1]), trace[|trace| - 1])
  }

  predicate Settles(e: Event)
  {
    e.FetchSucceeded? || e.FetchFailed? || e.TimerFired?
  }

  /** The loading flag only ever falls: no event raises it again. */
  lemma LoadingOnlyFalls(s: Screen, e: Event)
    ensures Step(s, e).isLoading ==> s.isLoading
    ensures s.isLoading && !Step(s, e).isLoading <==> s.isLoading && Settles(e)
  {
  }

  /** From the initial screen, the flag is still set exactly when neither the
      fetch has settled nor the timer has fired. */
  lemma {:induction false} LoadingUntilSettled(trace: seq<Event>)
    ensures Run(InitialScreen, trace).isLoading <==> forall i :: 0 <= i < |trace| ==> !Settles(trace[i])
  {
    if |trace| > 0 {
      LoadingUntilSettled(trace[..|trace| - 1]);
      assert forall i :: 0 <= i < |trace| - 1 ==> trace[..|trace| - 1][i] == trace[i];
    }
  }

  datatype View = LoadingView | NonReturnableView | ReturnOptionsView

  predicate NonReturnable(d: AssessmentData)
  {
    d.condition == "Salvage" || !d.isEligibleToReturn
  }

  /** The view rendered for `s`. */
  function ViewOf(s: Screen): (v: View)
    ensures v == LoadingView <==> s.isLoading || s.data.None?
    ensures v == NonReturnableView ==> s.data.Some? && NonReturnable(s.data.value)
    ensures v == ReturnOptionsView ==> s.data.Some? && !NonReturnable(s.data.value)
  {
    if s.isLoading || s.data.None? then LoadingView
    else if NonReturnable(s.data.value) then NonReturnableView
    else ReturnOptionsView
  }

  /** The view choice: loading while the flag is set or no data is present;
      otherwise non-returnable exactly for a salvage grade or an ineligible
      item. */
  lemma ViewChoice(s: Screen)
    ensures ViewOf(s) == LoadingView <==> s.isLoading || s.data.None?
    ensures ViewOf(s) == NonReturnableView <==>
      !s.isLoading && s.data.Some? && (s.data.value.condition == "Salvage" || !s.data.value.isEligibleToReturn)
    ensures ViewOf(s) == ReturnOptionsView <==>
      !s.isLoading && s.data.Some? && s.data.value.condition != "Salvage" && s.data.value.isEligibleToReturn
  {
  }

  /** The repairs and return-window flags only change checklist icons: they
      never change which view is shown. */
  lemma IconsDoNotDecideView(s: Screen, noRepairsNeeded: bool, withinReturnWindow: bool)
    requires s.data.Some?
    ensures ViewOf(s) == ViewOf(s.(data := Some(s.data.value.(noRepairsNeeded := noRepairsNeeded, withinReturnWindow := withinReturnWindow))))
  {
  }

  /** The name of the first option with the given id, looked up in
      `options` as `Array.prototype.find` does. */
  function FindOption(options: seq<ReturnOption>, id: string): (name: Option<string>)
    ensures name.None? <==> forall k :: 0 <= k < |options| ==> options[k].id != id
    ensures name.Some? ==>
      exists k :: 0 <= k < |options| && options[k].id == id && options[k].name == name.value &&
        forall j :: 0 <= j < k ==> options[j].id != id
  {
    if |options| == 0 then None
    else if options[0].id == id then Some(options[0].name)
    else
      var rest := FindOption(options[1..], id);
      assert forall k :: 1 <= k < |options| ==> options[k] == options[1..][k - 1];
      if rest.Some? then
        var k :| 0 <= k < |options[1..]| && options[1..][k].id == id && options[1..][k].name == rest.value &&
          forall j :: 0 <= j < k ==> options[1..][j].id != id;
        assert options[k + 1].id == id && options[k + 1].name == rest.value;
        assert forall j :: 0 <= j < k + 1 ==> options[j].id != id;
        rest
      else
        rest
  }

  /** Continue is offered only in the return-options view, once an option has
      been picked. */
  predicate ContinueShown(s: Screen)
  {
    ViewOf(s) == ReturnOptionsView && Truthy(s.selectedOption)
  }

  /** The label of the bottom bar. */
  function SelectedLabel(s: Screen): Option<string>
  {
    match s.selectedOption
    case None => None
    case Some(id) => FindOption(ReturnOptions, id)
  }

  /** Picking any of the three options from the return-options view shows
      Continue under that option's name. */
  lemma PickShowsContinue(s: Screen, k: nat)
    requires ViewOf(s) == ReturnOptionsView
    requires k < |ReturnOptions|
    ensures ContinueShown(Step(s, PickOption(ReturnOptions[k].id)))
    ensures SelectedLabel(Step(s, PickOption(ReturnOptions[k].id))) == Some(ReturnOptions[k].name)
  {
    var opts := ReturnOptions;
    assert opts[0].id != opts[1].id && opts[0].id != opts[2].id && opts[1].id != opts[2].id;
  }

  /** Continue: without a context product nothing happens; otherwise the
      product keeps its five base fields and takes the assessment's grade,
      refund value and flags. */
  function HandleButtonClick(context: Option<Product>, d: AssessmentData): (next: Option<Product>)
    ensures context.None? ==> next.None?
    ensures context.Some? ==> next.Some?
    ensures context.Some? ==>
      && next.value.name == context.value.name
      && next.value.id == context.value.id
      && next.value.price == context.value.price
      && next.value.ordered == context.value.ordered
      && next.value.received == context.value.received
    ensures context.Some? ==>
      && next.value.condition == Some(d.condition)
      && next.value.estimatedRefundValue == Some(d.estimatedRefundValue)
      && next.value.eligibleForResale == Some(d.isEligibleToReturn)
      && next.value.repairsNeeded == Some(!d.noRepairsNeeded)
      && next.value.recommendedAction == Some("HELLO")
  {
    match context
    case None => None
    case Some(p) =>
      Some(Product(p.name, p.id, p.price, p.ordered, p.received,
        Some(d.condition), Some(d.estimatedRefundValue), Some(d.isEligibleToReturn),
        Some(!d.noRepairsNeeded), Some("HELLO")))
  }

  /** The context after a tap on Continue; the button exists only when
      `ContinueShown`, so any other tap leaves the context as it is. */
  function ContinueTapped(s: Screen, context: Option<Product>): (next: Option<Product>)
    ensures !ContinueShown(s) ==> next == context
    ensures next.Some? <==> context.Some?
    ensures ContinueShown(s) && context.Some? ==>
      next.value.name == context.value.name && next.value.condition == Some(s.data.value.condition)
  {
    if ContinueShown(s) then HandleButtonClick(context, s.data.value) else context
  }

  /** The record written by Continue says the item is eligible for resale
      and not salvage: Continue is only reachable from the return-options
      view. */
  lemma ContinueRecordIsReturnable(s: Screen, context: Option<Product>)
    requires ContinueShown(s) && context.Some?
    ensures ContinueTapped(s, context).Some?
    ensures ContinueTapped(s, context).value.eligibleForResale == Some(true)
    ensures ContinueTapped(s, context).value.condition != Some("Salvage")
  {
  }
}
