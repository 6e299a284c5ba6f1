/** Properties that span screens of the customer app and the server: the
    product chosen on the selection screen flowing through the assessment,
    what the assessment screen shows with the server's mock assessment, and
    the gallery reading the assessment context. */
module ReturnFlow {
  import opened Base
  import ProductContext
  import SelectProduct
  import AssessmentApi
  import Assessment
  import AssessmentContext
  import Gallery

  /** Fetch outcomes that all deliver the as-written helper's value for the
      mock GET body. */
  ghost predicate OnlyAsWrittenFetches(trace: seq<Assessment.Event>)
  {
    forall i :: 0 <= i < |trace| && trace[i].FetchSucceeded? ==>
      trace[i].payload == AssessmentApi.FetchDataAsWritten(AssessmentApi.GetAssessmentBody())
  }

  /** With the helper as written, the assessment screen never leaves the
      loading view against the mock server, whatever the timer and the taps
      do: the data it reads is always absent. */
  lemma {:induction false} AsWrittenStaysLoading(trace: seq<Assessment.Event>)
    requires OnlyAsWrittenFetches(trace)
    ensures Assessment.Run(Assessment.InitialScreen, trace).data.None?
    ensures Assessment.ViewOf(Assessment.Run(Assessment.InitialScreen, trace)) == Assessment.LoadingView
  {
    if |trace| > 0 {
      var prefix := trace[..|trace| - 1];
      assert forall i :: 0 <= i < |prefix| ==> prefix[i] == trace[i];
      AsWrittenStaysLoading(prefix);
      AssessmentApi.FetchAsWrittenLosesAssessment();
    }
  }

  /** With the corrected helper, the mock assessment (Used-Good, refund 120,
      eligible) opens the return-options view as soon as the fetch resolves. */
  lemma CorrectedShowsReturnOptions()
    ensures var s := Assessment.Step(Assessment.InitialScreen,
        Assessment.FetchSucceeded(AssessmentApi.FetchData(AssessmentApi.GetAssessmentBody())));
      && s.data == Some(AssessmentApi.MockAssessment)
      && Assessment.ViewOf(s) == Assessment.ReturnOptionsView
  {
    AssessmentApi.FetchDeliversAssessment(AssessmentApi.MockAssessment);
  }

  /** A catalogue item chosen on the selection screen, assessed with the mock
      assessment and continued with any return option, ends up in the context
      with its own base fields and the assessment's verdict. */
  lemma SelectedProductIsEnriched(item: SelectProduct.CatalogueItem, before: Option<ProductContext.Product>, k: nat)
    requires k < |Assessment.ReturnOptions|
    ensures var ctx := SelectProduct.HandleButtonClick(Some(item), before);
      var loaded := Assessment.Step(Assessment.InitialScreen,
        Assessment.FetchSucceeded(AssessmentApi.FetchData(AssessmentApi.GetAssessmentBody())));
      var picked := Assessment.Step(loaded, Assessment.PickOption(Assessment.ReturnOptions[k].id));
      var after := Assessment.ContinueTapped(picked, ctx);
      && after.Some?
      && after.value.name == item.name && after.value.id == item.id && after.value.price == item.price
      && after.value.ordered == item.ordered && after.value.received == item.received
      && after.value.condition == Some("Used-Good")
      && after.value.estimatedRefundValue == Some(120.0)
      && after.value.eligibleForResale == Some(true)
      && after.value.repairsNeeded == Some(false)
      && after.value.recommendedAction == Some("HELLO")
  {
    CorrectedShowsReturnOptions();
    var loaded := Assessment.Step(Assessment.InitialScreen,
      Assessment.FetchSucceeded(AssessmentApi.FetchData(AssessmentApi.GetAssessmentBody())));
    Assessment.PickShowsContinue(loaded, k);
  }

  /** Clearing the context's images leaves the gallery on its message, and
      a cursor left behind by earlier browsing can point past a list refilled
      afterwards, in which case the picture's data reads "undefined". */
  lemma GalleryAfterClear(cursor: int)
    ensures Gallery.Render(AssessmentContext.RemoveImages(AssessmentContext.ImageStore(["a", "b"])).images, cursor) == Gallery.NoImages
    ensures var refilled := AssessmentContext.AddImage(AssessmentContext.RemoveImages(AssessmentContext.ImageStore(["a", "b"])), "c");
      var stale := Gallery.Next(0, 2);
      Gallery.Render(refilled.images, stale) == Gallery.Picture(Gallery.DataUrl("undefined"))
  {
  }
}
