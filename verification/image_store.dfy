/** The customer app's assessment context: the list of base64 images
    received for the current assessment, which can only be appended to or
    emptied, and the hook that refuses to run outside its provider. */
module AssessmentContext {
  import opened Base

  datatype ImageStore = ImageStore(images: seq<string>)

  const EmptyStore: ImageStore := ImageStore([])

  /** `addImage`: appends one base64 image. */
  function AddImage(s: ImageStore, base64: string): (next: ImageStore)
    ensures |next.images| == |s.images| + 1
    ensures next.images[|s.images|] == base64
    ensures next.images[..|s.images|] == s.images
  {
    ImageStore(s.images + [base64])
  }

  /** Empties the whole list (whatever its comment says about one index). */
  function RemoveImages(s: ImageStore): (next: ImageStore)
    ensures next.images == []
  {
    EmptyStore
  }

  const MissingProviderMessage: string := "useAssessmntContext must be used within a AssessmentContextProvider"

  /** `useAssessmentContext`: the store of the enclosing provider, or the
      error it throws when there is none. */
  function UseAssessmentContext(provided: Option<ImageStore>): (r: Result<ImageStore, string>)
    ensures r.Err? <==> provided.None?
    ensures r.Err? ==> r.error == MissingProviderMessage
    ensures r.Ok? ==> r.value == provided.value
  {
    match provided
    case None => Err(MissingProviderMessage)
    case Some(s) => Ok(s)
  }

  /** Two appends keep their order: the list ends with the first image and
      then the second. */
  lemma AddImagesInOrder(s: ImageStore, a: string, b: string)
    ensures AddImage(AddImage(s, a), b).images == s.images + [a, b]
  {
    var once := AddImage(s, a);
    assert once.images == s.images + [a];
    var twice := AddImage(once, b);
    assert twice.images == once.images + [b];
  }

  /** Clearing leaves nothing, and clearing twice is clearing once. */
  lemma RemoveImagesIdempotent(s: ImageStore)
    ensures RemoveImages(s).images == []
    ensures RemoveImages(RemoveImages(s)) == RemoveImages(s)
  {
  }

  datatype Op = Add(base64: string) | Clear

  function Apply(s: ImageStore, op: Op): ImageStore
  {
    match op
    case Add(x) => AddImage(s, x)
    case Clear => RemoveImages(s)
  }

  function Run(s: ImageStore, ops: seq<Op>): ImageStore
  {
    if |ops| == 0 then s else Apply(Run(s, ops[..|ops| - 1]), ops[|ops| - 1])
  }

  /** The images added after the last clear, in the order they were added. */
  function AddedSinceClear(ops: seq<Op>): seq<string>
  {
    if |ops| == 0 then []
    else if ops[|ops| - 1].Clear? then []
    else AddedSinceClear(ops[..|ops| - 1]) + [ops[|ops| - 1].base64]
  }

  /** From the empty store, the list always holds exactly the images added
      since the last clear, in order. */
  lemma {:induction false} RunHoldsAddedSinceClear(ops: seq<Op>)
    ensures Run(EmptyStore, ops).images == AddedSinceClear(ops)
  {
    if |ops| > 0 {
      RunHoldsAddedSinceClear(ops[..|ops| - 1]);
    }
  }

  /** Without a clear, the list is the sequence of added images. */
  lemma {:induction false} AddsOnly(ops: seq<Op>)
    requires forall i :: 0 <= i < |ops| ==> ops[i].Add?
    ensures Run(EmptyStore, ops).images == seq(|ops|, i requires 0 <= i < |ops| => ops[i].base64)
  {
    RunHoldsAddedSinceClear(ops);
    AddedSinceClearOfAdds(ops);
  }

  /** The same by the position of the last clear: when `ops[k]` is a clear
      and only adds follow it, the list holds exactly the images of those
      adds, in order, whatever it held before. */
  lemma {:induction false} RunAfterLastClear(s: ImageStore, ops: seq<Op>, k: nat)
    requires k < |ops| && ops[k].Clear?
    requires forall i :: k < i < |ops| ==> ops[i].Add?
    ensures Run(s, ops).images == seq(|ops| - k - 1, i requires 0 <= i < |ops| - k - 1 => ops[k + 1 + i].base64)
  {
    if k < |ops| - 1 {
      var init := ops[..|ops| - 1];
      assert init[k] == ops[k];
      assert forall i :: k < i < |init| ==> init[i] == ops[i];
      RunAfterLastClear(s, init, k);
    }
  }

  lemma {:induction false} AddedSinceClearOfAdds(ops: seq<Op>)
    requires forall i :: 0 <= i < |ops| ==> ops[i].Add?
    ensures AddedSinceClear(ops) == seq(|ops|, i requires 0 <= i < |ops| => ops[i].base64)
  {
    if |ops| > 0 {
      AddedSinceClearOfAdds(ops[..|ops| - 1]);
    }
  }
}
