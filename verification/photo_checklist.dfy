/** The photo checklist of the customer app's show-product screen: five
    labelled slots that turn red, yellow and green as photos are captured and
    kept, a cursor on the slot being photographed, and at most one captured
    photo waiting to be kept or retaken. Camera capture is reduced to the
    optional uri it yields. */
module PhotoChecklist {
  import opened Base
  import Upload

  datatype Status = Red | Yellow | Green

  /** One checklist slot; `caption` is the source's `label`. */
  datatype PhotoItem = PhotoItem(caption: string, uri: Option<string>, status: Status)

  /** `photos` is the checklist, `current` the cursor, `pending` the captured
      photo shown for review. */
  datatype Checklist = Checklist(photos: seq<PhotoItem>, current: nat, pending: Option<string>)

  const Labels: seq<string> := ["Top Angle", "Side Angle 1", "Side Angle 2", "Bottom", "Brand"]
  const SlotCount: nat := 5
  const LastSlot: nat := 4

  const FreshPhotos: seq<PhotoItem> := [
    PhotoItem("Top Angle", None, Yellow),
    PhotoItem("Side Angle 1", None, Red),
    PhotoItem("Side Angle 2", None, Red),
    PhotoItem("Bottom", None, Red),
    PhotoItem("Brand", None, Red)
  ]

  const Initial: Checklist := Checklist(FreshPhotos, 0, None)

  /** The shape every reachable checklist keeps: five slots with their fixed
      labels; green before the cursor, yellow or green at it (green only on
      the last slot), red after it; a
      slot holds a photo exactly when it is green, and that photo is a
      non-empty uri; a pending photo is never the empty uri. */
  ghost predicate Valid(c: Checklist)
  {
    && |c.photos| == SlotCount
    && c.current <= LastSlot
    && (forall i :: 0 <= i < SlotCount ==> c.photos[i].caption == Labels[i])
    && (forall i :: 0 <= i < c.current ==> c.photos[i].status == Green)
    && c.photos[c.current].status != Red
    && (c.photos[c.current].status == Green ==> c.current == LastSlot)
    && (forall i :: c.current < i < SlotCount ==> c.photos[i].status == Red)
    && (forall i :: 0 <= i < SlotCount ==> (c.photos[i].status == Green <==> Truthy(c.photos[i].uri)))
    && (forall i :: 0 <= i < SlotCount ==> (c.photos[i].status != Green ==> c.photos[i].uri.None?))
    && (c.pending.Some? ==> Truthy(c.pending))
  }

  /** `takePicture`: a capture that yields a non-empty uri becomes the
      pending photo; otherwise nothing changes. */
  function TakePicture(c: Checklist, captured: Option<string>): (next: Checklist)
    ensures next.photos == c.photos && next.current == c.current
    ensures next.pending == (if Truthy(captured) then captured else c.pending)
  {
    if Truthy(captured) then c.(pending := captured) else c
  }

  /** The Retake button. */
  function Retake(c: Checklist): (next: Checklist)
    ensures next.photos == c.photos && next.current == c.current && next.pending.None?
  {
    c.(pending := None)
  }

  /** The reset button. */
  function Reset(c: Checklist): (next: Checklist)
    ensures next.current == 0 && next.pending.None? && |next.photos| == SlotCount
    ensures forall i :: 0 <= i < SlotCount ==> next.photos[i].caption == Labels[i] && next.photos[i].uri.None?
    ensures next.photos[0].status == Yellow
    ensures forall i :: 0 < i < SlotCount ==> next.photos[i].status == Red
  {
    Initial
  }

  /** `useCurrentPicture`. */
  function UsePhoto(c: Checklist): (next: Checklist)
    requires c.current < |c.photos|
    ensures |next.photos| == |c.photos|
    ensures !Truthy(c.pending) ==> next == c
    ensures Truthy(c.pending) ==>
      && next.pending.None?
      && next.photos[c.current] == c.photos[c.current].(uri := c.pending, status := Green)
      && (c.current + 1 < |c.photos| ==> next.current == c.current + 1 && next.photos[next.current].status == Yellow)
      && (c.current + 1 == |c.photos| ==> next.current == c.current)
  {
    if !Truthy(c.pending) then c
    else
      var kept := c.photos[c.current := c.photos[c.current].(uri := c.pending, status := Green)];
      if c.current < |c.photos| - 1 then
        Checklist(kept[c.current + 1 := kept[c.current + 1].(status := Yellow)], c.current + 1, None)
      else
        Checklist(kept, c.current, None)
  }

  predicate AllGreen(c: Checklist)
  {
    forall i :: 0 <= i < |c.photos| ==> c.photos[i].status == Green
  }

  /** The Continue button is rendered exactly when every slot is green. */
  predicate ContinueShown(c: Checklist)
  {
    AllGreen(c)
  }

  /** The shutter belongs to the camera view, which is replaced by the review
      view while a photo is pending, and is hidden once every slot is green. */
  predicate ShutterShown(c: Checklist)
  {
    !Truthy(c.pending) && !AllGreen(c)
  }

  lemma InitialValid()
    ensures Valid(Initial)
    ensures !AllGreen(Initial) && ShutterShown(Initial)
  {
  }

  /** Keeping a pending photo: the cursor slot turns green and holds it, the
      next slot turns yellow and the cursor moves on unless the cursor is on
      the last slot, every other slot and every label is untouched, and the
      pending photo is cleared. */
  lemma UsePhotoEffect(c: Checklist)
    requires Valid(c) && Truthy(c.pending)
    ensures var n := UsePhoto(c);
      && n.photos[c.current] == PhotoItem(Labels[c.current], c.pending, Green)
      && (c.current < LastSlot ==> n.current == c.current + 1 && n.photos[c.current + 1].status == Yellow)
      && (c.current == LastSlot ==> n.current == c.current)
      && (forall i :: 0 <= i < SlotCount && i != c.current && i != c.current + 1 ==> n.photos[i] == c.photos[i])
      && (forall i :: 0 <= i < SlotCount ==> n.photos[i].caption == Labels[i])
      && n.pending.None?
  {
  }

  /** Without a pending photo, "use photo" changes nothing. */
  lemma UsePhotoWithoutPending(c: Checklist)
    requires c.current < |c.photos| && !Truthy(c.pending)
    ensures UsePhoto(c) == c
  {
  }

  lemma UsePhotoPreservesValid(c: Checklist)
    requires Valid(c)
    ensures Valid(UsePhoto(c))
  {
    if Truthy(c.pending) {
      var n := UsePhoto(c);
      UsePhotoEffect(c);
      if c.current < LastSlot {
        assert n.photos[n.current].status == Yellow;
        assert forall i :: 0 <= i < n.current ==> n.photos[i].status == Green by {
          forall i | 0 <= i < n.current ensures n.photos[i].status == Green {
            if i < c.current {
              assert n.photos[i] == c.photos[i];
            }
          }
        }
        assert forall i :: n.current < i < SlotCount ==> n.photos[i].status == Red by {
          forall i | n.current < i < SlotCount ensures n.photos[i].status == Red {
            assert n.photos[i] == c.photos[i];
          }
        }
        assert forall i :: 0 <= i < SlotCount ==> (n.photos[i].status == Green <==> Truthy(n.photos[i].uri)) by {
          forall i | 0 <= i < SlotCount ensures n.photos[i].status == Green <==> Truthy(n.photos[i].uri) {
            if i != c.current && i != c.current + 1 {
              assert n.photos[i] == c.photos[i];
            }
          }
        }
        assert forall i :: 0 <= i < SlotCount ==> (n.photos[i].status != Green ==> n.photos[i].uri.None?) by {
          forall i | 0 <= i < SlotCount ensures n.photos[i].status != Green ==> n.photos[i].uri.None? {
            if i != c.current && i != c.current + 1 {
              assert n.photos[i] == c.photos[i];
            }
          }
        }
      }
    }
  }

  /** Every action of the screen keeps the checklist valid. */
  lemma StepsPreserveValid(c: Checklist, captured: Option<string>)
    requires Valid(c)
    ensures Valid(TakePicture(c, captured))
    ensures Valid(Retake(c))
    ensures Valid(Reset(c))
    ensures Valid(UsePhoto(c))
  {
    InitialValid();
    assert Valid(Reset(c));
    var t := TakePicture(c, captured);
    assert t.photos == c.photos && t.current == c.current;
    assert Valid(t);
    var r := Retake(c);
    assert r.photos == c.photos && r.current == c.current;
    assert Valid(r);
    UsePhotoPreservesValid(c);
  }

  /** Reset restores exactly the initial checklist; Retake drops only the
      pending photo. */
  lemma ResetAndRetake(c: Checklist)
    ensures Reset(c) == Initial
    ensures Retake(c).photos == c.photos && Retake(c).current == c.current && Retake(c).pending.None?
  {
  }

  /** How many slots are done: the ones before the cursor, plus the cursor
      slot when it is green. */
  function Done(c: Checklist): nat
    requires c.current < |c.photos|
  {
    c.current + (if c.photos[c.current].status == Green then 1 else 0)
  }

  /** On a valid checklist, every slot is green exactly when all five are done,
      that is when the cursor rests on the last slot and it is green. */
  lemma AllGreenWhenDone(c: Checklist)
    requires Valid(c)
    ensures AllGreen(c) <==> Done(c) == SlotCount
    ensures AllGreen(c) <==> c.current == LastSlot && c.photos[LastSlot].status == Green
  {
  }

  /** Capturing a photo and keeping it. */
  function Capture(c: Checklist, uri: string): Checklist
    requires c.current < |c.photos|
  {
    UsePhoto(TakePicture(c, Some(uri)))
  }

  /** Capturing and keeping a photo with a non-empty uri completes exactly one
      more slot while any slot is still open. */
  lemma CaptureProgress(c: Checklist, uri: string)
    requires Valid(c) && uri != ""
    requires Done(c) < SlotCount
    ensures Valid(Capture(c, uri))
    ensures Done(Capture(c, uri)) == Done(c) + 1
  {
    var t := TakePicture(c, Some(uri));
    StepsPreserveValid(c, Some(uri));
    UsePhotoPreservesValid(t);
    UsePhotoEffect(t);
  }

  /** Capturing and keeping each photo of `uris` in turn. */
  function CaptureAll(c: Checklist, uris: seq<string>): Checklist
    requires Valid(c)
    decreases |uris|
  {
    if |uris| == 0 then c
    else
      StepsPreserveValid(c, Some(uris[0]));
      UsePhotoPreservesValid(TakePicture(c, Some(uris[0])));
      CaptureAll(Capture(c, uris[0]), uris[1..])
  }

  lemma {:induction false} CaptureAllProgress(c: Checklist, uris: seq<string>)
    requires Valid(c)
    requires Done(c) + |uris| <= SlotCount
    requires forall k :: 0 <= k < |uris| ==> uris[k] != ""
    ensures Valid(CaptureAll(c, uris))
    ensures Done(CaptureAll(c, uris)) == Done(c) + |uris|
    decreases |uris|
  {
    if |uris| > 0 {
      CaptureProgress(c, uris[0]);
      CaptureAllProgress(Capture(c, uris[0]), uris[1..]);
    }
  }

  /** Five captured and kept photos from the initial checklist turn every slot
      green: the shutter disappears and Continue appears. */
  lemma FiveCapturesComplete(uris: seq<string>)
    requires |uris| == SlotCount
    requires forall k :: 0 <= k < |uris| ==> uris[k] != ""
    ensures AllGreen(CaptureAll(Initial, uris))
    ensures ContinueShown(CaptureAll(Initial, uris)) && !ShutterShown(CaptureAll(Initial, uris))
  {
    InitialValid();
    CaptureAllProgress(Initial, uris);
    AllGreenWhenDone(CaptureAll(Initial, uris));
  }

  datatype FormPart = FormPart(name: string, uri: string)

  /** The `photos` parts `handleSubmit` appends for the first `n` slots: one
      per slot holding a (truthy) uri, named after the slot's 1-based position. */
  function FormParts(photos: seq<PhotoItem>, n: nat): (parts: seq<FormPart>)
    requires n <= |photos|
    ensures |parts| <= n
    ensures forall k :: 0 <= k < |parts| ==> parts[k].uri != ""
  {
    if n == 0 then []
    else
      var p := photos[n - 1];
      FormParts(photos, n - 1) + (if Truthy(p.uri) then [FormPart(Upload.PhotoName(n), p.uri.value)] else [])
  }

  lemma {:induction false} FormPartsAllGreen(c: Checklist, n: nat)
    requires Valid(c) && AllGreen(c) && n <= SlotCount
    ensures |FormParts(c.photos, n)| == n
    ensures forall k :: 0 <= k < n ==>
      FormParts(c.photos, n)[k] == FormPart(Upload.PhotoName(k + 1), c.photos[k].uri.value)
  {
    if n > 0 {
      FormPartsAllGreen(c, n - 1);
    }
  }

  function PartNames(parts: seq<FormPart>): seq<string>
  {
    seq(|parts|, k requires 0 <= k < |parts| => parts[k].name)
  }

  /** A complete checklist is submitted as five parts named photo_1.jpg ..
      photo_5.jpg carrying the five kept photos in slot order, and the
      server's upload route accepts every one of those names, so it answers
      200 unless one of its own calls fails. */
  lemma SubmitAccepted(c: Checklist)
    requires Valid(c) && AllGreen(c)
    ensures |FormParts(c.photos, SlotCount)| == SlotCount
    ensures forall k :: 0 <= k < SlotCount ==>
      FormParts(c.photos, SlotCount)[k].name == Upload.PhotoName(k + 1)
      && Some(FormParts(c.photos, SlotCount)[k].uri) == c.photos[k].uri
    ensures Upload.ConditionGradingRoute(PartNames(FormParts(c.photos, SlotCount)), Upload.NoFault).status == 200
  {
    FormPartsAllGreen(c, SlotCount);
    var names := PartNames(FormParts(c.photos, SlotCount));
    forall i | 0 <= i < |names| ensures Upload.AllowedFile(names[i]) {
      Upload.PhotoNameAllowed(i + 1);
    }
  }
}
