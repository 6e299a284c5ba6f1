# GoodToGo return flow, modelled in Dafny

GoodToGo is a return-and-resale prototype with three parts:

- a Flask server, which grades uploaded product photos and scores the risk of "wardrobing" (buy, use, return);
- a customer app, in which the customer selects a product, photographs it, sees an assessment, chooses a return option and agrees to the refund terms;
- a business app, which scans a product's QR record and proposes a resale action.

This project models the deterministic decisions of those parts as pure Dafny functions over immutable records. It proves what the code promises about them.

| file | module | models |
|---|---|---|
| base.dfy | `Base` | `Option`, `Result`, and JavaScript truthiness of an optional string |
| text.dfy | `Text` | decimal rendering of a natural number, ASCII lower-casing, first and last index of a character |
| upload.dfy | `Upload` | `allowed_file`, the photo-naming save loop and the status of `POST /api/data` |
| wardrobing.dfy | `Wardrobing` | `is_high_risk_ip` over 32-bit addresses, `preprocess_user_data`, the label rule |
| product_context.dfy | `ProductContext` | the product record kept in the customer app's context |
| select_product.dfy | `SelectProduct` | the catalogue, card highlighting, and the projection written on Continue |
| assessment_api.dfy | `AssessmentApi` | the mock assessment of `GET /api/data`, and `fetchData` as written and as corrected |
| assessment.dfy | `Assessment` | the loading gate, the view choice, the return-option picker, and the enriched record |
| photo_checklist.dfy | `PhotoChecklist` | the five-slot photo checklist of the show-product screen, and the parts it submits |
| scan_product.dfy | `ScanProduct` | handling a scanned record, action selection, and visibility rules |
| payment_billing.dfy | `PaymentBilling` | the terms-agreement state machine and the refund gate |
| image_store.dfy | `AssessmentContext` | the image list (append and clear), and the provider guard |
| gallery.dfy | `Gallery` | wrap-around browsing, and the `data:` URL shown (section 3 of RFC 2397) |
| return_flow.dfy | `ReturnFlow` | properties that span screens, including the effect of the `fetchData` finding |

Modelling conventions:

- **Screens.** Each screen is a state record with a pure transition function. A sequence of user events is folded over it by `Run`.
- **I/O.** Network results, camera captures and JSON parsing appear as optional values.
- **Amounts and ratios** are `real`.
- **IPv4 addresses** are integers below 2^32, as the address fields of section 3.1 of RFC 791 are.

## Model

| member | source | states |
|---|---|---|
| Text.LastIndexOf | server/routes.py:13 | Finds the split point of `rsplit('.', 1)`: None exactly when the character is absent; otherwise a position holding it with no occurrence after it. |
| Text.ShowNatRoundTrip | server/routes.py:63 | The decimal text that `f"{index + 1}"` prints reads back as the same number. |
| Upload.AllowedFile | server/routes.py:12-13 | An accepted name contains a '.', and the text after its last '.' is three or four characters long. |
| Upload.Extension | server/routes.py:12-13 | None exactly when the name has no '.'; otherwise the suffix after the last '.', which is itself dot-free and preceded by a '.'. |
| Upload.AllowedFileByTail | server/routes.py:8-13 | For any prefix and dot-free tail, `prefix.tail` is accepted iff the lower-cased tail is one of the allowed extensions. |
| Upload.NoDotRefused | server/routes.py:13 | A filename containing no '.' is rejected. |
| Upload.AllowedExtensionsExactly | server/routes.py:8-13 | The accepted tails are exactly jpg, jpeg, png and gif, in any letter case. |
| Upload.AllowedFileIgnoresCase | server/routes.py:13 | Lower-casing the whole filename never changes whether it is accepted. |
| Upload.NestedDotsAccepted | server/routes.py:13 | "a.b.png" is accepted, because only the text after the last dot counts. |
| Upload.BareExtensionAccepted | server/routes.py:13 | ".png" is accepted, because an empty stem is allowed. |
| Upload.ExtensionFirstRefused | server/routes.py:13 | "png.txt" is rejected. |
| Upload.UpperCaseAccepted | server/routes.py:13 | "X.JPG" is accepted. |
| Upload.TrailingDotRefused | server/routes.py:8-13 | "photo." is rejected, because the empty extension is not in the set. |
| Upload.PhotoNameAllowed | server/routes.py:62-63 | Every generated name `photo_{k}.jpg` passes the server's own filter. |
| Upload.SavedPathInjective | server/routes.py:63-64 | Two upload positions never share a saved path. |
| Upload.AcceptedPositions | server/routes.py:61-65 | Among the first n uploads, at most n positions are recorded. Each is below n and its upload passes the filter. |
| Upload.AcceptedPositionsMembers | server/routes.py:61-65 | Position i is recorded iff it is below n and its upload passes the filter. |
| Upload.AcceptedPositionsIncreasing | server/routes.py:61-65 | Recorded positions are strictly increasing and below n, so upload order is kept and nothing is renumbered. |
| Upload.AcceptedPositionsLength | server/routes.py:61-65 | At most n positions are recorded, and exactly n iff every upload is accepted. |
| Upload.SavePhotos | server/routes.py:58-67 | The loop's `filenames` is `uploads/photo_{i+1}.jpg` for each accepted 0-based position i, in order. It is no longer than the upload list, and as long iff every upload is accepted. |
| Upload.ConditionGradingRoute | server/routes.py:54-98 | The status is 200, 400 or 500. It is 400 (nothing saved, the "No photos part" message) iff there is no photos part. Otherwise the files written are a prefix of the accepted uploads' paths, in order. The prefix is shorter than all of them iff a save raises, and it then ends just before that save. The status is 200 iff every photo is accepted and nothing raises; image i is then read from the path of upload i. |
| Upload.SecondSaveRaises | server/routes.py:61-67 | With two accepted uploads and the second save raising, only uploads/photo_1.jpg is written and the answer is 500. |
| Upload.ReadBack | server/routes.py:73-74 | Reading `count` files by position fails (an index error) iff fewer than `count` paths were recorded. Otherwise file i is read from the i-th recorded path. |
| Upload.AcceptedPositionsIdentity | server/routes.py:61-74 | When every upload is accepted, the recorded positions are 0, 1, 2, …, so `filenames[index]` is upload index's file. |
| Upload.RefusedPhotoFails | server/routes.py:73-98 | Any single rejected photo sends the request to the 500 response. |
| Upload.MixedUploadFails | server/routes.py:61-98 | For ["a.jpg", "b.txt"] the first photo is saved as uploads/photo_1.jpg, and the request still ends with 500. |
| Upload.SavedPathsDistinct | server/routes.py:61-66 | Distinct accepted uploads get distinct paths, so no saved photo overwrites another. |
| Wardrobing.RiskFlag | server/wardrobing.py:24-29 | The flag is 0 or 1, and it is 1 iff some listed inclusive range contains the address. |
| Wardrobing.IsHighRiskIp | server/wardrobing.py:24-29 | The flag is 0 or 1, and it is 1 iff one of the three listed ranges contains the address. |
| Wardrobing.HighRiskIpExactly | server/wardrobing.py:15-29 | The high-risk addresses are exactly the numeric blocks of 192.168.1.0/24, 203.0.113.0/24 and 45.134.56.0/24, endpoints included. |
| Wardrobing.HighRiskIpExamples | server/wardrobing.py:15-29 | 45.134.56.0 and 203.0.113.255 are high-risk; 192.168.2.0 and 192.168.0.255 are not. |
| Wardrobing.PaymentCode | server/wardrobing.py:32-33 | The code is 0, 1 or 2. It is 1 iff the method is "paypal" and 2 iff it is "crypto"; anything else gives 0. |
| Wardrobing.PaymentCodeDefaults | server/wardrobing.py:32-33 | A missing method, "credit_card" and an unknown method all give 0. |
| Wardrobing.ReturnRate | server/wardrobing.py:35 | The rate is 0 unless productsBought > 0 and amountBought > 0. Otherwise rate · (productsBought · amountBought) = productsReturned · amountReturned. |
| Wardrobing.ReturnRateBounded | server/wardrobing.py:35 | A user who returned no more than they bought, in both counts and amounts, has a rate in [0, 1]. |
| Wardrobing.PreprocessUserData | server/wardrobing.py:31-44 | Exactly five features, in order: amountReturned; the address's risk flag, 0 or 1, and 1 iff the address is in a listed range; failed attempts; the return rate; and the method's payment code, 0, 1 or 2. |
| Wardrobing.SampleUserFeatures | server/wardrobing.py:85-94 | The module's sample user yields [10, 1, 0, 0.01, 0]. |
| Wardrobing.FraudLabel | server/wardrobing.py:63 | The label is 0 or 1. It is 0 iff amount ≤ 1000, failed attempts ≤ 3, return rate ≤ 0.7 and the IP flag is 0. |
| Wardrobing.FraudLabelThresholds | server/wardrobing.py:63 | The label is 0 or 1, and it is 1 iff amount > 1000, failed attempts > 3, return rate > 0.7, or the IP flag is set. Every threshold is strict: (1000, 3, 0.7, 0) gives 0. |
| Wardrobing.FraudLabelMonotone | server/wardrobing.py:63 | Raising any signal never turns a fraud label into a non-fraud one. |
| Wardrobing.HighRiskIpAlwaysFraud | server/wardrobing.py:63 | An address in a listed range is labelled fraud whatever the other signals are. |
| SelectProduct.HandleButtonClick | customer-frontend/app/select-product.tsx:50-62 | With nothing selected, the context is unchanged. Otherwise the context product carries exactly the selection's name, id, price, ordered and received, and no enrichment field. |
| SelectProduct.ContinueReplacesContext | customer-frontend/app/select-product.tsx:52-59 | The new context does not depend on the old one: earlier enrichment is replaced wholesale. |
| SelectProduct.ProjectionForgetsExtras | customer-frontend/app/select-product.tsx:52-59 | Items that differ only in size, colour or image project to the same product. |
| SelectProduct.CatalogueDistinct | customer-frontend/app/select-product.tsx:88-119 | The three catalogue entries have pairwise distinct names and ids. |
| SelectProduct.Highlighted | customer-frontend/app/select-product.tsx:139 | A highlighted card implies a selection, so the bottom bar is shown. |
| SelectProduct.ExactlyOneHighlighted | customer-frontend/app/select-product.tsx:128-139 | Selecting entry k highlights card k and no other card; with no selection, no card is highlighted. |
| AssessmentApi.AsAssessment | customer-frontend/app/assessment.tsx:296-298 | A payload reads as an assessment only when it is an object. Every field of the assessment read from it is present in the object with that value. |
| AssessmentApi.DecodeEncode | server/routes.py:36-44 | Reading the fields back from the serialised assessment object gives the assessment. |
| AssessmentApi.FetchAsWrittenLosesAssessment | customer-frontend/app/api/product-img/route.ts:3-12 | The GET body has no `message` key, so `fetchData` as written returns no assessment. |
| AssessmentApi.FetchDeliversAssessment | customer-frontend/app/api/product-img/route.ts:5-7 | With the corrected helper, every encoded assessment reaches the screen intact. |
| Assessment.Step | customer-frontend/app/assessment.tsx:63-87 | After one event, loading holds iff it held before and the event neither settles the fetch nor fires the timer. The data changes only on a fetch success, to what the payload reads as. The selection changes only on a tap (line 269), to the tapped id. |
| Assessment.LoadingOnlyFalls | customer-frontend/app/assessment.tsx:63-87 | No event raises the loading flag. It falls exactly on a fetch success, a fetch failure or the timer. |
| Assessment.LoadingUntilSettled | customer-frontend/app/assessment.tsx:63-87 | From the initial screen, the flag is still set iff no event so far has settled the fetch or fired the timer. |
| Assessment.ViewOf | customer-frontend/app/assessment.tsx:147-298 | The loading view is shown iff the flag is set or there is no data. The non-returnable view implies data that is salvage or ineligible; the return-options view implies data that is neither. |
| Assessment.ViewChoice | customer-frontend/app/assessment.tsx:296-298 | With the loading gate of line 147: loading iff the flag is set or there is no data; otherwise non-returnable iff the condition is "Salvage" or the item is ineligible, and return options in every other case. |
| Assessment.IconsDoNotDecideView | customer-frontend/app/assessment.tsx:296-298 | Changing noRepairsNeeded or withinReturnWindow never changes the view. |
| Assessment.FindOption | customer-frontend/app/assessment.tsx:281 | None iff no option has the id. Otherwise it is the name of the first option with that id, as `find` returns it. |
| Assessment.PickShowsContinue | customer-frontend/app/assessment.tsx:269-290 | In the return-options view, picking any of the three options shows Continue, with that option's name as the label. |
| Assessment.HandleButtonClick | customer-frontend/app/assessment.tsx:112-130 | With no context product, there is none after. Otherwise the product keeps its five base fields and takes the condition and refund value. It sets eligibleForResale to isEligibleToReturn, repairsNeeded to !noRepairsNeeded, and recommendedAction to "HELLO". |
| Assessment.ContinueTapped | customer-frontend/app/assessment.tsx:278-290 | Without the Continue button shown, the context is unchanged. A context product is present after iff it was before. Continue keeps the product's name and stores the assessed condition. |
| Assessment.ContinueRecordIsReturnable | customer-frontend/app/assessment.tsx:278-298 | Continue is only reachable in the return-options view, so the record it writes is eligible and not salvage. |
| PhotoChecklist.TakePicture | customer-frontend/app/show-product.tsx:99-104 | A capture never touches the slots or the cursor. A capture with a non-empty uri becomes the pending photo; otherwise the pending photo stays. |
| PhotoChecklist.Retake | customer-frontend/app/show-product.tsx:267 | Retake drops the pending photo and keeps the slots and the cursor. |
| PhotoChecklist.Reset | customer-frontend/app/show-product.tsx:246-256 | Reset gives five slots with the fixed labels and no photos: the first yellow and the rest red, cursor 0, nothing pending. |
| PhotoChecklist.UsePhoto | customer-frontend/app/show-product.tsx:106-136 | Without a pending photo, nothing changes. With one, the cursor slot turns green and holds it, and the pending photo is cleared. Below the last slot the cursor advances onto a yellow slot; on the last slot it stays. |
| PhotoChecklist.FormParts | customer-frontend/app/show-product.tsx:146-155 | At most one part per slot, and every part carries a non-empty uri. |
| PhotoChecklist.InitialValid | customer-frontend/app/show-product.tsx:48-58 | The initial checklist (slot 0 yellow, the rest red, cursor 0, nothing pending) satisfies the checklist invariant, and the shutter is shown. |
| PhotoChecklist.UsePhotoEffect | customer-frontend/app/show-product.tsx:106-136 | The cursor slot turns green with the pending uri. Below the last slot, the next slot turns yellow and the cursor advances; on the last slot the cursor stays. Other slots and all labels are unchanged, and the pending photo is cleared. |
| PhotoChecklist.UsePhotoWithoutPending | customer-frontend/app/show-product.tsx:106-107 | Using a photo when none is pending changes nothing. |
| PhotoChecklist.UsePhotoPreservesValid | customer-frontend/app/show-product.tsx:106-136 | "Use photo" keeps the invariant: green before the cursor, yellow or green at it, red after it, and a uri exactly on green slots. |
| PhotoChecklist.StepsPreserveValid | customer-frontend/app/show-product.tsx:99-136 | Capture, Retake, Reset and Use photo each preserve the invariant. |
| PhotoChecklist.ResetAndRetake | customer-frontend/app/show-product.tsx:246-256 | Reset restores exactly the initial checklist. Retake (line 267) clears only the pending photo. |
| PhotoChecklist.AllGreenWhenDone | customer-frontend/app/show-product.tsx:299 | On a valid checklist, all five slots are green iff the cursor is on the last slot and that slot is green. |
| PhotoChecklist.CaptureProgress | customer-frontend/app/show-product.tsx:99-136 | Capturing and keeping a non-empty photo completes exactly one more slot. |
| PhotoChecklist.CaptureAllProgress | customer-frontend/app/show-product.tsx:99-136 | k such captures complete exactly k more slots, while slots remain. |
| PhotoChecklist.FiveCapturesComplete | customer-frontend/app/show-product.tsx:232-302 | Five kept photos from the start turn every slot green; the shutter disappears and Continue appears. |
| PhotoChecklist.FormPartsAllGreen | customer-frontend/app/show-product.tsx:146-155 | On a complete checklist, the form carries one part per slot, named `photo_{k+1}.jpg`, holding slot k's uri. |
| PhotoChecklist.SubmitAccepted | customer-frontend/app/show-product.tsx:143-160 | A complete checklist is submitted as five parts the server accepts, so the server's route answers 200 unless its own calls fail. |
| ScanProduct.Scan | business-frontend/app/scan-product.tsx:57-82 | With the camera off, or on a payload that does not parse, nothing changes. Otherwise the record is stored with defaults filled in and the camera goes off. The selection changes only to the stored record's first option. |
| ScanProduct.ScanFillsDefaults | business-frontend/app/scan-product.tsx:57-82 | A record without options gets exactly the four defaults (140, 125, 75, 0, in that order). The first default is selected, and the details and bottom bar appear. |
| ScanProduct.ScanKeepsOptions | business-frontend/app/scan-product.tsx:61-71 | A record with its own non-empty options keeps them unchanged, and its first option is selected. |
| ScanProduct.ScanMarksFirstOption | business-frontend/app/scan-product.tsx:163-176 | After a scan, a radio is marked iff its action is the first option's action. |
| ScanProduct.ScanEmptyOptions | business-frontend/app/scan-product.tsx:57-82 | An empty options array is kept; the record is stored and the camera goes off, but the selection is not changed. |
| ScanProduct.ParseFailureChangesNothing | business-frontend/app/scan-product.tsx:57-75 | A payload that does not parse leaves the whole state unchanged. |
| ScanProduct.CameraOffIsFinal | business-frontend/app/scan-product.tsx:109-115 | Once the camera view is unmounted, no sequence of further scans changes anything. |
| ScanProduct.FirstParsedRecordWins | business-frontend/app/scan-product.tsx:57-82 | From the initial screen, the first payload that parses decides the record shown, whatever fails before it or arrives once the camera view is unmounted. |
| ScanProduct.ChooseMarks | business-frontend/app/scan-product.tsx:163-203 | Tapping an option marks its radio and puts its action in the bottom bar. |
| ScanProduct.ChooseAction | business-frontend/app/scan-product.tsx:167 | Tapping an option marks its radio and unmarks every radio with a different action. The record and the camera are untouched. |
| ScanProduct.RepairVisibility | business-frontend/app/scan-product.tsx:118-191 | While the camera is on, neither the repair steps nor the "No refurbishments needed" check mark is shown (line 118). After a scan from the camera, the repair steps are shown iff the record needs repairs, and the row is checked otherwise. Once the details are shown, exactly one of the two appears. |
| PaymentBilling.Step | customer-frontend/app/payment-billing.tsx:61-76 | After one event, agreed holds iff the event is Agree, or agreement held and the event is not a checkbox click. The modal is visible iff the event is the terms link (line 202), or a checkbox click while not agreed or with the modal already visible. |
| PaymentBilling.EventEffects | customer-frontend/app/payment-billing.tsx:61-76 | Not agreed: the checkbox opens the modal. Agreed: it withdraws agreement and leaves the modal alone. Agree sets agreed and hides the modal; Close hides it and keeps agreed; the terms link (line 202) opens it and keeps agreed. |
| PaymentBilling.OnlyAgreeAgrees | customer-frontend/app/payment-billing.tsx:61-76 | Agree is the only event that sets the agreement. |
| PaymentBilling.AgreedIffAgreementStands | customer-frontend/app/payment-billing.tsx:61-76 | After any event sequence, agreed holds iff the sequence contains an Agree with no checkbox click after it. |
| PaymentBilling.RefundGatedOnAgreement | customer-frontend/app/payment-billing.tsx:206-212 | Refund acts iff the agreement stands, and what it does never depends on the card or address fields. |
| PaymentBilling.RefundPressed | customer-frontend/app/payment-billing.tsx:206-212 | Refund navigates iff the terms are agreed, and then always to /refund-status (line 57). |
| PaymentBilling.InitiallyDisabled | customer-frontend/app/payment-billing.tsx:21-30 | Initially nothing is agreed, the modal is hidden and Refund does nothing. |
| AssessmentContext.UseAssessmentContext | customer-frontend/app/AssessmentContext.tsx:38-44 | The hook fails iff there is no provider, with the source's message; otherwise it returns the provider's store. |
| AssessmentContext.AddImage | customer-frontend/app/AssessmentContext.tsx:22-24 | The list grows by one, with the new image last and the earlier ones unchanged. |
| AssessmentContext.RemoveImages | customer-frontend/app/AssessmentContext.tsx:26-29 | The list becomes empty. |
| AssessmentContext.AddImagesInOrder | customer-frontend/app/AssessmentContext.tsx:22-24 | Two appends keep their order: the list ends with the first image, then the second. |
| AssessmentContext.RemoveImagesIdempotent | customer-frontend/app/AssessmentContext.tsx:26-29 | Clearing empties the whole list, and clearing twice is the same as clearing once. |
| AssessmentContext.RunHoldsAddedSinceClear | customer-frontend/app/AssessmentContext.tsx:19-29 | From the empty start, the list always holds exactly the images added since the last clear, in order. |
| AssessmentContext.RunAfterLastClear | customer-frontend/app/AssessmentContext.tsx:19-29 | If op k is a clear and only adds follow it, the list holds exactly the images of those adds, in order, whatever it held before. |
| AssessmentContext.AddsOnly | customer-frontend/app/AssessmentContext.tsx:19-24 | Without a clear, the list is the added images in order. |
| Gallery.Next | customer-frontend/app/Gallery.tsx:13-15 | next moves one forward or back to 0, and from a valid cursor it stays in [0, n). |
| Gallery.Prev | customer-frontend/app/Gallery.tsx:9-11 | prev moves one back or to n − 1, and from a valid cursor it stays in [0, n). |
| Gallery.ButtonsMove | customer-frontend/app/Gallery.tsx:9-15 | With two or more images, next and prev each move a valid cursor to a different image. With one image, both stay at it. |
| Gallery.PrevNextInverse | customer-frontend/app/Gallery.tsx:9-15 | prev(next(i)) = i and next(prev(i)) = i. |
| Gallery.WrapAround | customer-frontend/app/Gallery.tsx:9-15 | next wraps from the last image to 0, and prev wraps from 0 to the last. With one image, both stay at 0. |
| Gallery.NextRecovers | customer-frontend/app/Gallery.tsx:13-15 | next brings any non-negative cursor, even a stale one past the end, back into range. |
| Gallery.BrowseStaysInRange | customer-frontend/app/Gallery.tsx:9-15 | Any sequence of taps from a valid cursor keeps it valid. |
| Gallery.NextTapsForward | customer-frontend/app/Gallery.tsx:13-15 | k taps on next move forward k images while the end is not passed. |
| Gallery.NextTapsFullCircle | customer-frontend/app/Gallery.tsx:13-15 | n taps on next return to the starting image. |
| Gallery.DataUrlRoundTrip | customer-frontend/app/Gallery.tsx:21 | The displayed URL parses under RFC 2397 as a base64 `image/png` URL whose data is exactly the stored image. |
| Gallery.Render | customer-frontend/app/Gallery.tsx:17-21 | The message is shown iff the list is empty. A valid cursor shows the data URL of its own image. |
| Gallery.RenderShowsCurrent | customer-frontend/app/Gallery.tsx:17-21 | An empty list renders the message and indexes nothing. Otherwise a valid cursor renders a URL carrying exactly its image. |
| ReturnFlow.AsWrittenStaysLoading | customer-frontend/app/assessment.tsx:63-76 | With `fetchData` as written and the mock server, no sequence of fetch results, timer firings or taps leaves the loading view. |
| ReturnFlow.CorrectedShowsReturnOptions | customer-frontend/app/assessment.tsx:63-76 | With the corrected helper, the mock assessment opens the return-options view once the fetch resolves. |
| ReturnFlow.SelectedProductIsEnriched | customer-frontend/app/assessment.tsx:112-130 | A catalogue item selected, assessed with the mock assessment, and continued with any return option ends up with its own base fields plus Used-Good, 120, eligible, no repairs and "HELLO". |
| ReturnFlow.GalleryAfterClear | customer-frontend/app/Gallery.tsx:17-21 | After the images are cleared, the gallery shows its message. A cursor left at 1 over a refilled one-image list displays the data "undefined". |

## Left out

- Flask routing, `photo.save`, opening files, base64 encoding and `detect_defects`. Files are represented by their paths. A failure of these calls is a `Fault`: no failure, the save of accepted upload k raising, or a later call raising.
- The Gemini grading calls (server/functions.py). Each of `condition_grading`, `recommended_action` and `recommended_repair` catches every exception and returns an error string. A grading failure therefore ends up as text inside the 200 body, which is left out with that body, and never produces the 500 answer.
- The price form field and the grading results in the 200 body. They come from calls into the language model and do not affect the status.
- Werkzeug's multipart parsing. An upload is its filename. An empty upload list stands for a request with no `photos` part. A part whose filename is empty is refused by the filter anyway, since it has no '.'.
- Text.Lower: lower-cases ASCII letters only, where Python's `str.lower` is full Unicode. In Unicode's case mappings, only two non-ASCII characters lower-case to text containing an ASCII letter. U+0130 becomes 'i' followed by U+0307, which keeps a non-ASCII character. U+212A (Kelvin sign) becomes 'k', which no allowed extension contains. So no extension holding a non-ASCII character lower-cases to jpg, jpeg, png or gif. The filter therefore accepts exactly the same names.
- server/wardrobing.py: random and Faker data generation, `random_ip`, the 5% label flip, and sklearn training and prediction. The model keeps only the deterministic helpers.
- Parsing the dotted address string (Python's `ipaddress`). The address is given as its 32-bit value; `Dotted` builds it from four octets.
- Wardrobing.FraudLabel: the IP flag is taken as an integer used for its truth value, as Python tests it. The other fields of a generated sample are not modelled.
- A `payment_method` that is a list or a dict. Python raises `TypeError` on the unhashable lookup at server/wardrobing.py:33; the model takes the method as an optional string.
- NumPy's float arithmetic. Amounts, rates and features are exact reals.
- Network transport in `fetchData` and `handleSubmit`, including the mismatched server addresses (port 5001 for GET, port 5000 for POST). A fetch is an optional JSON value, or a failure.
- Assessment payloads: an object with the five fields at the right types is read as an assessment, and every other value counts as no data, so the model stays on the loading view. In JavaScript, any truthy payload passes the gate at customer-frontend/app/assessment.tsx:147, and line 296 then picks a view from whatever its fields hold. A string, a number or an object without a truthy `isEligibleToReturn` shows the non-returnable view. An object whose `isEligibleToReturn` is truthy but not a boolean, and whose `condition` is not 'Salvage', shows the return options. The model does not promise these views.
- The context's `recommendedAction` is typed as an array in customer-frontend/app/productContext.tsx, while the assessment screen stores the string 'HELLO'. The model stores the string, as the code does at run time. The unused context fields recommendedRepair, isWardrobing and image1 are left out.
- Camera capture and permissions. `takePicture` is reduced to the optional uri it yields.
- Timers and animations: the two-second timer is one event; the dot and blob animations are dropped. The `loading` flag of show-product.tsx and select-product.tsx is never read: it is set at show-product.tsx:83 and select-product.tsx:76, and those screens gate on fonts instead.
- Navigation (`router.push`). Pressing Refund is modelled by the route it would push; Continue is modelled by the context it writes.
- JSON parsing and QR rendering (barcode.tsx, qr-code.tsx, `JSON.parse` in scan-product.tsx). A parse is an optional record.
- A scanned record with options that are not an array, or `null` options, is not distinguished from a missing field.
- Layout and wiring files: _layout.tsx, app.tsx, index.tsx, camera.tsx, refund-status.tsx, global-styles.tsx and the components directory. Also business-frontend/app/resale-processed.tsx, whose only logic is a timer-driven loading flag.
- server/yolo.py and mac-yolo/yoloTest.py, which do ONNX inference, non-maximum suppression and live camera capture.
- A pipe-delimited action decoder and a 30-day return-window computation are not part of this model. Neither exists in the code: server/functions.py only asks the language model for that format, and `withinReturnWindow` is a literal in the mock GET response.
- The non-returnable decision follows the code at customer-frontend/app/assessment.tsx:296: salvage condition or ineligible. Descriptions that also name the repair or return-window flags do not match it; those flags only set checklist icons.
- ScanProduct.FirstParsedRecordWins: a scan is one atomic step that stores the record and switches the camera off together. `handleBarcodeScan` never reads `isCameraActive`; only the mount of the camera view at business-frontend/app/scan-product.tsx:109-115 gates it. A scan event delivered before React re-renders after `setIsCameraActive(false)` is not modelled. Such an event would replace the stored record and the selection, so the last such record would win. ScanProduct.CameraOffIsFinal carries the same abstraction.
- ScanProduct.WithDefaults: its contract states only that options are present afterwards. What they are is stated by `ScanFillsDefaults` and `ScanKeepsOptions`.

## Findings

| source | as written | input that shows it | evidently intended | confidence | as-written member | corrected member |
|---|---|---|---|---|---|---|
| customer-frontend/app/api/product-img/route.ts:7 | `fetchData` returns `data.message`, but `GET /api/data` (server/routes.py:36-44) answers with the five assessment fields and no `message` key. The assessment screen then stores `undefined` and shows "Assessing product's condition..." for good. | The mock body {condition: "Used-Good", estimatedRefundValue: 120, isEligibleToReturn: true, noRepairsNeeded: true, withinReturnWindow: true}, followed by the timer | return the parsed body itself, which the screen reads `condition`, `isEligibleToReturn` and the other fields from | high; not executed | AssessmentApi.FetchDataAsWritten (shown by AssessmentApi.FetchAsWrittenLosesAssessment and ReturnFlow.AsWrittenStaysLoading) | AssessmentApi.FetchData (proved by AssessmentApi.FetchDeliversAssessment and ReturnFlow.CorrectedShowsReturnOptions) |
