/** The photo-upload half of the server's `/api/data` route: the extension
    filter `allowed_file`, the position-based names under which accepted
    photos are saved, and the status the route answers with. Saving, defect
    detection, reading back and base64 encoding are abstracted: each saved
    file is represented by its path, and a failure of those calls is a
    `Fault` saying where the handler is interrupted. The grading calls catch
    their own exceptions and return an error string inside the 200 body, so
    they never interrupt it. */
module Upload {
  import opened Base
  import opened Text

  const UploadFolder: string := "uploads"
  const AllowedExtensions: set<string> := {"jpg", "jpeg", "png", "gif"}

  /** The text after the last '.', as `filename.rsplit('.', 1)[1]` yields it,
      or None when the name holds no '.' at all. */
  function Extension(filename: string): (ext: Option<string>)
    ensures ext.None? <==> '.' !in filename
    ensures ext.Some? ==>
      && |ext.value| < |filename|
      && filename[|filename| - |ext.value| - 1] == '.'
      && filename[|filename| - |ext.value|..] == ext.value
      && '.' !in ext.value
  {
    match LastIndexOf(filename, '.')
    case None => None
    case Some(i) => Some(filename[i + 1..])
  }

  /** `allowed_file`: the name holds a dot and the text after the last one,
      lower-cased, is an allowed extension; so an accepted name ends in a dot
      and three or four further characters. */
  predicate AllowedFile(filename: string)
    ensures AllowedFile(filename) ==> '.' in filename
    ensures AllowedFile(filename) ==>
      Extension(filename).Some? && 3 <= |Extension(filename).value| <= 4 && |Extension(filename).value| < |filename|
  {
    match Extension(filename)
    case None => false
    case Some(ext) => Lower(ext) in AllowedExtensions
  }

  /** Only the text after the last dot decides: a name made of any prefix, a
      dot and a dot-free tail is accepted exactly when the lower-cased tail is
      one of the four extensions. */
  lemma AllowedFileByTail(prefix: string, tail: string)
    requires '.' !in tail
    ensures AllowedFile(prefix + "." + tail) <==> Lower(tail) in AllowedExtensions
  {
    var f := prefix + "." + tail;
    var e := Extension(f);
    assert f[|prefix|] == '.';
    assert e.Some?;
    assert e.value == f[|prefix| + 1..] == tail;
  }

  /** A name holding no dot is refused, whatever it looks like. */
  lemma NoDotRefused(filename: string)
    requires '.' !in filename
    ensures !AllowedFile(filename)
  {
  }

  /** The accepted tails are exactly the four extensions, in any letter case. */
  lemma AllowedExtensionsExactly(prefix: string, tail: string)
    requires '.' !in tail
    ensures AllowedFile(prefix + "." + tail) <==>
      Lower(tail) == "jpg" || Lower(tail) == "jpeg" || Lower(tail) == "png" || Lower(tail) == "gif"
  {
    AllowedFileByTail(prefix, tail);
  }

  lemma LowerIdempotent(s: string)
    ensures Lower(Lower(s)) == Lower(s)
  {
  }

  /** Lower-casing keeps every '.' where it is and adds none. */
  lemma LowerKeepsDots(s: string)
    ensures |Lower(s)| == |s|
    ensures forall i :: 0 <= i < |s| ==> (Lower(s)[i] == '.' <==> s[i] == '.')
    ensures '.' in Lower(s) <==> '.' in s
  {
    forall i | 0 <= i < |s| ensures (Lower(s)[i] == '.' <==> s[i] == '.') {
    }
    if '.' in Lower(s) {
      var i :| 0 <= i < |s| && Lower(s)[i] == '.';
      assert s[i] == '.';
    }
    if '.' in s {
      var i :| 0 <= i < |s| && s[i] == '.';
      assert Lower(s)[i] == '.';
    }
  }

  lemma LowerConcat(a: string, b: string)
    ensures Lower(a + b) == Lower(a) + Lower(b)
  {
  }

  /** A name holding a dot is a prefix, the last dot, and a dot-free tail. */
  lemma SplitAtLastDot(filename: string) returns (prefix: string, tail: string)
    requires '.' in filename
    ensures '.' !in tail
    ensures filename == prefix + "." + tail
  {
    tail := Extension(filename).value;
    prefix := filename[..|filename| - |tail| - 1];
    assert filename == prefix + "." + tail;
  }

  /** Lower-casing a whole name never changes whether it is accepted. */
  lemma AllowedFileIgnoresCase(filename: string)
    ensures AllowedFile(Lower(filename)) == AllowedFile(filename)
  {
    LowerKeepsDots(filename);
    if '.' in filename {
      var prefix, tail := SplitAtLastDot(filename);
      LowerConcat(prefix + ".", tail);
      LowerConcat(prefix, ".");
      assert Lower(".") == ".";
      LowerKeepsDots(tail);
      AllowedFileByTail(prefix, tail);
      AllowedFileByTail(Lower(prefix), Lower(tail));
      LowerIdempotent(tail);
    }
  }

  lemma NestedDotsAccepted()
    ensures AllowedFile("a.b.png")
  {
    assert Lower("png") == "png";
    AllowedFileByTail("a.b", "png");
  }

  lemma BareExtensionAccepted()
    ensures AllowedFile(".png")
  {
    assert Lower("png") == "png";
    AllowedFileByTail("", "png");
  }

  lemma ExtensionFirstRefused()
    ensures !AllowedFile("png.txt")
  {
    assert Lower("txt") == "txt";
    AllowedFileByTail("png", "txt");
  }

  lemma UpperCaseAccepted()
    ensures AllowedFile("X.JPG")
  {
    assert Lower("JPG") == "jpg";
    AllowedFileByTail("X", "JPG");
  }

  lemma TrailingDotRefused()
    ensures !AllowedFile("photo.")
  {
    assert Lower("") == "";
    AllowedFileByTail("photo", "");
  }

  /** The name the upload loop gives the photo numbered `k` (1-based),
      `f"photo_{index + 1}.jpg"`; the apps use the same pattern. */
  function PhotoName(k: nat): string
  {
    "photo_" + ShowNat(k) + ".jpg"
  }

  /** `os.path.join(UPLOAD_FOLDER, filename)` for the photo at 0-based upload
      position `index`. */
  function SavedPath(index: nat): string
  {
    UploadFolder + "/" + PhotoName(index + 1)
  }

  /** Every position-based name passes the server's own filter. */
  lemma PhotoNameAllowed(k: nat)
    ensures AllowedFile(PhotoName(k))
  {
    var digits := ShowNat(k);
    assert '.' !in "photo_" + digits by {
      forall j | 0 <= j < |"photo_" + digits| ensures ("photo_" + digits)[j] != '.' {
        if j >= 6 {
          assert IsDigit(digits[j - 6]);
        }
      }
    }
    assert PhotoName(k) == ("photo_" + digits) + "." + "jpg";
    assert Lower("jpg") == "jpg";
    AllowedFileByTail("photo_" + digits, "jpg");
  }

  /** Two upload positions never share a saved path. */
  lemma SavedPathInjective(a: nat, b: nat)
    ensures SavedPath(a) == SavedPath(b) ==> a == b
  {
    if SavedPath(a) == SavedPath(b) {
      var sa, sb := SavedPath(a), SavedPath(b);
      var pre := UploadFolder + "/" + "photo_";
      assert sa == pre + ShowNat(a + 1) + ".jpg";
      assert sb == pre + ShowNat(b + 1) + ".jpg";
      assert ShowNat(a + 1) == sa[|pre|..|sa| - 4];
      assert ShowNat(b + 1) == sb[|pre|..|sb| - 4];
      ShowNatInjective(a + 1, b + 1);
    }
  }

  /** The 0-based positions among the first `n` uploads that the first loop
      accepts, in upload order. */
  function AcceptedPositions(photos: seq<string>, n: nat): (positions: seq<nat>)
    requires n <= |photos|
    ensures |positions| <= n
    ensures forall j :: 0 <= j < |positions| ==> positions[j] < n && AllowedFile(photos[positions[j]])
  {
    if n == 0 then []
    else AcceptedPositions(photos, n - 1) + (if AllowedFile(photos[n - 1]) then [n - 1] else [])
  }

  /** The accepted positions are exactly the accepted uploads among the first
      `n`. */
  lemma {:induction false} AcceptedPositionsMembers(photos: seq<string>, n: nat)
    requires n <= |photos|
    ensures forall i: nat :: i in AcceptedPositions(photos, n) <==> i < n && AllowedFile(photos[i])
  {
    if n > 0 {
      AcceptedPositionsMembers(photos, n - 1);
      var earlier := AcceptedPositions(photos, n - 1);
      var last: seq<nat> := if AllowedFile(photos[n - 1]) then [n - 1] else [];
      assert AcceptedPositions(photos, n) == earlier + last;
      forall i: nat ensures i in AcceptedPositions(photos, n) <==> i < n && AllowedFile(photos[i]) {
        assert i in earlier + last <==> i in earlier || i in last;
      }
    }
  }

  /** The accepted positions are strictly increasing and below `n`, so upload
      order is kept and nothing is renumbered. */
  lemma {:induction false} AcceptedPositionsIncreasing(photos: seq<string>, n: nat)
    requires n <= |photos|
    ensures forall j :: 0 <= j < |AcceptedPositions(photos, n)| ==> AcceptedPositions(photos, n)[j] < n
    ensures forall j, k :: 0 <= j < k < |AcceptedPositions(photos, n)| ==>
              AcceptedPositions(photos, n)[j] < AcceptedPositions(photos, n)[k]
  {
    if n > 0 {
      AcceptedPositionsIncreasing(photos, n - 1);
    }
  }

  /** The first `n` uploads are all accepted exactly when all `n` positions
      are kept. */
  lemma {:induction false} AcceptedPositionsLength(photos: seq<string>, n: nat)
    requires n <= |photos|
    ensures |AcceptedPositions(photos, n)| <= n
    ensures |AcceptedPositions(photos, n)| == n <==> forall i :: 0 <= i < n ==> AllowedFile(photos[i])
  {
    if n > 0 {
      AcceptedPositionsLength(photos, n - 1);
      var before := AcceptedPositions(photos, n - 1);
      assert (forall i :: 0 <= i < n ==> AllowedFile(photos[i])) <==>
        (forall i :: 0 <= i < n - 1 ==> AllowedFile(photos[i])) && AllowedFile(photos[n - 1]);
      if AllowedFile(photos[n - 1]) {
        assert AcceptedPositions(photos, n) == before + [n - 1];
      } else {
        assert AcceptedPositions(photos, n) == before;
      }
    }
  }

  function Paths(positions: seq<nat>): (paths: seq<string>)
    ensures |paths| == |positions|
    ensures forall j :: 0 <= j < |positions| ==> paths[j] == SavedPath(positions[j])
  {
    seq(|positions|, j requires 0 <= j < |positions| => SavedPath(positions[j]))
  }

  /** The save loop of the route: walks the uploads in order and records the
      path of every accepted one. */
  method SavePhotos(photos: seq<string>) returns (filenames: seq<string>)
    ensures |filenames| == |AcceptedPositions(photos, |photos|)|
    ensures forall j :: 0 <= j < |filenames| ==> filenames[j] == SavedPath(AcceptedPositions(photos, |photos|)[j])
    ensures |filenames| <= |photos|
    ensures |filenames| == |photos| <==> forall i :: 0 <= i < |photos| ==> AllowedFile(photos[i])
  {
    filenames := [];
    var index := 0;
    while index < |photos|
      invariant index <= |photos|
      invariant filenames == Paths(AcceptedPositions(photos, index))
    {
      if photos[index] != "" && AllowedFile(photos[index]) {
        filenames := filenames + [SavedPath(index)];
      }
      index := index + 1;
    }
    AcceptedPositionsLength(photos, |photos|);
  }

  datatype Response = Response(status: nat, message: string, saved: seq<string>, images: seq<string>)

  /** The second loop, `filenames[index]` for every upload position: it reads
      one saved file per upload and fails with an index error as soon as the
      position runs past the saved list. */
  function ReadBack(count: nat, filenames: seq<string>): (images: Option<seq<string>>)
    ensures images.None? <==> |filenames| < count
    ensures images.Some? ==>
      |images.value| == count && forall i :: 0 <= i < count ==> images.value[i] == filenames[i]
  {
    if count <= |filenames| then Some(filenames[..count]) else None
  }

  /** Where an exception from code outside the model interrupts the handler:
      nowhere; at the save of accepted upload number `k` (accepted uploads
      counted from 0, so a `k` past the last accepted upload never fires);
      or in one of the raising calls after the save loop (defect detection,
      opening, reading or encoding a saved file). */
  datatype Fault = NoFault | SaveRaises(k: nat) | LaterCallRaises

  /** Whether `fault` fires when `accepted` uploads are saved. */
  predicate Interrupts(fault: Fault, accepted: nat)
  {
    fault.LaterCallRaises? || (fault.SaveRaises? && fault.k < accepted)
  }

  /** The POST `/api/data` handler. `photos` are the filenames of the parts
      named `photos`, in upload order (an empty list means the request has no
      such part); `fault` says where, if anywhere, saving, defect detection
      or reading a saved file back raises. `saved` is the list of files written to
      disk before the handler returns. */
  function ConditionGradingRoute(photos: seq<string>, fault: Fault): (resp: Response)
    ensures resp.status in {200, 400, 500}
    ensures resp.status == 400 <==> |photos| == 0
    ensures resp.status == 400 ==> resp.saved == [] && resp.message == "No photos part in the request"
    ensures resp.status != 400 ==>
      |resp.saved| <= |AcceptedPositions(photos, |photos|)| &&
      forall j :: 0 <= j < |resp.saved| ==> resp.saved[j] == SavedPath(AcceptedPositions(photos, |photos|)[j])
    ensures resp.status != 400 ==>
      (|resp.saved| < |AcceptedPositions(photos, |photos|)| <==>
         fault.SaveRaises? && fault.k < |AcceptedPositions(photos, |photos|)|)
    ensures resp.status != 400 && fault.SaveRaises? && fault.k < |AcceptedPositions(photos, |photos|)| ==>
      |resp.saved| == fault.k
    ensures resp.status == 200 <==>
      0 < |photos| && !Interrupts(fault, |photos|) && forall i :: 0 <= i < |photos| ==> AllowedFile(photos[i])
    ensures resp.status == 200 ==>
      |resp.images| == |photos| && forall i :: 0 <= i < |photos| ==> resp.images[i] == SavedPath(i)
  {
    if |photos| == 0 then
      Response(400, "No photos part in the request", [], [])
    else
      var accepted := Paths(AcceptedPositions(photos, |photos|));
      AcceptedPositionsLength(photos, |photos|);
      if fault.SaveRaises? && fault.k < |accepted| then
        Response(500, "Error processing the data", accepted[..fault.k], [])
      else if fault.LaterCallRaises? then
        Response(500, "Error processing the data", accepted, [])
      else
        match ReadBack(|photos|, accepted)
        case None => Response(500, "Error processing the data", accepted, [])
        case Some(images) =>
          AcceptedPositionsIdentity(photos);
          Response(200, "Data received and photos uploaded successfully!", accepted, images)
  }

  /** When every upload is accepted, the accepted positions are 0, 1, 2, ... */
  lemma AcceptedPositionsIdentity(photos: seq<string>)
    requires forall i :: 0 <= i < |photos| ==> AllowedFile(photos[i])
    ensures forall j :: 0 <= j < |AcceptedPositions(photos, |photos|)| ==> AcceptedPositions(photos, |photos|)[j] == j
  {
    AcceptedPositionsIncreasing(photos, |photos|);
    AcceptedPositionsLength(photos, |photos|);
    var ps := AcceptedPositions(photos, |photos|);
    forall j | 0 <= j < |ps| ensures ps[j] == j {
      IncreasingFromZero(ps, |photos|, j);
    }
  }

  /** A strictly increasing list of `n` values below `n` is 0 .. n-1. */
  lemma {:induction false} IncreasingFromZero(ps: seq<nat>, n: nat, j: nat)
    requires |ps| == n
    requires forall a, b :: 0 <= a < b < |ps| ==> ps[a] < ps[b]
    requires forall a :: 0 <= a < |ps| ==> ps[a] < n
    requires j < |ps|
    ensures ps[j] == j
  {
    assert ps[j] >= j by { AtLeastIndex(ps, j); }
    assert ps[j] <= j by { AtMostIndex(ps, n, j); }
  }

  lemma {:induction false} AtLeastIndex(ps: seq<nat>, j: nat)
    requires forall a, b :: 0 <= a < b < |ps| ==> ps[a] < ps[b]
    requires j < |ps|
    ensures ps[j] >= j
    decreases j
  {
    if j > 0 {
      AtLeastIndex(ps, j - 1);
    }
  }

  lemma {:induction false} AtMostIndex(ps: seq<nat>, n: nat, j: nat)
    requires |ps| == n
    requires forall a, b :: 0 <= a < b < |ps| ==> ps[a] < ps[b]
    requires forall a :: 0 <= a < |ps| ==> ps[a] < n
    requires j < |ps|
    ensures ps[j] <= j
    decreases |ps| - j
  {
    if j < |ps| - 1 {
      AtMostIndex(ps, n, j + 1);
    }
  }

  /** Any refused upload sends the request down the 500 path. */
  lemma RefusedPhotoFails(photos: seq<string>, fault: Fault, i: nat)
    requires i < |photos| && !AllowedFile(photos[i])
    ensures ConditionGradingRoute(photos, fault).status == 500
  {
  }

  lemma JpgAccepted()
    ensures AllowedFile("a.jpg")
  {
    assert Lower("jpg") == "jpg";
    AllowedFileByTail("a", "jpg");
    assert "a" + "." + "jpg" == "a.jpg";
  }

  lemma TxtRefused()
    ensures !AllowedFile("b.txt")
  {
    assert Lower("txt") == "txt";
    AllowedFileByTail("b", "txt");
    assert "b" + "." + "txt" == "b.txt";
  }

  lemma MixedUploadPositions()
    ensures AcceptedPositions(["a.jpg", "b.txt"], 2) == [0]
  {
    var photos := ["a.jpg", "b.txt"];
    assert photos[0] == "a.jpg" && photos[1] == "b.txt";
    JpgAccepted();
    TxtRefused();
    assert AcceptedPositions(photos, 0) == [];
    assert AcceptedPositions(photos, 1) == [0];
  }

  /** One refused photo among accepted ones: the first is saved, and the
      request still ends on the 500 path. */
  lemma MixedUploadFails()
    ensures ConditionGradingRoute(["a.jpg", "b.txt"], NoFault).status == 500
    ensures ConditionGradingRoute(["a.jpg", "b.txt"], NoFault).saved == [SavedPath(0)]
  {
    MixedUploadPositions();
    TxtRefused();
    RefusedPhotoFails(["a.jpg", "b.txt"], NoFault, 1);
  }

  /** A save that raises part-way leaves the earlier files on disk and
      nothing after them: with two accepted uploads and the second save
      raising, only the first path is written. */
  lemma SecondSaveRaises()
    ensures ConditionGradingRoute(["a.jpg", "c.jpg"], SaveRaises(1)).status == 500
    ensures ConditionGradingRoute(["a.jpg", "c.jpg"], SaveRaises(1)).saved == [SavedPath(0)]
  {
    TwoJpgPositions();
  }

  lemma TwoJpgPositions()
    ensures AcceptedPositions(["a.jpg", "c.jpg"], 2) == [0, 1]
  {
    var photos := ["a.jpg", "c.jpg"];
    assert photos[0] == "a.jpg" && photos[1] == "c.jpg";
    JpgAccepted();
    SecondJpgAccepted();
    assert AcceptedPositions(photos, 1) == [0];
  }

  lemma SecondJpgAccepted()
    ensures AllowedFile("c.jpg")
  {
    assert Lower("jpg") == "jpg";
    AllowedFileByTail("c", "jpg");
    assert "c" + "." + "jpg" == "c.jpg";
  }

  /** Distinct accepted uploads are saved under distinct paths, so no saved
      photo overwrites another. */
  lemma SavedPathsDistinct(photos: seq<string>)
    ensures forall j, k :: 0 <= j < k < |Paths(AcceptedPositions(photos, |photos|))| ==>
              Paths(AcceptedPositions(photos, |photos|))[j] != Paths(AcceptedPositions(photos, |photos|))[k]
  {
    AcceptedPositionsIncreasing(photos, |photos|);
    var ps := AcceptedPositions(photos, |photos|);
    forall j, k | 0 <= j < k < |ps| ensures SavedPath(ps[j]) != SavedPath(ps[k]) {
      SavedPathInjective(ps[j], ps[k]);
    }
  }
}
