/** The customer app's image gallery: a cursor over the context's images
    moved by previous/next buttons that wrap around, and the displayed
    picture, an RFC 2397 `data:` URL (section 3 of RFC 2397) carrying the
    base64 image. */
module Gallery {
  import opened Base
  import Text

  /** `nextImage` on a list of `n` images. */
  function Next(i: int, n: int): (j: int)
    ensures j == i + 1 || j == 0
    ensures 0 <= i < n ==> 0 <= j < n
  {
    if i < n - 1 then i + 1 else 0
  }

  /** `prevImage` on a list of `n` images. */
  function Prev(i: int, n: int): (j: int)
    ensures j == i - 1 || j == n - 1
    ensures 0 <= i < n ==> 0 <= j < n
  {
    if i > 0 then i - 1 else n - 1
  }

  /** With two or more images, each button moves to a different image; with
      one image, both stay put. */
  lemma ButtonsMove(i: int, n: int)
    requires 0 <= i < n
    ensures 2 <= n ==> Next(i, n) != i && Prev(i, n) != i
    ensures n == 1 ==> Next(i, n) == i && Prev(i, n) == i
  {
  }

  /** The two buttons undo each other. */
  lemma PrevNextInverse(i: int, n: int)
    requires 0 <= i < n
    ensures Prev(Next(i, n), n) == i
    ensures Next(Prev(i, n), n) == i
  {
  }

  /** Next moves forward by one except on the last image, where it wraps to
      the first; Prev mirrors it. With one image both stay put. */
  lemma WrapAround(n: int)
    requires n >= 1
    ensures Next(n - 1, n) == 0
    ensures Prev(0, n) == n - 1
    ensures Next(0, 1) == 0 && Prev(0, 1) == 0
  {
  }

  /** Next brings any non-negative cursor, even one past the end of a list
      that has since shrunk, back into range. */
  lemma NextRecovers(i: int, n: int)
    requires 0 <= i && 1 <= n
    ensures 0 <= Next(i, n) < n
  {
  }

  datatype Tap = PrevTap | NextTap

  function Browse(i: int, n: int, taps: seq<Tap>): int
    decreases |taps|
  {
    if |taps| == 0 then i
    else Browse(if taps[0] == NextTap then Next(i, n) else Prev(i, n), n, taps[1..])
  }

  /** While the list keeps its length, any sequence of taps from the first
      image keeps the cursor on an image. */
  lemma {:induction false} BrowseStaysInRange(i: int, n: int, taps: seq<Tap>)
    requires 0 <= i < n
    ensures 0 <= Browse(i, n, taps) < n
    decreases |taps|
  {
    if |taps| > 0 {
      BrowseStaysInRange(if taps[0] == NextTap then Next(i, n) else Prev(i, n), n, taps[1..]);
    }
  }

  function NextTaps(k: nat): seq<Tap>
  {
    seq(k, _ => NextTap)
  }

  lemma {:induction false} BrowseAppend(i: int, n: int, a: seq<Tap>, b: seq<Tap>)
    ensures Browse(i, n, a + b) == Browse(Browse(i, n, a), n, b)
    decreases |a|
  {
    if |a| > 0 {
      assert (a + b)[0] == a[0] && (a + b)[1..] == a[1..] + b;
      BrowseAppend(if a[0] == NextTap then Next(i, n) else Prev(i, n), n, a[1..], b);
    } else {
      assert a + b == b;
    }
  }

  /** Tapping Next `k` times moves forward `k` images while the end of the
      list is not passed. */
  lemma {:induction false} NextTapsForward(i: int, n: int, k: nat)
    requires 0 <= i && i + k < n
    ensures Browse(i, n, NextTaps(k)) == i + k
    decreases k
  {
    if k > 0 {
      assert NextTaps(k)[0] == NextTap && NextTaps(k)[1..] == NextTaps(k - 1);
      NextTapsForward(i + 1, n, k - 1);
    }
  }

  /** Tapping Next once per image goes all the way round, back to the image
      it started from. */
  lemma NextTapsFullCircle(i: int, n: int)
    requires 0 <= i < n
    ensures Browse(i, n, NextTaps(n)) == i
  {
    var toLast := NextTaps(n - 1 - i);
    assert NextTaps(n) == toLast + [NextTap] + NextTaps(i);
    BrowseAppend(i, n, toLast + [NextTap], NextTaps(i));
    BrowseAppend(i, n, toLast, [NextTap]);
    NextTapsForward(i, n, n - 1 - i);
    assert Browse(n - 1, n, [NextTap]) == 0;
    NextTapsForward(0, n, i);
  }

  const DataUrlPrefix: string := "data:image/png;base64,"

  function DataUrl(payload: string): string
  {
    DataUrlPrefix + payload
  }

  /** The parts of an RFC 2397 URL, `data:[<mediatype>][;base64],<data>`. */
  datatype DataUrlParts = DataUrlParts(mediaType: string, isBase64: bool, data: string)

  function ParseDataUrl(url: string): Option<DataUrlParts>
  {
    if |url| < 5 || url[..5] != "data:" then None
    else
      var rest := url[5..];
      match Text.IndexOf(rest, ',')
      case None => None
      case Some(c) =>
        var header := rest[..c];
        if |header| >= 7 && header[|header| - 7..] == ";base64" then
          Some(DataUrlParts(header[..|header| - 7], true, rest[c + 1..]))
        else
          Some(DataUrlParts(header, false, rest[c + 1..]))
  }

  const MediaType: string := "image/png"
  const Base64Marker: string := ";base64"
  const DataUrlHeader: string := MediaType + Base64Marker

  lemma NoCommaInHeader()
    ensures ',' !in DataUrlHeader
  {
    assert ',' !in MediaType;
    assert ',' !in Base64Marker;
  }

  /** The header of the displayed URL holds no ',' and splits into the media
      type and the base64 marker. */
  lemma DataUrlHeaderShape()
    ensures ',' !in DataUrlHeader
    ensures |DataUrlHeader| >= 7
    ensures DataUrlHeader[|DataUrlHeader| - 7..] == ";base64"
    ensures DataUrlHeader[..|DataUrlHeader| - 7] == "image/png"
    ensures DataUrlPrefix == "data:" + DataUrlHeader + ","
  {
    NoCommaInHeader();
    assert |Base64Marker| == 7;
    assert DataUrlHeader[|DataUrlHeader| - 7..] == Base64Marker;
    assert DataUrlHeader[..|DataUrlHeader| - 7] == MediaType;
  }

  /** The displayed URL reads back as a base64 `image/png` URL whose data is
      exactly the stored image, whatever characters it holds. */
  lemma DataUrlRoundTrip(payload: string)
    ensures ParseDataUrl(DataUrl(payload)) == Some(DataUrlParts("image/png", true, payload))
  {
    DataUrlHeaderShape();
    var url := DataUrl(payload);
    var header := DataUrlHeader;
    assert url == "data:" + (header + "," + payload);
    assert url[..5] == "data:";
    var rest := url[5..];
    assert rest == header + "," + payload;
    assert rest[|header|] == ',';
    assert rest[..|header|] == header;
    var c := Text.IndexOf(rest, ',');
    assert c.Some? && c.value == |header|;
    assert rest[c.value + 1..] == payload;
  }

  datatype GalleryView = NoImages | Picture(src: string)

  /** What the gallery renders. An out-of-range cursor reads `undefined`,
      which the template literal spells out. */
  function Render(images: seq<string>, index: int): (view: GalleryView)
    ensures view.NoImages? <==> |images| == 0
    ensures 0 <= index < |images| ==> view == Picture(DataUrl(images[index]))
  {
    if |images| == 0 then NoImages
    else Picture(DataUrl(if 0 <= index < |images| then images[index] else "undefined"))
  }

  /** The empty list shows the message and indexes nothing; otherwise a valid
      cursor shows its own image. */
  lemma RenderShowsCurrent(images: seq<string>, index: int)
    ensures |images| == 0 ==> Render(images, index) == NoImages
    ensures 0 <= index < |images| ==>
      Render(images, index).Picture? &&
      ParseDataUrl(Render(images, index).src) == Some(DataUrlParts("image/png", true, images[index]))
  {
    if 0 <= index < |images| {
      DataUrlRoundTrip(images[index]);
    }
  }
}
