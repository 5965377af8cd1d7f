/**
  Deriving a breed label from a Dog CEO image URL, and turning the list of
  URLs of one response into `DogImage` records (the mapper inside
  `fetchRandomImages`).
 */
module Breeds {
  import opened JsString

  datatype Option<T> = None | Some(value: T)

  /** One card of the grid: the image URL, its breed label and an opaque rendering key. */
  datatype DogImage = DogImage(url: string, breed: string, id: string)

  /**
    `url.split('/')[4]` exists. For a shorter URL that element is
    `undefined` and the following `breedPart.includes('-')` throws.
   */
  predicate HasBreedSegment(url: string)
  {
    Count(url, '/') >= 4
  }

  /** Element 4 of the URL split on `/`: the `<segment>` of `https://images.dog.ceo/breeds/<segment>/<file>`. */
  function BreedSegment(url: string): (seg: string)
    requires HasBreedSegment(url)
    ensures '/' !in seg
  {
    Split(url, '/')[4]
  }

  /**
    The breed name before capitalisation: a segment with a hyphen becomes its
    first two hyphen pieces joined by a space (later pieces are dropped); a
    segment without one is kept as it is.
   */
  function FormatSegment(seg: string): string
  {
    if '-' in seg then
      FirstTwoPieces(Split(seg, '-'))
    else seg
  }

  /** The first two pieces joined by a space, or the only piece when there is just one. */
  function FirstTwoPieces(parts: seq<string>): string
    requires |parts| >= 1
  {
    if |parts| > 1 then parts[0] + " " + parts[1] else parts[0]
  }

  /** The label shown for a segment: `FormatSegment` with its first character upper-cased. */
  function SegmentLabel(seg: string): string
  {
    Capitalize(FormatSegment(seg))
  }

  /** The label shown for an image URL. */
  function BreedLabel(url: string): string
    requires HasBreedSegment(url)
  {
    SegmentLabel(BreedSegment(url))
  }

  /** The URL shape the Dog CEO API returns. */
  function DogCeoUrl(seg: string, file: string): string
  {
    "https://images.dog.ceo/breeds/" + seg + "/" + file
  }

  /**
    `urls.map(...)`: one record per URL, in order, carrying that URL, its
    label and the id the generator gave it (`idOf(i)` for the i-th URL).
    If any URL has no breed segment the mapper throws, which is `None` here.
   */
  function ToDogImages(urls: seq<string>, idOf: nat -> string): (r: Option<seq<DogImage>>)
    ensures r.Some? <==> forall i :: 0 <= i < |urls| ==> HasBreedSegment(urls[i])
    ensures r.Some? ==> |r.value| == |urls|
    ensures r.Some? ==> forall i :: 0 <= i < |urls| ==>
      r.value[i].url == urls[i] && r.value[i].breed == BreedLabel(urls[i]) && r.value[i].id == idOf(i)
  {
    if forall i :: 0 <= i < |urls| ==> HasBreedSegment(urls[i]) then
      Some(seq(|urls|, i requires 0 <= i < |urls| => DogImage(urls[i], BreedLabel(urls[i]), idOf(i))))
    else None
  }

  /** The URLs of a list of records, in order. */
  function Urls(images: seq<DogImage>): (us: seq<string>)
    ensures |us| == |images|
    ensures forall i :: 0 <= i < |images| ==> us[i] == images[i].url
  {
    if images == [] then [] else [images[0].url] + Urls(images[1..])
  }

  // ---------------------------------------------------------------------------
  // Properties
  // ---------------------------------------------------------------------------

  /** In a URL made of at least five `/`-free pieces, the breed segment is the fifth piece. */
  lemma SegmentOfJoin(parts: seq<string>)
    requires |parts| >= 5
    requires forall k :: 0 <= k < |parts| ==> '/' !in parts[k]
    ensures HasBreedSegment(Join(parts, '/'))
    ensures BreedSegment(Join(parts, '/')) == parts[4]
  {
    SplitJoin(parts, '/');
  }

  /** In `p0/p1/p2/p3/seg/file`, with no `/` inside the pieces, the breed segment is `seg`. */
  lemma SegmentOfSixPieces(p0: string, p1: string, p2: string, p3: string, seg: string, file: string)
    requires '/' !in p0 && '/' !in p1 && '/' !in p2 && '/' !in p3 && '/' !in seg && '/' !in file
    ensures var url := p0 + "/" + p1 + "/" + p2 + "/" + p3 + "/" + seg + "/" + file;
      HasBreedSegment(url) && BreedSegment(url) == seg
  {
    var r4 := seg + "/" + file;
    var r3 := p3 + "/" + r4;
    var r2 := p2 + "/" + r3;
    var r1 := p1 + "/" + r2;
    assert p0 + "/" + p1 + "/" + p2 + "/" + p3 + "/" + seg + "/" + file == p0 + "/" + r1;
    SplitAfterPiece(p0, r1, '/');
    SplitAfterPiece(p1, r2, '/');
    SplitAfterPiece(p2, r3, '/');
    SplitAfterPiece(p3, r4, '/');
    SplitAfterPiece(seg, file, '/');
  }

  /** For `https://images.dog.ceo/breeds/<seg>/<file>` the breed segment is `<seg>`. */
  lemma SegmentOfDogCeoUrl(seg: string, file: string)
    requires '/' !in seg && '/' !in file
    ensures HasBreedSegment(DogCeoUrl(seg, file))
    ensures BreedSegment(DogCeoUrl(seg, file)) == seg
  {
    assert DogCeoUrl(seg, file) == "https:" + "/" + "" + "/" + "images.dog.ceo" + "/" + "breeds" + "/" + seg + "/" + file;
    SegmentOfSixPieces("https:", "", "images.dog.ceo", "breeds", seg, file);
  }

  /**
    A segment without a hyphen is shown as it is, except that its first
    character is upper-cased.
   */
  lemma PlainSegmentLabel(seg: string)
    requires '-' !in seg
    ensures SegmentLabel(seg) == Capitalize(seg)
    ensures |SegmentLabel(seg)| == |seg|
    ensures seg != [] ==> SegmentLabel(seg)[0] == UpperChar(seg[0]) && SegmentLabel(seg)[1..] == seg[1..]
  {
  }

  /**
    A segment `<a>-<b>`, possibly followed by further `-<...>` pieces, is
    shown as `<a> <b>` with its first character upper-cased: the further
    pieces are dropped.
   */
  lemma SubBreedLabel(a: string, b: string, tail: string)
    requires '-' !in a && '-' !in b
    requires tail == [] || tail[0] == '-'
    ensures SegmentLabel(a + "-" + b + tail) == Capitalize(a + " " + b)
  {
    var seg := a + "-" + b + tail;
    assert seg == a + ['-'] + (b + tail);
    assert seg[|a|] == '-';
    SplitAfterPiece(a, b + tail, '-');
    FirstPiece(b, tail, '-');
  }

  /** No label contains a hyphen: the pieces that are kept hold none, and capitalisation adds none. */
  lemma LabelHasNoHyphen(seg: string)
    ensures '-' !in SegmentLabel(seg)
  {
    var f := FormatSegment(seg);
    if '-' in seg {
      var parts := Split(seg, '-');
      assert '-' !in parts[0] && '-' !in parts[1];
      assert f == parts[0] + " " + parts[1];
    }
    assert '-' !in f;
    CapitalizeKeepsNonLetters(f, '-');
  }

  /** The label of `https://images.dog.ceo/breeds/<a>-<b>/<file>` is `<a> <b>` with its first character upper-cased. */
  lemma SubBreedUrlLabel(a: string, b: string, file: string)
    requires '/' !in a && '/' !in b && '/' !in file
    requires '-' !in a && '-' !in b
    ensures HasBreedSegment(DogCeoUrl(a + "-" + b, file))
    ensures BreedLabel(DogCeoUrl(a + "-" + b, file)) == Capitalize(a + " " + b)
  {
    assert a + "-" + b + "" == a + "-" + b;
    SegmentOfDogCeoUrl(a + "-" + b, file);
    SubBreedLabel(a, b, "");
  }

  /** The label of `https://images.dog.ceo/breeds/<a>/<file>`, `<a>` without a hyphen, is `<a>` with its first character upper-cased. */
  lemma PlainUrlLabel(a: string, file: string)
    requires '/' !in a && '/' !in file
    requires '-' !in a
    ensures HasBreedSegment(DogCeoUrl(a, file))
    ensures BreedLabel(DogCeoUrl(a, file)) == Capitalize(a)
  {
    SegmentOfDogCeoUrl(a, file);
  }

  /** A `hound-afghan` image is labelled `Hound afghan` (the breed and sub-breed are passed in to keep the proof symbolic). */
  lemma HoundAfghanExample(breed: string, sub: string, file: string)
    requires breed == "hound" && sub == "afghan" && '/' !in file
    ensures HasBreedSegment(DogCeoUrl(breed + "-" + sub, file))
    ensures BreedLabel(DogCeoUrl(breed + "-" + sub, file)) == "Hound afghan"
  {
    SegmentOfDogCeoUrl(breed + "-" + sub, file);
    HoundAfghanSegment(breed, sub);
  }

  /** The segment `hound-afghan` is labelled `Hound afghan`. */
  lemma HoundAfghanSegment(breed: string, sub: string)
    requires breed == "hound" && sub == "afghan"
    ensures SegmentLabel(breed + "-" + sub) == "Hound afghan"
  {
    assert breed + "-" + sub + "" == breed + "-" + sub;
    SubBreedLabel(breed, sub, "");
  }

  /** A `bulldog` image is labelled `Bulldog`. */
  lemma BulldogExample(breed: string, file: string)
    requires breed == "bulldog" && '/' !in file
    ensures HasBreedSegment(DogCeoUrl(breed, file))
    ensures BreedLabel(DogCeoUrl(breed, file)) == "Bulldog"
  {
    PlainUrlLabel(breed, file);
  }

  /** The records keep the URLs of the response, in order: projecting them back gives the response. */
  lemma ToDogImagesKeepsUrls(urls: seq<string>, idOf: nat -> string)
    requires ToDogImages(urls, idOf).Some?
    ensures Urls(ToDogImages(urls, idOf).value) == urls
  {
  }
}
