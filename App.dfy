/**
  The state of the viewer component: the loaded images, the loading flag,
  the search term and the list shown for it, with the steps that change them.
  The network request is replaced by the outcome it settled with, and the
  random id generator by a function from a URL's position to its id.
 */
module App {
  import opened JsString
  import opened Breeds
  import opened Search

  /** How the request for random images settled. */
  datatype FetchOutcome =
    | Success(urls: seq<string>)  // the body reports `status === 'success'`; `message` is the URL list
    | NotSuccess                  // the body parsed but reports another status
    | Failed                      // the request was rejected or the body was not JSON

  /**
    The image list once a request settled with `outcome`, starting from
    `current`: the records built from a successful response, or `current`
    when the response was not a success or the mapper threw on a URL without
    a breed segment (the error is caught and logged).
   */
  function ImagesAfter(current: seq<DogImage>, outcome: FetchOutcome, idOf: nat -> string): seq<DogImage>
  {
    if outcome.Success? && ToDogImages(outcome.urls, idOf).Some? then
      ToDogImages(outcome.urls, idOf).value
    else
      current
  }

  /**
    A successful response whose URLs all have a breed segment replaces the
    list wholesale: one record per URL, in order, and nothing of the previous
    list survives.
   */
  lemma SuccessReplacesImages(current: seq<DogImage>, other: seq<DogImage>, urls: seq<string>, idOf: nat -> string)
    requires forall i :: 0 <= i < |urls| ==> HasBreedSegment(urls[i])
    ensures var after := ImagesAfter(current, Success(urls), idOf);
      && |after| == |urls|
      && (forall i :: 0 <= i < |urls| ==>
            after[i] == DogImage(urls[i], BreedLabel(urls[i]), idOf(i)))
      && Urls(after) == urls
      && after == ImagesAfter(other, Success(urls), idOf)
  {
    ToDogImagesKeepsUrls(urls, idOf);
  }

  /** A response of 8 well-formed URLs gives 8 images. */
  lemma EightUrlsGiveEightImages(current: seq<DogImage>, urls: seq<string>, idOf: nat -> string)
    requires |urls| == 8
    requires forall i :: 0 <= i < |urls| ==> HasBreedSegment(urls[i])
    ensures |ImagesAfter(current, Success(urls), idOf)| == 8
  {
  }

  /**
    The list is left as it was when the request failed, reported another
    status, or returned a URL the mapper throws on: stale images are kept
    rather than a blank grid.
   */
  lemma FailureKeepsImages(current: seq<DogImage>, outcome: FetchOutcome, idOf: nat -> string)
    requires !outcome.Success? || exists i :: 0 <= i < |outcome.urls| && !HasBreedSegment(outcome.urls[i])
    ensures ImagesAfter(current, outcome, idOf) == current
  {
  }

  /** The viewer component's state. */
  class DogViewer {
    /** The records of the most recent successful fetch. */
    var dogImages: seq<DogImage>
    /** True while a fetch is outstanding. */
    var loading: bool
    /** The text of the search box, as typed. */
    var searchTerm: string
    /** What the grid shows. */
    var filteredImages: seq<DogImage>

    /** The shown list is always the filter of the loaded images by the current term. */
    ghost predicate Valid()
      reads this`dogImages, this`searchTerm, this`filteredImages
    {
      filteredImages == FilterImages(dogImages, searchTerm)
    }

    /** Everything starts empty and nothing is loading. */
    constructor ()
      ensures Valid()
      ensures dogImages == [] && !loading && searchTerm == [] && filteredImages == []
    {
      dogImages, loading, searchTerm, filteredImages := [], false, [], [];
      BlankTermShowsAll([], []);
    }

    /** The filter effect, run after `dogImages` or `searchTerm` changed. */
    method RecomputeFilter()
      modifies this`filteredImages
      ensures Valid()
    {
      if Trim(searchTerm) == [] {
        filteredImages := dogImages;
      } else {
        filteredImages := Keep(dogImages, searchTerm);
      }
    }

    /** `handleSearchChange`: store the new term and recompute what is shown. */
    method SetSearchTerm(term: string)
      modifies this`searchTerm, this`filteredImages
      ensures Valid()
      ensures searchTerm == term
      ensures filteredImages == FilterImages(dogImages, term)
    {
      searchTerm := term;
      RecomputeFilter();
    }

    /** The start of `fetchRandomImages`: `setLoading(true)` before the request is sent. */
    method BeginFetch()
      requires Valid()
      modifies this`loading
      ensures Valid()
      ensures loading
    {
      loading := true;
    }

    /**
      The rest of `fetchRandomImages`, once the request settled: a successful
      response replaces the list (and the filter effect runs); any failure is
      swallowed; `loading` is cleared in every case.
     */
    method SettleFetch(outcome: FetchOutcome, idOf: nat -> string)
      requires Valid()
      modifies this`dogImages, this`filteredImages, this`loading
      ensures Valid()
      ensures !loading
      ensures dogImages == ImagesAfter(old(dogImages), outcome, idOf)
    {
      if outcome.Success? {
        var mapped := ToDogImages(outcome.urls, idOf);
        if mapped.Some? {
          dogImages := mapped.value;
          RecomputeFilter();
        }
      }
      loading := false;
    }

    /** `fetchRandomImages` (and `handleRefresh`, which only calls it), run to completion. */
    method FetchRandomImages(outcome: FetchOutcome, idOf: nat -> string)
      requires Valid()
      modifies this`dogImages, this`filteredImages, this`loading
      ensures Valid()
      ensures !loading
      ensures dogImages == ImagesAfter(old(dogImages), outcome, idOf)
      ensures searchTerm == old(searchTerm)
    {
      BeginFetch();
      SettleFetch(outcome, idOf);
    }
  }
}
