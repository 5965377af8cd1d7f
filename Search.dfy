/**
  The search filter of the viewer: the list shown for a search term, derived
  from the loaded images whenever either of them changes.
 */
module Search {
  import opened JsString
  import opened Breeds

  /** `image.breed.toLowerCase().includes(term.toLowerCase())`. */
  predicate Matches(image: DogImage, term: string)
  {
    Includes(ToLower(image.breed), ToLower(term))
  }

  /** `images.filter(image => Matches(image, term))`. */
  function Keep(images: seq<DogImage>, term: string): (r: seq<DogImage>)
    ensures |r| <= |images|
    ensures forall k :: 0 <= k < |r| ==> r[k] in images && Matches(r[k], term)
  {
    if images == [] then []
    else if Matches(images[0], term) then [images[0]] + Keep(images[1..], term)
    else Keep(images[1..], term)
  }

  /**
    The list shown for `term`: every image when the term is empty after
    trimming, otherwise the images whose lower-cased breed contains the
    lower-cased term. The substring test uses the term as typed, not trimmed.
   */
  function FilterImages(images: seq<DogImage>, term: string): seq<DogImage>
  {
    if Trim(term) == [] then images else Keep(images, term)
  }

  // ---------------------------------------------------------------------------
  // An independent description of the filter, by positions
  // ---------------------------------------------------------------------------

  /**
    `r` lists `images` at the strictly increasing positions `idx`, and `idx`
    holds exactly the positions whose image matches `term`.
   */
  ghost predicate SelectsMatches(r: seq<DogImage>, images: seq<DogImage>, term: string, idx: seq<nat>)
  {
    && |idx| == |r|
    && (forall k :: 0 <= k < |idx| ==> idx[k] < |images| && r[k] == images[idx[k]])
    && (forall k, l :: 0 <= k < l < |idx| ==> idx[k] < idx[l])
    && (forall i :: 0 <= i < |images| ==> (i in idx <==> Matches(images[i], term)))
  }

  /** Which images match, position by position. */
  function MatchMarks(images: seq<DogImage>, term: string): (marks: seq<bool>)
    ensures |marks| == |images|
    ensures forall i :: 0 <= i < |images| ==> marks[i] == Matches(images[i], term)
  {
    if images == [] then [] else [Matches(images[0], term)] + MatchMarks(images[1..], term)
  }

  /**
    The same description as `SelectsMatches`, for any list and any marking:
    `r` lists `s` at the strictly increasing positions `idx`, which are exactly
    the marked ones.
   */
  ghost predicate SelectsMarked<T>(r: seq<T>, s: seq<T>, marks: seq<bool>, idx: seq<nat>)
  {
    && |marks| == |s|
    && |idx| == |r|
    && (forall k :: 0 <= k < |idx| ==> idx[k] < |s| && r[k] == s[idx[k]])
    && (forall k, l :: 0 <= k < l < |idx| ==> idx[k] < idx[l])
    && (forall i :: 0 <= i < |s| ==> (i in idx <==> marks[i]))
  }

  /** Every position moved one place to the right. */
  function Shift(idx: seq<nat>): (s: seq<nat>)
    ensures |s| == |idx|
    ensures forall k :: 0 <= k < |idx| ==> s[k] == idx[k] + 1
  {
    seq(|idx|, k requires 0 <= k < |idx| => idx[k] + 1)
  }

  /** The positions of the images that match, in increasing order. */
  function MatchPositions(images: seq<DogImage>, term: string): seq<nat>
  {
    if images == [] then []
    else if Matches(images[0], term) then [0] + Shift(MatchPositions(images[1..], term))
    else Shift(MatchPositions(images[1..], term))
  }

  lemma ShiftMembers(idx: seq<nat>, i: nat)
    ensures i in Shift(idx) <==> i > 0 && (i - 1) in idx
  {
    if i > 0 && (i - 1) in idx {
      var k :| 0 <= k < |idx| && idx[k] == i - 1;
      assert Shift(idx)[k] == i;
    }
  }

  /** Putting one element in front of a list moves every selected position one place to the right. */
  lemma SelectsPrepend<T>(x: T, b: bool, r: seq<T>, tail: seq<T>, marks: seq<bool>, idx: seq<nat>)
    requires SelectsMarked(r, tail, marks, idx)
    ensures b ==> SelectsMarked([x] + r, [x] + tail, [b] + marks, [0] + Shift(idx))
    ensures !b ==> SelectsMarked(r, [x] + tail, [b] + marks, Shift(idx))
  {
    var s, m, sh := [x] + tail, [b] + marks, Shift(idx);
    forall i | 0 <= i < |s|
      ensures i in sh <==> i > 0 && m[i]
    {
      ShiftMembers(idx, i);
    }
    forall k | 0 <= k < |sh|
      ensures sh[k] < |s| && r[k] == s[sh[k]]
    {
      assert s[idx[k] + 1] == tail[idx[k]];
    }
    if b {
      var r', idx' := [x] + r, [0] + sh;
      forall k | 0 <= k < |idx'|
        ensures idx'[k] < |s| && r'[k] == s[idx'[k]]
      {
        if k > 0 {
          assert r'[k] == r[k - 1] && idx'[k] == sh[k - 1];
        }
      }
      forall i | 0 <= i < |s|
        ensures i in idx' <==> m[i]
      {
        assert i in idx' <==> i == 0 || i in sh;
      }
      forall k, l | 0 <= k < l < |idx'|
        ensures idx'[k] < idx'[l]
      {
        assert idx'[l] == sh[l - 1];
        if k > 0 {
          assert idx'[k] == sh[k - 1];
        }
      }
    }
  }

  /** `Keep` selects exactly the marked positions of `MatchMarks`. */
  lemma {:induction false} KeepSelectsMarked(images: seq<DogImage>, term: string)
    ensures SelectsMarked(Keep(images, term), images, MatchMarks(images, term), MatchPositions(images, term))
  {
    if images != [] {
      var tail := images[1..];
      KeepSelectsMarked(tail, term);
      SelectsPrepend(images[0], Matches(images[0], term), Keep(tail, term), tail,
                     MatchMarks(tail, term), MatchPositions(tail, term));
      assert images == [images[0]] + tail;
    }
  }

  /** `Keep` lists the matching images at exactly the matching positions, in their original order. */
  lemma KeepSelectsMatches(images: seq<DogImage>, term: string)
    ensures SelectsMatches(Keep(images, term), images, term, MatchPositions(images, term))
  {
    KeepSelectsMarked(images, term);
  }

  // ---------------------------------------------------------------------------
  // Properties of the filter
  // ---------------------------------------------------------------------------

  /** An empty or whitespace-only term shows every image, in order. */
  lemma BlankTermShowsAll(images: seq<DogImage>, term: string)
    requires IsBlank(term)
    ensures FilterImages(images, term) == images
  {
    TrimEmptyIff(term);
  }

  /**
    A term that is not blank shows exactly the matching images, in their
    original order: no image that does not match, none that matches left out.
   */
  lemma TermShowsExactlyMatches(images: seq<DogImage>, term: string)
    requires !IsBlank(term)
    ensures SelectsMatches(FilterImages(images, term), images, term, MatchPositions(images, term))
  {
    TrimEmptyIff(term);
    KeepSelectsMatches(images, term);
  }

  /** The filter never shows more images than are loaded, and only loaded ones. */
  lemma FilterIsBounded(images: seq<DogImage>, term: string)
    ensures |FilterImages(images, term)| <= |images|
    ensures forall k :: 0 <= k < |FilterImages(images, term)| ==> FilterImages(images, term)[k] in images
  {
  }

  /** Filtering a concatenation filters each part: the filter treats images one at a time, in order. */
  lemma {:induction false} KeepAppend(a: seq<DogImage>, b: seq<DogImage>, term: string)
    ensures Keep(a + b, term) == Keep(a, term) + Keep(b, term)
  {
    if a != [] {
      assert (a + b)[1..] == a[1..] + b;
      KeepAppend(a[1..], b, term);
    } else {
      assert a + b == b;
    }
  }

  /** Filtering twice by the same term is filtering once. */
  lemma {:induction false} FilterIdempotent(images: seq<DogImage>, term: string)
    ensures FilterImages(FilterImages(images, term), term) == FilterImages(images, term)
  {
    if Trim(term) != [] {
      KeepIdempotent(images, term);
    }
  }

  /** Keeping the matches of a list of matches keeps all of it. */
  lemma {:induction false} KeepIdempotent(images: seq<DogImage>, term: string)
    ensures Keep(Keep(images, term), term) == Keep(images, term)
  {
    if images != [] {
      KeepIdempotent(images[1..], term);
    }
  }

  /** Upper-casing changes only letters, so it keeps a term blank or not blank. */
  lemma BlankIgnoresCase(term: string)
    ensures IsBlank(ToUpper(term)) <==> IsBlank(term)
  {
    forall i | 0 <= i < |term|
      ensures IsWhitespace(ToUpper(term)[i]) <==> IsWhitespace(term[i])
    {
      var c := term[i];
      if IsLowerAscii(c) {
        assert !IsWhitespace(c) && !IsWhitespace(UpperChar(c));
      }
    }
  }

  /** Typing the term in upper case shows the same images: the search is case-insensitive. */
  lemma FilterIgnoresTermCase(images: seq<DogImage>, term: string)
    ensures FilterImages(images, ToUpper(term)) == FilterImages(images, term)
  {
    LowerOfUpper(term);
    TrimEmptyIff(term);
    TrimEmptyIff(ToUpper(term));
    BlankIgnoresCase(term);
    KeepSameLowerTerm(images, ToUpper(term), term);
  }

  /** Two terms with the same lower-case form keep the same images. */
  lemma {:induction false} KeepSameLowerTerm(images: seq<DogImage>, t1: string, t2: string)
    requires ToLower(t1) == ToLower(t2)
    ensures Keep(images, t1) == Keep(images, t2)
  {
    if images != [] {
      KeepSameLowerTerm(images[1..], t1, t2);
    }
  }

  /** Whether an image matches does not depend on the capitalisation of its label's first letter. */
  lemma MatchIgnoresCapitalize(url: string, name: string, id: string, term: string)
    ensures Matches(DogImage(url, Capitalize(name), id), term) == Includes(ToLower(name), ToLower(term))
  {
    LowerOfCapitalize(name);
  }

  /**
    The term is matched as typed, not trimmed: a term that is not blank but
    starts with whitespace only finds labels that contain that whitespace
    character, so ` bull` finds no `Bulldog`.
   */
  lemma UntrimmedTermNeedsLeadingBlank(images: seq<DogImage>, term: string)
    requires !IsBlank(term) && IsWhitespace(term[0])
    ensures forall k :: 0 <= k < |FilterImages(images, term)| ==> term[0] in FilterImages(images, term)[k].breed
  {
    TrimEmptyIff(term);
    forall k | 0 <= k < |Keep(images, term)|
      ensures term[0] in Keep(images, term)[k].breed
    {
      var b := Keep(images, term)[k].breed;
      IncludesIff(ToLower(b), ToLower(term));
      var i :| OccursAt(ToLower(b), ToLower(term), i);
      assert ToLower(b)[i] == ToLower(term)[0] == term[0];
      assert b[i] == term[0];
    }
  }
}
