# Dog image viewer — a Dafny model

The project models the logic of the single React component `App` of a dog
image viewer. The component fetches a batch of random images from the Dog CEO
API. It derives a human-readable breed label from each image URL. It keeps the
loaded images, a loading flag, the text of a search box, and the list of
images the grid shows. The shown list is the loaded list filtered by breed:
an empty or whitespace-only search shows everything; any other search shows
the images whose breed label contains the search text, ignoring case.

Modules, one per concern of the component:

- `JsString` (`JsString.dfy`): the JavaScript string operations the
  component relies on. It models `split` on a one-character separator (with
  its inverse `Join`), `includes`, `toLowerCase`/`toUpperCase`,
  `charAt(0).toUpperCase() + slice(1)` and `trim`. These are written as
  functions over strings, with their defining properties proved.
- `Breeds` (`Breeds.dfy`): the `DogImage` record, the breed segment of a URL,
  the breed label, and the mapper that turns one response's URLs into records.
- `Search` (`Search.dfy`): the filter effect as a function of the loaded images
  and the search term. It also gives an independent description of the
  filter by positions, and proves that the two agree.
- `App` (`App.dfy`): the component's state as the class `DogViewer`. Each
  handler updates its fields in place. The class keeps the invariant that the
  shown list is always the filter of the loaded list by the current term.

The network request is replaced by a `FetchOutcome` parameter: success with
the URL list, a response with another status, or a failed request/parse. The
random id generator is replaced by a function `idOf` from a URL's position to
its id.

A URL with fewer than five `/`-separated pieces has no element 4, so
`breedPart` is `undefined` and `breedPart.includes('-')` throws. The throw
happens inside the `try` of `fetchRandomImages`, so the catch logs it and the
image list is kept. Hence `BreedLabel`, the per-URL computation, requires a
breed segment. `ToDogImages`, the whole mapper, is total and yields `None`
for such a response, and `SettleFetch` then leaves `dogImages` unchanged.

The comments at src/App.jsx:54 and :56 describe element 4 of the URL as the
`breed-name` part of `https://images.dog.ceo/breeds/breed-name/image.jpg`.
The code takes element 4 of the URL split on `/`, whatever the URL looks like,
and the model does the same. `Breeds.SegmentOfDogCeoUrl` shows that this is
the `breed-name` part for URLs of the documented shape. The filter matches the
term as typed; only the blank test at line 23 trims it, and
`Search.UntrimmedTermNeedsLeadingBlank` states the consequence. The ids at
line 68 come from `Math.random`, which does not guarantee distinct values, so
the model makes no distinctness claim.

## Model

| member | source | states |
|---|---|---|
| `JsString.Split` | src/App.jsx:55 | `split` on a one-character separator yields one more piece than there are separators, and no piece contains the separator |
| `JsString.JoinSplit` | src/App.jsx:55 | joining the pieces of a split with the separator gives back the original string: no character is lost or added |
| `JsString.SplitJoin` | src/App.jsx:61 | splitting a join of separator-free pieces gives back exactly those pieces |
| `JsString.Includes` | src/App.jsx:27 | `includes`: the second string starts at the first position or is included in the rest; `IncludesIff` states it as an occurrence at some index |
| `JsString.IncludesIff` | src/App.jsx:27 | `includes` holds exactly when the second string occurs at some position of the first (so the empty string is always included) |
| `JsString.ToLower` | src/App.jsx:27 | `toLowerCase` keeps the length and lower-cases each character on its own, leaving no upper-case letter |
| `JsString.ToUpper` | src/App.jsx:67 | `toUpperCase` keeps the length and upper-cases each character on its own; `LowerOfUpper` states that lower-casing undoes it for comparisons |
| `JsString.LowerOfUpper` | src/App.jsx:27 | lower-casing an upper-cased string equals lower-casing the original |
| `JsString.Capitalize` | src/App.jsx:67 | `charAt(0).toUpperCase() + slice(1)` keeps the length, upper-cases the first character and keeps the rest unchanged; the empty string stays empty |
| `JsString.LowerOfCapitalize` | src/App.jsx:67 | lower-casing a capitalised string equals lower-casing the original |
| `JsString.CapitalizeKeepsNonLetters` | src/App.jsx:67 | capitalising neither adds nor removes any character that is not a letter |
| `JsString.Trim` | src/App.jsx:23 | `trim()` drops leading and trailing JavaScript whitespace and line terminators; `TrimEmptyIff` states exactly when the result is empty |
| `JsString.TrimEmptyIff` | src/App.jsx:23 | `trim()` gives the empty string exactly when every character is JavaScript whitespace or a line terminator |
| `Breeds.HasBreedSegment` | src/App.jsx:55-56 | the URL holds at least four `/`, which by `Split`'s piece count is exactly when element 4 exists; without it `breedPart.includes` at line 60 throws |
| `Breeds.BreedSegment` | src/App.jsx:55-56 | element 4 of the URL split on `/` exists exactly when the URL has at least four `/`, and it contains no `/` |
| `Breeds.SegmentOfJoin` | src/App.jsx:55-56 | in a URL made of at least five `/`-free pieces, the breed segment is the fifth piece |
| `Breeds.SegmentOfDogCeoUrl` | src/App.jsx:54-56 | for `https://images.dog.ceo/breeds/<seg>/<file>` the breed segment is `<seg>` |
| `Breeds.FirstTwoPieces` | src/App.jsx:62 | the first two hyphen pieces joined by a space, or the only piece; `SubBreedLabel` states the resulting label for every `<a>-<b>…` segment |
| `Breeds.FormatSegment` | src/App.jsx:57-63 | a segment with a hyphen becomes its first two pieces joined by a space, one without is kept; `PlainSegmentLabel`, `SubBreedLabel` and `LabelHasNoHyphen` state the outcome |
| `Breeds.SegmentLabel` | src/App.jsx:57-67 | the formatted segment with its first character upper-cased; `PlainSegmentLabel` and `SubBreedLabel` state it for both kinds of segment, `LabelHasNoHyphen` for all |
| `Breeds.BreedLabel` | src/App.jsx:54-67 | the label of a URL with a breed segment; `SubBreedUrlLabel`, `PlainUrlLabel` and the two examples state it for Dog CEO URLs |
| `Breeds.PlainSegmentLabel` | src/App.jsx:57-67 | a segment without a hyphen keeps its length, gets its first character upper-cased, and keeps the rest unchanged |
| `Breeds.SubBreedLabel` | src/App.jsx:60-67 | `<a>-<b>` followed by any further `-` pieces is labelled `<a> <b>` capitalised; the further pieces are dropped |
| `Breeds.LabelHasNoHyphen` | src/App.jsx:57-67 | no breed label contains a hyphen |
| `Breeds.SubBreedUrlLabel` | src/App.jsx:53-67 | the image `…/breeds/<a>-<b>/<file>` is labelled `<a> <b>` capitalised |
| `Breeds.PlainUrlLabel` | src/App.jsx:53-67 | the image `…/breeds/<a>/<file>`, `<a>` without a hyphen, is labelled `<a>` capitalised |
| `Breeds.HoundAfghanExample` | src/App.jsx:53-67 | an image under `breeds/hound-afghan/` is labelled `Hound afghan` |
| `Breeds.BulldogExample` | src/App.jsx:53-67 | an image under `breeds/bulldog/` is labelled `Bulldog` |
| `Breeds.ToDogImages` | src/App.jsx:53-70 | the mapper succeeds exactly when every URL has a breed segment; it then gives one record per URL, in order, carrying that URL, its label and its id |
| `Breeds.ToDogImagesKeepsUrls` | src/App.jsx:65-66 | projecting the records back to their URLs gives exactly the response's URL list |
| `Search.Matches` | src/App.jsx:27 | an image matches when its lower-cased label includes the lower-cased term; `FilterIgnoresTermCase` and `MatchIgnoresCapitalize` state that neither side's case matters |
| `Search.FilterImages` | src/App.jsx:22-31 | the list shown for a term; `BlankTermShowsAll`, `TermShowsExactlyMatches`, `FilterIsBounded` and `FilterIdempotent` state its meaning |
| `Search.Keep` | src/App.jsx:26-28 | `filter` returns no more images than it was given, and only given images that match the term |
| `Search.KeepSelectsMatches` | src/App.jsx:26-29 | `filter` lists exactly the matching images, at strictly increasing positions of the input, each equal to the input at its position |
| `Search.BlankTermShowsAll` | src/App.jsx:23-24 | an empty or whitespace-only term shows every loaded image, in order |
| `Search.TermShowsExactlyMatches` | src/App.jsx:25-29 | a term that is not blank shows exactly the images whose lower-cased breed contains the lower-cased term, in their original order |
| `Search.FilterIsBounded` | src/App.jsx:22-31 | the shown list is never longer than the loaded list and holds only loaded images |
| `Search.KeepAppend` | src/App.jsx:26-28 | filtering a concatenation is the concatenation of the filtered parts |
| `Search.FilterIdempotent` | src/App.jsx:22-31 | filtering the shown list again by the same term changes nothing |
| `Search.FilterIgnoresTermCase` | src/App.jsx:27 | typing the term in upper case shows the same images |
| `Search.MatchIgnoresCapitalize` | src/App.jsx:27 | whether an image matches does not depend on the upper-cased first letter of its label |
| `Search.UntrimmedTermNeedsLeadingBlank` | src/App.jsx:23-27 | a non-blank term that starts with whitespace shows only images whose label contains that whitespace character, because the term is matched untrimmed |
| `App.ImagesAfter` | src/App.jsx:52-78 | the loaded list once a request settled; `SuccessReplacesImages` and `FailureKeepsImages` state it for every outcome |
| `App.SuccessReplacesImages` | src/App.jsx:52-72 | a successful response of well-formed URLs replaces the list with one record per URL, in order, whatever the previous list was |
| `App.EightUrlsGiveEightImages` | src/App.jsx:49-72 | a successful response of 8 well-formed URLs gives 8 images |
| `App.FailureKeepsImages` | src/App.jsx:52-75 | a failed request, another status, or a URL without a breed segment keeps the previous list |
| `App.DogViewer.Valid` | src/App.jsx:22-31 | the filter invariant: the shown list is the filter of the loaded list by the current term; every method of the class ensures it |
| `App.DogViewer.constructor` | src/App.jsx:9-13 | the state starts with no images, not loading, an empty term and an empty shown list |
| `App.DogViewer.RecomputeFilter` | src/App.jsx:22-31 | the filter effect re-establishes that the shown list is the filter of the loaded list by the term |
| `App.DogViewer.SetSearchTerm` | src/App.jsx:85-87 | the term becomes the typed text and the shown list its filter of the loaded images |
| `App.DogViewer.BeginFetch` | src/App.jsx:46 | starting a fetch sets `loading` and keeps the filter invariant |
| `App.DogViewer.SettleFetch` | src/App.jsx:47-78 | a settled fetch clears `loading` in every case; the loaded list becomes the mapped response on success and is kept otherwise; the filter invariant holds |
| `App.DogViewer.FetchRandomImages` | src/App.jsx:45-83 | a refresh run to completion ends not loading, with the list given by its outcome, the term unchanged and the filter invariant kept |

## Left out

- Rendering (lines 89-182) is not modelled. This covers the grid, the spinner, the disabled refresh button, the "Found N image(s)" text and the "No dogs found" message. It is view code over the modelled state.
- `fetchAllBreeds` and `allBreeds` (lines 10, 17, 33-43) are not modelled. Nothing else in the component reads `allBreeds`.
- `fetch`, `response.json()` and `console.error` are replaced by the `FetchOutcome` parameter. A `message` that is not an array of strings makes `.map` or `.split` throw inside the `try`; the model treats that response like `Failed`.
- `Math.random().toString(36).substr(2, 9)` (line 68) is replaced by the parameter `idOf`. The model makes no claim that ids are distinct.
- Async timing is not modelled: overlapping refreshes, and a term typed while a request is outstanding. `BeginFetch` and `SettleFetch` can be called separately, but the model does not track which request settles last.
- React's effect scheduling is not modelled. The model recomputes the filtered list immediately after each change to the images or the term.
- The mount effect (lines 16-19) is the constructor followed by `FetchRandomImages`. It has no member of its own.
- `JsString.ToLower`, `JsString.ToUpper`: case mapping covers ASCII letters only, not full Unicode case mapping.
- `JsString.Split`, `JsString.Includes`: strings are sequences of Dafny characters. JavaScript's UTF-16 surrogate pairs are not modelled.
