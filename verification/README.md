# TwitterSnap handle extractor, modelled in Dafny

TwitterSnap is an Android demo app. It runs text recognition on a photo, on
the device or in the cloud, and overlays every `@handle` it finds. This
project models the app's one piece of logic: `MainActivityPresenter`. The
presenter takes a recognition result tree and turns it into an ordered
series of calls on the methods of its `View` interface. These are
`showProgress`, `hideProgress`, `showNoTextMessage` and `showHandle(text, box)`.
The interface also declares `showBox(box)`, but the presenter never calls it.

- **On-device mode** walks Block → Line → Element. It shows every element
  whose text is a handle, with that element's own bounding box. A result
  with no blocks gives the "no text" message instead.
- **Cloud mode** walks Page → Block → Paragraph → Word. Each word's text is
  its symbols joined together (`wordToString`). Within one paragraph, the
  texts of every two adjacent words are joined (`zipWithNext`). Each joined
  text that is a handle is shown with the bounding box of the **second**
  word. A null result gives the "no text" message.
- **The handle test** (`looksLikeHandle`) is the whole-string regex match
  `@(\w+)`. This model reads `\w` as the ASCII class `[A-Za-z0-9_]`.

## Layout

- `wrappers.dfy` (module `Wrappers`): `Option`. A nullable reference (a bounding box, a cloud result) is modelled as `Option`.
- `seqs.dfy` (module `Seqs`): The list operations the presenter uses, with their laws. `FlatMap` models nested `forEach`. The others are `Filter`, `Map` and Kotlin's `zipWithNext`.
- `handles.dfy` (module `Handles`): `IsWordChar`, the `\w+` matcher `MatchesWordRun`, and `LooksLikeHandle`.
- `vision.dfy` (module `Vision`): The two result trees. `Rect` is passed around but its geometry is never used. `Detection` says which detector listener fired.
- `views.dfy` (module `Views`): `Event` has one constructor per `View` method. The `View` class is a recording view: each call appends its event to `events`.
- `extraction.dfy` (module `Extraction`): The specification. `LocalEvents` and `CloudEvents` give the exact event sequence, nested the way the presenter loops. `AllElements` and `AllPairs` give a flattened reference view. The properties are proved as lemmas.
- `presenter.dfy` (module `Presenter`): The `MainActivityPresenter` class. Its loop methods call the view and are proved to append exactly the specified events.

The view is modelled as what it has been told. `view.events` is the ordered
list of calls the presenter made. Each presenter method ensures
`view.events == old(view.events) + Spec(input)`. Every stated property of
`Spec` is therefore a property of what the screen is asked to do.

## Model

Source paths are relative to the repository root.

| member | source | states |
|---|---|---|
| `Handles.IsWordChar` | app/src/main/java/com/raywenderlich/android/twittersnap/MainActivityPresenter.kt:122 | one character of `\w`, read as ASCII `[A-Za-z0-9_]`; its meaning is used by the `ensures` of `MatchesWordRun` and `LooksLikeHandle` |
| `Handles.MatchesWordRun` | app/src/main/java/com/raywenderlich/android/twittersnap/MainActivityPresenter.kt:122 | `\w+` matches the whole of `s` iff `s` is non-empty and every character is in `[A-Za-z0-9_]` |
| `Handles.LooksLikeHandle` | app/src/main/java/com/raywenderlich/android/twittersnap/MainActivityPresenter.kt:121-122 | `text` matches `@(\w+)` as a whole iff it has length ≥ 2, starts with `@`, and every later character is a word character |
| `Handles.HandleHasSingleAt` | app/src/main/java/com/raywenderlich/android/twittersnap/MainActivityPresenter.kt:121-122 | a handle has no `@` after its first character, so a token like `@jane@x.com` is never a handle |
| `Handles.AtJoinedWithWord` | app/src/main/java/com/raywenderlich/android/twittersnap/MainActivityPresenter.kt:107 | `"@"` joined with `rest` is a handle iff `rest` is a non-empty run of word characters (why a split handle is recovered) |
| `Handles.HandleThenWord` | app/src/main/java/com/raywenderlich/android/twittersnap/MainActivityPresenter.kt:106-108 | a handle followed directly by a `\w+` run is again a handle (why the cloud path can join a handle and the next word) |
| `Handles.AcceptsHandle` | app/src/main/java/com/raywenderlich/android/twittersnap/MainActivityPresenter.kt:121-122 | `@raywenderlich` is accepted |
| `Handles.AcceptsShortHandle` | app/src/main/java/com/raywenderlich/android/twittersnap/MainActivityPresenter.kt:121-122 | `@jane` is accepted |
| `Handles.RejectedExamples` | app/src/main/java/com/raywenderlich/android/twittersnap/MainActivityPresenter.kt:121-122 | `email@raywenderlich.com`, `@`, the empty string, `janedoe` and `@jane.doe` are rejected |
| `Handles.RejectsSecondAt` | app/src/main/java/com/raywenderlich/android/twittersnap/MainActivityPresenter.kt:121-122 | `@jane@x.com` is rejected, by `HandleHasSingleAt` |
| `Seqs.FlatMap` | app/src/main/java/com/raywenderlich/android/twittersnap/MainActivityPresenter.kt:65-73 | a nested `forEach` that reports as it goes: each element's output in input order, with nothing between; its laws are `FlatMapAppend`, `FlatMapMember`, `FlatMapFlatMap` and `FlatMapIsFilterMap` |
| `Seqs.Filter` | app/src/main/java/com/raywenderlich/android/twittersnap/MainActivityPresenter.kt:110 | the result is no longer than the input and holds exactly the input's elements that satisfy the predicate |
| `Seqs.FilterSelects` | app/src/main/java/com/raywenderlich/android/twittersnap/MainActivityPresenter.kt:110 | filtering keeps each satisfying element exactly once, in input order: strictly increasing positions that are exactly the satisfying ones |
| `Seqs.FilterAppend` | app/src/main/java/com/raywenderlich/android/twittersnap/MainActivityPresenter.kt:110 | filtering distributes over concatenation |
| `Seqs.Map` | app/src/main/java/com/raywenderlich/android/twittersnap/MainActivityPresenter.kt:111 | same length, and element `i` of the result is `f` of element `i` |
| `Seqs.ZipWithNext` | app/src/main/java/com/raywenderlich/android/twittersnap/MainActivityPresenter.kt:106-109 | `max(n-1, 0)` results; result `i` is the transform of elements `i` and `i+1` |
| `Seqs.FlatMapAppend` | app/src/main/java/com/raywenderlich/android/twittersnap/MainActivityPresenter.kt:65-73 | a nested walk over `s + t` reports `s`'s output, then `t`'s |
| `Seqs.FlatMapMember` | app/src/main/java/com/raywenderlich/android/twittersnap/MainActivityPresenter.kt:65-73 | an item is reported iff some input element produced it |
| `Seqs.FlatMapFlatMap` | app/src/main/java/com/raywenderlich/android/twittersnap/MainActivityPresenter.kt:65-73 | walking two nested levels equals flattening the inner level first |
| `Seqs.FlatMapIsFilterMap` | app/src/main/java/com/raywenderlich/android/twittersnap/MainActivityPresenter.kt:67-70 | a walk that reports zero or one item per element equals a filter followed by a map |
| `Views.View.constructor` | app/src/main/java/com/raywenderlich/android/twittersnap/MainActivityPresenter.kt:124-130 | a fresh view has been told nothing |
| `Views.View.ShowNoTextMessage` | app/src/main/java/com/raywenderlich/android/twittersnap/MainActivityPresenter.kt:125 | records exactly one `showNoTextMessage` call |
| `Views.View.ShowHandle` | app/src/main/java/com/raywenderlich/android/twittersnap/MainActivityPresenter.kt:126 | records exactly one `showHandle(text, box)` call |
| `Views.View.ShowBox` | app/src/main/java/com/raywenderlich/android/twittersnap/MainActivityPresenter.kt:127 | records exactly one `showBox(box)` call |
| `Views.View.ShowProgress` | app/src/main/java/com/raywenderlich/android/twittersnap/MainActivityPresenter.kt:128 | records exactly one `showProgress` call |
| `Views.View.HideProgress` | app/src/main/java/com/raywenderlich/android/twittersnap/MainActivityPresenter.kt:129 | records exactly one `hideProgress` call |
| `Extraction.ElementEvents` | app/src/main/java/com/raywenderlich/android/twittersnap/MainActivityPresenter.kt:68-70 | `showHandle(text, box)` for a handle element, nothing otherwise; the property is stated by `LocalHandlesAreFilteredElements` and `MiddleHandleLine` |
| `Extraction.LineEvents` | app/src/main/java/com/raywenderlich/android/twittersnap/MainActivityPresenter.kt:66-72 | the line's element reports, in element order; stated by `LocalHandlesAreFilteredElements` and `MiddleHandleLine` |
| `Extraction.BlockEvents` | app/src/main/java/com/raywenderlich/android/twittersnap/MainActivityPresenter.kt:65-73 | the block's line reports, in line order; stated by `LocalHandlesAreFilteredElements` |
| `Extraction.LocalEvents` | app/src/main/java/com/raywenderlich/android/twittersnap/MainActivityPresenter.kt:58-74 | everything `processTextRecognitionResult` tells the view; its properties are stated by `LocalHandlesInOrder`, `LocalHandleMember` and `LocalTraceShape` |
| `Extraction.ResultTraceFacts` | app/src/main/java/com/raywenderlich/android/twittersnap/MainActivityPresenter.kt:124-130 | in a result trace, `hideProgress` comes first and only once; `showProgress` and `showBox` never appear; every shown handle starts with `@` and has length ≥ 2 |
| `Extraction.LocalHandlesAreFilteredElements` | app/src/main/java/com/raywenderlich/android/twittersnap/MainActivityPresenter.kt:65-73 | the nested block/line/element walk reports exactly `showHandle(e.text, e.box)` for the handle elements of the flattened tree, in order |
| `Extraction.AllElementsMember` | app/src/main/java/com/raywenderlich/android/twittersnap/MainActivityPresenter.kt:65-67 | an element is in the flattened tree iff some line of some block holds it |
| `Extraction.LocalHandlesInOrder` | app/src/main/java/com/raywenderlich/android/twittersnap/MainActivityPresenter.kt:59-73 | with at least one block: `hideProgress`, then each handle element once, in block → line → element order, and no other element |
| `Extraction.LocalHandleOrigin` | app/src/main/java/com/raywenderlich/android/twittersnap/MainActivityPresenter.kt:65-73 | a reported `showHandle(t, box)` comes from a handle element with that text and box |
| `Extraction.LocalHandleReported` | app/src/main/java/com/raywenderlich/android/twittersnap/MainActivityPresenter.kt:65-73 | every handle element in a non-empty result is reported with its own box |
| `Extraction.LocalHandleMember` | app/src/main/java/com/raywenderlich/android/twittersnap/MainActivityPresenter.kt:61-73 | both directions: `showHandle(t, box)` is reported iff there are blocks and the tree holds a handle element `(t, box)` |
| `Extraction.LocalTraceShape` | app/src/main/java/com/raywenderlich/android/twittersnap/MainActivityPresenter.kt:58-64 | the on-device trace is a result trace; the no-text message appears iff there are no blocks; in that case the trace is exactly `[hideProgress, showNoTextMessage]` |
| `Extraction.MiddleHandleLine` | app/src/main/java/com/raywenderlich/android/twittersnap/MainActivityPresenter.kt:66-72 | a line of three elements with only the middle one a handle reports that one handle |
| `Extraction.SingleLineText` | app/src/main/java/com/raywenderlich/android/twittersnap/MainActivityPresenter.kt:58-73 | a result of one block holding one line reports `hideProgress`, then what that line reports |
| `Extraction.LocalExample` | app/src/main/java/com/raywenderlich/android/twittersnap/MainActivityPresenter.kt:58-73 | `Contact <handle> today` gives exactly `[hideProgress, showHandle(handle, its box)]` |
| `Extraction.WordToString` | app/src/main/java/com/raywenderlich/android/twittersnap/MainActivityPresenter.kt:117-119 | the word's symbol texts joined with no separator; stated by `WordToStringLength` and `WordToStringConcat` |
| `Extraction.WordToStringLength` | app/src/main/java/com/raywenderlich/android/twittersnap/MainActivityPresenter.kt:117-119 | the joined word's length is the sum of its symbols' lengths |
| `Extraction.WordToStringConcat` | app/src/main/java/com/raywenderlich/android/twittersnap/MainActivityPresenter.kt:117-119 | symbols are joined in order with no separator: joining `a + b` is joining `a`, then joining `b` |
| `Extraction.MakePair` | app/src/main/java/com/raywenderlich/android/twittersnap/MainActivityPresenter.kt:106-108 | the `zipWithNext` transform: the two words' texts joined, paired with the second word; stated by `ParagraphPairs` |
| `Extraction.ParagraphPairs` | app/src/main/java/com/raywenderlich/android/twittersnap/MainActivityPresenter.kt:105-109 | a paragraph of `n` words has `max(n-1, 0)` candidates; candidate `m` is `wordToString(w[m]) + wordToString(w[m+1])`, paired with `w[m+1]` |
| `Extraction.ParagraphEvents` | app/src/main/java/com/raywenderlich/android/twittersnap/MainActivityPresenter.kt:104-111 | a paragraph of fewer than two words reports nothing; there are never more reports than adjacent-word pairs; every report is a handle-shaped `showHandle` |
| `Extraction.CloudBlockEvents` | app/src/main/java/com/raywenderlich/android/twittersnap/MainActivityPresenter.kt:104-112 | the block's paragraph reports, in paragraph order; stated by `CloudHandlesAreFilteredPairs` |
| `Extraction.PageEvents` | app/src/main/java/com/raywenderlich/android/twittersnap/MainActivityPresenter.kt:103-113 | the page's block reports, in block order; stated by `CloudHandlesAreFilteredPairs` |
| `Extraction.CloudEvents` | app/src/main/java/com/raywenderlich/android/twittersnap/MainActivityPresenter.kt:96-115 | everything `processCloudTextRecognitionResult` tells the view; its properties are stated by `CloudHandlesAreFilteredPairs`, `CloudHandleMember` and `CloudTraceShape` |
| `Extraction.CloudHandlesAreFilteredPairs` | app/src/main/java/com/raywenderlich/android/twittersnap/MainActivityPresenter.kt:102-114 | the nested page/block/paragraph walk reports exactly the handle-shaped pairs of the whole result, in page → block → paragraph → pair order, each with the second word's box |
| `Extraction.ParagraphPairsMember` | app/src/main/java/com/raywenderlich/android/twittersnap/MainActivityPresenter.kt:105-109 | a pair belongs to a paragraph iff it joins two adjacent words of it |
| `Extraction.BlockPairsMember` | app/src/main/java/com/raywenderlich/android/twittersnap/MainActivityPresenter.kt:104-109 | a block's pairs are the adjacent-word pairs of its paragraphs |
| `Extraction.PagePairsMember` | app/src/main/java/com/raywenderlich/android/twittersnap/MainActivityPresenter.kt:103-109 | a page's pairs are the adjacent-word pairs of its blocks' paragraphs |
| `Extraction.AllPairsMember` | app/src/main/java/com/raywenderlich/android/twittersnap/MainActivityPresenter.kt:102-109 | pairs never cross a paragraph boundary: each candidate is two adjacent words of one paragraph, and each such couple is a candidate |
| `Extraction.CloudHandleOrigin` | app/src/main/java/com/raywenderlich/android/twittersnap/MainActivityPresenter.kt:102-111 | a reported `showHandle(t, box)` has a handle-shaped `t`; `t` joins adjacent words of one paragraph, and `box` is the second word's box |
| `Extraction.CloudHandleReported` | app/src/main/java/com/raywenderlich/android/twittersnap/MainActivityPresenter.kt:102-111 | every adjacent pair whose joined text is a handle is reported, with the second word's box |
| `Extraction.CloudHandleMember` | app/src/main/java/com/raywenderlich/android/twittersnap/MainActivityPresenter.kt:102-111 | both directions of the two lemmas above |
| `Extraction.CloudTraceShape` | app/src/main/java/com/raywenderlich/android/twittersnap/MainActivityPresenter.kt:96-101 | the cloud trace is a result trace; the no-text message appears iff the result is null; a null result gives exactly `[hideProgress, showNoTextMessage]` |
| `Extraction.CloudWithoutPairs` | app/src/main/java/com/raywenderlich/android/twittersnap/MainActivityPresenter.kt:102-114 | a non-null result where no paragraph has two words gives exactly `[hideProgress]`: no handle and no no-text message. This covers no pages, no blocks and no words |
| `Extraction.SplitHandleExample` | app/src/main/java/com/raywenderlich/android/twittersnap/MainActivityPresenter.kt:104-111 | words `@`, `jane`, `doe` report exactly `showHandle("@jane", box of jane)`; the third token is never joined on |
| `Extraction.LoneHandleNotShown` | app/src/main/java/com/raywenderlich/android/twittersnap/MainActivityPresenter.kt:102-111 | a paragraph whose only word is a handle shows nothing: the whole result reports only `hideProgress` |
| `Extraction.HandleAbsorbsNextWord` | app/src/main/java/com/raywenderlich/android/twittersnap/MainActivityPresenter.kt:104-111 | for every handle word `a` followed by a `\w+` word `b`, the paragraph shows `a` and `b` joined, with `b`'s box |
| `Extraction.JoinedHandleExample` | app/src/main/java/com/raywenderlich/android/twittersnap/MainActivityPresenter.kt:104-111 | `@jane`, `doe` shows exactly `showHandle("@janedoe", box of doe)` |
| `Extraction.SpoiledPairNotShown` | app/src/main/java/com/raywenderlich/android/twittersnap/MainActivityPresenter.kt:106-111 | two words whose joined text is not a handle show nothing, whatever either word is alone |
| `Extraction.SpoiledJoinExample` | app/src/main/java/com/raywenderlich/android/twittersnap/MainActivityPresenter.kt:106-111 | `@jane`, `doe,` shows nothing, and neither does `@a`, `@b` |
| `Extraction.LocalRunEvents` | app/src/main/java/com/raywenderlich/android/twittersnap/MainActivityPresenter.kt:44-56 | `showProgress`, then what the success listener reports, or nothing after a failure; stated by `LocalRunShape` |
| `Extraction.LocalRunShape` | app/src/main/java/com/raywenderlich/android/twittersnap/MainActivityPresenter.kt:44-56 | a request opens with `showProgress`; `hideProgress` follows iff the detector succeeds; after a failure nothing else is reported |
| `Extraction.CloudRunEvents` | app/src/main/java/com/raywenderlich/android/twittersnap/MainActivityPresenter.kt:76-92 | the same for the cloud request; stated by `CloudRunShape` |
| `Extraction.CloudRunShape` | app/src/main/java/com/raywenderlich/android/twittersnap/MainActivityPresenter.kt:76-92 | the same for the cloud request |
| `Presenter.MainActivityPresenter.constructor` | app/src/main/java/com/raywenderlich/android/twittersnap/MainActivityPresenter.kt:42 | the presenter talks to the view it was given |
| `Presenter.MainActivityPresenter.RunTextRecognition` | app/src/main/java/com/raywenderlich/android/twittersnap/MainActivityPresenter.kt:44-56 | appends `showProgress`, then on success what `processTextRecognitionResult` appends; on failure nothing more (`LocalRunEvents`) |
| `Presenter.MainActivityPresenter.ProcessTextRecognitionResult` | app/src/main/java/com/raywenderlich/android/twittersnap/MainActivityPresenter.kt:58-74 | appends exactly `LocalEvents(texts)`; the loop invariants say which blocks have been reported |
| `Presenter.MainActivityPresenter.ReportBlock` | app/src/main/java/com/raywenderlich/android/twittersnap/MainActivityPresenter.kt:65-73 | the body of `blocks.forEach`: appends exactly `BlockEvents(block)` |
| `Presenter.MainActivityPresenter.ReportLine` | app/src/main/java/com/raywenderlich/android/twittersnap/MainActivityPresenter.kt:66-72 | the body of `block.lines.forEach`: appends exactly `LineEvents(line)` |
| `Presenter.MainActivityPresenter.RunCloudTextRecognition` | app/src/main/java/com/raywenderlich/android/twittersnap/MainActivityPresenter.kt:76-92 | appends `showProgress`, then on success what `processCloudTextRecognitionResult` appends; on failure nothing more (`CloudRunEvents`) |
| `Presenter.MainActivityPresenter.ProcessCloudTextRecognitionResult` | app/src/main/java/com/raywenderlich/android/twittersnap/MainActivityPresenter.kt:96-115 | appends exactly `CloudEvents(text)`; `None` models a null result |
| `Presenter.MainActivityPresenter.ReportPage` | app/src/main/java/com/raywenderlich/android/twittersnap/MainActivityPresenter.kt:102-114 | the body of `pages.forEach`: appends exactly `PageEvents(page)` |
| `Presenter.MainActivityPresenter.ReportCloudBlock` | app/src/main/java/com/raywenderlich/android/twittersnap/MainActivityPresenter.kt:103-113 | the body of `page.blocks.forEach`: appends exactly `CloudBlockEvents(block)` |
| `Presenter.MainActivityPresenter.ReportParagraph` | app/src/main/java/com/raywenderlich/android/twittersnap/MainActivityPresenter.kt:104-112 | `zipWithNext`, `filter`, then `forEach`: appends exactly `ParagraphEvents(paragraph)` |

`WordPair` (`MainActivityPresenter.kt:94`) is the datatype `Extraction.WordPair`.
It holds the joined text and the second word, which supplies the box.

Behaviour of the source worth noting:

- **Failure path.** A failed request never calls `hideProgress`: the
  failure listeners only print the stack trace (`MainActivityPresenter.kt:52-55, 89-91`).
  So after a failure the progress indicator stays visible, and
  `showProgress` is the last event (`LocalRunShape`, `CloudRunShape`).
- **Empty cloud result.** The cloud path gives the "no text" message only
  for a null result (`MainActivityPresenter.kt:98-101`). A non-null result
  without word pairs shows neither a handle nor the "no text" message: it
  reports only `hideProgress` (`CloudWithoutPairs`).
- **Cloud handles are found only in pairs.** A word that is a handle by
  itself is never shown when it is the only word of its paragraph
  (`LoneHandleNotShown`). A handle followed by a word made only of word
  characters is shown joined to it, with that word's box: `@jane`, `doe`
  shows `@janedoe` at the box of `doe` (`HandleAbsorbsNextWord`,
  `JoinedHandleExample`). If the next word holds any other character
  (`doe,`, another `@handle`), the joined text is not a handle, and neither
  word is shown by that pair (`SpoiledPairNotShown`, `SpoiledJoinExample`).

## Left out

- Calls into the Firebase ML Kit SDK are not modelled: `FirebaseVisionImage.fromBitmap`, detector construction, the cloud options (`LATEST_MODEL`, `setMaxResults(15)`), and asynchronous delivery. They are foreign code. The detector's answer is an input (`Detection`), and the listener that fires is assumed to run right after `showProgress`. Interleaving with other requests is not modelled.
- `e.printStackTrace()` in the failure listeners is console I/O. It is modelled as reporting nothing to the view.
- The `Bitmap` argument of the `run…` methods is dropped: the presenter only forwards it to the SDK.
- `MainActivity.kt` is Android UI wiring and is not part of this model. That covers image picking, `resizeImage` (float scaling), the FAB mode switch, and the `View` implementation (the overlay for `showHandle` and `showBox`, a Toast for `showNoTextMessage`, the progress bar's visibility for `showProgress` and `hideProgress`). This includes its `overlay.clear()` before each recognition request.
- `TextGraphic.kt` and the overlay are canvas drawing and are not part of this model.
- `Rect` geometry is never inspected. Boxes are carried through unchanged.
- The recognition trees keep only the fields the presenter reads. The per-block and per-line text and boxes, confidence values and languages are dropped.
- `looksLikeHandle` is a hand-written matcher for the single fixed pattern `@(\w+)`, not a regex engine. `\w` is modelled as the ASCII class `[A-Za-z0-9_]`. That is a modelling choice: on Android the regex engine is backed by ICU, whose `\w` may also match non-ASCII letters and digits, so a token such as `@josé` can be a handle on a device but is not one here. Strings are sequences of `char`.
