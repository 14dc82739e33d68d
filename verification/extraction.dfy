/**
 * The handle extractor as a specification: the exact sequence of `View`
 * calls a completed recognition produces, in each mode, written the way the
 * presenter nests its loops, and the properties of those sequences.
 */
module Extraction {
  import opened Wrappers
  import opened Seqs
  import opened Handles
  import opened Vision
  import opened Views

  /**
   * What a completed recognition reports: `hideProgress` first and nowhere
   * else, then only the no-text message or `showHandle` calls whose text is
   * handle-shaped; never `showBox` and never `showProgress`.
   */
  ghost predicate IsResultTrace(r: seq<Event>)
  {
    && |r| >= 1
    && r[0] == HideProgress
    && forall i :: 1 <= i < |r| ==> r[i] == ShowNoTextMessage || (r[i].ShowHandle? && LooksLikeHandle(r[i].text))
  }

  /** The consequences of `IsResultTrace` that a screen relies on. */
  lemma ResultTraceFacts(r: seq<Event>)
    requires IsResultTrace(r)
    ensures r[0] == HideProgress
    ensures forall i :: 1 <= i < |r| ==> r[i] != HideProgress && r[i] != ShowProgress && !r[i].ShowBox?
    ensures forall i :: 0 <= i < |r| && r[i].ShowHandle? ==> |r[i].text| >= 2 && r[i].text[0] == '@'
  {
  }

  // ---------------------------------------------------------------------
  // On-device mode

  /** One element's contribution: `showHandle(text, box)` when its text is a handle. */
  function ElementEvents(e: Element): seq<Event>
  {
    if LooksLikeHandle(e.text) then [ShowHandle(e.text, e.boundingBox)] else []
  }

  function LineEvents(l: Line): seq<Event>
  {
    FlatMap(l.elements, ElementEvents)
  }

  function BlockEvents(b: Block): seq<Event>
  {
    FlatMap(b.lines, LineEvents)
  }

  /** Everything `processTextRecognitionResult` tells the view. */
  function LocalEvents(texts: Text): seq<Event>
  {
    [HideProgress] + if |texts.blocks| == 0 then [ShowNoTextMessage] else FlatMap(texts.blocks, BlockEvents)
  }

  // Reference view: the elements in block, line, element order, then a filter.

  function LineElements(l: Line): seq<Element>
  {
    l.elements
  }

  function BlockElements(b: Block): seq<Element>
  {
    FlatMap(b.lines, LineElements)
  }

  function AllElements(blocks: seq<Block>): seq<Element>
  {
    FlatMap(blocks, BlockElements)
  }

  predicate IsHandleElement(e: Element)
  {
    LooksLikeHandle(e.text)
  }

  function ShowElement(e: Element): Event
  {
    ShowHandle(e.text, e.boundingBox)
  }

  /** The nested loops report exactly the handle elements of the flattened tree, in order. */
  lemma LocalHandlesAreFilteredElements(blocks: seq<Block>)
    ensures FlatMap(blocks, BlockEvents) == Map(Filter(AllElements(blocks), IsHandleElement), ShowElement)
  {
    forall b: Block
      ensures BlockEvents(b) == FlatMap(BlockElements(b), ElementEvents)
    {
      FlatMapFlatMap(b.lines, LineElements, ElementEvents, LineEvents);
    }
    FlatMapFlatMap(blocks, BlockElements, ElementEvents, BlockEvents);
    FlatMapIsFilterMap(AllElements(blocks), ElementEvents, IsHandleElement, ShowElement);
  }

  /** An element is in the flattened tree exactly when some line of some block holds it. */
  lemma AllElementsMember(blocks: seq<Block>, e: Element)
    ensures e in AllElements(blocks) <==>
            exists i, j :: 0 <= i < |blocks| && 0 <= j < |blocks[i].lines| && e in blocks[i].lines[j].elements
  {
    FlatMapMember(blocks, BlockElements, e);
    forall i | 0 <= i < |blocks|
      ensures e in BlockElements(blocks[i]) <==> exists j :: 0 <= j < |blocks[i].lines| && e in blocks[i].lines[j].elements
    {
      FlatMapMember(blocks[i].lines, LineElements, e);
    }
  }

  /**
   * `evs` reports the elements of `es` at positions `idx`, once each and in
   * order, and those positions are exactly the handle-shaped elements.
   */
  ghost predicate ReportsHandles(es: seq<Element>, evs: seq<Event>, idx: seq<nat>)
  {
    && |idx| == |evs|
    && (forall k :: 0 <= k < |idx| ==> idx[k] < |es| && evs[k] == ShowHandle(es[idx[k]].text, es[idx[k]].boundingBox))
    && (forall k, m :: 0 <= k < m < |idx| ==> idx[k] < idx[m])
    && (forall i :: 0 <= i < |es| ==> (LooksLikeHandle(es[i].text) <==> i in idx))
  }

  /** With at least one block: `hideProgress`, then every handle element once, in tree order. */
  lemma LocalHandlesInOrder(texts: Text)
    requires |texts.blocks| > 0
    ensures LocalEvents(texts)[0] == HideProgress
    ensures exists idx :: ReportsHandles(AllElements(texts.blocks), LocalEvents(texts)[1..], idx)
  {
    var es := AllElements(texts.blocks);
    var hs := Filter(es, IsHandleElement);
    LocalHandlesAreFilteredElements(texts.blocks);
    assert LocalEvents(texts)[1..] == Map(hs, ShowElement);
    FilterSelects(es, IsHandleElement);
    var idx :| SelectsPositions(es, IsHandleElement, hs, idx);
    SelectionReportsHandles(es, hs, idx);
  }

  /** Showing the selected handle elements reports them at their positions. */
  lemma SelectionReportsHandles(es: seq<Element>, hs: seq<Element>, idx: seq<nat>)
    requires SelectsPositions(es, IsHandleElement, hs, idx)
    ensures ReportsHandles(es, Map(hs, ShowElement), idx)
  {
  }

  lemma LocalHandleOrigin(texts: Text, t: string, box: Option<Rect>)
    requires ShowHandle(t, box) in LocalEvents(texts)
    ensures |texts.blocks| > 0 && LooksLikeHandle(t) && Element(t, box) in AllElements(texts.blocks)
  {
    var hs := Filter(AllElements(texts.blocks), IsHandleElement);
    if |texts.blocks| > 0 {
      LocalHandlesAreFilteredElements(texts.blocks);
      assert ShowHandle(t, box) in Map(hs, ShowElement);
      var k :| 0 <= k < |Map(hs, ShowElement)| && Map(hs, ShowElement)[k] == ShowHandle(t, box);
      assert hs[k] in hs && hs[k] == Element(t, box);
    }
  }

  lemma LocalHandleReported(texts: Text, t: string, box: Option<Rect>)
    requires |texts.blocks| > 0 && LooksLikeHandle(t) && Element(t, box) in AllElements(texts.blocks)
    ensures ShowHandle(t, box) in LocalEvents(texts)
  {
    var hs := Filter(AllElements(texts.blocks), IsHandleElement);
    LocalHandlesAreFilteredElements(texts.blocks);
    assert Element(t, box) in hs;
    var k :| 0 <= k < |hs| && hs[k] == Element(t, box);
    assert Map(hs, ShowElement)[k] == ShowHandle(t, box);
    assert LocalEvents(texts) == [HideProgress] + Map(hs, ShowElement);
  }

  /** `showHandle(t, box)` is reported exactly when an element with that text and box is a handle. */
  lemma LocalHandleMember(texts: Text, t: string, box: Option<Rect>)
    ensures ShowHandle(t, box) in LocalEvents(texts) <==>
            |texts.blocks| > 0 && LooksLikeHandle(t) && Element(t, box) in AllElements(texts.blocks)
  {
    if ShowHandle(t, box) in LocalEvents(texts) {
      LocalHandleOrigin(texts, t, box);
    }
    if |texts.blocks| > 0 && LooksLikeHandle(t) && Element(t, box) in AllElements(texts.blocks) {
      LocalHandleReported(texts, t, box);
    }
  }

  /** The shape of the on-device trace, including the no-text outcome. */
  lemma LocalTraceShape(texts: Text)
    ensures IsResultTrace(LocalEvents(texts))
    ensures ShowNoTextMessage in LocalEvents(texts) <==> |texts.blocks| == 0
    ensures |texts.blocks| == 0 ==> LocalEvents(texts) == [HideProgress, ShowNoTextMessage]
  {
    var r := LocalEvents(texts);
    if |texts.blocks| > 0 {
      var hs := Filter(AllElements(texts.blocks), IsHandleElement);
      LocalHandlesAreFilteredElements(texts.blocks);
      assert r == [HideProgress] + Map(hs, ShowElement);
      forall i | 1 <= i < |r|
        ensures r[i].ShowHandle? && LooksLikeHandle(r[i].text)
      {
        assert hs[i - 1] in hs;
      }
    }
  }

  // ---------------------------------------------------------------------
  // Cloud mode

  function SymbolText(s: Symbol): string
  {
    s.text
  }

  /** `wordToString`: the word's symbol texts joined with no separator. */
  function WordToString(w: Word): string
  {
    FlatMap(w.symbols, SymbolText)
  }

  function SymbolsLength(symbols: seq<Symbol>): nat
  {
    if symbols == [] then 0 else |symbols[0].text| + SymbolsLength(symbols[1..])
  }

  lemma {:induction false} WordToStringLength(w: Word)
    ensures |WordToString(w)| == SymbolsLength(w.symbols)
    decreases |w.symbols|
  {
    if w.symbols != [] {
      WordToStringLength(Word(w.symbols[1..], w.boundingBox));
    }
  }

  /** Joining is compositional: the symbols of `a` then those of `b`. */
  lemma WordToStringConcat(a: seq<Symbol>, b: seq<Symbol>, box: Option<Rect>)
    ensures WordToString(Word(a + b, box)) == WordToString(Word(a, box)) + WordToString(Word(b, box))
  {
    FlatMapAppend(a, b, SymbolText);
  }

  /** `WordPair`: the joined text of two adjacent words, and the second word. */
  datatype WordPair = WordPair(word: string, handle: Word)

  function MakePair(a: Word, b: Word): WordPair
  {
    WordPair(WordToString(a) + WordToString(b), b)
  }

  /** `paragraph.words.zipWithNext { a, b -> ... }`. */
  function ParagraphPairs(p: Paragraph): (r: seq<WordPair>)
    ensures |r| == if |p.words| < 2 then 0 else |p.words| - 1
    ensures forall m {:trigger r[m]} :: 0 <= m < |r| ==>
              r[m].word == WordToString(p.words[m]) + WordToString(p.words[m + 1]) && r[m].handle == p.words[m + 1]
  {
    ZipWithNext(p.words, MakePair)
  }

  predicate IsHandlePair(wp: WordPair)
  {
    LooksLikeHandle(wp.word)
  }

  function ShowPair(wp: WordPair): Event
  {
    ShowHandle(wp.word, wp.handle.boundingBox)
  }

  /** One paragraph's contribution: the pairs that look like handles, each with the second word's box. */
  function ParagraphEvents(p: Paragraph): (r: seq<Event>)
    ensures |p.words| < 2 ==> r == []
    ensures |r| <= |ParagraphPairs(p)|
    ensures forall e :: e in r ==> e.ShowHandle? && LooksLikeHandle(e.text)
  {
    var pairs := ParagraphPairs(p);
    var hs := Filter(pairs, IsHandlePair);
    assert forall k :: 0 <= k < |hs| ==> hs[k] in hs && IsHandlePair(hs[k]);
    Map(hs, ShowPair)
  }

  function CloudBlockEvents(b: CloudBlock): seq<Event>
  {
    FlatMap(b.paragraphs, ParagraphEvents)
  }

  function PageEvents(pg: Page): seq<Event>
  {
    FlatMap(pg.blocks, CloudBlockEvents)
  }

  /** Everything `processCloudTextRecognitionResult` tells the view; `None` is a null result. */
  function CloudEvents(text: Option<CloudText>): seq<Event>
  {
    [HideProgress] + match text
      case None => [ShowNoTextMessage]
      case Some(t) => FlatMap(t.pages, PageEvents)
  }

  // Reference view: every adjacent pair of every paragraph, in tree order, then a filter.

  function BlockPairs(b: CloudBlock): seq<WordPair>
  {
    FlatMap(b.paragraphs, ParagraphPairs)
  }

  function PagePairs(pg: Page): seq<WordPair>
  {
    FlatMap(pg.blocks, BlockPairs)
  }

  function AllPairs(pages: seq<Page>): seq<WordPair>
  {
    FlatMap(pages, PagePairs)
  }

  function PairEvents(wp: WordPair): seq<Event>
  {
    if IsHandlePair(wp) then [ShowPair(wp)] else []
  }

  /** The nested loops report exactly the handle-shaped pairs of the whole result, in order. */
  lemma CloudHandlesAreFilteredPairs(pages: seq<Page>)
    ensures FlatMap(pages, PageEvents) == Map(Filter(AllPairs(pages), IsHandlePair), ShowPair)
  {
    forall p: Paragraph
      ensures ParagraphEvents(p) == FlatMap(ParagraphPairs(p), PairEvents)
    {
      FlatMapIsFilterMap(ParagraphPairs(p), PairEvents, IsHandlePair, ShowPair);
    }
    forall b: CloudBlock
      ensures CloudBlockEvents(b) == FlatMap(BlockPairs(b), PairEvents)
    {
      FlatMapFlatMap(b.paragraphs, ParagraphPairs, PairEvents, ParagraphEvents);
    }
    forall pg: Page
      ensures PageEvents(pg) == FlatMap(PagePairs(pg), PairEvents)
    {
      FlatMapFlatMap(pg.blocks, BlockPairs, PairEvents, CloudBlockEvents);
    }
    FlatMapFlatMap(pages, PagePairs, PairEvents, PageEvents);
    FlatMapIsFilterMap(AllPairs(pages), PairEvents, IsHandlePair, ShowPair);
  }

  /** `m`, `m + 1` are adjacent words of paragraph `k` of block `j` of page `i`. */
  ghost predicate IsPairIndex(pages: seq<Page>, i: int, j: int, k: int, m: int)
  {
    && 0 <= i < |pages|
    && 0 <= j < |pages[i].blocks|
    && 0 <= k < |pages[i].blocks[j].paragraphs|
    && 0 <= m && m + 1 < |pages[i].blocks[j].paragraphs[k].words|
  }

  lemma ParagraphPairsMember(p: Paragraph, wp: WordPair)
    ensures wp in ParagraphPairs(p) <==>
            exists m :: 0 <= m && m + 1 < |p.words| && wp == MakePair(p.words[m], p.words[m + 1])
  {
    var r := ParagraphPairs(p);
    if wp in r {
      var m :| 0 <= m < |r| && r[m] == wp;
      assert wp == MakePair(p.words[m], p.words[m + 1]);
    }
    if exists m :: 0 <= m && m + 1 < |p.words| && wp == MakePair(p.words[m], p.words[m + 1]) {
      var m :| 0 <= m && m + 1 < |p.words| && wp == MakePair(p.words[m], p.words[m + 1]);
      assert r[m] == wp;
    }
  }

  lemma BlockPairsMember(b: CloudBlock, wp: WordPair)
    ensures wp in BlockPairs(b) <==>
            exists k, m :: 0 <= k < |b.paragraphs| && 0 <= m && m + 1 < |b.paragraphs[k].words|
                           && wp == MakePair(b.paragraphs[k].words[m], b.paragraphs[k].words[m + 1])
  {
    FlatMapMember(b.paragraphs, ParagraphPairs, wp);
    forall k | 0 <= k < |b.paragraphs| {
      ParagraphPairsMember(b.paragraphs[k], wp);
    }
  }

  lemma PagePairsMember(pg: Page, wp: WordPair)
    ensures wp in PagePairs(pg) <==>
            exists j, k, m :: 0 <= j < |pg.blocks| && 0 <= k < |pg.blocks[j].paragraphs|
                              && 0 <= m && m + 1 < |pg.blocks[j].paragraphs[k].words|
                              && wp == MakePair(pg.blocks[j].paragraphs[k].words[m], pg.blocks[j].paragraphs[k].words[m + 1])
  {
    FlatMapMember(pg.blocks, BlockPairs, wp);
    forall j | 0 <= j < |pg.blocks| {
      BlockPairsMember(pg.blocks[j], wp);
    }
  }

  /** Pairs never cross a paragraph boundary: each is two adjacent words of one paragraph. */
  lemma AllPairsMember(pages: seq<Page>, wp: WordPair)
    ensures wp in AllPairs(pages) <==>
            exists i, j, k, m :: IsPairIndex(pages, i, j, k, m)
                                 && wp == MakePair(pages[i].blocks[j].paragraphs[k].words[m],
                                                   pages[i].blocks[j].paragraphs[k].words[m + 1])
  {
    FlatMapMember(pages, PagePairs, wp);
    forall i | 0 <= i < |pages| {
      PagePairsMember(pages[i], wp);
    }
  }

  /** Adjacent words `m`, `m + 1` of paragraph `k` of block `j` of page `i` join to `t`, the second boxed by `box`. */
  ghost predicate JoinsAt(pages: seq<Page>, i: int, j: int, k: int, m: int, t: string, box: Option<Rect>)
  {
    && IsPairIndex(pages, i, j, k, m)
    && t == WordToString(pages[i].blocks[j].paragraphs[k].words[m])
            + WordToString(pages[i].blocks[j].paragraphs[k].words[m + 1])
    && box == pages[i].blocks[j].paragraphs[k].words[m + 1].boundingBox
  }

  lemma CloudHandleOrigin(text: CloudText, t: string, box: Option<Rect>)
    requires ShowHandle(t, box) in CloudEvents(Some(text))
    ensures LooksLikeHandle(t) && exists i, j, k, m :: JoinsAt(text.pages, i, j, k, m, t, box)
  {
    var pages := text.pages;
    var hs := Filter(AllPairs(pages), IsHandlePair);
    CloudHandlesAreFilteredPairs(pages);
    assert ShowHandle(t, box) in Map(hs, ShowPair);
    var n :| 0 <= n < |Map(hs, ShowPair)| && Map(hs, ShowPair)[n] == ShowHandle(t, box);
    var wp := hs[n];
    assert wp in hs;
    AllPairsMember(pages, wp);
    var i, j, k, m :| IsPairIndex(pages, i, j, k, m)
                      && wp == MakePair(pages[i].blocks[j].paragraphs[k].words[m],
                                        pages[i].blocks[j].paragraphs[k].words[m + 1]);
    assert JoinsAt(pages, i, j, k, m, t, box);
  }

  lemma CloudHandleReported(text: CloudText, t: string, box: Option<Rect>, i: int, j: int, k: int, m: int)
    requires LooksLikeHandle(t) && JoinsAt(text.pages, i, j, k, m, t, box)
    ensures ShowHandle(t, box) in CloudEvents(Some(text))
  {
    var pages := text.pages;
    var hs := Filter(AllPairs(pages), IsHandlePair);
    CloudHandlesAreFilteredPairs(pages);
    var wp := MakePair(pages[i].blocks[j].paragraphs[k].words[m], pages[i].blocks[j].paragraphs[k].words[m + 1]);
    AllPairsMember(pages, wp);
    assert wp in hs;
    var n :| 0 <= n < |hs| && hs[n] == wp;
    assert Map(hs, ShowPair)[n] == ShowHandle(t, box);
    assert CloudEvents(Some(text)) == [HideProgress] + Map(hs, ShowPair);
  }

  /**
   * `showHandle(t, box)` is reported for a result exactly when two adjacent
   * words of one paragraph join to the handle-shaped `t` and `box` is the
   * second word's bounding box.
   */
  lemma CloudHandleMember(text: CloudText, t: string, box: Option<Rect>)
    ensures ShowHandle(t, box) in CloudEvents(Some(text)) <==>
            LooksLikeHandle(t) && exists i, j, k, m :: JoinsAt(text.pages, i, j, k, m, t, box)
  {
    if ShowHandle(t, box) in CloudEvents(Some(text)) {
      CloudHandleOrigin(text, t, box);
    }
    if LooksLikeHandle(t) && exists i, j, k, m :: JoinsAt(text.pages, i, j, k, m, t, box) {
      var i, j, k, m :| JoinsAt(text.pages, i, j, k, m, t, box);
      CloudHandleReported(text, t, box, i, j, k, m);
    }
  }

  /** The shape of the cloud trace: the no-text message comes only from a null result. */
  lemma CloudTraceShape(text: Option<CloudText>)
    ensures IsResultTrace(CloudEvents(text))
    ensures ShowNoTextMessage in CloudEvents(text) <==> text.None?
    ensures text.None? ==> CloudEvents(text) == [HideProgress, ShowNoTextMessage]
  {
    var r := CloudEvents(text);
    if text.Some? {
      var hs := Filter(AllPairs(text.value.pages), IsHandlePair);
      CloudHandlesAreFilteredPairs(text.value.pages);
      assert r == [HideProgress] + Map(hs, ShowPair);
      forall i | 1 <= i < |r|
        ensures r[i].ShowHandle? && LooksLikeHandle(r[i].text)
      {
        assert hs[i - 1] in hs;
      }
    }
  }

  /** No paragraph of the result has two words: nothing to pair. */
  ghost predicate HasNoAdjacentWords(text: CloudText)
  {
    forall i, j, k :: 0 <= i < |text.pages| && 0 <= j < |text.pages[i].blocks| && 0 <= k < |text.pages[i].blocks[j].paragraphs|
                      ==> |text.pages[i].blocks[j].paragraphs[k].words| < 2
  }

  /**
   * A non-null result without pages, blocks, or a paragraph of two words
   * yields only `hideProgress`: no handle, and no "no text" message either.
   */
  lemma CloudWithoutPairs(text: CloudText)
    requires HasNoAdjacentWords(text)
    ensures CloudEvents(Some(text)) == [HideProgress]
  {
    var ps := AllPairs(text.pages);
    if ps != [] {
      AllPairsMember(text.pages, ps[0]);
      assert false;
    }
    CloudHandlesAreFilteredPairs(text.pages);
  }

  /**
   * A handle the recognizer split into `@` and a name is recovered from the
   * pair; a third token is never joined on (`@`, `jane`, `doe` gives `@jane`).
   */
  lemma SplitHandleExample(box0: Option<Rect>, box1: Option<Rect>, box2: Option<Rect>)
    ensures ParagraphEvents(Paragraph([Word([Symbol("@")], box0), Word([Symbol("jane")], box1), Word([Symbol("doe")], box2)]))
            == [ShowHandle("@jane", box1)]
  {
    var w0, w1, w2 := Word([Symbol("@")], box0), Word([Symbol("jane")], box1), Word([Symbol("doe")], box2);
    assert WordToString(w0) == "@" by { assert FlatMap(w0.symbols, SymbolText) == "@" + FlatMap([], SymbolText); }
    assert WordToString(w1) == "jane" by { assert FlatMap(w1.symbols, SymbolText) == "jane" + FlatMap([], SymbolText); }
    assert WordToString(w2) == "doe" by { assert FlatMap(w2.symbols, SymbolText) == "doe" + FlatMap([], SymbolText); }
    var ws := [w0, w1, w2];
    var pairs := ParagraphPairs(Paragraph(ws));
    assert ws[1] == w1 && ws[2] == w2;
    assert pairs[1].word == WordToString(ws[1]) + WordToString(ws[2]);
    assert "@" + "jane" == "@jane" && "jane" + "doe" == "janedoe";
    assert pairs[0] == WordPair("@jane", w1) && pairs[1] == WordPair("janedoe", w2);
    assert pairs == [pairs[0], pairs[1]];
    AcceptsShortHandle();
    assert !IsHandlePair(pairs[1]);
    assert Filter(pairs, IsHandlePair) == [pairs[0]] by {
      assert pairs[1..] == [pairs[1]];
      assert Filter([pairs[1]], IsHandlePair) == [] + Filter([], IsHandlePair);
    }
  }

  /**
   * A word whose text alone is a handle is never shown when it is the only
   * word of its paragraph: there is no pair to form.
   */
  lemma LoneHandleNotShown(w: Word)
    requires LooksLikeHandle(WordToString(w))
    ensures CloudEvents(Some(CloudText([Page([CloudBlock([Paragraph([w])])])]))) == [HideProgress]
  {
    var text := CloudText([Page([CloudBlock([Paragraph([w])])])]);
    assert HasNoAdjacentWords(text);
    CloudWithoutPairs(text);
  }

  /**
   * A handle followed by a word is shown joined to it, with the box of the
   * second word: `@jane`, `doe` gives `@janedoe` (see `JoinedHandleExample`).
   */
  lemma HandleAbsorbsNextWord(a: Word, b: Word)
    requires LooksLikeHandle(WordToString(a)) && MatchesWordRun(WordToString(b))
    ensures ParagraphEvents(Paragraph([a, b])) == [ShowHandle(WordToString(a) + WordToString(b), b.boundingBox)]
  {
    var pairs := ParagraphPairs(Paragraph([a, b]));
    assert pairs == [WordPair(WordToString(a) + WordToString(b), b)];
    HandleThenWord(WordToString(a), WordToString(b));
    assert Filter(pairs, IsHandlePair) == [pairs[0]] + Filter([], IsHandlePair);
  }

  lemma JoinedHandleExample(box0: Option<Rect>, box1: Option<Rect>)
    ensures ParagraphEvents(Paragraph([Word([Symbol("@jane")], box0), Word([Symbol("doe")], box1)]))
            == [ShowHandle("@janedoe", box1)]
  {
    var w0, w1 := Word([Symbol("@jane")], box0), Word([Symbol("doe")], box1);
    assert WordToString(w0) == "@jane" by { assert FlatMap(w0.symbols, SymbolText) == "@jane" + FlatMap([], SymbolText); }
    assert WordToString(w1) == "doe" by { assert FlatMap(w1.symbols, SymbolText) == "doe" + FlatMap([], SymbolText); }
    AcceptsShortHandle();
    var doe := "doe";
    forall i | 0 <= i < |doe|
      ensures IsWordChar(doe[i])
    {
      assert 'a' <= doe[i] <= 'z';
    }
    HandleAbsorbsNextWord(w0, w1);
    assert "@jane" + "doe" == "@janedoe";
  }

  /** Two words whose joined text is not a handle show nothing, even when the first is a handle alone. */
  lemma SpoiledPairNotShown(a: Word, b: Word)
    requires !LooksLikeHandle(WordToString(a) + WordToString(b))
    ensures ParagraphEvents(Paragraph([a, b])) == []
  {
    var pairs := ParagraphPairs(Paragraph([a, b]));
    assert pairs == [WordPair(WordToString(a) + WordToString(b), b)];
    assert Filter(pairs, IsHandlePair) == Filter([], IsHandlePair);
  }

  /** `@jane`, `doe,` joins to `@janedoe,` and `@a`, `@b` to `@a@b`: neither is a handle. */
  lemma SpoiledJoinExample(box0: Option<Rect>, box1: Option<Rect>)
    ensures ParagraphEvents(Paragraph([Word([Symbol("@jane")], box0), Word([Symbol("doe,")], box1)])) == []
    ensures ParagraphEvents(Paragraph([Word([Symbol("@a")], box0), Word([Symbol("@b")], box1)])) == []
  {
    var w0, w1 := Word([Symbol("@jane")], box0), Word([Symbol("doe,")], box1);
    assert WordToString(w0) == "@jane" by { assert FlatMap(w0.symbols, SymbolText) == "@jane" + FlatMap([], SymbolText); }
    assert WordToString(w1) == "doe," by { assert FlatMap(w1.symbols, SymbolText) == "doe," + FlatMap([], SymbolText); }
    var j := "@jane" + "doe,";
    assert j[8] == ',';
    SpoiledPairNotShown(w0, w1);
    var v0, v1 := Word([Symbol("@a")], box0), Word([Symbol("@b")], box1);
    assert WordToString(v0) == "@a" by { assert FlatMap(v0.symbols, SymbolText) == "@a" + FlatMap([], SymbolText); }
    assert WordToString(v1) == "@b" by { assert FlatMap(v1.symbols, SymbolText) == "@b" + FlatMap([], SymbolText); }
    var k := "@a" + "@b";
    assert k[2] == '@';
    SpoiledPairNotShown(v0, v1);
  }

  /** A line of three elements of which only the middle one is a handle. */
  lemma MiddleHandleLine(e0: Element, e1: Element, e2: Element)
    requires !LooksLikeHandle(e0.text) && LooksLikeHandle(e1.text) && !LooksLikeHandle(e2.text)
    ensures LineEvents(Line([e0, e1, e2])) == [ShowHandle(e1.text, e1.boundingBox)]
  {
    calc {
      FlatMap([e0, e1, e2], ElementEvents);
      ElementEvents(e0) + FlatMap([e1, e2], ElementEvents);
      { assert [e1, e2][1..] == [e2]; }
      ElementEvents(e0) + ElementEvents(e1) + FlatMap([e2], ElementEvents);
      { assert [e2][1..] == []; }
      ElementEvents(e0) + ElementEvents(e1) + ElementEvents(e2) + FlatMap([], ElementEvents);
      [ShowHandle(e1.text, e1.boundingBox)];
    }
  }

  /** A result of one block of one line reports what that line reports. */
  lemma SingleLineText(line: Line)
    ensures LocalEvents(Text([Block([line])])) == [HideProgress] + LineEvents(line)
  {
    assert FlatMap([line], LineEvents) == LineEvents(line) + FlatMap([], LineEvents);
    var block := Block([line]);
    assert FlatMap([block], BlockEvents) == BlockEvents(block) + FlatMap([], BlockEvents);
  }

  /**
   * A line reading `Contact <handle> today`, such as `Contact @raywenderlich
   * today` (see `AcceptsHandle`), reports the one handle with its own box.
   */
  lemma LocalExample(handle: string, box0: Option<Rect>, box1: Option<Rect>, box2: Option<Rect>)
    requires LooksLikeHandle(handle)
    ensures LocalEvents(Text([Block([Line([Element("Contact", box0), Element(handle, box1), Element("today", box2)])])]))
            == [HideProgress, ShowHandle(handle, box1)]
  {
    var line := Line([Element("Contact", box0), Element(handle, box1), Element("today", box2)]);
    assert "Contact"[0] == 'C' && "today"[0] == 't';
    MiddleHandleLine(line.elements[0], line.elements[1], line.elements[2]);
    SingleLineText(line);
  }

  // ---------------------------------------------------------------------
  // A whole request: `showProgress`, then whatever the listener that fires reports.

  /** `runTextRecognition` followed by its success or failure listener. */
  function LocalRunEvents(d: Detection<Text>): seq<Event>
  {
    [ShowProgress] + match d
      case Detected(texts) => LocalEvents(texts)
      case DetectionFailed => []
  }

  /** `runCloudTextRecognition` followed by its success or failure listener. */
  function CloudRunEvents(d: Detection<Option<CloudText>>): seq<Event>
  {
    [ShowProgress] + match d
      case Detected(text) => CloudEvents(text)
      case DetectionFailed => []
  }

  /**
   * A request opens with `showProgress`; `hideProgress` follows exactly when
   * the detector succeeds, and a failure reports nothing more.
   */
  lemma LocalRunShape(d: Detection<Text>)
    ensures LocalRunEvents(d)[0] == ShowProgress
    ensures HideProgress in LocalRunEvents(d) <==> d.Detected?
    ensures d.DetectionFailed? ==> LocalRunEvents(d) == [ShowProgress]
    ensures d.Detected? ==> IsResultTrace(LocalRunEvents(d)[1..])
  {
    if d.Detected? {
      LocalTraceShape(d.result);
      assert LocalRunEvents(d)[1..] == LocalEvents(d.result);
    }
  }

  lemma CloudRunShape(d: Detection<Option<CloudText>>)
    ensures CloudRunEvents(d)[0] == ShowProgress
    ensures HideProgress in CloudRunEvents(d) <==> d.Detected?
    ensures d.DetectionFailed? ==> CloudRunEvents(d) == [ShowProgress]
    ensures d.Detected? ==> IsResultTrace(CloudRunEvents(d)[1..])
  {
    if d.Detected? {
      CloudTraceShape(d.result);
      assert CloudRunEvents(d)[1..] == CloudEvents(d.result);
    }
  }
}
