/**
 * `MainActivityPresenter`: walks a recognition result with nested loops and
 * calls its view as it goes. Each method is proved to leave the view with
 * exactly the calls the extraction specification lists, appended to what
 * was there before.
 */
module Presenter {
  import opened Wrappers
  import opened Seqs
  import opened Handles
  import opened Vision
  import opened Views
  import opened Extraction

  class MainActivityPresenter {
    const view: View

    constructor (view: View)
      ensures this.view == view
    {
      this.view := view;
    }

    /**
     * `runTextRecognition`: show progress, hand the image to the on-device
     * detector, and let whichever listener fires finish the request; the
     * failure listener only logs.
     */
    method RunTextRecognition(detection: Detection<Text>)
      modifies view
      ensures view.events == old(view.events) + LocalRunEvents(detection)
    {
      view.ShowProgress();
      ghost var before := old(view.events);
      if detection.Detected? {
        ProcessTextRecognitionResult(detection.result);
        AppendAssoc(before, [Event.ShowProgress], LocalEvents(detection.result));
      } else {
        assert LocalRunEvents(detection) == [Event.ShowProgress];
      }
    }

    /** `processTextRecognitionResult`: every handle element, block by block, line by line. */
    method ProcessTextRecognitionResult(texts: Text)
      modifies view
      ensures view.events == old(view.events) + LocalEvents(texts)
    {
      view.HideProgress();
      var blocks := texts.blocks;
      if |blocks| == 0 {
        view.ShowNoTextMessage();
        assert LocalEvents(texts) == [Event.HideProgress, Event.ShowNoTextMessage];
        return;
      }
      ghost var before := view.events;
      assert LocalEvents(texts) == [Event.HideProgress] + FlatMap(blocks, BlockEvents);
      AppendAssoc(old(view.events), [Event.HideProgress], FlatMap(blocks, BlockEvents));
      var i := 0;
      while i < |blocks|
        invariant 0 <= i <= |blocks|
        invariant view.events == before + FlatMap(blocks[..i], BlockEvents)
      {
        ReportBlock(blocks[i]);
        FlatMapStep(before, blocks, i, BlockEvents);
        i := i + 1;
      }
      assert blocks[..i] == blocks;
    }

    /** The body of the `blocks.forEach` loop. */
    method ReportBlock(block: Block)
      modifies view
      ensures view.events == old(view.events) + BlockEvents(block)
    {
      var lines := block.lines;
      var j := 0;
      while j < |lines|
        invariant 0 <= j <= |lines|
        invariant view.events == old(view.events) + FlatMap(lines[..j], LineEvents)
      {
        ReportLine(lines[j]);
        FlatMapStep(old(view.events), lines, j, LineEvents);
        j := j + 1;
      }
      assert lines[..j] == lines;
    }

    /** The body of the `block.lines.forEach` loop. */
    method ReportLine(line: Line)
      modifies view
      ensures view.events == old(view.events) + LineEvents(line)
    {
      var elements := line.elements;
      var k := 0;
      while k < |elements|
        invariant 0 <= k <= |elements|
        invariant view.events == old(view.events) + FlatMap(elements[..k], ElementEvents)
      {
        var element := elements[k];
        if LooksLikeHandle(element.text) {
          view.ShowHandle(element.text, element.boundingBox);
        }
        FlatMapStep(old(view.events), elements, k, ElementEvents);
        k := k + 1;
      }
      assert elements[..k] == elements;
    }

    /** `runCloudTextRecognition`: as `RunTextRecognition`, with the cloud detector. */
    method RunCloudTextRecognition(detection: Detection<Option<CloudText>>)
      modifies view
      ensures view.events == old(view.events) + CloudRunEvents(detection)
    {
      view.ShowProgress();
      ghost var before := old(view.events);
      if detection.Detected? {
        ProcessCloudTextRecognitionResult(detection.result);
        AppendAssoc(before, [Event.ShowProgress], CloudEvents(detection.result));
      } else {
        assert CloudRunEvents(detection) == [Event.ShowProgress];
      }
    }

    /**
     * `processCloudTextRecognitionResult`: for every paragraph, the adjacent
     * word pairs whose joined text is a handle, each shown with the second
     * word's box.
     */
    method ProcessCloudTextRecognitionResult(text: Option<CloudText>)
      modifies view
      ensures view.events == old(view.events) + CloudEvents(text)
    {
      view.HideProgress();
      if text.None? {
        view.ShowNoTextMessage();
        assert CloudEvents(text) == [Event.HideProgress, Event.ShowNoTextMessage];
        return;
      }
      var pages := text.value.pages;
      ghost var before := view.events;
      assert CloudEvents(text) == [Event.HideProgress] + FlatMap(pages, PageEvents);
      AppendAssoc(old(view.events), [Event.HideProgress], FlatMap(pages, PageEvents));
      var i := 0;
      while i < |pages|
        invariant 0 <= i <= |pages|
        invariant view.events == before + FlatMap(pages[..i], PageEvents)
      {
        ReportPage(pages[i]);
        FlatMapStep(before, pages, i, PageEvents);
        i := i + 1;
      }
      assert pages[..i] == pages;
    }

    /** The body of the `text.pages.forEach` loop. */
    method ReportPage(page: Page)
      modifies view
      ensures view.events == old(view.events) + PageEvents(page)
    {
      var blocks := page.blocks;
      var j := 0;
      while j < |blocks|
        invariant 0 <= j <= |blocks|
        invariant view.events == old(view.events) + FlatMap(blocks[..j], CloudBlockEvents)
      {
        ReportCloudBlock(blocks[j]);
        FlatMapStep(old(view.events), blocks, j, CloudBlockEvents);
        j := j + 1;
      }
      assert blocks[..j] == blocks;
    }

    /** The body of the `page.blocks.forEach` loop. */
    method ReportCloudBlock(block: CloudBlock)
      modifies view
      ensures view.events == old(view.events) + CloudBlockEvents(block)
    {
      var paragraphs := block.paragraphs;
      var k := 0;
      while k < |paragraphs|
        invariant 0 <= k <= |paragraphs|
        invariant view.events == old(view.events) + FlatMap(paragraphs[..k], ParagraphEvents)
      {
        ReportParagraph(paragraphs[k]);
        FlatMapStep(old(view.events), paragraphs, k, ParagraphEvents);
        k := k + 1;
      }
      assert paragraphs[..k] == paragraphs;
    }

    /** The body of the `block.paragraphs.forEach` loop: `zipWithNext`, `filter`, then `forEach`. */
    method ReportParagraph(paragraph: Paragraph)
      modifies view
      ensures view.events == old(view.events) + ParagraphEvents(paragraph)
    {
      var handles := Filter(ZipWithNext(paragraph.words, MakePair), IsHandlePair);
      var m := 0;
      while m < |handles|
        invariant 0 <= m <= |handles|
        invariant view.events == old(view.events) + Map(handles[..m], ShowPair)
      {
        view.ShowHandle(handles[m].word, handles[m].handle.boundingBox);
        MapStep(old(view.events), handles, m, ShowPair);
        m := m + 1;
      }
      assert handles[..m] == handles;
      assert ParagraphEvents(paragraph) == Map(handles, ShowPair);
    }
  }
}
