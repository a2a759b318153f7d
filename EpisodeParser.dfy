/**
 * The episode parser: the transcript string built from the scraped
 * sentences, and parse, which runs the two language-model calls and stores
 * the structured bullet points only after they have been validated.
 */
module EpisodeParser {
  import opened Results
  import opened Crawler
  import opened ScrapeRecords
  import Helpers

  /** One extracted take-away: its text and the second of the transcript it refers to. */
  datatype BulletPoint = BulletPoint(text: string, timestamp: int)

  datatype BulletPoints = BulletPoints(bulletPoints: seq<BulletPoint>)

  /** The name parse stores its validated bullet points under. */
  const BulletPointsFile: string := "example_bulletpoints"

  /** The text one sentence contributes: its text and its start time annotated. */
  function Segment(s: Sentence, render: real -> string): string
  {
    s.text + " (" + render(s.startTime) + " sec) "
  }

  /** The transcript of the given sentences, one segment after another. */
  function Transcript(sentences: seq<Sentence>, render: real -> string): string
  {
    if sentences == [] then ""
    else Transcript(sentences[..|sentences| - 1], render) + Segment(sentences[|sentences| - 1], render)
  }

  /** concatenate_sentences; render stands for Python's formatting of a float. */
  method ConcatenateSentences(sentences: seq<Sentence>, render: real -> string) returns (fullEpisodeText: string)
    ensures fullEpisodeText == Transcript(sentences, render)
  {
    fullEpisodeText := "";
    for i := 0 to |sentences|
      invariant fullEpisodeText == Transcript(sentences[..i], render)
    {
      assert sentences[..i + 1][..i] == sentences[..i];
      fullEpisodeText := fullEpisodeText + sentences[i].text + " (" + render(sentences[i].startTime) + " sec) ";
    }
    assert sentences[..|sentences|] == sentences;
  }

  /** The transcript of two runs of sentences is the first's followed by the second's. */
  lemma {:induction false} TranscriptAppend(a: seq<Sentence>, b: seq<Sentence>, render: real -> string)
    ensures Transcript(a + b, render) == Transcript(a, render) + Transcript(b, render)
    decreases |b|
  {
    if b == [] {
      assert a + b == a;
    } else {
      var init := b[..|b| - 1];
      assert (a + b)[..|a + b| - 1] == a + init;
      TranscriptAppend(a, init, render);
    }
  }

  /** Where sentence i's segment starts in the transcript. */
  function Offset(sentences: seq<Sentence>, i: nat, render: real -> string): nat
    requires i <= |sentences|
  {
    |Transcript(sentences[..i], render)|
  }

  /**
   * Sentence order is kept: segment i sits at Offset(i), and it ends where
   * segment i + 1 begins, so for i < j segment i ends before segment j starts.
   */
  lemma {:induction false} SegmentsInOrder(sentences: seq<Sentence>, i: nat, render: real -> string)
    requires i < |sentences|
    ensures Offset(sentences, i + 1, render) == Offset(sentences, i, render) + |Segment(sentences[i], render)|
    ensures Offset(sentences, i + 1, render) <= |Transcript(sentences, render)|
    ensures Transcript(sentences, render)[Offset(sentences, i, render)..Offset(sentences, i + 1, render)]
            == Segment(sentences[i], render)
  {
    var t := Transcript(sentences, render);
    assert sentences[..i + 1][..i] == sentences[..i];
    assert sentences == sentences[..i + 1] + sentences[i + 1..];
    TranscriptAppend(sentences[..i + 1], sentences[i + 1..], render);
    var head := Transcript(sentences[..i], render);
    assert Transcript(sentences[..i + 1], render) == head + Segment(sentences[i], render);
    assert t == head + Segment(sentences[i], render) + Transcript(sentences[i + 1..], render);
  }

  /** Segment offsets grow with the sentence index. */
  lemma {:induction false} OffsetsIncrease(sentences: seq<Sentence>, i: nat, j: nat, render: real -> string)
    requires i < j <= |sentences|
    ensures Offset(sentences, i, render) + |Segment(sentences[i], render)| <= Offset(sentences, j, render)
    decreases j - i
  {
    SegmentsInOrder(sentences, i, render);
    if i + 1 < j {
      OffsetsIncrease(sentences, i + 1, j, render);
      SegmentsInOrder(sentences, i + 1, render);
    }
  }

  /** The summed lengths of the segments. */
  function SegmentLengths(sentences: seq<Sentence>, render: real -> string): nat
  {
    if sentences == [] then 0
    else |sentences[0].text| + |render(sentences[0].startTime)| + 8 + SegmentLengths(sentences[1..], render)
  }

  /** The transcript is exactly as long as its segments; no sentences give "". */
  lemma {:induction false} TranscriptLength(sentences: seq<Sentence>, render: real -> string)
    ensures |Transcript(sentences, render)| == SegmentLengths(sentences, render)
    ensures sentences == [] <==> Transcript(sentences, render) == ""
  {
    if sentences != [] {
      assert sentences == [sentences[0]] + sentences[1..];
      TranscriptAppend([sentences[0]], sentences[1..], render);
      TranscriptLength(sentences[1..], render);
      assert Transcript([sentences[0]], render) == Segment(sentences[0], render);
    }
  }

  /**
   * parse. freeForm and structured stand for the two language-model calls,
   * their failures included, and decode for json.loads followed by the
   * BulletPoints validation. files is the file system store_json writes to.
   */
  method Parse(files: map<string, BulletPoints>, episode: EpisodeScrapeResult, render: real -> string,
               freeForm: string -> Result<string, string>, structured: string -> Result<string, string>,
               decode: string -> Option<BulletPoints>)
    returns (files': map<string, BulletPoints>, r: Result<string, string>)
    ensures r.Failure? ==> files' == files
    ensures r.Success? <==>
      && freeForm(Transcript(episode.sentences, render)).Success?
      && structured(freeForm(Transcript(episode.sentences, render)).value).Success?
      && decode(structured(freeForm(Transcript(episode.sentences, render)).value).value).Some?
    ensures r.Success? ==>
      var content := structured(freeForm(Transcript(episode.sentences, render)).value).value;
      && r.value == content
      && files' == Helpers.StoreJson(files, decode(content).value, BulletPointsFile)
  {
    files' := files;
    var transcript := ConcatenateSentences(episode.sentences, render);
    var freeFormResponse := freeForm(transcript);
    if freeFormResponse.Failure? {
      return files', Failure(freeFormResponse.error);
    }
    var structuredResponse := structured(freeFormResponse.value);
    if structuredResponse.Failure? {
      return files', Failure(structuredResponse.error);
    }
    var parsed := decode(structuredResponse.value);
    if parsed.None? {
      return files', Failure("validation error for BulletPoints");
    }
    files' := Helpers.StoreJson(files, parsed.value, BulletPointsFile);
    r := Success(structuredResponse.value);
  }
}
