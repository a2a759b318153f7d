/**
 * The string processing and the session-recycling counter of the transcript
 * crawler. The regular-expression engine and the browser are not modelled:
 * extract_links receives the tuples findall produced, and crawl receives the
 * speaker blocks of the page's <article> element as values.
 */
module Crawler {
  import opened Results
  import opened Text
  import opened Seqs

  const ReadablePodOrigin: string := "https://www.readablepod.com"

  // ---------------------------------------------------------------- extract_links

  /** One findall tuple: (name with metadata, date, transcript count, path). */
  datatype LinkMatch = LinkMatch(nameWithMeta: string, date: string, transcriptCount: string, url: string)

  /** The value stored per podcast name: {"url": ..., "n_transcripts": ...}. */
  datatype PodcastLink = PodcastLink(url: string, nTranscripts: nat)

  /** The pattern's group (\d+): one or more ASCII digits. */
  predicate IsDigits(s: string)
  {
    |s| > 0 && forall i :: 0 <= i < |s| ==> '0' <= s[i] <= '9'
  }

  /** The value of a decimal digit; the pattern lets no other character through. */
  function DigitValue(c: char): nat
  {
    if '0' <= c <= '9' then c as int - '0' as int else 0
  }

  /** Python's int() on a string of decimal digits. */
  function DigitsValue(s: string): nat
  {
    if s == [] then 0 else 10 * DigitsValue(s[..|s| - 1]) + DigitValue(s[|s| - 1])
  }

  /** A match is kept when its transcript count is positive. */
  predicate Kept(m: LinkMatch)
  {
    DigitsValue(m.transcriptCount) > 0
  }

  function LinkOf(m: LinkMatch): PodcastLink
  {
    PodcastLink(ReadablePodOrigin + m.url, DigitsValue(m.transcriptCount))
  }

  predicate AllDigits(matches: seq<LinkMatch>)
  {
    forall i :: 0 <= i < |matches| ==> IsDigits(matches[i].transcriptCount)
  }

  /** The dictionary after the first |matches| iterations of the loop. */
  function Links(matches: seq<LinkMatch>): map<string, PodcastLink>
  {
    if matches == [] then map[]
    else
      var m := matches[|matches| - 1];
      var before := Links(matches[..|matches| - 1]);
      if Kept(m) then before[Strip(m.nameWithMeta) := LinkOf(m)] else before
  }

  /** extract_links, after the regular expression has produced its matches. */
  method ExtractLinks(matches: seq<LinkMatch>) returns (podcastInfo: map<string, PodcastLink>)
    requires AllDigits(matches)
    ensures podcastInfo == Links(matches)
  {
    podcastInfo := map[];
    var i := 0;
    while i < |matches|
      invariant 0 <= i <= |matches|
      invariant podcastInfo == Links(matches[..i])
    {
      var m := matches[i];
      var name := Strip(m.nameWithMeta);
      var count := DigitsValue(m.transcriptCount);
      if count > 0 {
        podcastInfo := podcastInfo[name := PodcastLink(ReadablePodOrigin + m.url, count)];
      }
      assert matches[..i + 1][..i] == matches[..i];
      i := i + 1;
    }
    assert matches[..i] == matches;
  }

  /** Match m is kept and stored under name. */
  predicate KeptAs(m: LinkMatch, name: string)
  {
    Kept(m) && Strip(m.nameWithMeta) == name
  }

  /** A name is a key exactly when some kept match strips to it. */
  lemma {:induction false} LinksKeys(matches: seq<LinkMatch>, name: string)
    ensures name in Links(matches) <==> exists i :: 0 <= i < |matches| && KeptAs(matches[i], name)
  {
    if matches != [] {
      var n := |matches| - 1;
      var init := matches[..n];
      LinksStep(matches);
      LinksKeys(init, name);
      assert name in Links(matches) <==> name in Links(init) || KeptAs(matches[n], name);
      if name in Links(init) {
        var i :| 0 <= i < n && KeptAs(init[i], name);
        assert init[i] == matches[i];
      } else if !KeptAs(matches[n], name) {
        forall i | 0 <= i < |matches|
          ensures !KeptAs(matches[i], name)
        {
          if i < n {
            assert init[i] == matches[i];
          }
        }
      }
    }
  }

  /**
   * The entry under a name comes from the last kept match that strips to it:
   * a later match with the same name overwrites an earlier one.
   */
  lemma {:induction false} LinksLastMatchWins(matches: seq<LinkMatch>, j: nat, name: string)
    requires j < |matches| && KeptAs(matches[j], name)
    requires forall i :: j < i < |matches| ==> !KeptAs(matches[i], name)
    ensures name in Links(matches) && Links(matches)[name] == LinkOf(matches[j])
  {
    var n := |matches| - 1;
    var init := matches[..n];
    if j < n {
      assert init[j] == matches[j];
      forall i | j < i < n ensures !KeptAs(init[i], name) {
        assert init[i] == matches[i];
      }
      LinksLastMatchWins(init, j, name);
      LinksOtherKeyUnchanged(matches, name);
    }
  }

  /** One iteration of the loop: the last match, when kept, sets the entry of its stripped name. */
  lemma LinksStep(matches: seq<LinkMatch>)
    requires matches != []
    ensures var m := matches[|matches| - 1];
      Links(matches) == if Kept(m) then Links(matches[..|matches| - 1])[Strip(m.nameWithMeta) := LinkOf(m)]
                        else Links(matches[..|matches| - 1])
  {
  }

  /** The last match leaves every key it is not kept under as it was. */
  lemma LinksOtherKeyUnchanged(matches: seq<LinkMatch>, name: string)
    requires matches != []
    requires !KeptAs(matches[|matches| - 1], name)
    requires name in Links(matches[..|matches| - 1])
    ensures name in Links(matches) && Links(matches)[name] == Links(matches[..|matches| - 1])[name]
  {
    LinksStep(matches);
  }

  /** Every entry has a positive count and a URL on the readablepod.com origin. */
  lemma {:induction false} LinksValues(matches: seq<LinkMatch>)
    ensures forall name :: name in Links(matches) ==>
      Links(matches)[name].nTranscripts > 0 && IsPrefix(ReadablePodOrigin, Links(matches)[name].url)
  {
    if matches != [] {
      LinksValues(matches[..|matches| - 1]);
    }
  }

  // ------------------------------------------------------------- sentences of a page

  /** A transcript sentence: stripped text, start time in seconds, speaker block index. */
  datatype Sentence = Sentence(text: string, startTime: real, speakerId: int)

  /** A <p class="caption"> element: its id attribute (None when absent) and its text content. */
  datatype Paragraph = Paragraph(id: Option<string>, textContent: string)

  /** One speaker <div>: its caption paragraphs in document order. */
  type SpeakerDiv = seq<Paragraph>

  const StartPrefix: string := "start-"

  /** The text before the first occurrence of c: Python's s.split(c)[0]. */
  function UpTo(s: string, c: char): (r: string)
    ensures IsPrefix(r, s) && c !in r
    ensures |r| < |s| ==> s[|r|] == c
  {
    if s == [] || s[0] == c then [] else [s[0]] + UpTo(s[1..], c)
  }

  /**
   * id.split("-")[1].split(" ")[0] for an id that starts with "start-": the
   * first '-' is the one at index 5, so the second field starts at index 6.
   */
  function TimestampToken(id: string): (token: string)
    requires IsPrefix(StartPrefix, id)
    ensures IsPrefix(token, id[6..]) && '-' !in token && ' ' !in token
    ensures |token| < |id| - 6 ==> id[6 + |token|] == '-' || id[6 + |token|] == ' '
  {
    UpTo(UpTo(id[6..], '-'), ' ')
  }

  /** The sentence one paragraph contributes, if any; parseFloat stands for Python's float(). */
  function ParagraphSentence(p: Paragraph, speakerIdx: nat, parseFloat: string -> Option<real>): Option<Sentence>
  {
    match p.id
    case None => None
    case Some(id) =>
      if !IsPrefix(StartPrefix, id) then None
      else match parseFloat(TimestampToken(id))
        case None => None
        case Some(timestamp) =>
          var text := Strip(p.textContent);
          if text != [] then Some(Sentence(text, timestamp, speakerIdx)) else None
  }

  /**
   * s is what paragraph p yields in block speakerIdx: p has an id starting
   * with "start-", its token parses to s's start time, and s's text is p's
   * non-empty stripped text.
   */
  predicate YieldsSentence(p: Paragraph, s: Sentence, speakerIdx: nat, parseFloat: string -> Option<real>)
  {
    && p.id.Some?
    && IsPrefix(StartPrefix, p.id.value)
    && parseFloat(TimestampToken(p.id.value)) == Some(s.startTime)
    && s.text == Strip(p.textContent)
    && s.text != []
    && s.speakerId == speakerIdx
  }

  /** A paragraph yields a sentence exactly when it qualifies, and then the sentence it yields is its own. */
  lemma ParagraphSentenceRule(p: Paragraph, speakerIdx: nat, parseFloat: string -> Option<real>)
    ensures ParagraphSentence(p, speakerIdx, parseFloat).Some? <==>
      && p.id.Some?
      && IsPrefix(StartPrefix, p.id.value)
      && parseFloat(TimestampToken(p.id.value)).Some?
      && Strip(p.textContent) != []
    ensures forall s :: ParagraphSentence(p, speakerIdx, parseFloat) == Some(s) <==> YieldsSentence(p, s, speakerIdx, parseFloat)
  {
  }

  /** A sentence as a sequence of at most one element. */
  function AsSeq(o: Option<Sentence>): seq<Sentence>
  {
    match o
    case Some(s) => [s]
    case None => []
  }

  /** The sentences of one speaker block, in document order. */
  function DivSentences(ps: seq<Paragraph>, speakerIdx: nat, parseFloat: string -> Option<real>): seq<Sentence>
  {
    if ps == [] then []
    else
      DivSentences(ps[..|ps| - 1], speakerIdx, parseFloat) +
      AsSeq(ParagraphSentence(ps[|ps| - 1], speakerIdx, parseFloat))
  }

  /** One more paragraph adds its sentence, if it yields one, at the end. */
  lemma DivSentencesStep(ps: seq<Paragraph>, k: nat, speakerIdx: nat, parseFloat: string -> Option<real>)
    requires k < |ps|
    ensures DivSentences(ps[..k + 1], speakerIdx, parseFloat)
            == DivSentences(ps[..k], speakerIdx, parseFloat) + AsSeq(ParagraphSentence(ps[k], speakerIdx, parseFloat))
  {
    assert ps[..k + 1][..k] == ps[..k];
  }

  /** The sentences of the first |divs| speaker blocks, in document order. */
  function PageSentences(divs: seq<SpeakerDiv>, parseFloat: string -> Option<real>): seq<Sentence>
  {
    if divs == [] then []
    else PageSentences(divs[..|divs| - 1], parseFloat) + DivSentences(divs[|divs| - 1], |divs| - 1, parseFloat)
  }

  /** The body of the inner loop of crawl: the sentence one paragraph contributes, if any. */
  method ReadParagraph(p: Paragraph, speakerIdx: nat, parseFloat: string -> Option<real>)
    returns (sentence: Option<Sentence>)
    ensures sentence == ParagraphSentence(p, speakerIdx, parseFloat)
    ensures sentence.Some? <==>
      && p.id.Some?
      && IsPrefix(StartPrefix, p.id.value)
      && parseFloat(TimestampToken(p.id.value)).Some?
      && Strip(p.textContent) != []
    ensures sentence.Some? ==> YieldsSentence(p, sentence.value, speakerIdx, parseFloat)
  {
    sentence := None;
    if p.id.Some? && IsPrefix(StartPrefix, p.id.value) {
      var timestampStr := TimestampToken(p.id.value);
      var parsed := parseFloat(timestampStr);
      if parsed.Some? {
        var text := Strip(p.textContent);
        if text != [] {
          sentence := Some(Sentence(text, parsed.value, speakerIdx));
        }
      }
    }
  }

  /** The nested loops of crawl over the speaker blocks and their paragraphs. */
  method ExtractSentences(divs: seq<SpeakerDiv>, parseFloat: string -> Option<real>) returns (sentences: seq<Sentence>)
    ensures sentences == PageSentences(divs, parseFloat)
  {
    sentences := [];
    var speakerIdx := 0;
    while speakerIdx < |divs|
      invariant 0 <= speakerIdx <= |divs|
      invariant sentences == PageSentences(divs[..speakerIdx], parseFloat)
    {
      var paragraphs := divs[speakerIdx];
      ghost var earlier := sentences;
      var k := 0;
      while k < |paragraphs|
        invariant 0 <= k <= |paragraphs|
        invariant sentences == earlier + DivSentences(paragraphs[..k], speakerIdx, parseFloat)
      {
        var p := paragraphs[k];
        var sentence := ReadParagraph(p, speakerIdx, parseFloat);
        if sentence.Some? {
          sentences := sentences + [sentence.value];
        }
        DivSentencesStep(paragraphs, k, speakerIdx, parseFloat);
        ghost var before := DivSentences(paragraphs[..k], speakerIdx, parseFloat);
        assert (earlier + before) + AsSeq(sentence) == earlier + (before + AsSeq(sentence));
        k := k + 1;
      }
      assert paragraphs[..k] == paragraphs;
      assert divs[..speakerIdx + 1][..speakerIdx] == divs[..speakerIdx];
      speakerIdx := speakerIdx + 1;
    }
    assert divs[..speakerIdx] == divs;
  }

  /** Every sentence of a block carries that block's index, a parsed id and non-empty stripped text. */
  lemma {:induction false} DivSentencesShape(ps: seq<Paragraph>, speakerIdx: nat, parseFloat: string -> Option<real>)
    ensures forall s :: s in DivSentences(ps, speakerIdx, parseFloat) ==>
      s.speakerId == speakerIdx && s.text != [] && IsStripped(s.text)
      && exists p :: p in ps && YieldsSentence(p, s, speakerIdx, parseFloat)
    ensures forall p :: p in ps && ParagraphSentence(p, speakerIdx, parseFloat).Some? ==>
      ParagraphSentence(p, speakerIdx, parseFloat).value in DivSentences(ps, speakerIdx, parseFloat)
  {
    if ps != [] {
      var init := ps[..|ps| - 1];
      DivSentencesShape(init, speakerIdx, parseFloat);
      assert ps == init + [ps[|ps| - 1]];
      ParagraphSentenceRule(ps[|ps| - 1], speakerIdx, parseFloat);
    }
  }

  /**
   * The page's sentences are exactly those of its qualifying paragraphs:
   * each comes from a paragraph of block speakerId whose id starts with
   * "start-" and whose token parses, has non-empty stripped text, and the
   * speaker indices never decrease (document order).
   */
  lemma {:induction false} PageSentencesShape(divs: seq<SpeakerDiv>, parseFloat: string -> Option<real>)
    ensures forall s :: s in PageSentences(divs, parseFloat) ==>
      0 <= s.speakerId < |divs| && s.text != [] && IsStripped(s.text)
      && exists p :: p in divs[s.speakerId] && YieldsSentence(p, s, s.speakerId, parseFloat)
    ensures forall k, p :: 0 <= k < |divs| && p in divs[k] && ParagraphSentence(p, k, parseFloat).Some? ==>
      ParagraphSentence(p, k, parseFloat).value in PageSentences(divs, parseFloat)
    ensures forall i, j :: 0 <= i < j < |PageSentences(divs, parseFloat)| ==>
      PageSentences(divs, parseFloat)[i].speakerId <= PageSentences(divs, parseFloat)[j].speakerId
  {
    if divs != [] {
      var n := |divs| - 1;
      var init := divs[..n];
      PageSentencesShape(init, parseFloat);
      DivSentencesShape(divs[n], n, parseFloat);
      var before := PageSentences(init, parseFloat);
      var last := DivSentences(divs[n], n, parseFloat);
      var all: seq<Sentence> := before + last;
      assert PageSentences(divs, parseFloat) == all;
      forall s | s in all
        ensures 0 <= s.speakerId < |divs| && s.text != [] && IsStripped(s.text)
        ensures exists p :: p in divs[s.speakerId] && YieldsSentence(p, s, s.speakerId, parseFloat)
      {
        if s in before {
          assert divs[s.speakerId] == init[s.speakerId];
        } else {
          assert s in last;
        }
      }
      forall k, p | 0 <= k < |divs| && p in divs[k] && ParagraphSentence(p, k, parseFloat).Some?
        ensures ParagraphSentence(p, k, parseFloat).value in all
      {
        if k < n {
          assert init[k] == divs[k];
        }
      }
      forall i, j | 0 <= i < j < |all|
        ensures all[i].speakerId <= all[j].speakerId
      {
        if j >= |before| {
          assert all[j] in last;
          if i < |before| {
            assert all[i] in before;
          } else {
            assert all[i] in last;
          }
        }
      }
    }
  }

  /** A block split in two yields the first part's sentences, then the second part's. */
  lemma {:induction false} DivSentencesAppend(a: seq<Paragraph>, b: seq<Paragraph>, speakerIdx: nat, parseFloat: string -> Option<real>)
    ensures DivSentences(a + b, speakerIdx, parseFloat) ==
      DivSentences(a, speakerIdx, parseFloat) + DivSentences(b, speakerIdx, parseFloat)
  {
    if b == [] {
      assert a + b == a;
    } else {
      var n := |b| - 1;
      DivSentencesAppend(a, b[..n], speakerIdx, parseFloat);
      assert (a + b)[..|a + b| - 1] == a + b[..n];
      assert (a + b)[|a + b| - 1] == b[n];
    }
  }

  /** One sentence per qualifying paragraph of the block, no more. */
  lemma {:induction false} DivSentencesCount(ps: seq<Paragraph>, speakerIdx: nat, parseFloat: string -> Option<real>)
    ensures |DivSentences(ps, speakerIdx, parseFloat)| ==
      |Filter(ps, (p: Paragraph) => ParagraphSentence(p, speakerIdx, parseFloat).Some?)|
  {
    if ps != [] {
      var n := |ps| - 1;
      var qualifies := (p: Paragraph) => ParagraphSentence(p, speakerIdx, parseFloat).Some?;
      DivSentencesCount(ps[..n], speakerIdx, parseFloat);
      DivSentencesStep(ps, n, speakerIdx, parseFloat);
      assert ps[..n + 1] == ps == ps[..n] + [ps[n]];
      FilterAppend(ps[..n], [ps[n]], qualifies);
      assert |Filter([ps[n]], qualifies)| == |AsSeq(ParagraphSentence(ps[n], speakerIdx, parseFloat))|;
    }
  }

  /** The sentences of the first n speaker blocks come first, in front of everything later blocks yield. */
  lemma {:induction false} PageSentencesPrefix(divs: seq<SpeakerDiv>, n: nat, parseFloat: string -> Option<real>)
    requires n <= |divs|
    ensures var first := PageSentences(divs[..n], parseFloat);
      |first| <= |PageSentences(divs, parseFloat)| && PageSentences(divs, parseFloat)[..|first|] == first
  {
    if n < |divs| {
      var m := |divs| - 1;
      PageSentencesPrefix(divs[..m], n, parseFloat);
      assert divs[..m][..n] == divs[..n];
    } else {
      assert divs[..n] == divs;
    }
  }

  // ------------------------------------------------------------- session recycling

  /**
   * The crawler's page-visit counter. browserRestarts counts the browsers
   * launched by restart_browser, whether Crawl or an outside caller asked.
   */
  class Crawler {
    var urlsProcessed: nat
    const maxUrlsBeforeRestart: nat
    var browserRestarts: nat

    /** The limit is 200 and the counter has not reached it. */
    ghost predicate Valid()
      reads this
    {
      && maxUrlsBeforeRestart == 200
      && urlsProcessed < maxUrlsBeforeRestart
    }

    constructor ()
      ensures Valid() && urlsProcessed == 0 && browserRestarts == 0
    {
      urlsProcessed := 0;
      maxUrlsBeforeRestart := 200;
      browserRestarts := 0;
    }

    /**
     * Closes the browser and launches a new one; the counter starts again.
     * Callable at any time, not only from Crawl.
     */
    method RestartBrowser()
      requires maxUrlsBeforeRestart == 200
      modifies this
      ensures Valid()
      ensures urlsProcessed == 0 && browserRestarts == old(browserRestarts) + 1
    {
      browserRestarts := browserRestarts + 1;
      urlsProcessed := 0;
    }

    /**
     * crawl: article is None when the page has no <article> element, which
     * makes the method raise before the counter is touched. Otherwise the
     * sentences are extracted, the counter goes up, and on reaching 200 the
     * browser is restarted.
     */
    method Crawl(article: Option<seq<SpeakerDiv>>, parseFloat: string -> Option<real>)
      returns (r: Result<seq<Sentence>, string>)
      requires Valid()
      modifies this
      ensures Valid()
      ensures article.None? ==>
                r.Failure?
                && urlsProcessed == old(urlsProcessed) && browserRestarts == old(browserRestarts)
      ensures article.Some? ==>
                && r == Success(PageSentences(article.value, parseFloat))
                && urlsProcessed == (old(urlsProcessed) + 1) % 200
                && (browserRestarts == old(browserRestarts) + 1 <==> old(urlsProcessed) == 199)
                && (browserRestarts == old(browserRestarts) <==> old(urlsProcessed) < 199)
    {
      if article.None? {
        return Failure("'NoneType' object has no attribute 'query_selector_all'");
      }
      var sentences := ExtractSentences(article.value, parseFloat);
      urlsProcessed := urlsProcessed + 1;
      if urlsProcessed >= maxUrlsBeforeRestart {
        RestartBrowser();
      }
      r := Success(sentences);
    }
  }
}
