/**
 * The records the scraper passes between its stages, and extract_episode_info,
 * which turns the regular expression's match tuples into scrape inputs.
 */
module ScrapeRecords {
  import Crawler

  /** EpisodeScrapeInput: exactly four string fields. */
  datatype EpisodeScrapeInput = EpisodeScrapeInput(
    episodeName: string, podcastName: string, publicationDate: string, url: string)

  /** EpisodeScrapeResult: the input's fields plus the ordered sentences. */
  datatype EpisodeScrapeResult = EpisodeScrapeResult(
    episodeName: string, podcastName: string, publicationDate: string, url: string,
    sentences: seq<Crawler.Sentence>)
}

module PodcastLinks {
  import opened Text
  import opened ScrapeRecords
  import Crawler

  /** One findall tuple: (episode name, podcast name, date, path). */
  datatype EpisodeMatch = EpisodeMatch(episodeName: string, podcastName: string, date: string, url: string)

  /** The record built for one match: stripped groups, the path made absolute. */
  function ScrapeInputOf(m: EpisodeMatch): EpisodeScrapeInput
  {
    EpisodeScrapeInput(Strip(m.episodeName), Strip(m.podcastName), Strip(m.date),
                       Crawler.ReadablePodOrigin + Strip(m.url))
  }

  /**
   * extract_episode_info, after the regular expression has produced its
   * matches: one record per match, in match order, none dropped.
   */
  method ExtractEpisodeInfo(matches: seq<EpisodeMatch>) returns (result: seq<EpisodeScrapeInput>)
    ensures |result| == |matches|
    ensures forall i :: 0 <= i < |matches| ==> result[i] == ScrapeInputOf(matches[i])
  {
    result := [];
    for i := 0 to |matches|
      invariant |result| == i
      invariant forall k :: 0 <= k < i ==> result[k] == ScrapeInputOf(matches[k])
    {
      result := result + [ScrapeInputOf(matches[i])];
    }
  }

  /**
   * Each record's name, podcast and date fields carry no surrounding
   * whitespace and its url is the readablepod.com origin followed by the
   * stripped path; stripping the fields again changes nothing.
   */
  lemma {:induction false} ScrapeInputFieldsStripped(m: EpisodeMatch)
    ensures var r := ScrapeInputOf(m);
      && IsStripped(r.episodeName) && IsStripped(r.podcastName) && IsStripped(r.publicationDate)
      && Strip(r.episodeName) == r.episodeName && Strip(r.podcastName) == r.podcastName
      && Strip(r.publicationDate) == r.publicationDate
      && IsPrefix(Crawler.ReadablePodOrigin, r.url)
      && r.url[|Crawler.ReadablePodOrigin|..] == Strip(m.url)
  {
    var r := ScrapeInputOf(m);
    StripStrippedIsIdentity(r.episodeName);
    StripStrippedIsIdentity(r.podcastName);
    StripStrippedIsIdentity(r.publicationDate);
  }
}
