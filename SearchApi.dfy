/**
 * The /search endpoint after the vector query: the ranked matches are folded
 * into a dictionary keyed by episode name, whose values come out in insertion
 * order. make_id is left uninterpreted (a parameter) and episode_summaries is
 * the summary map loaded at start-up.
 */
module SearchApi {
  import opened Results
  import opened Seqs
  import opened Text
  import opened EpisodeParser

  /** BulletPointMetadata: the record attached to each stored vector. */
  datatype Metadata = Metadata(
    text: string, timestamp: int, episodeName: string, sourcePodcastName: string,
    publishedDate: string, image: string)

  /** The Episode response record. */
  datatype Episode = Episode(
    id: string, title: string, host: string, hostId: string, image: string,
    summary: string, date: string, keyTakeaways: seq<BulletPoint>)

  /** The exceptions the handler can meet: a missing summary, or a failed embedding or index call. */
  datatype SearchError = KeyError(key: string) | UpstreamError(message: string)

  datatype Response = Ok(results: seq<Episode>) | HttpError(status: int, detail: string) | ValidationError

  const DefaultLimit: int := 10
  const MinLimit: int := 1
  const MaxLimit: int := 100
  const ErrorPrefix: string := "Error processing search: "

  /** The take-away one match contributes. */
  function Takeaway(m: Metadata): BulletPoint
  {
    BulletPoint(m.text, m.timestamp)
  }

  function Names(matches: seq<Metadata>): (names: seq<string>)
    ensures |names| == |matches|
    ensures forall i :: 0 <= i < |matches| ==> names[i] == matches[i].episodeName
  {
    seq(|matches|, i requires 0 <= i < |matches| => matches[i].episodeName)
  }

  /** The distinct names in the order of their first occurrence. */
  function FirstSeen(names: seq<string>): (r: seq<string>)
    ensures forall x :: x in r <==> x in names
    ensures |r| <= |names|
  {
    if names == [] then []
    else
      var before := FirstSeen(names[..|names| - 1]);
      var last := names[|names| - 1];
      assert names == names[..|names| - 1] + [last];
      if last in before then before else before + [last]
  }

  /** No name is listed twice. */
  lemma {:induction false} FirstSeenNoDuplicates(names: seq<string>)
    ensures NoDuplicates(FirstSeen(names))
  {
    if names != [] {
      FirstSeenNoDuplicates(names[..|names| - 1]);
    }
  }

  /** The position of the first occurrence of x. */
  function FirstIndex(names: seq<string>, x: string): (i: nat)
    requires x in names
    ensures i < |names| && names[i] == x
    ensures forall k :: 0 <= k < i ==> names[k] != x
  {
    if names[0] == x then 0 else 1 + FirstIndex(names[1..], x)
  }

  /** The take-aways of the matches for one episode name, in match order. */
  function TakeawaysOf(matches: seq<Metadata>, name: string): seq<BulletPoint>
  {
    if matches == [] then []
    else
      var m := matches[|matches| - 1];
      TakeawaysOf(matches[..|matches| - 1], name) + (if m.episodeName == name then [Takeaway(m)] else [])
  }

  predicate AllSummarised(matches: seq<Metadata>, summaries: map<string, string>)
  {
    forall i :: 0 <= i < |matches| ==> matches[i].episodeName in summaries
  }

  /**
   * The episode of one name: the shell fields come from the first match with
   * that name, the take-aways from all of them.
   */
  function EpisodeOf(matches: seq<Metadata>, name: string, summaries: map<string, string>,
                     makeId: string -> string): Episode
    requires name in Names(matches) && name in summaries
  {
    var first := matches[FirstIndex(Names(matches), name)];
    Episode(makeId(name), name, first.sourcePodcastName, makeId(first.sourcePodcastName), first.image,
            summaries[name], first.publishedDate, TakeawaysOf(matches, name))
  }

  /** The reference result: one episode per distinct name, in first-seen order. */
  function Reassembled(matches: seq<Metadata>, summaries: map<string, string>,
                       makeId: string -> string): seq<Episode>
    requires AllSummarised(matches, summaries)
  {
    var keys := FirstSeen(Names(matches));
    seq(|keys|, i requires 0 <= i < |keys| => EpisodeOf(matches, keys[i], summaries, makeId))
  }

  /**
   * The name of the first match without a summary. Only a name's first match
   * looks the summary up, and the earliest match whose name lacks one is
   * always that name's first.
   */
  function FirstMissing(matches: seq<Metadata>, summaries: map<string, string>): (r: Option<string>)
    ensures r.None? <==> AllSummarised(matches, summaries)
    ensures r.Some? ==>
              && r.value !in summaries
              && exists i :: 0 <= i < |matches| && matches[i].episodeName == r.value
                             && AllSummarised(matches[..i], summaries)
  {
    if matches == [] then None
    else
      var n := |matches| - 1;
      var init := matches[..n];
      assert forall i :: 0 <= i < n ==> init[i] == matches[i];
      match FirstMissing(init, summaries)
      case Some(name) =>
        assert forall i :: 0 <= i < n ==> matches[..i] == init[..i];
        Some(name)
      case None =>
        if matches[n].episodeName in summaries then None
        else
          assert matches[..n] == init;
          Some(matches[n].episodeName)
  }

  /** What the loop of search_bulletpoints computes: the episodes, or the KeyError it raises. */
  function Reassemble(matches: seq<Metadata>, summaries: map<string, string>,
                      makeId: string -> string): Result<seq<Episode>, SearchError>
  {
    match FirstMissing(matches, summaries)
    case Some(name) => Failure(KeyError(name))
    case None => Success(Reassembled(matches, summaries, makeId))
  }

  // ------------------------------------------------------------------ the loop

  lemma {:induction false} FirstIndexAppend(names: seq<string>, y: string, x: string)
    requires x in names
    ensures FirstIndex(names + [y], x) == FirstIndex(names, x)
  {
    if names[0] != x {
      assert (names + [y])[1..] == names[1..] + [y];
      FirstIndexAppend(names[1..], y, x);
    }
  }

  lemma {:induction false} TakeawaysOfAbsent(matches: seq<Metadata>, name: string)
    requires name !in Names(matches)
    ensures TakeawaysOf(matches, name) == []
  {
    if matches != [] {
      var init := matches[..|matches| - 1];
      assert forall x :: x in Names(init) ==> x in Names(matches);
      TakeawaysOfAbsent(init, name);
    }
  }

  /** One more match leaves an existing episode's shell and appends to its take-aways if it is its own. */
  lemma EpisodeOfSnoc(matches: seq<Metadata>, m: Metadata, name: string,
                      summaries: map<string, string>, makeId: string -> string)
    requires name in Names(matches) && name in summaries
    ensures name in Names(matches + [m])
    ensures EpisodeOf(matches + [m], name, summaries, makeId)
      == EpisodeOf(matches, name, summaries, makeId).(keyTakeaways :=
           TakeawaysOf(matches, name) + (if m.episodeName == name then [Takeaway(m)] else []))
  {
    assert Names(matches + [m]) == Names(matches) + [m.episodeName];
    FirstIndexAppend(Names(matches), m.episodeName, name);
    assert (matches + [m])[..|matches|] == matches;
  }

  /** The episode the first match of a name creates: its shell fields and a single take-away. */
  function NewEpisode(m: Metadata, summaries: map<string, string>, makeId: string -> string): Episode
    requires m.episodeName in summaries
  {
    Episode(makeId(m.episodeName), m.episodeName, m.sourcePodcastName, makeId(m.sourcePodcastName),
            m.image, summaries[m.episodeName], m.publishedDate, [Takeaway(m)])
  }

  /** The first match of a new name creates its episode with a single take-away. */
  lemma EpisodeOfNew(matches: seq<Metadata>, m: Metadata, summaries: map<string, string>,
                     makeId: string -> string)
    requires m.episodeName !in Names(matches) && m.episodeName in summaries
    ensures m.episodeName in Names(matches + [m])
    ensures EpisodeOf(matches + [m], m.episodeName, summaries, makeId)
      == NewEpisode(m, summaries, makeId)
  {
    var names := Names(matches + [m]);
    assert names == Names(matches) + [m.episodeName];
    assert FirstIndex(names, m.episodeName) == |matches|;
    assert (matches + [m])[..|matches|] == matches;
    TakeawaysOfAbsent(matches, m.episodeName);
  }

  /** The state of the loop after the matches in done: the dictionary and its insertion order. */
  ghost predicate GroupState(done: seq<Metadata>, episodes: map<string, Episode>, order: seq<string>,
                             summaries: map<string, string>, makeId: string -> string)
  {
    && order == FirstSeen(Names(done))
    && KeysInOrder(episodes, order)
    && AllSummarised(done, summaries)
    && EpisodesSoFar(done, episodes, summaries, makeId)
  }

  /** The dictionary's keys are exactly the names in the insertion order. */
  ghost predicate KeysInOrder(episodes: map<string, Episode>, order: seq<string>)
  {
    forall k :: k in episodes <==> k in order
  }

  /** Every episode in the dictionary is the reference episode of its name over the matches seen. */
  ghost predicate EpisodesSoFar(done: seq<Metadata>, episodes: map<string, Episode>,
                                summaries: map<string, string>, makeId: string -> string)
  {
    forall k :: k in episodes ==>
      k in summaries && k in Names(done) && episodes[k] == EpisodeOf(done, k, summaries, makeId)
  }

  lemma GroupStepNew(done: seq<Metadata>, m: Metadata, episodes: map<string, Episode>, order: seq<string>,
                     summaries: map<string, string>, makeId: string -> string)
    requires GroupState(done, episodes, order, summaries, makeId)
    requires m.episodeName !in episodes && m.episodeName in summaries
    ensures GroupState(done + [m],
      episodes[m.episodeName := NewEpisode(m, summaries, makeId)],
      order + [m.episodeName], summaries, makeId)
  {
    var done' := done + [m];
    var name := m.episodeName;
    NamesSnoc(done, m);
    FirstSeenSnoc(Names(done), name);
    assert order + [name] == FirstSeen(Names(done'));
    assert AllSummarised(done', summaries);
    assert KeysInOrder(episodes[name := NewEpisode(m, summaries, makeId)], order + [name]);
    assert name !in Names(done);
    StepEpisodesNew(done, m, episodes, summaries, makeId);
  }

  lemma StepEpisodesNew(done: seq<Metadata>, m: Metadata, episodes: map<string, Episode>,
                        summaries: map<string, string>, makeId: string -> string)
    requires EpisodesSoFar(done, episodes, summaries, makeId)
    requires m.episodeName !in Names(done) && m.episodeName in summaries
    ensures EpisodesSoFar(done + [m], episodes[m.episodeName := NewEpisode(m, summaries, makeId)], summaries, makeId)
  {
    EpisodeOfNew(done, m, summaries, makeId);
    forall k | k in episodes
      ensures k in Names(done + [m]) && EpisodeOf(done + [m], k, summaries, makeId) == episodes[k]
    {
      EpisodeOfSnoc(done, m, k, summaries, makeId);
    }
  }

  lemma NamesSnoc(done: seq<Metadata>, m: Metadata)
    ensures Names(done + [m]) == Names(done) + [m.episodeName]
    ensures Names(done + [m])[..|done|] == Names(done)
    ensures (done + [m])[..|done|] == done
  {
    assert Names(done + [m]) == Names(done) + [m.episodeName];
  }

  lemma FirstSeenSnoc(names: seq<string>, x: string)
    ensures FirstSeen(names + [x]) == if x in FirstSeen(names) then FirstSeen(names) else FirstSeen(names) + [x]
  {
    assert (names + [x])[..|names|] == names;
  }

  lemma GroupStepKnown(done: seq<Metadata>, m: Metadata, episodes: map<string, Episode>, order: seq<string>,
                       summaries: map<string, string>, makeId: string -> string)
    requires GroupState(done, episodes, order, summaries, makeId)
    requires m.episodeName in episodes
    ensures var e := episodes[m.episodeName];
      GroupState(done + [m], episodes[m.episodeName := e.(keyTakeaways := e.keyTakeaways + [Takeaway(m)])],
                 order, summaries, makeId)
  {
    var done' := done + [m];
    var name := m.episodeName;
    var e := episodes[name];
    NamesSnoc(done, m);
    FirstSeenSnoc(Names(done), name);
    assert order == FirstSeen(Names(done'));
    assert AllSummarised(done', summaries);
    assert KeysInOrder(episodes[name := e.(keyTakeaways := e.keyTakeaways + [Takeaway(m)])], order);
    StepEpisodesKnown(done, m, episodes, summaries, makeId);
  }

  lemma StepEpisodesKnown(done: seq<Metadata>, m: Metadata, episodes: map<string, Episode>,
                          summaries: map<string, string>, makeId: string -> string)
    requires EpisodesSoFar(done, episodes, summaries, makeId)
    requires m.episodeName in episodes
    ensures var e := episodes[m.episodeName];
      EpisodesSoFar(done + [m], episodes[m.episodeName := e.(keyTakeaways := e.keyTakeaways + [Takeaway(m)])],
                    summaries, makeId)
  {
    var name := m.episodeName;
    var e := episodes[name];
    var episodes' := episodes[name := e.(keyTakeaways := e.keyTakeaways + [Takeaway(m)])];
    forall k | k in episodes'
      ensures k in summaries && k in Names(done + [m])
      ensures episodes'[k] == EpisodeOf(done + [m], k, summaries, makeId)
    {
      EpisodeOfSnoc(done, m, k, summaries, makeId);
      if k == name {
        assert episodes'[k] == e.(keyTakeaways := e.keyTakeaways + [Takeaway(m)]);
      } else {
        assert episodes'[k] == episodes[k];
      }
    }
  }

  lemma GroupStepMissing(done: seq<Metadata>, m: Metadata, summaries: map<string, string>)
    requires AllSummarised(done, summaries) && m.episodeName !in summaries
    ensures FirstMissing(done + [m], summaries) == Some(m.episodeName)
  {
    assert (done + [m])[..|done|] == done;
  }

  /** Kept as a lemma: asserting this inside GroupMatches' loop body makes that proof markedly more expensive. */
  lemma SliceSnoc(matches: seq<Metadata>, i: nat)
    requires i < |matches|
    ensures matches[..i + 1] == matches[..i] + [matches[i]]
  {
  }

  /** A new name without a summary ends the loop with the KeyError the reference result reports. */
  lemma GroupMissing(matches: seq<Metadata>, i: nat, summaries: map<string, string>, makeId: string -> string)
    requires i < |matches| && AllSummarised(matches[..i], summaries)
    requires matches[i].episodeName !in summaries
    ensures Reassemble(matches, summaries, makeId) == Failure(KeyError(matches[i].episodeName))
  {
    assert matches[..i + 1] == matches[..i] + [matches[i]];
    GroupStepMissing(matches[..i], matches[i], summaries);
    FirstMissingExtends(matches, i + 1, summaries);
  }

  /**
   * search_bulletpoints' loop: a name not yet in the dictionary looks its
   * summary up (raising KeyError when it is missing) and creates an episode;
   * a known name appends its take-away. The result is the dictionary's values
   * in insertion order.
   */
  method GroupMatches(matches: seq<Metadata>, summaries: map<string, string>, makeId: string -> string)
    returns (r: Result<seq<Episode>, SearchError>)
    ensures r == Reassemble(matches, summaries, makeId)
  {
    var episodes: map<string, Episode> := map[];
    var order: seq<string> := [];
    for i := 0 to |matches|
      invariant GroupState(matches[..i], episodes, order, summaries, makeId)
    {
      var m := matches[i];
      var bulletpoint := BulletPoint(m.text, m.timestamp);
      SliceSnoc(matches, i);
      if m.episodeName !in episodes {
        if m.episodeName !in summaries {
          GroupMissing(matches, i, summaries, makeId);
          return Failure(KeyError(m.episodeName));
        }
        GroupStepNew(matches[..i], m, episodes, order, summaries, makeId);
        episodes := episodes[m.episodeName := NewEpisode(m, summaries, makeId)];
        order := order + [m.episodeName];
      } else {
        GroupStepKnown(matches[..i], m, episodes, order, summaries, makeId);
        var e := episodes[m.episodeName];
        episodes := episodes[m.episodeName := e.(keyTakeaways := e.keyTakeaways + [bulletpoint])];
      }
    }
    assert matches[..|matches|] == matches;
    r := Success(seq(|order|, k requires 0 <= k < |order| => episodes[order[k]]));
    GroupFinish(matches, episodes, order, summaries, makeId);
  }

  /** After the last match the dictionary's values, in insertion order, are the reference episodes. */
  lemma GroupFinish(matches: seq<Metadata>, episodes: map<string, Episode>, order: seq<string>,
                    summaries: map<string, string>, makeId: string -> string)
    requires GroupState(matches, episodes, order, summaries, makeId)
    ensures Reassemble(matches, summaries, makeId)
      == Success(seq(|order|, k requires 0 <= k < |order| => episodes[order[k]]))
  {
    assert FirstMissing(matches, summaries) == None;
    var values := seq(|order|, k requires 0 <= k < |order| => episodes[order[k]]);
    assert values == Reassembled(matches, summaries, makeId);
  }

  /** Once a prefix has a first missing name, every extension has the same one. */
  lemma {:induction false} FirstMissingExtends(matches: seq<Metadata>, j: nat, summaries: map<string, string>)
    requires j <= |matches| && FirstMissing(matches[..j], summaries).Some?
    ensures FirstMissing(matches, summaries) == FirstMissing(matches[..j], summaries)
    decreases |matches| - j
  {
    if j == |matches| {
      assert matches[..j] == matches;
    } else {
      var init := matches[..|matches| - 1];
      assert init[..j] == matches[..j];
      FirstMissingExtends(init, j, summaries);
    }
  }

  // ------------------------------------------------------ properties of the result

  /** The number of take-aways over a list of episodes. */
  function TotalTakeaways(episodes: seq<Episode>): nat
  {
    if episodes == [] then 0
    else TotalTakeaways(episodes[..|episodes| - 1]) + |episodes[|episodes| - 1].keyTakeaways|
  }

  /** The number of take-aways of the given names. */
  function CountFor(matches: seq<Metadata>, keys: seq<string>): nat
  {
    if keys == [] then 0
    else CountFor(matches, keys[..|keys| - 1]) + |TakeawaysOf(matches, keys[|keys| - 1])|
  }

  lemma {:induction false} CountForSnoc(matches: seq<Metadata>, m: Metadata, keys: seq<string>)
    requires NoDuplicates(keys)
    ensures CountFor(matches + [m], keys) == CountFor(matches, keys) + (if m.episodeName in keys then 1 else 0)
  {
    assert (matches + [m])[..|matches|] == matches;
    if keys != [] {
      var init := keys[..|keys| - 1];
      assert m.episodeName in keys <==> m.episodeName in init || m.episodeName == keys[|keys| - 1];
      assert keys[|keys| - 1] !in init;
      CountForSnoc(matches, m, init);
    }
  }

  lemma {:induction false} CountForAll(matches: seq<Metadata>)
    ensures CountFor(matches, FirstSeen(Names(matches))) == |matches|
  {
    if matches != [] {
      var n := |matches| - 1;
      var init := matches[..n];
      var m := matches[n];
      assert matches == init + [m];
      assert Names(matches) == Names(init) + [m.episodeName];
      assert Names(matches)[..n] == Names(init);
      CountForAll(init);
      var keys := FirstSeen(Names(init));
      FirstSeenNoDuplicates(Names(init));
      CountForSnoc(init, m, keys);
      if m.episodeName !in keys {
        assert m.episodeName !in Names(init);
        TakeawaysOfAbsent(init, m.episodeName);
        assert TakeawaysOf(matches, m.episodeName) == [Takeaway(m)];
        assert (keys + [m.episodeName])[..|keys|] == keys;
      }
    }
  }

  lemma {:induction false} TotalIsCountFor(matches: seq<Metadata>, keys: seq<string>, episodes: seq<Episode>)
    requires |episodes| == |keys|
    requires forall i :: 0 <= i < |keys| ==> episodes[i].keyTakeaways == TakeawaysOf(matches, keys[i])
    ensures TotalTakeaways(episodes) == CountFor(matches, keys)
  {
    if keys != [] {
      TotalIsCountFor(matches, keys[..|keys| - 1], episodes[..|episodes| - 1]);
    }
  }

  /** Every match contributes exactly one take-away: the counts sum to the number of matches. */
  lemma TakeawaysSumToMatches(matches: seq<Metadata>, summaries: map<string, string>, makeId: string -> string)
    requires AllSummarised(matches, summaries)
    ensures TotalTakeaways(Reassembled(matches, summaries, makeId)) == |matches|
  {
    CountForAll(matches);
    TotalIsCountFor(matches, FirstSeen(Names(matches)), Reassembled(matches, summaries, makeId));
  }

  lemma {:induction false} FirstSeenOrdered(names: seq<string>)
    ensures forall i, j :: 0 <= i < j < |FirstSeen(names)| ==>
      FirstIndex(names, FirstSeen(names)[i]) < FirstIndex(names, FirstSeen(names)[j])
  {
    if names != [] {
      var n := |names| - 1;
      var init := names[..n];
      var last := names[n];
      var before := FirstSeen(init);
      assert names == init + [last];
      FirstSeenOrdered(init);
      forall x | x in init ensures FirstIndex(names, x) == FirstIndex(init, x) && FirstIndex(init, x) < n {
        FirstIndexAppend(init, last, x);
      }
      if last !in before {
        assert last !in init;
        assert FirstIndex(names, last) == n;
      }
    }
  }

  /**
   * Episodes come out in the order their names first occur among the
   * matches, with no name twice and every name present; there are at most as
   * many episodes as matches.
   */
  lemma EpisodesInFirstSeenOrder(matches: seq<Metadata>, summaries: map<string, string>, makeId: string -> string)
    requires AllSummarised(matches, summaries)
    ensures var eps := Reassembled(matches, summaries, makeId);
      && |eps| <= |matches|
      && (forall i, j :: 0 <= i < j < |eps| ==> eps[i].title != eps[j].title)
      && (forall i, j :: 0 <= i < j < |eps| ==>
            FirstIndex(Names(matches), eps[i].title) < FirstIndex(Names(matches), eps[j].title))
      && (forall k :: 0 <= k < |matches| ==> exists i :: 0 <= i < |eps| && eps[i].title == matches[k].episodeName)
  {
    var eps := Reassembled(matches, summaries, makeId);
    var keys := FirstSeen(Names(matches));
    FirstSeenOrdered(Names(matches));
    FirstSeenNoDuplicates(Names(matches));
    assert forall i :: 0 <= i < |eps| ==> eps[i].title == keys[i];
    forall k | 0 <= k < |matches| ensures exists i :: 0 <= i < |eps| && eps[i].title == matches[k].episodeName {
      assert Names(matches)[k] in keys;
      var i :| 0 <= i < |keys| && keys[i] == matches[k].episodeName;
      assert eps[i].title == matches[k].episodeName;
    }
  }

  /** An episode's first take-away is that of the match that created its shell. */
  lemma {:induction false} TakeawaysStartAtFirstMatch(matches: seq<Metadata>, name: string)
    requires name in Names(matches)
    ensures |TakeawaysOf(matches, name)| > 0
    ensures TakeawaysOf(matches, name)[0] == Takeaway(matches[FirstIndex(Names(matches), name)])
  {
    var n := |matches| - 1;
    var init := matches[..n];
    assert Names(matches) == Names(init) + [matches[n].episodeName];
    if name in Names(init) {
      TakeawaysStartAtFirstMatch(init, name);
      FirstIndexAppend(Names(init), matches[n].episodeName, name);
    } else {
      TakeawaysOfAbsent(init, name);
      assert FirstIndex(Names(matches), name) == n;
    }
  }

  /**
   * Within one episode the take-aways are those of the matches with its name,
   * in the order of the matches.
   */
  lemma {:induction false} TakeawaysKeepMatchOrder(matches: seq<Metadata>, name: string)
    ensures var own := Filter(matches, (m: Metadata) => m.episodeName == name);
      && |TakeawaysOf(matches, name)| == |own|
      && forall i :: 0 <= i < |own| ==> TakeawaysOf(matches, name)[i] == Takeaway(own[i])
  {
    if matches != [] {
      var n := |matches| - 1;
      var init, last := matches[..n], matches[n];
      TakeawaysKeepMatchOrder(init, name);
      assert matches == init + [last];
      FilterAppend(init, [last], (m: Metadata) => m.episodeName == name);
      assert Filter([last], (m: Metadata) => m.episodeName == name)
        == (if last.episodeName == name then [last] else []) + Filter([], (m: Metadata) => m.episodeName == name);
    }
  }

  /** Matches for A, B, A give [A with 2 take-aways, B with 1]; no matches give no episodes. */
  lemma ThreeMatchesTwoEpisodes(a: Metadata, b: Metadata, a2: Metadata, summaries: map<string, string>,
                                makeId: string -> string)
    requires a.episodeName == a2.episodeName != b.episodeName
    requires a.episodeName in summaries && b.episodeName in summaries
    ensures Reassemble([], summaries, makeId) == Success([])
    ensures var r := Reassemble([a, b, a2], summaries, makeId);
      && r.Success? && |r.value| == 2
      && r.value[0].title == a.episodeName && r.value[0].keyTakeaways == [Takeaway(a), Takeaway(a2)]
      && r.value[1].title == b.episodeName && r.value[1].keyTakeaways == [Takeaway(b)]
  {
    var x, y := a.episodeName, b.episodeName;
    assert Names([]) == [];
    var ms := [a, b, a2];
    var ns := Names(ms);
    assert ns == [x, y, x];
    assert ns[..2] == [x, y] && [x, y][..1] == [x] && [x][..0] == [];
    assert FirstSeen(ns) == [x, y];
    assert ms[..2] == [a, b] && [a, b][..1] == [a] && [a][..0] == [];
    assert TakeawaysOf([], x) == [] && TakeawaysOf([], y) == [];
    assert [a][..0] == [] && a.episodeName != y;
    assert TakeawaysOf([a], x) == [Takeaway(a)] && TakeawaysOf([a], y) == [];
    assert TakeawaysOf([a, b], x) == [Takeaway(a)] && TakeawaysOf([a, b], y) == [Takeaway(b)];
    assert TakeawaysOf(ms, x) == [Takeaway(a), Takeaway(a2)];
    assert TakeawaysOf(ms, y) == [Takeaway(b)];
    assert FirstMissing(ms, summaries) == None;
    var eps := Reassembled(ms, summaries, makeId);
    assert eps[0] == EpisodeOf(ms, x, summaries, makeId);
    assert eps[1] == EpisodeOf(ms, y, summaries, makeId);
    assert FirstSeen(Names([])) == [];
    assert Reassembled([], summaries, makeId) == [];
  }

  // ------------------------------------------------------------------ the endpoint

  /** str() of the exception the handler catches. */
  function Describe(e: SearchError): string
  {
    match e
    case KeyError(key) => "'" + key + "'"
    case UpstreamError(message) => message
  }

  /** The top_k query: the first limit matches of the index's ranking. */
  function TopK(ranked: seq<Metadata>, limit: nat): (top: seq<Metadata>)
    ensures |top| == if |ranked| <= limit then |ranked| else limit
    ensures top == ranked[..|top|]
  {
    if |ranked| <= limit then ranked else ranked[..limit]
  }

  /**
   * search_bulletpoints. limit is None when the query string omits it;
   * ranked is the index's ranking, or the message of the exception the
   * embedding or index call raised. A limit outside 1..100 is refused before
   * the handler runs; every exception inside it becomes a 500.
   */
  method SearchBulletpoints(limit: Option<int>, ranked: Result<seq<Metadata>, string>,
                            summaries: map<string, string>, makeId: string -> string)
    returns (resp: Response)
    ensures var l := if limit.Some? then limit.value else DefaultLimit;
      && (resp.ValidationError? <==> !(MinLimit <= l <= MaxLimit))
      && (resp.HttpError? ==> resp.status == 500 && IsPrefix(ErrorPrefix, resp.detail))
      && (resp.Ok? <==> MinLimit <= l <= MaxLimit && ranked.Success?
                        && AllSummarised(TopK(ranked.value, l), summaries))
      && (resp.Ok? ==> var matches := TopK(ranked.value, l);
            && resp.results == Reassembled(matches, summaries, makeId)
            && TotalTakeaways(resp.results) == |matches| <= l
            && |resp.results| <= |matches|)
    ensures var l := if limit.Some? then limit.value else DefaultLimit;
      MinLimit <= l <= MaxLimit && ranked.Failure? ==> resp == HttpError(500, ErrorPrefix + ranked.error)
    ensures var l := if limit.Some? then limit.value else DefaultLimit;
      MinLimit <= l <= MaxLimit && ranked.Success? && FirstMissing(TopK(ranked.value, l), summaries).Some? ==>
        resp == HttpError(500, ErrorPrefix + Describe(KeyError(FirstMissing(TopK(ranked.value, l), summaries).value)))
  {
    var l := if limit.Some? then limit.value else DefaultLimit;
    if l < MinLimit || l > MaxLimit {
      return ValidationError;
    }
    if ranked.Failure? {
      return HttpError(500, ErrorPrefix + Describe(UpstreamError(ranked.error)));
    }
    var matches := TopK(ranked.value, l);
    var grouped := GroupMatches(matches, summaries, makeId);
    match grouped
    case Success(episodes) =>
      TakeawaysSumToMatches(matches, summaries, makeId);
      EpisodesInFirstSeenOrder(matches, summaries, makeId);
      resp := Ok(episodes);
    case Failure(e) =>
      resp := HttpError(500, ErrorPrefix + Describe(e));
  }
}
