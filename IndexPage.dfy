/**
 * The state logic of the index page: host ids derived from host names, the
 * hosts that have episodes among the results, the selection toggles, the
 * host filter over the episodes and the episodes handed to the dialog.
 */
module IndexPage {
  import opened Results
  import opened Text
  import opened Seqs
  import opened HostChips
  import opened SearchApi

  // ----------------------------------------------------------------- host ids

  /** Drops the leading \s characters. */
  function DropWhitespace(s: string): (r: string)
    ensures |r| <= |s|
    ensures r == [] || !IsJsSpace(r[0])
  {
    if s != [] && IsJsSpace(s[0]) then DropWhitespace(s[1..]) else s
  }

  /** s.replace(/\s+/g, '-'): every maximal run of \s characters becomes one '-'. */
  function DashRuns(s: string): (r: string)
    ensures forall i :: 0 <= i < |r| ==> !IsJsSpace(r[i])
    ensures |r| <= |s|
    decreases |s|
  {
    if s == [] then []
    else if IsJsSpace(s[0]) then "-" + DashRuns(DropWhitespace(s[1..]))
    else [s[0]] + DashRuns(s[1..])
  }

  /** name.toLowerCase().replace(/\s+/g, '-'): the id of a host name. */
  function Slug(name: string): (id: string)
    ensures forall i :: 0 <= i < |id| ==> !IsJsSpace(id[i])
    ensures |id| <= |name|
  {
    DashRuns(Lower(name))
  }

  predicate IsLowerChar(c: char)
  {
    LowerChar(c) == c
  }

  lemma {:induction false} DashRunsKeepsLower(s: string)
    requires forall i :: 0 <= i < |s| ==> IsLowerChar(s[i])
    ensures forall i :: 0 <= i < |DashRuns(s)| ==> IsLowerChar(DashRuns(s)[i])
  {
    if s != [] {
      if IsJsSpace(s[0]) {
        var rest := DropWhitespace(s[1..]);
        DropWhitespaceIsSuffix(s[1..]);
        DashRunsKeepsLower(rest);
      } else {
        DashRunsKeepsLower(s[1..]);
      }
    }
  }

  lemma {:induction false} DropWhitespaceIsSuffix(s: string)
    ensures DropWhitespace(s) == s[|s| - |DropWhitespace(s)|..]
  {
    if s != [] && IsJsSpace(s[0]) {
      DropWhitespaceIsSuffix(s[1..]);
    }
  }

  lemma {:induction false} DashRunsWithoutWhitespace(s: string)
    requires forall i :: 0 <= i < |s| ==> !IsJsSpace(s[i])
    ensures DashRuns(s) == s
  {
    if s != [] {
      DashRunsWithoutWhitespace(s[1..]);
    }
  }

  predicate IsNotDash(c: char)
  {
    c != '-'
  }

  /** A character DashRuns copies through unchanged: neither \s nor a dash. */
  predicate IsWordChar(c: char)
  {
    !IsJsSpace(c) && c != '-'
  }

  /** The number of maximal \s runs of s when the character before s is whitespace iff afterSpace. */
  function RunStartsAfter(s: string, afterSpace: bool): nat
  {
    if s == [] then 0
    else (if IsJsSpace(s[0]) && !afterSpace then 1 else 0) + RunStartsAfter(s[1..], IsJsSpace(s[0]))
  }

  /** The number of maximal \s runs of s: whitespace characters not preceded by whitespace. */
  function RunStarts(s: string): nat
  {
    RunStartsAfter(s, false)
  }

  lemma {:induction false} DropWhitespaceKeeps(t: string)
    ensures Filter(DropWhitespace(t), IsWordChar) == Filter(t, IsWordChar)
    ensures multiset(DropWhitespace(t))['-'] == multiset(t)['-']
    ensures RunStartsAfter(DropWhitespace(t), false) == RunStartsAfter(t, true)
  {
    if t != [] && IsJsSpace(t[0]) {
      DropWhitespaceKeeps(t[1..]);
      assert t == [t[0]] + t[1..];
      assert multiset(t) == multiset{t[0]} + multiset(t[1..]);
    }
  }

  /** replace(/\s+/g, '-') keeps every other character, in order, and drops no dash. */
  lemma {:induction false} DashRunsKeepsText(s: string)
    ensures Filter(DashRuns(s), IsNotDash) == Filter(s, IsWordChar)
    decreases |s|
  {
    if s != [] {
      var r := DashRuns(s);
      if IsJsSpace(s[0]) {
        var rest := DropWhitespace(s[1..]);
        DropWhitespaceKeeps(s[1..]);
        DashRunsKeepsText(rest);
        assert r[0] == '-' && r[1..] == DashRuns(rest);
      } else {
        DashRunsKeepsText(s[1..]);
        assert r[0] == s[0] && r[1..] == DashRuns(s[1..]);
      }
    }
  }

  /** replace(/\s+/g, '-') writes exactly one dash per maximal \s run, besides the dashes already there. */
  lemma {:induction false} DashRunsCountsRuns(s: string)
    ensures multiset(DashRuns(s))['-'] == multiset(s)['-'] + RunStarts(s)
    decreases |s|
  {
    if s != [] {
      var r := DashRuns(s);
      assert s == [s[0]] + s[1..];
      assert multiset(s) == multiset{s[0]} + multiset(s[1..]);
      if IsJsSpace(s[0]) {
        var rest := DropWhitespace(s[1..]);
        DropWhitespaceKeeps(s[1..]);
        DashRunsCountsRuns(rest);
        assert r == "-" + DashRuns(rest);
        assert multiset(r) == multiset{'-'} + multiset(DashRuns(rest));
      } else {
        DashRunsCountsRuns(s[1..]);
        assert r == [s[0]] + DashRuns(s[1..]);
        assert multiset(r) == multiset{s[0]} + multiset(DashRuns(s[1..]));
      }
    }
  }

  /**
   * A host id keeps the lower-cased name's characters other than \s and '-'
   * in order, and holds one dash per dash of the name plus one per maximal
   * \s run of it.
   */
  lemma SlugShape(name: string)
    ensures Filter(Slug(name), IsNotDash) == Filter(Lower(name), IsWordChar)
    ensures multiset(Slug(name))['-'] == multiset(Lower(name))['-'] + RunStarts(Lower(name))
  {
    DashRunsKeepsText(Lower(name));
    DashRunsCountsRuns(Lower(name));
  }

  predicate AllJsSpace(s: string)
  {
    forall k :: 0 <= k < |s| ==> IsJsSpace(s[k])
  }

  /** DropWhitespace removes nothing but \s, and removes all of an all-\s string. */
  lemma {:induction false} DropWhitespaceEmptyIff(x: string)
    ensures DropWhitespace(x) == [] <==> AllJsSpace(x)
  {
    if x != [] && IsJsSpace(x[0]) {
      DropWhitespaceEmptyIff(x[1..]);
      assert forall k :: 1 <= k < |x| ==> x[k] == x[1..][k - 1];
    }
  }

  lemma {:induction false} DropWhitespaceAppend(x: string, y: string)
    ensures DropWhitespace(x + y) == if DropWhitespace(x) == [] then DropWhitespace(y) else DropWhitespace(x) + y
  {
    if x == [] {
      assert x + y == y;
    } else if IsJsSpace(x[0]) {
      DropWhitespaceAppend(x[1..], y);
      assert (x + y)[1..] == x[1..] + y;
    }
  }

  /** A non-empty run of \s characters becomes a single '-'. */
  lemma DashRunsOfRun(s: string)
    requires s != [] && AllJsSpace(s)
    ensures DashRuns(s) == "-"
  {
    DropWhitespaceEmptyIff(s[1..]);
  }

  /**
   * Cutting s between two characters that are not both \s cuts no run in
   * two, so DashRuns works on the pieces independently: each dash stays at
   * the place of its run.
   */
  lemma {:induction false} DashRunsSplit(a: string, b: string)
    requires a == [] || b == [] || !IsJsSpace(a[|a| - 1]) || !IsJsSpace(b[0])
    ensures DashRuns(a + b) == DashRuns(a) + DashRuns(b)
    decreases |a|
  {
    if a == [] {
      assert a + b == b;
    } else if b == [] {
      assert a + b == a;
    } else {
      var c := a + b;
      assert c[0] == a[0] && c[1..] == a[1..] + b;
      if IsJsSpace(a[0]) {
        var rest := DropWhitespace(a[1..]);
        DropWhitespaceAppend(a[1..], b);
        DropWhitespaceIsSuffix(a[1..]);
        if rest == [] {
          DropWhitespaceEmptyIff(a[1..]);
          if |a| > 1 {
            assert a[|a| - 1] == a[1..][|a| - 2];
          }
          assert !IsJsSpace(b[0]);
          assert DropWhitespace(b) == b;
        } else {
          assert rest[|rest| - 1] == a[|a| - 1];
          DashRunsSplit(rest, b);
        }
      } else {
        if |a| > 1 {
          assert a[1..][|a| - 2] == a[|a| - 1];
        }
        DashRunsSplit(a[1..], b);
      }
    }
  }

  /** Two spaces between words become one dash, in their place. */
  lemma DashRunsExample()
    ensures DashRuns("a  b") == "a-b"
  {
    DashRunsSplit("a", "  b");
    DashRunsSplit("  ", "b");
    DashRunsOfRun("  ");
    assert "a" + "  b" == "a  b" && "  " + "b" == "  b";
  }

  /** An id is its own id: slugging twice is slugging once. */
  lemma SlugIdempotent(name: string)
    ensures Slug(Slug(name)) == Slug(name)
  {
    var id := Slug(name);
    forall i | 0 <= i < |name| ensures IsLowerChar(Lower(name)[i]) {
    }
    DashRunsKeepsLower(Lower(name));
    assert Lower(id) == id;
    DashRunsWithoutWhitespace(id);
  }

  /** allHosts: one host per entry of the image table, in the table's order, with its id. */
  function AllHosts(podcastImages: seq<(string, string)>): (hosts: seq<Host>)
    ensures |hosts| == |podcastImages|
    ensures forall i :: 0 <= i < |hosts| ==>
      hosts[i].name == podcastImages[i].0 && hosts[i].image == podcastImages[i].1
      && hosts[i].id == Slug(podcastImages[i].0)
  {
    seq(|podcastImages|, i requires 0 <= i < |podcastImages| =>
      Host(Slug(podcastImages[i].0), podcastImages[i].0, podcastImages[i].1))
  }

  // ------------------------------------------------------------- hosts and episodes

  /** episodes.some(episode => slug(episode.host) === id) */
  predicate HasEpisode(episodes: seq<Episode>, id: string)
  {
    exists i :: 0 <= i < |episodes| && Slug(episodes[i].host) == id
  }

  /** availableHosts: every host while there are no episodes, otherwise those with an episode. */
  function AvailableHosts(allHosts: seq<Host>, episodes: seq<Episode>): (available: seq<Host>)
    ensures |episodes| == 0 ==> available == allHosts
    ensures |episodes| > 0 ==> forall h :: h in available <==> h in allHosts && HasEpisode(episodes, h.id)
    ensures IsSubseq(available, allHosts)
    ensures |episodes| > 0 ==>
      forall h :: multiset(available)[h] == if HasEpisode(episodes, h.id) then multiset(allHosts)[h] else 0
  {
    if |episodes| > 0 then
      FilterIsSubseq(allHosts, (h: Host) => HasEpisode(episodes, h.id));
      FilterMultiplicity(allHosts, (h: Host) => HasEpisode(episodes, h.id));
      Filter(allHosts, (h: Host) => HasEpisode(episodes, h.id))
    else
      FilterKeepsAll(allHosts, (h: Host) => true);
      FilterIsSubseq(allHosts, (h: Host) => true);
      allHosts
  }

  /** filteredEpisodes: all episodes while no host is selected, otherwise those of a selected host. */
  function FilteredEpisodes(episodes: seq<Episode>, selectedHosts: seq<string>): (shown: seq<Episode>)
    ensures |selectedHosts| == 0 ==> shown == episodes
    ensures |selectedHosts| > 0 ==> forall e :: e in shown <==> e in episodes && Slug(e.host) in selectedHosts
    ensures IsSubseq(shown, episodes)
    ensures |selectedHosts| > 0 ==>
      forall e :: multiset(shown)[e] == if Slug(e.host) in selectedHosts then multiset(episodes)[e] else 0
  {
    var keep := (e: Episode) => |selectedHosts| == 0 || Slug(e.host) in selectedHosts;
    FilterIsSubseq(episodes, keep);
    FilterMultiplicity(episodes, keep);
    if |selectedHosts| == 0 then FilterKeepsAll(episodes, keep); Filter(episodes, keep)
    else Filter(episodes, keep)
  }

  /**
   * Selecting one of the hosts offered for non-empty results never empties
   * the episode list: the host was offered because one of its episodes is there.
   */
  lemma SelectingAvailableHostShowsItsEpisodes(allHosts: seq<Host>, episodes: seq<Episode>, h: Host,
                                               selectedHosts: seq<string>)
    requires |episodes| > 0 && h in AvailableHosts(allHosts, episodes) && h.id in selectedHosts
    ensures exists e :: e in FilteredEpisodes(episodes, selectedHosts) && Slug(e.host) == h.id
  {
    var i :| 0 <= i < |episodes| && Slug(episodes[i].host) == h.id;
    assert episodes[i] in FilteredEpisodes(episodes, selectedHosts);
  }

  // ------------------------------------------------------------------ selections

  /** The toggle shared by toggleHost and toggleEpisodeSelection. */
  function Toggle(prev: seq<string>, id: string): (next: seq<string>)
    ensures id in next <==> id !in prev
    ensures forall x :: x != id ==> (x in next <==> x in prev)
    ensures id !in prev ==> next == prev + [id]
    ensures id in prev ==> IsSubseq(next, prev) && |next| == |prev| - multiset(prev)[id]
  {
    if id in prev then
      FilterIsSubseq(prev, x => x != id);
      FilterCount(prev, id);
      Filter(prev, x => x != id)
    else prev + [id]
  }

  lemma {:induction false} FilterCount(s: seq<string>, id: string)
    ensures |Filter(s, x => x != id)| == |s| - multiset(s)[id]
  {
    if s != [] {
      FilterCount(s[1..], id);
      assert s == [s[0]] + s[1..];
      assert multiset(s) == multiset{s[0]} + multiset(s[1..]);
    }
  }

  /** Toggling an id that is not selected, and toggling it again, restores the list. */
  lemma ToggleTwiceRestores(prev: seq<string>, id: string)
    requires id !in prev
    ensures Toggle(Toggle(prev, id), id) == prev
  {
    FilterAppend(prev, [id], x => x != id);
    FilterKeepsAll(prev, x => x != id);
  }

  /** A list without duplicates stays without duplicates. */
  lemma ToggleKeepsNoDuplicates(prev: seq<string>, id: string)
    requires NoDuplicates(prev)
    ensures NoDuplicates(Toggle(prev, id))
  {
    if id in prev {
      SubseqKeepsNoDuplicates(Toggle(prev, id), prev);
    }
  }

  /** The page's state variables. */
  datatype PageState = PageState(
    searchQuery: string, selectedHosts: seq<string>, isSelectionMode: bool,
    selectedEpisodes: seq<string>, isDialogOpen: bool, episodes: seq<Episode>)

  function ToggleHost(st: PageState, hostId: string): (st': PageState)
    ensures st'.selectedHosts == Toggle(st.selectedHosts, hostId)
    ensures hostId in st'.selectedHosts <==> hostId !in st.selectedHosts
    ensures forall x :: x != hostId ==> (x in st'.selectedHosts <==> x in st.selectedHosts)
    ensures st'.(selectedHosts := st.selectedHosts) == st
  {
    st.(selectedHosts := Toggle(st.selectedHosts, hostId))
  }

  function ToggleEpisodeSelection(st: PageState, episodeId: string): (st': PageState)
    ensures st'.selectedEpisodes == Toggle(st.selectedEpisodes, episodeId)
    ensures episodeId in st'.selectedEpisodes <==> episodeId !in st.selectedEpisodes
    ensures forall x :: x != episodeId ==> (x in st'.selectedEpisodes <==> x in st.selectedEpisodes)
    ensures st'.(selectedEpisodes := st.selectedEpisodes) == st
  {
    st.(selectedEpisodes := Toggle(st.selectedEpisodes, episodeId))
  }

  /** resetSelectionState: selection mode off and nothing selected; the rest is untouched. */
  function ResetSelectionState(st: PageState): (st': PageState)
    ensures !st'.isSelectionMode && st'.selectedEpisodes == []
    ensures st'.(isSelectionMode := st.isSelectionMode, selectedEpisodes := st.selectedEpisodes) == st
  {
    st.(isSelectionMode := false, selectedEpisodes := [])
  }

  // ----------------------------------------------------------------- data_sample

  /** episodes.find(episode => episode.id === id); None stands for undefined. */
  function FindEpisode(episodes: seq<Episode>, id: string): (found: Option<Episode>)
    ensures found.None? <==> forall i :: 0 <= i < |episodes| ==> episodes[i].id != id
    ensures found.Some? ==>
      (exists i :: 0 <= i < |episodes| && episodes[i] == found.value
         && found.value.id == id && forall k :: 0 <= k < i ==> episodes[k].id != id)
  {
    if episodes == [] then None
    else if episodes[0].id == id then Some(episodes[0])
    else
      var rest := FindEpisode(episodes[1..], id);
      assert forall i :: 0 < i < |episodes| ==> episodes[i] == episodes[1..][i - 1];
      rest
  }

  /** data_sample: for each selected id, in selection order, the first episode with that id. */
  function DataSample(selectedEpisodes: seq<string>, episodes: seq<Episode>): (sample: seq<Option<Episode>>)
    ensures |sample| == |selectedEpisodes|
    ensures forall i :: 0 <= i < |sample| ==> sample[i] == FindEpisode(episodes, selectedEpisodes[i])
  {
    seq(|selectedEpisodes|, i requires 0 <= i < |selectedEpisodes| => FindEpisode(episodes, selectedEpisodes[i]))
  }
}
