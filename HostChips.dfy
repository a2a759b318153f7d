/**
 * The host chip list: the hosts whose name contains the search text, ignoring
 * case, and the collapsed view that shows only the first two of them.
 */
module HostChips {
  import opened Text
  import opened Seqs

  datatype Host = Host(id: string, name: string, image: string)

  /** The number of chips shown while the list is collapsed: slice(0, 2). */
  const CollapsedCount: nat := 2

  predicate NameMatches(host: Host, query: string)
  {
    Contains(Lower(host.name), Lower(query))
  }

  /** filteredHosts: the hosts whose lower-cased name contains the lower-cased query, in order. */
  function FilteredHosts(hosts: seq<Host>, query: string): (filtered: seq<Host>)
    ensures forall h :: h in filtered <==> h in hosts && NameMatches(h, query)
    ensures IsSubseq(filtered, hosts)
    ensures forall h :: multiset(filtered)[h] == if NameMatches(h, query) then multiset(hosts)[h] else 0
  {
    FilterIsSubseq(hosts, h => NameMatches(h, query));
    FilterMultiplicity(hosts, h => NameMatches(h, query));
    Filter(hosts, h => NameMatches(h, query))
  }

  lemma {:induction false} ContainsEmpty(s: string)
    ensures Contains(s, "")
  {
  }

  /** An empty search keeps every host. */
  lemma EmptyQueryKeepsAll(hosts: seq<Host>)
    ensures FilteredHosts(hosts, "") == hosts
  {
    forall h | h in hosts ensures NameMatches(h, "") {
      ContainsEmpty(Lower(h.name));
    }
    FilterKeepsAll(hosts, h => NameMatches(h, ""));
  }

  lemma {:induction false} LowerIdempotent(s: string)
    ensures Lower(Lower(s)) == Lower(s)
  {
    forall i | 0 <= i < |s| ensures LowerChar(LowerChar(s[i])) == LowerChar(s[i]) {
    }
  }

  /** The filter ignores the case of the query. */
  lemma QueryCaseIgnored(hosts: seq<Host>, query: string)
    ensures FilteredHosts(hosts, Lower(query)) == FilteredHosts(hosts, query)
  {
    LowerIdempotent(query);
    FilterCongruent(hosts, h => NameMatches(h, Lower(query)), h => NameMatches(h, query));
  }

  /** visibleHosts: all filtered hosts when expanded, otherwise the first two. */
  function VisibleHosts(filtered: seq<Host>, isExpanded: bool): (visible: seq<Host>)
    ensures |visible| == if isExpanded || |filtered| < CollapsedCount then |filtered| else CollapsedCount
    ensures visible == filtered[..|visible|]
  {
    if isExpanded then filtered
    else if |filtered| < CollapsedCount then filtered
    else filtered[..CollapsedCount]
  }

  /** The chips rendered: each visible host with its isSelected flag. */
  function ChipStates(visible: seq<Host>, selectedHosts: seq<string>): (chips: seq<(Host, bool)>)
    ensures |chips| == |visible|
    ensures forall i :: 0 <= i < |visible| ==>
      chips[i].0 == visible[i] && (chips[i].1 <==> visible[i].id in selectedHosts)
  {
    seq(|visible|, i requires 0 <= i < |visible| => (visible[i], visible[i].id in selectedHosts))
  }
}
