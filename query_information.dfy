/**
 * The per-query record of candidate entities, with its lazily computed union of the
 * candidate sets of the enabled sources.
 */
module QueryInformation {
  import opened Basics
  import opened Annotations

  /** The candidates a source contributes: its whole set when enabled, nothing when not. */
  function Contribution(enabled: bool, candidates: Option<set<Tag>>): set<Tag>
    requires enabled ==> candidates.Some?
  {
    if enabled then candidates.value else {}
  }

  /**
   * The candidates of the enabled sources: the snippet source (SA), the normal search
   * source (NS) and the Wikipedia search source (WS).
   */
  function CandidateUnion(snippets: bool, sa: Option<set<Tag>>,
                          normalSearch: bool, ns: Option<set<Tag>>,
                          wikiSearch: bool, ws: Option<set<Tag>>): (r: set<Tag>)
    requires snippets ==> sa.Some?
    requires normalSearch ==> ns.Some?
    requires wikiSearch ==> ws.Some?
    ensures forall t :: t in r <==> (snippets && t in sa.value) || (normalSearch && t in ns.value)
                                    || (wikiSearch && t in ws.value)
  {
    Contribution(snippets, sa) + Contribution(normalSearch, ns) + Contribution(wikiSearch, ws)
  }

  /** With no source enabled there are no candidates. */
  lemma NoSourceNoCandidates(sa: Option<set<Tag>>, ns: Option<set<Tag>>, ws: Option<set<Tag>>)
    ensures CandidateUnion(false, sa, false, ns, false, ws) == {}
  {
  }

  /** The set of a disabled source is never looked at: any value, absent included, gives the same union. */
  lemma DisabledSourcesIgnored(snippets: bool, sa: Option<set<Tag>>, sa': Option<set<Tag>>,
                               normalSearch: bool, ns: Option<set<Tag>>, ns': Option<set<Tag>>,
                               wikiSearch: bool, ws: Option<set<Tag>>, ws': Option<set<Tag>>)
    requires snippets ==> sa.Some? && sa' == sa
    requires normalSearch ==> ns.Some? && ns' == ns
    requires wikiSearch ==> ws.Some? && ws' == ws
    ensures CandidateUnion(snippets, sa, normalSearch, ns, wikiSearch, ws)
         == CandidateUnion(snippets, sa', normalSearch, ns', wikiSearch, ws')
  {
  }

  /** Enabling one more source never loses a candidate. */
  lemma MoreSourcesMoreCandidates(snippets: bool, normalSearch: bool, wikiSearch: bool,
                                  snippets': bool, normalSearch': bool, wikiSearch': bool,
                                  sa: set<Tag>, ns: set<Tag>, ws: set<Tag>)
    requires snippets ==> snippets'
    requires normalSearch ==> normalSearch'
    requires wikiSearch ==> wikiSearch'
    ensures CandidateUnion(snippets, Some(sa), normalSearch, Some(ns), wikiSearch, Some(ws))
         <= CandidateUnion(snippets', Some(sa), normalSearch', Some(ns), wikiSearch', Some(ws))
  {
  }

  /**
   * `QueryInformation`: which sources are included, each source's candidate set (absent
   * when the source was not queried), and the cached union.
   */
  class QueryInformation {
    var includeSourceNormalSearch: bool
    var includeSourceWikiSearch: bool
    var includeSourceSnippets: bool
    var candidatesSA: Option<set<Tag>>
    var candidatesNS: Option<set<Tag>>
    var candidatesWS: Option<set<Tag>>
    var allCandidates: Option<set<Tag>>

    /** The sets of the enabled sources are present. */
    predicate SourcesPresent()
      reads this
    {
      && (includeSourceSnippets ==> candidatesSA.Some?)
      && (includeSourceNormalSearch ==> candidatesNS.Some?)
      && (includeSourceWikiSearch ==> candidatesWS.Some?)
    }

    /** The union over the sources as they are now. */
    function CurrentUnion(): (r: set<Tag>)
      requires SourcesPresent()
      reads this
    {
      CandidateUnion(includeSourceSnippets, candidatesSA, includeSourceNormalSearch, candidatesNS,
                     includeSourceWikiSearch, candidatesWS)
    }

    /** A record with the given flags and sources and nothing cached yet. */
    constructor (normalSearch: bool, wikiSearch: bool, snippets: bool,
                 sa: Option<set<Tag>>, ns: Option<set<Tag>>, ws: Option<set<Tag>>)
      ensures includeSourceNormalSearch == normalSearch && includeSourceWikiSearch == wikiSearch
      ensures includeSourceSnippets == snippets
      ensures candidatesSA == sa && candidatesNS == ns && candidatesWS == ws
      ensures allCandidates.None?
    {
      includeSourceNormalSearch := normalSearch;
      includeSourceWikiSearch := wikiSearch;
      includeSourceSnippets := snippets;
      candidatesSA := sa;
      candidatesNS := ns;
      candidatesWS := ws;
      allCandidates := None;
    }

    /**
     * `allCandidates`: on the first call, the union of the enabled sources' candidates, which
     * is then cached; on every later call, the cached set, whatever the flags and sources are by then.
     */
    method AllCandidates() returns (r: set<Tag>)
      requires allCandidates.None? ==> SourcesPresent()
      modifies this
      ensures old(allCandidates).Some? ==> r == old(allCandidates).value && unchanged(this)
      ensures old(allCandidates).None? ==> r == old(CurrentUnion()) && allCandidates == Some(r)
      ensures includeSourceNormalSearch == old(includeSourceNormalSearch)
      ensures includeSourceWikiSearch == old(includeSourceWikiSearch)
      ensures includeSourceSnippets == old(includeSourceSnippets)
      ensures candidatesSA == old(candidatesSA) && candidatesNS == old(candidatesNS)
      ensures candidatesWS == old(candidatesWS)
    {
      if allCandidates.None? {
        var acc: set<Tag> := {};
        if includeSourceSnippets {
          acc := acc + candidatesSA.value;
        }
        if includeSourceNormalSearch {
          acc := acc + candidatesNS.value;
        }
        if includeSourceWikiSearch {
          acc := acc + candidatesWS.value;
        }
        allCandidates := Some(acc);
      }
      r := allCandidates.value;
    }
  }
}
