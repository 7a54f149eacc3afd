/**
 * The domain deduplication in `get_material`: a stable filter over the
 * search results that skips results without a URL and keeps the first URL
 * for each network location.
 */
module Deduplication {
  import opened Wrappers
  import opened Urls

  /** One raw search result; only its `href` entry is used, and it may be missing. */
  datatype SearchResult = SearchResult(href: Option<string>)

  /** `if not url: continue` lets through only a present, non-empty URL. */
  predicate HasUrl(r: SearchResult) {
    r.href.Some? && r.href.value != ""
  }

  /** The hosts of a list of URLs: the `seen_domains` set. */
  function Hosts(urls: seq<string>): set<string> {
    set u | u in urls :: Host(u)
  }

  /** No two URLs share a host. */
  predicate HostsDistinct(urls: seq<string>) {
    forall i, j :: 0 <= i < j < |urls| ==> Host(urls[i]) != Host(urls[j])
  }

  /** The hosts of the results that carry a URL. */
  function ResultHosts(results: seq<SearchResult>): set<string> {
    set r | r in results && HasUrl(r) :: Host(r.href.value)
  }

  lemma HostsAppend(urls: seq<string>, u: string)
    ensures Hosts(urls + [u]) == Hosts(urls) + {Host(u)}
  {
    assert forall v :: v in urls + [u] <==> v in urls || v == u;
  }

  /**
   * The URLs the loop collects from `results`, defined the way the loop
   * builds them: one result after the other, appending a URL whose host has
   * not been seen.
   */
  function Dedup(results: seq<SearchResult>): (urls: seq<string>)
    ensures |urls| <= |results|
    ensures forall i :: 0 <= i < |urls| ==> urls[i] != ""
    ensures HostsDistinct(urls)
  {
    if results == [] then []
    else
      var prev := Dedup(results[..|results| - 1]);
      var last := results[|results| - 1];
      if !HasUrl(last) || Host(last.href.value) in Hosts(prev) then prev
      else
        assert forall i :: 0 <= i < |prev| ==> Host(prev[i]) in Hosts(prev);
        prev + [last.href.value]
  }

  /** The loop of `get_material` that fills `urls` and `seen_domains`. */
  method DedupUrls(results: seq<SearchResult>) returns (urls: seq<string>)
    ensures urls == Dedup(results)
  {
    urls := [];
    var seenDomains: set<string> := {};
    for i := 0 to |results|
      invariant urls == Dedup(results[..i])
      invariant seenDomains == Hosts(urls)
    {
      assert results[..i + 1][..i] == results[..i] && results[..i + 1][i] == results[i];
      var result := results[i];
      var url := result.href;
      if url == None || url.value == "" {
        continue;
      }
      var domain := Host(url.value);
      if domain in seenDomains {
        continue;
      }
      seenDomains := seenDomains + {domain};
      HostsAppend(urls, url.value);
      urls := urls + [url.value];
    }
    assert results[..|results|] == results;
  }

  /** Every host of a result with a URL appears in the output, and no other. */
  lemma {:induction false} DedupCoversHosts(results: seq<SearchResult>)
    ensures Hosts(Dedup(results)) == ResultHosts(results)
  {
    if results != [] {
      var init := results[..|results| - 1];
      var last := results[|results| - 1];
      DedupCoversHosts(init);
      assert results == init + [last];
      ResultHostsAppend(init, last);
      var prev := Dedup(init);
      if HasUrl(last) && Host(last.href.value) !in Hosts(prev) {
        HostsAppend(prev, last.href.value);
      }
    }
  }

  lemma ResultHostsAppend(results: seq<SearchResult>, r: SearchResult)
    ensures ResultHosts(results + [r]) == ResultHosts(results) + (if HasUrl(r) then {Host(r.href.value)} else {})
  {
    assert forall x :: x in results + [r] <==> x in results || x == r;
  }

  /**
   * The result at `j` is the first one with a URL on its host: the one
   * the filter keeps.
   */
  ghost predicate IsFirstOfHost(results: seq<SearchResult>, j: int)
    requires 0 <= j < |results|
  {
    && HasUrl(results[j])
    && forall k :: 0 <= k < j && HasUrl(results[k]) ==>
         Host(results[k].href.value) != Host(results[j].href.value)
  }

  /**
   * A reference definition independent of the loop: the URLs of the first
   * `n` results that are first on their host, in input order.
   */
  ghost function FirstsOfHosts(results: seq<SearchResult>, n: nat): seq<string>
    requires n <= |results|
  {
    if n == 0 then []
    else
      var kept := if IsFirstOfHost(results, n - 1) then [results[n - 1].href.value] else [];
      FirstsOfHosts(results, n - 1) + kept
  }

  /**
   * The filter keeps exactly the first URL for each host, in the order of
   * the input: it is the subsequence of first occurrences.
   */
  lemma {:induction false} DedupKeepsFirstOfEachHost(results: seq<SearchResult>)
    ensures Dedup(results) == FirstsOfHosts(results, |results|)
  {
    if results != [] {
      var n := |results|;
      var init := results[..n - 1];
      var last := results[n - 1];
      var prev := Dedup(init);
      DedupKeepsFirstOfEachHost(init);
      FirstsOfHostsPrefix(results, n - 1, n - 1);
      assert prev == FirstsOfHosts(results, n - 1);
      DedupCoversHosts(init);
      LastIsFirstOfHost(results);
      assert (HasUrl(last) && Host(last.href.value) !in Hosts(prev)) == IsFirstOfHost(results, n - 1);
    }
  }

  /** The last result is first on its host exactly when no earlier result has that host. */
  lemma LastIsFirstOfHost(results: seq<SearchResult>)
    requires results != []
    ensures var n := |results|;
      IsFirstOfHost(results, n - 1) <==>
        HasUrl(results[n - 1]) && Host(results[n - 1].href.value) !in ResultHosts(results[..n - 1])
  {
    var n := |results|;
    var init := results[..n - 1];
    var last := results[n - 1];
    if HasUrl(last) {
      var h := Host(last.href.value);
      if h in ResultHosts(init) {
        var r :| r in init && HasUrl(r) && Host(r.href.value) == h;
        var k :| 0 <= k < n - 1 && init[k] == r;
        assert results[k] == r;
      } else {
        forall k | 0 <= k < n - 1 && HasUrl(results[k])
          ensures Host(results[k].href.value) != h
        {
          assert results[k] == init[k];
          assert init[k] in init;
        }
      }
    }
  }

  /** `FirstsOfHosts` up to `m` only looks at the first `m` results. */
  lemma {:induction false} FirstsOfHostsPrefix(results: seq<SearchResult>, n: nat, m: nat)
    requires m <= n <= |results|
    ensures FirstsOfHosts(results[..n], m) == FirstsOfHosts(results, m)
  {
    if m > 0 {
      FirstsOfHostsPrefix(results, n, m - 1);
      assert IsFirstOfHost(results[..n], m - 1) == IsFirstOfHost(results, m - 1);
    }
  }

  /**
   * The output is a subsequence of the input URLs: each output URL is the
   * URL of an input result, at strictly increasing positions, and each of
   * those results is the first one on its host.
   */
  lemma DedupIsSubsequence(results: seq<SearchResult>) returns (pos: seq<nat>)
    ensures |pos| == |Dedup(results)|
    ensures forall k :: 0 <= k < |pos| ==> pos[k] < |results|
    ensures forall k, l :: 0 <= k < l < |pos| ==> pos[k] < pos[l]
    ensures forall k :: 0 <= k < |pos| ==>
      results[pos[k]].href == Some(Dedup(results)[k]) && IsFirstOfHost(results, pos[k])
  {
    DedupKeepsFirstOfEachHost(results);
    pos := FirstsPositions(results, |results|);
  }

  /**
   * `pos` lists, in increasing order, the positions below `n` of the results
   * that are first on their host, matching `FirstsOfHosts(results, n)`.
   */
  ghost predicate PositionsOfFirsts(results: seq<SearchResult>, n: nat, pos: seq<nat>)
    requires n <= |results|
  {
    && |pos| == |FirstsOfHosts(results, n)|
    && (forall k :: 0 <= k < |pos| ==> pos[k] < n)
    && (forall k, l :: 0 <= k < l < |pos| ==> pos[k] < pos[l])
    && (forall k :: 0 <= k < |pos| ==>
          results[pos[k]].href == Some(FirstsOfHosts(results, n)[k]) && IsFirstOfHost(results, pos[k]))
  }

  lemma {:induction false} FirstsPositions(results: seq<SearchResult>, n: nat) returns (pos: seq<nat>)
    requires n <= |results|
    ensures PositionsOfFirsts(results, n, pos)
  {
    if n == 0 {
      pos := [];
    } else {
      var prev := FirstsPositions(results, n - 1);
      if IsFirstOfHost(results, n - 1) {
        pos := prev + [n - 1];
        PositionsAppend(results, n, prev);
      } else {
        pos := prev;
      }
    }
  }

  lemma PositionsAppend(results: seq<SearchResult>, n: nat, prev: seq<nat>)
    requires 0 < n <= |results|
    requires PositionsOfFirsts(results, n - 1, prev)
    requires IsFirstOfHost(results, n - 1)
    ensures PositionsOfFirsts(results, n, prev + [n - 1])
  {
    var pos := prev + [n - 1];
    var firsts := FirstsOfHosts(results, n - 1);
    var all := FirstsOfHosts(results, n);
    assert all == firsts + [results[n - 1].href.value];
    forall k | 0 <= k < |pos|
      ensures pos[k] < n && results[pos[k]].href == Some(all[k]) && IsFirstOfHost(results, pos[k])
    {
      if k < |prev| {
        assert pos[k] == prev[k] && all[k] == firsts[k];
      } else {
        assert pos[k] == n - 1 && all[k] == results[n - 1].href.value;
      }
    }
    forall k, l | 0 <= k < l < |pos|
      ensures pos[k] < pos[l]
    {
      assert pos[k] == prev[k];
      if l < |prev| {
        assert pos[l] == prev[l];
      }
    }
  }

  /** Lists the filter leaves alone: non-empty URLs on pairwise distinct hosts. */
  lemma {:induction false} DedupKeepsDistinct(urls: seq<string>)
    requires forall i :: 0 <= i < |urls| ==> urls[i] != ""
    requires HostsDistinct(urls)
    ensures Dedup(AsResults(urls)) == urls
  {
    if urls != [] {
      var n := |urls|;
      var init := urls[..n - 1];
      var last := urls[n - 1];
      DistinctPrefix(urls, init);
      DedupKeepsDistinct(init);
      LastHostUnseen(urls);
      DedupAsResultsStep(urls);
    }
  }

  lemma DedupAsResultsStep(urls: seq<string>)
    requires urls != [] && urls[|urls| - 1] != ""
    requires Dedup(AsResults(urls[..|urls| - 1])) == urls[..|urls| - 1]
    requires Host(urls[|urls| - 1]) !in Hosts(urls[..|urls| - 1])
    ensures Dedup(AsResults(urls)) == urls
  {
    var init, last := urls[..|urls| - 1], urls[|urls| - 1];
    AsResultsAppend(init, last);
    DedupAppendUnseen(AsResults(init), init, last);
    assert init + [last] == urls;
  }

  lemma AsResultsAppend(urls: seq<string>, u: string)
    ensures AsResults(urls + [u]) == AsResults(urls) + [SearchResult(Some(u))]
  {
  }

  /** A URL on a host not yet seen is appended. */
  lemma DedupAppendUnseen(results: seq<SearchResult>, prev: seq<string>, u: string)
    requires Dedup(results) == prev
    requires u != "" && Host(u) !in Hosts(prev)
    ensures Dedup(results + [SearchResult(Some(u))]) == prev + [u]
  {
    assert (results + [SearchResult(Some(u))])[..|results|] == results;
  }

  lemma DistinctPrefix(urls: seq<string>, init: seq<string>)
    requires urls != [] && init == urls[..|urls| - 1]
    requires forall i :: 0 <= i < |urls| ==> urls[i] != ""
    requires HostsDistinct(urls)
    ensures forall i :: 0 <= i < |init| ==> init[i] != ""
    ensures HostsDistinct(init)
  {
  }

  lemma LastHostUnseen(urls: seq<string>)
    requires urls != [] && HostsDistinct(urls)
    ensures Host(urls[|urls| - 1]) !in Hosts(urls[..|urls| - 1])
  {
    var n := |urls|;
    forall u | u in urls[..n - 1]
      ensures Host(u) != Host(urls[n - 1])
    {
      var k :| 0 <= k < n - 1 && urls[..n - 1][k] == u;
      assert urls[k] == u;
    }
  }

  /** The output read back as search results, each carrying its URL. */
  function AsResults(urls: seq<string>): (results: seq<SearchResult>)
    ensures |results| == |urls|
    ensures forall i :: 0 <= i < |urls| ==> results[i] == SearchResult(Some(urls[i]))
  {
    seq(|urls|, i requires 0 <= i < |urls| => SearchResult(Some(urls[i])))
  }

  /** Running the filter again on its own output changes nothing. */
  lemma DedupIdempotent(results: seq<SearchResult>)
    ensures Dedup(AsResults(Dedup(results))) == Dedup(results)
  {
    DedupKeepsDistinct(Dedup(results));
  }
}
