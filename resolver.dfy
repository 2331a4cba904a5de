/**
 * Ordered fallback over selectors: `first_present` and `try_click_any`
 * (check_pass.py:99-115). Both walk their candidate list in order, probe
 * each selector on the page (wait until visible, or click) and return the
 * first one whose probe succeeds; a probe that raises is swallowed and the
 * walk moves on. The page is abstracted to the outcome of probing each
 * selector, with a raised exception or a timeout as `false`.
 */
module Resolver {
  import opened Wrappers

  /** `r` is what a first-success walk over `candidates` must return. */
  predicate IsFirstSuccess(probe: string -> bool, candidates: seq<string>, r: Option<string>) {
    match r
    case None => forall i :: 0 <= i < |candidates| ==> !probe(candidates[i])
    case Some(s) =>
      exists k :: 0 <= k < |candidates| && candidates[k] == s && probe(s)
        && forall i :: 0 <= i < k ==> !probe(candidates[i])
  }

  /**
   * `first_present(page, selectors)` with `probe` = "becomes visible in
   * time", and `try_click_any(page, selectors)` with `probe` = "the click
   * went through". `tried` is the number of selectors probed, so the
   * probes made are those of `candidates[..tried]`.
   */
  method FirstSuccess(probe: string -> bool, candidates: seq<string>) returns (r: Option<string>, tried: nat)
    ensures tried <= |candidates|
    ensures forall i :: 0 <= i < tried - 1 ==> !probe(candidates[i])
    ensures r.Some? ==> 0 < tried && r.value == candidates[tried - 1] && probe(r.value)
    ensures r.None? ==> tried == |candidates| && forall i :: 0 <= i < |candidates| ==> !probe(candidates[i])
    ensures IsFirstSuccess(probe, candidates, r)
  {
    tried := 0;
    while tried < |candidates|
      invariant tried <= |candidates|
      invariant forall i :: 0 <= i < tried ==> !probe(candidates[i])
    {
      var sel := candidates[tried];
      tried := tried + 1;
      if probe(sel) {
        return Some(sel), tried;
      }
    }
    return None, tried;
  }

  /** The first-success condition pins the result down: no two results satisfy it. */
  lemma FirstSuccessUnique(probe: string -> bool, candidates: seq<string>, r1: Option<string>, r2: Option<string>)
    requires IsFirstSuccess(probe, candidates, r1) && IsFirstSuccess(probe, candidates, r2)
    ensures r1 == r2
  {
    match r1
    case None =>
    case Some(s1) =>
      var k1 :| 0 <= k1 < |candidates| && candidates[k1] == s1 && probe(s1)
        && forall i :: 0 <= i < k1 ==> !probe(candidates[i]);
      if r2.Some? {
        var k2 :| 0 <= k2 < |candidates| && candidates[k2] == r2.value && probe(r2.value)
          && forall i :: 0 <= i < k2 ==> !probe(candidates[i]);
        assert k1 == k2;
      }
  }

  /** An empty candidate list finds nothing. */
  lemma NothingToTry(probe: string -> bool, r: Option<string>)
    requires IsFirstSuccess(probe, [], r)
    ensures r == None
  {
  }

  /** Appending fallbacks never changes a result already found. */
  lemma FallbacksDoNotOverride(probe: string -> bool, candidates: seq<string>, more: seq<string>, s: string)
    requires IsFirstSuccess(probe, candidates, Some(s))
    ensures IsFirstSuccess(probe, candidates + more, Some(s))
  {
    var k :| 0 <= k < |candidates| && candidates[k] == s && probe(s)
      && forall i :: 0 <= i < k ==> !probe(candidates[i]);
    assert (candidates + more)[k] == s;
    assert forall i :: 0 <= i < k ==> (candidates + more)[i] == candidates[i];
  }
}
