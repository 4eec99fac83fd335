/** Finding where a stop word may have begun at the end of a text that is still growing. */
module PartialStop {
  import opened Basics

  predicate EndsWith(s: string, suffix: string) {
    |s| >= |suffix| && s[|s| - |suffix|..] == suffix
  }

  /** What follows position `p` is a beginning of the stop word. */
  predicate MayBegin(s: string, stop: string, p: nat) {
    p < |s| && s[p..] <= stop
  }

  /** The first position from which the rest of the text is a beginning of the stop word. */
  method FindPartialStop(s: string, stop: string) returns (r: Option<nat>)
    ensures r.Some? ==> MayBegin(s, stop, r.value) && forall p :: 0 <= p < r.value ==> !MayBegin(s, stop, p)
    ensures r.None? ==> forall p :: 0 <= p < |s| ==> !MayBegin(s, stop, p)
  {
    hide MayBegin;
    if |s| > 0 && |stop| > 0 {
      var maxLen := if |s| < |stop| then |s| else |stop|;
      var lastChar := s[|s| - 1];
      var len := maxLen;
      forall p | 0 <= p < |s| - maxLen ensures !MayBegin(s, stop, p) {
        EndsWithBeginning(s, stop, p);
      }
      while len > 0
        invariant 0 <= len <= maxLen
        invariant forall p :: 0 <= p < |s| - len ==> !MayBegin(s, stop, p)
      {
        EndsWithBeginning(s, stop, |s| - len);
        if stop[len - 1] == lastChar {
          if EndsWith(s, stop[..len]) {
            return Some(|s| - len);
          }
        }
        len := len - 1;
      }
    } else {
      forall p | 0 <= p < |s| ensures !MayBegin(s, stop, p) {
        EndsWithBeginning(s, stop, p);
      }
    }
    return None;
  }

  /** The test on the last character only skips what the comparison would refuse. */
  lemma EndsWithBeginning(s: string, stop: string, p: nat)
    requires p < |s|
    ensures var len := |s| - p;
            MayBegin(s, stop, p) <==> len <= |stop| && EndsWith(s, stop[..len])
    ensures MayBegin(s, stop, p) ==> stop[|s| - p - 1] == s[|s| - 1]
  {
  }

  // ----- what may be passed on

  predicate OccursAt(stop: string, text: string, q: nat) {
    q + |stop| <= |text| && text[q..q + |stop|] == stop
  }

  /** However the text goes on, no stop word that reaches its present end begins before position `p`. */
  ghost predicate Safe(s: string, stop: string, p: nat) {
    forall more: string, q: nat :: OccursAt(stop, s + more, q) && q < |s| <= q + |stop| ==> p <= q
  }

  /** A stop word may begin at a position exactly when some continuation completes it. */
  lemma ContinuationIff(s: string, stop: string, q: nat)
    requires q < |s|
    ensures MayBegin(s, stop, q) <==> exists more: string :: OccursAt(stop, s + more, q) && |s| <= q + |stop|
  {
    if MayBegin(s, stop, q) {
      var more := stop[|s| - q..];
      assert s + more == s[..q] + stop;
      assert OccursAt(stop, s + more, q);
    }
    forall more: string | OccursAt(stop, s + more, q) && |s| <= q + |stop|
      ensures MayBegin(s, stop, q)
    {
      assert s[q..] == (s + more)[q..q + |stop|][..|s| - q];
    }
  }

  /** The position found is the greatest one that is safe: all before it may be passed on, and nothing after it. */
  lemma SafeIff(s: string, stop: string, found: Option<nat>, p: nat)
    requires p <= |s|
    requires match found
             case Some(r) => MayBegin(s, stop, r) && forall k :: 0 <= k < r ==> !MayBegin(s, stop, k)
             case None => forall k :: 0 <= k < |s| ==> !MayBegin(s, stop, k)
    ensures Safe(s, stop, p) <==> p <= if found.Some? then found.value else |s|
  {
    hide MayBegin, OccursAt;
    if found.Some? && found.value < p {
      ContinuationIff(s, stop, found.value);
      var more: string :| OccursAt(stop, s + more, found.value) && |s| <= found.value + |stop|;
      assert !Safe(s, stop, p);
    } else {
      forall more: string, q: nat | OccursAt(stop, s + more, q) && q < |s| <= q + |stop|
        ensures p <= q
      {
        ContinuationIff(s, stop, q);
      }
    }
  }
}
