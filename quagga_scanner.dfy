/**
 * The acceptance rule the barcode scanner component applies to each detection
 * reported by the decoding library: take the median of the per-checkpoint
 * error scores of the read, and pass the detection on only when that median
 * is below a fixed threshold. Each detection is judged on its own.
 */
module QuaggaScanner {
  import opened Wrappers
  import opened Model
  import JsArray

  /** Median error below which a read is trusted (strict comparison). */
  const Threshold: real := 0.075

  /** One checkpoint of a read, as the decoder reports it; `error` may be undefined. */
  datatype DecodedCode = DecodedCode(code: int, start: int, end: int, error: Option<real>)

  /** A detection: the decoded value (possibly absent) and the checkpoints behind it. */
  datatype Detection = Detection(code: Option<JsString>, decodedCodes: seq<DecodedCode>)

  /**
   * The median of an ascending sequence: its middle element for odd length, the
   * mean of its two middle elements for even length, and no number (JavaScript
   * computes NaN from two undefined elements) for the empty sequence.
   */
  function MedianOfSorted(s: seq<real>): (m: Option<real>)
    ensures m.None? <==> s == []
  {
    if |s| % 2 == 1 then Some(s[|s| / 2])
    else if |s| == 0 then None
    else Some((s[|s| / 2 - 1] + s[|s| / 2]) / 2.0)
  }

  /** The textbook median of a finite collection of numbers. */
  function Median(s: seq<real>): Option<real>
  {
    MedianOfSorted(JsArray.SortSeq(s))
  }

  /** The least element of a nonempty sequence. */
  function Min(s: seq<real>): (m: real)
    requires |s| > 0
    ensures m in s
    ensures forall e :: e in s ==> m <= e
  {
    if |s| == 1 then s[0]
    else
      assert s == [s[0]] + s[1..];
      var rest := Min(s[1..]);
      if s[0] <= rest then s[0] else rest
  }

  /** The greatest element of a nonempty sequence. */
  function Max(s: seq<real>): (m: real)
    requires |s| > 0
    ensures m in s
    ensures forall e :: e in s ==> e <= m
  {
    if |s| == 1 then s[0]
    else
      assert s == [s[0]] + s[1..];
      var rest := Max(s[1..]);
      if s[0] >= rest then s[0] else rest
  }

  /**
   * Sorts `a` in place and returns its median. The caller's array is left
   * sorted ascending and holds the same elements as before.
   */
  method GetMedian(a: array<real>) returns (m: Option<real>)
    modifies a
    ensures JsArray.Sorted(a[..])
    ensures multiset(a[..]) == old(multiset(a[..]))
    ensures a.Length % 2 == 1 ==> m == Some(a[a.Length / 2])
    ensures a.Length % 2 == 0 && a.Length > 0 ==> m == Some((a[a.Length / 2 - 1] + a[a.Length / 2]) / 2.0)
    ensures a.Length == 0 <==> m == None
    ensures m == Median(old(a[..]))
  {
    JsArray.SortAscending(a);
    ghost var sorted := a[..];
    assert Median(old(a[..])) == MedianOfSorted(sorted);
    var half := a.Length / 2;
    if a.Length % 2 == 1 {
      m := Some(a[half]);
    } else if a.Length == 0 {
      m := None;
    } else {
      m := Some((a[half - 1] + a[half]) / 2.0);
    }
    assert m == MedianOfSorted(sorted);
  }

  /** The error scores of the checkpoints that have one, in checkpoint order. */
  function DefinedErrors(codes: seq<DecodedCode>): (errors: seq<real>)
    ensures |errors| <= |codes|
  {
    if codes == [] then []
    else
      assert codes == [codes[0]] + codes[1..];
      (if codes[0].error.Some? then [codes[0].error.value] else []) + DefinedErrors(codes[1..])
  }

  /** Some checkpoint in `codes` reports error score `e`. */
  ghost predicate DecodedCodeWithError(codes: seq<DecodedCode>, e: real)
  {
    exists i :: 0 <= i < |codes| && codes[i].error == Some(e)
  }

  /** The kept scores are exactly the scores some checkpoint reports. */
  lemma {:induction false} DefinedErrorsMembers(codes: seq<DecodedCode>)
    ensures forall e :: e in DefinedErrors(codes) <==> DecodedCodeWithError(codes, e)
  {
    if codes != [] {
      DefinedErrorsMembers(codes[1..]);
      forall e ensures e in DefinedErrors(codes) <==> DecodedCodeWithError(codes, e) {
        if DecodedCodeWithError(codes, e) {
          var i :| 0 <= i < |codes| && codes[i].error == Some(e);
          if i > 0 {
            assert codes[1..][i - 1].error == Some(e);
          }
        }
        if DecodedCodeWithError(codes[1..], e) {
          var i :| 0 <= i < |codes[1..]| && codes[1..][i].error == Some(e);
          assert codes[i + 1].error == Some(e);
        }
      }
    }
  }

  /** Keeping the defined errors distributes over concatenation. */
  lemma {:induction false} DefinedErrorsAppend(xs: seq<DecodedCode>, ys: seq<DecodedCode>)
    ensures DefinedErrors(xs + ys) == DefinedErrors(xs) + DefinedErrors(ys)
  {
    if xs != [] {
      var zs := xs + ys;
      assert zs[0] == xs[0] && zs[1..] == xs[1..] + ys;
      DefinedErrorsAppend(xs[1..], ys);
    } else {
      assert xs + ys == ys;
    }
  }

  /** A checkpoint without an error score contributes nothing, wherever it stands. */
  lemma UndefinedErrorIgnored(xs: seq<DecodedCode>, c: DecodedCode, ys: seq<DecodedCode>)
    requires c.error == None
    ensures DefinedErrors(xs + [c] + ys) == DefinedErrors(xs + ys)
  {
    DefinedErrorsAppend(xs + [c], ys);
    DefinedErrorsAppend(xs, [c]);
    DefinedErrorsAppend(xs, ys);
  }

  /** Taking out the checkpoint at `i` takes one copy of it out of the multiset. */
  lemma RemoveAt(ys: seq<DecodedCode>, i: nat)
    requires i < |ys|
    ensures multiset(ys[..i] + ys[i + 1..]) == multiset(ys) - multiset{ys[i]}
  {
    var c, pre, post := ys[i], ys[..i], ys[i + 1..];
    assert ys == pre + ([c] + post);
    calc {
      multiset(ys) - multiset{c};
      (multiset(pre) + multiset{c} + multiset(post)) - multiset{c};
      multiset(pre) + multiset(post);
      multiset(pre + post);
    }
  }

  /** Taking out the checkpoint at `i` takes out one copy of it and of its defined error. */
  lemma DefinedErrorsRemoveAt(ys: seq<DecodedCode>, i: nat)
    requires i < |ys|
    ensures multiset(DefinedErrors(ys)) == multiset(DefinedErrors([ys[i]])) + multiset(DefinedErrors(ys[..i] + ys[i + 1..]))
  {
    var c, pre, post := ys[i], ys[..i], ys[i + 1..];
    SplitAround(ys, i);
    DefinedErrorsAppend(pre + [c], post);
    DefinedErrorsAppend(pre, [c]);
    DefinedErrorsAppend(pre, post);
    var dPre, dC, dPost := DefinedErrors(pre), DefinedErrors([c]), DefinedErrors(post);
    assert DefinedErrors(ys) == dPre + dC + dPost;
    MultisetMiddle(dPre, dC, dPost);
  }

  /** A sequence is its part before `i`, its element at `i`, and its part after `i`. */
  lemma SplitAround(ys: seq<DecodedCode>, i: nat)
    requires i < |ys|
    ensures ys == (ys[..i] + [ys[i]]) + ys[i + 1..]
  {
  }

  /** Moving the middle part of a concatenation to the front keeps its multiset. */
  lemma MultisetMiddle(a: seq<real>, b: seq<real>, c: seq<real>)
    ensures multiset(a + b + c) == multiset(b) + multiset(a + c)
  {
  }

  /** Reordering the checkpoints reorders their defined errors and changes no count. */
  lemma {:induction false} DefinedErrorsPermutation(xs: seq<DecodedCode>, ys: seq<DecodedCode>)
    requires multiset(xs) == multiset(ys)
    ensures multiset(DefinedErrors(xs)) == multiset(DefinedErrors(ys))
  {
    if xs == [] {
      assert |ys| == |multiset(ys)| == 0;
    } else {
      var c := xs[0];
      assert c in multiset(ys) by {
        assert c in xs;
      }
      var i :| 0 <= i < |ys| && ys[i] == c;
      var rest := ys[..i] + ys[i + 1..];
      RemoveAt(ys, i);
      assert xs == [c] + xs[1..];
      assert multiset(xs[1..]) == multiset(rest);
      DefinedErrorsPermutation(xs[1..], rest);
      DefinedErrorsRemoveAt(ys, i);
      DefinedErrorsAppend([c], xs[1..]);
    }
  }

  /**
   * The median of the defined checkpoint errors. The filtered copy is a fresh
   * array, so the in-place sort inside GetMedian touches nothing of the caller's.
   */
  method GetMedianOfCodeErrors(codes: seq<DecodedCode>) returns (m: Option<real>)
    ensures m == Median(DefinedErrors(codes))
  {
    var errors := DefinedErrors(codes);
    var arr := new real[|errors|](i requires 0 <= i < |errors| => errors[i]);
    assert arr[..] == errors;
    m := GetMedian(arr);
  }

  /** The read is trusted: its checkpoint errors have a median, and it is below the threshold. */
  predicate Accepted(result: Detection)
  {
    var m := Median(DefinedErrors(result.decodedCodes));
    m.Some? && m.value < Threshold
  }

  /**
   * The detection handler installed on the decoder. `hasHandler` says whether
   * the component was given an `onDetected` callback; the returned value is
   * the detection passed to it, if it was called.
   */
  method ErrorCheck(hasHandler: bool, result: Detection) returns (forwarded: Option<Detection>)
    ensures forwarded.Some? <==> hasHandler && Accepted(result)
    ensures forwarded.Some? ==> forwarded.value == result
  {
    if !hasHandler {
      return None;
    }
    var err := GetMedianOfCodeErrors(result.decodedCodes);
    if err.Some? && err.value < Threshold {
      forwarded := Some(result);
    } else {
      forwarded := None;
    }
  }

  // Properties of the median.

  /** The median does not depend on the order of the scores, only on which scores occur how often. */
  lemma MedianOrderIndependent(s: seq<real>, t: seq<real>)
    requires multiset(s) == multiset(t)
    ensures Median(s) == Median(t)
  {
    JsArray.SortSeqUnique(t, JsArray.SortSeq(s));
  }

  /** The median of a nonempty ascending sequence lies between its first and last element. */
  lemma SortedMedianBounds(t: seq<real>)
    requires JsArray.Sorted(t) && |t| > 0
    ensures MedianOfSorted(t).Some?
    ensures t[0] <= MedianOfSorted(t).value <= t[|t| - 1]
  {
    var n := |t|;
    assert t[0] <= t[n / 2] <= t[n - 1];
    if n % 2 == 0 {
      assert t[0] <= t[n / 2 - 1] <= t[n - 1];
    }
  }

  /** The median of `s` is the median of any ascending arrangement of its elements. */
  lemma MedianOfArrangement(s: seq<real>, t: seq<real>)
    requires JsArray.Sorted(t) && multiset(t) == multiset(s)
    ensures Median(s) == MedianOfSorted(t)
  {
    JsArray.SortSeqUnique(s, t);
  }

  /** An element of the multiset of `s` occurs in `s`. */
  lemma ElementOf(s: seq<real>, e: real)
    requires e in multiset(s)
    ensures e in s
  {
  }

  /** A nonempty collection has a median, and it lies between its least and greatest element. */
  lemma MedianBounds(s: seq<real>)
    requires |s| > 0
    ensures Median(s).Some?
    ensures Min(s) <= Median(s).value <= Max(s)
  {
    var t := JsArray.SortSeq(s);
    var n := |t|;
    assert n == |multiset(t)| == |multiset(s)| == |s|;
    SortedMedianBounds(t);
    assert Min(s) <= t[0] by {
      assert t[0] in multiset(t);
      ElementOf(s, t[0]);
    }
    assert t[n - 1] <= Max(s) by {
      assert t[n - 1] in multiset(t);
      ElementOf(s, t[n - 1]);
    }
    assert t[0] <= Min(s) by {
      JsArray.HeadIsLeast(t, Min(s));
    }
    assert Max(s) <= t[n - 1] by {
      JsArray.LastIsGreatest(t, Max(s));
    }
  }

  /** An empty collection, and only an empty one, has no median. */
  lemma {:induction false} MedianNoneIffEmpty(s: seq<real>)
    ensures Median(s) == None <==> s == []
  {
    assert |JsArray.SortSeq(s)| == |multiset(JsArray.SortSeq(s))| == |multiset(s)| == |s|;
  }

  /** Two ordered scores form an ascending sequence whose median is their mean. */
  lemma SortedPair(lo: real, hi: real)
    requires lo <= hi
    ensures JsArray.Sorted([lo, hi])
    ensures MedianOfSorted([lo, hi]) == Some((lo + hi) / 2.0)
  {
    var t := [lo, hi];
    assert t[0] <= t[1];
  }

  /** Three ordered scores form an ascending sequence whose median is the middle one. */
  lemma SortedTriple(lo: real, mid: real, hi: real)
    requires lo <= mid <= hi
    ensures JsArray.Sorted([lo, mid, hi])
    ensures MedianOfSorted([lo, mid, hi]) == Some(mid)
  {
    var t := [lo, mid, hi];
    assert t[0] <= t[1] <= t[2];
  }

  /** Two scores, in either order, have their mean as median. */
  lemma MedianOfTwoIsMean(s: seq<real>, lo: real, hi: real)
    requires lo <= hi
    requires multiset(s) == multiset([lo, hi])
    ensures Median(s) == Some((lo + hi) / 2.0)
  {
    SortedPair(lo, hi);
    MedianOfArrangement(s, [lo, hi]);
  }

  /** Three scores, in any order, have the middle one as median. */
  lemma MedianOfThreeIsMiddle(s: seq<real>, lo: real, mid: real, hi: real)
    requires lo <= mid <= hi
    requires multiset(s) == multiset([lo, mid, hi])
    ensures Median(s) == Some(mid)
  {
    SortedTriple(lo, mid, hi);
    MedianOfArrangement(s, [lo, mid, hi]);
  }

  /** Worked example: one score is its own median. */
  lemma MedianSingleExample()
    ensures Median([0.9]) == Some(0.9)
  {
    MedianOfArrangement([0.9], [0.9]);
  }

  /** Worked example: two scores have their mean as median. */
  lemma MedianEvenExample()
    ensures Median([0.1, 0.9]) == Some(0.5)
  {
    MedianOfTwoIsMean([0.1, 0.9], 0.1, 0.9);
  }

  /** Worked example: three unordered scores have the middle one as median. */
  lemma MedianOddExample()
    ensures Median([0.05, 0.06, 0.04]) == Some(0.05)
  {
    MedianOfThreeIsMiddle([0.05, 0.06, 0.04], 0.04, 0.05, 0.06);
  }

  // Properties of the acceptance rule.

  /** The decision depends only on the multiset of defined errors. */
  lemma AcceptedDependsOnlyOnDefinedErrors(r1: Detection, r2: Detection)
    requires multiset(DefinedErrors(r1.decodedCodes)) == multiset(DefinedErrors(r2.decodedCodes))
    ensures Accepted(r1) <==> Accepted(r2)
  {
    MedianOrderIndependent(DefinedErrors(r1.decodedCodes), DefinedErrors(r2.decodedCodes));
  }

  /** Reordering the checkpoints of a detection does not change the decision. */
  lemma AcceptedOrderIndependent(r1: Detection, r2: Detection)
    requires multiset(r1.decodedCodes) == multiset(r2.decodedCodes)
    ensures Accepted(r1) <==> Accepted(r2)
  {
    DefinedErrorsPermutation(r1.decodedCodes, r2.decodedCodes);
    AcceptedDependsOnlyOnDefinedErrors(r1, r2);
  }

  /** Checkpoints none of which has an error score yield no scores at all. */
  lemma {:induction false} AllUndefinedNoErrors(codes: seq<DecodedCode>)
    requires forall i :: 0 <= i < |codes| ==> codes[i].error == None
    ensures DefinedErrors(codes) == []
  {
    if codes != [] {
      assert codes[0].error == None;
      AllUndefinedNoErrors(codes[1..]);
    }
  }

  /** A detection none of whose checkpoints has an error score is never accepted. */
  lemma NoDefinedErrorsRejected(result: Detection)
    requires forall i :: 0 <= i < |result.decodedCodes| ==> result.decodedCodes[i].error == None
    ensures !Accepted(result)
  {
    AllUndefinedNoErrors(result.decodedCodes);
    MedianNoneIffEmpty([]);

  }

  /** A detection is accepted exactly when its median error is strictly below the threshold. */
  lemma AcceptedIffBelowThreshold(result: Detection, m: real)
    requires Median(DefinedErrors(result.decodedCodes)) == Some(m)
    ensures Accepted(result) <==> m < 0.075
  {
  }

  /** A checkpoint without an error score changes no decision. */
  lemma AcceptedIgnoresUndefinedError(xs: seq<DecodedCode>, c: DecodedCode, ys: seq<DecodedCode>, code: Option<JsString>)
    requires c.error == None
    ensures Accepted(Detection(code, xs + [c] + ys)) <==> Accepted(Detection(code, xs + ys))
  {
    UndefinedErrorIgnored(xs, c, ys);
  }

  /** Three example reads: scores 0.09 and 0.06, the same plus 0.07, and the latter with an unscored checkpoint. */
  const TwoScores: seq<DecodedCode> := [DecodedCode(0, 0, 0, Some(0.09)), DecodedCode(0, 0, 0, Some(0.06))]
  const ThreeScores: seq<DecodedCode> := TwoScores + [DecodedCode(0, 0, 0, Some(0.07))]
  const ThreeScoresOneGap: seq<DecodedCode> := TwoScores + [DecodedCode(0, 0, 0, None), DecodedCode(0, 0, 0, Some(0.07))]

  /** The scores kept from the two-score read, in checkpoint order. */
  lemma TwoScoresErrors()
    ensures DefinedErrors(TwoScores) == [0.09, 0.06]
  {
    DefinedErrorsAppend([TwoScores[0]], [TwoScores[1]]);
    assert TwoScores == [TwoScores[0]] + [TwoScores[1]];
  }

  /** The scores kept from the three-score read, in checkpoint order. */
  lemma ThreeScoresErrors()
    ensures DefinedErrors(ThreeScores) == [0.09, 0.06, 0.07]
  {
    var third := DecodedCode(0, 0, 0, Some(0.07));
    TwoScoresErrors();
    DefinedErrorsAppend(TwoScores, [third]);
    assert DefinedErrors([third]) == [0.07];
  }

  /** The threshold is strict: scores 0.09 and 0.06 have median exactly 0.075, which is rejected. */
  lemma BoundaryMedianRejected(code: Option<JsString>)
    ensures Median(DefinedErrors(TwoScores)) == Some(0.075)
    ensures !Accepted(Detection(code, TwoScores))
  {
    TwoScoresErrors();
    MedianOfTwoIsMean([0.09, 0.06], 0.06, 0.09);
  }

  /** A third score of 0.07 moves the median to 0.07, and the read is accepted. */
  lemma BelowBoundaryAccepted(code: Option<JsString>)
    ensures Median(DefinedErrors(ThreeScores)) == Some(0.07)
    ensures Accepted(Detection(code, ThreeScores))
  {
    ThreeScoresErrors();
    MedianOfThreeIsMiddle([0.09, 0.06, 0.07], 0.06, 0.07, 0.09);
  }

  /** An unscored checkpoint among them changes nothing. */
  lemma GapDoesNotChangeDecision(code: Option<JsString>)
    ensures Accepted(Detection(code, ThreeScoresOneGap))
  {
    UndefinedErrorIgnored(TwoScores, DecodedCode(0, 0, 0, None), [DecodedCode(0, 0, 0, Some(0.07))]);
    assert ThreeScoresOneGap == TwoScores + [DecodedCode(0, 0, 0, None)] + [DecodedCode(0, 0, 0, Some(0.07))];
    assert TwoScores + [DecodedCode(0, 0, 0, Some(0.07))] == ThreeScores;
    BelowBoundaryAccepted(code);
  }
}
