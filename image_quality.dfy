/**
 * Score aggregation of the image-quality example (`compute_img_quality` in
 * custom-metrics-example/image_quality.py): every image key is scored on its
 * own, an image whose download, decoding or scoring raises is logged and skipped,
 * and the result is the median of the scores collected, or -1 when none was.
 *
 * Scoring one image (object download, image decoding, BRISQUE) is an external
 * oracle `Scorer`; scores are exact reals.
 */
module ImageQuality {
  import opened Wrappers
  import LatestFolder

  /** The result when no image could be scored. */
  const NoData: real := -1.0

  /** Scoring one image by key: `None` when any step of it raises. */
  type Scorer = string -> Option<real>

  /** The scores collected from `keys`, in key order, skipping the images that failed. */
  function Collected(keys: seq<string>, score: Scorer): seq<real>
  {
    if keys == [] then []
    else
      Collected(keys[..|keys| - 1], score)
      + (match score(keys[|keys| - 1]) case Some(v) => [v] case None => [])
  }

  /** The keys whose processing failed and was logged, in key order. */
  function FailedKeys(keys: seq<string>, score: Scorer): seq<string>
  {
    if keys == [] then []
    else FailedKeys(keys[..|keys| - 1], score) + (if score(keys[|keys| - 1]).None? then [keys[|keys| - 1]] else [])
  }

  predicate SortedAsc(s: seq<real>)
  {
    forall i, j :: 0 <= i < j < |s| ==> s[i] <= s[j]
  }

  function Insert(x: real, s: seq<real>): (r: seq<real>)
    requires SortedAsc(s)
    ensures |r| == |s| + 1
    ensures r[0] == x || (s != [] && r[0] == s[0])
    ensures SortedAsc(r)
    ensures multiset(r) == multiset(s) + multiset{x}
  {
    if s == [] || x <= s[0] then [x] + s
    else
      var rest := Insert(x, s[1..]);
      assert s[0] <= rest[0];
      assert s == [s[0]] + s[1..];
      [s[0]] + rest
  }

  /** The order `sorted` puts the scores in before the median is taken. */
  function Sort(s: seq<real>): (r: seq<real>)
    ensures |r| == |s|
    ensures SortedAsc(r)
    ensures multiset(r) == multiset(s)
  {
    if s == [] then []
    else
      assert s == [s[0]] + s[1..];
      Insert(s[0], Sort(s[1..]))
  }

  /** The median of a non-empty sample: the middle value, or the mean of the two middle values. */
  function Median(s: seq<real>): real
    requires |s| > 0
  {
    var t := Sort(s);
    var n := |t|;
    if n % 2 == 1 then t[n / 2] else (t[n / 2 - 1] + t[n / 2]) / 2.0
  }

  /** What `compute_img_quality` returns for these keys. */
  function Quality(keys: seq<string>, score: Scorer): real
  {
    var scores := Collected(keys, score);
    if scores == [] then NoData else Median(scores)
  }

  /** The per-key loop of `compute_img_quality`, followed by the aggregation. */
  method ComputeImgQuality(keys: seq<string>, score: Scorer) returns (quality: real, failed: seq<string>)
    ensures quality == Quality(keys, score)
    ensures failed == FailedKeys(keys, score)
  {
    var brisqueScores: seq<real> := [];
    failed := [];
    for i := 0 to |keys|
      invariant brisqueScores == Collected(keys[..i], score)
      invariant failed == FailedKeys(keys[..i], score)
    {
      assert keys[..i + 1][..i] == keys[..i];
      match score(keys[i]) {
        case Some(v) =>
          brisqueScores := brisqueScores + [v];
        case None =>
          failed := failed + [keys[i]];
      }
    }
    assert keys[..|keys|] == keys;
    if brisqueScores == [] {
      quality := NoData;
    } else {
      quality := Median(brisqueScores);
    }
  }

  /**
   * `compute_img_quality` as a whole: `None` when listing the keys raises, otherwise
   * the aggregate over the keys of the newest folder and the keys that failed.
   */
  method ComputeFolderQuality(bucket: seq<LatestFolder.StoredObject>, prefix: string, score: Scorer)
    returns (result: Option<(real, seq<string>)>)
    ensures LatestFolder.ImageKeys(bucket, prefix).None? ==> result.None?
    ensures LatestFolder.ImageKeys(bucket, prefix).Some? ==>
            var keys := LatestFolder.ImageKeys(bucket, prefix).value;
            result == Some((Quality(keys, score), FailedKeys(keys, score)))
  {
    var imgFiles := LatestFolder.ImageKeys(bucket, prefix);
    if imgFiles.None? {
      return None;
    }
    var quality, failed := ComputeImgQuality(imgFiles.value, score);
    result := Some((quality, failed));
  }

  // ---------------------------------------------------------------------------
  // Properties
  // ---------------------------------------------------------------------------

  /** Every key is either scored or logged as failed, never both and never neither. */
  lemma {:induction false} EveryKeyAccountedFor(keys: seq<string>, score: Scorer)
    ensures |Collected(keys, score)| + |FailedKeys(keys, score)| == |keys|
    ensures |Collected(keys, score)| <= |keys|
  {
    if keys != [] {
      EveryKeyAccountedFor(keys[..|keys| - 1], score);
    }
  }

  /** The keys logged as failed are exactly the listed keys whose scoring fails. */
  lemma {:induction false} FailedKeysMembership(keys: seq<string>, score: Scorer, k: string)
    ensures k in FailedKeys(keys, score) <==> k in keys && score(k).None?
  {
    if keys != [] {
      var init := keys[..|keys| - 1];
      FailedKeysMembership(init, score, k);
      assert keys == init + [keys[|keys| - 1]];
    }
  }

  /** No score is collected exactly when every image fails. */
  lemma {:induction false} NothingCollectedIff(keys: seq<string>, score: Scorer)
    ensures Collected(keys, score) == [] <==> forall i :: 0 <= i < |keys| ==> score(keys[i]).None?
  {
    if keys != [] {
      var init := keys[..|keys| - 1];
      NothingCollectedIff(init, score);
      assert forall i :: 0 <= i < |init| ==> init[i] == keys[i];
    }
  }

  lemma CollectedLast(keys: seq<string>, score: Scorer, v: real)
    requires keys != []
    ensures v in Collected(keys, score) <==>
            v in Collected(keys[..|keys| - 1], score) || score(keys[|keys| - 1]) == Some(v)
  {
  }

  /** The collected scores are exactly the successful scores. */
  lemma {:induction false} CollectedMembership(keys: seq<string>, score: Scorer, v: real)
    ensures v in Collected(keys, score) <==> exists i :: 0 <= i < |keys| && score(keys[i]) == Some(v)
  {
    if keys != [] {
      var init := keys[..|keys| - 1];
      CollectedMembership(init, score, v);
      CollectedLast(keys, score, v);
      assert forall i :: 0 <= i < |init| ==> init[i] == keys[i];
      if exists i :: 0 <= i < |keys| && score(keys[i]) == Some(v) {
        var i :| 0 <= i < |keys| && score(keys[i]) == Some(v);
        assert i < |init| ==> score(init[i]) == Some(v);
      }
    }
  }

  lemma SortedBounds(t: seq<real>, i: int)
    requires SortedAsc(t) && 0 <= i < |t|
    ensures t[0] <= t[i] <= t[|t| - 1]
  {
  }

  /** The median lies between the smallest and the largest value of the sample. */
  lemma MedianBetweenMinAndMax(s: seq<real>)
    requires |s| > 0
    ensures exists i :: 0 <= i < |s| && s[i] <= Median(s)
    ensures exists j :: 0 <= j < |s| && Median(s) <= s[j]
  {
    var t := Sort(s);
    var n := |t|;
    SortedBounds(t, n / 2);
    if n % 2 == 0 {
      SortedBounds(t, n / 2 - 1);
    }
    assert t[0] in multiset(s) && t[n - 1] in multiset(s);
    assert t[0] in s && t[n - 1] in s;
  }

  /** For an odd number of values, the median is one of them. */
  lemma MedianOfOddIsAValue(s: seq<real>)
    requires |s| % 2 == 1
    ensures Median(s) in s
  {
    var t := Sort(s);
    assert t[|t| / 2] in multiset(t);
  }

  lemma SortedSameHead(a: seq<real>, b: seq<real>)
    requires SortedAsc(a) && SortedAsc(b)
    requires multiset(a) == multiset(b)
    requires a != []
    ensures b != [] && a[0] == b[0]
  {
    assert a[0] in multiset(b);
    var i :| 0 <= i < |b| && b[i] == a[0];
    assert b[0] in multiset(a);
    var j :| 0 <= j < |a| && a[j] == b[0];
  }

  lemma TailMultiset(a: seq<real>)
    requires a != []
    ensures multiset(a[1..]) == multiset(a) - multiset{a[0]}
  {
    assert a == [a[0]] + a[1..];
  }

  /** Two sorted sequences with the same values are the same sequence. */
  lemma {:induction false} SortedPermutationsEqual(a: seq<real>, b: seq<real>)
    requires SortedAsc(a) && SortedAsc(b)
    requires multiset(a) == multiset(b)
    ensures a == b
    decreases |a|
  {
    if a != [] {
      SortedSameHead(a, b);
      TailMultiset(a);
      TailMultiset(b);
      SortedPermutationsEqual(a[1..], b[1..]);
      assert a == [a[0]] + a[1..] && b == [b[0]] + b[1..];
    } else {
      assert |b| == |multiset(b)| == 0;
    }
  }

  lemma SortIgnoresOrder(a: seq<real>, b: seq<real>)
    requires multiset(a) == multiset(b)
    ensures Sort(a) == Sort(b)
  {
    var ta, tb := Sort(a), Sort(b);
    assert multiset(ta) == multiset(tb);
    SortedPermutationsEqual(ta, tb);
  }

  /** The median does not depend on the order in which the images were scored. */
  lemma MedianIgnoresOrder(a: seq<real>, b: seq<real>)
    requires |a| > 0
    requires multiset(a) == multiset(b)
    ensures |b| > 0 && Median(a) == Median(b)
  {
    SortIgnoresOrder(a, b);
    assert |b| == |Sort(b)| == |Sort(a)| == |a|;
  }

  /** The scores collected from two batches of keys, one after the other. */
  lemma {:induction false} CollectedAppend(a: seq<string>, b: seq<string>, score: Scorer)
    ensures Collected(a + b, score) == Collected(a, score) + Collected(b, score)
    decreases |b|
  {
    if b == [] {
      assert a + b == a;
    } else {
      var init := b[..|b| - 1];
      CollectedAppend(a, init, score);
      assert (a + b)[..|a + b| - 1] == a + init;
      assert (a + b)[|a + b| - 1] == b[|b| - 1];
    }
  }

  lemma RemoveOneMultiset(init: seq<string>, before: seq<string>, after: seq<string>, x: string)
    requires multiset(init + [x]) == multiset(before + [x] + after)
    ensures multiset(init) == multiset(before + after)
  {
    var a, b := multiset(init), multiset(before + after);
    assert multiset(init + [x]) == a + multiset{x};
    assert multiset(before + [x] + after) == b + multiset{x};
    assert a == (a + multiset{x}) - multiset{x};
    assert b == (b + multiset{x}) - multiset{x};
  }

  /** Listing the same keys in another order collects the same scores in another order. */
  lemma {:induction false} CollectedPermutation(k1: seq<string>, k2: seq<string>, score: Scorer)
    requires multiset(k1) == multiset(k2)
    ensures multiset(Collected(k1, score)) == multiset(Collected(k2, score))
    decreases |k1|
  {
    if k1 == [] {
      assert |k2| == |multiset(k2)| == 0;
    } else {
      var x := k1[|k1| - 1];
      var init := k1[..|k1| - 1];
      assert k1 == init + [x];
      assert x in multiset(k2);
      var i :| 0 <= i < |k2| && k2[i] == x;
      var before, after := k2[..i], k2[i + 1..];
      assert k2 == before + [x] + after;
      RemoveOneMultiset(init, before, after, x);
      CollectedPermutation(init, before + after, score);
      CollectedAppend(init, [x], score);
      CollectedAppend(before, after, score);
      CollectedAppend(before, [x], score);
      CollectedAppend(before + [x], after, score);
    }
  }

  /** The result of `compute_img_quality` does not depend on the order in which the keys are listed. */
  lemma QualityIgnoresOrder(k1: seq<string>, k2: seq<string>, score: Scorer)
    requires multiset(k1) == multiset(k2)
    ensures Quality(k1, score) == Quality(k2, score)
  {
    var c1, c2 := Collected(k1, score), Collected(k2, score);
    CollectedPermutation(k1, k2, score);
    if c1 != [] {
      MedianIgnoresOrder(c1, c2);
    } else {
      assert |c2| == |multiset(c2)| == |multiset(c1)| == 0;
    }
  }

  /**
   * When at least one image is scored the result is the median of the scores and
   * lies between two of them; otherwise it is the sentinel -1.
   */
  lemma QualityBounds(keys: seq<string>, score: Scorer)
    ensures Collected(keys, score) == [] ==> Quality(keys, score) == NoData
    ensures Collected(keys, score) != [] ==>
            (exists i :: 0 <= i < |keys| && score(keys[i]).Some? && score(keys[i]).value <= Quality(keys, score)) &&
            (exists j :: 0 <= j < |keys| && score(keys[j]).Some? && Quality(keys, score) <= score(keys[j]).value)
  {
    var scores := Collected(keys, score);
    if scores != [] {
      var m := Median(scores);
      assert Quality(keys, score) == m;
      MedianBetweenMinAndMax(scores);
      var a :| 0 <= a < |scores| && scores[a] <= m;
      var b :| 0 <= b < |scores| && m <= scores[b];
      CollectedMembership(keys, score, scores[a]);
      var i :| 0 <= i < |keys| && score(keys[i]) == Some(scores[a]);
      CollectedMembership(keys, score, scores[b]);
      var j :| 0 <= j < |keys| && score(keys[j]) == Some(scores[b]);
      assert score(keys[i]).Some? && score(keys[i]).value <= m;
      assert score(keys[j]).Some? && m <= score(keys[j]).value;
    }
  }

  /**
   * The sentinel is unambiguous when every score is above -1: the result is -1 exactly
   * when no image was scored.
   */
  lemma SentinelIffNothingScored(keys: seq<string>, score: Scorer)
    requires forall i :: 0 <= i < |keys| && score(keys[i]).Some? ==> score(keys[i]).value > NoData
    ensures Quality(keys, score) == NoData <==> forall i :: 0 <= i < |keys| ==> score(keys[i]).None?
  {
    NothingCollectedIff(keys, score);
    QualityBounds(keys, score);
  }

  /** The median of two scores is their mean. */
  lemma MedianOfTwo(x: real, y: real)
    ensures Median([x, y]) == (x + y) / 2.0
  {
    assert [x, y][1..] == [y] && [y][1..] == [];
    assert Sort([y]) == [y];
    var t := Sort([x, y]);
    assert t == Insert(x, [y]);
  }

  /** Two images scored and one corrupt image in between: the median of the two, one failure logged. */
  lemma OneCorruptImage(first: string, corrupt: string, second: string, x: real, y: real, score: Scorer)
    requires score(first) == Some(x) && score(corrupt) == None && score(second) == Some(y)
    ensures Collected([first, corrupt, second], score) == [x, y]
    ensures Quality([first, corrupt, second], score) == (x + y) / 2.0
    ensures FailedKeys([first, corrupt, second], score) == [corrupt]
  {
    var keys := [first, corrupt, second];
    assert keys[..2] == [first, corrupt];
    assert keys[..2][..1] == [first];
    assert [first][..0] == [];
    assert Collected([first], score) == [x];
    assert Collected([first, corrupt], score) == [x];
    assert Collected(keys, score) == [x, y];
    assert FailedKeys([first], score) == [];
    assert FailedKeys([first, corrupt], score) == [corrupt];
    MedianOfTwo(x, y);
  }
}
