/** Stratified holdout validation: split a labelled data set into a training
    part and a validation part class by class, train a classifier on the
    first and report the fraction of the second it predicts correctly. */
module Holdout {
  import opened Basics

  /** One feature vector. */
  type Sample = seq<real>

  /** The injected classifier, after its input and output were set to the
      given training samples and labels, asked to predict one sample. */
  type Classifier = (seq<Sample>, seq<int>, Sample) -> int

  /** A label outside `[0, number of distinct labels)`: the per-class
      array is indexed by label, so the source fails with an index error. */
  datatype HoldoutError = LabelOutOfRange

  const DefaultPercentage: real := 0.66
  const MinPercentage: real := 0.1
  const MaxPercentage: real := 1.0

  predicate ValidPercentage(p: real) {
    MinPercentage <= p <= MaxPercentage
  }

  /** `max(0.1, min(1, percentage))`. */
  function Clamp(percentage: real): (p: real)
    ensures ValidPercentage(p)
    ensures ValidPercentage(percentage) ==> p == percentage
    ensures percentage < MinPercentage ==> p == MinPercentage
    ensures percentage > MaxPercentage ==> p == MaxPercentage
  {
    var upper := if MaxPercentage <= percentage then MaxPercentage else percentage;
    if upper <= MinPercentage then MinPercentage else upper
  }

  // ---------------------------------------------------------------------
  // Counting

  /** The number of occurrences of class `c` in `labels`. */
  function Count(labels: seq<int>, c: int): (n: nat)
    ensures n <= |labels|
  {
    if labels == [] then 0
    else Count(labels[..|labels| - 1], c) + (if labels[|labels| - 1] == c then 1 else 0)
  }

  /** The labels that occur. */
  function Classes(labels: seq<int>): set<int> {
    set c | c in labels
  }

  /** Every label is a valid index into an array with one slot per distinct
      label, which holds exactly when the labels are `0 .. C-1` without gaps. */
  predicate LabelsInRange(labels: seq<int>) {
    forall i :: 0 <= i < |labels| ==> 0 <= labels[i] < |Classes(labels)|
  }

  /** Growing a prefix by one position adds that position's label to the counts. */
  lemma CountStep(labels: seq<int>, i: nat)
    requires i < |labels|
    ensures forall c :: Count(labels[..i + 1], c) == Count(labels[..i], c) + (if labels[i] == c then 1 else 0)
    ensures Classes(labels[..i + 1]) == Classes(labels[..i]) + {labels[i]}
  {
    assert labels[..i + 1][..i] == labels[..i];
    assert labels[..i + 1] == labels[..i] + [labels[i]];
  }

  lemma CountStepAt(labels: seq<int>, i: nat, c: int)
    requires i < |labels|
    ensures Count(labels[..i + 1], c) == Count(labels[..i], c) + if labels[i] == c then 1 else 0
  {
    assert labels[..i + 1][..i] == labels[..i];
  }

  lemma CountAppend(s: seq<int>, x: int, c: int)
    ensures Count(s + [x], c) == Count(s, c) + if x == c then 1 else 0
  {
    assert (s + [x])[..|s|] == s;
  }

  /** A class is counted exactly when it occurs. */
  lemma {:induction false} CountPositiveIffOccurs(labels: seq<int>, c: int)
    ensures Count(labels, c) > 0 <==> c in labels
  {
    if labels != [] {
      var init := labels[..|labels| - 1];
      CountPositiveIffOccurs(init, c);
      assert labels == init + [labels[|labels| - 1]];
    }
  }

  /** Counts over a longer prefix are never smaller. */
  lemma {:induction false} CountPrefixMonotone(labels: seq<int>, j: nat, k: nat, c: int)
    requires j <= k <= |labels|
    ensures Count(labels[..j], c) <= Count(labels[..k], c)
  {
    if j < k {
      CountPrefixMonotone(labels, j, k - 1, c);
      CountStep(labels, k - 1);
    }
  }

  // ---------------------------------------------------------------------
  // Quotas

  /** `(int)(count * p)`: the training quota of a class with `count` members. */
  function Quota(count: nat, p: real): (q: nat)
    requires ValidPercentage(p)
    ensures q <= count
    ensures q as real <= count as real * p < q as real + 1.0
  {
    var x := count as real * p;
    assert 0.0 <= x <= count as real by {
      assert count as real * (MaxPercentage - p) >= 0.0;
    }
    assert x.Floor as real <= x;
    x.Floor
  }

  /** The sum of the quotas of classes `0 .. n-1`. */
  function SumQuotas(labels: seq<int>, p: real, n: nat): nat
    requires ValidPercentage(p)
  {
    if n == 0 then 0 else SumQuotas(labels, p, n - 1) + Quota(Count(labels, n - 1), p)
  }

  // ---------------------------------------------------------------------
  // The partition, as a reference definition

  /** Index `i` goes to training exactly when fewer than its class's quota of
      earlier indices carry its label: the first `quota(c)` occurrences of
      each class `c` are trained on. */
  predicate InTraining(labels: seq<int>, p: real, i: nat)
    requires i < |labels| && ValidPercentage(p)
  {
    Count(labels[..i], labels[i]) < Quota(Count(labels, labels[i]), p)
  }

  /** The indices below `k` on the training side (`toTraining`) or the
      validation side, in increasing order. */
  function Part(labels: seq<int>, p: real, k: nat, toTraining: bool): (r: seq<nat>)
    requires k <= |labels| && ValidPercentage(p)
    ensures forall j :: 0 <= j < |r| ==> r[j] < k
  {
    if k == 0 then []
    else Part(labels, p, k - 1, toTraining) + (if InTraining(labels, p, k - 1) == toTraining then [k - 1] else [])
  }

  function TrainingIndices(labels: seq<int>, p: real): seq<nat>
    requires ValidPercentage(p)
  {
    Part(labels, p, |labels|, true)
  }

  function ValidationIndices(labels: seq<int>, p: real): seq<nat>
    requires ValidPercentage(p)
  {
    Part(labels, p, |labels|, false)
  }

  /** The quota class `c` has left after the first `i` indices were assigned. */
  function Remaining(labels: seq<int>, p: real, i: nat, c: int): nat
    requires i <= |labels| && ValidPercentage(p)
  {
    var q, m := Quota(Count(labels, c), p), Count(labels[..i], c);
    if m < q then q - m else 0
  }

  /** Index `i` is trained on exactly when its class has quota left, and
      assigning it uses up one unit of that quota and nothing else. */
  lemma RemainingStep(labels: seq<int>, p: real, i: nat)
    requires i < |labels| && ValidPercentage(p)
    ensures InTraining(labels, p, i) <==> Remaining(labels, p, i, labels[i]) > 0
    ensures forall c :: Remaining(labels, p, i + 1, c) ==
              Remaining(labels, p, i, c) - if c == labels[i] && InTraining(labels, p, i) then 1 else 0
  {
    CountStep(labels, i);
  }

  /** `Matrix.getRows`: the rows at the given indices, in the given order. */
  function Gather<T>(s: seq<T>, idx: seq<nat>): (r: seq<T>)
    requires forall j :: 0 <= j < |idx| ==> idx[j] < |s|
    ensures |r| == |idx| && forall j :: 0 <= j < |idx| ==> r[j] == s[idx[j]]
  {
    seq(|idx|, j requires 0 <= j < |idx| => s[idx[j]])
  }

  /** A side holds exactly the indices below `k` whose assignment is that side. */
  lemma {:induction false} PartMembers(labels: seq<int>, p: real, k: nat, toTraining: bool)
    requires k <= |labels| && ValidPercentage(p)
    ensures forall i :: i in Part(labels, p, k, toTraining) <==> 0 <= i < k && InTraining(labels, p, i) == toTraining
  {
    if k > 0 {
      PartMembers(labels, p, k - 1, toTraining);
    }
  }

  /** Each side is strictly increasing, so no index appears twice. */
  lemma {:induction false} PartIncreasing(labels: seq<int>, p: real, k: nat, toTraining: bool)
    requires k <= |labels| && ValidPercentage(p)
    ensures forall a, b :: 0 <= a < b < |Part(labels, p, k, toTraining)| ==>
              Part(labels, p, k, toTraining)[a] < Part(labels, p, k, toTraining)[b]
  {
    if k > 0 {
      PartIncreasing(labels, p, k - 1, toTraining);
    }
  }

  /** Together the two sides hold `k` indices. */
  lemma {:induction false} PartLengths(labels: seq<int>, p: real, k: nat)
    requires k <= |labels| && ValidPercentage(p)
    ensures |Part(labels, p, k, true)| + |Part(labels, p, k, false)| == k
  {
    if k > 0 {
      PartLengths(labels, p, k - 1);
    }
  }

  /** A side over fewer indices is a prefix of a side over more. */
  lemma {:induction false} PartPrefix(labels: seq<int>, p: real, j: nat, k: nat, toTraining: bool)
    requires j <= k <= |labels| && ValidPercentage(p)
    ensures Part(labels, p, j, toTraining) <= Part(labels, p, k, toTraining)
  {
    if j < k {
      PartPrefix(labels, p, j, k - 1, toTraining);
    }
  }

  /** Assigning index `i` extends exactly one side by `i`, and neither side
      outgrows the side over all indices. */
  lemma PartStep(labels: seq<int>, p: real, i: nat)
    requires i < |labels| && ValidPercentage(p)
    ensures InTraining(labels, p, i) ==>
              Part(labels, p, i + 1, true) == Part(labels, p, i, true) + [i]
              && Part(labels, p, i + 1, false) == Part(labels, p, i, false)
    ensures !InTraining(labels, p, i) ==>
              Part(labels, p, i + 1, true) == Part(labels, p, i, true)
              && Part(labels, p, i + 1, false) == Part(labels, p, i, false) + [i]
    ensures |Part(labels, p, i + 1, true)| <= |Part(labels, p, |labels|, true)|
    ensures |Part(labels, p, i + 1, false)| <= |Part(labels, p, |labels|, false)|
  {
    PartPrefix(labels, p, i + 1, |labels|, true);
    PartPrefix(labels, p, i + 1, |labels|, false);
  }

  /** Among the first `k` indices, class `c` has as many training indices as
      its quota allows, but no more than it has occurrences there. */
  lemma {:induction false} TrainingPerClassUpTo(labels: seq<int>, p: real, k: nat, c: int)
    requires k <= |labels| && ValidPercentage(p)
    ensures var q, n := Quota(Count(labels, c), p), Count(labels[..k], c);
            Count(Gather(labels, Part(labels, p, k, true)), c) == if n < q then n else q
  {
    if k == 0 {
      assert Gather(labels, Part(labels, p, 0, true)) == [];
    } else {
      var i := k - 1;
      TrainingPerClassUpTo(labels, p, i, c);
      CountStepAt(labels, i, c);
      if InTraining(labels, p, i) {
        var before := Part(labels, p, i, true);
        assert Part(labels, p, k, true) == before + [i];
        GatherAppend(labels, before, i);
        CountAppend(Gather(labels, before), labels[i], c);
      } else {
        assert Part(labels, p, k, true) == Part(labels, p, i, true);
      }
    }
  }

  lemma GatherAppend<T>(s: seq<T>, idx: seq<nat>, i: nat)
    requires i < |s| && forall j :: 0 <= j < |idx| ==> idx[j] < |s|
    ensures Gather(s, idx + [i]) == Gather(s, idx) + [s[i]]
  {
  }

  /** Stratification: each class gets exactly its quota of training indices. */
  lemma TrainingPerClass(labels: seq<int>, p: real, c: int)
    requires ValidPercentage(p)
    ensures Count(Gather(labels, TrainingIndices(labels, p)), c) == Quota(Count(labels, c), p)
  {
    TrainingPerClassUpTo(labels, p, |labels|, c);
    assert labels[..|labels|] == labels;
  }

  /** The counts of classes `0 .. n-1` in `s`. */
  function SumCounts(s: seq<int>, n: nat): nat {
    if n == 0 then 0 else SumCounts(s, n - 1) + Count(s, n - 1)
  }

  lemma {:induction false} SumCountsAppend(s: seq<int>, x: int, n: nat)
    ensures SumCounts(s + [x], n) == SumCounts(s, n) + (if 0 <= x < n then 1 else 0)
  {
    if n > 0 {
      SumCountsAppend(s, x, n - 1);
      CountAppend(s, x, n - 1);
    }
  }

  lemma {:induction false} SumCountsOfEmpty(n: nat)
    ensures SumCounts([], n) == 0
  {
    if n > 0 {
      SumCountsOfEmpty(n - 1);
    }
  }

  /** When every label is below `n`, the counts of classes `0 .. n-1` add up
      to the length. */
  lemma {:induction false} SumCountsIsLength(s: seq<int>, n: nat)
    requires forall i :: 0 <= i < |s| ==> 0 <= s[i] < n
    ensures SumCounts(s, n) == |s|
  {
    if s != [] {
      var init := s[..|s| - 1];
      var last := s[|s| - 1];
      assert init + [last] == s;
      assert 0 <= last < n;
      SumCountsIsLength(init, n);
      SumCountsAppend(init, last, n);
    } else {
      SumCountsOfEmpty(n);
    }
  }

  lemma {:induction false} SumCountsOfTraining(labels: seq<int>, p: real, n: nat)
    requires ValidPercentage(p)
    ensures SumCounts(Gather(labels, TrainingIndices(labels, p)), n) == SumQuotas(labels, p, n)
  {
    if n > 0 {
      SumCountsOfTraining(labels, p, n - 1);
      TrainingPerClass(labels, p, n - 1);
    }
  }

  /** The training side's length is the sum of the quotas and the validation
      side holds the rest. */
  lemma PartitionSizes(labels: seq<int>, p: real)
    requires ValidPercentage(p) && LabelsInRange(labels)
    ensures |TrainingIndices(labels, p)| == SumQuotas(labels, p, |Classes(labels)|)
    ensures |ValidationIndices(labels, p)| == |labels| - SumQuotas(labels, p, |Classes(labels)|)
  {
    var training := Gather(labels, TrainingIndices(labels, p));
    SumCountsIsLength(training, |Classes(labels)|);
    SumCountsOfTraining(labels, p, |Classes(labels)|);
    PartLengths(labels, p, |labels|);
  }

  /** The two sides are disjoint, strictly increasing, and together hold
      every index `0 .. N-1` once. */
  lemma PartitionComplete(labels: seq<int>, p: real)
    requires ValidPercentage(p)
    ensures var training, validation := TrainingIndices(labels, p), ValidationIndices(labels, p);
            && (forall i :: 0 <= i < |labels| <==> i in training || i in validation)
            && (forall i :: !(i in training && i in validation))
            && (forall a, b :: 0 <= a < b < |training| ==> training[a] < training[b])
            && (forall a, b :: 0 <= a < b < |validation| ==> validation[a] < validation[b])
            && |training| + |validation| == |labels|
  {
    PartMembers(labels, p, |labels|, true);
    PartMembers(labels, p, |labels|, false);
    PartIncreasing(labels, p, |labels|, true);
    PartIncreasing(labels, p, |labels|, false);
    PartLengths(labels, p, |labels|);
  }

  /** For each class, the training indices are exactly its first
      `quota(c)` occurrences; later occurrences are validated. */
  lemma TrainingIsFirstOccurrences(labels: seq<int>, p: real, i: nat)
    requires ValidPercentage(p) && i < |labels|
    ensures i in TrainingIndices(labels, p) <==>
              Count(labels[..i], labels[i]) < Quota(Count(labels, labels[i]), p)
    ensures i in ValidationIndices(labels, p) <==>
              Count(labels[..i], labels[i]) >= Quota(Count(labels, labels[i]), p)
  {
    PartMembers(labels, p, |labels|, true);
    PartMembers(labels, p, |labels|, false);
  }

  /** A class whose quota rounds down to zero is validated entirely. */
  lemma ZeroQuotaClassIsValidated(labels: seq<int>, p: real, i: nat)
    requires ValidPercentage(p) && i < |labels|
    requires Quota(Count(labels, labels[i]), p) == 0
    ensures i in ValidationIndices(labels, p) && i !in TrainingIndices(labels, p)
  {
    TrainingIsFirstOccurrences(labels, p, i);
  }

  /** The codes `0 .. n-1`. */
  function Range(n: nat): (r: set<int>)
    ensures |r| == n
    ensures forall c :: c in r <==> 0 <= c < n
  {
    if n == 0 then {} else Range(n - 1) + {n - 1}
  }

  /** A subset as large as its superset is the whole superset. */
  lemma SubsetOfSameSize(a: set<int>, b: set<int>)
    requires a <= b && |a| == |b|
    ensures a == b
  {
    assert b == a + (b - a);
    assert |b - a| == 0;
    assert b - a == {};
    forall x | x in b ensures x in a {
      assert x !in b - a;
    }
  }

  /** Labels are in range exactly when they are dense: the classes that
      occur are `0 .. C-1` with `C` the number of distinct labels. */
  lemma LabelsInRangeIffDense(labels: seq<int>)
    ensures LabelsInRange(labels) <==> Classes(labels) == Range(|Classes(labels)|)
  {
    if LabelsInRange(labels) {
      forall c | c in Classes(labels) ensures c in Range(|Classes(labels)|) {
        var i :| 0 <= i < |labels| && labels[i] == c;
      }
      SubsetOfSameSize(Classes(labels), Range(|Classes(labels)|));
    }
    if Classes(labels) == Range(|Classes(labels)|) {
      forall i | 0 <= i < |labels| ensures 0 <= labels[i] < |Classes(labels)| {
        assert labels[i] in Classes(labels);
      }
    }
  }

  /** With `p = 1` every index is trained on and the validation side is empty. */
  lemma FullPercentageLeavesNoValidation(labels: seq<int>)
    ensures ValidationIndices(labels, MaxPercentage) == []
  {
    var p := MaxPercentage;
    forall i | 0 <= i < |labels|
      ensures InTraining(labels, p, i)
    {
      CountStep(labels, i);
      CountPrefixMonotone(labels, i + 1, |labels|, labels[i]);
      assert labels[..|labels|] == labels;
    }
    AllTrainedLeavesNoValidation(labels, p, |labels|);
  }

  lemma {:induction false} AllTrainedLeavesNoValidation(labels: seq<int>, p: real, k: nat)
    requires k <= |labels| && ValidPercentage(p)
    requires forall i :: 0 <= i < k ==> InTraining(labels, p, i)
    ensures Part(labels, p, k, false) == []
  {
    if k > 0 {
      AllTrainedLeavesNoValidation(labels, p, k - 1);
    }
  }

  // ---------------------------------------------------------------------
  // Accuracy

  /** The number of validation indices whose prediction equals the label. */
  function Correct(classifier: Classifier, data: seq<Sample>, labels: seq<int>,
                   train: seq<Sample>, labelsTrain: seq<int>, validation: seq<nat>): (n: nat)
    requires forall j :: 0 <= j < |validation| ==> validation[j] < |data| && validation[j] < |labels|
    ensures n <= |validation|
  {
    if validation == [] then 0
    else
      var last := validation[|validation| - 1];
      Correct(classifier, data, labels, train, labelsTrain, validation[..|validation| - 1])
        + (if classifier(train, labelsTrain, data[last]) == labels[last] then 1 else 0)
  }

  /** `pos / (double) len`: `0 / 0.0` is NaN in Java. */
  function Accuracy(correct: nat, total: nat): (r: Double)
    ensures r == NaN <==> total == 0
    ensures total > 0 ==> r == Finite(correct as real / total as real)
    ensures correct <= total && r.Finite? ==> 0.0 <= r.value <= 1.0
  {
    if total == 0 then NaN else Finite(correct as real / total as real)
  }

  /** The outcome of one holdout run with split ratio `p`. */
  function Holdout(classifier: Classifier, data: seq<Sample>, labels: seq<int>, p: real): Result<Double, HoldoutError>
    requires |data| == |labels| && ValidPercentage(p)
  {
    if !LabelsInRange(labels) then Failure(LabelOutOfRange)
    else
      var training, validation := TrainingIndices(labels, p), ValidationIndices(labels, p);
      var correct := Correct(classifier, data, labels, Gather(data, training), Gather(labels, training), validation);
      Success(Accuracy(correct, |validation|))
  }

  /** The accuracy is NaN exactly when the validation side is empty, and
      otherwise a fraction in `[0, 1]`. */
  lemma HoldoutBounds(classifier: Classifier, data: seq<Sample>, labels: seq<int>, p: real)
    requires |data| == |labels| && ValidPercentage(p)
    ensures Holdout(classifier, data, labels, p).Failure? <==> !LabelsInRange(labels)
    ensures Holdout(classifier, data, labels, p) == Success(NaN) <==>
              LabelsInRange(labels) && ValidationIndices(labels, p) == []
    ensures Holdout(classifier, data, labels, p).Success? && Holdout(classifier, data, labels, p).value.Finite? ==>
              0.0 <= Holdout(classifier, data, labels, p).value.value <= 1.0
  {
  }

  // ---------------------------------------------------------------------
  // The phases, as the source runs them

  /** The counting loop: a map from each label that occurs to its count. */
  method CountLabels(labels: seq<int>) returns (counts: map<int, nat>)
    ensures counts.Keys == Classes(labels)
    ensures forall c :: c in counts ==> counts[c] == Count(labels, c)
  {
    counts := map[];
    for i := 0 to |labels|
      invariant counts.Keys == Classes(labels[..i])
      invariant forall c :: c in counts ==> counts[c] == Count(labels[..i], c)
    {
      CountStep(labels, i);
      if labels[i] !in counts {
        CountPositiveIffOccurs(labels[..i], labels[i]);
        counts := counts[labels[i] := 1];
      } else {
        counts := counts[labels[i] := counts[labels[i]] + 1];
      }
    }
    assert labels[..|labels|] == labels;
  }

  lemma NoMemberMeansEmpty(s: set<int>)
    ensures (forall y :: y !in s) ==> s == {}
  {
    if forall y :: y !in s {
      var none: set<int> := {};
      assert forall y :: y in s <==> y in none;
    }
  }

  /** The quota loop over the map's entries: slot `c` of a fresh array gets
      the quota of class `c`; a key outside the array is an error. */
  method ClassQuotas(counts: map<int, nat>, p: real) returns (sizeClass: array<int>, inRange: bool)
    requires ValidPercentage(p)
    ensures fresh(sizeClass) && sizeClass.Length == |counts|
    ensures inRange <==> forall c :: c in counts ==> 0 <= c < |counts|
    ensures inRange ==> forall c :: 0 <= c < sizeClass.Length ==>
              sizeClass[c] == if c in counts then Quota(counts[c], p) else 0
  {
    sizeClass := new int[|counts|](_ => 0);
    var pending := counts.Keys;
    while pending != {}
      invariant pending <= counts.Keys
      invariant forall c :: c in counts && c !in pending ==> 0 <= c < |counts|
      invariant forall c :: 0 <= c < sizeClass.Length ==>
                  sizeClass[c] == if c in counts && c !in pending then Quota(counts[c], p) else 0
      decreases pending
    {
      NoMemberMeansEmpty(pending);
      var c :| c in pending;
      if !(0 <= c < sizeClass.Length) {
        inRange := false;
        return;
      }
      sizeClass[c] := Quota(counts[c], p);
      pending := pending - {c};
    }
    inRange := true;
  }

  /** The partition loop: each index goes to training while its class has
      quota left (decrementing it) and to validation otherwise. Both index
      arrays are filled exactly, with no write out of bounds. */
  method Partition(labels: seq<int>, p: real, sizeClass: array<int>, size: nat)
    returns (training: seq<nat>, validation: seq<nat>)
    requires ValidPercentage(p) && LabelsInRange(labels)
    requires sizeClass.Length == |Classes(labels)|
    requires forall c :: 0 <= c < sizeClass.Length ==> sizeClass[c] == Quota(Count(labels, c), p)
    requires size == SumQuotas(labels, p, sizeClass.Length)
    modifies sizeClass
    ensures |training| == size && |validation| == |labels| - size
    ensures training == TrainingIndices(labels, p) && validation == ValidationIndices(labels, p)
  {
    var n := |labels|;
    PartitionSizes(labels, p);
    var indexTraining := new nat[size];
    var indexValidation := new nat[n - size];
    var idxT, idxV := 0, 0;
    ghost var trained: seq<nat>, validated: seq<nat> := [], [];
    for i := 0 to n
      invariant trained == Part(labels, p, i, true) && validated == Part(labels, p, i, false)
      invariant idxT == |trained| <= size && idxV == |validated| <= n - size
      invariant indexTraining[..idxT] == trained
      invariant indexValidation[..idxV] == validated
      invariant forall c :: 0 <= c < sizeClass.Length ==> sizeClass[c] == Remaining(labels, p, i, c)
    {
      RemainingStep(labels, p, i);
      PartStep(labels, p, i);
      var c := labels[i];
      if sizeClass[c] > 0 {
        indexTraining[idxT] := i;
        idxT := idxT + 1;
        sizeClass[c] := sizeClass[c] - 1;
        trained := trained + [i];
      } else {
        indexValidation[idxV] := i;
        idxV := idxV + 1;
        validated := validated + [i];
      }
    }
    assert indexTraining[..] == indexTraining[..idxT];
    assert indexValidation[..] == indexValidation[..idxV];
    training, validation := indexTraining[..], indexValidation[..];
  }

  /** Counting, quotas and partition: the split the source computes, or the
      index error a label out of range causes. */
  method Split(labels: seq<int>, p: real) returns (r: Result<(seq<nat>, seq<nat>), HoldoutError>)
    requires ValidPercentage(p)
    ensures LabelsInRange(labels) ==> r == Success((TrainingIndices(labels, p), ValidationIndices(labels, p)))
    ensures !LabelsInRange(labels) ==> r == Failure(LabelOutOfRange)
  {
    var counts := CountLabels(labels);
    var sizeClass, inRange := ClassQuotas(counts, p);
    assert |counts| == |Classes(labels)|;
    if !inRange {
      var c :| c in counts && !(0 <= c < |counts|);
      var i :| 0 <= i < |labels| && labels[i] == c;
      return Failure(LabelOutOfRange);
    }
    assert LabelsInRange(labels) by {
      forall i | 0 <= i < |labels| ensures 0 <= labels[i] < |Classes(labels)| {
        assert labels[i] in counts;
      }
    }
    forall c | 0 <= c < sizeClass.Length && c !in counts
      ensures Count(labels, c) == 0
    {
      CountPositiveIffOccurs(labels, c);
    }
    var size := 0;
    for c := 0 to sizeClass.Length
      invariant size == SumQuotas(labels, p, c)
    {
      size := size + sizeClass[c];
    }
    var training, validation := Partition(labels, p, sizeClass, size);
    r := Success((training, validation));
  }

  /** The evaluation loop: the number of validation indices predicted right. */
  method CountCorrect(classifier: Classifier, data: seq<Sample>, labels: seq<int>,
                      train: seq<Sample>, labelsTrain: seq<int>, validation: seq<nat>) returns (pos: nat)
    requires forall j :: 0 <= j < |validation| ==> validation[j] < |data| && validation[j] < |labels|
    ensures pos == Correct(classifier, data, labels, train, labelsTrain, validation)
  {
    pos := 0;
    for i := 0 to |validation|
      invariant pos == Correct(classifier, data, labels, train, labelsTrain, validation[..i])
    {
      assert validation[..i + 1][..i] == validation[..i];
      var v := classifier(train, labelsTrain, data[validation[i]]);
      if v == labels[validation[i]] {
        pos := pos + 1;
      }
    }
    assert validation[..|validation|] == validation;
  }

  /** A worked case: three labels of each of two classes with the default
      percentage give each class a quota of `floor(3 * 0.66) = 1`, so only
      the first occurrence of each class is trained on. */
  lemma SixLabelsAssignment(labels: seq<int>)
    requires labels == [0, 0, 0, 1, 1, 1]
    ensures Quota(Count(labels, 0), DefaultPercentage) == 1 && Quota(Count(labels, 1), DefaultPercentage) == 1
    ensures forall i :: 0 <= i < 6 ==> (InTraining(labels, DefaultPercentage, i) <==> i == 0 || i == 3)
  {
    var p := DefaultPercentage;
    assert labels[..0] == [] && labels[..6] == labels;
    CountStepAt(labels, 0, 0); CountStepAt(labels, 1, 0); CountStepAt(labels, 2, 0);
    CountStepAt(labels, 3, 0); CountStepAt(labels, 4, 0); CountStepAt(labels, 5, 0);
    CountStepAt(labels, 0, 1); CountStepAt(labels, 1, 1); CountStepAt(labels, 2, 1);
    CountStepAt(labels, 3, 1); CountStepAt(labels, 4, 1); CountStepAt(labels, 5, 1);
    assert Quota(3, p) == 1;
  }

  lemma SixLabels(labels: seq<int>)
    requires labels == [0, 0, 0, 1, 1, 1]
    ensures TrainingIndices(labels, DefaultPercentage) == [0, 3]
    ensures ValidationIndices(labels, DefaultPercentage) == [1, 2, 4, 5]
  {
    var p := DefaultPercentage;
    SixLabelsAssignment(labels);
    assert Part(labels, p, 1, true) == [0];
    assert Part(labels, p, 3, true) == [0];
    assert Part(labels, p, 4, true) == [0, 3];
    assert Part(labels, p, 6, true) == [0, 3];
    assert Part(labels, p, 1, false) == [];
    assert Part(labels, p, 3, false) == [1, 2];
    assert Part(labels, p, 4, false) == [1, 2];
    assert Part(labels, p, 6, false) == [1, 2, 4, 5];
  }

  class HoldoutValidation {
    /** The training percentage. */
    var p: real

    ghost predicate Valid()
      reads this
    {
      ValidPercentage(p)
    }

    constructor ()
      ensures Valid() && p == DefaultPercentage
    {
      p := DefaultPercentage;
    }

    constructor WithPercentage(percentage: real)
      ensures Valid() && p == Clamp(percentage)
    {
      p := Clamp(percentage);
    }

    function TrainPercentage(): (r: real)
      reads this
      requires Valid()
      ensures ValidPercentage(r)
    {
      p
    }

    method SetTrainPercentage(percentage: real)
      modifies this
      ensures Valid() && p == Clamp(percentage)
    {
      p := Clamp(percentage);
    }

    /** Split with the current percentage, train on the training side and
      return the accuracy on the validation side. */
    method Compute(classifier: Classifier, data: seq<Sample>, labels: seq<int>) returns (r: Result<Double, HoldoutError>)
      requires Valid() && |data| == |labels|
      ensures r == Holdout(classifier, data, labels, p)
    {
      var split := Split(labels, p);
      if split.Failure? {
        return Failure(split.error);
      }
      var (training, validation) := split.value;
      var train := Gather(data, training);
      var labelsTrain := Gather(labels, training);
      var pos := CountCorrect(classifier, data, labels, train, labelsTrain, validation);
      r := Success(Accuracy(pos, |validation|));
    }
  }
}
