# Catalano machine learning: holdout validation and attributes

This project models three pieces of the machine-learning module of the
Catalano Framework, a Java library, and proves properties of them in Dafny.

- **Stratified holdout validation** (`HoldoutValidation`, in `holdout.dfy`).
  The training percentage `p` is clamped into `[0.1, 1]`. `Compute` first
  counts each class label in a map. It then gives each class a training quota
  of `(int)(count * p)` in an array indexed by label. It scans the indices in
  order: an index goes to the training side while its class still has quota,
  and to the validation side otherwise. It trains the injected classifier on
  the training rows and returns the fraction of validation rows it predicts
  correctly. Each phase is an imperative method: the counting loop over a
  `map`, the quota loop over an `array`, the partition loop writing two
  index arrays through `idxT`/`idxV`, and the counting of correct
  predictions. Each is proved against reference functions: `Count`,
  `Quota`, `InTraining`/`Part`/`TrainingIndices`/`ValidationIndices` and
  `Correct`. Lemmas then prove that the split is a stratified partition of
  `0 .. N-1`.
- **Nominal attributes** (`NominalAttribute`, in `nominal.dfy`). This is a
  vocabulary that maps strings to integer codes, kept as a list of values
  and a map from value to code. An open attribute appends unknown strings
  under the next code; a closed one rejects them. The class keeps the
  invariant that ties the list and the map together. `ValueOf` and
  `ToString` are proved to be inverse to each other.
- **Attribute identity** (`Attribute`, in `attributes.dfy`). This covers the
  constructors and their defaults, `equals` and `toString()` as pure
  functions over an immutable value.
  `equals` demands that *both* descriptions be non-null and equal. So an
  attribute without a description is not equal even to itself, and that is
  proved.

`basics.dfy` holds `Option`, `Result` and `Double`. `Double` is a Java
`double` seen as NaN, an infinity or a finite real.

Modelling decisions:
- Percentages, products and ratios are exact reals. `(int)(count * p)` is
  `Floor`; this is exact because both factors are non-negative.
- An exception becomes a `Failure`. There are three:
  - an unknown string on a closed attribute;
  - a non-integral or out-of-range code given to `toString`;
  - a label outside `[0, number of distinct labels)` in `Compute`. That
    label indexes `sizeClass` out of bounds at
    `HoldoutValidation.java:86`, so the call becomes `Failure(LabelOutOfRange)`.
- When the validation side is empty, the code computes `0 / 0.0` and
  returns NaN. The model does the same (`Accuracy`, `HoldoutBounds`).
- With six labels `[0,0,0,1,1,1]` and the default `p = 0.66`, each class
  gets `floor(3 * 0.66) = 1` training index, not 2. The lemma `SixLabels`
  fixes this case.
- A closed attribute built from values with duplicates maps each value to
  its *last* position. The table invariant is stated so that it holds even
  then. The code of each value equals its position only when the values are
  distinct, and `DuplicatesBreakDecodeEncode` shows the case where it does not.

## Model

| member | source | states |
|---|---|---|
| Attributes.Named | Catalano.MachineLearning/src/Catalano/MachineLearning/Attribute.java:78-80 | the two-argument constructor gives no description and weight 1.0 |
| Attributes.Weighted | Catalano.MachineLearning/src/Catalano/MachineLearning/Attribute.java:88-90 | the weighted constructor keeps the weight and gives no description |
| Attributes.Described | Catalano.MachineLearning/src/Catalano/MachineLearning/Attribute.java:98-100 | the described constructor keeps the description and gives weight 1.0 |
| Attributes.TypeName | Catalano.MachineLearning/src/Catalano/MachineLearning/Attribute.java:37-48 | each enum constant prints as a seven-letter name |
| Attributes.Equals | Catalano.MachineLearning/src/Catalano/MachineLearning/Attribute.java:132-148 | true exactly when the other object is an attribute with the same name and type and both descriptions are non-null and equal |
| Attributes.NotReflexiveWithoutDescription | Catalano.MachineLearning/src/Catalano/MachineLearning/Attribute.java:137-141 | an attribute with a null description is not equal to itself |
| Attributes.ReflexiveWithDescription | Catalano.MachineLearning/src/Catalano/MachineLearning/Attribute.java:136-138 | an attribute with a description is equal to itself |
| Attributes.EqualsSymmetric | Catalano.MachineLearning/src/Catalano/MachineLearning/Attribute.java:132-148 | equality is symmetric |
| Attributes.EqualsTransitive | Catalano.MachineLearning/src/Catalano/MachineLearning/Attribute.java:132-148 | equality is transitive |
| Attributes.EqualsIgnoresWeight | Catalano.MachineLearning/src/Catalano/MachineLearning/Attribute.java:132-148 | the weight has no effect on equality |
| Attributes.ToString | Catalano.MachineLearning/src/Catalano/MachineLearning/Attribute.java:160-168 | the string is the type name, then `[`, the name and `]`, and nothing else |
| Attributes.ToStringInjective | Catalano.MachineLearning/src/Catalano/MachineLearning/Attribute.java:160-168 | the type and the name can be read back from the printed form |
| Attributes.EqualsThenSameString | Catalano.MachineLearning/src/Catalano/MachineLearning/Attribute.java:132-168 | equal attributes print the same |
| Nominal.DistinctCodesArePositions | Catalano.MachineLearning/src/Catalano/MachineLearning/NominalAttribute.java:137-140 | in a consistent table of distinct values, each value's code is its position |
| Nominal.AppendKeepsConsistent | Catalano.MachineLearning/src/Catalano/MachineLearning/NominalAttribute.java:183-186 | appending an unknown string under the next code keeps the table consistent and free of duplicates |
| Nominal.DuplicatesBreakDecodeEncode | Catalano.MachineLearning/src/Catalano/MachineLearning/NominalAttribute.java:137-140 | with a repeated value the table is still consistent, but the first occurrence's position is not its code |
| Nominal.NominalAttribute.constructor | Catalano.MachineLearning/src/Catalano/MachineLearning/NominalAttribute.java:61-63 | open, with no values and no codes, no description and weight 1.0 |
| Nominal.NominalAttribute.WithWeight | Catalano.MachineLearning/src/Catalano/MachineLearning/NominalAttribute.java:70-72 | open and empty, with the given weight and no description |
| Nominal.NominalAttribute.WithDescription | Catalano.MachineLearning/src/Catalano/MachineLearning/NominalAttribute.java:79-81 | open and empty, with the given description and weight 1.0 |
| Nominal.NominalAttribute.Full | Catalano.MachineLearning/src/Catalano/MachineLearning/NominalAttribute.java:89-94 | open and empty, with a nominal attribute of the given name, description and weight |
| Nominal.NominalAttribute.Closed | Catalano.MachineLearning/src/Catalano/MachineLearning/NominalAttribute.java:101-103 | closed, holding exactly the given values with each code at the value's last position, each position its own code when the values are distinct |
| Nominal.NominalAttribute.ClosedWithWeight | Catalano.MachineLearning/src/Catalano/MachineLearning/NominalAttribute.java:111-113 | as `Closed`, with the given weight |
| Nominal.NominalAttribute.ClosedWithDescription | Catalano.MachineLearning/src/Catalano/MachineLearning/NominalAttribute.java:121-123 | as `Closed`, with the given description |
| Nominal.NominalAttribute.ClosedFull | Catalano.MachineLearning/src/Catalano/MachineLearning/NominalAttribute.java:132-141 | closed and consistent, `values` equal to the input, the code of each value its last position |
| Nominal.NominalAttribute.AddAll | Catalano.MachineLearning/src/Catalano/MachineLearning/NominalAttribute.java:137-140 | the constructor loop lists the values in order and leaves a consistent table in which later duplicates override earlier codes |
| Nominal.NominalAttribute.SetOpen | Catalano.MachineLearning/src/Catalano/MachineLearning/NominalAttribute.java:165-167 | the open flag becomes the argument |
| Nominal.NominalAttribute.Values | Catalano.MachineLearning/src/Catalano/MachineLearning/NominalAttribute.java:172-174 | as many values as `size()`, and value `i` is what code `i` decodes to |
| Nominal.NominalAttribute.ValueOf | Catalano.MachineLearning/src/Catalano/MachineLearning/NominalAttribute.java:180-193 | a known string's code with the state unchanged; on an open attribute, an unknown string appended under the old size; on a closed one, an error with the state unchanged; the table stays consistent and a successful code decodes back to the string |
| Nominal.NominalAttribute.ToString | Catalano.MachineLearning/src/Catalano/MachineLearning/NominalAttribute.java:196-210 | null exactly for NaN; a value exactly for an integral code in `[0, size())`, namely the value at that position; a fractional code is not an integer; any other code is invalid |
| Nominal.EncodeDecode | Catalano.MachineLearning/src/Catalano/MachineLearning/NominalAttribute.java:180-210 | the code of a known string decodes to that string |
| Nominal.DecodeEncode | Catalano.MachineLearning/src/Catalano/MachineLearning/NominalAttribute.java:180-210 | with distinct values, the string a code decodes to has that code |
| Holdout.Clamp | Catalano.MachineLearning/src/Catalano/MachineLearning/Performance/HoldoutValidation.java:52 | the result lies in `[0.1, 1]`, equals the input inside that range and the nearer bound outside it |
| Holdout.HoldoutValidation.constructor | Catalano.MachineLearning/src/Catalano/MachineLearning/Performance/HoldoutValidation.java:37-58 | the percentage starts at 0.66 |
| Holdout.HoldoutValidation.WithPercentage | Catalano.MachineLearning/src/Catalano/MachineLearning/Performance/HoldoutValidation.java:64-66 | the percentage is the clamped argument |
| Holdout.HoldoutValidation.TrainPercentage | Catalano.MachineLearning/src/Catalano/MachineLearning/Performance/HoldoutValidation.java:43-45 | the returned percentage always lies in `[0.1, 1]` |
| Holdout.HoldoutValidation.SetTrainPercentage | Catalano.MachineLearning/src/Catalano/MachineLearning/Performance/HoldoutValidation.java:51-53 | the percentage becomes the clamped argument |
| Holdout.Count | Catalano.MachineLearning/src/Catalano/MachineLearning/Performance/HoldoutValidation.java:72-81 | a class occurs at most as often as there are labels |
| Holdout.CountPositiveIffOccurs | Catalano.MachineLearning/src/Catalano/MachineLearning/Performance/HoldoutValidation.java:74-79 | a class has a positive count exactly when it occurs, so it is a map key exactly then |
| Holdout.CountLabels | Catalano.MachineLearning/src/Catalano/MachineLearning/Performance/HoldoutValidation.java:72-81 | the map's keys are exactly the labels that occur, each mapped to its number of occurrences |
| Holdout.Quota | Catalano.MachineLearning/src/Catalano/MachineLearning/Performance/HoldoutValidation.java:86 | the quota is `floor(count * p)`, so it lies between 0 and the count |
| Holdout.ClassQuotas | Catalano.MachineLearning/src/Catalano/MachineLearning/Performance/HoldoutValidation.java:84-87 | a fresh array with one slot per distinct label; it succeeds exactly when every key is a valid slot, and then slot `c` holds the quota of `c` |
| Holdout.LabelsInRangeIffDense | Catalano.MachineLearning/src/Catalano/MachineLearning/Performance/HoldoutValidation.java:84-86 | every label indexes the quota array exactly when the labels that occur are `0 .. C-1` |
| Holdout.Partition | Catalano.MachineLearning/src/Catalano/MachineLearning/Performance/HoldoutValidation.java:95-108 | with in-range labels and exact quotas, both index arrays are filled exactly (`idxT == size`, `idxV == N - size`) with no write out of bounds, and they equal the reference training and validation indices |
| Holdout.Split | Catalano.MachineLearning/src/Catalano/MachineLearning/Performance/HoldoutValidation.java:72-108 | the counting, quota, size and partition phases give the reference split exactly when every label is in range, and the index error otherwise |
| Holdout.PartitionSizes | Catalano.MachineLearning/src/Catalano/MachineLearning/Performance/HoldoutValidation.java:90-96 | the training side is as long as the sum of the quotas and the validation side holds the remaining `N - size` indices |
| Holdout.PartitionComplete | Catalano.MachineLearning/src/Catalano/MachineLearning/Performance/HoldoutValidation.java:100-108 | the two sides are disjoint and strictly increasing, and together hold every index `0 .. N-1` exactly once |
| Holdout.TrainingPerClass | Catalano.MachineLearning/src/Catalano/MachineLearning/Performance/HoldoutValidation.java:100-108 | each class gets exactly its quota of training indices |
| Holdout.TrainingIsFirstOccurrences | Catalano.MachineLearning/src/Catalano/MachineLearning/Performance/HoldoutValidation.java:100-108 | an index is trained on exactly when fewer than its class's quota of earlier indices share its label, and validated otherwise |
| Holdout.ZeroQuotaClassIsValidated | Catalano.MachineLearning/src/Catalano/MachineLearning/Performance/HoldoutValidation.java:101-107 | a class whose quota rounds down to zero goes entirely to validation |
| Holdout.FullPercentageLeavesNoValidation | Catalano.MachineLearning/src/Catalano/MachineLearning/Performance/HoldoutValidation.java:86-108 | with `p = 1` every index is trained on and the validation side is empty |
| Holdout.SixLabelsAssignment | Catalano.MachineLearning/src/Catalano/MachineLearning/Performance/HoldoutValidation.java:86-107 | for `[0,0,0,1,1,1]` at 0.66 both quotas are 1 and only indices 0 and 3 are trained on |
| Holdout.SixLabels | Catalano.MachineLearning/src/Catalano/MachineLearning/Performance/HoldoutValidation.java:98-108 | for `[0,0,0,1,1,1]` at 0.66 the sides are `[0, 3]` and `[1, 2, 4, 5]` |
| Holdout.Gather | Catalano.MachineLearning/src/Catalano/MachineLearning/Performance/HoldoutValidation.java:111-112 | the selected rows, one per index and in index order |
| Holdout.Correct | Catalano.MachineLearning/src/Catalano/MachineLearning/Performance/HoldoutValidation.java:118-122 | no more correct predictions than validation indices |
| Holdout.CountCorrect | Catalano.MachineLearning/src/Catalano/MachineLearning/Performance/HoldoutValidation.java:118-122 | the loop counts the validation indices whose prediction equals the label |
| Holdout.Accuracy | Catalano.MachineLearning/src/Catalano/MachineLearning/Performance/HoldoutValidation.java:124 | NaN exactly when there are no validation indices; otherwise the ratio of correct predictions, which lies in `[0, 1]` |
| Holdout.HoldoutBounds | Catalano.MachineLearning/src/Catalano/MachineLearning/Performance/HoldoutValidation.java:69-125 | a run fails exactly when a label is out of range, gives NaN exactly when the validation side is empty, and otherwise gives an accuracy in `[0, 1]` |
| Holdout.HoldoutValidation.Compute | Catalano.MachineLearning/src/Catalano/MachineLearning/Performance/HoldoutValidation.java:69-125 | the accuracy of the classifier, trained on the training rows, over the validation rows of the reference split, or the error for out-of-range labels |

## Left out

- Floating point: `p` is a `float` and the accuracy a `double` in the source.
  The model computes exactly over reals. So `0.66f` is taken as `0.66`, and
  the rounding of `count * p` before truncation is not modelled.
- A NaN percentage: `Math.max`/`Math.min` would keep NaN. The model's
  percentage is a real, so this case does not arise.
- `Attribute.hashCode` is not modelled: it depends on Java's string and enum
  hash codes and on `int` overflow.
- `ParseException` is declared on `valueOf` but never thrown, so it is not
  modelled.
- The classifier's internals (`setInput`, `setOutput`, `Predict`) are not
  modelled. The classifier is a function parameter that receives the
  training rows and labels together with the sample to predict.
- `Matrix.getRows` is a library helper not part of this model. It is
  modelled as the order-preserving selection `Gather`.
- Holdout.HoldoutValidation.Compute: requires `data` and `labels` to have the
  same length. The source does not check this. Its counting loop runs over
  `labels` and its partition loop over `data`, so with different lengths the
  arrays are sized for one and filled from the other.
- Holdout.ClassQuotas: the source visits the map entries in `HashMap` order.
  The model picks the entries in an arbitrary order, and when several keys
  are out of range it stops at whichever it picks first.
- 32-bit `int` overflow of counts, quotas and `size` is not modelled; it
  would take more than 2^31 labels.
- Null references are not modelled: a null attribute name, a null string
  among the values, or a null `labels` array. A null description is `None`.
- Nominal.NominalAttribute.Size and Nominal.NominalAttribute.IsOpen are
  modelled as plain getters, with no contract of their own. `SetOpen` and
  `Values` are stated in terms of them.
- `values()` copies the list into a new array; the model returns the
  sequence itself.
- A `NominalAttribute`'s equality and printing are the attribute's own, and
  the model does not restate them. The class holds its `Attribute` value,
  and `Attributes.Equals` and `Attributes.ToString` apply to it.
- `Kernel.java`, an image-processing class, is not part of this model.
