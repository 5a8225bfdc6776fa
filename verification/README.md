# Otsu thresholding, modelled in Dafny

This project models the core of `Otsu.java`, the global Otsu binarisation of a grey image. It covers five parts of that file:

- **Grey conversion** (`imageToMatrix`). Every packed ARGB pixel becomes `(r + g + b) / 3`.
- **Histogram pass** (`getOtsuMatrix`, first loop). It counts the pixels of each of the 256 grey levels.
- **Candidate loop.** For each threshold `t = 1 .. 255` it computes two bands with `getOtsuValues`:
  - `rangeA = Range(1, t)` and `rangeB = Range(t + 1, 256)`;
  - each band gets a weight, a mean and a variance;
  - the loop stores the within-class variance `A.weight * A.variance + B.weight * B.variance` and the threshold itself.
- **Threshold selection** (`getSelectedTreshold`). It takes the first minimum of the variance cache.
- **Binarisation loop.** Entries above the threshold become 255; all others become 0.

Modules, in dependency order:

- `Wrappers`: `Option`.
- `Vectors`: the array helpers `dot`, `multi`, `sub` and `doubleArray`, over `seq<real>`.
- `Histograms`: the histogram pass.
- `Selection`: `getSelectedTreshold`.
- `Bands`: `getOtsuValues`, `Arrays.copyOfRange` and a reference definition of a band.
- `Otsu`: the candidate loop, the threshold, the binarisation and the whole of `getOtsuMatrix`.
- `Grey`: `imageToMatrix`.

## Modelling choices

- **`double` becomes `real`.** Arithmetic is exact; rounding is not modelled.
- **Empty bands.** An empty band divides 0 by 0 in Java, and line 133 turns the NaN variance into 0. Here that is an explicit `weight == 0` branch with variance 0 and no mean.
- **Band boundaries are kept as the code has them.** `copyOfRange` has an exclusive limit, so `rangeA` holds levels `1 .. t - 1` and `rangeB` holds `t + 1 .. 255`. `dot` stops one pair short, so a band's last level is counted in its weight but not in its mean or variance. As a result:
  - level 0 never takes part in any band;
  - the candidate `t` is in neither of its own bands.
- **Differences from textbook Otsu, kept as the code has them.** The textbook method splits the levels `0 .. 255` into `[0, t]` and `[t + 1, 255]` and weighs each class by its fraction of the pixels. This code differs in four ways:
  - it scores the candidates `t = 1 .. 255`;
  - its bands are `Range(1, t)` and `Range(t + 1, 256)`, read through the exclusive limit of `copyOfRange`, so levels 0 and `t` lie in no band;
  - `dot` leaves each band's last level out of its mean and variance;
  - a band's weight is its raw pixel count.

  The proved consequences of these choices are these lemmas:
  - `Otsu.ThresholdIgnoresLevelZero`;
  - `Otsu.WithinClassVarianceIgnoresLevels`;
  - `Otsu.TwoLevelThreshold`: an image whose pixels in levels `1 .. 255` sit at exactly two levels `a` and `b`, with `1 <= a < b < 255`, gets the threshold `a` itself.
- **Java exceptions become `None`.** These cases return `None`:
  - a histogram entry outside `[0, 255]`;
  - a `copyOfRange` with a bad start;
  - an empty variance list or a threshold list that is too short.
- **`Range` and `OtsuValues`** are defined outside `Otsu.java`. Their fields are taken from their uses at lines 67-73 and 135.
- **In-place updates become new values.** Java writes the binary matrix over its input; the model returns it as a new value.
- **The image is a parameter.** It is given as the sequence of rows of packed `int` pixels that `getRGB` returns.

## Model

| member | source | states |
|---|---|---|
| `Vectors.Sum` | Otsu.java:126 | the weight `IntStream.sum` takes of a section; non-negative counts give a non-negative sum |
| `Vectors.DoubleArray` | Otsu.java:229-235 | same length, every entry converted to a real |
| `Vectors.Sub` | Otsu.java:216-222 | same length, the value subtracted from every entry |
| `Vectors.Multi` | Otsu.java:202-208 | same length, entrywise product |
| `Vectors.Dot` | Otsu.java:188-194 | the sum of the pairwise products of all pairs but the last; 0 for arrays of length at most 1 |
| `Vectors.DotLoop` | Otsu.java:190-193 | the loop adds the remaining pairs to the running sum |
| `Vectors.DotIgnoresLastPair` | Otsu.java:190 | changing the last pair never changes `dot` |
| `Histograms.Histogram` | Otsu.java:53-63 | the reference histogram: defined exactly when every entry is in [0, 255]; then 256 counts, count `v` the number of entries equal to `v` |
| `Histograms.CountRow` | Otsu.java:58-62 | one row's pass keeps every count equal to the number of entries of that level seen so far, and fails exactly when the row holds an entry outside [0, 255] |
| `Histograms.BuildHistogram` | Otsu.java:53-63 | succeeds exactly when every entry is in [0, 255]; then count `v` is the number of entries equal to `v` and the counts add up to the number of entries |
| `Histograms.HistogramSum` | Otsu.java:57-63 | the histogram of an in-range matrix has 256 non-negative counts that add up to the number of entries |
| `Histograms.HistogramSupport` | Otsu.java:59-61 | a level no entry holds has count 0, a level some entry holds a positive count |
| `Selection.Min` | Otsu.java:111 | `Collections.min`: an element of the list no larger than any element |
| `Selection.IndexOf` | Otsu.java:111 | `indexOf`: the first position holding the value, -1 exactly when it is absent |
| `Selection.FirstMinIndex` | Otsu.java:111 | the index is a minimum with every earlier entry strictly larger, and it is the only such index |
| `Selection.SelectedTreshold` | Otsu.java:102-113 | defined exactly when the variance list is non-empty and the threshold list reaches its first minimum, and then it is the threshold stored there |
| `Selection.MinIndexScan` | Otsu.java:103-110 | the strict scan finds a first minimum, the same index as line 111 |
| `Selection.GetSelectedTreshold` | Otsu.java:102-113 | the method returns the threshold at the first minimum of the variances |
| `Selection.FirstMinOrderInvariant` | Otsu.java:111 | variance lists that compare alike pick the same index |
| `Bands.CopyOfRange` | Otsu.java:124-125 | `Arrays.copyOfRange`: defined exactly when `0 <= from <= length` and `from <= to`; length `to - from`, the original's entries then zeros |
| `Bands.SectionStatistics` | Otsu.java:126-134 | weight is the sum of the section, weight and variance are non-negative, the mean is missing exactly when the weight is 0, and an empty band has variance 0 |
| `Bands.BandStatistics` | Otsu.java:123-136 | defined exactly when `0 <= start <= limit` and `start` lies within both arrays; the weight is the sum of the counts over `[start, limit)` |
| `Bands.SectionSum` | Otsu.java:124-126 | the weight of a copied section is the sum of the counts over the part of `[from, to)` inside the array |
| `Bands.SectionMoment` | Otsu.java:128 | `dot(counts, values)` of a section is the first moment of its levels without the last one |
| `Bands.SectionDeviation` | Otsu.java:129-131 | `dot((values - mean)^2, counts)` of a section is the spread about the mean of its levels without the last one |
| `Bands.SectionClosedForm` | Otsu.java:126-134 | for a section copied from the counts at `[lo, lo + n)` with positive weight: mean = first moment of levels `lo .. lo + n - 2` / weight, variance = their spread about that mean / weight |
| `Bands.SquaresDotNonnegative` | Otsu.java:129-131 | the dot of squared deviations with non-negative counts is never negative |
| `Bands.BandClosedForm` | Otsu.java:123-136 | for a non-empty band of the histogram: mean = moment of `[start, limit - 1)` / weight, variance = spread of `[start, limit - 1)` about it / weight |
| `Bands.BandMatchesReference` | Otsu.java:123-136 | `getOtsuValues` on a histogram equals the reference band computed from the counts alone |
| `Bands.BandCongruent` | Otsu.java:124 | a band reads only the counts inside its range |
| `Bands.ReferenceBandScale` | Otsu.java:126-131 | multiplying every count by a factor multiplies the weight by it and keeps the mean and the variance |
| `Bands.ReferenceBandSingleLevel` | Otsu.java:129-134 | a band with pixels at one level at most has variance 0 |
| `Bands.ReferenceBandTwoLevels` | Otsu.java:129-131 | a band with pixels at two levels, neither its last, has positive weight and positive variance |
| `Bands.DeviationSumAtLeast` | Otsu.java:129-131 | the spread is non-negative and at least any one level's share of it |
| `Otsu.LowerBand` | Otsu.java:67 | `rangeA` covers exactly the levels `1 .. t - 1` |
| `Otsu.UpperBand` | Otsu.java:68 | `rangeB` covers exactly the levels `t + 1 .. 255` |
| `Otsu.WithinClassVariance` | Otsu.java:70-73 | the score of a candidate is never negative |
| `Otsu.WeightedVariance` | Otsu.java:73 | `weight * variance` of a band is never negative |
| `Otsu.BandWeightedVariance` | Otsu.java:73 | weight times variance of a band is the band's spread about its own mean, 0 for an empty band |
| `Otsu.WithinClassVarianceIsSpread` | Otsu.java:65-73 | the score is the sum of the spreads of levels `1 .. t - 2` and `t + 1 .. 254` about their band means |
| `Otsu.Variances` | Otsu.java:65-75 | 255 entries, entry `k` the score of candidate `k + 1` |
| `Otsu.CandidateThresholds` | Otsu.java:66-76 | the threshold cache holds `1.0 .. 255.0` in order |
| `Otsu.OtsuThreshold` | Otsu.java:65-80 | a candidate in 1 .. 255 at the first minimum of the variance cache, which is what `getSelectedTreshold` returns |
| `Otsu.OtsuThresholdMinimises` | Otsu.java:65-80 | no candidate has a smaller score, and every smaller candidate has a strictly larger one |
| `Otsu.FillCaches` | Otsu.java:65-78 | the loop leaves both caches equal to their definitions, candidate by candidate |
| `Otsu.BinarizePixel` | Otsu.java:84-89 | the new value is 0 or 255, and 255 exactly when the pixel exceeds the threshold |
| `Otsu.Binarize` | Otsu.java:82-91 | same shape; every entry replaced by its binarised value |
| `Otsu.BinarizeMeaning` | Otsu.java:82-91 | with a whole-number threshold the result holds only 0 and 255, and 255 exactly above the threshold |
| `Otsu.BinarizeMatrix` | Otsu.java:82-91 | the nested loop computes the binarisation |
| `Otsu.BinarizeRowLoop` | Otsu.java:83-90 | the inner loop computes the binarisation of one row |
| `Otsu.OtsuMatrix` | Otsu.java:51-94 | defined exactly when every entry is in [0, 255]; same shape, only 0 and 255, 255 exactly above the selected threshold |
| `Otsu.GetOtsuMatrix` | Otsu.java:51-94 | the four loops together compute the binarised matrix |
| `Otsu.WithinClassVarianceIgnoresLevels` | Otsu.java:67-71 | the score of `t` reads neither count 0 nor count `t` |
| `Otsu.ThresholdIgnoresLevelZero` | Otsu.java:65-80 | histograms that differ only in level 0 select the same threshold |
| `Otsu.BandSpreadScale` | Otsu.java:126-131 | scaling the counts scales a band's spread by the same factor |
| `Otsu.BandScale` | Otsu.java:70-73 | scaling the counts scales a band's `weight * variance` term by the same factor |
| `Otsu.WithinClassVarianceScale` | Otsu.java:73 | scaling the counts scales every score by the same factor |
| `Otsu.ThresholdScaleInvariant` | Otsu.java:65-80 | repeating every pixel the same number of times keeps the threshold |
| `Otsu.ZeroVarianceBound` | Otsu.java:80 | a candidate with score 0 bounds the threshold from above |
| `Otsu.SingleLevelThreshold` | Otsu.java:65-80 | with pixels at one level of 1 .. 255 at most, the threshold is 1 |
| `Otsu.TwoLevelThreshold` | Otsu.java:65-80 | with the pixels of levels 1 .. 255 at exactly two levels `a` and `b`, `1 <= a < b < 255`, the threshold is `a` |
| `Otsu.BinarizeIdempotent` | Otsu.java:82-91 | a black and white matrix binarised with a threshold in [0, 255) is unchanged |
| `Otsu.BinaryThreshold` | Otsu.java:65-80 | a black and white matrix gets the threshold 1 |
| `Otsu.OtsuMatrixIdempotent` | Otsu.java:51-94 | running `getOtsuMatrix` on its own output changes nothing |
| `Otsu.UniformMatrix` | Otsu.java:51-94 | a matrix of one level `a` turns all white when `a > 1`, all black otherwise |
| `Otsu.BimodalMatrix` | Otsu.java:51-94 | a matrix of black and two greys `a < b < 255` turns white exactly at `b` |
| `Grey.ShiftRight` | Otsu.java:151-152 | `>>` by 8, 16 or 24 bits rounds toward minus infinity |
| `Grey.LowByte` | Otsu.java:151-153 | `& 0xFF` is the remainder modulo 256 in [0, 255] |
| `Grey.Red` | Otsu.java:151 | the red value is the byte at bits 16 to 23: in [0, 255], and the pixel less `red * 2^16` lies in `[k * 2^24, k * 2^24 + 2^16)` for some `k` |
| `Grey.Green` | Otsu.java:152 | the green value is the byte at bits 8 to 15: in [0, 255], and the pixel less `green * 2^8` lies in `[k * 2^16, k * 2^16 + 2^8)` for some `k` |
| `Grey.Blue` | Otsu.java:153 | the blue value is the lowest byte: in [0, 255], and the pixel less it is a multiple of 256 |
| `Grey.Pack` | Otsu.java:150 | the packed pixel of four channels is a 32-bit `int` |
| `Grey.GreyLevel` | Otsu.java:151-154 | the grey value of any pixel is in [0, 255] |
| `Grey.GreyBetweenChannels` | Otsu.java:154 | the grey value lies between the smallest and the largest of the three channels |
| `Grey.ChannelsOfPack` | Otsu.java:150-153 | reading the channels out of a packed pixel gives them back |
| `Grey.PackOfChannels` | Otsu.java:150-153 | every 32-bit pixel is the packing of its own channels |
| `Grey.GreyOfGreyPixel` | Otsu.java:150-154 | a pixel with three equal colour channels keeps that level |
| `Grey.ImageToMatrix` | Otsu.java:146-160 | same shape, entry `(row, col)` the grey value of pixel `(row, col)`, all in [0, 255] |
| `Grey.ImageToMatrixLoop` | Otsu.java:147-159 | the nested loop computes the grey matrix |
| `Grey.GreyImageBinarises` | Otsu.java:31-34 | the grey matrix of every image is accepted by `getOtsuMatrix`: no entry lies outside [0, 255] |
| `Grey.UniformGreyImage` | Otsu.java:31-34 | an image of one grey colour turns all white when its level exceeds 1, all black otherwise |

## Left out

- `main`, apart from its two calls at lines 31-34 that chain `imageToMatrix` into `getOtsuMatrix`: the Swing window and `ImageIO.read` are input and output. The image reaches the model as its matrix of `getRGB` values.
- `getImageFromMatrix`: it builds an output image and prints to the console.
- The `width` and `height` parameters of `getOtsuMatrix` and `imageToMatrix`. `getOtsuMatrix` never reads them, and `imageToMatrix` takes its sizes from the pixel rows.
- IEEE-754 rounding, NaN and infinities. Reals are exact, and the one NaN the code produces (empty band) is modelled by its explicit replacement. The NaN mean of an empty band is `None` and never read.
- Java `int` overflow in the histogram counts and in `IntStream.sum`. Counts are unbounded integers, so images with more than 2^31 - 1 pixels are not modelled.
- In-place mutation of the input matrix by the binarisation loop. The result is returned as a new matrix.
