# Colour consistency monitor — a Dafny model of the measurement pipeline

Color_Analysis watches a camera feed and checks whether four fixed regions of the image show the same colour.
For every frame, the pipeline in `app.py` does the following:

- cuts four squares of side 160 around the centres of the quadrants, clipped to the frame;
- reduces each square to a dominant colour. Shadows, highlights and washed-out pixels are filtered away first. K-Means picks the most populous cluster, and the plain mean is used when K-Means raises;
- smooths each region's colour over the last ten frames;
- renders each smoothed colour as `#rrggbb`;
- groups the regions greedily into consistency groups, where every pair inside a group lies within a CIEDE2000 distance of 2.0;
- derives a PASS / FAIL / MIXED verdict and a message;
- records the largest of the six pairwise distances.

This project models that pipeline in Dafny and proves its properties.
The modules follow the stages:

| module | file | stage |
|---|---|---|
| `Base` | base.dfy | `Option`, integer min/max, Python's `int()` on floats |
| `Colors` | colors.dfy | pixels in OpenCV's blue-green-red order; RGB and Lab triples |
| `Roi` | roi.dfy | region centres, clamping, and the row-major pixel block of a region |
| `Drawing` | drawing.dfy | the green outlines and numbers drawn into the frame between regions |
| `Extractor` | extractor.dfy | the lightness/saturation filter, the fallbacks, the mean fallback of the dominant colour |
| `Smoothing` | smoothing.dfy | the ten-sample window and its component-wise mean |
| `Hex` | hex.dfy | `"#{:02x}{:02x}{:02x}"` on truncated channels, and its inverse |
| `Combos` | combos.dfy | `itertools.combinations` on an ascending sequence |
| `Grouping` | grouping.dfy | the greedy consistency grouper |
| `Status` | status.dfy | verdict, label and message derivation |
| `MaxDelta` | maxdelta.dfy | the running maximum over the six pairs |
| `Pipeline` | pipeline.dfy | one frame end to end, over an explicit state value |

The colour science is passed in as parameters and stays abstract:

- `cluster: seq<Pixel> -> Option<Bgr>` is the K-Means step. `None` means it raised.
- `toLab: Rgb -> Lab` is the sRGB-to-Lab conversion.
- `deltaE: (Lab, Lab) -> real` is the CIEDE2000 distance. Inside the grouper it becomes `Dist = (nat, nat) -> real` on region indices.
- `ink: (nat, int, int) -> bool` is OpenCV's rasteriser: `ink(k, x, y)` says whether drawing region k's outline and number paints pixel (x, y) green.

Region k's outline and number are drawn into the same image before region k+1 is cut out (app.py:185-187).
So region i is cut from the frame with regions 0 .. i-1 already painted (`Drawing.Before`).

Floats are modelled as exact `real`s.
Pixels are bytes, so the filter works on exact integers, as it does in the source.

Two details of `app.py` that the model keeps exactly:

- The PASS message is "All 4 Match (PASS)" (app.py:227).
- Before the first frame, the published state is "Ready" / "N/A" / 0.0 with `#000000` placeholders (app.py:30-46).

## Model

| member | source | states |
|---|---|---|
| Roi.Centers | app.py:147-152 | The four centres are (w/4, h/4), (3w/4, h/4), (w/4, 3h/4), (3w/4, 3h/4) in integer division. So `int(w*0.25)` and `int(w*0.75)` equal exact integer quotients. |
| Roi.Clamp | app.py:157-163 | 0 <= x1 <= cx <= x2 <= width and 0 <= y1 <= cy <= y2 <= height. Both sides are at most 160. A column is inside the rectangle iff it is inside the frame and within 80 of the centre (the same holds for rows). |
| Roi.Regions | app.py:147-163 | Four rectangles, each inside the frame with sides of at most 160. |
| Roi.RegionsAroundCenters | app.py:147-163 | Region i contains centre i and is exactly the 160-square around it, clipped to the frame. |
| Roi.InteriorRegionIsFull | app.py:157-163 | A centre at least 80 pixels from every border gets a full 160 x 160 square: exactly the rectangle from (cx-80, cy-80) to (cx+80, cy+80), with no clipping. |
| Roi.Block | app.py:60-61 | The flattened block of a rectangle has (y2-y1)*(x2-x1) pixels. |
| Roi.BlockAt | app.py:60-61 | Pixel (x, y) of the rectangle sits at row-major offset (y-y1)*(x2-x1)+(x-x1) of the block, as `reshape((-1, 3))` orders it. |
| Roi.RegionBlock | app.py:165 | The block of region i has exactly (y2-y1)*(x2-x1) pixels and at most 160*160. |
| Roi.EmptyFrameEmptyBlocks | app.py:162-165 | A frame with zero width or height gives empty blocks. |
| Roi.BlockSame | app.py:165 | Two images that agree on every pixel of a rectangle give the same block for it. |
| Drawing.Paint | app.py:185-187 | Drawing keeps the frame's size. A painted pixel becomes (0, 255, 0) and every other pixel keeps its value. |
| Drawing.Before | app.py:165-187 | The image region i is cut from has the frame's size. |
| Drawing.BeforeKeeps | app.py:165-187 | A pixel that no earlier region's drawing touches still has its camera value when region i is cut. |
| Drawing.BeforePaints | app.py:165-187 | A pixel that an earlier region's drawing touches is green when region i is cut, whatever the camera saw. |
| Drawing.UntouchedRegion | app.py:165-187 | If no earlier drawing reaches region i, its block is the block of the camera frame. |
| Drawing.LargeFrameUntouched | app.py:147-187 | On a frame at least 326 pixels wide and high, if each drawing stays within 2 pixels of its outline or above its region, every region's block is the camera's. |
| Drawing.Apart | app.py:147-187 | On such a frame, a later region lies outside an earlier region's outline band and not above it. |
| Drawing.Unclipped | app.py:147-163 | On such a frame every quadrant centre lies at least 80 pixels from every border, so by `Roi.InteriorRegionIsFull` every region is the full 160-square around its centre. |
| Drawing.SmallFrameOverlap | app.py:147-186 | On a 320 x 240 frame, pixel (160, 100) lies in region 1 and within 2 pixels of region 0's right edge, so region 0's outline reaches into region 1. |
| Extractor.Spread | app.py:71-73 | The saturation proxy is max-min of the channels: it is the difference of two of them and bounds the difference of any two. It lies in [0, 255]. |
| Extractor.Filter | app.py:64-79 | Every kept pixel passes both masks (60 < B+G+R < 705 and max-min > 20). Each pixel value occurs as often as in the block if it passes, and never otherwise. |
| Extractor.FilterAppend | app.py:79 | Masking a concatenation is the concatenation of the masked parts, so the kept pixels stay in block order. |
| Extractor.FilterOne | app.py:79 | A single pixel is kept iff it passes both masks. |
| Extractor.CandidatesSpec | app.py:64-84 | The candidates are the filtered pixels when any pass, and the whole block otherwise. |
| Extractor.Keep | app.py:64-78 | The combined mask: 60 < B+G+R < 705 and max-min > 20. `Extractor.FilterOne` and `Extractor.Filter` prove that a pixel is kept exactly when it passes. |
| Extractor.Candidates | app.py:79-85 | The candidates are empty exactly when the block is empty, so the `(0, 0, 0)` return happens only for an empty block. `Extractor.CandidatesSpec` states which pixels they are. |
| Extractor.DominantColor | app.py:82-107 | An empty block gives (0, 0, 0). Otherwise the result is the cluster centre, or the mean of the candidates when clustering raises. Either way the channels are reversed from BGR to RGB. |
| Extractor.DarkBlockUsesWholeBlock | app.py:64-107 | A block whose pixels are all too dark is handed to clustering whole: the candidates are the block itself. The result is the cluster centre of the whole block, or the mean of the whole block when clustering raises. |
| Extractor.Mean | app.py:105 | The channel-wise mean of the candidates, in BGR order. `Extractor.MeanBounds` keeps it in [0, 255] and `Extractor.ConstantMean` proves it gives back a single colour. |
| Extractor.ConstantMean | app.py:105 | The mean of a block of one colour is that colour. |
| Extractor.ConstantBlockColor | app.py:105-107 | A one-colour block reduced by the mean fallback yields that colour with its channels reversed. |
| Extractor.ConstantBlockClustered | app.py:88-101 | A one-colour block whose clustering returns the mean of some candidate pixels yields that colour with its channels reversed. |
| Extractor.MeanBounds | app.py:105-107 | The mean fallback's channels lie in [0, 255]. |
| Smoothing.Push | app.py:38-39 | After an append, the window length is min(old+1, 10). The last element is the new sample, and the rest are the newest elements of the old window, in order. |
| Smoothing.PushAll | app.py:171 | Feeding a stream of samples to a window leaves min(old + n, 10) samples, the newest one last. `Smoothing.PushAllKeepsRecent` states exactly which samples these are. |
| Smoothing.PushAllKeepsRecent | app.py:170-171 | A window fed a stream of samples holds the last min(n, 10) samples of everything it has seen, in order. |
| Smoothing.RecentOfRecent | app.py:39 | Evicting early does not change which samples survive later appends. |
| Smoothing.Mean | app.py:173-175 | The component-wise mean of the window. `Smoothing.MeanBounds` keeps it in [0, 255] and `Smoothing.ConstantMean` proves it gives back a single colour. |
| Smoothing.ConstantMean | app.py:174-175 | A window of identical samples averages to that sample. |
| Smoothing.Converges | app.py:170-178 | After ten frames of one colour, the window holds only that colour and its mean is that colour, whatever came before. |
| Smoothing.MeanBounds | app.py:174-175 | The mean of samples with channels in [0, 255] has channels in [0, 255]. |
| Hex.ToHex | app.py:122 | The hexadecimal rendering of n is a non-empty string of lower-case hex digits. It is a single digit exactly when n < 16, which is where `{:02x}` pads. |
| Hex.HexRoundTrip | app.py:122 | Reading back the hexadecimal rendering of n gives n. |
| Hex.Hex02 | app.py:122 | `{:02x}` has at least two characters. It is exactly two characters with no sign iff the value is in [0, 256). |
| Hex.ByteDigits | app.py:122 | For a byte, `{:02x}` is its high and low nibble as lower-case digits. |
| Hex.Hex02RoundTrip | app.py:122 | Reading back `{:02x}` of a byte gives the byte. |
| Hex.RgbToHex | app.py:121-122 | The rendering starts with '#' and is at least 7 characters long. |
| Hex.ColorRoundTrip | app.py:121-122 | For channels in [0, 256), the rendering is '#' plus six lower-case hex digits, and it reads back to the truncated channels. |
| Hex.ExampleMixed | app.py:121-122 | (255, 0, 127) renders as "#ff007f". |
| Hex.ExampleBlack | app.py:31-34 | (0, 0, 0) renders as "#000000", the placeholder the state starts with. |
| Hex.ExampleTruncates | app.py:121-122 | (127.9, 15.5, 0.99) renders as "#7f0f00": channels are truncated, not rounded. |
| Combos.Combinations | app.py:200 | `itertools.combinations(pool, k)`: every combination has length k. `Combos.CombinationsMembership` says which ones there are and `Combos.CombinationsSorted` says in what order. |
| Combos.CombinationsMembership | app.py:200 | For an ascending pool, the k-combinations are exactly the ascending length-k sequences drawn from it. |
| Combos.CombinationsSound | app.py:200 | Every combination is ascending and drawn from the pool. |
| Combos.CombinationsComplete | app.py:200 | Every ascending sequence drawn from the pool is a combination of its length. |
| Combos.CombinationsFull | app.py:199-200 | The only combination of full size is the pool itself, so a consistent pool is tried first. |
| Combos.CombinationsOfOne | app.py:199-200 | The size-1 combinations are the singletons in pool order. |
| Combos.CombinationsTooLarge | app.py:199-200 | There are no combinations larger than the pool. |
| Combos.LengthWithin | app.py:199 | An ascending pick from the pool is no longer than the pool. |
| Combos.CombinationsSorted | app.py:200 | For an ascending pool, the combinations come out in strictly increasing lexicographic order. |
| Combos.CombinationsOrdered | app.py:200 | Of two combinations, the one produced earlier precedes the later one lexicographically. |
| Combos.CombinationsDistinct | app.py:200 | For an ascending pool, no combination is produced twice. |
| Grouping.PairsWithin | app.py:205-209 | The pair loop finishes without breaking iff every listed pair is within the threshold. |
| Grouping.IsConsistent | app.py:201-213 | The subset test: the pair loop over the 2-combinations, skipped for a singleton. `Grouping.IsConsistentCorrect` proves it decides all-pairs consistency. |
| Grouping.IsConsistentCorrect | app.py:201-213 | The subset test accepts a subset iff all its pairs (i < j) are within 2.0. Singletons pass because the loop is skipped. |
| Grouping.FirstConsistent | app.py:200-216 | It returns the index of the first candidate that passes; every earlier candidate fails. |
| Grouping.Search | app.py:199-218 | Sizes are tried from largest to smallest. The result is the first passing candidate of the largest size that has one. No larger size has one. A non-empty pool always yields a result. |
| Grouping.BestSubset | app.py:197-218 | The subset the inner loops settle on for a pool. `Grouping.BestSubsetIsGreedy` and `Grouping.BestSubsetIsLexFirst` prove it is the largest consistent subset, first in combination order. |
| Grouping.BestSubsetIsGreedy | app.py:196-218 | Each step takes a non-empty consistent subset of the pool. No consistent subset is larger, and it is the first consistent one of its size in combination order. |
| Grouping.BestSubsetIsLexFirst | app.py:199-216 | Every other consistent subset of the chosen size comes lexicographically after the chosen one. |
| Grouping.Without | app.py:221 | Removing a group leaves exactly the pool members outside it, still ascending. |
| Grouping.WithoutShrinks | app.py:221 | Removing a non-empty group from the pool strictly shrinks it, so the outer loop terminates. |
| Grouping.Partition | app.py:193-221 | The groups are non-empty, ascending, drawn from the pool and consistent. They are pairwise disjoint and together cover the pool. |
| Grouping.PartitionIsGreedy | app.py:196-221 | Each group is the greedy choice from what the earlier groups left, and the pool ends empty. |
| Grouping.PartitionCount | app.py:196-221 | There are never more groups than regions. |
| Grouping.ConsistentPoolIsOneGroup | app.py:196-221 | A consistent pool becomes a single group: the pool itself. |
| Grouping.OneGroupIffConsistent | app.py:196-221 | There is exactly one group iff every pair of the pool is within the threshold. |
| Grouping.AllSingletonsIffNoClosePair | app.py:196-221 | Every region is its own group iff every pair is beyond the threshold. |
| Grouping.TwoPairs | app.py:193-221 | With (1,2) and (3,4) close and every cross pair far, the groups are [0,1] then [2,3]. |
| Status.Decimal | app.py:235 | `str(n)` is a non-empty string of decimal digits. |
| Status.DecimalRoundTrip | app.py:235 | Reading back `str(n)` gives n. |
| Status.Derive | app.py:224-238 | The label is PASS iff there is one group, with "All 4 Match (PASS)". It is FAIL iff there are four groups, with "All Different". Otherwise it is MIXED, with "Similar: " followed by the group listing. |
| Status.GroupText | app.py:235-236 | One group rendered as "[" + the 1-based members joined by "+" + "]". `Status.PairText` gives the two-member case and `Status.ListingRoundTrip` reads the members back. |
| Status.Listing | app.py:233-237 | The group texts joined by ", ". `Status.ListingRoundTrip` proves the listing reads back to the groups, so different groupings give different listings. |
| Status.ListingRoundTrip | app.py:233-237 | For groups of region indices below 9, reading the listing back gives the groups, member by member and in order. |
| Status.MixedMessageRoundTrip | app.py:232-238 | When there are neither one nor four groups, the verdict is MIXED and its message reads back to the groups. |
| Status.MixedMessageNamesGroups | app.py:193-238 | A MIXED message of the four regions reads back to exactly the groups the grouper formed. |
| Status.Judge | app.py:193-238 | The verdict of the four regions: the grouper's groups passed to `Status.Derive`. `Status.PassIffAllClose`, `Status.FailIffAllFar` and `Status.MixedMessageNamesGroups` state it in terms of the six distances. |
| Status.PassIffAllClose | app.py:193-228 | The verdict is PASS iff all six pairwise distances are within 2.0. |
| Status.FailIffAllFar | app.py:193-231 | The verdict is FAIL iff all six pairwise distances exceed 2.0. |
| Status.TwoPairsMessage | app.py:193-238 | Two close pairs far from each other give MIXED with "Similar: [1+2], [3+4]". |
| Status.TwoPairsReport | app.py:232-238 | The groups [0,1], [2,3] render as "Similar: [1+2], [3+4]". |
| Status.PairText | app.py:235-236 | A two-member group renders as "[" + str(a+1) + "+" + str(b+1) + "]". |
| Status.ListingOfTwo | app.py:237 | Two group texts are joined by ", ". |
| MaxDelta.MaxDeltaE | app.py:241-247 | The result is at least 0.0 and at least every dist(i, j) with i < j < 4. It equals one of them, or 0.0. |
| MaxDelta.MaxOver | app.py:243-246 | The running maximum from 0.0 bounds every visited pair and is one of them, or 0.0. |
| MaxDelta.IndexPairs | app.py:243 | The 2-combinations of 0..3 are exactly the pairs (i, j) with i < j < 4. |
| Pipeline.InitialIsBlack | app.py:30-46 | `Pipeline.Initial` is the state before the first frame, with "Ready", "N/A" and 0.0. The lemma proves that it has four readings and four windows, that each placeholder carries the hex rendering of its own black colour, and that every window starts empty. |
| Pipeline.RawColor | app.py:165-168 | Region i's raw colour is the dominant colour of its block, cut from the image with the earlier regions already drawn. `Pipeline.RawColorInRange` and `Pipeline.RawColorOnLargeFrame` bound it and relate it to the camera's pixels. |
| Pipeline.Record | app.py:165-187 | Each region's window gains that region's raw colour, evicting the oldest sample once full. Region i's raw colour is cut from the image with the earlier regions' outlines and numbers drawn in. |
| Pipeline.RawColorOnLargeFrame | app.py:147-187 | On a frame at least 326 pixels wide and high, with drawing confined to the outlines and the numbers above them, each raw colour is the dominant colour of the camera's own pixels. |
| Pipeline.RawColorInRange | app.py:165-187 | If clustering only yields colours in [0, 255], every raw region colour is in [0, 255], drawing or not. |
| Pipeline.MakeBox | app.py:173-183 | A published reading: the window's mean with its Lab value and hex string, both computed from that same mean. |
| Pipeline.Publish | app.py:173-190 | Four readings, reading i made from window i. |
| Pipeline.Distances | app.py:206 | The distance between regions i and j is `deltaE` of their published Lab values. `Pipeline.Classify` and `Pipeline.MaxOfBoxes` use it for the grouping and the maximum. |
| Pipeline.Classify | app.py:223-238 | The label is PASS iff all six Lab differences are within 2.0, FAIL iff all exceed it, and MIXED otherwise. The all-match message goes only with PASS, and FAIL carries "All Different". A MIXED message reads back to the groups formed. Label and message are those of the grouper's verdict. |
| Pipeline.MaxOfBoxes | app.py:240-247 | The maximum bounds all six Lab differences and is one of them, or 0.0. |
| Pipeline.Assess | app.py:189-247 | The label, message and maximum of four readings satisfy everything `Pipeline.Classify` and `Pipeline.MaxOfBoxes` promise. |
| Pipeline.ProcessFrame | app.py:144-247 | One frame appends each region's raw colour, cut from the progressively annotated image, to its window. It publishes the smoothed colour with its Lab value and hex string. Label and message are the grouper's verdict on the six Lab differences, as in Classify, and the maximum bounds them. |
| Pipeline.Step | app.py:137-142 | A failed capture leaves the state unchanged. A frame is processed as above. |
| Pipeline.BoxHexReadsBack | app.py:174-181 | A window of in-range samples publishes a 7-character hex string that reads back to the truncated smoothed channels. |
| Pipeline.SteadyRegion | app.py:170-181 | Ten frames of an unchanging region colour publish exactly that colour, its Lab value and its hex string. |

## Left out

- K-Means clustering (app.py:88-101) is the parameter `cluster`: random initialisation and floating-point iteration are out of reach. Its failure path is `None`.
- `rgb2lab` and `deltaE_ciede2000` (app.py:109-119) are the parameters `toLab` and `deltaE`, for the same reason.
- Floating point: all float arithmetic (float32 pixel means, float64 distances) is exact `real` arithmetic, so rounding error is not modelled.
- OpenCV capture and JPEG encoding (app.py:124-142, 249-254) are I/O. A failed capture is modelled as `None` in `Pipeline.Step`.
- Drawing.Confined: which pixels `cv2.rectangle` and `cv2.putText` paint (app.py:186-187) is the parameter `ink`, not a raster algorithm. The band of 2 pixels around each outline and the number lying above its region are hypotheses of `Drawing.LargeFrameUntouched`, not consequences of a modelled rasteriser.
- Pipeline.RawColorOnLargeFrame: below 326 pixels the model still cuts every region from the annotated image, but it proves nothing about how much the drawing changes the colour there; `Drawing.SmallFrameOverlap` shows that it can reach a later region.
- The Flask routes (app.py:256-335) are HTTP transport. This includes the similarity percentages and `round(max_delta_e, 2)` in `get_status`, `set_lighting` and `set_camera`. So the lighting label is not part of the modelled state: only `set_lighting` ever changes it, and the pipeline never reads it.
- The lock and the global variables (app.py:48, 189) serve concurrency. The model passes an explicit `State` value in and out instead.
- `resource_path` and the browser script are packaging and UI.
- The first assignment `pass_fail = f"{n} Group(s)"` (app.py:224) and `current_max_dE` (app.py:202, 210-211) are never read, so they have no model.
- `itertools.combinations` returns nothing as soon as fewer than k elements remain. `Combos.Combinations` recurses instead, with the same output (`Combos.CombinationsTooLarge`).
- The outer loop would spin forever if a round found no subset. That case is unreachable because a non-empty pool always yields a subset (`Grouping.Search`), so the model has no separate branch for it.
