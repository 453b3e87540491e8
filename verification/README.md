# ResNet-50 inference sample: the host-side logic

The sample in `resnet50_inference.cpp` loads a prebuilt TensorRT engine,
runs it on one image and reports the best ImageNet categories. Almost all of
it is calls into TensorRT, CUDA and OpenCV. This project models the parts
that are plain logic and proves their properties:

- **Argmax** (`argmax.dfy`): the `std::max_element` scan behind
  `getCategoryLabel`, which reports the first position of the maximal score.
- **Ranking** (`ranking.dfy`): the index vector of `printTopLabels`, filled
  with `0..n-1` and sorted by descending score. `std::sort` is not stable, so
  a ranking is any permutation of `0..n-1` along which scores do not
  increase. A concrete insertion sort produces one such ranking. Every
  property stated for the reporters holds for any ranking, not only that one.
- **Reporter** (`reporter.dfy`): `printTopLabels` and `getCategoryLabel`
  return their output as values. Their `exit(1)` becomes a `Failure`. The
  label list is a parameter instead of being re-read from
  `data/class_labels.txt`.
- **Layout** (`layout.dfy`): the triple loop of `preprocessImage`. It copies
  an H x W image of C-channel pixels into a flat channel-major buffer at
  offset `c*H*W + h*W + w`. The pixel type is generic.
- **Options** (`options.dfy`): the start-up decisions of `main`. Help is
  handled first. Then INT8 together with FP16 is rejected. Otherwise the
  engine file is chosen by precision unless `--engine` is given, and the
  image path defaults to `data/binoculars.jpeg`.
- `inference.dfy` holds the sample's constants and the score type, and
  `wrappers.dfy` holds `Option` and `Result`.

Scores are `real`. The reporters only compare scores, so any total order
would serve.

A stable tie order (lower index first) is sometimes expected of the
listing, but the code calls `std::sort`, so the model follows the code and
claims no tie order. `Ranking.TiesAdmitBothOrders` shows that both orders of
two equal scores are valid rankings. `Reporter.ListedScoresIndependentOfTies`
shows that the listed scores do not depend on the order chosen.

The code also handles `--help` before the precision check. So `-h -8 -16`
prints usage and exits 0, not 1. The model follows that order.

## Model

| member | source | states |
|---|---|---|
| Argmax.MaxElement | resnet50_inference.cpp:107 | on a non-empty vector the result is a position holding a score at least every other score, with every earlier score strictly smaller (first occurrence wins on ties); on an empty vector it is 0, the distance to the end iterator |
| Argmax.FirstMaxUnique | resnet50_inference.cpp:107 | a position is the first maximum exactly when it is the one the scan reports: the first maximum is unique |
| Ranking.Range | resnet50_inference.cpp:121-122 | the index vector before sorting has n entries and entry i is i |
| Ranking.SortIndices | resnet50_inference.cpp:124-126 | sorting keeps the same positions (equal multisets, equal length) and leaves the scores along them non-increasing |
| Ranking.RankIndices | resnet50_inference.cpp:121-126 | the sorted index vector is a permutation of `0..n-1` whose scores do not increase |
| Ranking.RankingIsPermutation | resnet50_inference.cpp:121-126 | a ranking contains every class index below n, and no index twice |
| Ranking.RankingHeadIsMax | resnet50_inference.cpp:124-126 | the first index of a ranking holds a score at least every score of the vector |
| Ranking.RankingScoresUnique | resnet50_inference.cpp:124-126 | any two rankings of the same scores read the same score at every position; only tied classes can trade places |
| Ranking.TiesAdmitBothOrders | resnet50_inference.cpp:124-126 | with two equal scores both `[0, 1]` and `[1, 0]` are rankings, so no tie order is promised |
| Reporter.TopLabels | resnet50_inference.cpp:113-133 | fails with a size mismatch exactly when the score and label counts differ, before any indexing; otherwise lists `max(0, min(topN, n))` entries with non-increasing scores, entry i being the label and score of index i of some ranking |
| Reporter.ListedScoresIndependentOfTies | resnet50_inference.cpp:121-132 | for every ranking, listed score i equals the score at index i of that ranking |
| Reporter.LabelIndexAsWritten | resnet50_inference.cpp:99-110 | as written: fails exactly on a length mismatch; on non-empty input the index is in range and is the first maximum |
| Reporter.EmptyInputsIndexPastEnd | resnet50_inference.cpp:102-110 | with empty scores and empty labels the length check passes and the index used is not a position of the labels |
| Reporter.CategoryLabel | resnet50_inference.cpp:99-111 | fails on a length mismatch, or on an empty vector (corrected); otherwise returns the label at the first maximal score |
| Reporter.Report | resnet50_inference.cpp:233-234 | the listing then the best category: fails with size mismatch when the counts differ and with no scores when both are empty; otherwise the listing has `max(0, min(topN, n))` entries that are the labels and scores along some ranking, and the best category is the label at the first maximal score |
| Reporter.ListingAgreesWithBest | resnet50_inference.cpp:233-234 | for topN above 0 the first listed entry has the best category's score, and when the best score occurs once it is exactly the best category |
| Reporter.MainReport | resnet50_inference.cpp:229-234 | on the 1000 device scores, main's report succeeds exactly when the label file has 1000 lines, then lists ten categories; otherwise it stops with a size mismatch |
| Reporter.DefaultListing | resnet50_inference.cpp:113 | without a `topN` argument the listing has NUM_RUNS = 5 entries when there are at least five categories |
| Reporter.ThreeCategoryExample | resnet50_inference.cpp:113-133 | scores 0.2, 0.9, 0.5 for cat, dog, bird list dog then bird for topN 2, and the best category is dog |
| Layout.OffsetInBounds | resnet50_inference.cpp:68-72 | every in-range (c, h, w) has its offset inside the C*H*W buffer |
| Layout.Coords | resnet50_inference.cpp:72 | every buffer offset is the offset of one in-range coordinate, so the index map reaches every slot |
| Layout.CoordsOfOffset | resnet50_inference.cpp:72 | decoding the offset of an in-range coordinate gives that coordinate back |
| Layout.OffsetInjective | resnet50_inference.cpp:69-75 | two in-range coordinates with the same offset are equal, so no slot is written twice |
| Layout.SourceIndex | resnet50_inference.cpp:72 | the index expression `c*H*W + h*W + w` is the channel-major offset |
| Layout.ToPlanar | resnet50_inference.cpp:68-75 | the buffer has exactly C*H*W values, holds `img[h][w][c]` at the offset of (c, h, w), and equals the slot-by-slot inverse-map description |
| Layout.InputVolume | resnet50_inference.cpp:22-24 | for an image of the network's 224 x 224 x 3 shape, the planar buffer holds 3 * 224 * 224 = 150528 values |
| Options.ExitStatus | resnet50_inference.cpp:147-160 | start-up exits 0 exactly for help and exits 1 for the precision conflict; it goes on only in the proceed case |
| Options.Start | resnet50_inference.cpp:147-181 | help exactly when `-h` is given; conflict exactly when INT8 and FP16 are both set without help; otherwise the precision follows the flags with FP32 by default, the engine file is `--engine` or the precision's default, and the image is `--image` or `data/binoculars.jpeg` |
| Options.Announced | resnet50_inference.cpp:172-178 | the console names FP16 exactly when `-16` is set, INT8 exactly when `-8` is set without `-16`, and FP32 when neither is set |
| Options.AnnouncedIsSelected | resnet50_inference.cpp:163-178 | the announced precision (FP16 checked first) equals the selected one (INT8 checked first) whenever start-up proceeds; with both flags they would differ, and the conflict check stops that |
| Options.Fp32FlagIgnored | resnet50_inference.cpp:140-170 | the `-32` flag never changes the outcome |
| Options.DefaultsToFp32 | resnet50_inference.cpp:162-170 | with no precision flag and no `--engine`, the engine file is the FP32 artifact |
| Options.OverridesWin | resnet50_inference.cpp:163-181 | with `--engine` and `--image` given, they are used whatever the precision |

## Left out

- Engine loading (`loadEngineFile`, `loadEngine`), the execution context, and the `cudaMalloc`/`cudaMemcpy`/`executeV2`/`cudaFree` calls (lines 34-54, 183-239) are left out. They are TensorRT and CUDA foreign calls and device I/O.
- Image decoding, the `exit(1)` on a failed decode, resizing and the 1/255 conversion (lines 57-66) are left out. They are OpenCV calls and floating-point scaling. Only the reshape after them is modelled. `cv::Size(IMAGE_H, IMAGE_W)` swaps width and height, which is harmless because both are 224.
- File reading in `loadCategoryLabels` (lines 82-96) is left out. Labels are a given sequence of strings, loaded once rather than on every call.
- The timing loop and its printout (lines 214-226) are left out. This includes the `* NUM_LABELS` scaling of the printed duration. It is wall-clock measurement and console output.
- The `Logger` class, cxxopts parsing, help text, and the console lines (`max index:`, `Top N categories`, `using FP16`) are left out. Flags arrive already parsed, and `Options.Announced` models only which precision the `using ...` line names.
- `verify_model.py` is left out. It is a script over onnx and onnxruntime with no logic of its own.
- IEEE float behaviour (NaN, rounding) is left out. Scores are `real`, so every pair of scores is ordered.
- Ranking.SortIndices: fixes one tie order, where `std::sort` may choose another. The reporters' contracts quantify over every ranking, so they do not depend on this choice.

## Findings

| source | as written | input that shows it | evidently intended | confidence | as-written member | corrected member |
|---|---|---|---|---|---|---|
| resnet50_inference.cpp:102-110 | the length check passes when scores and labels are both empty; `std::max_element` then returns the end iterator, and `labels[0]` reads past the empty vector | an empty score vector with an empty label file | report an error and exit 1, as for a length mismatch | not executed; `main` always passes 1000 scores, so only a direct call with an empty label file reaches it | Reporter.LabelIndexAsWritten (with Reporter.EmptyInputsIndexPastEnd) | Reporter.CategoryLabel |
