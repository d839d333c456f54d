# CarLens plate pipeline — a Dafny model

CarLens finds licence plates in video frames and reads them. Between its
OpenCV calls sits a small amount of integer, geometric and list logic:

- the tests that admit a contour as a plate location;
- the OCR loop that keeps six-character readings;
- the frame loops that count frames, skip failures and gather readings;
- the filter, left-to-right sort and crop of character boxes;
- the choice of the plate's bottom edge for deskewing;
- the zoning grid of the character features.

This project models that logic in Dafny and proves what the code promises
about it. Every library call is an abstract input:

- a contour becomes a `Region`: its area, the vertex count of its
  approximating polygon, its bounding box, and the number of strong
  vertical-edge pixels in the box;
- a frame carries whether some library stage raises on it, plus its regions;
- OCR becomes a function from a box to labels or an exception.

Modules, one per file:

| file | module | models |
|---|---|---|
| `vision.dfy` | `Vision` | boxes, regions, the stop rule of a capture loop (`cap.read()` fails or `q` is pressed) |
| `lists.dfy` | `Lists` | filtering list comprehensions, Python's stable `sorted`, `"".join` |
| `segment.dfy` | `SegmentCharacters` | `src/OCR/segment_characters.py` |
| `deskew.dfy` | `DeskewPlate` | `backend/deskew_plate.py` |
| `features.dfy` | `ExtractFeatures` | `backend/extract_features.py` |
| `backend_wrapper.dfy` | `BackendWrapper` | `backend/wrapper.py` |
| `integration_wrapper.dfy` | `IntegrationWrapper` | `integration/wrapper.py` |

Each code form is modelled like this:

- Loops that append to lists, and the frame loops, are Dafny methods with
  `while` loops. Each method is proved against a specification function:
  `Locations`, `Plates`, `Gathered`, `Written`, `Zoning`, and so on.
- The in-place border whitening works on an `array2`.
- Python's `sorted` is an insertion sort. It is proved sorted, a permutation
  and stable; stability means that the elements with any one key keep their
  order.
- `sorted(..., reverse=True)` is stable too, so it is a sort by the negated
  key.
- Thresholds are exact integers: `w >= 1.3*h` is `10*w >= 13*h`,
  `count/(w*h) > 0.2` is `5*count > w*h`, and `count/(w*h) > 0.1` is
  `10*count > w*h`.
- The zone mean is an exact `real`. A NaN stands for numpy's `0/0`.

## Model

| member | source | states |
|---|---|---|
| `SegmentCharacters.Fill` | src/OCR/segment_characters.py:34-37 | the slice assignment `img[r0:r1, c0:c1] = v` sets exactly the pixels of that rectangle to `v` and leaves every other pixel as it was |
| `SegmentCharacters.WhitenBorder` | src/OCR/segment_characters.py:32-37 | after whitening, a pixel is 255 exactly when it lies in the first or last three rows or columns; every other pixel keeps its old value |
| `SegmentCharacters.ExtractCharacterContours` | src/OCR/segment_characters.py:41-75 | `numChars == 0` is the division-by-zero failure, and only that. Otherwise a box is returned iff it is a contour box with `width/(2 numChars) < w < width/3` and `height/3 < h < height`, all strict. The result is a permutation of the filtered boxes, sorted by x, and boxes with equal x keep contour order |
| `SegmentCharacters.Crop` | src/OCR/segment_characters.py:115 | the crop of a box inside the image is `h` rows of `w` pixels, pixel `(i, j)` being image pixel `(y+i, x+j)` |
| `SegmentCharacters.CropAll` | src/OCR/segment_characters.py:113-119 | the crop loop yields one character image per box, in box order, each the crop of its box |
| `SegmentCharacters.SegmentCharacters` | src/OCR/segment_characters.py:96-121 | the border is whitened and nothing else changes in the image. The returned boxes are the size-filtered contour boxes sorted by x, with exactly one character crop per box, in the same order, cut from the whitened image |
| `DeskewPlate.SquaredDistance` | backend/deskew_plate.py:7-9 | the squared distance is non-negative and zero only for equal points. It stands in for `distance`, whose rounded square roots are assumed to compare as the squares do (see Left out) |
| `DeskewPlate.Prev` | backend/deskew_plate.py:33 | `prev_idx` is the ring neighbour `(b+3) % 4` |
| `DeskewPlate.Next` | backend/deskew_plate.py:34 | `next_idx` is the ring neighbour `(b+1) % 4` |
| `DeskewPlate.CalculateLeftRightPoints` | backend/deskew_plate.py:12-55 | the bottom index is the first with the greatest y, and stays 0 when no y exceeds 0. `left` and `right` are distinct corners in 0..3, and one of them is the bottom corner. The other is the bottom corner's strictly farther ring neighbour, or the next one on a tie. The left x is at most the right x |
| `DeskewPlate.FlattenSingletons` | backend/deskew_plate.py:91 | flattening a contour of one-point entries gives the same points in the same order |
| `DeskewPlate.DeskewImg` | backend/deskew_plate.py:77-109 | with no contour the image comes back unchanged. Otherwise the contour is flattened to its four corners, and the result is the rotation fixed by the bottom corner (first with the greatest y) and its strictly farther ring neighbour (the next one on a tie), passed in order of x with the bottom corner first on equal x |
| `DeskewPlate.BottomEdgeUnique` | backend/deskew_plate.py:24-55 | the corners determine the bottom index and the ordered pair `left`, `right` uniquely, so the edge that fixes the rotation is a function of the contour |
| `ExtractFeatures.ExtractZoningFeatures` | backend/extract_features.py:29-55 | the nested loop produces exactly the zoning vector: zone means in row-major order, with NaN for empty zones |
| `ExtractFeatures.ZoningRowMajor` | backend/extract_features.py:44-55 | the vector has `g0*g1` entries, and entry `i*g1 + j` is the mean of zone `(i, j)` |
| `ExtractFeatures.ZonesDisjoint` | backend/extract_features.py:41-51 | every zone lies inside the image, and no pixel belongs to two zones |
| `ExtractFeatures.UncoveredPixelsIgnored` | backend/extract_features.py:41-51 | rows at or beyond `g0*zh` and columns at or beyond `g1*zw` never influence any feature |
| `ExtractFeatures.RegionSumBounds` | backend/extract_features.py:52 | the sum of a region whose pixels lie in `[lo, hi]` lies between `lo` and `hi` times the region's pixel count |
| `ExtractFeatures.ZoneMeanBetween` | backend/extract_features.py:48-53 | a non-empty zone's feature is a number between any lower and upper bound of the zone's pixels, so it lies between their minimum and maximum |
| `ExtractFeatures.ExtractCombinedFeatures` | backend/extract_features.py:72-85 | the combined vector is HOG, then Hu moments, then edge directions, then the nine zoning features, each part unchanged |
| `BackendWrapper.AdmitRegions` | backend/wrapper.py:28-40 | the admission loop yields the boxes of exactly the admitted contours, in contour order |
| `BackendWrapper.LocationsInContourOrder` | backend/wrapper.py:28-40 | every location is the box of a contour with area at least 500, four vertices, `w >= 1.3 h`, `w > 80`, `h > 20` and edge fraction above 0.2. Locations keep contour order, and no such contour is left out |
| `BackendWrapper.ReadLocations` | backend/wrapper.py:42-55 | each location is outlined in black, then in green. The plate list is the six-character joined readings in location order |
| `BackendWrapper.PlatesWellFormed` | backend/wrapper.py:46-50 | every kept reading has exactly six characters, and there are no more readings than locations |
| `BackendWrapper.PlatesAppend` | backend/wrapper.py:42-50 | readings follow location order: the plates of a concatenation are the plates of its parts, concatenated |
| `BackendWrapper.OcrFailureIsLocal` | backend/wrapper.py:46-54 | a location whose OCR raises adds nothing and does not change what the locations after it contribute |
| `BackendWrapper.OutlinesCount` | backend/wrapper.py:42-55 | exactly two rectangles are drawn per location |
| `BackendWrapper.ProcessFrame` | backend/wrapper.py:15-62 | `(None, None)` comes back exactly when a library stage raises. Otherwise the result has two outlines per location and only six-character plates |
| `BackendWrapper.ProcessedIsMultiple` | backend/wrapper.py:80 | the repeated-subtraction test picks exactly the frames with `frame_count % skip_frames == 0` |
| `BackendWrapper.HandleFrame` | backend/wrapper.py:80-85 | one loop step: it reports failure exactly when a processed frame returns `(None, None)`, and otherwise extends the accumulations by the frame's share |
| `BackendWrapper.ProcessVideoStream` | backend/wrapper.py:65-97 | as written. A closed capture ends at once. Otherwise the frames before the stop are read with `frame_count` counting them, none of them failing. `combined_predictions` is the in-order concatenation of the plates of the processed frames. The stream ends when reading fails or `q` is pressed, or it aborts at the first processed frame that fails, before `q` was pressed |
| `BackendWrapper.StreamCompletes` | backend/wrapper.py:75-94 | a loop that stops on a failed read or on `q`, after frames none of which failed, completes as the as-written outcome describes |
| `BackendWrapper.StreamAborts` | backend/wrapper.py:81-97 | a loop stopped by a failing processed frame aborts with the earlier frames' plates |
| `BackendWrapper.ProcessVideoStreamTolerant` | backend/wrapper.py:72-94 | corrected loop: it always completes by the stop rule, and a failed frame contributes neither plates nor a shown frame |
| `BackendWrapper.GatheredPlatesWellFormed` | backend/wrapper.py:74-83 | every accumulated string is a six-character reading |
| `BackendWrapper.FailedFrameAbortsStream` | backend/wrapper.py:60-83 | on a video whose first frame fails and whose second holds plate `1ABC23`, the as-written loop aborts with nothing gathered; the corrected loop completes with `["1ABC23"]` |
| `BackendWrapper.SixLabelsRead` | backend/wrapper.py:46-50 | a location whose OCR gives six one-character labels contributes exactly one reading, their join, which has six characters and so passes the length test |
| `IntegrationWrapper.ProcessFrame` | integration/wrapper.py:8-43 | `None` comes back exactly when a library stage raises. Otherwise one rectangle is drawn per location, where locations are the kept contours visited in area-sorted order |
| `IntegrationWrapper.KeptRegionsSpec` | integration/wrapper.py:22-37 | a contour becomes a location iff it has four vertices, `w >= 1.3 h` and edge fraction above 0.1; there is no area or absolute size bound. Locations are a permutation of those contours, with non-increasing area, and contours of equal area keep their order. Each location is the box of its contour |
| `IntegrationWrapper.HandleFrame` | integration/wrapper.py:62-73 | one loop step appends the frame's rectangles exactly when its processing did not fail |
| `IntegrationWrapper.ProcessVideo` | integration/wrapper.py:46-84 | a closed capture ends at once. Otherwise the loop completes by the stop rule, with `frame_count` counting the frames read. The frames handed to `out.write` are those of the frames read whose processing did not fail |
| `IntegrationWrapper.WrittenFrames` | integration/wrapper.py:66-71 | the frames handed to `out.write` come from non-failing frames only, in reading order, each with its drawn rectangles, and no non-failing frame is skipped |
| `Vision.HaltsOnExit` | backend/wrapper.py:75-90 | a capture loop that leaves on a failed read or on `q` has read every frame up to the stop, with `q` pressed after none of the earlier ones |
| `Lists.SelectMembers` | src/OCR/segment_characters.py:67-71 | a filtered list holds an element iff the element is in the input and passes the test |
| `Lists.SelectIsSubsequence` | backend/wrapper.py:28-40 | a filtered list is an order-preserving subsequence holding every element that passes |
| `Lists.CollectIsSubsequence` | integration/wrapper.py:61-73 | a filtered and mapped list follows the input order and maps every element that passes |
| `Lists.SortBySorted` | src/OCR/segment_characters.py:73 | `sorted` returns a permutation of its input in non-decreasing key order |
| `Lists.SortByStable` | src/OCR/segment_characters.py:73 | `sorted` keeps the input order among elements with equal keys |
| `Lists.SelectSortByPermutes` | integration/wrapper.py:22-34 | filtering after sorting gives a permutation of filtering the unsorted list |
| `Lists.SelectWithKey` | integration/wrapper.py:22-34 | filtering and restricting to one key commute, so the filter keeps the order among equal keys |
| `Lists.JoinLength` | backend/wrapper.py:48-49 | the joined reading is as long as all labels together |

## Left out

- The image library calls (grey conversion, filters, Canny, dilation, erosion, contour search, polygon approximation, bounding rectangles, areas, Sobel, resize, thresholding, sharpening, HOG, skeletonisation, Hu moments, edge directions) are foreign code. They are replaced by their results: regions, boxes, edge counts and feature vectors are inputs.
- The float literal `1.3` in `w >= 1.3 * h` is the exact ratio 13/10 here. The binary float may decide differently at the exact boundary.
- `find_rotation_angle`, the `angle > 20` guard and the affine warp are floating-point library work. `DeskewPlate.DeskewImg` takes them as one `rotate` function of the image and the two chosen corners.
- DeskewPlate.SquaredDistance: the comparison of rounded square roots is modelled as the exact comparison of squared distances. The two differ only for distances beyond double precision.
- SegmentCharacters.SegmentCharacters: it returns the crops before `cv2.resize` to 42x28 and before sharpening, since both are library calls.
- SegmentCharacters.SegmentCharacters: `rects` are the bounding rectangles that `cv2.findContours` reports on the whitened image; the thresholding and morphology before whitening are library work.
- `ExtractFeatures.ExtractZoningFeatures` requires a grid with at least one row and one column. A zero grid dimension makes the source's floor division raise, and that error is not modelled.
- BackendWrapper.ProcessVideoStream: `skip_frames` is the constant 1 in the source. The model takes any positive skip, and it is 1 in the counterexample.
- BackendWrapper.ProcessFrame: the crop `frame[50:]` is folded into the inputs. Boxes are coordinates in the cropped frame.
- IntegrationWrapper.ProcessFrame: the same crop `frame[50:]` (integration/wrapper.py:11) is folded into the inputs; boxes are coordinates in the cropped frame.
- DeskewPlate.SquaredDistance: integers are unbounded. The program squares differences of int32 coordinates, which wrap once a difference exceeds 46340; the model does not wrap.
- BackendWrapper.ProcessFrame: a failing library stage is one flag per frame. Where in `process_frame` it raises is not modelled, because every such failure gives `(None, None)`.
- OCR is a function of the box alone. It stands for `OCR(cropped_image)`, and an exception from it is one of its results.
- The `cv2.imwrite` of each plate crop and the `print` calls are file and console output.
- `combined_predictions` is only kept locally in the source. The model returns it in the outcome so that it can be stated.
- The status label texts are reduced to `OpenFailed`, `Complete` and `Aborted`.
- `cv2.imshow` is modelled as the list of annotated frames shown, here the outlines drawn on each. `cv2.waitKey` is modelled as the `quit` input: whether `q` is pressed after frame `i`.
- IntegrationWrapper.ProcessVideo: the writer's set-up from the capture's width, height and fps, and `out.write`, are file I/O. The model records the frames handed to `out.write`, which are also the frames shown. The writer is opened at the uncropped frame size (integration/wrapper.py:53-58) while the frames passed to it are cropped by 50 rows, so whether the file actually receives them is not modelled. An exception from the writer or from the capture, caught by the outer handler, is not modelled.
- The Tk window, `select_video`, `start_processing` and the worker thread are UI and concurrency.
- Outside this model: the websocket endpoint, the React frontend, video playback, the training script and the `ocr.py` glue modules.

## Findings

| source | as written | input that shows it | evidently intended | confidence | as-written member | corrected member |
|---|---|---|---|---|---|---|
| backend/wrapper.py:60-83 | after an exception, `process_frame` returns `(None, None)`, and `combined_predictions.extend(None)` then raises `TypeError`. The outer handler ends the whole stream with an error status | a two-frame video: the first frame makes a library stage raise, and the second holds a readable plate `1ABC23`. The stream aborts at frame 0 and never reads the plate | a failed frame contributes no readings, and the stream goes on to the next frame | not executed | `BackendWrapper.ProcessVideoStream`, `BackendWrapper.FailedFrameAbortsStream` | `BackendWrapper.ProcessVideoStreamTolerant` |
