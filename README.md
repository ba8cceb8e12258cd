# DICOM series index and scene geometry

A model of the core of a 3-D DICOM viewer, in two parts.

**The series index (`DicomManager`).**
- It discovers the series directories of a patient directory.
- It ingests each selected series directory into validated frame records. A record is kept only when all six required tags were found. Records are sorted by instance number and stored under the series path.
- It assembles the frames of one timepoint across all stored series, ordered by through-plane position.
- It reports the longest series length, which bounds navigation.

**The scene builder (`VtkManager`).**
- For each frame it computes the 4×4 affine map from the image plane to patient space. The columns are the row cosines, the column cosines, their cross product and the image position (DICOM PS3.3 section C.7.6.2.1.1).
- It builds the frame's closed contour polyline from a (2, N) `.npy` array of pixel coordinates.
- It keeps the slice and contour actor lists of a scene.
- It keeps the shared slice opacity, clamped to [0, 1].

**Oracles.** The filesystem (`Paths.FileSystem`), the DICOM tag decoder (`DicomManagement.Decoder`) and the contour-array loader (`VtkScene.NpyFiles`) are inputs to the model. Each records the answers the real library would give.

**Modules.**
- `Ordering`: orderings, sortedness, `std::string` comparison, `std::map` key order and the sort that stands for `std::sort`.
- `Paths`: `std::filesystem` paths.
- `DicomFrames`: the frame record.
- `Optional`: `Option`.
- `DicomManagement`: the index.
- `VtkScene`: the geometry and the scene.

## Model

| member | source | states |
|---|---|---|
| `Ordering.LexLeqIsTotalOrder` | src/DicomManager.cpp:38 | The string order `std::sort` uses on series names is total, transitive and antisymmetric. |
| `Ordering.SortedPermutationUnique` | src/DicomManager.cpp:38 | Under a total order, two sorted permutations of the same multiset are equal, so sorting the names has one possible result. |
| `Ordering.InKeyOrder` | include/DicomManager.h:54 | `std::map` iteration visits each key exactly once: the sequence has as many entries as the key set and the same members. |
| `Ordering.InKeyOrderSorted` | include/DicomManager.h:54 | `std::map` iteration visits keys in ascending string order. |
| `Ordering.InKeyOrderDistinct` | include/DicomManager.h:54 | No key is visited twice. |
| `Ordering.InsertionSort` | src/DicomManager.cpp:114 | Sorting in place leaves the array sorted by the given total preorder and a permutation of what it held. |
| `Ordering.SortSequence` | src/DicomManager.cpp:134-136 | The sorted result is ordered by the comparison and is a permutation of the input (stability is not claimed). |
| `DicomFrames.FrameOrderIsStrictWeak` | include/DicomManager.h:23-25 | `operator<` on frames is a strict weak order. Its non-strict companion is a total preorder. Two frames are equivalent exactly when their instance numbers are equal. |
| `DicomFrames.SortedSeriesInstanceOrder` | include/DicomManager.h:23-25 | In a series sorted by `operator<`, adjacent instance numbers never decrease. |
| `Paths.ExtensionSpec` | src/DicomManager.cpp:55 | `extension()` is empty or starts at the name's last '.', is never the whole name, and stem plus extension is the name. It is non-empty exactly when the name is neither "." nor ".." and has a '.' after its first character. |
| `Paths.ExtensionPresent` | src/DicomManager.cpp:55 | `extension()` is non-empty if and only if the name is neither "." nor ".." and has a '.' after its first character. |
| `Paths.JoinSplits` | src/DicomManager.cpp:101-103 | `parent_path()` and `filename()` of `dir / name` give back `dir` and `name`. |
| `DicomManagement.Overlay` | src/DicomManager.cpp:73-83 | Scanning a tag's components into a pre-sized vector keeps the vector's length. Each element is the parsed component when one was parsed at that index and the earlier value otherwise. |
| `DicomManagement.ExtractFrame` | src/DicomManager.cpp:64-97 | Tag extraction succeeds exactly when all six tags are found, and then yields the parsed frame. |
| `DicomManagement.ParsedFrameFields` | src/DicomManager.cpp:64-99 | A frame is produced if and only if all six tags are present. It records the file path, the instance number, rows and columns. Each vector component is the tag's parsed value or, past the parsed prefix, the record's default. The contour path starts empty. |
| `DicomManagement.DcmExtension` | src/DicomManager.cpp:55 | A name ends in ".dcm" after at least one other character exactly when its `extension()` is ".dcm". |
| `DicomManagement.FrameFromFileSpec` | src/DicomManager.cpp:55-108 | An entry yields a frame if and only if it is a regular file, its extension is ".dcm", it loads and it has all six tags. The frame records the entry's path. Its contour path is `<dir>/<stem>_cont.npy` when that exists and "" otherwise. |
| `DicomManagement.ContributionCases` | src/DicomManager.cpp:55-108 | An entry adds either the one frame its tags give (with the contour sibling when it exists) or nothing. |
| `DicomManagement.ContributionMembership` | src/DicomManager.cpp:55-108 | A frame is among an entry's contribution exactly when the entry passed every check and the frame is the one built from it. |
| `DicomManagement.FramesInMembership` | src/DicomManager.cpp:54-110 | A frame is collected from a directory scan exactly when one of the scanned entries contributes it. |
| `DicomManagement.ValidFrameProvenance` | src/DicomManager.cpp:54-110 | Every collected frame comes from a listed entry that passed every ingestion check. |
| `DicomManagement.LoadSeries` | src/DicomManager.cpp:51-114 | Reading one series directory gives exactly its valid frames (as a multiset), sorted by instance number. The result is empty exactly when the directory has no valid frame. |
| `DicomManagement.SubdirectoriesCount` | src/DicomManager.cpp:33-37 | A name is among the discovered subdirectories as often as it is listed when it is a directory, and not at all otherwise. |
| `DicomManagement.DiscoveryDeterminate` | src/DicomManager.cpp:33-38 | Discovery does not depend on the order directory_iterator yields entries: two listings with the same names give the same sorted result. |
| `DicomManagement.LoadedKeysMembership` | src/DicomManager.cpp:46-116 | A path is stored by a load exactly when it is `patientPath / name` for a requested name, is a directory, and holds at least one valid frame. |
| `DicomManagement.StoredFrameIsValid` | src/DicomManager.cpp:99-115 | Every frame in a stored series passed every ingestion check: it never lacks any of the six tags. |
| `DicomManagement.ZLeqIsTotalPreorder` | src/DicomManager.cpp:134-136 | The comparison on the position's third component is a valid ordering for the sort. |
| `DicomManagement.TimepointSpec` | src/DicomManager.cpp:127-132 | The timepoint set has one frame per series long enough for the index. A frame is in it exactly when it is at that index in some stored series. It is empty exactly when the index is negative or no series is long enough. |
| `DicomManagement.DicomManager.constructor` | src/DicomManager.cpp:16 | A new index is empty. |
| `DicomManagement.DicomManager.Clear` | src/DicomManager.cpp:20-22 | Clearing empties the index. |
| `DicomManagement.DicomManager.DiscoverSeries` | src/DicomManager.cpp:25-40 | A path that does not exist or is not a directory gives no names. Otherwise the result is exactly the directory's subdirectory names (as a multiset), sorted lexicographically. |
| `DicomManagement.DicomManager.LoadSelectedSeries` | src/DicomManager.cpp:43-120 | After a load, the stored keys are exactly the requested series paths that yielded a frame, and nothing else remains. Each stored series is that directory's valid frames, sorted by instance number. The result is true exactly when something was stored. |
| `DicomManagement.DicomManager.GetFramesForTimepoint` | src/DicomManager.cpp:123-138 | The result is the timepoint set (as a multiset), ordered by ascending through-plane position. |
| `DicomManagement.DicomManager.GetNumberOfFrames` | src/DicomManager.cpp:141-152 | The result is 0 for an empty index. Otherwise it is the length of a longest stored series: no series is longer and some series has that length. |
| `Optional.PresentSpec` | src/VtkManager.cpp:211-215 | Keeping only the actors that were created drops entries and never adds any: a contour is kept exactly when some entry produced it. |
| `VtkScene.CrossOrthogonal` | src/VtkManager.cpp:71 | The cross product is orthogonal to both of its factors. |
| `VtkScene.EigenConstruction` | src/VtkManager.cpp:74-78 | Writing the four columns into the identity gives the transform: columns row, col, row × col, position, and the bottom row 0, 0, 0, 1. |
| `VtkScene.TransformColumns` | src/VtkManager.cpp:64-78 | Entry by entry, the top three entries of columns 0, 1, 2 and 3 are the row cosines, the column cosines, the normal and the position. Its bottom row is 0, 0, 0, 1, and the normal is orthogonal to both cosine vectors. |
| `VtkScene.CreateTransformMatrix` | src/VtkManager.cpp:62-88 | The matrix returned is a new 4×4 matrix equal, element by element, to the transform. |
| `VtkScene.CopiedMatrix` | src/VtkManager.cpp:81-86 | A 4×4 matrix that agrees with the transform on all 16 elements is the transform. |
| `VtkScene.ContourRejected` | src/VtkManager.cpp:93-112 | A frame gets no contour if and only if its contour path is empty, the array is not 2-D, its first dimension is not 2, or it has fewer than 2 points. |
| `VtkScene.ContourClosed` | src/VtkManager.cpp:126-149 | An accepted contour of N points has N points and one cell of declared size N + 1. The cell holds 0, 1, …, N − 1 and then 0 again, so it is closed. |
| `VtkScene.ContourPointPosition` | src/VtkManager.cpp:122-144 | Point i takes x from element i and y from element N + i. It lies at position + (x · column spacing) · row cosines + (y · row spacing) · column cosines, which is in the image plane. |
| `VtkScene.ContourPointsIndex` | src/VtkManager.cpp:129-146 | Each point of the contour is the transformed local point of its pixel pair. |
| `VtkScene.MultiplyPlanePoint` | src/VtkManager.cpp:139-141 | Multiplying (a, b, 0, 1) by a matrix whose columns are r, c, ·, pos gives pos + a·r + b·c. |
| `VtkScene.WorldPointPosition` | src/VtkManager.cpp:135-141 | A pixel (x, y) maps to position + (x · column spacing) · row + (y · row spacing) · col, a point of the image plane. |
| `VtkScene.CreateContourActor` | src/VtkManager.cpp:91-168 | The contour actor built is the frame's contour: none when the path is empty or the array is rejected, otherwise the closed polyline of all N transformed points. |
| `VtkScene.CreateSliceActor` | src/VtkManager.cpp:191-203 | The slice actor shows the frame's image, with the frame's transform as user matrix and scale (column spacing, row spacing, 1). |
| `VtkScene.ContoursOfSpec` | src/VtkManager.cpp:178-216 | A scene never has more contours than frames. A contour is in the scene exactly when some frame's contour is that contour. |
| `VtkScene.Clamp` | src/VtkManager.cpp:223 | The clamped value lies in [0, 1]. It equals the input inside that range, is 0 below it and 1 above it. |
| `VtkScene.ClampIdempotent` | src/VtkManager.cpp:223 | Clamping twice is clamping once. |
| `VtkScene.VtkManager.constructor` | src/VtkManager.cpp:30-42 | A new scene has no actors and slice opacity 0.7. |
| `VtkScene.VtkManager.CreateScene` | src/VtkManager.cpp:171-217 | The previous actors are discarded. Afterwards there is one slice actor per frame, in frame order, and the contour actors are, in frame order, the contours of the frames that have one. The opacity is unchanged. |
| `VtkScene.VtkManager.SetSliceOpacity` | src/VtkManager.cpp:220-231 | The opacity becomes the clamped value and stays in [0, 1]. The actor lists are unchanged. |

## Left out

- The DICOM decoder (DCMTK `loadFile` and tag lookups), `cnpy::npy_load` and the `std::filesystem` queries are oracles, given as inputs: `Decoder`, `NpyFiles` and `FileSystem`.
- The order `directory_iterator` yields entries in is part of the `FileSystem` input. The standard leaves it unspecified.
- Paths use '/' as the only separator. Root names, repeated or trailing separators, an empty parent (in C++17 `path("") / name` is `name`, while the model's `Join` gives `"/" + name`) and normalisation are not modelled.
- Series names and directory entries are taken to be single path components, with no '/'. Under that assumption the `filename()` of a listed entry (src/DicomManager.cpp:35) is the listed name itself, which is what discovery records.
- `double` is modelled as `real`: no rounding, NaN or infinities.
- `sscanf` is modelled by the components of the tag text that parse, in order. The text itself and the `sscanf` return value are not modelled.
- When the Rows or Columns tag is missing, `rows` or `cols` is copied into the record without having been set by the lookup (src/DicomManager.cpp:92-96). The value written is never observed, because the record is discarded, so the model never builds it.
- The stability of `std::sort` is not claimed: frames with equal sort keys may come out in any order. The postconditions say sorted and a permutation of the input, no more.
- Error messages on standard error are not modelled.
- `std::filesystem` errors are not modelled. On an unreadable directory, `directory_iterator` and the throwing `exists`/`is_directory` raise `filesystem_error` (src/DicomManager.cpp:27, 33, 49, 54), and nothing catches it. The `FileSystem` input always answers.
- `std::string` holds bytes, while the model's `string` is a sequence of Unicode characters. `LexLeq` agrees with the byte order of `std::string::operator<` only for names that are valid UTF-8 text.
- `DicomManagement.DicomManager.GetNumberOfFrames`: the `static_cast<int>` of a `size_t` larger than `INT_MAX` is not modelled. The model returns the exact length, because series lengths are bounded by directory sizes far below that limit.
- `VtkScene.CreateContourActor`: it requires that the contour path is empty or is one `npy_load` reads. A file that fails to load throws in `cnpy`, and that exception is not modelled.
- `VtkScene.VtkManager.CreateScene`: for the same reason, it requires every frame's contour path to be empty or loadable.
- The `.npy` element type, word size and Fortran order are not modelled. The data is taken as doubles in storage order.
- Rendering is not modelled:
  - the renderer and its view props (`RemoveAllViewProps`, `AddViewProp`);
  - `vtkDICOMImageReader` and the vertical `vtkImageFlip` of each slice;
  - mappers, colours and line width;
  - the camera, `setup`, `resetCamera` and `Render`.
- A slice actor is represented by its image path, user matrix and scale. A contour actor is represented by its polyline.
- The image property is represented by its opacity field alone. Color window 1000, color level 500 and linear interpolation are set once in the constructor and never read.
- `setSliceOpacity` checks the image property for null. The constructor always sets it, so the check always passes and is not modelled.
- The destructors do nothing in the source and are not modelled.
