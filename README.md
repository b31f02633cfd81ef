# RAW ingestion and directory navigation of an image viewer, in Dafny

This project models the two pieces of sequential logic in a desktop image viewer. It proves properties about both.

- **The loader** (`src/loader.rs`):
  - `load_image` picks a decoder from the lowercased file extension: the RAW path for nef, cr2, dng and arw, the standard image decoder otherwise.
  - `load_raw` rejects non-integer RAW payloads, records Make and Model in the metadata map, demosaics the mosaic and wraps the bytes as an RGB image.
  - `demosaic_bilinear` visits every interior pixel of a Bayer mosaic. It estimates (r, g, b) from the site's sample and from means of two or four neighbours, then writes three conditioned bytes into a zero-filled buffer.
- **The navigator** (`src/navigator.rs`) holds the current path and a sorted list of the image files in its directory:
  - `update_file_list` rebuilds that list when the directory changes;
  - `get_next_image` and `get_prev_image` step through the list.

Modules:

- **`Wrappers`** (`wrappers.dfy`): `Option` and `Result`.
- **`Paths`** (`paths.dfy`): paths as sequences of components.
  - It covers `parent`, `file_name` and `extension` as the Rust standard library defines them.
  - It also covers the component-wise order that `Vec<PathBuf>::sort` uses, with proofs that the order is total, antisymmetric and transitive.
- **`Demosaic`** (`demosaic.dfy`): the per-site estimate `Estimate`, the whole output buffer as the function `Demosaiced`, and the imperative `DemosaicBilinear`.
  - `DemosaicBilinear` runs the nested loops over a `byte` array. It is proved to produce exactly `Demosaiced`.
  - Lemmas about `Estimate` and `Demosaiced` state the neighbour table and the R/B mirror between RGGB and BGGR. They also cover grey output for unknown patterns, the bounds of every estimate, the byte layout, disjoint writes and the black border.
- **`Loader`** (`loader.dfy`): `LoadImage`, `LoadRaw` (methods, with the decoders as parameters), their specification `RawLoadSpec`, and `LoadStandard`.
- **`Navigation`** (`navigator.dfy`):
  - the class `Navigator`, with fields `currentPath` and `imageList`;
  - the lookups `NextImage` and `PrevImage`, on which `GetNextImage` and `GetPrevImage` are built;
  - the in-place insertion sort `SortPaths`, which stands for `list.sort()`;
  - `NavigationScenario`, which replays the navigation test of `src/navigator.rs`.

Inputs the model takes as parameters:

- **The RAW decoder and the standard decoder:** functions from a path to a `Result`. Each `Err` carries the error's text.
- **The elapsed load time:** a number, `elapsed`.
- **The directory listing:** the sequence of `(path, isFile)` entries that `read_dir` yields, or `None` when the directory cannot be read.
- **The per-channel floating-point conditioning:** a `ToneCurve` function from a channel's calibration and the exact estimate to a byte. This covers black-level subtraction, range normalisation, white-balance gain, the 1/2.2 power and the capped cast.

The source has no colour-matrix step and no EXIF orientation step, and `load_standard` leaves EXIF extraction as a TODO and returns an empty metadata map (src/loader.rs:38-42). The model has none of them either.

## Model

| member | source | states |
|---|---|---|
| Loader.LoadImage | src/loader.rs:14-33 | The RAW path is taken exactly when the lowercased extension is nef, cr2, dng or arw; any other extension, or none, takes the standard path; success carries the decoder's image, its metadata and the elapsed time, failure passes the error through |
| Loader.DispatchByFileName | src/loader.rs:16-24 | For a file stem.ext, the RAW path is chosen if and only if ext, lowercased, is one of the four RAW extensions |
| Loader.UpperCaseRawExtension | src/loader.rs:16-22 | "DSC_0001.NEF" takes the RAW path: the match ignores case |
| Loader.DotFileIsStandard | src/loader.rs:16-23 | ".nef" has no extension, so it takes the standard path |
| Loader.LastExtensionDecides | src/loader.rs:16-23 | "photo.nef.jpg" takes the standard path: only the last extension counts |
| Loader.LoadStandard | src/loader.rs:35-43 | Succeeds exactly when the decoder does, with the decoder's image and an empty metadata map; otherwise returns the decoder's error |
| Loader.RawLoadSpec | src/loader.rs:45-77 | Succeeds iff decoding succeeds with an integer payload; the decoder's error passes through; a floating-point payload gives "Unsupported raw data format"; on success the metadata is exactly {Make, Model} from the decoder and the image is the demosaiced buffer with the `as u32` dimensions |
| Loader.LoadRaw | src/loader.rs:45-77 | Produces exactly RawLoadSpec of the decoder's outcome |
| Demosaic.DemosaicBilinear | src/loader.rs:79-195 | The nested loop over interior pixels fills a zeroed width*height*3 buffer with exactly Demosaiced of the mosaic and calibration |
| Demosaic.WritePixel | src/loader.rs:116-191 | Writing the conditioned estimate of interior pixel (x, y) to its three bytes extends the filled region by that pixel, leaving every other byte as it was |
| Demosaic.Demosaiced | src/loader.rs:88 | The output holds width*height*3 bytes |
| Demosaic.InteriorReadsInBounds | src/loader.rs:106-115 | At an interior pixel every neighbour read by `get` lies inside the frame, its row-major index is within the samples, and `get` returns that sample instead of the 0 fallback |
| Demosaic.EstimateFollowsTable | src/loader.rs:120-174 | For RGGB and BGGR, each channel estimate is the mean of the samples at the taps the neighbour table prescribes for the site's tile cell |
| Demosaic.Taps | src/loader.rs:121-172 | The table reads 1, 2 or 4 samples per channel, all within one pixel of the site |
| Demosaic.ShapeMeans | src/loader.rs:123-143 | The site, orthogonal, diagonal, horizontal and vertical tap shapes average the same samples the source sums and divides |
| Demosaic.EstimateWithinReadSamples | src/loader.rs:121-173 | Every Bayer estimate lies between any lower and upper bound of the samples it reads |
| Demosaic.EstimateInSampleRange | src/loader.rs:120-179 | For every pattern, every channel estimate lies within 0..65535 |
| Demosaic.BggrMirrorsRggb | src/loader.rs:121-173 | At every site the BGGR estimate equals the RGGB estimate of the same samples with r and b exchanged |
| Demosaic.UnknownPatternIsGrey | src/loader.rs:175-178 | Any other pattern name gives (v, v, v), where v is the site's own sample |
| Demosaic.UnknownPatternGreyPixels | src/loader.rs:175-191 | With equal calibration on the three channels, an unknown pattern writes three equal bytes for every interior pixel |
| Demosaic.PureBlueRggb | src/loader.rs:140-145 | In a 4x4 RGGB mosaic whose only non-zero samples sit at the blue sites, pixel (1,1) is estimated as (0, 0, 1000) |
| Demosaic.PixelOffset | src/loader.rs:116 | Byte c of pixel (x, y) sits at (y*width+x)*3+c, inside the buffer, and that offset decodes back to (x, y, c) |
| Demosaic.PixelOffsetsDisjoint | src/loader.rs:116-191 | Two different (pixel, channel) pairs never write the same byte, so each byte is written at most once |
| Demosaic.DemosaicedPixel | src/loader.rs:114-191 | Byte c of pixel (x, y) holds the conditioned estimate of channel c when the pixel is interior, and 0 otherwise |
| Demosaic.BorderIsBlack | src/loader.rs:88-115 | Every byte of a pixel on the outer one-pixel ring is 0 |
| Demosaic.NarrowFrameIsBlack | src/loader.rs:88-115 | When width or height is at most 2, every output byte is 0 |
| Paths.Parent | src/navigator.rs:19-22 | A path has no parent iff it is empty or ends at the root; otherwise the parent followed by the last component is the path |
| Paths.NameExtensionSplits | src/navigator.rs:36 | The extension of stem.ext with a non-empty stem and dot-free ext is ext |
| Paths.LowerAscii | src/navigator.rs:36 | The result has the input's length and no upper-case ASCII letter; every upper-case letter becomes the same letter in lower case and every other character is kept |
| Paths.LowerAsciiIdempotent | src/loader.rs:18 | Lowercasing twice is lowercasing once |
| Paths.PathLeTotal | src/navigator.rs:47 | Any two paths are comparable in the order the sort uses |
| Paths.PathLeAntisymmetric | src/navigator.rs:47 | Paths that are each at most the other are equal |
| Paths.PathLeTransitive | src/navigator.rs:47 | The path order is transitive |
| Navigation.Navigator.constructor | src/navigator.rs:9-14 | A new navigator has no current path and an empty list |
| Navigation.Navigator.UpdateFileList | src/navigator.rs:16-50 | The current path becomes the given path in every case; when the path has a parent and the list is empty or its first element lies in another directory, the list becomes a sorted permutation of the listing's image files; otherwise the list is unchanged |
| Navigation.ImageFiles | src/navigator.rs:33-45 | A path is kept if and only if its entry is a file whose lowercased extension is jpg, jpeg, png, nef, cr2, dng or arw |
| Navigation.ListedEntryIsKept | src/navigator.rs:31-48 | Every image file of the listing appears in the rebuilt list |
| Navigation.InsertAt | src/navigator.rs:47 | One insertion step: with the first i paths sorted, the first i+1 end sorted, the contents are a permutation of the old ones, and the paths after position i are untouched |
| Navigation.SortPaths | src/navigator.rs:47 | The array ends sorted ascending and is a permutation of its old contents |
| Navigation.SortedPermutationUnique | src/navigator.rs:47-48 | Two sorted permutations of the same paths are equal, so the rebuilt list is fully determined by the listing |
| Navigation.Position | src/navigator.rs:54 | Finds the first index holding the path, and none exactly when the path is absent |
| Navigation.NextImage | src/navigator.rs:52-61 | The element after the first occurrence of the current path; none if there is no current path, it is absent, or it is last |
| Navigation.PrevImage | src/navigator.rs:63-72 | The element before the first occurrence of the current path; none if there is no current path, it is absent, or it is first |
| Navigation.NextPrevInverse | src/navigator.rs:52-72 | In a list without duplicates, next gives q from p if and only if previous gives p from q |

`Demosaic.Sample` (the `get` closure, src/loader.rs:106-112) and `Demosaic.Estimate` (the per-site match, src/loader.rs:117-179) carry no contract of their own: `InteriorReadsInBounds` specifies `Sample`, and `EstimateFollowsTable`, `ShapeMeans`, `EstimateWithinReadSamples`, `EstimateInSampleRange`, `BggrMirrorsRggb`, `UnknownPatternIsGrey` and `PureBlueRggb` specify `Estimate`.

`Navigator.GetNextImage` and `Navigator.GetPrevImage` are functions that only read the object. So they change no state, and they are `NextImage` and `PrevImage` of the two fields. `NavigationScenario` replays the test at src/navigator.rs:79-107 on a `Navigator` object and asserts each of its six expectations.

## Left out

- Floating-point conditioning (src/loader.rs:181-191) is the parameter `tone`. The model states only that it yields a byte, so no particular byte value, such as 255 for a saturated channel, is proved.
- Demosaic.DemosaicBilinear: requires `height >= 1`, and `width >= 1` unless the frame is at most two rows high. Otherwise `height - 1` or `width - 1` underflows `usize` and the source panics.
- Demosaic.DemosaicBilinear: requires at least 3 entries in each calibration array, which the source indexes unconditionally (src/loader.rs:90-100), and at least width*height samples, which its caller (rawloader's integer payload) always supplies.
- Demosaic.DemosaicBilinear: the usize overflow of `width * height * 3` is not modelled; integers are unbounded.
- Loader.LoadRaw: requires a well-formed decoded image: rawloader's four-entry calibration arrays, and, only for an integer payload that reaches the demosaic loop, the frame and sample conditions of DemosaicBilinear. A floating-point payload of any shape is rejected with its error.
- Loader.RawLoadSpec: `ImageBuffer::from_raw` is modelled by the image crate's documented rule: it accepts a buffer of at least width*height*3 bytes.
- Timing is the parameter `elapsed`. `Instant::now` and `elapsed` read the system clock.
- The RAW decoder (rawloader) and the standard decoder (`image::open`) are parameters. They are foreign libraries that read files.
- EXIF extraction for standard files is not in the source (a TODO), so it is not modelled.
- Paths.LowerAscii: models `to_lowercase` as ASCII lowercasing. It gives the same answer for membership in the extension sets; other Unicode case mappings are not modelled.
- `to_str` failing on a non-UTF-8 extension is not modelled: every name is a string.
- Paths model only root, parent-directory and normal components. Windows prefixes and a leading `.` (CurDir) are not modelled.
- The directory listing is an input. `read_dir` and `is_file` touch the file system, and entries that fail to read (dropped by `flatten()`) are assumed already removed.
- Navigation.SortPaths: an insertion sort stands for `Vec::sort`. Either way the result is the unique sorted permutation, so stability does not matter.
- src/state.rs (GPU, window and camera arithmetic), src/main.rs (event loop and threads) and build.rs (Windows resources) are not part of this model.
