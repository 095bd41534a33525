# A verified model of the layered-image data pipeline

This project models the data-preparation core of a layered-image dataset
library (`datautils.py`). A layered document (a PSD file) is turned into
per-layer RGBA images. Those become normalised float tensors packed into a
fixed-size stack with one-hot blend-mode rows, and a compositor blends the
stack back into one image. Beside this chain sit the alignment logic that
decides a perspective transform between successive document versions, and a
few dataset helpers.

The model has one Dafny module per stage:

| module | file | models |
|---|---|---|
| `Pixels` | pixels.dfy | pixels, blend modes, the `Result`/`Error` of the loader, order-preserving selection |
| `Extraction` | extraction.dfy | `psd2pil` and `pad_to_canvas`: canvas padding, skipping of empty layers, clip children after their parent |
| `Assembly` | assembly.dfy | `pil2tensor` on mutable `array<Px>` buffers: opacity scaling, clip resolution, content filter, occlusion removal |
| `Filters` | filters.dfy | `drop_full_post_filter` and `default_post_filter` |
| `Packing` | packing.dfy | `BLEND_DICT`, the random-drop loop, padding and one-hot rows of `load_pkl_data` |
| `Compositing` | compositing.dfy | `LinearComposite` per pixel, over exact reals |
| `Matrix` | matrix.dfy | 3×3 products and the squared distance to the identity |
| `Alignment` | alignment.dfy | `iou` and the decision logic of `dataset_psd2pkl_worker` |
| `Dataset` | dataset.dfy | `load_pkl_data`, `load_preview_data`, the file list, the group-end scan of `__getitem__`, `normalize_img`/`denormalize_img` |

How the model is built:

- Pure code is written as functions. Each function gets lemmas that state what it means.
- Code that changes state step by step is written as methods with loops. `pil2tensor` overwrites its buffers in place. `psd2pil` appends to a list. The worker loop threads `M` and the reference image. `LinearComposite` updates `ret` slot by slot. The drop loop deletes entries. The scan advances `cnt`.
- Each method is proved equal to the function that specifies it. For example, `Pil2Tensor` leaves its fresh buffers holding exactly `Assemble(...)`.

Library calls enter as opaque function-valued inputs:

- the PIL and OpenCV resamplers;
- `topil()`;
- `findHomography`, given both grayscale composites and the good matches;
- the corner box of `perspectiveTransform` with `boundingRect`;
- the grayscale composite;
- the file opener.

Where the code and a natural reading of its design differ, the model follows the code:

- **Drop filter.** The 0.95 "near-full" rule can drop only the last layer, because `i > len - 2` holds for the last index only. The 1e-5 rule applies to every layer.
- **Compositing.** `LinearComposite` multiplies RGB by alpha itself (`src * alpha`). Assembly scales only the alpha channel by opacity.
- **Alignment.** A homography is computed only for strictly more than 10 good matches.
- **Transform tolerance.** The warp test in `load_pkl_data` is `norm > 5e-3`. The identity snap in the worker is `norm < 5e-3`. The model compares squared norms against 25/1000000, so both tests meet at equality exactly as in the code.
- **Resampling in `load_pkl_data`.** Only the layers are warped or resized there, never the preview.
- **One-hot rows.** A padding row keeps its PADDING column at 1 next to the NORMAL column it gains. The compositor reads only the first four columns.
- **Empty after filtering.** An empty layer list after filtering is the error `EmptyLayerList`. This is where `np.stack` fails, and also `layer_tensors[0]` when occlusion removal is on.
- **Zero preview mean.** A zero preview mean in the drop filter gives IEEE `inf` or `nan` ratios. These are modelled as their own cases.

## Model

| member | source | states |
|---|---|---|
| Pixels.Zeros | datautils.py:241 | the padding image has `n` pixels, every one transparent black |
| Pixels.SelectSpec | datautils.py:96-101 | selection keeps exactly the flagged elements, in their original order, through an increasing index list |
| Pixels.SelectIsSubsequence | datautils.py:96-101 | a selection is an order-preserving subsequence of its input |
| Pixels.SelectContents | datautils.py:96-100 | selecting buffers and then reading them equals reading them and then selecting; the selected buffers come from the input |
| Pixels.SelectDistinct | datautils.py:96-100 | selecting from distinct buffers gives distinct buffers |
| Pixels.SelectNone | datautils.py:96-101 | when no flag is set, nothing is selected |
| Extraction.PadToCanvas | datautils.py:26-28 | the padded image is canvas-sized and transparent black outside the layer's box |
| Extraction.PadThenCrop | datautils.py:26-28 | padding loses nothing: cropping the padded image back to the box gives the layer's own pixels |
| Extraction.AppendClips | datautils.py:37-42 | the inner loop appends a record for exactly the clips that are non-empty after padding, in order |
| Extraction.Psd2Pil | datautils.py:21-44 | the loop over layers returns exactly `Extract` of the document |
| Extraction.ClipOriginsShape | datautils.py:37-42 | the records appended for clips come from clips of that layer, in increasing clip order |
| Extraction.ClipOriginsSpec | datautils.py:37-42 | each clip record is the padded record of a selected clip; every kept clip of a kept layer gets one |
| Extraction.ClipOriginsRecords | datautils.py:37-42 | every clip record is the record of the clip it comes from, and that clip is selected |
| Extraction.ClipOriginsComplete | datautils.py:37-42 | every clip that is non-empty after padding gets a record |
| Extraction.GroupOriginsSpec | datautils.py:30-42 | one layer yields records for exactly its selected origins (itself if kept, then its kept clips), in emission order, a clip never first |
| Extraction.GroupOriginsRecords | datautils.py:33-42 | a layer's records belong to that layer, are selected, and are the padded records of their sources |
| Extraction.GroupOriginsOrder | datautils.py:36-42 | within one layer the parent comes first and the clips follow in order |
| Extraction.ParentThenClips | datautils.py:36-42 | a parent followed by increasing clips of it is in emission order, and no clip is first |
| Extraction.GroupOriginsComplete | datautils.py:30-42 | every selected origin of a layer has a record in that layer's group |
| Extraction.ExtractFromOrigins | datautils.py:30-44 | record `i` of the result is the padded record of origin `i`; that origin is selected; `isClip` holds iff it is a clip |
| Extraction.OriginsExact | datautils.py:30-44 | an origin has a record iff it is selected: a non-zero-size, non-empty layer, or a non-empty clip of one; records appear by layer, parent before clips |
| Extraction.ClipFollowsParent | datautils.py:35-42 | every clip record comes right after a record of the same layer, so a clip of a skipped layer never appears |
| Extraction.ClipAfterParent | datautils.py:36-42 | in emission order, the record before a clip belongs to the clip's layer |
| Extraction.ExtractRecordsAreCanvas | datautils.py:26-36 | every record image is canvas-sized, not fully transparent, and transparent black outside its source's box |
| Assembly.Unit | datautils.py:53 | `x / 255` lies in [0, 1]; it is 0 iff x is 0 and 1 iff x is 255 |
| Assembly.FloatImage | datautils.py:50-53 | the float image converts every pixel channel by channel |
| Assembly.WithOpacity | datautils.py:55 | alpha scaling applies pixel by pixel |
| Assembly.NormalizedPixel | datautils.py:52-55 | a normalised pixel lies in [0, 1]; RGB is unchanged; alpha is at most the byte alpha; alpha is 0 iff byte alpha or opacity is 0, and 1 iff both are 255 |
| Assembly.UnitProduct | datautils.py:55 | a product of two unit values is at most each factor; it is 0 iff one factor is 0, and 1 iff both are 1 |
| Assembly.KeptIsSelect | datautils.py:51-64 | the layers entering the clip loop are the selection of those passing the survival test |
| Assembly.KeptSpec | datautils.py:51-64 | exactly the non-empty, visible, opacity>0 layers survive, in their original order |
| Assembly.KeptStep | datautils.py:51-64 | one more layer extends the survivors by that layer iff it survives |
| Assembly.ClippedPixel | datautils.py:68-69 | a clipped pixel's alpha is its alpha times the parent's; a zero result clears all channels |
| Assembly.ClipTo | datautils.py:68-69 | clipping applies pixel by pixel against the parent image |
| Assembly.Resolve | datautils.py:60-70 | clip resolution yields one tensor per survivor with its own mode; the current parent is set once any survivor exists |
| Assembly.LastParent | datautils.py:65-66 | the current parent is the last non-clip survivor so far; every later one is a clip |
| Assembly.ResolveCur | datautils.py:65-66 | the current parent is the last non-clip survivor, or the first survivor when only clips came before |
| Assembly.ResolvePrefix | datautils.py:62-70 | the tensors output for a prefix do not change as later layers are processed |
| Assembly.ResolveSnoc | datautils.py:70 | each survivor appends exactly one tensor |
| Assembly.ResolveSpec | datautils.py:62-70 | a non-clip keeps its image; a clip is masked by the last non-clip survivor before it; leading clips (no such parent) are masked by the first survivor |
| Assembly.ResolveLast | datautils.py:62-70 | the newest tensor is the survivor's image, clipped as stated above |
| Assembly.ClipClears | datautils.py:68-69 | a clipped pixel is cleared where its alpha or the parent's alpha is 0, and otherwise only its alpha changes |
| Assembly.Cover | datautils.py:81 | masked pixels are cleared in all channels; the others are untouched |
| Assembly.Mark | datautils.py:83 | the mask grows by exactly the pixels whose alpha is 1 |
| Assembly.Occlude | datautils.py:78-83 | occlusion keeps the number, size and mode of every tensor |
| Assembly.CoveredStep | datautils.py:78-83 | after a layer is visited, the mask holds the pixels covered by that layer or a higher Normal layer |
| Assembly.OccludeSpec | datautils.py:75-83 | a pixel is cleared iff the layer is Normal and the pixel was masked already or some higher Normal layer has alpha exactly 1 there |
| Assembly.OccludeKeepsOtherModes | datautils.py:79-80 | a non-Normal layer is left unchanged |
| Assembly.OccludeKeepsTop | datautils.py:77-83 | the topmost layer is never occluded |
| Assembly.NoMask | datautils.py:77 | the initial mask marks no pixel |
| Assembly.AssembleUnfiltered | datautils.py:47-85 | without filter or occlusion removal, the result is the clip-resolved survivors |
| Assembly.AssembleNothingSurvives | datautils.py:72-76 | with the drop filter or occlusion removal on and no surviving layer, assembly fails with an empty layer list |
| Assembly.AssembleShape | datautils.py:47-85 | assembly fails only with an empty layer list; it returns canvas-sized tensors, no more than the survivors |
| Assembly.SubsequenceShape | datautils.py:72-73 | a filtered list keeps tensor sizes and is no longer than its input |
| Assembly.OcclusionShape | datautils.py:75-83 | occlusion removal fails only on an empty list, and otherwise keeps count and sizes |
| Assembly.ToFloatArray | datautils.py:53 | a fresh buffer holding the float image |
| Assembly.ScaleAlpha | datautils.py:54-55 | the buffer now holds its old contents with alpha scaled by opacity/255 |
| Assembly.ClipLayer | datautils.py:68-69 | the buffer now holds its old image clipped to the parent's old image |
| Assembly.OccludeLayer | datautils.py:81-83 | the buffer is covered by the old mask, and the mask gains the new image's opaque pixels |
| Assembly.OccludeStep | datautils.py:78-83 | the reverse pass over `k+1` layers is the pass over the top one followed by the pass over the rest with the grown mask |
| Assembly.VisitOccluded | datautils.py:78-83 | visiting one layer keeps the invariant of the reverse pass |
| Assembly.RemoveOccluded | datautils.py:75-83 | the buffers now hold `Occlude` of their old contents with an empty start mask |
| Assembly.OccludeLoopEntry | datautils.py:77-78 | the reverse-pass invariant holds before the first layer is visited |
| Assembly.OccludeLoopExit | datautils.py:78-83 | when the reverse pass ends, the buffers hold `Occlude` of the old contents |
| Assembly.FirstPass | datautils.py:51-58 | entry `j` is the normalised layer when it survives, else `None` |
| Assembly.PresentIsKept | datautils.py:51-64 | skipping `None` entries in the clip loop gives exactly the survivors |
| Assembly.NormalizeLayers | datautils.py:51-58 | one fresh buffer per surviving layer, holding its normalised image; `None` for the rest |
| Assembly.NormalizeLayer | datautils.py:52-55 | a fresh buffer holding the layer's normalised image |
| Assembly.ClipInto | datautils.py:65-70 | one clip-loop step appends the layer's buffer and updates state exactly as `ClipStep` |
| Assembly.ListedBuffers | datautils.py:60-70 | the listed buffers are distinct, canvas-sized and from the first pass |
| Assembly.VisitLayer | datautils.py:62-70 | one clip-loop iteration keeps the loop invariant |
| Assembly.VisitPresent | datautils.py:65-70 | processing a present layer keeps the loop invariant |
| Assembly.ClipLoopAfter | datautils.py:65-70 | after one present layer the loop invariant holds again |
| Assembly.PresentStep | datautils.py:62-70 | a present entry extends the survivors by its value and advances `Resolve` by one `ClipStep` |
| Assembly.ResolveClips | datautils.py:60-70 | the clip loop leaves distinct canvas-sized buffers holding `Resolve` of the survivors |
| Assembly.ClipLoopStart | datautils.py:60-61 | the loop invariant holds with an empty list and no current parent |
| Assembly.ClipLoopDone | datautils.py:60-70 | when the loop ends, the listed buffers hold the resolved survivors |
| Assembly.FilterBuffers | datautils.py:72-73 | the filter on buffers agrees with `ApplyFilter` on their contents, and keeps distinct buffers taken from its input |
| Assembly.SelectedBuffers | datautils.py:96-101 | a selection of distinct canvas-sized buffers stays so, and reads as the selection of the values |
| Assembly.OccludeBuffers | datautils.py:75-83 | the in-place occlusion step agrees with `OcclusionStep` on the old contents |
| Assembly.LayerTensors | datautils.py:51-70 | fresh distinct buffers holding the clip-resolved survivors |
| Assembly.AssembleFiltered | datautils.py:72-83 | assembly is the filter's error, or occlusion applied to the filter's result |
| Assembly.FilteredLayers | datautils.py:47-73 | the buffers after the filter hold `ApplyFilter` of the resolved survivors, or the filter's error |
| Assembly.Pil2Tensor | datautils.py:47-85 | returns the float preview, and fresh distinct buffers holding `Assemble`, or the same error |
| Filters.KeepFlags | datautils.py:97-98 | layer `i` is kept iff its ratio is not dropped at position `i` of `n` |
| Filters.DropFullSpec | datautils.py:89-101 | fails iff the list is empty (`np.stack`); otherwise an order-preserving subsequence where layer `i` is dropped iff its ratio is < 1e-5, or it is the last layer and its ratio is > 0.95 |
| Filters.ApplyFilter | datautils.py:89-105 | the default filter is the identity; any result is a subsequence of the input; only the drop filter on an empty list fails |
| Filters.DropFullPostFilterOf | datautils.py:89-101 | on buffers, the filter selects exactly the slots `KeepFlags` keeps, or fails on an empty list |
| Packing.BlendIndex | datautils.py:129-135 | five columns; NORMAL is 0, padding is 4; a mode outside the table has no column |
| Packing.BlendIndexInjective | datautils.py:129-135 | distinct tags have distinct columns |
| Packing.OneHotSpec | datautils.py:246-247 | a real row has a single 1, at the mode's column; a padding row has 1 at NORMAL and PADDING; the first four columns sum to 1 |
| Packing.RandomDrop | datautils.py:233-236 | the drop loop leaves `min(n, max_layers)` paired entries forming an order-preserving subsequence; nothing is dropped when `n <= max_layers` |
| Packing.DeleteEmbeds | datautils.py:234-236 | deleting one paired entry keeps an order-preserving subsequence |
| Packing.FirstUnknown | datautils.py:239 | names the first mode without a column, or none if every mode has one |
| Packing.PackErrors | datautils.py:237-239 | an empty stack fails as `np.stack` does; otherwise packing fails iff some mode has no column, and names the first such mode |
| Packing.PackSpec | datautils.py:237-247 | the packed stack has `max(n, max_layers)` slots; zero images with padding rows come first, then the images in order with their rows |
| Compositing.Clamp01 | datautils.py:450 | the clamped value lies in [0, 1], and in-range values are unchanged |
| Compositing.BlendLayer | datautils.py:443-453 | one slot blends every pixel independently with its weighted sum |
| Compositing.Background | datautils.py:442 | every pixel of the start image is the background value |
| Compositing.LinearComposite | datautils.py:437-454 | the loop returns the composite of all slots, bottom first, over the background |
| Compositing.CompositeAt | datautils.py:443-453 | each output pixel depends only on the slots' pixels at that position |
| Compositing.CompositeAppend | datautils.py:443-453 | blending a stack in two parts equals blending the top part over the bottom part's result |
| Compositing.TransparentBlendings | datautils.py:446-451 | with alpha 0, normal, multiply and screen give the base back; linear dodge gives the clamped base |
| Compositing.ChannelNoOp | datautils.py:446-453 | a transparent source leaves a channel unchanged when the four weights sum to 1 |
| Compositing.TransparentNoOp | datautils.py:446-453 | a transparent slot whose first four weights sum to 1 leaves the pixel unchanged |
| Compositing.OpaqueNormal | datautils.py:446-453 | an opaque NORMAL slot sets the pixel to its RGB |
| Compositing.PaddingNoOp | datautils.py:443-453 | padding slots leave any start image unchanged, so an all-padding stack gives the background |
| Matrix.MulIdentity | datautils.py:405 | the identity is neutral on both sides of the product |
| Matrix.DistSqToI | datautils.py:406 | the squared distance to the identity is non-negative |
| Matrix.DistSqToIOfI | datautils.py:406-407 | the identity is within the snap tolerance |
| Alignment.Insert | datautils.py:349 | insertion adds exactly one element |
| Alignment.InsertDescending | datautils.py:349 | inserting into a descending list keeps it descending |
| Alignment.NewestFirstSpec | datautils.py:349 | the file numbers are in descending order and form a permutation of the input |
| Alignment.GoodSpec | datautils.py:391-394 | the good matches are, in order, the best matches of exactly the pairs passing the ratio test |
| Alignment.RatioTest | datautils.py:391-394 | the loop collects exactly `Good` |
| Alignment.ToBox | datautils.py:413-416 | an `(x, y, w, h)` rectangle becomes the corner box with the same origin, width and height |
| Alignment.Overlap | datautils.py:333 | the overlap is non-negative; it is zero iff the interval is empty, else `hi - lo` |
| Alignment.OverlapWithin | datautils.py:328-333 | a positive overlap is no wider than either interval |
| Alignment.InterWithin | datautils.py:333-337 | a non-zero intersection area is positive and at most the first box's area |
| Alignment.InterSymmetric | datautils.py:328-333 | the intersection area does not depend on argument order |
| Alignment.InterBounds | datautils.py:333-338 | a non-zero intersection is at most each box's area |
| Alignment.IouRange | datautils.py:327-342 | IoU lies in [0, 1], and is positive iff the boxes overlap |
| Alignment.IouDisjoint | datautils.py:327-335 | separated boxes have IoU 0 |
| Alignment.IouSymmetric | datautils.py:327-342 | IoU does not depend on argument order |
| Alignment.IouSelf | datautils.py:327-342 | a proper box has IoU 1 with itself |
| Alignment.Perspective | datautils.py:396-403 | the perspective is the identity unless strictly more than 10 matches are good, else the homography computed from both grayscale composites and the good matches |
| Alignment.AccumulateSpec | datautils.py:405-418 | the new transform is `M·perspective` or `I`; it is `I` iff `M·perspective` is within tolerance of `I` or its frame's IoU is < 0.5 |
| Alignment.FewMatchesKeep | datautils.py:396-407 | with 10 or fewer good matches, the transform stays `M` or snaps to `I` |
| Alignment.ChainPlausible | datautils.py:368-422 | every transform the loop writes is `I`, or far from `I` with its frame's IoU at least 0.5 |
| Alignment.WorkerStep | datautils.py:368-423 | one loop step writes the record computed from the carried `M` and reference image |
| Alignment.Worker | datautils.py:345-427 | the worker writes exactly `Records` of the newest-first order, and nothing for no files |
| Alignment.RecordsSpec | datautils.py:349-423 | the newest file is written with `I`; every file gets its own number and the newest file's size; every later transform is `I` or plausible |
| Alignment.RecordsFields | datautils.py:349-361 | record numbers follow the order; the finishing size is the reference's; the first transform is `I` |
| Alignment.RecordsPlausible | datautils.py:368-422 | every transform after the first is `I` or plausible for its frame |
| Dataset.ChoiceSpec | datautils.py:213-223 | an identity transform is never warped; a sample at its finishing size is never resized; warping happens iff asked and the distance exceeds the tolerance; warping or resizing reaches the finishing size |
| Dataset.ResampledSpec | datautils.py:213-223 | resampling gives layers of the target size and keeps name, opacity, visibility, mode and clip flag |
| Dataset.ResampleLayers | datautils.py:214-223 | the loop produces exactly `ResampledLayers` |
| Dataset.Unzip | datautils.py:229-232 | the two lists are the images and modes of the assembled tensors, all of one size |
| Dataset.PairedUniform | datautils.py:233-237 | a paired subsequence of same-sized images has images of that size |
| Dataset.AssembleLists | datautils.py:228-232 | the unzipped lists are those of `Assemble`, or its error |
| Dataset.LoadLists | datautils.py:208-232 | after resampling, the lists are those of `Loaded`, or its error |
| Dataset.LoadPklData | datautils.py:208-248 | the count is the raw layer count; an assembly error passes through; otherwise `min(n, max_layers)` entries, paired in order, are packed |
| Dataset.LoadedStack | datautils.py:233-248 | a packed stack has exactly `max_layers` slots; packing fails only with an empty list or an unknown mode, and a non-empty list only with an unknown mode |
| Dataset.LoadPreviewSpec | datautils.py:250-271 | the preview has the target size, matching the pipeline's layers; every pixel is the resampled pixel's RGB over 255, in [0, 1] |
| Dataset.DenormalizeImg | datautils.py:278-279 | maps [-1, 1] into [0, 255] |
| Dataset.NormalizeImg | datautils.py:274-279 | maps [0, 1] into [-1, 1]; denormalising gives back 255·x |
| Dataset.NormalizeImage | datautils.py:306-307 | normalises every pixel |
| Dataset.NormalizedPreviewRange | datautils.py:270-275 | a normalised preview has every channel in [-1, 1] |
| Dataset.DirPaths | datautils.py:204-206 | a sample directory lists `0.pkl` … `(n-1).pkl` under its name |
| Dataset.NameAbsent | datautils.py:204-206 | a name of no directory appears in no path |
| Dataset.PathsSplit | datautils.py:204-206 | the path list is the first directory's paths, then the rest, which never carry the first name |
| Dataset.LastOfGroup | datautils.py:294-297 | the scan stops at the last path, from `idx` on, that shares `idx`'s sample |
| Dataset.RunEndInFirst | datautils.py:294-298 | inside the first directory, the scan ends at that sample's largest index |
| Dataset.RunEndShift | datautils.py:294-298 | a scan past the first directory is the same scan over the remaining directories |
| Dataset.RunEndIsLast | datautils.py:294-298 | on the constructor's path list, the scan ends at the largest index of the sample |
| Dataset.GetItem | datautils.py:291-308 | returns the normalised previews of `idx` and of the last path of its sample |

## Left out

- Pickle, PNG and file I/O are not modelled: `image_to_byte_array`, `load_from_pickle`, `psd2pickle`, `os.remove` and `os.listdir`. The worker's output is the sequence of records it would write. A sample is passed in as a value.
- `PSDPickleDataset.__init__` appears only as the path list built from given sample directories (`Dataset.Paths`). Directory listing is I/O. Its names are assumed distinct (`DistinctNames`), as entries of one directory are.
- `dataset_psd2pkl` and its process pool are left out, because they are concurrency.
- These library calls are opaque function inputs:
  - SIFT, FLANN `knnMatch` and RANSAC `findHomography`;
  - `perspectiveTransform` with `boundingRect`;
  - `warpPerspective`, PIL `resize` and `topil()`;
  - the grayscale composite.
- The resamplers are assumed to return images of the requested size (`Sizing`).
- Match lists are pairs, so a `knnMatch` entry with fewer than two neighbours is not modelled.
- `findHomography` is modelled as total: it always returns a matrix. When RANSAC finds no model it returns `None`, and `M @ perspective` then raises (datautils.py:400, 405). The model has no worker error for this case.
- Keypoint matching is modelled as always succeeding. For a composite without keypoints, `detectAndCompute` returns `des=None`, and `flann.knnMatch` then raises (datautils.py:380-388). The model has no worker error for this case.
- Every layer and preview image is RGBA. The `shape[2] > 3` guards (datautils.py:54, 82) are always taken in the model. A 3-channel layer would get no opacity scaling and mark no mask pixel. A 3-channel preview would make `preview[:, :, 3]` raise in the drop filter (datautils.py:94). None of these 3-channel cases is modelled.
- File names reach the worker as their numeric prefixes. `int()` parsing and `'%d.psd'` formatting are not modelled.
- `PSDBasicAugmentation.roll`/`apply` and the `self.transform` calls are left out, because they are random sampling plus geometric resampling. Samples are loaded as with `transform=None`.
- float32 rounding, uint8 truncation after warping, and tensor shape plumbing (`view`, `transpose`, the batch dimension) are not modelled. Channel values are exact reals, and `LinearComposite` blends one batch element.
- `pil2tensor` and `load_pkl_data` accept only the two built-in filters, `default_post_filter` and `drop_full_post_filter`. An arbitrary filter callable is not modelled.
- `Filters.DropFull` requires a non-empty preview. `np.mean` of an empty array is a NaN warning, which the model does not follow.
- `Assembly.Assemble` requires every layer image to have the canvas size (`SameSize`), like the record invariant of extraction. Layers of other sizes would make numpy broadcasting fail.
- `Compositing.LinearComposite`: the result is not proved to stay in [0, 1]. With arbitrary one-hot weights it need not.
- `Alignment.Records` states the written transforms. It does not state the effect of `delete_psd`.
- `Dataset.LoadPklData` returns the kept images and modes as ghost outputs. Only the packed result and the count are values.
- `Dataset.GetItem` returns the scan's end index `cnt` as a ghost output. The previews are real outputs.
- `Packing.RandomDrop` picks its index nondeterministically. It does not model the uniform distribution of `random.randint`.
- `test_loader` is left out, because it is commented out.
