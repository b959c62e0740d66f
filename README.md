# Face-mask entrance processor

A model of `EntranceProcessor`, the face-mask post-processing addon of a
video-analytics pipeline. For one frame's detections (parallel sequences of
boxes and class labels) it publishes the triple
`(people_on_frame, masks_on, num_face_masks)` under `"entrance_check"` in the
inference's `extra` map:

- `num_face_masks` counts every detection labelled "mask on", whatever its size;
- `people_on_frame` is true when some box's area strictly exceeds
  `mask_threshold * width * height`;
- `masks_on` is false when some such close box is labelled "mask off".

For each close unmasked face the processor also asks `cross_entrance` whether
the box centre lies past the entrance line (a four-way table on the camera
direction and the line position) and counts the crossings, but that count is
never published.

Files:

- `structs.dfy` (module `Structs`): boxes, frame shape, the published triple,
  and the `Inference` / `AddonObject` classes whose `extra` map the processor
  writes.
- `processor.dfy` (module `FaceMask`): the `EntranceProcessor` class with its
  configuration as constant fields, `CrossEntrance` (pure), the `PostProcess`
  method (the loop over the detections, updating the `extra` map in place), the
  specification fold `Scan` over the four accumulators, and the lemmas.

Modelling decisions:

- Coordinates, thresholds and the line position are exact `real`s; frame width
  and height are `int`s the callers keep positive (a frame's shape).
- The loop walks `zip(boxes, classes)`, so it stops at the shorter sequence;
  the model does the same instead of demanding equal lengths.
- The direction string is parsed once into `Up | Down | Left | Right | Other`;
  `Other` never reports a crossing, as the source's fall-through does.
- `CrossEntrance` computes with the source's divisions; its contract states the
  same rules in pixels (twice the centre against twice the line position
  times the frame size), which is what makes the comparisons checkable.
- The crossing tally `no_mask_entrance` is kept in the loop and in the
  specification, and `PublishedIgnoresDirectionAndLine` shows that it never
  reaches the result.
- The comment inside the loop suggests stopping early; the code does not stop,
  and the model walks every pair (stopping would lose mask-on detections from
  `num_face_masks`).
- The code reads `camera_direction`, `mask_threshold` and `line_border` from
  the addon configuration only (processor.py:16-18), and the class ids from
  the model configuration (processor.py:19-20).

## Model

| member | source | states |
|---|---|---|
| FaceMask.ParseDirection | vsdkx/addon/facemask/processor.py:86-98 | exactly the strings "up", "down", "left", "right" select a rule; any other string is kept as an unrecognised direction |
| FaceMask.EntranceProcessor.constructor | vsdkx/addon/facemask/processor.py:12-20 | direction, threshold and line come from the addon configuration, the two class ids from the model configuration, fixed afterwards |
| FaceMask.EntranceProcessor.CrossEntrance | vsdkx/addon/facemask/processor.py:72-98 | up/left: crossed iff the centre lies strictly before (1 - line) of the height/width; down/right: iff strictly beyond line of it; any other direction: never crossed |
| FaceMask.CentreBefore | vsdkx/addon/facemask/processor.py:84-87 | a centre compared as a fraction of a positive frame size is strictly before a bound iff it is strictly before the bound in pixels |
| FaceMask.EntranceProcessor.PostProcess | vsdkx/addon/facemask/processor.py:22-70 | returns the same object; only `extra["entrance_check"]` changes (boxes, classes and other keys kept); the stored triple counts mask-on labels, is present iff some box exceeds the area threshold, and has masks on iff no such box is mask-off |
| FaceMask.EntranceProcessor.ScanCountsMaskOn | vsdkx/addon/facemask/processor.py:41-47 | num_face_masks equals the number of "mask on" labels among the pairs seen, whatever the box sizes |
| FaceMask.EntranceProcessor.ScanPeopleOnFrame | vsdkx/addon/facemask/processor.py:37-54 | people_on_frame holds iff some box's area strictly exceeds threshold times frame area; false for no detections |
| FaceMask.EntranceProcessor.ScanMasksOn | vsdkx/addon/facemask/processor.py:36-60 | masks_on holds iff no box both exceeds the area threshold and is labelled "mask off"; true for no detections |
| FaceMask.EntranceProcessor.NoPeopleMeansMasksOn | vsdkx/addon/facemask/processor.py:50-60 | when nobody is close to the camera, masks_on is true |
| FaceMask.EntranceProcessor.NoMaskEntranceBounds | vsdkx/addon/facemask/processor.py:59-66 | the crossing count equals the number of close "mask off" boxes whose centre crossed the entrance line; hence at most the number of pairs, zero while masks_on holds, zero for an unrecognised direction |
| FaceMask.EntranceProcessor.ScanPrefix | vsdkx/addon/facemask/processor.py:41-42 | the pass depends only on the pairs it has visited |
| FaceMask.EntranceProcessor.AddSmallMaskedFace | vsdkx/addon/facemask/processor.py:43-54 | appending a below-threshold "mask on" detection raises num_face_masks by one and keeps presence and masks_on |
| FaceMask.PublishedIgnoresDirectionAndLine | vsdkx/addon/facemask/processor.py:63-69 | two processors with the same threshold and class ids publish the same triple whatever their direction and line: the crossing count is not surfaced |
| FaceMask.UpMirrorsDown | vsdkx/addon/facemask/processor.py:86-91 | a box crosses an "up" line iff its top-to-bottom reflection crosses a "down" line at the same position |
| FaceMask.LeftMirrorsRight | vsdkx/addon/facemask/processor.py:92-97 | a box crosses a "left" line iff its left-to-right reflection crosses a "right" line at the same position |
| FaceMask.EntranceProcessor.CrossEntranceTestBoxes | tests/test_addon.py:20-66 | with a 640 x 640 frame and line 0.08: the inner box crosses for every direction, the top-left box not for down/right, the bottom-right box not for up/left |
| FaceMask.EntranceProcessor.PostProcessTestFrame | tests/test_addon.py:68-94 | on the test frame the published triple is (true, false, 2) and the unpublished crossing count is 1 |

## Left out

- The addon base class and its constructor chain, the model settings and
  drawing configuration it receives, and the shared-data map of the addon
  object: the processor does not use them.
- The configuration dictionaries are records, so a missing key (a `KeyError`
  at construction) is not modelled.
- The frame's pixel data: only its shape (height, width) is used.
- Floating-point rounding in the area threshold and in the centre divisions:
  arithmetic is exact over the reals.
- Non-positive frame dimensions are excluded by precondition; the source would
  divide by zero in `cross_entrance` for such a frame.
- Idempotence of the evaluation is immediate, since `Evaluate` is a function of
  its inputs; `PostProcess` run twice stores the same triple again.
