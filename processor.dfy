/** The face-mask entrance processor: for one frame's detections it reports
    whether a face is close to the camera, whether every such face wears a
    mask, and how many faces are classified as masked; for close unmasked faces
    it also checks whether the box centre has crossed the entrance line. */
module FaceMask {
  import opened Structs

  /** The camera direction setting. The configuration gives a string; only
      "up", "down", "left" and "right" select a rule, anything else is kept
      as `Other` and never reports a crossing. */
  datatype Direction = Up | Down | Left | Right | Other(name: string)

  function ParseDirection(s: string): (d: Direction)
    ensures d == Up <==> s == "up"
    ensures d == Down <==> s == "down"
    ensures d == Left <==> s == "left"
    ensures d == Right <==> s == "right"
    ensures d.Other? ==> d.name == s
  {
    if s == "up" then Up
    else if s == "down" then Down
    else if s == "left" then Left
    else if s == "right" then Right
    else Other(s)
  }

  /** The addon-level settings the processor reads. */
  datatype AddonConfig = AddonConfig(cameraDirection: string, maskThreshold: real, lineBorder: real)

  /** The model-level class ids for "mask on" and "mask off". */
  datatype ModelConfig = ModelConfig(maskOn: int, maskOff: int)

  /** The four accumulators of one pass over the detections, in the order the
      pass declares them. */
  datatype Tally = Tally(masksOn: bool, peopleOnFrame: bool, noMaskEntrance: nat, numFaceMasks: nat)

  /** The accumulators before any detection is seen. */
  const Initial: Tally := Tally(true, false, 0, 0)

  /** The part of a tally that is published: the crossing count is dropped. */
  function Published(t: Tally): EntranceCheck
  {
    EntranceCheck(t.peopleOnFrame, t.masksOn, t.numFaceMasks)
  }

  /** Box area as the pass computes it: box height times box width. */
  function Area(box: Box): real
  {
    (box.y2 - box.y1) * (box.x2 - box.x1)
  }

  /** `zip` stops at the shorter of its two sequences. */
  function Min(a: nat, b: nat): nat
  {
    if a <= b then a else b
  }

  /** The box reflected top-to-bottom inside a frame of the given height. */
  function MirrorVertical(box: Box, height: int): Box
  {
    Box(box.x1, height as real - box.y2, box.x2, height as real - box.y1)
  }

  /** The box reflected left-to-right inside a frame of the given width. */
  function MirrorHorizontal(box: Box, width: int): Box
  {
    Box(width as real - box.x2, box.y1, width as real - box.x1, box.y2)
  }

  /** A centre given as a fraction of the frame size lies strictly before
      `bound` exactly when twice the centre lies strictly before twice the
      bound in pixels. */
  lemma CentreBefore(sum: real, size: real, bound: real)
    requires size > 0.0
    ensures (sum / 2.0) / size < bound <==> sum < 2.0 * bound * size
  {
  }

  class EntranceProcessor {
    const direction: Direction
    const maskThreshold: real
    const line: real
    const maskOn: int
    const maskOff: int

    constructor (addonConfig: AddonConfig, modelConfig: ModelConfig)
      ensures direction == ParseDirection(addonConfig.cameraDirection)
      ensures maskThreshold == addonConfig.maskThreshold
      ensures line == addonConfig.lineBorder
      ensures maskOn == modelConfig.maskOn && maskOff == modelConfig.maskOff
    {
      direction := ParseDirection(addonConfig.cameraDirection);
      maskThreshold := addonConfig.maskThreshold;
      line := addonConfig.lineBorder;
      maskOn := modelConfig.maskOn;
      maskOff := modelConfig.maskOff;
    }

    /** A face is "on frame" (close to the camera) when its box area strictly
        exceeds the threshold fraction of the frame area. */
    predicate IsPresent(box: Box, width: int, height: int)
    {
      Area(box) > maskThreshold * (width as real) * (height as real)
    }

    /** Whether the centre of `box` lies past the entrance line. The checks
        compare the centre's fraction of the frame with the line position;
        the contract states them in pixels: for up and left the centre lies
        strictly before pixel (1 - line) * size, for down and right strictly
        beyond pixel line * size. */
    function CrossEntrance(box: Box, width: int, height: int): (crossed: bool)
      requires width > 0 && height > 0
      ensures direction == Up ==>
        (crossed <==> box.y1 + box.y2 < 2.0 * (1.0 - line) * (height as real))
      ensures direction == Down ==>
        (crossed <==> box.y1 + box.y2 > 2.0 * line * (height as real))
      ensures direction == Left ==>
        (crossed <==> box.x1 + box.x2 < 2.0 * (1.0 - line) * (width as real))
      ensures direction == Right ==>
        (crossed <==> box.x1 + box.x2 > 2.0 * line * (width as real))
      ensures direction.Other? ==> !crossed
    {
      var xCenter := (box.x2 + box.x1) / 2.0;
      var yCenter := (box.y2 + box.y1) / 2.0;
      CentreBefore(box.y2 + box.y1, height as real, 1.0 - line);
      CentreBefore(box.x2 + box.x1, width as real, 1.0 - line);
      match direction
      case Up => yCenter / (height as real) < 1.0 - line
      case Down => yCenter / (height as real) > line
      case Left => xCenter / (width as real) < 1.0 - line
      case Right => xCenter / (width as real) > line
      case Other(_) => false
    }

    /** One iteration of the pass over the detections. */
    function Step(t: Tally, box: Box, classId: int, width: int, height: int): Tally
      requires width > 0 && height > 0
    {
      var counted := if classId == maskOn then t.(numFaceMasks := t.numFaceMasks + 1) else t;
      if !IsPresent(box, width, height) then counted
      else if classId != maskOff then counted.(peopleOnFrame := true)
      else
        counted.(peopleOnFrame := true, masksOn := false,
                 noMaskEntrance := counted.noMaskEntrance + if CrossEntrance(box, width, height) then 1 else 0)
    }

    /** The accumulators after the first `n` (box, class) pairs. */
    function Scan(boxes: seq<Box>, classes: seq<int>, width: int, height: int, n: nat): Tally
      requires width > 0 && height > 0
      requires n <= |boxes| && n <= |classes|
    {
      if n == 0 then Initial
      else Step(Scan(boxes, classes, width, height, n - 1), boxes[n - 1], classes[n - 1], width, height)
    }

    /** The triple the processor publishes for one frame. */
    function Evaluate(boxes: seq<Box>, classes: seq<int>, width: int, height: int): EntranceCheck
      requires width > 0 && height > 0
    {
      Published(Scan(boxes, classes, width, height, Min(|boxes|, |classes|)))
    }

    /** Some of the first `n` boxes is close to the camera. */
    ghost predicate AnyPresent(boxes: seq<Box>, n: nat, width: int, height: int)
      requires n <= |boxes|
    {
      exists i :: 0 <= i < n && IsPresent(boxes[i], width, height)
    }

    /** Some of the first `n` detections is close to the camera and unmasked. */
    ghost predicate AnyUnmaskedPresent(boxes: seq<Box>, classes: seq<int>, n: nat, width: int, height: int)
      requires n <= |boxes| && n <= |classes|
    {
      exists i :: 0 <= i < n && IsPresent(boxes[i], width, height) && classes[i] == maskOff
    }

    /** Writes (people_on_frame, masks_on, num_face_masks) for the frame into
        the inference's extra map under "entrance_check" and hands back the
        same object. The pass also counts unmasked close faces that crossed
        the entrance line, but that count is not published. */
    method PostProcess(addonObject: AddonObject) returns (result: AddonObject)
      requires addonObject.frame.height > 0 && addonObject.frame.width > 0
      modifies addonObject.inference`extra
      ensures result == addonObject
      ensures addonObject.inference.boxes == old(addonObject.inference.boxes)
      ensures addonObject.inference.classes == old(addonObject.inference.classes)
      ensures addonObject.inference.extra ==
        old(addonObject.inference.extra)[EntranceCheckKey := EntranceCheckValue(
          Evaluate(addonObject.inference.boxes, addonObject.inference.classes,
                   addonObject.frame.width, addonObject.frame.height))]
      ensures
        var inf, w, h := addonObject.inference, addonObject.frame.width, addonObject.frame.height;
        var n := Min(|inf.boxes|, |inf.classes|);
        var check := inf.extra[EntranceCheckKey].check;
        && check.numFaceMasks == multiset(inf.classes[..n])[maskOn]
        && (check.peopleOnFrame <==> AnyPresent(inf.boxes, n, w, h))
        && (check.masksOn <==> !AnyUnmaskedPresent(inf.boxes, inf.classes, n, w, h))
    {
      var boxes := addonObject.inference.boxes;
      var classes := addonObject.inference.classes;
      var width := addonObject.frame.width;
      var height := addonObject.frame.height;

      var masksOn := true;
      var peopleOnFrame := false;
      var noMaskEntrance: nat := 0;
      var numFaceMasks: nat := 0;

      var n := Min(|boxes|, |classes|);
      for i := 0 to n
        invariant Tally(masksOn, peopleOnFrame, noMaskEntrance, numFaceMasks)
                  == Scan(boxes, classes, width, height, i)
      {
        var box, classId := boxes[i], classes[i];
        var boxHeight := box.y2 - box.y1;
        var boxWidth := box.x2 - box.x1;

        if classId == maskOn {
          numFaceMasks := numFaceMasks + 1;
        }

        if boxHeight * boxWidth > maskThreshold * (width as real) * (height as real) {
          peopleOnFrame := true;
          if classId == maskOff {
            masksOn := false;
            if CrossEntrance(box, width, height) {
              noMaskEntrance := noMaskEntrance + 1;
            }
          }
        }
      }
      addonObject.inference.extra := addonObject.inference.extra[EntranceCheckKey :=
        EntranceCheckValue(EntranceCheck(peopleOnFrame, masksOn, numFaceMasks))];

      ScanCountsMaskOn(boxes, classes, width, height, n);
      ScanPeopleOnFrame(boxes, classes, width, height, n);
      ScanMasksOn(boxes, classes, width, height, n);
      result := addonObject;
    }

    /** Every detection labelled "mask on" is counted, whatever its size. */
    lemma {:induction false} ScanCountsMaskOn(boxes: seq<Box>, classes: seq<int>, width: int, height: int, n: nat)
      requires width > 0 && height > 0
      requires n <= |boxes| && n <= |classes|
      ensures Scan(boxes, classes, width, height, n).numFaceMasks == multiset(classes[..n])[maskOn]
    {
      if n > 0 {
        ScanCountsMaskOn(boxes, classes, width, height, n - 1);
        assert classes[..n] == classes[..n - 1] + [classes[n - 1]];
      }
    }

    /** people_on_frame is set exactly when some box's area strictly exceeds
        the threshold. */
    lemma {:induction false} ScanPeopleOnFrame(boxes: seq<Box>, classes: seq<int>, width: int, height: int, n: nat)
      requires width > 0 && height > 0
      requires n <= |boxes| && n <= |classes|
      ensures Scan(boxes, classes, width, height, n).peopleOnFrame <==> AnyPresent(boxes, n, width, height)
    {
      if n > 0 {
        ScanPeopleOnFrame(boxes, classes, width, height, n - 1);
        if AnyPresent(boxes, n - 1, width, height) {
          var i :| 0 <= i < n - 1 && IsPresent(boxes[i], width, height);
          assert 0 <= i < n && IsPresent(boxes[i], width, height);
        }
      }
    }

    /** masks_on stays true exactly when no box both exceeds the threshold and
        is labelled "mask off"; in particular it is true for no detections. */
    lemma {:induction false} ScanMasksOn(boxes: seq<Box>, classes: seq<int>, width: int, height: int, n: nat)
      requires width > 0 && height > 0
      requires n <= |boxes| && n <= |classes|
      ensures Scan(boxes, classes, width, height, n).masksOn <==> !AnyUnmaskedPresent(boxes, classes, n, width, height)
    {
      if n > 0 {
        ScanMasksOn(boxes, classes, width, height, n - 1);
        if AnyUnmaskedPresent(boxes, classes, n - 1, width, height) {
          var i :| 0 <= i < n - 1 && IsPresent(boxes[i], width, height) && classes[i] == maskOff;
          assert 0 <= i < n && IsPresent(boxes[i], width, height) && classes[i] == maskOff;
        }
      }
    }

    /** If no face is close to the camera, masks_on is true. */
    lemma NoPeopleMeansMasksOn(boxes: seq<Box>, classes: seq<int>, width: int, height: int)
      requires width > 0 && height > 0
      ensures !Evaluate(boxes, classes, width, height).peopleOnFrame ==> Evaluate(boxes, classes, width, height).masksOn
    {
      var n := Min(|boxes|, |classes|);
      ScanPeopleOnFrame(boxes, classes, width, height, n);
      ScanMasksOn(boxes, classes, width, height, n);
    }

    /** Indices among the first `n` pairs of close unmasked faces whose box
        centre has crossed the entrance line. */
    ghost function Crossings(boxes: seq<Box>, classes: seq<int>, width: int, height: int, n: nat): set<nat>
      requires width > 0 && height > 0
      requires n <= |boxes| && n <= |classes|
    {
      set i: nat | i < n && IsPresent(boxes[i], width, height) && classes[i] == maskOff
                         && CrossEntrance(boxes[i], width, height)
    }

    /** The unpublished crossing count is the number of close unmasked faces
        whose centre crossed the entrance line; so it is at most the number of
        pairs seen, zero while masks_on holds, and zero for an unrecognised
        direction. */
    lemma {:induction false} NoMaskEntranceBounds(boxes: seq<Box>, classes: seq<int>, width: int, height: int, n: nat)
      requires width > 0 && height > 0
      requires n <= |boxes| && n <= |classes|
      ensures Scan(boxes, classes, width, height, n).noMaskEntrance == |Crossings(boxes, classes, width, height, n)|
      ensures Scan(boxes, classes, width, height, n).noMaskEntrance <= n
      ensures Scan(boxes, classes, width, height, n).masksOn ==> Scan(boxes, classes, width, height, n).noMaskEntrance == 0
      ensures direction.Other? ==> Scan(boxes, classes, width, height, n).noMaskEntrance == 0
    {
      if n > 0 {
        NoMaskEntranceBounds(boxes, classes, width, height, n - 1);
        var before := Crossings(boxes, classes, width, height, n - 1);
        var k := n - 1;
        assert k !in before;
        if IsPresent(boxes[k], width, height) && classes[k] == maskOff && CrossEntrance(boxes[k], width, height) {
          assert Crossings(boxes, classes, width, height, n) == before + {k};
        } else {
          assert Crossings(boxes, classes, width, height, n) == before;
        }
      }
    }

    /** The pass reads only the first `n` pairs. */
    lemma {:induction false} ScanPrefix(boxes: seq<Box>, classes: seq<int>, boxes': seq<Box>, classes': seq<int>,
                                        width: int, height: int, n: nat)
      requires width > 0 && height > 0
      requires n <= |boxes| && n <= |classes| && n <= |boxes'| && n <= |classes'|
      requires boxes[..n] == boxes'[..n] && classes[..n] == classes'[..n]
      ensures Scan(boxes, classes, width, height, n) == Scan(boxes', classes', width, height, n)
    {
      if n > 0 {
        assert boxes[..n - 1] == boxes[..n][..n - 1] && boxes'[..n - 1] == boxes'[..n][..n - 1];
        assert classes[..n - 1] == classes[..n][..n - 1] && classes'[..n - 1] == classes'[..n][..n - 1];
        assert boxes[n - 1] == boxes[..n][n - 1] && boxes'[n - 1] == boxes'[..n][n - 1];
        assert classes[n - 1] == classes[..n][n - 1] && classes'[n - 1] == classes'[..n][n - 1];
        ScanPrefix(boxes, classes, boxes', classes', width, height, n - 1);
      }
    }

    /** Adding one small "mask on" detection raises the mask count by one and
        leaves presence and masks_on as they were. */
    lemma AddSmallMaskedFace(boxes: seq<Box>, classes: seq<int>, box: Box, width: int, height: int)
      requires width > 0 && height > 0
      requires |boxes| == |classes|
      requires !IsPresent(box, width, height)
      ensures var before := Evaluate(boxes, classes, width, height);
              Evaluate(boxes + [box], classes + [maskOn], width, height)
                == before.(numFaceMasks := before.numFaceMasks + 1)
    {
      var n := |boxes|;
      assert (boxes + [box])[..n] == boxes[..n];
      assert (classes + [maskOn])[..n] == classes[..n];
      ScanPrefix(boxes + [box], classes + [maskOn], boxes, classes, width, height, n);
    }

    /** The crossing rules on the boxes of the project's own tests, in a
        640 x 640 frame with the line at 0.08. */
    lemma CrossEntranceTestBoxes()
      requires line == 0.08
      ensures var inner, topLeft, bottomRight :=
                Box(120.0, 150.0, 170.0, 200.0), Box(10.0, 10.0, 17.0, 20.0), Box(590.0, 580.0, 620.0, 630.0);
              && (direction.Up? || direction.Down? || direction.Left? || direction.Right? ==> CrossEntrance(inner, 640, 640))
              && (direction.Down? || direction.Right? ==> !CrossEntrance(topLeft, 640, 640))
              && (direction.Up? || direction.Left? ==> !CrossEntrance(bottomRight, 640, 640))
    {
    }

    /** The frame of the project's own test: with threshold 0.01, class 1 for
        "mask on", class 0 for "mask off" and direction down at line 0.08, the
        published triple is (true, false, 2) while the dropped crossing count
        is 1. */
    lemma PostProcessTestFrame()
      requires maskThreshold == 0.01 && maskOn == 1 && maskOff == 0
      requires direction == Down && line == 0.08
      ensures var boxes := [Box(120.0, 150.0, 170.0, 200.0), Box(50.0, 60.0, 250.0, 380.0), Box(10.0, 10.0, 640.0, 640.0)];
              && Scan(boxes, [1, 0, 1], 640, 640, 3) == Tally(false, true, 1, 2)
              && Evaluate(boxes, [1, 0, 1], 640, 640) == EntranceCheck(true, false, 2)
    {
    }
  }

  /** The published triple does not depend on the direction or the line
      position: two processors that agree on the threshold and the class ids
      publish the same result for every frame. */
  lemma {:induction false} PublishedIgnoresDirectionAndLine(p: EntranceProcessor, q: EntranceProcessor,
                                                            boxes: seq<Box>, classes: seq<int>,
                                                            width: int, height: int, n: nat)
    requires p.maskThreshold == q.maskThreshold && p.maskOn == q.maskOn && p.maskOff == q.maskOff
    requires width > 0 && height > 0
    requires n <= |boxes| && n <= |classes|
    ensures Published(p.Scan(boxes, classes, width, height, n)) == Published(q.Scan(boxes, classes, width, height, n))
  {
    if n > 0 {
      PublishedIgnoresDirectionAndLine(p, q, boxes, classes, width, height, n - 1);
    }
  }

  /** Up and down are mirror images: a box crosses an "up" line exactly when
      its top-to-bottom reflection crosses a "down" line at the same position. */
  lemma UpMirrorsDown(up: EntranceProcessor, down: EntranceProcessor, box: Box, width: int, height: int)
    requires up.direction == Up && down.direction == Down && up.line == down.line
    requires width > 0 && height > 0
    ensures up.CrossEntrance(MirrorVertical(box, height), width, height) == down.CrossEntrance(box, width, height)
  {
  }

  /** Left and right are mirror images in the same way, reflecting left-to-right. */
  lemma LeftMirrorsRight(left: EntranceProcessor, right: EntranceProcessor, box: Box, width: int, height: int)
    requires left.direction == Left && right.direction == Right && left.line == right.line
    requires width > 0 && height > 0
    ensures left.CrossEntrance(MirrorHorizontal(box, width), width, height) == right.CrossEntrance(box, width, height)
  {
  }
}
