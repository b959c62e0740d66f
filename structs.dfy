/** The data the face-mask addon exchanges with its host pipeline: detection
    boxes, the frame's dimensions, the inference record whose `extra` map the
    addon writes into, and the addon object that carries them. Only the fields
    the processor uses are modelled. */
module Structs {

  /** An axis-aligned detection box (x1, y1, x2, y2) in pixel coordinates.
      The host supplies plain numbers; nothing forces x1 <= x2 or y1 <= y2. */
  datatype Box = Box(x1: real, y1: real, x2: real, y2: real)

  /** The dimensions of a frame as its array shape gives them:
      `height` is shape[0] (rows), `width` is shape[1] (columns). */
  datatype FrameShape = FrameShape(height: int, width: int)

  /** The triple stored under "entrance_check":
      (people_on_frame, masks_on, num_face_masks). */
  datatype EntranceCheck = EntranceCheck(peopleOnFrame: bool, masksOn: bool, numFaceMasks: nat)

  /** A value held in an inference's `extra` map. Other addons store their own
      data there; this model keeps such values opaque. */
  datatype ExtraValue =
    | EntranceCheckValue(check: EntranceCheck)
    | Foreign(tag: string)

  /** The key under which the face-mask addon publishes its result. */
  const EntranceCheckKey: string := "entrance_check"

  /** The inference record: parallel boxes and class labels, and a mutable
      map of extra results shared between addons. */
  class Inference {
    var boxes: seq<Box>
    var classes: seq<int>
    var extra: map<string, ExtraValue>

    constructor (boxes: seq<Box>, classes: seq<int>)
      ensures this.boxes == boxes && this.classes == classes && extra == map[]
    {
      this.boxes := boxes;
      this.classes := classes;
      extra := map[];
    }
  }

  /** What the pipeline hands to every addon: the frame (only its shape is
      modelled) and the inference record for it. */
  class AddonObject {
    var frame: FrameShape
    var inference: Inference

    constructor (frame: FrameShape, inference: Inference)
      ensures this.frame == frame && this.inference == inference
    {
      this.frame := frame;
      this.inference := inference;
    }
  }
}
