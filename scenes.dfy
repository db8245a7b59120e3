/** The part of a reconstruction scene (the library's SfMData) that the
    transfer reads and writes: its views, its pose table and its intrinsic
    table. */
module Scenes {

  /** The library's index type, an unsigned 32-bit integer. */
  type IndexT = x: int | 0 <= x < 0x1_0000_0000

  /** A camera pose; its geometry plays no part in the transfer. */
  type Pose

  /** The calibration parameters of a camera; their contents play no part
      in the transfer. */
  type Intrinsic

  /** A view refers to its pose and its intrinsic by id, and may belong to a
      multi-camera rig. */
  datatype View = View(poseId: IndexT, intrinsicId: IndexT, isPartOfRig: bool)

  /** A scene as a value: views by view id, poses by pose id, intrinsics by
      intrinsic id. */
  datatype Scene = Scene(views: map<IndexT, View>, poses: map<IndexT, Pose>, intrinsics: map<IndexT, Intrinsic>)
  {
    /** Both the pose and the intrinsic of view `viewId` resolve in this scene. */
    predicate IsPoseAndIntrinsicDefined(viewId: IndexT)
      requires viewId in views
    {
      views[viewId].poseId in poses && views[viewId].intrinsicId in intrinsics
    }
  }

  /** A loaded scene whose tables the transfer changes in place. */
  class SfMData {
    var views: map<IndexT, View>
    var poses: map<IndexT, Pose>
    var intrinsics: map<IndexT, Intrinsic>

    /** The current contents of the scene. */
    function Value(): Scene
      reads this
    {
      Scene(views, poses, intrinsics)
    }

    /** Writes a pose into the pose table, inserting the slot when it is
        missing and overwriting it otherwise. */
    method SetPose(poseId: IndexT, pose: Pose)
      modifies this`poses
      ensures poses == old(poses)[poseId := pose]
    {
      poses := poses[poseId := pose];
    }

    /** Gives the existing intrinsic `intrinsicId` the parameters of `from`. */
    method AssignIntrinsic(intrinsicId: IndexT, from: Intrinsic)
      requires intrinsicId in intrinsics
      modifies this`intrinsics
      ensures intrinsics == old(intrinsics)[intrinsicId := from]
      ensures intrinsics.Keys == old(intrinsics.Keys)
    {
      intrinsics := intrinsics[intrinsicId := from];
    }
  }
}
