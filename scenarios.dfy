/** Concrete runs of the transfer on small scenes. Poses and intrinsics are
    opaque, so the lemmas take them as parameters. */
module TransferScenarios {
  import opened Scenes
  import opened SfmTransfer

  /** Target views 1, 2, 3 where view 3 has no pose yet (its intrinsic object
      exists, as the in-place assignment needs); reference views 2, 3, 4, all
      complete; matching by view id on the common ids 2 and 3. View 3 receives
      the reference pose and intrinsic; views 1 and 2 keep theirs. */
  lemma MatchByViewIdFillsMissingView(p1: Pose, p2: Pose, i1: Intrinsic, i2: Intrinsic, i3: Intrinsic,
                                      q2: Pose, q3: Pose, q4: Pose, j2: Intrinsic, j3: Intrinsic, j4: Intrinsic)
    ensures var target := Scene(map[1 := View(1, 1, false), 2 := View(2, 2, false), 3 := View(3, 3, false)],
                                map[1 := p1, 2 := p2], map[1 := i1, 2 := i2, 3 := i3]);
            var reference := Scene(map[2 := View(2, 2, false), 3 := View(3, 3, false), 4 := View(4, 4, false)],
                                   map[2 := q2, 3 := q3, 4 := q4], map[2 := j2, 3 := j3, 4 := j4]);
            var pairs := IdentityPairs([2, 3]);
            pairs == [(2, 2), (3, 3)] &&
            CanRunAll(target, reference, pairs, true) &&
            TransferAll(target, reference, pairs, true, true) ==
              Scene(target.views, map[1 := p1, 2 := p2, 3 := q3], map[1 := i1, 2 := i2, 3 := j3])
  {
  }

  /** The same scenes, but reference view 3 belongs to a rig: the pair (3, 3)
      is skipped and the target scene is left as it was. */
  lemma RigViewIsSkipped(p1: Pose, p2: Pose, i1: Intrinsic, i2: Intrinsic, i3: Intrinsic,
                         q2: Pose, q3: Pose, q4: Pose, j2: Intrinsic, j3: Intrinsic, j4: Intrinsic)
    ensures var target := Scene(map[1 := View(1, 1, false), 2 := View(2, 2, false), 3 := View(3, 3, false)],
                                map[1 := p1, 2 := p2], map[1 := i1, 2 := i2, 3 := i3]);
            var reference := Scene(map[2 := View(2, 2, false), 3 := View(3, 3, true), 4 := View(4, 4, false)],
                                   map[2 := q2, 3 := q3, 4 := q4], map[2 := j2, 3 := j3, 4 := j4]);
            CanRunAll(target, reference, [(2, 2), (3, 3)], true) &&
            TransferAll(target, reference, [(2, 2), (3, 3)], true, true) == target
  {
  }

  /** Completeness is checked per view, but the pose table is shared: view 1
      is complete with pose `p` in slot 5, view 2 uses the same slot but has no
      intrinsic, so it is not complete and the pair (2, 2) overwrites slot 5
      with the reference pose `q`. The pose that view 1 resolves to changes
      although view 1 was complete. */
  lemma SharedPoseSlotOfCompleteViewIsOverwritten(p: Pose, q: Pose, i8: Intrinsic, j2: Intrinsic)
    requires p != q
    ensures var target := Scene(map[1 := View(5, 8, false), 2 := View(5, 9, false)], map[5 := p], map[8 := i8]);
            var reference := Scene(map[2 := View(2, 2, false)], map[2 := q], map[2 := j2]);
            target.IsPoseAndIntrinsicDefined(1) &&
            CanRunAll(target, reference, [(2, 2)], false) &&
            TransferAll(target, reference, [(2, 2)], true, false).poses[5] == q != p
  {
  }

  /** The intrinsic table is shared by id in the same way, and one intrinsic
      usually serves every view of a camera: view 1 is complete with intrinsic
      8, view 2 uses intrinsic 8 too but has no pose, so the pair (2, 2)
      assigns the reference intrinsic `j` to intrinsic 8, which view 1 also
      uses. */
  lemma SharedIntrinsicOfCompleteViewIsOverwritten(p: Pose, i: Intrinsic, q: Pose, j: Intrinsic)
    requires i != j
    ensures var target := Scene(map[1 := View(5, 8, false), 2 := View(6, 8, false)], map[5 := p], map[8 := i]);
            var reference := Scene(map[2 := View(2, 2, false)], map[2 := q], map[2 := j]);
            target.IsPoseAndIntrinsicDefined(1) &&
            CanRunAll(target, reference, [(2, 2)], true) &&
            TransferAll(target, reference, [(2, 2)], false, true).intrinsics[8] == j != i
  {
  }
}
