/** The decision logic of the sfmTransfer tool: match the views of a target
    scene with those of a reference scene, then copy poses and intrinsics
    from reference views into target views that lack them. */
module SfmTransfer {
  import opened Scenes
  import opened MatchingMethod

  /** (target view id, reference view id): the two ids name the same shot. */
  type Correspondence = (IndexT, IndexT)

  datatype Option<T> = None | Some(value: T)

  /** The process exit status. */
  datatype ExitCode = ExitSuccess | ExitFailure

  // ---------------------------------------------------------------------
  // View matching
  // ---------------------------------------------------------------------

  /** Each common view id paired with itself, in the order of the ids. */
  function IdentityPairs(ids: seq<IndexT>): seq<Correspondence>
  {
    if ids == [] then []
    else IdentityPairs(ids[..|ids| - 1]) + [(ids[|ids| - 1], ids[|ids| - 1])]
  }

  /** Matching by view id pairs every common id with itself, keeping the
      number and the order of the common ids. */
  lemma {:induction false} IdentityPairsPairEachIdWithItself(ids: seq<IndexT>)
    ensures |IdentityPairs(ids)| == |ids|
    ensures forall i :: 0 <= i < |ids| ==> IdentityPairs(ids)[i] == (ids[i], ids[i])
  {
    if ids != [] {
      IdentityPairsPairEachIdWithItself(ids[..|ids| - 1]);
    }
  }

  /** Matching by view id finds exactly the ids present in both scenes when
      it is given their common ids. */
  lemma IdentityPairsCoverCommonViews(ids: seq<IndexT>, target: Scene, reference: Scene)
    requires forall id :: id in ids <==> id in target.views && id in reference.views
    ensures forall p :: p in IdentityPairs(ids) ==> p.0 == p.1
    ensures forall id :: (id, id) in IdentityPairs(ids) <==> id in target.views && id in reference.views
  {
    IdentityPairsPairEachIdWithItself(ids);
    var pairs := IdentityPairs(ids);
    forall id | id in target.views && id in reference.views
      ensures (id, id) in pairs
    {
      var i :| 0 <= i < |ids| && ids[i] == id;
      assert pairs[i] == (id, id);
    }
  }

  /** The loop that pairs every common view id with itself. */
  method PairWithItself(commonViewIds: seq<IndexT>) returns (pairs: seq<Correspondence>)
    ensures pairs == IdentityPairs(commonViewIds)
  {
    pairs := [];
    var i := 0;
    while i < |commonViewIds|
      invariant 0 <= i <= |commonViewIds|
      invariant pairs == IdentityPairs(commonViewIds[..i])
    {
      var id := commonViewIds[i];
      assert commonViewIds[..i + 1][..i] == commonViewIds[..i];
      pairs := pairs + [(id, id)];
      i := i + 1;
    }
    assert commonViewIds[..i] == commonViewIds;
  }

  /** The correspondences the selected method produces. The file-pattern and
      metadata matchers belong to the reconstruction library; their results
      are given. */
  function Correspondences(matchingMethod: EMatchingMethod, commonViewIds: seq<IndexT>,
                           byFilePattern: seq<Correspondence>, byMetadata: seq<Correspondence>): (r: seq<Correspondence>)
    ensures matchingMethod == FromViewId ==>
              |r| == |commonViewIds| && forall i :: 0 <= i < |r| ==> r[i] == (commonViewIds[i], commonViewIds[i])
    ensures matchingMethod == FromFilePath ==> r == byFilePattern
    ensures matchingMethod == FromMetadata ==> r == byMetadata
  {
    IdentityPairsPairEachIdWithItself(commonViewIds);
    match matchingMethod
    case FromViewId => IdentityPairs(commonViewIds)
    case FromFilePath => byFilePattern
    case FromMetadata => byMetadata
  }

  // ---------------------------------------------------------------------
  // Attribute transfer, as functions on scene values
  // ---------------------------------------------------------------------

  /** The pair names a view of each scene, and if intrinsics are transferred
      and the pair gets past the reference and rig checks, the target view's
      intrinsic exists (it is assigned in place, never created). A target view
      whose intrinsic is missing is never pose-and-intrinsic-defined, so this
      is exactly what the transfer needs of the pair. */
  predicate CanRun(s: Scene, reference: Scene, p: Correspondence, transferIntrinsics: bool)
  {
    p.0 in s.views && p.1 in reference.views &&
    (transferIntrinsics && reference.IsPoseAndIntrinsicDefined(p.1) &&
     !s.views[p.0].isPartOfRig && !reference.views[p.1].isPartOfRig
     ==> s.views[p.0].intrinsicId in s.intrinsics)
  }

  predicate CanRunAll(s: Scene, reference: Scene, pairs: seq<Correspondence>, transferIntrinsics: bool)
  {
    forall i :: 0 <= i < |pairs| ==> CanRun(s, reference, pairs[i], transferIntrinsics)
  }

  /** The target view lacks its pose or its intrinsic, the reference view has
      both, and neither belongs to a rig. */
  predicate Eligible(s: Scene, reference: Scene, p: Correspondence): (r: bool)
    requires p.0 in s.views && p.1 in reference.views
    // a target view with both its pose and its intrinsic is never eligible
    ensures r ==> s.views[p.0].poseId !in s.poses || s.views[p.0].intrinsicId !in s.intrinsics
    // the reads of the reference pose and intrinsic are then defined
    ensures r ==> reference.views[p.1].poseId in reference.poses &&
                  reference.views[p.1].intrinsicId in reference.intrinsics
    // rig views are never eligible
    ensures s.views[p.0].isPartOfRig || reference.views[p.1].isPartOfRig ==> !r
  {
    !s.IsPoseAndIntrinsicDefined(p.0) && reference.IsPoseAndIntrinsicDefined(p.1) &&
    !s.views[p.0].isPartOfRig && !reference.views[p.1].isPartOfRig
  }

  /** One iteration of the transfer loop. */
  function TransferPair(s: Scene, reference: Scene, p: Correspondence,
                        transferPoses: bool, transferIntrinsics: bool): (r: Scene)
    requires CanRun(s, reference, p, transferIntrinsics)
    ensures r.views == s.views
    ensures r.intrinsics.Keys == s.intrinsics.Keys
    ensures s.poses.Keys <= r.poses.Keys
    // the pair changes nothing unless it passes the completeness and rig checks
    ensures !Eligible(s, reference, p) ==> r == s
    // poses: the target view's slot receives the reference pose, nothing else moves
    ensures Eligible(s, reference, p) && transferPoses ==>
              var a, b := s.views[p.0], reference.views[p.1];
              r.poses.Keys == s.poses.Keys + {a.poseId} &&
              r.poses[a.poseId] == reference.poses[b.poseId] &&
              forall k :: k in s.poses && k != a.poseId ==> r.poses[k] == s.poses[k]
    ensures !transferPoses ==> r.poses == s.poses
    // intrinsics: the target view's intrinsic takes the reference parameters
    ensures Eligible(s, reference, p) && transferIntrinsics ==>
              var a, b := s.views[p.0], reference.views[p.1];
              r.intrinsics[a.intrinsicId] == reference.intrinsics[b.intrinsicId] &&
              forall k :: k in s.intrinsics && k != a.intrinsicId ==> r.intrinsics[k] == s.intrinsics[k]
    ensures !transferIntrinsics ==> r.intrinsics == s.intrinsics
  {
    if !Eligible(s, reference, p) then s
    else
      var a, b := s.views[p.0], reference.views[p.1];
      var poses := if transferPoses then s.poses[a.poseId := reference.poses[b.poseId]] else s.poses;
      var intrinsics := if transferIntrinsics then s.intrinsics[a.intrinsicId := reference.intrinsics[b.intrinsicId]]
                        else s.intrinsics;
      Scene(s.views, poses, intrinsics)
  }

  /** The whole transfer loop: the pairs are processed in order, each one
      seeing the changes made by the pairs before it. */
  function TransferAll(s: Scene, reference: Scene, pairs: seq<Correspondence>,
                       transferPoses: bool, transferIntrinsics: bool): (r: Scene)
    requires CanRunAll(s, reference, pairs, transferIntrinsics)
    ensures r.views == s.views
    ensures r.intrinsics.Keys == s.intrinsics.Keys
    ensures s.poses.Keys <= r.poses.Keys
    ensures CanRunAll(r, reference, pairs, transferIntrinsics)
    decreases |pairs|
  {
    if pairs == [] then s
    else
      var prev := TransferAll(s, reference, pairs[..|pairs| - 1], transferPoses, transferIntrinsics);
      assert CanRun(prev, reference, pairs[|pairs| - 1], transferIntrinsics);
      TransferPair(prev, reference, pairs[|pairs| - 1], transferPoses, transferIntrinsics)
  }

  // ---------------------------------------------------------------------
  // Properties of the transfer
  // ---------------------------------------------------------------------

  /** A table whose flag is off is left exactly as it was; with
      both flags off the whole scene is left as it was. */
  lemma {:induction false} TransferAllFrame(s: Scene, reference: Scene, pairs: seq<Correspondence>,
                                            transferPoses: bool, transferIntrinsics: bool)
    requires CanRunAll(s, reference, pairs, transferIntrinsics)
    ensures !transferPoses ==> TransferAll(s, reference, pairs, transferPoses, transferIntrinsics).poses == s.poses
    ensures !transferIntrinsics ==> TransferAll(s, reference, pairs, transferPoses, transferIntrinsics).intrinsics == s.intrinsics
    ensures !transferPoses && !transferIntrinsics ==> TransferAll(s, reference, pairs, transferPoses, transferIntrinsics) == s
    decreases |pairs|
  {
    if pairs != [] {
      TransferAllFrame(s, reference, pairs[..|pairs| - 1], transferPoses, transferIntrinsics);
    }
  }

  /** A target view that is pose-and-intrinsic-defined stays defined. */
  lemma {:induction false} TransferAllKeepsDefined(s: Scene, reference: Scene, pairs: seq<Correspondence>,
                                                   transferPoses: bool, transferIntrinsics: bool, v: IndexT)
    requires CanRunAll(s, reference, pairs, transferIntrinsics)
    requires v in s.views && s.IsPoseAndIntrinsicDefined(v)
    ensures TransferAll(s, reference, pairs, transferPoses, transferIntrinsics).IsPoseAndIntrinsicDefined(v)
  {
  }

  /** The pose ids and intrinsic ids of the target views named by the pairs:
      the only slots the transfer may write. */
  function MatchedPoseIds(s: Scene, pairs: seq<Correspondence>): set<IndexT>
  {
    set i | 0 <= i < |pairs| && pairs[i].0 in s.views :: s.views[pairs[i].0].poseId
  }

  function MatchedIntrinsicIds(s: Scene, pairs: seq<Correspondence>): set<IndexT>
  {
    set i | 0 <= i < |pairs| && pairs[i].0 in s.views :: s.views[pairs[i].0].intrinsicId
  }

  /** Only the pose and intrinsic slots of matched target views change; every
      pose the transfer adds belongs to a matched target view. */
  lemma {:induction false} TransferAllTouchesOnlyMatchedSlots(s: Scene, reference: Scene, pairs: seq<Correspondence>,
                                                              transferPoses: bool, transferIntrinsics: bool)
    requires CanRunAll(s, reference, pairs, transferIntrinsics)
    ensures var r := TransferAll(s, reference, pairs, transferPoses, transferIntrinsics);
            r.poses.Keys <= s.poses.Keys + MatchedPoseIds(s, pairs) &&
            (forall k :: k in s.poses && k !in MatchedPoseIds(s, pairs) ==> r.poses[k] == s.poses[k]) &&
            (forall k :: k in s.intrinsics && k !in MatchedIntrinsicIds(s, pairs) ==> r.intrinsics[k] == s.intrinsics[k])
    decreases |pairs|
  {
    if pairs != [] {
      var n := |pairs| - 1;
      var prefix := pairs[..n];
      TransferAllTouchesOnlyMatchedSlots(s, reference, prefix, transferPoses, transferIntrinsics);
      assert MatchedPoseIds(s, prefix) <= MatchedPoseIds(s, pairs) by {
        forall k | k in MatchedPoseIds(s, prefix) ensures k in MatchedPoseIds(s, pairs) {
          var i :| 0 <= i < |prefix| && prefix[i].0 in s.views && s.views[prefix[i].0].poseId == k;
          assert pairs[i] == prefix[i];
        }
      }
      assert MatchedIntrinsicIds(s, prefix) <= MatchedIntrinsicIds(s, pairs) by {
        forall k | k in MatchedIntrinsicIds(s, prefix) ensures k in MatchedIntrinsicIds(s, pairs) {
          var i :| 0 <= i < |prefix| && prefix[i].0 in s.views && s.views[prefix[i].0].intrinsicId == k;
          assert pairs[i] == prefix[i];
        }
      }
      assert s.views[pairs[n].0].poseId in MatchedPoseIds(s, pairs);
      assert s.views[pairs[n].0].intrinsicId in MatchedIntrinsicIds(s, pairs);
    }
  }

  /** When poses are transferred, every matched target view whose intrinsic
      exists and whose reference view is defined, outside rigs, ends up
      pose-and-intrinsic-defined. */
  lemma {:induction false} TransferAllCompletes(s: Scene, reference: Scene, pairs: seq<Correspondence>,
                                                transferIntrinsics: bool, i: nat)
    requires CanRunAll(s, reference, pairs, transferIntrinsics)
    requires i < |pairs|
    requires reference.IsPoseAndIntrinsicDefined(pairs[i].1)
    requires !s.views[pairs[i].0].isPartOfRig && !reference.views[pairs[i].1].isPartOfRig
    requires s.views[pairs[i].0].intrinsicId in s.intrinsics
    ensures TransferAll(s, reference, pairs, true, transferIntrinsics).IsPoseAndIntrinsicDefined(pairs[i].0)
    decreases |pairs|
  {
    var n := |pairs| - 1;
    var prefix := pairs[..n];
    var prev := TransferAll(s, reference, prefix, true, transferIntrinsics);
    if i < n {
      assert prefix[i] == pairs[i];
      TransferAllCompletes(s, reference, prefix, transferIntrinsics, i);
    }
  }

  // ---------------------------------------------------------------------
  // Running the transfer twice
  // ---------------------------------------------------------------------

  /** No pair can change the target scene any more: for each, the target
      view is defined, or the reference view is not, or one of them is in a
      rig. */
  predicate AllSettled(s: Scene, reference: Scene, pairs: seq<Correspondence>)
  {
    forall i :: 0 <= i < |pairs| ==>
      pairs[i].0 in s.views && pairs[i].1 in reference.views && !Eligible(s, reference, pairs[i])
  }

  /** Every target view that could receive a transfer already has its intrinsic. */
  predicate ReachableIntrinsicsResolve(s: Scene, reference: Scene, pairs: seq<Correspondence>)
  {
    forall i :: 0 <= i < |pairs| && pairs[i].0 in s.views && pairs[i].1 in reference.views &&
                reference.IsPoseAndIntrinsicDefined(pairs[i].1) &&
                !s.views[pairs[i].0].isPartOfRig && !reference.views[pairs[i].1].isPartOfRig
                ==> s.views[pairs[i].0].intrinsicId in s.intrinsics
  }

  /** Pairs that are all settled leave the scene as it is. */
  lemma {:induction false} SettledPairsChangeNothing(s: Scene, reference: Scene, pairs: seq<Correspondence>,
                                                     transferPoses: bool, transferIntrinsics: bool)
    requires CanRunAll(s, reference, pairs, transferIntrinsics)
    requires AllSettled(s, reference, pairs)
    ensures TransferAll(s, reference, pairs, transferPoses, transferIntrinsics) == s
    decreases |pairs|
  {
    if pairs != [] {
      var prefix := pairs[..|pairs| - 1];
      assert forall i :: 0 <= i < |prefix| ==> prefix[i] == pairs[i];
      SettledPairsChangeNothing(s, reference, prefix, transferPoses, transferIntrinsics);
    }
  }

  /** With poses transferred and every reachable target intrinsic present,
      one run settles every pair. */
  lemma {:induction false} TransferAllSettles(s: Scene, reference: Scene, pairs: seq<Correspondence>,
                                              transferIntrinsics: bool)
    requires CanRunAll(s, reference, pairs, transferIntrinsics)
    requires ReachableIntrinsicsResolve(s, reference, pairs)
    ensures AllSettled(TransferAll(s, reference, pairs, true, transferIntrinsics), reference, pairs)
  {
    var r := TransferAll(s, reference, pairs, true, transferIntrinsics);
    forall i | 0 <= i < |pairs|
      ensures pairs[i].0 in r.views && pairs[i].1 in reference.views && !Eligible(r, reference, pairs[i])
    {
      var p := pairs[i];
      if reference.IsPoseAndIntrinsicDefined(p.1) && !s.views[p.0].isPartOfRig && !reference.views[p.1].isPartOfRig {
        TransferAllCompletes(s, reference, pairs, transferIntrinsics, i);
      }
    }
  }

  /** The intrinsic value the run leaves at slot `k` when poses are not
      transferred: that of the last pair eligible in `s` whose target view
      uses intrinsic `k`, if there is one. */
  function LastIntrinsicWrite(s: Scene, reference: Scene, pairs: seq<Correspondence>, k: IndexT): Option<Intrinsic>
    requires forall i :: 0 <= i < |pairs| ==> pairs[i].0 in s.views && pairs[i].1 in reference.views
    decreases |pairs|
  {
    if pairs == [] then None
    else
      var p := pairs[|pairs| - 1];
      if Eligible(s, reference, p) && s.views[p.0].intrinsicId == k
      then Some(reference.intrinsics[reference.views[p.1].intrinsicId])
      else LastIntrinsicWrite(s, reference, pairs[..|pairs| - 1], k)
  }

  /** Without pose transfer no view changes its completeness, so which pairs
      are eligible is fixed by the initial scene, and each intrinsic slot ends
      with its last write. */
  lemma {:induction false} IntrinsicsOnlyRunIsLastWrite(s: Scene, reference: Scene, pairs: seq<Correspondence>,
                                                        transferIntrinsics: bool, k: IndexT)
    requires CanRunAll(s, reference, pairs, transferIntrinsics)
    requires k in s.intrinsics
    ensures TransferAll(s, reference, pairs, false, transferIntrinsics).intrinsics[k] ==
            match LastIntrinsicWrite(s, reference, pairs, k)
            case Some(v) => (if transferIntrinsics then v else s.intrinsics[k])
            case None => s.intrinsics[k]
    decreases |pairs|
  {
    TransferAllFrame(s, reference, pairs, false, transferIntrinsics);
    if pairs != [] {
      var prefix := pairs[..|pairs| - 1];
      var p := pairs[|pairs| - 1];
      IntrinsicsOnlyRunIsLastWrite(s, reference, prefix, transferIntrinsics, k);
      var prev := TransferAll(s, reference, prefix, false, transferIntrinsics);
      TransferAllFrame(s, reference, prefix, false, transferIntrinsics);
      assert Eligible(prev, reference, p) == Eligible(s, reference, p);
    }
  }

  /** The last writes of a pair sequence only depend on the views, the pose
      table and which intrinsics exist. */
  lemma {:induction false} LastIntrinsicWriteDependsOnKeys(s: Scene, t: Scene, reference: Scene,
                                                           pairs: seq<Correspondence>, k: IndexT)
    requires forall i :: 0 <= i < |pairs| ==> pairs[i].0 in s.views && pairs[i].1 in reference.views
    requires t.views == s.views && t.poses == s.poses && t.intrinsics.Keys == s.intrinsics.Keys
    ensures LastIntrinsicWrite(t, reference, pairs, k) == LastIntrinsicWrite(s, reference, pairs, k)
    decreases |pairs|
  {
    if pairs != [] {
      LastIntrinsicWriteDependsOnKeys(s, t, reference, pairs[..|pairs| - 1], k);
    }
  }

  /** Running the transfer a second time with the same reference and pairs
      changes nothing, when poses are not transferred or when every target
      view that could receive a transfer has its intrinsic. */
  lemma TransferTwiceIsOnce(s: Scene, reference: Scene, pairs: seq<Correspondence>,
                            transferPoses: bool, transferIntrinsics: bool)
    requires CanRunAll(s, reference, pairs, transferIntrinsics)
    requires !transferPoses || ReachableIntrinsicsResolve(s, reference, pairs)
    ensures var once := TransferAll(s, reference, pairs, transferPoses, transferIntrinsics);
            TransferAll(once, reference, pairs, transferPoses, transferIntrinsics) == once
  {
    var once := TransferAll(s, reference, pairs, transferPoses, transferIntrinsics);
    if transferPoses {
      TransferAllSettles(s, reference, pairs, transferIntrinsics);
      SettledPairsChangeNothing(once, reference, pairs, transferPoses, transferIntrinsics);
    } else {
      var twice := TransferAll(once, reference, pairs, transferPoses, transferIntrinsics);
      TransferAllFrame(s, reference, pairs, transferPoses, transferIntrinsics);
      TransferAllFrame(once, reference, pairs, transferPoses, transferIntrinsics);
      forall k | k in s.intrinsics
        ensures twice.intrinsics[k] == once.intrinsics[k]
      {
        IntrinsicsOnlyRunIsLastWrite(s, reference, pairs, transferIntrinsics, k);
        IntrinsicsOnlyRunIsLastWrite(once, reference, pairs, transferIntrinsics, k);
        LastIntrinsicWriteDependsOnKeys(s, once, reference, pairs, k);
      }
    }
  }

  // ---------------------------------------------------------------------
  // The transfer on a scene object, and the tool as a whole
  // ---------------------------------------------------------------------

  /** The transfer loop over the target scene object. */
  method TransferAttributes(target: SfMData, reference: SfMData, pairs: seq<Correspondence>,
                            transferPoses: bool, transferIntrinsics: bool)
    requires target != reference
    requires CanRunAll(target.Value(), reference.Value(), pairs, transferIntrinsics)
    modifies target
    ensures target.Value() == TransferAll(old(target.Value()), reference.Value(), pairs, transferPoses, transferIntrinsics)
    ensures unchanged(reference)
  {
    ghost var s0 := target.Value();
    var i := 0;
    while i < |pairs|
      invariant 0 <= i <= |pairs|
      invariant CanRunAll(s0, reference.Value(), pairs[..i], transferIntrinsics)
      invariant target.Value() == TransferAll(s0, reference.Value(), pairs[..i], transferPoses, transferIntrinsics)
    {
      assert pairs[..i + 1][..i] == pairs[..i];
      var (first, second) := pairs[i];
      assert CanRun(target.Value(), reference.Value(), pairs[i], transferIntrinsics);
      if !target.Value().IsPoseAndIntrinsicDefined(first) && reference.Value().IsPoseAndIntrinsicDefined(second) {
        var viewA := target.views[first];
        var viewB := reference.views[second];
        if viewA.isPartOfRig || viewB.isPartOfRig {
          // rig poses are not supported: the pair is skipped
          i := i + 1;
          continue;
        }
        if transferPoses {
          target.SetPose(viewA.poseId, reference.poses[viewB.poseId]);
        }
        if transferIntrinsics {
          target.AssignIntrinsic(viewA.intrinsicId, reference.intrinsics[viewB.intrinsicId]);
        }
      }
      i := i + 1;
    }
    assert pairs[..i] == pairs;
  }

  /** The matching and transfer part of the tool, between loading the two
      scenes and saving the target. The ids the library's matchers return are
      `commonViewIds` (views present in both scenes), `byFilePattern` and
      `byMetadata`. */
  method SfMTransferMain(target: SfMData, reference: SfMData, matchingMethod: EMatchingMethod,
                         commonViewIds: seq<IndexT>, byFilePattern: seq<Correspondence>, byMetadata: seq<Correspondence>,
                         transferPoses: bool, transferIntrinsics: bool) returns (exit: ExitCode)
    requires target != reference
    requires CanRunAll(target.Value(), reference.Value(),
                       Correspondences(matchingMethod, commonViewIds, byFilePattern, byMetadata), transferIntrinsics)
    modifies target
    ensures unchanged(reference)
    ensures exit == ExitFailure <==> Correspondences(matchingMethod, commonViewIds, byFilePattern, byMetadata) == []
    ensures exit == ExitFailure ==> unchanged(target)
    ensures !transferPoses && !transferIntrinsics ==> unchanged(target)
    ensures exit == ExitSuccess ==>
              target.Value() == TransferAll(old(target.Value()), reference.Value(),
                                            Correspondences(matchingMethod, commonViewIds, byFilePattern, byMetadata),
                                            transferPoses, transferIntrinsics)
  {
    var pairs: seq<Correspondence>;
    match matchingMethod {
      case FromViewId =>
        pairs := PairWithItself(commonViewIds);
      case FromFilePath =>
        pairs := byFilePattern;
      case FromMetadata =>
        pairs := byMetadata;
    }
    if pairs == [] {
      // no matching views between the two scenes
      return ExitFailure;
    }
    if !transferPoses && !transferIntrinsics {
      // nothing to do: an error is logged, and the unchanged scene is saved
      TransferAllFrame(target.Value(), reference.Value(), pairs, transferPoses, transferIntrinsics);
    } else {
      TransferAttributes(target, reference, pairs, transferPoses, transferIntrinsics);
    }
    return ExitSuccess;
  }
}
