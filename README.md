# sfmTransfer: matching views and transferring poses and intrinsics

A Dafny model of the decision logic of AliceVision's `sfmTransfer` tool
(`src/software/utils/main_sfmTransfer.cpp`). The tool loads a target scene
(an SfMData) and a reference scene. It matches the views of the two scenes
by one of three methods. Then it copies poses and intrinsics from reference
views into target views that do not yet have both a pose and an intrinsic.
It finally saves the target scene.

The model has four modules:

- `MatchingMethod` (`matching_method.dfy`): the `EMatchingMethod` enumeration,
  its conversion to a lower-case name, and the case-insensitive conversion
  back. The exception thrown for an unknown name becomes `Err`, carrying the
  exception's message.
- `Scenes` (`scenes.dfy`): views, the pose table and the intrinsic table.
  `Scene` is a scene as a value. `SfMData` is the object the tool changes in
  place. `Pose` and `Intrinsic` are opaque types.
- `SfmTransfer` (`sfm_transfer.dfy`): the matching dispatch and the transfer.
  - `PairWithItself` is the `push_back` loop of the view-id method.
    `IdentityPairs` specifies it.
  - `TransferPair` specifies one iteration of the transfer loop.
  - `TransferAll` runs the pairs in order. Each pair sees what the earlier
    pairs changed.
  - `TransferAttributes` is the loop over an `SfMData` object. It is proved
    equal to `TransferAll`.
  - `SfMTransferMain` is the part of `main` between loading and saving.
- `TransferScenarios` (`scenarios.dfy`): concrete runs on small scenes.

The three matchers come from the reconstruction library, and their code is not
part of this model. The view-id method's common ids, and the pairs produced by
the file-pattern and metadata methods, are inputs. The tool always looks up
the target view (line 224). It looks up the reference view only when the
target view is incomplete (lines 225 and 231). The matchers return only ids of
views present in both scenes, so the model requires both views for every pair
(`CanRun`).

Line 244 dereferences the target view's intrinsic pointer without a null
check. `CanRun` therefore also requires the following. If intrinsics are
transferred and a pair passes the reference and rig checks, the target view's
intrinsic id must be in the target's intrinsic table. This requirement is
exact. The transfer never adds or removes intrinsics, and a view whose
intrinsic is missing is never "pose and intrinsic defined". Such a pair always
reaches line 244.

Facts about the code that the model keeps:

- Pairs are not independent. The loop processes them in order and checks each
  pair when it reaches it. An earlier pair can change whether a later pair is
  eligible, for example through a shared pose id. `TransferAll` is a fold
  over the pairs in order.
- The gate is per view, but the pose and intrinsic tables are shared by id.
  An incomplete view that uses the same pose id as a complete view
  overwrites that shared pose (`SharedPoseSlotOfCompleteViewIsOverwritten`).
  An incomplete view that uses the same intrinsic id as a complete view
  assigns new parameters to that shared intrinsic
  (`SharedIntrinsicOfCompleteViewIsOverwritten`). One intrinsic usually
  serves every view taken with the same camera, so this is the common case
  for intrinsics.
- With both flags off the code logs an error, then saves and exits with
  success. `SfMTransferMain` returns `ExitSuccess` and leaves the target
  unchanged.
- With intrinsic transfer on, a matched target view whose intrinsic is
  missing makes line 244 dereference a null pointer when its reference view
  is complete and neither view is in a rig. The end-to-end scenario
  lemma therefore gives its incomplete view an existing intrinsic and no
  pose.
- The code does not check that no two correspondences share a target view
  id. The model does not assume it.

## Model

| member | source | states |
|---|---|---|
| MatchingMethod.EnumToString | src/software/utils/main_sfmTransfer.cpp:45-54 | each method's name is non-empty and written without upper-case letters (its round trip and injectivity are the lemmas below) |
| MatchingMethod.ToLowerChar | src/software/utils/main_sfmTransfer.cpp:64 | `tolower` in the C locale: the result is never an upper-case ASCII letter; 'A'..'Z' move up by 32; every other character is kept |
| MatchingMethod.ToLower | src/software/utils/main_sfmTransfer.cpp:63-64 | the lower-cased copy has the input's length, and each character is the lower-casing of the input's character at the same index |
| MatchingMethod.StringToEnum | src/software/utils/main_sfmTransfer.cpp:61-70 | an accepted string lower-cases to the name of the method returned; a rejected one lower-cases to no method's name, and its error message is "Invalid SfM alignment method : " followed by the input as given |
| MatchingMethod.LowerOfLowerIsIdentity | src/software/utils/main_sfmTransfer.cpp:63-64 | lower-casing a string with no upper-case ASCII letter gives the same string |
| MatchingMethod.NamesAreLowerCase | src/software/utils/main_sfmTransfer.cpp:45-54 | lower-casing a method's name gives the same name |
| MatchingMethod.EnumToStringInjective | src/software/utils/main_sfmTransfer.cpp:45-54 | distinct methods have distinct names |
| MatchingMethod.RoundTrip | src/software/utils/main_sfmTransfer.cpp:45-70 | converting a method to its name and back gives the same method, for each of the three methods |
| MatchingMethod.SameIgnoringCaseLowersEqually | src/software/utils/main_sfmTransfer.cpp:63-64 | two strings that differ only in ASCII case lower-case to the same string |
| MatchingMethod.StringToEnumCaseInsensitive | src/software/utils/main_sfmTransfer.cpp:63-69 | two strings that differ only in ASCII case are both rejected, or both accepted as the same method |
| MatchingMethod.StringToEnumAccepts | src/software/utils/main_sfmTransfer.cpp:63-68 | a string is accepted as method m if and only if it is m's name written in any mix of ASCII cases |
| MatchingMethod.StringToEnumFails | src/software/utils/main_sfmTransfer.cpp:66-69 | the conversion fails if and only if the lower-cased input is none of "from_viewid", "from_filepath", "from_metadata" |
| Scenes.SfMData.SetPose | src/software/utils/main_sfmTransfer.cpp:240 | the pose slot is inserted or overwritten with the given pose; every other slot is unchanged |
| Scenes.SfMData.AssignIntrinsic | src/software/utils/main_sfmTransfer.cpp:244 | the existing intrinsic takes the given parameters; no intrinsic is added or removed |
| SfmTransfer.IdentityPairsPairEachIdWithItself | src/software/utils/main_sfmTransfer.cpp:189-194 | view-id matching produces one pair per common id, in the same order, each pair being (id, id) |
| SfmTransfer.IdentityPairsCoverCommonViews | src/software/utils/main_sfmTransfer.cpp:189-194 | given the ids common to both scenes, every pair pairs an id with itself, and (id, id) is produced exactly when id is a view of both scenes |
| SfmTransfer.PairWithItself | src/software/utils/main_sfmTransfer.cpp:189-194 | the `push_back` loop builds exactly the identity pairing of the common ids |
| SfmTransfer.Correspondences | src/software/utils/main_sfmTransfer.cpp:184-207 | the pairs of the selected method: for view-id matching one (id, id) pair per common id in the same order; for the file-pattern and metadata methods the library matcher's pairs as they are |
| SfmTransfer.Eligible | src/software/utils/main_sfmTransfer.cpp:224-236 | a pair passes the gate only if its target view lacks its pose or its intrinsic; a passing pair's reference pose and intrinsic resolve, so the reads at lines 240 and 244 are defined; a pair with a rig view never passes |
| SfmTransfer.TransferPair | src/software/utils/main_sfmTransfer.cpp:222-247 | a pair changes nothing unless its target view lacks pose or intrinsic, its reference view has both, and neither is in a rig; if it passes, the target's pose slot gets the reference pose and no other pose changes, and the target's intrinsic gets the reference intrinsic and no other intrinsic changes; a table whose flag is off is unchanged; the views never change |
| SfmTransfer.TransferAll | src/software/utils/main_sfmTransfer.cpp:222-247 | the loop over all pairs keeps the views and the set of intrinsic ids, only adds pose ids, and leaves every pair runnable on the new scene |
| SfmTransfer.TransferAllFrame | src/software/utils/main_sfmTransfer.cpp:216-245 | with pose transfer off the pose table is unchanged; with intrinsic transfer off the intrinsic table is unchanged; with both off the whole target scene is unchanged |
| SfmTransfer.TransferAllKeepsDefined | src/software/utils/main_sfmTransfer.cpp:224-225 | a target view with both pose and intrinsic keeps both through the whole run |
| SfmTransfer.TransferAllTouchesOnlyMatchedSlots | src/software/utils/main_sfmTransfer.cpp:230-245 | only the pose and intrinsic slots of target views named by some pair change; every pose added belongs to such a view |
| SfmTransfer.TransferAllCompletes | src/software/utils/main_sfmTransfer.cpp:224-241 | with pose transfer on, a matched target view ends with both pose and intrinsic when its intrinsic exists, its reference view has both, and neither is in a rig |
| SfmTransfer.SettledPairsChangeNothing | src/software/utils/main_sfmTransfer.cpp:222-236 | pairs that all fail the completeness or rig checks leave the target scene unchanged |
| SfmTransfer.TransferAllSettles | src/software/utils/main_sfmTransfer.cpp:222-247 | with pose transfer on and every reachable target intrinsic present, after one run no pair passes the gate |
| SfmTransfer.IntrinsicsOnlyRunIsLastWrite | src/software/utils/main_sfmTransfer.cpp:242-245 | with pose transfer off, each intrinsic ends with the reference intrinsic of the last pair that was eligible at the start and targets it, or keeps its value if there is none |
| SfmTransfer.LastIntrinsicWriteDependsOnKeys | src/software/utils/main_sfmTransfer.cpp:224-225 | which pair writes an intrinsic last depends only on the views, the poses and which intrinsic ids exist |
| SfmTransfer.TransferTwiceIsOnce | src/software/utils/main_sfmTransfer.cpp:222-247 | running the transfer a second time with the same reference and pairs leaves the result of the first run unchanged |
| SfmTransfer.TransferAttributes | src/software/utils/main_sfmTransfer.cpp:222-247 | the in-place loop leaves the target scene equal to the in-order fold `TransferAll` of its old value, and does not change the reference scene |
| SfmTransfer.SfMTransferMain | src/software/utils/main_sfmTransfer.cpp:184-248 | the run fails exactly when the selected method produces no pairs, and then the target is unchanged; with both flags off the target is unchanged; otherwise the target becomes the transfer over the produced pairs; the reference is never changed |
| TransferScenarios.MatchByViewIdFillsMissingView | src/software/utils/main_sfmTransfer.cpp:184-248 | with target views {1,2,3}, view 3 without a pose, and complete reference views {2,3,4}: the pairs are (2,2), (3,3); view 3 gets reference view 3's pose and intrinsic; nothing else changes |
| TransferScenarios.RigViewIsSkipped | src/software/utils/main_sfmTransfer.cpp:232-236 | the same scenes with reference view 3 in a rig: the target scene is unchanged |
| TransferScenarios.SharedPoseSlotOfCompleteViewIsOverwritten | src/software/utils/main_sfmTransfer.cpp:224-240 | a complete view's pose slot is overwritten by a pair whose incomplete target view has the same pose id |
| TransferScenarios.SharedIntrinsicOfCompleteViewIsOverwritten | src/software/utils/main_sfmTransfer.cpp:224-244 | a complete view's intrinsic is reassigned by a pair whose incomplete target view has the same intrinsic id |

## Left out

- Command-line parsing, the usage text and the stream operators for the enumeration (lines 72-83, 100-158): I/O glue over a library that is not part of this model.
- Logging: diagnostics only, no effect on the scenes.
- Loading and saving the scenes (lines 166-180, 250-256): file I/O in the library. The scenes are inputs, and the result is the changed target object. The exit code after a failed save is not modelled.
- The bodies of `getCommonViews`, `matchViewsByFilePattern` and `matchViewsByMetadataMatching`: library code that is not part of this model. Their results are inputs. The model requires that every pair names a view of each scene.
- A pair whose target view is complete and whose reference id names no view: the tool skips it without looking the reference view up, and with both flags off it looks up no view at all. `CanRun` excludes such a pair, because the matchers only return ids of views present in both scenes.
- The `throw` after the `switch` in `EMatchingMethod_enumToString` (line 53): it is only reached for an out-of-range enumeration value, which the datatype cannot hold.
- MatchingMethod.ToLowerChar: works on Unicode characters rather than the bytes of a `std::string`. Only 'A'..'Z' change, as in the C locale. The undefined behaviour of `tolower` on negative `char` values is not modelled.
- Scenes.Scene.IsPoseAndIntrinsicDefined: the library's version also checks for the undefined index and for rig sub-pose initialisation. Its body is not part of this model. The model checks only that the pose id and the intrinsic id resolve.
- Pose geometry and intrinsic parameters: opaque. `assign` is modelled as "the target intrinsic becomes equal to the reference intrinsic". The library's type-compatibility check in `assign` is not modelled.
- Sharing of one intrinsic object by several intrinsic ids: each id holds its own value here, so an in-place assign through one id does not show through another.
- No similarity transform is computed by the tool, and none is modelled.
- SfmTransfer.TransferTwiceIsOnce: proved when pose transfer is off, or when every target view that could receive a transfer has its intrinsic (always the case when intrinsic transfer is on). The remaining configuration is not proved: pose transfer on, intrinsic transfer off, and some matched target view without an intrinsic.
