# Motion-capture animation core, modelled in Dafny

This project models the data side of a small motion-capture viewer:

- how an ASF skeleton file becomes a registry of bones and a bone tree;
- how an AMC motion file becomes a clip of poses for that skeleton;
- how a clip is edited: trimmed at either end, extended at either end, and
  made to loop by cross-fading its tail into its head;
- the pose itself, a frame number plus a root transform and a sparse map
  from bone name to joint rotation, with its interpolation and copy.

The model follows the code's own shape. `Skeleton`, `Bone`, `Pose`,
`MotionClip` and the host scene node `Transform` are classes whose methods
update their fields in place. The two readers drive a `StringParser` object
loop by loop, as the code does. Each reading loop is also given as pure
functions over the cursor or the token stream, and the methods are proved to
do exactly what those functions say. The properties are then proved about
the functions.

The ASF load is stated on values as well. Each top-level pass reads one
`Section`: a skipped line or block, units, the root, bone blocks, or
hierarchy lines. `Apply` folds the sections read over a `Loaded` value,
which holds the skeleton's fields and each bone's value and children.
`Skeleton.Snapshot` reads that value off the objects, and `LoadFromASF` is
proved to leave exactly what `Apply` gives.

Files (one module each):

| file | module | contents |
|---|---|---|
| geometry.dfy | Geometry | vectors, a symbolic rotation type with an abstract `Blend`, unit and angle constants, `Math.round` |
| string_parser.dfy | StringParsing | the token cursor and the `StringParser` class, the error and result types |
| pose.dfy | Poses | `Pose` and its value `PoseValue`; `lerp`, `clone`, the joint map |
| bone.dfy | Bones | `Bone`, `Transform`, `createHierarchy` over a ghost tree |
| skeleton.dfy | Skeletons | the ASF reader (functions and `Skeleton` methods), the bone registry, the load counter |
| amc.dfy | AmcFormat | the AMC reader as functions on the token stream |
| amc_records.dfy | AmcRecords | well-formed recordings, and what the AMC reader recovers from them |
| amc_reader.dfy | AmcReading | the AMC line readers as methods on the parser and a pose |
| motion_clip.dfy | MotionClips | `MotionClip`: `loadFromAMC`, trimming, insertion, `makeLoop` |

The parser's own source file is not part of this model. Its behaviour
(`peek`, `readToken`, `readNumber`, `expect`, `readLine`, `consumeLine`,
`done`) is given by the `Cursor` functions of `StringParsing`.

## Model

| member | source | states |
|---|---|---|
| Poses.Pose.constructor | src/Pose.ts:13-20 | a new pose has frame 0, the origin as root translation, the identity root rotation and no joint entries |
| Poses.Pose.SetRootPosition | src/Pose.ts:22-25 | only the root translation changes, and it becomes the given position |
| Poses.Pose.SetRootAngles | src/Pose.ts:34-37 | only the root rotation changes, and it becomes the Euler rotation of the angles |
| Poses.Pose.SetJointAngles | src/Pose.ts:39-43 | the Euler rotation of the angles is stored under the bone's name; every other entry and field is unchanged |
| Poses.JointOf | src/Pose.ts:45-53 | the stored rotation when the name has an entry, the identity when it has none |
| Poses.Pose.GetJointRotation | src/Pose.ts:45-53 | the same, read from the pose object |
| Poses.Pose.SetJointRotation | src/Pose.ts:55-58 | the rotation is stored under the name; every other entry and field is unchanged |
| Poses.LerpFrame | src/Pose.ts:62 | the interpolated frame number is a whole number |
| Poses.LerpValue | src/Pose.ts:60-77 | the blended pose has exactly the receiver's joint names |
| Poses.LerpAtZero | src/Pose.ts:60-77 | at alpha 0 a pose with a whole frame number is unchanged |
| Poses.LerpAtOne | src/Pose.ts:60-77 | at alpha 1 the pose takes the other pose's frame, root translation and root rotation; each of its own joints takes the other's rotation or the identity; no joint name is added |
| Poses.LerpRealBetween | src/Pose.ts:62 | for alpha in [0, 1] the interpolated number lies between its endpoints |
| Poses.LerpFrameBetween | src/Pose.ts:62 | for alpha in [0, 1] the rounded frame number lies between two whole frame numbers |
| Poses.Pose.Lerp | src/Pose.ts:60-77 | the receiver becomes the blend of its old value toward the argument's old value; the argument, when it is another pose, is unchanged |
| Poses.Pose.BlendJoints | src/Pose.ts:72-76 | each of the receiver's joints, and only those, is blended toward the target's rotation for that name |
| Poses.Pose.Clone | src/Pose.ts:79-91 | a new pose object with the same frame, root transform and joint entries |
| Geometry.LerpVec | src/Pose.ts:64-66 | vector interpolation gives the first vector at alpha 0 and the second at alpha 1 |
| Geometry.Blend | src/Pose.ts:68-75 | rotation blending gives the first rotation at alpha 0 and the second at alpha 1 |
| Geometry.Round | src/Pose.ts:62 | `Math.round` gives the whole number within half a unit below or at the value |
| Geometry.RoundIntegral | src/Pose.ts:62 | rounding a whole number gives it back |
| Bones.Bone.constructor | src/Bone.ts:17-29 | a new bone has an empty name, the origin direction, length 0, no enabled axes, identity axis rotations and no children; its host node is new and unattached |
| Bones.Bone.ResetTransform | src/Bone.ts:41-46 | the host node's position becomes the direction scaled by the length and its rotation zero; its parent is kept |
| Bones.Bone.Update | src/Bone.ts:47-81 | changes nothing: it has no modifies clause, and the bone, its host node and the pose are left as they were |
| Bones.Bone.CreateHierarchy | src/Bone.ts:31-39 | every bone of the subtree is reset and its node hangs under its parent bone's node, the top one under the given node |
| Bones.HangSubtree | src/Bone.ts:36-38 | hanging the next child's subtree keeps the subtrees of the earlier children as they were |
| Bones.DofCount | src/Skeleton.ts:212-231 | a bone has at most three enabled axes, and none exactly when all flags are off |
| Skeletons.LoadCounter.constructor | src/Skeleton.ts:8 | the count of pending loads starts at zero |
| Skeletons.Skeleton.constructor | src/Skeleton.ts:24-37 | an empty registry, radians, not loaded, origin root position, identity root rotation, no root bones; a new root node attached to the given parent |
| Skeletons.Skeleton.GetBone | src/Skeleton.ts:266-269 | the bone registered under the name, or null (the code's `undefined`) when there is none |
| Skeletons.Number3Reads | src/Skeleton.ts:133 | three `readNumber` calls succeed exactly when three numbers come next, and consume exactly those three |
| Skeletons.ReadVec | src/Skeleton.ts:133 | the three numbers are read as the cursor function says, or its error is returned |
| Skeletons.UnitsEntry | src/Skeleton.ts:88-101 | the `parseUnits` loop stops exactly when the next token is not `mass`, `length` or `angle`, and otherwise moves forward |
| Skeletons.UnitsEntryReads | src/Skeleton.ts:91-100 | `angle deg` selects degrees and any other angle word radians; `mass` and `length` skip the rest of their line |
| Skeletons.Units | src/Skeleton.ts:85-103 | the section ends at a token that is no unit key; once an angle unit is chosen, one stays chosen |
| Skeletons.Skeleton.ParseUnitsEntry | src/Skeleton.ts:90-100 | one pass of the loop moves the parser and sets `usingDegrees` as the entry function says, and changes nothing else |
| Skeletons.Skeleton.ParseUnits | src/Skeleton.ts:85-103 | the parser ends where the section function ends, and `usingDegrees` is the last angle unit read, or unchanged |
| Skeletons.ExpectChannels | src/Skeleton.ts:114-115 | the `expect` chain matches and consumes the channel words as far as they agree |
| Skeletons.RootEntry | src/Skeleton.ts:108-146 | the `parseRoot` loop stops normally exactly when the next token is not `order`, `axis`, `position` or `orientation`; a pass that goes on moves forward |
| Skeletons.RootOrder | src/Skeleton.ts:111-119 | `order` is accepted exactly when `TX TY TZ RX RY RZ` follow, else the order error is reported; the words that matched are consumed |
| Skeletons.Root | src/Skeleton.ts:105-147 | the section ends at a non-key token, or with the order or axis error |
| Skeletons.Skeleton.ParseRootEntry | src/Skeleton.ts:110-145 | one pass moves the parser and sets the root position (in metres) or orientation as the entry function says, and nothing else |
| Skeletons.Skeleton.ParseRoot | src/Skeleton.ts:105-147 | the outcome, the parser position and the root position and rotation are those the section function gives |
| Skeletons.DofEntry | src/Skeleton.ts:206-211 | `dof` enables `rx`, `ry`, `rz` only in that relative order and consumes exactly the words it matched |
| Skeletons.ReadDofs | src/Skeleton.ts:206-211 | the flags read and the parser position are those `DofsOf` gives |
| Skeletons.LimitsEntry | src/Skeleton.ts:212-231 | `limits` skips one whole line per enabled axis and changes nothing of the bone |
| Skeletons.SkipLimits | src/Skeleton.ts:212-231 | the parser skips as many lines as the bone has enabled axes |
| Skeletons.BlockEntry | src/Skeleton.ts:154-232 | one pass of a bone block moves forward or stops; the only error it reports is the bone-axis error |
| Skeletons.FieldEntry | src/Skeleton.ts:167-231 | a field entry never registers a name, and moves forward when it goes on |
| Skeletons.DirectionEntry | src/Skeleton.ts:167-172 | `direction` never registers a name |
| Skeletons.LengthEntry | src/Skeleton.ts:173-177 | `length` never registers a name |
| Skeletons.AxisEntry | src/Skeleton.ts:178-205 | `axis` never registers a name, and the only error it reports is the bone-axis error |
| Skeletons.BlockBody | src/Skeleton.ts:154-232 | a bone block ends normally or with the bone-axis error |
| Skeletons.BoneData | src/Skeleton.ts:149-234 | the section ends normally only where no `begin` follows |
| Skeletons.Register | src/Skeleton.ts:161-166 | every name a block gives is registered to that block's bone; other entries are kept |
| Skeletons.RegisterAll | src/Skeleton.ts:151-166 | after all blocks, exactly the old names and the new ones are registered, each to an old entry or a new bone |
| Skeletons.RegisterAllLast | src/Skeleton.ts:161-166 | a repeated name ends registered to the bone of the last block that gave it |
| Skeletons.Skeleton.ParseBoneEntry | src/Skeleton.ts:156-231 | one pass updates the parser, the bone and the registry as the entry function says; the bone's children are kept |
| Skeletons.Skeleton.ParseField | src/Skeleton.ts:167-231 | the field step updates the parser and the bone as `FieldEntry` says |
| Skeletons.Skeleton.ParseDirection | src/Skeleton.ts:167-172 | the direction step updates the parser and the bone as `DirectionEntry` says |
| Skeletons.Skeleton.ParseLength | src/Skeleton.ts:173-177 | the length step updates the parser and the bone as `LengthEntry` says |
| Skeletons.Skeleton.ParseAxis | src/Skeleton.ts:178-205 | the axis step updates the parser and the bone as `AxisEntry` says |
| Skeletons.Skeleton.ParseBlock | src/Skeleton.ts:154-232 | the block's outcome, the parser position, the bone's fields and the names registered to it are those `BlockBody` gives |
| Skeletons.Skeleton.ParseNewBlock | src/Skeleton.ts:151-232 | each block creates one new bone with no children, registered under the block's names |
| Skeletons.Skeleton.ParseBoneDataStep | src/Skeleton.ts:151-233 | one block read: the rest of the section then gives what the whole would have, or the outcome is the section's |
| Skeletons.Skeleton.ParseNextBlock | src/Skeleton.ts:151-233 | the block read is appended to those read so far and its bone is registered |
| Skeletons.Skeleton.ParseBoneData | src/Skeleton.ts:149-234 | the outcome and parser position are those `BoneData` gives; the registry is the old one with every block's names registered to that block's new bone |
| Skeletons.EdgesOf | src/Skeleton.ts:245-257 | a hierarchy line gives one parent-child pair per child, in listed order |
| Skeletons.HierarchyEntry | src/Skeleton.ts:242-257 | a line moves forward or stops; every pair it gives has `root` or a registered name as parent |
| Skeletons.HierarchyEntryReads | src/Skeleton.ts:242-257 | a line stops the load exactly when its parent is unregistered, not `root`, and has children |
| Skeletons.HierarchyLines | src/Skeleton.ts:240-258 | the lines up to `end` never report an error, and keep every parent known |
| Skeletons.Hierarchy | src/Skeleton.ts:236-264 | the section reports an error exactly when `begin` is missing, and then adds nothing and consumes nothing |
| Skeletons.RootsAdded | src/Skeleton.ts:246-250 | at most one root bone is added per pair |
| Skeletons.ChildrenAdded | src/Skeleton.ts:251-256 | at most one child is added to a bone per pair |
| Skeletons.Looked | src/Skeleton.ts:248-253 | one looked-up bone per listed name, null when unregistered |
| Skeletons.LineAdded | src/Skeleton.ts:245-257 | a `root` line appends its children to the root bones; any other line appends them to its parent's children only |
| Skeletons.EdgesLand | src/Skeleton.ts:245-257 | every pair with a known parent adds exactly one bone, to the root bones or to its parent |
| Skeletons.Skeleton.AppendRoots | src/Skeleton.ts:246-250 | the looked-up children are appended to the root bones, in order; nothing else changes |
| Skeletons.Skeleton.AppendChildren | src/Skeleton.ts:251-256 | the looked-up children are appended to the parent bone's children, in order; the bone's other fields are unchanged |
| Skeletons.Skeleton.ApplyRootLine | src/Skeleton.ts:245-250 | a `root` line adds its children to the root bones and to no bone's children |
| Skeletons.Skeleton.ApplyBoneLine | src/Skeleton.ts:251-256 | a bone's line adds its children to that bone only, and no root bones |
| Skeletons.Skeleton.ApplyLine | src/Skeleton.ts:245-257 | an unregistered non-root parent with children abandons the load with an unknown-bone error; otherwise the line's pairs land as stated |
| Skeletons.Skeleton.ParseHierarchyLine | src/Skeleton.ts:242-257 | one line updates the parser, the root bones and the bones' children as `HierarchyEntry` says |
| Skeletons.Skeleton.ParseHierarchyStep | src/Skeleton.ts:240-258 | one line read: the rest then gives what the whole would have, or the outcome is the section's |
| Skeletons.Skeleton.ParseHierarchyLines | src/Skeleton.ts:240-258 | the root bones and each bone's children grow by exactly the pairs the lines give |
| Skeletons.Skeleton.ParseHierarchy | src/Skeleton.ts:236-264 | the outcome, parser position, root bones and children are those `Hierarchy` gives |
| Skeletons.Skeleton.CreateHierarchy | src/Skeleton.ts:271-276 | every root bone's subtree is reset and mirrored under the skeleton's root node |
| Skeletons.Documentation | src/Skeleton.ts:66-70 | `:documentation` skips whole lines up to a token starting with ':' or the end |
| Skeletons.Skeleton.SkipDocumentation | src/Skeleton.ts:66-70 | the parser skips whole lines to where `Documentation` stops |
| Skeletons.ExpectThen | src/Skeleton.ts:114-115 | one more `expect` in the chain keeps the parser on course to what `ExpectAll` gives, and stops the chain at the first mismatch |
| Skeletons.AsfEntry | src/Skeleton.ts:49-76 | the top-level loop ends exactly at the end of the input; a pass that goes on moves forward and only adds registered names |
| Skeletons.SectionEntry | src/Skeleton.ts:51-75 | a top-level token never ends the loop by itself; a section that goes on only adds registered names |
| Skeletons.ReaderEntry | src/Skeleton.ts:54-61 | a section with its own reader never ends the loop by itself, and only adds registered names |
| Skeletons.UnknownTokenStops | src/Skeleton.ts:71-75 | a token that is neither a comment nor a section word stops the load, with that token as the error |
| Skeletons.SkippedLines | src/Skeleton.ts:52-65 | a comment, `:version` or `:name` skips the rest of its line and nothing else |
| Skeletons.Skeleton.ParseSection | src/Skeleton.ts:49-75 | one top-level pass does what `AsfEntry` says; when it goes on, the skeleton and every tracked or newly built bone, values and children, hold the old state with the section read applied (`ApplySection`); the bones it builds are new and none twice |
| Skeletons.Skeleton.ParseSectionAfter | src/Skeleton.ts:51-75 | the dispatch on the token read does what `SectionEntry` says; when it goes on, the state is the old one with the section applied, so a comment, `:version`, `:name` or `:documentation` leaves the skeleton and every bone as they were |
| Skeletons.Skeleton.ParseReaderSection | src/Skeleton.ts:54-61 | the section reader does what `ReaderEntry` says; when it goes on, the state is the old one with the section applied |
| Skeletons.Skeleton.LoadFromASF | src/Skeleton.ts:43-79 | the load ends with the error the top-level loop gives; when the loop reaches the end, the registry, angle unit, root position, root rotation, root bones and every old or newly built bone's value and children are those `Apply` gives for the sections read, the new bones being new objects, none twice; the pending count goes back down only then |
| Skeletons.Skeleton.ReadSections | src/Skeleton.ts:49-76 | the loop of the load: its error is the run's; when it reaches the end, the skeleton and the bones hold `Apply` of the run's sections |
| Skeletons.Skeleton.LoadStep | src/Skeleton.ts:50-75 | one pass keeps the loop's invariant: the state becomes that of the sections read so far plus the one just read |
| Skeletons.Skeleton.PassOver | src/Skeleton.ts:52-75 | a comment, `:version`, `:name` or `:documentation` moves the parser as `SkipTo` says; any other token outside the readers is the unknown-token error and moves nothing |
| Skeletons.Skeleton.ReadUnitsSection | src/Skeleton.ts:54-55 | `:units` as a pass: it never fails, builds no bone, and applies the units read |
| Skeletons.Skeleton.ParseUnitsOver | src/Skeleton.ts:85-103 | the parser ends where `Units` says, the registry is kept, and the state is the old one with the angle unit read applied |
| Skeletons.Skeleton.ReadRootSection | src/Skeleton.ts:56-57 | `:root` as a pass: it builds no bone, fails as `Root` does, and otherwise applies the root position and orientation read |
| Skeletons.Skeleton.ParseRootOver | src/Skeleton.ts:105-147 | the outcome and parser position are `Root`'s; the registry and angle unit are kept; the state is the old one with the root position and orientation applied |
| Skeletons.Skeleton.ReadBoneDataSection | src/Skeleton.ts:58-59 | `:bonedata` as a pass: one new bone per block, none twice, and the state is the old one with those bones added |
| Skeletons.Skeleton.ParseBoneDataOver | src/Skeleton.ts:149-234 | the outcome and parser position are `BoneData`'s; the registry gains the blocks' names; the state is the old one with one new bone per block holding its block's value and no children (`AddBones`) |
| Skeletons.Skeleton.ParseBoneDataKept | src/Skeleton.ts:149-234 | the same, bone by bone: every bone known before keeps its value and children and is not among the new ones |
| Skeletons.Skeleton.ReadHierarchySection | src/Skeleton.ts:60-61 | `:hierarchy` as a pass: it builds no bone, fails as `Hierarchy` does, and otherwise applies the pairs read |
| Skeletons.Skeleton.ParseHierarchyOver | src/Skeleton.ts:236-264 | the outcome and parser position are `Hierarchy`'s; the registry and angle unit are kept; the state is the old one with the pairs added (`AddEdges`) |
| Skeletons.Skeleton.ParseHierarchyKids | src/Skeleton.ts:236-264 | the same, bone by bone: the root bones and each tracked bone's children grow by exactly the pairs the lines give; bone values are kept |
| Skeletons.ApplySnoc | src/Skeleton.ts:49-76 | the state after one more section is that section applied to the state before it |
| Skeletons.NewValuesAt | src/Skeleton.ts:151-166 | the `i`-th bone built holds the `i`-th block's value |
| Skeletons.NewValuesMap | src/Skeleton.ts:151-166 | old bones kept as they were and new bones holding their blocks' values make exactly the old values plus `NewValues` |
| Skeletons.NewKidsMap | src/Skeleton.ts:151-166 | old bones keeping their children and new bones with none make exactly the old children plus empty lists for the new bones |
| Skeletons.HierarchyValues | src/Skeleton.ts:236-264 | root bones and children grown by the pairs, everything else kept, is exactly `AddEdges` |
| Skeletons.NoChildrenAdded | src/Skeleton.ts:251-256 | a bone registered under no name receives no children |
| Skeletons.SectionAgrees | src/Skeleton.ts:49-75 | the names and angle unit the loop goes on with are the registry and angle unit of the state the pass builds |
| Skeletons.ReaderAgrees | src/Skeleton.ts:54-61 | the same for a section with its own reader |
| Skeletons.BonesAgree | src/Skeleton.ts:58-59 | the same for `:bonedata`: the names the loop goes on with are the registry's after the new bones are added |
| Skeletons.HierarchyAgrees | src/Skeleton.ts:60-61 | the same for `:hierarchy`, which keeps the registry and angle unit |
| Skeletons.DofFieldEntry | src/Skeleton.ts:206-231 | `dof` and `limits` never register a name and move forward; any other token stops the block with a fatal error |
| AmcFormat.Header | src/MotionClip.ts:35-39 | header lines are skipped until the next token starts with neither '#' nor ':' |
| AmcFormat.NumberAt | src/MotionClip.ts:43 | `readNumber` succeeds exactly on a number, gives its value and consumes it |
| AmcFormat.TripleRead | src/MotionClip.ts:52-55 | three numbers are read exactly when three follow |
| AmcFormat.AnglesRead | src/MotionClip.ts:76-83 | a joint line reads exactly one number per enabled axis, in X, Y, Z order, fails exactly when fewer follow, and leaves disabled axes at 0 |
| AmcFormat.RootLineRead | src/MotionClip.ts:49-67 | a `root` line reads exactly six numbers: the translation scaled to metres, then three angles converted to radians |
| AmcFormat.JointLineRead | src/MotionClip.ts:68-86 | an unregistered name stops the load; a registered one reads its angles and sets the joint under the bone's own name, nothing else |
| AmcFormat.BoneLineSuffix | src/MotionClip.ts:48-86 | a bone line consumes a prefix of the stream and keeps the frame number |
| AmcFormat.BoneLines | src/MotionClip.ts:46-87 | the bone lines run up to the next number or the end of the input, and keep the frame number |
| AmcFormat.FrameOf | src/MotionClip.ts:42-87 | a frame starts at a number, takes it as its frame number, and stops before the next number |
| AmcFormat.FrameStep | src/MotionClip.ts:40-90 | a frame read whole is followed by the frames after it |
| AmcFormat.FramesNumbered | src/MotionClip.ts:40-90 | the first pose appended carries the number the frames start with; no more poses than tokens |
| AmcRecords.PosesOf | src/MotionClip.ts:40-90 | one pose per recorded frame |
| AmcRecords.SampleRead | src/MotionClip.ts:48-86 | a well-formed bone line sets exactly its recorded values |
| AmcRecords.SamplesRead | src/MotionClip.ts:46-87 | a frame's bone lines are applied in order |
| AmcRecords.RecordRead | src/MotionClip.ts:42-87 | a well-formed frame reads as the pose it records |
| AmcRecords.RecordsRead | src/MotionClip.ts:40-90 | well-formed frames read as their poses, in order, then the frames after them |
| AmcRecords.FramesRead | src/MotionClip.ts:40-90 | a well-formed recording reads as exactly one pose per frame, in file order, with no error |
| AmcRecords.UnknownBoneRead | src/MotionClip.ts:68-85 | a frame naming an unregistered bone stops the load after the frames before it, with that name as the error |
| AmcRecords.BadFrameRead | src/MotionClip.ts:68-85 | a first frame naming an unregistered bone appends nothing |
| AmcRecords.HeaderSkipped | src/MotionClip.ts:35-39 | header lines starting with '#' or ':' are skipped whole |
| AmcRecords.AmcRead | src/MotionClip.ts:32-91 | a header followed by a well-formed recording loads exactly its poses, in order |
| AmcReading.NumberView | src/MotionClip.ts:43 | `readNumber` on the cursor reads the head of the token stream ahead |
| AmcReading.TripleView | src/MotionClip.ts:52-55 | three `readNumber` calls on the cursor read the three numbers ahead |
| AmcReading.NextNumber | src/MotionClip.ts:43 | the parser reads and consumes what `NumberAt` says |
| AmcReading.NextTriple | src/MotionClip.ts:52-55 | the parser reads and consumes what `TripleOf` says |
| AmcReading.ReadAxis | src/MotionClip.ts:76-83 | an angle is read and converted only when its axis is enabled |
| AmcReading.ReadAngles | src/MotionClip.ts:73-83 | the angles read and the tokens consumed are those `AnglesOf` gives |
| AmcReading.ParseRootLine | src/MotionClip.ts:51-66 | the pose and parser after a `root` line are those `BoneLine` gives, or its error |
| AmcReading.RootLineAnyCatalog | src/MotionClip.ts:49-67 | a `root` line reads the same whatever bones the skeleton has |
| AmcReading.ParseBoneLine | src/MotionClip.ts:49-86 | the pose and parser after a bone line are those `BoneLine` gives for the skeleton's bones, or its error |
| AmcReading.ParseNamedLine | src/MotionClip.ts:48-86 | one pass of the bone-line loop shortens the stream and leaves the rest yielding the same, or stops with the error |
| AmcReading.ParseBoneLines | src/MotionClip.ts:46-87 | the pose and parser after the bone lines are those `BoneLines` gives, or its error |
| AmcReading.ParseFrame | src/MotionClip.ts:42-87 | a new pose filled as `FrameOf` says, with the parser where it stops, or its error |
| AmcReading.SkipHeader | src/MotionClip.ts:35-39 | the parser ends where `Header` does |
| MotionClips.MotionClip.constructor | src/MotionClip.ts:17-20 | a new clip has no frames |
| MotionClips.SpliceFront | src/MotionClip.ts:98-101 | `splice(0, n)` removes the first `n` frames, none for a negative `n`, all when `n` exceeds the length |
| MotionClips.SpliceBack | src/MotionClip.ts:103-106 | `splice(len - n, n)` removes exactly the last `n` frames for `0 <= n <= len`, none for a negative `n` |
| MotionClips.SpliceBackOvershoot | src/MotionClip.ts:105 | two frames trimmed by three keep the first frame |
| MotionClips.DropLastRemoves | src/MotionClip.ts:103-106 | trimming the last `n` succeeds exactly when `0 <= n <= len`; it then keeps a prefix, removes exactly `n` and agrees with the code; a count out of range is refused |
| MotionClips.MotionClip.TrimFront | src/MotionClip.ts:98-101 | the frames become what `splice(0, n)` leaves |
| MotionClips.MotionClip.TrimBack | src/MotionClip.ts:103-106 | the frames become what `splice(len - n, n)` leaves |
| MotionClips.MotionClip.PrependPose | src/MotionClip.ts:108-111 | the pose is inserted before the old frames |
| MotionClips.MotionClip.AppendPose | src/MotionClip.ts:113-116 | the pose is appended after the old frames |
| MotionClips.AlphaRuns | src/MotionClip.ts:126-128 | the blend weights run from exactly 0 to exactly 1, strictly increasing |
| MotionClips.AlphaOrder | src/MotionClip.ts:128 | a later blended frame has a strictly larger weight within [0, 1] |
| MotionClips.LoopPoses | src/MotionClip.ts:118-131 | `makeLoop(k)` leaves a clip `k` frames shorter |
| MotionClips.Crossfade | src/MotionClip.ts:126-131 | the cross-faded clip is `k` frames shorter |
| MotionClips.LoopValues | src/MotionClip.ts:118-131 | the looped clip's values are `k` frames fewer |
| MotionClips.LoopShape | src/MotionClip.ts:121-130 | frame `i < k` becomes old tail pose `L-k+i` blended toward old pose `i` with weight `i/(k-1)`; frames `k` to `L-k-1` are untouched |
| MotionClips.LoopSeam | src/MotionClip.ts:126-131 | the first looped frame is the old tail's first pose unchanged; the `k-1`-th takes the head pose's frame and root transform |
| MotionClips.LoopFramesBetween | src/MotionClip.ts:126-131 | each blended frame number lies between the two it was blended from |
| MotionClips.LoopPosesAt | src/MotionClip.ts:121-130 | the pose at each index of the looped clip |
| MotionClips.LoopPosesValues | src/MotionClip.ts:118-131 | rearranging pose objects and rearranging their values agree |
| MotionClips.BlendedUpTo | src/MotionClip.ts:126-131 | blending in place keeps the clip's length |
| MotionClips.BlendedAt | src/MotionClip.ts:126-131 | after `i` passes, exactly the first `i` tail poses are blended, each toward its head pose with its weight |
| MotionClips.BlendedLerpNext | src/MotionClip.ts:128-129 | one more pass blends exactly the next tail pose |
| MotionClips.InPlaceCrossfade | src/MotionClip.ts:126-131 | blending in place, then rearranging, gives the cross-faded clip |
| MotionClips.Overwritten | src/MotionClip.ts:130 | overwriting head slots keeps the head's length |
| MotionClips.OverwrittenPrefix | src/MotionClip.ts:130 | after `i` passes the first `i` slots hold the tail poses and the rest the head |
| MotionClips.TailOverHead | src/MotionClip.ts:121-124 | the popped tail followed by the remaining head past `k` is the looped clip |
| MotionClips.BlendPose | src/MotionClip.ts:129 | `lerp` changes only the value of the pose it is called on |
| MotionClips.BlendTail | src/MotionClip.ts:128-129 | one `lerp` call advances the in-place blend by one pose |
| MotionClips.MotionClip.PopInto | src/MotionClip.ts:120-124 | the last `k` frames move, in order, to the front of the temporary clip |
| MotionClips.MotionClip.BlendStep | src/MotionClip.ts:128-130 | one pass blends the next tail pose and stores it in slot `i` |
| MotionClips.MotionClip.BlendFrom | src/MotionClip.ts:126-131 | the first `k` slots hold the tail poses, each blended as `BlendedUpTo` says |
| MotionClips.MotionClip.MakeLoop | src/MotionClip.ts:118-132 | the frames become the looped arrangement of the old pose objects, and their values the cross-faded old values |
| MotionClips.MotionClip.LoadFromAMC | src/MotionClip.ts:26-94 | the poses appended are the file's frames, in order, up to the first that fails; old frames stay; no pose object is stored twice; the pending count goes back down only when the whole file was read |
| MotionClips.MotionClip.ReadMotion | src/MotionClip.ts:30-91 | a parser over the text, then the outer loop: the poses appended are the file's frames up to the first that fails, and the error is the one that stops the read |
| MotionClips.MotionClip.ParseText | src/MotionClip.ts:32-91 | the outer loop appends the file's frames, or nothing for a text with no token |
| MotionClips.MotionClip.ParseFile | src/MotionClip.ts:34-90 | the header is skipped and the frames appended; without error the parser is at the end |
| MotionClips.MotionClip.ParseFrames | src/MotionClip.ts:40-90 | the poses pushed are the frames ahead, in order, up to the first that fails; without error the input is used up |
| MotionClips.MotionClip.PushFrame | src/MotionClip.ts:42-89 | one pass reads a frame into a new pose and pushes it, or stops with the error the frames ahead stop with |
| MotionClips.MotionClip.PushFresh | src/MotionClip.ts:89 | a pose not yet in the clip is pushed, and no pose object is then stored twice |
| MotionClips.NothingToLoad | src/MotionClip.ts:32 | a text with no token loads nothing |
| MotionClips.FramesAtEnd | src/MotionClip.ts:40 | the frame loop at the end of the input appends nothing |

## Left out

- The file loading (`THREE.FileLoader`, its asynchronous callback) and the console messages: the file's text arrives as tokenised lines.
- The parser's own source is not part of this model. Its tokens come already classified: a `Num` token stands for one on which `isNaN(Number(t))` is false.
- `readNumber` on a token that is not a number is modelled as an error that abandons the load (`NotANumber`). The code would read `NaN` and carry on.
- An AMC bone name with no entry in the skeleton is modelled as an `UnknownBone` error that abandons the load. The code fails there with a `TypeError` on `bone.dofs`.
- An undeclared hierarchy parent that has children is modelled the same way. An undeclared child is stored as `null`, as the code stores `undefined`.
- A loop of the code that would never end (an unknown key inside a bone block, a missing `end`) stops with a `NoProgress` error.
- Rotation math: matrices, quaternions, `makeRotationFromEuler`, `invert`, `slerp` and `applyMatrix4`. Rotations are symbolic terms; blending obeys only its endpoint laws.
- Floating point: numbers are exact reals; `Math.PI` is a 16-digit constant; the 0.056444 unit scale is exact.
- `Skeleton.update` (src/Skeleton.ts:278-298): rotation math on the scene graph.
- `Bone.update` is an empty stub in the code. `Bones.Bone.Update` has an empty body and may change nothing.
- Scene-graph attachment is only a `parent` field on `Transform`.
- Poses.Pose.SetJointRotation: rotations are values in the model. The code stores the caller's `Matrix4` object itself (src/Pose.ts:57), so the caller and the pose share it; that sharing is not modelled.
- Poses.Pose.GetJointRotation: returns the stored rotation as a value. The code returns the stored `Matrix4` object (src/Pose.ts:47-50), so a caller that changes it changes the pose; that is not modelled.
- Poses.Pose.Lerp: states that the argument pose is unchanged. In the code this holds only when the two poses share no `Matrix4` object, since the blend writes into each stored matrix in place (src/Pose.ts:75).
- The static `numLoading` counters are `LoadCounter` objects passed to the loaders. `finishedLoading` is `LoadCounter.FinishedLoading`.
- The `createHierarchy` call at the end of a successful `loadFromASF` is left to the caller of `Skeletons.Skeleton.LoadFromASF`, which then calls `Skeletons.Skeleton.CreateHierarchy`.
- Skeletons.Skeleton.LoadFromASF: states the skeleton and the bones only for a load that reaches the end of the input. After a load abandoned with an error it states only the error and the pending count.
- Skeletons.Skeleton.CreateHierarchy: requires the root bones and their children to form a finite tree with no shared bone and no null child. The code recurses forever on a cycle and fails on an undeclared child.
- Bones.Bone.CreateHierarchy: requires the same of its subtree, for the same reason.
- MotionClips.MotionClip.MakeLoop: requires `k <= 0`, or `2 <= k` with `2k <= L`. With `k = 1` the code divides 0 by 0. With `2k > L` it reads past the end of the array.
- MotionClips.MotionClip.MakeLoop: requires that no pose object be stored twice in the clip. A shared pose would be blended twice in place.
- MotionClips.MotionClip.LoadFromAMC: does not state that the poses appended are new objects. It states only that no pose object is stored twice when none was before.
- The outer `while` loop of `loadFromAMC` runs its body at most once, since the frame loop only stops at the end of the input. It is kept as a loop.
- A numeric token after the numbers a bone line reads starts a new frame, as the code does. It is not reported as an error.
- `parseRoot` reads the root orientation's angles without converting degrees. The model follows the code.

## Findings

| source | as written | input that shows it | evidently intended | confidence | as-written member | corrected member |
|---|---|---|---|---|---|---|
| src/MotionClip.ts:105 | `splice(length - n, n)`: a negative start counts back from the end | a clip of 2 frames, `trimBack(3)`: the first frame stays | trimming more frames than the clip holds is a checked error, not a partial trim | not executed | MotionClips.SpliceBackOvershoot | MotionClips.DropLastRemoves |
