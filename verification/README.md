# A verified model of yoetz's transport, schemas, resources and gates

The project states and proves what the hardest parts of yoetz promise. Each module follows one component of the repository; code that updates state is a class or a method with loops, proved against a function of its inputs, and code that computes is a function. Everything quantifies over all inputs, all ways reads and writes are cut, and all interleavings.

**The MCP stdio bridge.** `Lines`, `Pipe`, `Frames`, `ErrorFrames`, `StdioReader`, `DrainTracker`, `FrameWriter`, `Bridge` and `BridgeProgress` cover `src/yoetz/adapters/mcp_stdio.py`. The reader is a class over a byte buffer; reads return any positive number of bytes, may be interrupted and may fail. `Bridge` is the transition system of reader, application, forwarder and writer over zero-capacity channels, one step per suspension point or system call; `BridgeProgress` shows when its drained exit can still be reached. `CaptureFramer` is the second, budgeted framer of `scripts/capture_codex_mcp_surface.py`.

**The schema transformer.** `Json`, `JsonSchema` (a fragment of JSON Schema 2020-12 with acceptance and rejection defined separately), `SchemaVerdict`, `SchemaRelation`, `SchemaPasses`, `SchemaMeaning`, `SchemaRename` and `SchemaNormalize` cover the normalization of generated schemas; `Digits` the hand-written digit patterns; `OneOf` and `OneOfMeaning` the derivation of the event-draft union. All model `scripts/generate_schemas.py`.

**The resource synchronizer and its fixed point.** `Paths`, `ResourceSync` (one replacement or removal at a time, stoppable after any of them), `ResourceManifest` (builder, installed loader and the digest bound into a member of its own set), `OwnedDigest`, `Ripple` (the outer loop) and `AgentTrees`.

**Three smaller cores.** `RuntimeWalk` (the stack walk of the boundary scan), `Parity` (the dogfood gate) and `Upsert` (the sorted fixture manifest).

Library code and hashes stay open: JSON decoding, message validation, canonical encoding and SHA-256 are parameters, and a lemma that needs something of them (that encoding one document and parsing it loses nothing, that two inputs do not collide) says so in its `requires`.

## What the proofs found

- After a response is on stdout and before the forwarder resumes, the drain counter is one above the number of unanswered requests; `Bridge.PendingIs` gives the exact value in every state and `Bridge.PendingCanLag` a run that reaches the lag, whatever the response says. The drain guarantee does not suffer, because the lag is on the safe side.
- From every unfailed state before the exit the drained exit is still within reach at the end of the input, unless the forwarder holds a message above the limit while a response is owed: the writer then refuses that message and the bridge fails (`BridgeProgress.DrainReachableIff`). An oversized message with nothing owed does not stand in the way.
- Closing objects narrows except below `not`, `oneOf` and `if`: wherever it turns an acceptance of a body into a rejection, putting the body there makes the same pass accept more (`SchemaMeaning.ClosingBelowWidens`, and `SchemaMeaning.EnforceCanWiden` for schemas where it happens). `SchemaNormalize.NormalizeOnlyNarrows` holds as long as such bodies, and the definitions they refer to, leave nothing open; `SchemaNormalize.NormalizeKeepsMeaning` needs no such condition.
- Renaming makes a dangling reference resolve exactly when it is the name some definition is about to get (`SchemaRename.DanglingResolvesIff`). Where no reference is captured so, renaming changes no verdict (`SchemaRename.RenameKeepsMeaning`).
- The opaque derivation keeps only the first of the frozen exclusions. A frozen opaque schema that lists its pairs separately would be unambiguous at 1.0.0 and ambiguous at 1.1.0 (`OneOfMeaning.ListedPairsAreLost`); the two `Unambiguous` lemmas give the exact condition on the frozen schemas.
- The builder's size caps (2,000,000 and 20,000,000 bytes) are not the loader's (4,194,304): `ResourceManifest.BuiltIffAdmitted` says exactly when what is built also loads, and by `ResourceManifest.CapsDisagree` any binary file between the two limits gives a set that is built and does not load.
- Fixtures of different paths and ids do not always commute (`Upsert.OrderCanMatter`); `Upsert.CommuteIff` says exactly when one order fails and the other does not.
- An agent-tree write that is stopped with leftovers still to remove, once the marker is written or while it is being written, is refused afterwards unless what then stands in the marker's place happens to record what is left; it is accepted again as long as the old marker is untouched or nothing is left to remove (`AgentTrees.StoppedWrite`, over every stopping point; `AgentTrees.StoppedWriteRefused` for a tree, a rendering and two such stops). The resource synchronizer, which stages its files and replaces its manifest last, has no such state (`ResourceSync.Restartable`).
- Two checks can never fire: an unadvertised capability that is not marked unsupported is always found by an earlier check (`Parity.FirstViolation`), and on a sorted manifest an upsert never disturbs another member (`Upsert.RefusedFor`).

## Model

| member | source | states |
|---|---|---|
| Lines.SplitJoin | src/yoetz/adapters/mcp_stdio.py:313-321 | Splitting a stream at newlines loses nothing: lines and tail make it up again |
| Lines.JoinSplit | src/yoetz/adapters/mcp_stdio.py:243-257 | Lines joined and split again are the same lines: what a peer recovers from whole frames |
| Frames.ValidateTree | src/yoetz/adapters/mcp_stdio.py:157-184 | The iterative walk accepts exactly the trees whose nesting is within the bound and whose keys and strings are all encodable |
| Frames.ContainerFits | src/yoetz/adapters/mcp_stdio.py:165-184 | A container within the bound fits exactly when its keys and children fit one level down |
| Frames.HeightIsDeepest | src/yoetz/adapters/mcp_stdio.py:160-163 | The depth that is bounded is the number of containers, root included, on the longest path into the document |
| ErrorFrames.CheckLimit | src/yoetz/adapters/mcp_stdio.py:352-357 | Start-up admits a limit exactly when every error frame fits it and it is not above the cap |
| ErrorFrames.EveryRejectionFits | src/yoetz/adapters/mcp_stdio.py:196-213 | Every reason the parser can raise has an error frame of one line that fits any admitted limit |
| ErrorFrames.FramesTell | src/yoetz/adapters/mcp_stdio.py:196-213 | Exactly the oversized frame is an invalid request, and different reasons have different frames |
| ErrorFrames.ParseFrame | src/yoetz/adapters/mcp_stdio.py:115-154 | Each reason is given exactly in its own case, and a message exactly when the bytes, the text, the document, its nesting and encodability, and the validator all allow it |
| ErrorFrames.ObjectPairs | src/yoetz/adapters/mcp_stdio.py:127-133 | The decoder hook keeps the members in order and refuses exactly a repeated name |
| StdioReader.Reader.Accept | src/yoetz/adapters/mcp_stdio.py:312-334 | Taking in a chunk handles every line it completes and keeps the buffer within the limit, or reports the first overlong run |
| StdioReader.Reader.Turn | src/yoetz/adapters/mcp_stdio.py:295-334 | One read either ends the stream as the whole stream would, or makes progress and keeps the invariant; the branch for a full buffer never runs |
| StdioReader.Reader.Run | src/yoetz/adapters/mcp_stdio.py:284-337 | However reads are cut, the events and the ending are those of splitting the whole stream at newlines |
| StdioReader.CleanEndIff | src/yoetz/adapters/mcp_stdio.py:307-334 | Exactly the streams of whole lines within the limit end cleanly, and each line then gives one event in order |
| StdioReader.ReadingIs | src/yoetz/adapters/mcp_stdio.py:307-334 | Read off the lines themselves: one event each, as the parser takes it, up to the first overlong one, and the ending that the rest of the stream calls for |
| StdioReader.OverlongStream | src/yoetz/adapters/mcp_stdio.py:315-318 | A held run above the limit decides the rest of the stream, whatever follows |
| DrainTracker.DrainTracker.RequestStarted | src/yoetz/adapters/mcp_stdio.py:90-95 | Counts the request; the event is replaced only when nothing was pending |
| DrainTracker.DrainTracker.ResponseFinished | src/yoetz/adapters/mcp_stdio.py:97-104 | Uncounts a response and sets the event exactly when that was the last |
| DrainTracker.DrainTracker.BeginWait | src/yoetz/adapters/mcp_stdio.py:106-112 | Waits exactly when enabled with something pending, and on the current event |
| FrameWriter.WriteAll | src/yoetz/adapters/mcp_stdio.py:224-240 | Partial writes add up to the payload and its newline, or on failure to a proper part of them |
| Bridge.InvariantHolds | src/yoetz/adapters/mcp_stdio.py:243-337 | The bridge invariant holds after every sequence of steps |
| Bridge.PendingIs | src/yoetz/adapters/mcp_stdio.py:84-112 | In every state the counter is requests counted minus responses written, plus one exactly between a write and its acknowledgement; the event is set exactly at zero |
| Bridge.PendingCanLag | src/yoetz/adapters/mcp_stdio.py:260-273 | Whatever response a single request gets, there is a run in which it is written and the counter still stands at one |
| Bridge.WakesExactlyWhenDrained | src/yoetz/adapters/mcp_stdio.py:106-112 | A waiting reader can leave drained exactly when nothing is pending, and then every request is answered and acknowledged |
| Bridge.EndOfInput | src/yoetz/adapters/mcp_stdio.py:307-318 | At the end of its input the reader leaves for an oversized frame, fails when the input did, waits exactly while it is to drain and a request is unacknowledged, and otherwise leaves |
| Bridge.MayStop | src/yoetz/adapters/mcp_stdio.py:111-112 | A waiting reader may time out at any moment, and anything may fail |
| Bridge.FailedStays | src/yoetz/adapters/mcp_stdio.py:392-397 | A bridge that has failed does nothing more |
| Bridge.DrainSafety | src/yoetz/adapters/mcp_stdio.py:260-337 | A reader that left without timing out has every request answered by exactly one complete frame on stdout, over every interleaving |
| Bridge.StdoutIsFrames | src/yoetz/adapters/mcp_stdio.py:243-281 | Stdout is always whole frames and a part of at most one more, without carriage returns, each line what was sent or reported, each producer's in its own order, and a peer with the same limit recovers the payloads |
| Bridge.StdoutGrows | src/yoetz/adapters/mcp_stdio.py:224-240 | What is on stdout stays there, and every write adds to it |
| Bridge.RejectionsAreFrames | src/yoetz/adapters/mcp_stdio.py:278-281 | Every error frame the reader sends is one line within the limit |
| Bridge.DrainedBridge | src/yoetz/adapters/mcp_stdio.py:284-397 | For every input and interleaving: a drained exit means the whole stream was lines within the limit, every line the parser takes for a request is answered by one line of stdout and nothing else is answered, and the error frames of the lines it refuses were written, in order |
| Bridge.ScriptCounts | src/yoetz/adapters/mcp_stdio.py:322-333 | The work list counts a request for every line that is one, and carries the error frame of every line that is refused |
| BridgeProgress.DrainReachableIff | src/yoetz/adapters/mcp_stdio.py:243-337 | From every state a run can reach, unfailed and before the exit, some continuation ends in the drained exit if and only if the forwarder does not hold an oversized message while a response is owed |
| BridgeProgress.StaysStuck | src/yoetz/adapters/mcp_stdio.py:251-253 | With draining on, an oversized message held while a response is owed stays so until the bridge fails, whatever the interleaving |
| Bridge.DrainedAtEof | src/yoetz/adapters/mcp_stdio.py:307-311 | Only a clean end of input lets the reader leave drained |
| CaptureFramer.Framer.PutMessage | scripts/capture_codex_mcp_surface.py:38-47 | A line is queued unless it is empty or breaks the count or length budget |
| CaptureFramer.Framer.Take | scripts/capture_codex_mcp_surface.py:50-72 | A chunk that fails the framer proves that the whole stream breaks the budget named, whatever follows |
| CaptureFramer.Framer.DrainStdout | scripts/capture_codex_mcp_surface.py:50-72 | Success exactly when the whole stream is within budget, however it is cut; then the non-empty lines, else a prefix of them and one error naming a budget the stream breaks, and always one end mark |
| CaptureFramer.MessagesGrow | scripts/capture_codex_mcp_surface.py:50-72 | The non-empty lines of a stream begin with those of every part of it |
| CaptureFramer.RefusedIsOverBudget | scripts/capture_codex_mcp_surface.py:38-47 | A refused line puts every continuation of the stream over the budget it is refused for |
| SchemaRelation.OneVerdict | scripts/generate_schemas.py:7005-7075 | No instance is both accepted and rejected by a schema, however far references are followed for each |
| SchemaVerdict.EveryInstanceDecided | scripts/generate_schemas.py:7005-7075 | In a schema without references of its own every instance is accepted or rejected, and accepted exactly when valid by a plain reading of the standard |
| SchemaRelation.Carries | scripts/generate_schemas.py:7005-7059 | A verdict on a related schema carries back, with polarity through `not`, both ways below `oneOf` and `if`, and through references |
| SchemaRelation.CarriesUnevaluated | scripts/generate_schemas.py:7028-7043 | The verdict of `unevaluatedProperties` carries back as well, although closing an object changes which properties its neighbours have evaluated |
| SchemaPasses.SortFixes | scripts/generate_schemas.py:7005-7025 | Sorting puts the lists in order, fixes sorted documents, and undoes neither other pass |
| SchemaPasses.SortedPlaces | scripts/generate_schemas.py:7005-7025 | Place by place: the values of `required`, and of an `enum` of strings, are rearranged by code point, and nothing else changes |
| SchemaPasses.EnforceFixes | scripts/generate_schemas.py:7028-7043 | Closing leaves nothing open, fixes closed documents, and brings back no comment |
| SchemaPasses.ClosedPlaces | scripts/generate_schemas.py:7028-7043 | Place by place: an object of type `object` with `properties` and without `additionalProperties` gains that one member, false; any other keeps exactly its members |
| SchemaPasses.ClosedRefuses | scripts/generate_schemas.py:7028-7043 | The closed form of such an object rejects every instance with a member it does not declare |
| SchemaPasses.StrippedPlaces | scripts/generate_schemas.py:7046-7059 | Place by place: what stands in a `$comment` goes, and nothing else |
| SchemaPasses.NormalizedIsNormal | scripts/generate_schemas.py:7062-7066 | The three passes reach a normal form, leave exactly the normal forms alone, and are idempotent |
| SchemaNormalize.PublishedPlaces | scripts/generate_schemas.py:7062-7075 | The published document carries its identification, and at each of its places there is no comment, no typed object with properties left open, and lists are in order |
| SchemaMeaning.SortKeepsMeaning | scripts/generate_schemas.py:7005-7025 | Sorting lists changes no verdict on any instance |
| SchemaMeaning.StripKeepsMeaning | scripts/generate_schemas.py:7046-7059 | Removing comments changes no verdict on any instance |
| SchemaMeaning.EnforceOnlyNarrows | scripts/generate_schemas.py:7028-7043 | Closing objects accepts nothing new when bodies below `not`, `oneOf` and `if`, and all they refer to, leave nothing open |
| SchemaMeaning.ClosingBelowWidens | scripts/generate_schemas.py:7028-7043 | Whenever closing rejects an instance a body accepted, the same pass widens that body below `not`, `oneOf` and `if` |
| SchemaMeaning.EnforceCanWiden | scripts/generate_schemas.py:7028-7043 | It happens: three concrete schemas and an instance |
| SchemaRename.NewKeyIs | scripts/generate_schemas.py:6975-6981 | `Model` is taken off first and `Payload` next, each unless nothing would be left |
| SchemaRename.WalkedPlaces | scripts/generate_schemas.py:6983-6995 | Place by place: renaming changes references to definitions, wherever they stand, and nothing else |
| SchemaRename.DefinitionsKeptIff | scripts/generate_schemas.py:6968-7002 | Every definition is found under its new name exactly when no two different ones share one |
| SchemaRename.ResolutionKept | scripts/generate_schemas.py:6968-7002 | A reference that resolved resolves to the renamed image of the same definition |
| SchemaRename.DanglingResolvesIff | scripts/generate_schemas.py:6968-7002 | A reference that named nothing names something afterwards exactly when it is the new name of some definition |
| SchemaRename.DanglingMayResolve | scripts/generate_schemas.py:6968-7002 | It happens: a concrete document |
| SchemaRename.RenameKeepsMeaning | scripts/generate_schemas.py:6968-7002 | When no two different definitions come to share a name and no reference is captured, renaming changes no verdict, through references at any depth and in cycles |
| SchemaNormalize.IdentificationIsInert | scripts/generate_schemas.py:7068-7075 | Replacing title, `$schema` and `$id` changes no verdict |
| SchemaNormalize.NormalizeKeepsMeaning | scripts/generate_schemas.py:7062-7075 | A generated document that leaves no object open is published with exactly its verdicts |
| SchemaNormalize.NormalizeOnlyNarrows | scripts/generate_schemas.py:7062-7075 | Any other is published with no instance more, when bodies below `not`, `oneOf` and `if` leave nothing open and refer only to definitions that do not either |
| Digits.DecimalIsCanonical | scripts/generate_schemas.py:1440-1441 | The decimal of a number is canonical and has that value |
| Digits.CanonicalIsDecimal | scripts/generate_schemas.py:1440-1441 | A canonical numeral is the decimal of its value |
| Digits.PieceDenotes | scripts/generate_schemas.py:1440-1441 | A fixed-width alternative matches exactly the numerals of that width in one numeric interval |
| Digits.UintDenotes | scripts/generate_schemas.py:1440-1441 | Alternatives denoting neighbouring intervals make a pattern that matches exactly the canonical numerals below the last bound |
| Digits.LineageUintExact | scripts/generate_schemas.py:1440-1440 | The lineage pattern matches exactly the canonical decimals of 0 to 2^63-1 |
| Digits.LineagePositiveUintExact | scripts/generate_schemas.py:1441-1441 | The positive variant matches exactly those of 1 to 2^63-1 |
| Digits.Uint53Exact | scripts/generate_schemas.py:1061-1072 | The token-count pattern matches exactly those of 0 to 2^53-1, so the length limit beside it adds nothing |
| Digits.NumbersAccepted | scripts/generate_schemas.py:1440-1441 | Every number's decimal is accepted by each pattern exactly when the number is in its range |
| OneOf.EventDraft.Derive11 | scripts/generate_schemas.py:736-856 | In place, the 1.1.0 draft is the specified derivation of the frozen one, or fails as it does |
| OneOf.EventDraft.DeriveFamilies | scripts/generate_schemas.py:3051-3087 | Each family's new version goes right behind its legacy branch, or the derivation fails |
| OneOf.EventDraft.Derive12 | scripts/generate_schemas.py:3090-3156 | The 1.2.0 draft retargets the fallback and appends the lineage branches and definitions |
| OneOf.OpaqueDraft.Derive11 | scripts/generate_schemas.py:859-908 | The 1.1.0 opaque schema excludes the first frozen exclusion and the pairs added so far |
| OneOf.OpaqueDraft.Derive12 | scripts/generate_schemas.py:3182-3240 | The 1.2.0 opaque schema adds the lineage exclusions |
| OneOfMeaning.AddedDistinct | scripts/generate_schemas.py:3134-3153 | The added pairs are pairwise distinct |
| OneOfMeaning.NamesDiffer | scripts/generate_schemas.py:3112-3122 | Added pairs that share a definition name are equal, and no identity name is an alias |
| OneOfMeaning.Draft11Sound | scripts/generate_schemas.py:3051-3087 | The derivation succeeds exactly when the legacy branches exist; its branches resolve to their own identities, with the expected payloads and one fallback |
| OneOfMeaning.Draft12Sound | scripts/generate_schemas.py:3090-3156 | The same for 1.2.0 |
| OneOfMeaning.DerivationFails | scripts/generate_schemas.py:748-853 | For any draft: both derivations fail alike, as an invalid template exactly when the fallback or a legacy evidence or claim branch is missing, otherwise exactly when one of the four families has no legacy branch |
| OneOfMeaning.OpaqueExcludes | scripts/generate_schemas.py:3159-3240 | Both derived opaque schemas exclude the first legacy list and the pairs added by then, and nothing else |
| OneOfMeaning.OpaqueFails | scripts/generate_schemas.py:878-883 | The opaque derivations fail only on an empty list, and otherwise each extends the one before |
| OneOfMeaning.FrozenUnambiguous | scripts/generate_schemas.py:736-764 | A frozen draft whose known pairs are exactly those its opaque schema excludes gives every identity one branch |
| OneOfMeaning.Draft11Unambiguous | scripts/generate_schemas.py:3051-3087 | From such a draft, with the legacy branches in place, every admissible identity selects exactly one 1.1.0 branch and every other none, if and only if the frozen draft knows none of the added pairs and loses none of its exclusions |
| OneOfMeaning.Draft12Unambiguous | scripts/generate_schemas.py:3090-3156 | The same for 1.2.0 |
| OneOfMeaning.ListedPairsAreLost | scripts/generate_schemas.py:878-908 | Concrete frozen schemas, exact at 1.0.0, whose 1.1.0 union is ambiguous |
| Paths.PermittedLoads | scripts/verify_resource_manifest.py:1571-1584 | Every path the builder permits passes the loader's rule and is not the manifest |
| Paths.PermittedIff | scripts/verify_resource_manifest.py:1571-1584 | The builder permits exactly what the loader accepts that is in normal form, without control characters and below an allowed root |
| Paths.SegmentsJoin | scripts/verify_resource_manifest.py:1580-1580 | The segments hold no slash and make up the path again |
| Paths.LoadableByParts | src/yoetz/version.py:497-504 | The loader takes exactly the paths whose parts are none of empty, `.` and `..`, hold no backslash, and that do not begin with a dot |
| ResourceSync.ResourceTree.PackageFiles | scripts/verify_resource_manifest.py:1603-1629 | Enumerates the files in path order, and refuses exactly trees with anything but regular files |
| ResourceSync.ResourceTree.ReadPrevious | scripts/verify_resource_manifest.py:1913-1934 | The prior destinations are the permitted paths the manifest lists |
| ResourceSync.ResourceTree.Verify | scripts/verify_resource_manifest.py:1861-1899 | Lists missing, extra and changed paths in order and whether the manifest differs |
| ResourceSync.DiffTells | scripts/verify_resource_manifest.py:1861-1899 | Missing is exactly where no file stands, changed where one of other bytes does, extra what no resource has |
| ResourceSync.ResourceTree.Sync | scripts/verify_resource_manifest.py:1902-1970 | Refuses exactly unacceptable trees, unchanged; otherwise applies the plan up to where it was stopped |
| ResourceSync.ResourceTree.Perform | scripts/verify_resource_manifest.py:1960-1970 | Replacements, then removals, then the manifest, each a single step |
| ResourceSync.AcceptedIff | scripts/verify_resource_manifest.py:1913-1945 | A tree is let through exactly when it holds only files, each the manifest, a resource, or one the manifest lists under a permitted path |
| ResourceSync.TargetIs | scripts/verify_resource_manifest.py:1902-1970 | The target is the resources with their own bytes and the manifest, and nothing else |
| ResourceSync.FinishedIsTarget | scripts/verify_resource_manifest.py:1902-1970 | A finished run leaves exactly the resources and the manifest, from any accepted tree |
| ResourceSync.StoppedIsPartial | scripts/verify_resource_manifest.py:1960-1970 | A stopped run leaves the old manifest, whole files only, and nothing gone but stale files |
| ResourceSync.RetiresLast | scripts/verify_resource_manifest.py:1960-1970 | Wherever a run is stopped, if any file is gone then every resource is in its place |
| ResourceSync.TargetStays | scripts/verify_resource_manifest.py:1960-1970 | A tree in sync stays in sync at every step of another run |
| ResourceSync.Restartable | scripts/verify_resource_manifest.py:1902-1970 | After any chain of interrupted runs the tree is accepted, a finished run gives the target, and only files are gone that the first manifest lists under a permitted path no resource has |
| ResourceSync.CleanIffTarget | scripts/verify_resource_manifest.py:1861-1899 | The comparison is clean exactly when the tree is the target |
| ResourceManifest.EntryLoads | src/yoetz/version.py:461-516 | A rendered entry loads exactly when it meets the loader's limits, and then as it was |
| ResourceManifest.LoadedIff | src/yoetz/version.py:519-554 | A manifest is loaded exactly from bytes that write it out canonically, entry by entry, with 269 strictly increasing names, one runtime support, and the digest of the stable entries |
| ResourceManifest.LoadRefusals | src/yoetz/version.py:429-458 | Too large and not a manifest are told apart by the size of the bytes and by whether they are canonical |
| ResourceManifest.BuiltIffAdmitted | scripts/verify_resource_manifest.py:1800-1858 | What the builder renders is accepted exactly when the set meets the loader's own limits, with equal digest, version and entries |
| ResourceManifest.ReadVerifiedIff | src/yoetz/version.py:557-569 | A resource is read exactly when listed, present, within the limit, and of the listed size and hash |
| ResourceManifest.CapsDisagree | scripts/verify_resource_manifest.py:1637-1655 | Any admitted set with a binary file grown past the loader's limit but within the builder's is still collected and built, and does not load |
| ResourceManifest.CountsAddUp | src/yoetz/version.py:740-756 | Loaded entries fall under exactly one heading each, so the counts always add up |
| ResourceManifest.MaterialCovers | scripts/verify_resource_manifest.py:1816-1842 | Two sets have the same digested material exactly when they differ at most in runtime support bytes |
| ResourceManifest.SupportBytesFree | src/yoetz/version.py:389-402 | Changing runtime support bytes alone never moves the set digest |
| ResourceManifest.SupportDocument.Rebind | scripts/sync_service_status_schema.py:29-45 | The document afterwards carries the set digest, and a digest of everything else |
| ResourceManifest.SupportIff | src/yoetz/version.py:572-606 | Support is loaded exactly from canonical bytes of the size and hash the manifest lists, that carry the digest of that manifest and one of their own other members |
| ResourceManifest.SupportLoadsIff | src/yoetz/version.py:600-606 | For a built set with a well-formed support document, loading succeeds if and only if that document carries the set digest, and otherwise says so |
| ResourceManifest.RebindingBinds | src/yoetz/version.py:572-606 | After writing the set digest into the support document and rebuilding, the loader finds it bound to the manifest it ships with |
| OwnedDigest.Digest | scripts/sync_resource_ripple.py:55-78 | Feeds every owned file once in path order, and fails exactly when one is absent or too long for its field |
| OwnedDigest.OwnedAre | scripts/sync_resource_ripple.py:55-64 | The owned set is two named files and all below four directories |
| OwnedDigest.RecordFirst | scripts/sync_resource_ripple.py:73-77 | Equal streams begin with equal records |
| OwnedDigest.StreamInjective | scripts/sync_resource_ripple.py:55-78 | Two owned sets feed the same bytes exactly when they hold the same names with the same bytes |
| Ripple.Repository.Write | scripts/sync_resource_ripple.py:176-238 | A pass runs the bootstrap when needed and then the steps until one fails |
| Ripple.WholePass | scripts/sync_resource_ripple.py:176-238 | A pass that succeeds ran every step in order, each in the state the one before left, after the bootstrap when the schema was missing |
| Ripple.Repository.WriteToFixedPoint | scripts/sync_resource_ripple.py:241-264 | The loop over the repository is the specified one, outcome and final state |
| Ripple.LoopRuns | scripts/sync_resource_ripple.py:241-264 | Every outcome is that of turns that each moved something, followed by the end it names, and there are at most five |
| Ripple.SuccessIsStill | scripts/sync_resource_ripple.py:241-264 | Success means a whole pass and then the tree synchronization left the digest alone, and the check held |
| Ripple.SuccessKeepsOwned | scripts/sync_resource_ripple.py:241-264 | Without collisions, both left every owned file as it was |
| Ripple.ConvergesInNeeded | scripts/sync_resource_ripple.py:241-264 | With passes that stabilize after k, the loop succeeds exactly when k+1 passes, or k+2 when the trees are stale, are allowed, and in just so many |
| Ripple.NeverStable | scripts/sync_resource_ripple.py:260-264 | Passes that keep changing something never count as converged |
| AgentTrees.RecordedExtras | scripts/sync_committed_agent_trees.py:51-82 | Accepts exactly extras each named once, with size and hash, by a self-consistent marker |
| AgentTrees.OwnedIff | scripts/sync_committed_agent_trees.py:51-82 | A tree may be written exactly when nothing in it is extra, or a self-consistent marker in it names each extra file once, with its size and hash |
| AgentTrees.Tree.Render | scripts/sync_committed_agent_trees.py:129-138 | A finished write leaves the rendering, whatever the tree held; a stopped one has written some files, cut at most one more short, and, only once all are written, removed some leftovers |
| AgentTrees.Sync | scripts/sync_committed_agent_trees.py:96-140 | Foreign files, drift and unsafe trees are reported exactly when found, and change neither tree; a finished write leaves both equal to their rendering; a stopped one, inside a file or between two, touches the second tree only after the first is done; and no file goes that a marker did not vouch for |
| AgentTrees.WriteThenCheck | scripts/sync_committed_agent_trees.py:107-128 | After a write that passed, a check passes |
| AgentTrees.OnlyBoundRemoved | scripts/sync_committed_agent_trees.py:70-82 | A file is removed only when exactly one entry of a self-consistent marker names it, with its size and hash |
| AgentTrees.StoppedWrite | scripts/sync_committed_agent_trees.py:129-138 | Wherever a write is stopped, inside a file or between two, it is accepted again exactly when nothing is left to remove, the old marker is untouched, or the new or cut-short one records what is left |
| AgentTrees.StoppedWriteRefused | scripts/sync_committed_agent_trees.py:129-138 | It happens: a concrete tree refused after all files are written, and after the marker is cut short |
| AgentTrees.ResumedWrite | scripts/sync_committed_agent_trees.py:129-138 | A write resumed from any such stop leaves the rendering once it finishes, as if never stopped |
| RuntimeWalk.ReadRuntimeFile | scripts/scan_public_boundary.py:475-507 | The chunked read returns the whole file exactly when it is within the limit |
| RuntimeWalk.EnumerateRuntime | scripts/scan_public_boundary.py:424-472 | Success gives the listing of an admissible tree, a readable admissible tree succeeds, and each failure names something the tree shows |
| RuntimeWalk.SafeByParts | scripts/scan_public_boundary.py:336-343 | A path is safe exactly when no component is `..` and no character is a backslash or a control character |
| RuntimeWalk.PushedListing | scripts/scan_public_boundary.py:456-460 | Pushing reverse-sorted children keeps the listing of what is left |
| RuntimeWalk.ListedExactly | scripts/scan_public_boundary.py:424-472 | The listing holds exactly the regular files, by path and content |
| RuntimeWalk.ListingIncreasing | scripts/scan_public_boundary.py:456-460 | It is strictly increasing in component-wise byte order |
| RuntimeWalk.ListedOnceEach | scripts/scan_public_boundary.py:424-472 | So every regular file appears exactly once |
| RuntimeWalk.NotTextOrder | scripts/scan_public_boundary.py:456-460 | That order is not the order of whole paths as text |
| Parity.AggregateIsWorst | scripts/check_codex_dogfood_parity.py:551-561 | The aggregate is the most severe status present, and passed exactly when all passed |
| Parity.RequiredPostflight | scripts/check_codex_dogfood_parity.py:564-581 | The list holds, each once, exactly the facets the scope asks for |
| Parity.RequiredIsAsked | scripts/check_codex_dogfood_parity.py:564-581 | A facet is required exactly when the scope asks for it, and only postflight facets are |
| Parity.ValidateOutOfScope | scripts/check_codex_dogfood_parity.py:584-599 | The loop reports the first facet out of scope that is neither unsupported nor not run as it must be |
| Parity.ReasonIsStrongest | scripts/check_codex_dogfood_parity.py:337-372 | No reason exactly when every slot kept path and bytes, otherwise the strongest change of any slot |
| Parity.FirstViolation | scripts/check_codex_dogfood_parity.py:628-738 | A report is accepted exactly when it violates none of the checks, each stated on rows, scope, observations and slots, and is refused for the first one it violates |
| Parity.FullPass | scripts/check_codex_dogfood_parity.py:628-771 | A report whose rows in scope passed and were observed to, with the rest marked as the scope demands, is accepted as a full pass |
| Parity.GateIs | scripts/check_codex_dogfood_parity.py:740-771 | The lists hold exactly the facets of each status, and the outcomes are the most severe status before the run and, when that passed, after it |
| Parity.PassIff | scripts/check_codex_dogfood_parity.py:628-771 | In an accepted report a full pass says exactly that every preflight facet and every facet in scope passed |
| Parity.NothingIgnored | scripts/check_codex_dogfood_parity.py:584-599 | An accepted report with any failed or blocked facet does not pass and lists it |
| Parity.PassCertifies | scripts/check_codex_dogfood_parity.py:655-709 | A full pass certifies five differing isolation identities, the observations behind it, and every supplied slot held |
| Parity.ObservationsDecide | scripts/check_codex_dogfood_parity.py:651-699 | Helper of `PassCertifies`: what each row of an accepted report rests on, five facets passing exactly when observed and five more only when backed |
| Parity.RecoveryNamed | scripts/check_codex_dogfood_parity.py:703-736 | Helper: the continuations a consent, isolation, child or activation row of an accepted report names |
| Parity.ChangeIsNamed | scripts/check_codex_dogfood_parity.py:602-625 | Helper of `PassCertifies`: a changed slot never passes in an accepted report, and the failure names the strongest change |
| Upsert.UpsertEffect | scripts/generate_observation_status_fixture.py:326-359 | On a sorted manifest the upsert succeeds exactly when accepted, stays sorted, holds the member alone at its path, and leaves all others |
| Upsert.RefusedFor | scripts/generate_observation_status_fixture.py:334-350 | Each refusal is given exactly in its own case, and the last check never fires |
| Upsert.Idempotent | scripts/generate_observation_status_fixture.py:326-359 | Upserting the same member again changes nothing |
| Upsert.CommuteIff | scripts/generate_observation_status_fixture.py:326-359 | Two fixtures commute when both orders succeed; exactly when one order alone succeeds |
| Upsert.OrderCanMatter | scripts/generate_observation_status_fixture.py:341-349 | A concrete manifest where the order matters |
| Upsert.ManifestMembers | scripts/generate_observation_status_fixture.py:362-387 | A manifest out of order is refused; otherwise the fixtures go in one after another |
| Upsert.AllInTurn | scripts/generate_observation_status_fixture.py:377-382 | A run over all fixtures succeeds exactly when each goes into the manifest the one before left, under the same permission |
| Upsert.NoneLost | scripts/generate_observation_status_fixture.py:326-359 | Without permission every member stays; with it, every member at a path no fixture has |
| Upsert.FixturesIn | scripts/generate_observation_status_fixture.py:377-382 | Afterwards each fixture stands alone at its path |

## Left out

- Bridge.DrainSafety: takes as its premise that the application answers each delivered request at most once and sends no other responses; only such sends are steps of the system.
- Bridge.PendingIs: the counter alone is not requests minus written responses, so the lag of one between a write and its acknowledgement is part of the statement.
- Ripple.ConvergesInNeeded: assumes that commands and checks succeed, that passes and tree rendering do not touch each other's files, and that digests do not collide.
- OneOfMeaning.Draft12Unambiguous: decides between branches by event identity; whether the payload also meets its payload schema is not modelled, and finding a branch by a substring of its serialized text is modelled as finding it by the payload it refers to.
- File descriptors, `anyio` scheduling, cancellation and clocks: a read or write moves any positive number of bytes, and the drain timeout and failures are steps that may happen at any time.
- JSON decoding, Pydantic and MCP message validation, canonical encoding, NFC and SHA-256: parameters.
- Assertions on scalars (patterns, lengths, bounds) and documents in other files: parameters of a schema's verdict, the same before and after a pass. Outside the fragment are schemas with `contains`, `patternProperties` or `dependentSchemas`, with `unevaluatedItems` or `$dynamicRef`, with enumerations or constants of objects, and with properties named `$comment`.
- Local references are `#` and `#/$defs/<name>`; any other names nothing. References are followed any finite number of steps; a schema whose references never bottom out has no verdict.
- The order of members within a JSON object, which neither encoding nor meaning depends on.
- Python's `$` also matches before a final newline; the digit patterns are read as ECMA 262 reads them, over the whole string.
- Conflicts between a file and a directory of the same name, and staging directories a stopped run leaves beside the tree: such a run stops, and stopped runs are modelled.
- Read races, file times, `fsync` and temporary directories.
- Reading the gate's report from JSON: `Parity` starts from parsed rows, identities and observations, whose shapes the parser has checked.
- Paths that are not ASCII in the fixture manifest, for which the generator raises.
- `_read_response` and the standard-error drain of the capture script, the inventory and registry tables, and the boundary scan of sources, artifacts and evidence: they would add only easy members.
