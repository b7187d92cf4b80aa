# Verified models of update_engine, window_manager and autox

Dafny models of five stateful parts of the repository, with proofs of what they promise. Every
class of the source that updates its fields is a Dafny class whose methods have the source's loops
and branches; each method is proved against a function of its old state, and the theorems are
proved about those functions.

## What is modelled

**Extents** (`Extents.dfy`, `ExtentWriters.dfy`). `AppendBlockToExtents` and the FIBMAP loop turn a
list of block numbers into runs; a direct writer streams bytes across the runs, with sparse holes,
and a padding writer fills up the last block. The disk is a function from addresses to bytes.
`EndToEnd` composes everything: append blocks, write data in any chunks, end, and block `B[i]` of
the disk holds the i-th block of the zero-padded data and nothing else has changed.

**Walking and copying a file system** (`SourceTree.dfy`, `FilesystemIterator.dfy`,
`FilesystemCopier.dfy`). The source is a finite tree whose directories list their entries in some
order. The resumable iterator with its explicit stack is proved to visit exactly the recursive
preorder, less other devices and excluded prefixes. The copy never fails on such a walk (except for
a symbolic link longer than PATH_MAX) and is isomorphic to what was visited, hard links included,
exactly if no two multiply-linked files on different devices have the same inode number and no file
with a single link is seen under two names: the source's map is keyed by `st_ino` only, and knows
only files with more than one link. The destination keeps a log of every state that it was in,
system call by system call. At each of these points, where the machine could stop, a completion
marker means that the copy is complete, exactly if the source's own marker, if it has one, is never
reached, or is copied last of all and not as a new file that still has to be written
(`MarkerExposed`). It follows that, whenever and however often actions are cut off, an action that
skips the copy because of the marker is right to do so, exactly under that condition
(`SkipsRightExactly`).

**Keyboard** (`KeyBindings.dfy`, `ScriptRunner.dfy`). The three indexes of `KeyBindings` are proved
to agree over every run, and each action's closures to be called in sessions that begin, repeat and
end. The CHECK that can fail is characterized exactly. autox inverts the server's keyboard mapping
and compiles text to key events; replaying the events on a simulated keyboard (section 5, Keyboards,
of the X Window System Protocol, X Version 11) types exactly the keysyms that the text denotes,
exactly if none of them is on a key that acts as Shift, or is the capital letter of a key that has
no second keysym. The text's meaning is given twice, by the source's scanner and by a printer of
tokens, and the two are proved to be inverse; `TypeText` goes the whole way from the mapping to what
is typed.

**Window layout** (`OverviewLayout.dfy`, `Stacker.dfy`, `Transients.dfy`, `LayoutManager.dfy`,
`LayoutTransients.dfy`, `SharedStacking.dfy`). The arithmetic of overview mode; the stacking and
focus of transient windows, together with the X server's own stacking order; the state machine of
active and overview mode over every run of events; and, over the same runs, the layout manager's map
of transients against the transients that each toplevel keeps itself. All toplevels share the
server's stacking order: what is done to one leaves the transients of the others in their order, and
a layout puts all of them in order. `lm_new_overview_mode` is false, its default.
`OverviewPositions` and `LayoutManager` are one class of the source: the first is its calculation of
positions, with the fields that this needs.

**Action pipeline** (`ActionProcessor.dfy`). The processor's queue with actions that complete at
once (re-entrantly) or later, and the update attempt that retries once with a full update.

## How it is modelled

- An object that other objects point to and that has no behaviour here (an `Action` of the key
  bindings, a `TransientWindow`, a `ToplevelWindow` of the layout manager, an `AbstractAction`) is
  named by its key, and its fields are a record in a map field.
- `Options.dfy` has the one Option type, `Sequences.dfy` what several models need to know about
  sequences and sets.
- The proofs use `hide` to close definitions that a step does not need; small lemmas with an
  empty body open one of them again where it is needed.
- X, the kernel, the main loop and the file system appear as values: a stacking order, an event
  log, a tree, a disk. Whatever they decide freely (how much a read or write transfers, when an
  action completes, in which order a set is listed) is a parameter or an arbitrary choice, so that
  every theorem holds for all of it.
- What a method is proved against is a function; what that function means is stated again by lemmas
  that do not name what it is built from (`WalkMeaning`, `CopiedByKind`, `PressMeaning`, `EndToEnd`).
- A CHECK of the source is an assertion that is proved to hold, or implied by the contract of what
  it guards, or a branch that reports failure, or, where it is the caller's duty, a precondition.

## Where the code differs from what it says

`script_runner.cc:244` compares the out-pointer with NoSymbol, so a letter or digit never fails to
convert; an unknown one is NoSymbol, and the missing keycode is noticed later. The model does the
same. Each of the following has an exact condition, and an input in `FailingInputs.dfy` at which the
code goes wrong.

- The copy loses a file whose inode number a file on another device has, and copies a file twice
  that is mounted at two places (`CopyFaithful`; `ClashIsUnfaithful`, `MountedTwiceIsUnfaithful`).
- Nothing removes the completion marker from the source of a copy, which may be a copy itself. What
  is copied after such a marker is missing while the destination is marked already
  (`MarkerSafeExactly`, `SkipsRightExactly`; `MarkerOfSourceIsExposed`).
- `key_bindings.h:84-85` allows several combos for an action; the CHECK at `key_bindings.cc:143`
  aborts if two of them have the same keysym (`CheckFailsExactly`; `TwoCombosOfOneKeysym`).
- A key whose only keysym is a capital letter types the small one (`CompiledTextTypesItself`,
  `AcceptedTextTypesItself`; `CapitalTypesAnother`).
- The overview warning about too-wide windows cannot be reached by lack of room: integer division
  rounds towards zero, so windows of negative width are laid out silently
  (`OverflowsExactly`, `WidthsNegativeExactly`; `TooManyWindows`, `MagnifiedAndCreateBrowser`).
- A new transient that belongs at the bottom is put on top of its layer (`layout_manager.cc:1363`);
  `AddedAgreesExactly` says exactly when that is right (`AddedBelowModal`).
- The message WM_SWITCH_TO_OVERVIEW_MODE magnifies a window without showing it magnified
  (`SwitchedByMessageKeeps`; `MagnifiedUnseen`), and a toplevel that goes before its transients
  leaves them with an owner that is no more (`UnmappedKeepsExactly`; `TransientOrphaned`).
- `AppendBlockToExtents` merges wrongly exactly if the last run's end wraps around at 2^64 to the
  block, as that of a sparse hole does to block 0 (`AppendMeaning`; `HoleBeforeBlockZero`).
- Actions dropped after a failure can never be queued again (`DroppedStayAttached`;
  `DroppedForGood`).

## Model

| member | source | states |
|---|---|---|
| `Extents.AppendBlockToExtents` | src/platform/update_engine/graph_utils.cc:25-37 | the vector becomes the specified one: the last run grows if the block follows it, else a new run is added |
| `Extents.ExtentsOf` | src/platform/update_engine/graph_utils.cc:25-37 | appending blocks one by one to an empty vector gives the compression of the list |
| `Extents.AppendMeaning` | src/platform/update_engine/graph_utils.cc:25-37 | the expansion grows by exactly the block, if and only if the last run's end does not wrap around at 2^64 to that block |
| `Extents.AppendOne` | src/platform/update_engine/graph_utils.cc:25-37 | for real blocks an append adds the block to the expansion and keeps runs unmergeable |
| `Extents.CompressExpand` | src/platform/update_engine/graph_utils.cc:25-37 | compressing any list of real blocks and expanding gives the list back, and no two neighbouring runs can be merged |
| `Extents.CompressIsInverse` | src/platform/update_engine/graph_utils.cc:25-37 | compressing the expansion of unmergeable runs gives the same runs |
| `Extents.TotalIsExpandedLength` | src/platform/update_engine/graph_utils.cc:14-23 | the total of a vector of runs is the number of blocks in their expansion |
| `Extents.EdgeWeight` | src/platform/update_engine/graph_utils.cc:14-23 | the weight of an edge is the number of blocks it needs, modulo 2^64 |
| `Extents.ExtentsForFileFibmap` | src/platform/update_engine/extent_mapper.cc:50-82 | succeeds if and only if every ioctl does; then the compressed blocks are added to the output, unmerged with what it held; a failed ioctl loses the run under construction |
| `Extents.CompressorsAgree` | src/platform/update_engine/extent_mapper.cc:55-80 | the FIBMAP loop and folding AppendBlockToExtents give the same vector, if and only if the first mapped block does not follow the last run already there |
| `Extents.AppendKeepsPrefix` | src/platform/update_engine/graph_utils.cc:25-37 | appending leaves runs already in the vector alone if the first block does not follow them |
| `Extents.AppendMerges` | src/platform/update_engine/graph_utils.cc:25-37 | if the first block follows the last run, that run grows instead |
| `ExtentWriters.WriteAll` | src/platform/update_engine/extent_writer.cc:16-25 | however short single writes are, the whole buffer is stored at the position |
| `ExtentWriters.DirectExtentWriter.Init` | src/platform/update_engine/extent_writer.h:60-65 | the extents are taken over and the position is kept, so that a writer that has not written is at their start |
| `ExtentWriters.DirectExtentWriter.Write` | src/platform/update_engine/extent_writer.cc:28-65 | succeeds if and only if the bytes fit the extents; then each byte of the stream is in its slot, holes skipped but counted; a failing write has stored what did fit |
| `ExtentWriters.PlaceConcat` | src/platform/update_engine/extent_writer.cc:28-65 | writing a then b places the same bytes as writing their concatenation |
| `ExtentWriters.PlaceInRun` | src/platform/update_engine/extent_writer.cc:44-52 | within one extent, placing a stretch of the stream is one seek and one store, or nothing in a hole |
| `ExtentWriters.ChunkPlaced` | src/platform/update_engine/extent_writer.cc:33-63 | one round of the loop places its chunk and moves on exactly when the extent is full |
| `ExtentWriters.ChunkingIsInvisible` | src/platform/update_engine/extent_writer.cc:28-65 | for any split of the data into writes, the final disk is that of a single write |
| `ExtentWriters.ZeroPadExtentWriter.Write` | src/platform/update_engine/extent_writer.h:99-106 | the running residue stays the underlying total modulo the block size |
| `ExtentWriters.ZeroPadExtentWriter.EndImpl` | src/platform/update_engine/extent_writer.h:107-115 | bytes that are all zero take the total to the least multiple of the block size not below it, and always fit |
| `ExtentWriters.ZeroPadExtentWriter.End` | src/platform/update_engine/extent_writer.h:39-42 | ends both writers, with the padding of EndImpl on the disk |
| `ExtentWriters.PaddingFits` | src/platform/update_engine/extent_writer.h:107-113 | data that fits a number of whole blocks still fits with its padding |
| `ExtentWriters.ExtentsOfferTheirBlocks` | src/platform/update_engine/extent_writer.cc:35-47 | the bytes that runs offer, in order, are those of the blocks they expand to |
| `ExtentWriters.SlotsMeaning` | src/platform/update_engine/extent_writer.cc:33-52 | byte k of an extent goes to byte k of its run in the file, or nowhere if it is a hole, and counts after the bytes of the extents before it |
| `ExtentWriters.BytesIsProduct` | src/platform/update_engine/extent_writer.cc:35-47 | n blocks are n times the block size in bytes |
| `ExtentWriters.WholeBlocksPlaced` | src/platform/update_engine/extent_writer.cc:28-65 | over distinct blocks, the i-th block of the data is stored in blocks[i] and no other byte changes |
| `ExtentWriters.EndToEnd` | src/platform/update_engine/extent_writer.h:87-115 | from block list to disk: compress, write in any chunks, pad; byte k of the i-th block reached is the data's, or zero past the end of the data, and every other byte of the disk is unchanged |
| `ExtentWriters.WriteBlocks` | src/platform/update_engine/extent_writer.h:87-115 | the classes used together do what EndToEnd says, and no step fails |
| `SourceTree.PreorderExact` | src/platform/update_engine/filesystem_iterator.cc:71-107 | a visit is in the preorder if and only if its path names that node and every directory above it is on the root's device |
| `SourceTree.PreorderDistinct` | src/platform/update_engine/filesystem_iterator.cc:71-107 | no path is visited twice |
| `SourceTree.PreorderParents` | src/platform/update_engine/filesystem_iterator.cc:71-107 | every directory is visited before what is in it |
| `SourceTree.KeptParents` | src/platform/update_engine/filesystem_iterator.cc:99-105 | leaving out excluded prefixes keeps parents before children |
| `SourceTree.WalkExact` | src/platform/update_engine/filesystem_iterator.cc:71-107 | what a walk shows: exactly the reachable paths on the device that have no excluded prefix |
| `SourceTree.WalkMeaning` | src/platform/update_engine/filesystem_iterator.cc:71-107 | a walk shows a file if and only if its path names it, no exclusion prefix begins its path string, and each component of the path is an entry, neither "." nor "..", of a directory on the device of the root |
| `SourceTree.ReachedMeaning` | src/platform/update_engine/filesystem_iterator.cc:71-107 | what a walk reaches at a path is what the path names, as long as every directory on the way is on the device of the root; otherwise nothing |
| `SourceTree.ExclusionIsInherited` | src/platform/update_engine/filesystem_iterator.cc:99-105 | whatever is below an excluded path is excluded |
| `SourceTree.PartialPathInjective` | src/platform/update_engine/filesystem_iterator.cc:60-68 | different lists of names have different partial paths |
| `SourceTree.WalkStringsDistinct` | src/platform/update_engine/filesystem_iterator.cc:60-68 | no partial path string is shown twice |
| `FilesystemIterators.FilesystemIterator.constructor` | src/platform/update_engine/filesystem_iterator.cc:38-47 | a new iterator has the whole walk before it |
| `FilesystemIterators.FilesystemIterator.Increment` | src/platform/update_engine/filesystem_iterator.cc:70-107 | what remains to be shown loses exactly its first visit; it terminates, and there is never an error |
| `FilesystemIterators.FilesystemIterator.IncrementInternal` | src/platform/update_engine/filesystem_iterator.cc:109-145 | finds the next entry in preorder or ends; the CHECKs on the two stacks hold |
| `FilesystemIterators.FilesystemIterator.ShowsFirst` | src/platform/update_engine/filesystem_iterator.h:44-72 | a valid iterator shows the first of the remaining visits, under its partial path, and is at its end if and only if there is none |
| `FilesystemIterators.EntryLeavesListing` | src/platform/update_engine/filesystem_iterator.cc:119-127 | taking an entry from the top stream takes the visit and its subtree from what is pending |
| `FilesystemIterators.DirectoryOpened` | src/platform/update_engine/filesystem_iterator.cc:76-87 | opening the current directory leaves its subtree pending |
| `FilesystemIterators.StreamDone` | src/platform/update_engine/filesystem_iterator.cc:131-143 | an exhausted stream leaves nothing pending in its directory |
| `FilesystemIterators.ShowAll` | src/platform/update_engine/filesystem_iterator.h:44-72 | a client that goes through the whole iterator sees each such file once, every directory before what is in it, and nothing else |
| `FilesystemCopiers.CopyKeepsInvariant` | src/platform/update_engine/filesystem_copier_action.cc:239-302 | after any number of visits the copy has those paths with their contents, sharing inodes by st_ino; it fails if and only if a visited symbolic link is too long |
| `FilesystemCopiers.CopyFaithful` | src/platform/update_engine/filesystem_copier_action.cc:239-302 | a finished copy has the same paths, kinds and contents and shares inodes as the source does, if and only if no two multiply-linked files on different devices share an inode number and no file with a single link is visited under two names |
| `FilesystemCopiers.WalkCanBeCopied` | src/platform/update_engine/filesystem_copier_action.cc:242-256 | what the iterator shows of any source can be copied: parents first, no path twice, no lost+found |
| `FilesystemCopiers.CopyOfSource` | src/platform/update_engine/filesystem_copier_action.cc:239-302 | for every source tree the copy succeeds unless a link is too long, and is then faithful if and only if no inode numbers clash and no file with a single link is seen twice; one file has one stat and content under all its names |
| `FilesystemCopiers.CopiedByKind` | src/platform/update_engine/filesystem_copier_action.cc:207-237 | where nothing clashes, each visited directory has become a directory, each file one with its content, each symbolic link one with its target, and everything else a node of its kind and device number |
| `FilesystemCopiers.FilesystemCopierAction.CopyFileSynchronously` | src/platform/update_engine/filesystem_copier_action.cc:169-205 | however reads and writes are split, the new file has the whole content; it fails if and only if the path cannot be created |
| `FilesystemCopiers.FilesystemCopierAction.WriteBuffer` | src/platform/update_engine/filesystem_copier_action.cc:191-197 | all bytes of a buffer are appended, in as many writes as it takes |
| `FilesystemCopiers.FilesystemCopierAction.CopyOneSynchronously` | src/platform/update_engine/filesystem_copier_action.cc:251-287 | one visit is copied as specified, and the hard-link map updated |
| `FilesystemCopiers.FilesystemCopierAction.CopySynchronously` | src/platform/update_engine/filesystem_copier_action.cc:239-302 | the device ends as the specified copy of the iterator's visits; every state on the way, inside visits too, has a marker only if it holds a complete copy, if and only if the source has no marker that is exposed |
| `FilesystemCopiers.FilesystemCopierAction.HelperThreadMain` | src/platform/update_engine/filesystem_copier_action.cc:108-149 | for every source: every state the device goes through has a marker only if it holds a complete copy, if and only if the source has no marker that is exposed; success leaves a complete copy with a marker |
| `FilesystemCopiers.FilesystemCopierAction.PerformAction` | src/platform/update_engine/filesystem_copier_action.cc:32-85 | a copy is skipped if and only if the device has a marker; otherwise the device goes through the states of formatting, copying and marking, which are safe if and only if the source has no marker that is exposed |
| `FilesystemCopiers.SkipsRightExactly` | src/platform/update_engine/filesystem_copier_action.cc:32-149 | from a device without a marker, through any number of actions that are each cut off at any state: every action that skips the copy finds a complete one, if and only if the source has no marker that is exposed |
| `FilesystemCopiers.HelperSafeExactly` | src/platform/update_engine/filesystem_copier_action.cc:108-149 | whatever states formatting, copying and marking go through: each one with a marker holds a complete copy, if and only if the source has no marker that is exposed |
| `FilesystemCopiers.MarkerSafeExactly` | src/platform/update_engine/filesystem_copier_action.cc:239-302 | for whatever states a copy logs, within a visit or between two, to its end or to where it fails: each one with a marker holds a complete copy, if and only if no visit that the copy reaches and makes is a marker that others follow or that is a new file with content |
| `FilesystemCopiers.VisitKeepsSafe` | src/platform/update_engine/filesystem_copier_action.cc:251-287 | the states of one more visit keep the log safe if and only if that visit exposes no marker |
| `KeyBindingIndexes.CapsLockIsIgnored` | src/platform/window_manager/key_bindings.cc:34-39 | a combo is the same with and without Caps Lock |
| `KeyBindingIndexes.CombosAreEqualExactly` | src/platform/window_manager/key_bindings.cc:34-39 | two events make the same combo if and only if their keysyms are equal in lower case and their modifiers are equal but for Caps Lock |
| `KeyBindingIndexes.WellBracketedIsSessions` | src/platform/window_manager/key_bindings.cc:181-238 | an accepted history is a sequence of sessions: begin, repeats, and an end, except that the last may be open |
| `KeyBindingIndexes.SessionsAreWellBracketed` | src/platform/window_manager/key_bindings.cc:181-238 | every such sequence of sessions is an accepted history, open if and only if its last session is |
| `KeyBindingIndexes.IndexMeaning` | src/platform/window_manager/key_bindings.h:104-113 | a name is listed under a keysym if and only if exactly one combo with that keysym is bound to it, and no list is empty |
| `KeyBindingIndexes.AddActionAgrees` | src/platform/window_manager/key_bindings.cc:97-110 | adding an action keeps the three indexes in agreement |
| `KeyBindingIndexes.AddBindingAgrees` | src/platform/window_manager/key_bindings.cc:128-149 | so does adding a binding, as far as the CHECK on the index by keysym holds |
| `KeyBindingIndexes.CheckFailsExactly` | src/platform/window_manager/key_bindings.cc:141-143 | that CHECK fails if and only if the combo is free and the action exists and has another combo with the keysym |
| `KeyBindingIndexes.RemoveBindingAgrees` | src/platform/window_manager/key_bindings.cc:152-179 | so does removing one, and the looked-up entries exist |
| `KeyBindingIndexes.BindingRemovedMeaning` | src/platform/window_manager/key_bindings.cc:152-179 | removing a binding leaves all others, and all other actions, as they were; its own action no longer runs, and its end closure is not called |
| `KeyBindingIndexes.PressAgrees` | src/platform/window_manager/key_bindings.cc:181-204 | so does a press; a running action has a binding |
| `KeyBindingIndexes.PressMeaning` | src/platform/window_manager/key_bindings.cc:181-204 | a press whose lower-case keysym and modifiers, Caps Lock apart, are those of a bound combo begins its action, or repeats it if it runs, and changes nothing else |
| `KeyBindingIndexes.PressMisses` | src/platform/window_manager/key_bindings.cc:181-189 | a press that is meant for no bound combo changes nothing |
| `KeyBindingIndexes.SessionOfCalls` | src/platform/window_manager/key_bindings.cc:97-238 | a new action with a new binding: the first press runs its begin closure, the next its repeat closure and the release its end closure, each if it was given |
| `KeyBindingIndexes.EndedAllMeaning` | src/platform/window_manager/key_bindings.cc:216-237 | in whatever order the names come, exactly the running actions among them are ended, once each |
| `KeyBindingIndexes.NothingRunsAfterRelease` | src/platform/window_manager/key_bindings.cc:206-238 | after a release of a keysym, with whatever modifiers, no action bound on it is running |
| `KeyBindingIndexes.RemoveActionAgrees` | src/platform/window_manager/key_bindings.cc:112-126 | removing an action removes exactly its bindings |
| `KeyBindingIndexes.ActionRemovedMeaning` | src/platform/window_manager/key_bindings.cc:112-126 | removing an action takes away it and the combos bound to it, and leaves the rest as it was |
| `KeyBindingIndexes.StepAgrees` | src/platform/window_manager/key_bindings.cc:88-238 | every call that does not fail the CHECK keeps the indexes, the running flags and the histories in agreement |
| `KeyBindingIndexes.RunAgrees` | src/platform/window_manager/key_bindings.cc:88-238 | in every state of every run the indexes agree, every history is a prefix of begin, repeats, end or unbind, over and over, and a running action has a binding |
| `KeyBindingIndexes.KeyBindings.AddAction` | src/platform/window_manager/key_bindings.cc:97-110 | succeeds if and only if the name is new |
| `KeyBindingIndexes.KeyBindings.AddBinding` | src/platform/window_manager/key_bindings.cc:128-150 | succeeds if and only if the combo is free and the action exists; the indexes follow, and the first two CHECKs, which the body asserts, hold |
| `KeyBindingIndexes.KeyBindings.RemoveBinding` | src/platform/window_manager/key_bindings.cc:152-179 | succeeds if and only if the combo is bound; a running action is marked as not running |
| `KeyBindingIndexes.KeyBindings.HandleKeyPress` | src/platform/window_manager/key_bindings.cc:181-204 | begins or repeats the action of the bound combo that has the lower-case keysym and the modifiers, Caps Lock apart, and does nothing without one; the result says whether a closure ran |
| `KeyBindingIndexes.KeyBindings.HandleKeyRelease` | src/platform/window_manager/key_bindings.cc:206-238 | ends the running actions on the keysym; the result says whether a closure ran |
| `KeyBindingIndexes.KeyBindings.RemoveAction` | src/platform/window_manager/key_bindings.cc:112-126 | removes the action and its bindings, one by one |
| `KeyBindingIndexes.KeyBindings.Destroy` | src/platform/window_manager/key_bindings.cc:88-95 | removing all actions leaves no binding |
| `ScriptRunners.ScriptRunner.LoadKeyboardMapping` | src/platform/autox/script_runner.cc:196-236 | the table becomes the inverse of the first two columns of the mapping |
| `ScriptRunners.BestWayStep` | src/platform/autox/script_runner.cc:220-232 | how the best way to type a keysym changes with each keysym read: the first unshifted key, else the first shifted one |
| `ScriptRunners.InverseMeaning` | src/platform/autox/script_runner.cc:196-236 | an entry names the first key with that keysym in the right column, with Shift only if no key has it unshifted; a missing keysym is on no key |
| `ScriptRunners.ScanInvertsRender` | src/platform/autox/script_runner.cc:393-410 | the text of tokens is read as the keysyms that they denote |
| `ScriptRunners.ScanIsTokens` | src/platform/autox/script_runner.cc:53-77 | all accepted text is the text of tokens that denote what was read |
| `ScriptRunners.ScanToken` | src/platform/autox/script_runner.cc:53-77 | one token is read off the front of any text, or the text is refused |
| `ScriptRunners.KeysymsAreCodes` | src/platform/autox/script_runner.cc:80-250 | a letter or digit stands for the keysym of that name; the keysym of every other printable character is its code; newline and tab have keys of their own; anything else, a backquote included, is refused |
| `ScriptRunners.CompiledTextTypesItself` | src/platform/autox/script_runner.cc:411-421 | replayed on the keyboard, the events type exactly the keysyms if and only if none is typed by a key that acts as Shift or is the capital letter of a key without a second keysym; no key is left held |
| `ScriptRunners.TypesOne` | src/platform/autox/script_runner.cc:415-421 | the events for one keysym type at most one keysym, that one if and only if it is not mistyped, and leave nothing more held |
| `ScriptRunners.ShiftOutlastsKey` | src/platform/autox/script_runner.cc:415-421 | at every point of the events for a keysym that takes Shift, Shift is held if its key is |
| `ScriptRunners.ScriptRunner.HandleStringCommand` | src/platform/autox/script_runner.cc:385-424 | goes through if and only if the text can be read, every keysym has a key and so has Shift; then exactly the compiled events are sent |
| `ScriptRunners.AcceptedTextTypesItself` | src/platform/autox/script_runner.cc:385-424 | for all keysyms on the keyboard: their events type exactly them if and only if none is on a key that acts as Shift or is a capital letter whose key has nothing else on it |
| `ScriptRunners.TypeText` | src/platform/autox/script_runner.cc:196-424 | the whole way: mapping read, text accepted if and only if readable and on the keyboard, and the events sent then type what the text denotes, if and only if that has no keysym of a Shift key and no such capital letter |
| `ScriptRunners.ScriptRunner.HandleHotkeyCommand` | src/platform/autox/script_runner.cc:276-337 | goes through if and only if there are two parts or more, each with a key, and Shift named before any part that takes it; then presses in order and releases in reverse are sent, else nothing |
| `ScriptRunners.HotkeysNest` | src/platform/autox/script_runner.cc:327-335 | when a key is pressed exactly the keys before it are held; keys are released in the reverse order, and at the end none is held |
| `ScriptRunners.HotkeyPartIsRead` | src/platform/autox/script_runner.cc:313-322 | a part that takes Shift is read by the server as the keysym that it names |
| `ScriptRunners.ShortNames` | src/platform/autox/script_runner.cc:287-297 | Ctrl, Alt and Shift stand for the left ones of these keys, every other part for itself |
| `OverviewLayout.ScaledFits` | src/platform/window_manager/layout_manager.cc:1124-1133 | a scaled window fits its box and fills it in one direction; it is never wider than the box |
| `OverviewLayout.OverviewHeightIs` | src/platform/window_manager/layout_manager.cc:816 | the overview area takes three tenths of the screen, rounded down |
| `OverviewLayout.Screen.PlacedMeaning` | src/platform/window_manager/layout_manager.cc:1656-1720 | every window has the largest scale at which it fits its box, is scaled by it to within the fraction of a pixel, stands on the lower edge, and begins at the pixel nearest to one gap after what is before it; the box is the overview area for a magnified window, an equal share of what is left and three quarters of the height for the others |
| `OverviewLayout.Screen.OverflowsExactly` | src/platform/window_manager/layout_manager.cc:1698-1709 | the warning is reached if and only if a single magnified window and the create-browser window are too wide together |
| `OverviewLayout.Screen.WidthsAllotted` | src/platform/window_manager/layout_manager.cc:1664-1694 | the unmagnified windows take at most the width set aside, or less than a pixel each more if that is negative |
| `OverviewLayout.Screen.WidthsNegativeExactly` | src/platform/window_manager/layout_manager.cc:1679-1682 | an unmagnified window comes out with negative width if and only if at least a pixel per window is lacking |
| `OverviewLayout.Screen.PaddingIsEnough` | src/platform/window_manager/layout_manager.cc:1698-1713 | with a non-negative width set aside there is no warning, and at least the standard padding per gap |
| `OverviewLayout.Screen.NeighbourGap` | src/platform/window_manager/layout_manager.cc:1710-1718 | neighbours are at least the standard padding apart, and within a pixel of the computed one |
| `OverviewLayout.Screen.OuterMargins` | src/platform/window_manager/layout_manager.cc:1710-1718 | both outer margins are at least the standard padding |
| `OverviewLayout.Screen.RunningWidthAtEnd` | src/platform/window_manager/layout_manager.cc:1710-1718 | windows, gaps and the create-browser window use up exactly the width of the screen |
| `OverviewLayout.Screen.LayoutFits` | src/platform/window_manager/layout_manager.cc:1656-1720 | the windows are in order, apart, inside the screen and clear of the create-browser window (lines 1738-1747), with non-negative widths and no warning, if and only if the width set aside is not negative |
| `OverviewLayout.OverviewPositions.UpdateOverviewScaling` | src/platform/window_manager/layout_manager.cc:1124-1133 | one window of the vector is rescaled in place |
| `OverviewLayout.OverviewPositions.ScaleWindows` | src/platform/window_manager/layout_manager.cc:1656-1694 | every window gets the size that the layout function says, the magnified one first |
| `OverviewLayout.OverviewPositions.PlaceWindows` | src/platform/window_manager/layout_manager.cc:1710-1718 | every window gets its position from the running width |
| `OverviewLayout.OverviewPositions.CalculatePositionsForOverviewMode` | src/platform/window_manager/layout_manager.cc:1614-1720 | every window ends with the size and position of the layout function, and the result says whether the warning is logged |
| `Stackers.MoveKeepsOthers` | src/platform/window_manager/layout_manager.cc:1356-1366 | restacking one window leaves the order of all others |
| `Stackers.MovedIsNext` | src/platform/window_manager/layout_manager.cc:1356-1366 | the restacked window is directly above, or below, the other |
| `Transients.Toplevel.AddedKeeps` | src/platform/window_manager/layout_manager.cc:1188-1240 | adding a transient keeps the record valid: listed once, modal ones on top, the right one to focus |
| `Transients.Toplevel.AddedIsOnTopOfItsKind` | src/platform/window_manager/layout_manager.cc:1209-1229 | a new transient goes above all others of its kind, a modal one above all; it is the one to focus unless a modal one would lose the focus to it |
| `Transients.Toplevel.RemovedKeeps` | src/platform/window_manager/layout_manager.cc:1242-1264 | removing one keeps the record valid |
| `Transients.Toplevel.RemovedChooses` | src/platform/window_manager/layout_manager.cc:1242-1264 | the others keep their order; if the one removed was to get the focus, the topmost modal one of the others is chosen, else the topmost; otherwise the choice stays |
| `Transients.Toplevel.PreferredKeeps` | src/platform/window_manager/layout_manager.cc:1151-1173 | preferring one, or none, for the focus keeps the record valid |
| `Transients.Toplevel.FocusedKeeps` | src/platform/window_manager/layout_manager.cc:1135-1149 | taking the focus puts the focused transient on top and keeps the record valid |
| `Transients.Toplevel.TransientToFocusMeaning` | src/platform/window_manager/layout_manager.cc:1381-1394 | the transient chosen is a modal one if there is any, and there is none only without transients |
| `Transients.Toplevel.TopIsChosen` | src/platform/window_manager/layout_manager.cc:1381-1394 | the transient chosen is the topmost modal one, or the topmost one if none is modal |
| `Transients.Toplevel.ClickFocuses` | src/platform/window_manager/layout_manager.cc:1314-1320 | a click focuses the window it is on, but while there is a modal transient a modal one |
| `Transients.Stage.RestackAllAgrees` | src/platform/window_manager/layout_manager.cc:1368-1379 | restacking all brings the transients, in their order, directly above the toplevel or to the top of the layer, and leaves the order of all other windows |
| `Transients.Stage.RestackedIsNext` | src/platform/window_manager/layout_manager.cc:1368-1379 | all transients in their order, without a window between them, directly above the toplevel or at the top of the layer |
| `Transients.Stage.AddedAgreesExactly` | src/platform/window_manager/layout_manager.cc:1209-1236 | after one addition the server's order of the transients is the one asked for if and only if the new one goes above another, or no other is below its place |
| `Transients.Stage.AddedInActiveMode` | src/platform/window_manager/layout_manager.cc:1362-1365 | in active mode a transient that goes to the bottom is placed right if and only if it is the first |
| `Transients.Stage.AddedIsNext` | src/platform/window_manager/layout_manager.cc:1209-1236 | the server has a new transient directly above the one that it goes above, or else directly above the toplevel or at the top of the layer |
| `Transients.Stage.RemovedAgrees` | src/platform/window_manager/layout_manager.cc:1242-1264 | a removal keeps the server's order in agreement |
| `Transients.Stage.FocusedAgrees` | src/platform/window_manager/layout_manager.cc:1396-1408 | so does raising the focused transient |
| `Transients.Stage.FocusedIsNext` | src/platform/window_manager/layout_manager.cc:1396-1408 | the transient that takes the focus is directly above the former top, and first in the stack, before all others in their order |
| `Transients.Stage.StepKeeps` | src/platform/window_manager/layout_manager.cc:1135-1408 | every operation keeps the record valid and loses no window |
| `Transients.Stage.StepAgreesExactly` | src/platform/window_manager/layout_manager.cc:1135-1408 | an operation keeps the two orders in agreement if and only if it is not a misplaced addition |
| `Transients.Stage.RunKeeps` | src/platform/window_manager/layout_manager.cc:1135-1408 | over every run the invariant holds, and the two orders agree as long as no addition is misplaced |
| `Transients.Stage.StepKeepsOthers` | src/platform/window_manager/layout_manager.cc:1135-1408 | an operation keeps the server's order of all windows that are not this toplevel's transients |
| `SharedStacking.Windows.DoKeepsOther` | src/platform/window_manager/layout_manager.cc:1135-1408 | an operation of one toplevel keeps another valid, and its transients in agreement with the server if and only if they were |
| `SharedStacking.Windows.OpensAndCloses` | src/platform/window_manager/layout_manager.cc:364-463 | a toplevel begins without transients, and takes its record along when it goes |
| `SharedStacking.Windows.StepAgreesExactly` | src/platform/window_manager/layout_manager.cc:1135-1408 | while the server agrees with all toplevels, an operation of one keeps it so if and only if it is no misplaced addition |
| `SharedStacking.RunKeeps` | src/platform/window_manager/layout_manager.cc:344-463 | over every run of toplevels that come and go and of operations of each: no transient has two toplevels, every record is valid, and the server agrees with all of them as long as no addition is misplaced |
| `SharedStacking.Windows.LayoutOfAllAgrees` | src/platform/window_manager/layout_manager.cc:1590-1605 | whatever the order was, after a layout, which restacks the transients of every toplevel in turn (lines 1028 and 1115), the server agrees with all toplevels |
| `SharedStacking.Windows.LayoutGathers` | src/platform/window_manager/layout_manager.cc:1722-1737 | after a layout for overview mode each toplevel has its transients directly above it: restacking one toplevel's does not come between another and its own |
| `Transients.ToplevelWindow.SetPreferredTransientWindowToFocus` | src/platform/window_manager/layout_manager.cc:1151-1173 | a transient becomes the focus target unless that takes it from a modal one to one that is not; without one, a target that is not modal is given up |
| `Transients.ToplevelWindow.AddTransientWindow` | src/platform/window_manager/layout_manager.cc:1188-1240 | the transient is recorded, centered unless it is an info bubble, and on top of its kind; focus target and server's order become those of the specified addition |
| `Transients.ToplevelWindow.RemoveTransientWindow` | src/platform/window_manager/layout_manager.cc:1242-1264 | the record loses exactly that transient; if it was the focus target the topmost of the others is chosen, a modal one first |
| `Transients.ToplevelWindow.FindTransientWindowToFocus` | src/platform/window_manager/layout_manager.cc:1381-1394 | the topmost modal transient, else the topmost one |
| `Transients.ToplevelWindow.RestackTransientWindowOnTop` | src/platform/window_manager/layout_manager.cc:1396-1408 | the transient is on top of the stack and of the former top in the server's order; the two DCHECKs hold |
| `Transients.ToplevelWindow.TakeFocus` | src/platform/window_manager/layout_manager.cc:1135-1149 | the focus target, raised, or else the toplevel gets the focus |
| `Transients.ToplevelWindow.HandleButtonPress` | src/platform/window_manager/layout_manager.cc:1314-1320 | the clicked transient or the toplevel is preferred and the focus taken |
| `Transients.ToplevelWindow.ApplyStackingForAllTransientWindows` | src/platform/window_manager/layout_manager.cc:1368-1379 | the server's order becomes that of restacking from the bottom up, and agrees |
| `LayoutManagers.State.MappedKeeps` | src/platform/window_manager/layout_manager.cc:344-391 | mapping a window keeps the state valid |
| `LayoutManagers.State.UnmappedKeepsExactly` | src/platform/window_manager/layout_manager.cc:399-463 | unmapping keeps the state valid if and only if no transient of the window is left |
| `LayoutManagers.State.WithActiveKeeps` | src/platform/window_manager/layout_manager.cc:1471-1485 | the window made active is the only one on the screen |
| `LayoutManagers.State.WithModeKeeps` | src/platform/window_manager/layout_manager.cc:1539-1588 | either mode is entered with valid pointers and states |
| `LayoutManagers.State.SwitchedByMessageKeeps` | src/platform/window_manager/layout_manager.cc:619-641 | the message to switch to overview mode leaves a magnified window that is not shown so, if and only if it names a toplevel |
| `LayoutManagers.State.RequestedKeeps` | src/platform/window_manager/layout_manager.cc:662-686 | a request to activate a window or a transient's owner keeps the state valid |
| `LayoutManagers.State.TabMovedKeeps` | src/platform/window_manager/layout_manager.cc:735-789 | moving a dragged tab keeps the state valid |
| `LayoutManagers.State.MagnifiedCycledKeeps` | src/platform/window_manager/layout_manager.cc:1927-1961 | cycling the magnified window keeps the state valid |
| `LayoutManagers.State.StepKeepsExactly` | src/platform/window_manager/layout_manager.cc:251-790 | every event keeps pointers, input windows and window states right, except exactly a toplevel that goes before its transients; and only one event leaves a magnified window not shown |
| `LayoutManagers.State.RunKeeps` | src/platform/window_manager/layout_manager.cc:251-790 | so does every run of events without such an unmapping |
| `LayoutManagers.State.CyclesLandOn` | src/platform/window_manager/layout_manager.cc:1893-1925 | k cycles forward from window i activate window (i + k) modulo n |
| `LayoutManagers.State.BackwardUndoesForward` | src/platform/window_manager/layout_manager.cc:1893-1925 | a cycle backward after one forward shows what was shown before |
| `LayoutManagers.State.CyclingAnimates` | src/platform/window_manager/layout_manager.cc:924-1020 | the new active window comes in from one side, the old one goes out to the other, no other window moves |
| `LayoutManagers.State.MappingAnimates` | src/platform/window_manager/layout_manager.cc:364-383 | a new window becomes active and comes in from the right, the one it replaces goes out to the left |
| `LayoutManagers.State.MappedIsPlaced` | src/platform/window_manager/layout_manager.cc:364-391 | a new toplevel is directly right of the active one in active mode, else on the far right; the others keep their order |
| `LayoutManagers.State.MagnifiedCycledIs` | src/platform/window_manager/layout_manager.cc:1939-1953 | magnification moves by one around the ends, from the active window if none is magnified |
| `LayoutManagers.State.IndexPicks` | src/platform/window_manager/layout_manager.cc:1495-1526 | index n is the n-th window from the left, -n the n-th from the right; others do nothing, in either mode |
| `LayoutManagers.State.IndexFades` | src/platform/window_manager/layout_manager.cc:1495-1509 | the window picked fades in, the one that was active fades out, no other moves |
| `LayoutManagers.State.SwitchActivates` | src/platform/window_manager/layout_manager.cc:1487-1493 | from overview mode: with the flag the magnified window becomes active, without it the active one stays so; if there is none, the other of the two or the first window |
| `LayoutManagers.State.ModeAnimates` | src/platform/window_manager/layout_manager.cc:1539-1577 | on the way to active mode the active window goes to its place and all others go down |
| `LayoutManagers.State.PointerMagnifies` | src/platform/window_manager/layout_manager.cc:553-571 | the pointer magnifies the toplevel of the input window that it enters, in overview mode only, and changes no other pointer |
| `LayoutManagers.State.TabMagnifies` | src/platform/window_manager/layout_manager.cc:735-789 | a dragged tab is over the toplevel at the pointer, or over the magnified one on the way to its summary, if that is one of Chrome's; the window magnified changes with that; at the bottom of the screen, active mode is left |
| `LayoutManagers.State.MessageMagnifies` | src/platform/window_manager/layout_manager.cc:619-641 | the message to switch to overview mode goes there and magnifies the toplevel that it names, or none |
| `LayoutManagers.State.RequestFades` | src/platform/window_manager/layout_manager.cc:662-686 | a requested window fades in, the one that was active fades out, no other moves |
| `LayoutManagers.State.LayoutStays` | src/platform/window_manager/layout_manager.cc:1590-1605 | a new layout in active mode changes no pointer and moves no window |
| `LayoutManagers.State.MagnifiedCycledStarts` | src/platform/window_manager/layout_manager.cc:1927-1961 | cycling magnifies the first window if none is magnified or active, and leaves a single magnified one |
| `LayoutManagers.State.CyclingStarts` | src/platform/window_manager/layout_manager.cc:1893-1925 | without an active window a cycle forward activates the first window and one backward the last |
| `LayoutManagers.State.ChosenWindowIsActive` | src/platform/window_manager/layout_manager.cc:490-686 | a click in overview mode, or a request in either mode, ends in active mode with the chosen window, or the transient's owner, active |
| `LayoutManagers.State.NothingElseActs` | src/platform/window_manager/layout_manager.cc:490-686 | a click with another button, outside overview mode or on no input window, a request for an unknown window, and a cycle or index for the other mode do nothing |
| `LayoutManagers.State.OverviewAndBack` | src/platform/window_manager/layout_manager.cc:1539-1577 | going to overview mode and back without a choice shows what was shown before |
| `LayoutManagers.State.UnmapUndoesMap` | src/platform/window_manager/layout_manager.cc:364-461 | closing a window just opened shows what was shown before, in either mode |
| `LayoutManagers.State.ClosingActivatesLeft` | src/platform/window_manager/layout_manager.cc:446-454 | closing the active window activates its left neighbour, or the last window, which comes in from the left |
| `LayoutManagers.State.ClosingKeepsOthers` | src/platform/window_manager/layout_manager.cc:424-463 | when a toplevel goes the others keep their order, pointers to it are cleared and pointers to others stay |
| `LayoutManagers.State.OtherWindows` | src/platform/window_manager/layout_manager.cc:490-790 | no event but mapping and unmapping changes which toplevels there are or who owns which transient |
| `LayoutTransients.Desktop.MapKeepsTied` | src/platform/window_manager/layout_manager.cc:344-391 | a mapped transient is noted by the layout manager and by its owner |
| `LayoutTransients.Desktop.UnmapKeepsTied` | src/platform/window_manager/layout_manager.cc:417-463 | an unmapped window is forgotten by both |
| `LayoutTransients.RunKeepsTied` | src/platform/window_manager/layout_manager.cc:344-790 | over every run in which no toplevel goes before its transients, the layout manager maps a window to an owner if and only if that owner's own map has it |
| `LayoutManagers.GetIndexForToplevelWindow` | src/platform/window_manager/layout_manager.cc:1427-1433 | the index of the object, or -1 |
| `LayoutManagers.LayoutManager.SetActiveToplevelWindow` | src/platform/window_manager/layout_manager.cc:1471-1485 | the state becomes the specified one |
| `LayoutManagers.LayoutManager.SwitchToActiveMode` | src/platform/window_manager/layout_manager.cc:1487-1493 | likewise, and stays valid |
| `LayoutManagers.LayoutManager.ActivateToplevelWindowByIndex` | src/platform/window_manager/layout_manager.cc:1495-1509 | likewise; negative indices count from the end, and others out of range do nothing |
| `LayoutManagers.LayoutManager.MagnifyToplevelWindowByIndex` | src/platform/window_manager/layout_manager.cc:1511-1526 | likewise |
| `LayoutManagers.LayoutManager.SetMode` | src/platform/window_manager/layout_manager.cc:1539-1588 | the state becomes that of the other mode |
| `LayoutManagers.LayoutManager.LayoutToplevelWindowsForActiveMode` | src/platform/window_manager/layout_manager.cc:1590-1605 | every window is configured, the active one for the screen |
| `LayoutManagers.LayoutManager.LayoutToplevelWindowsForOverviewMode` | src/platform/window_manager/layout_manager.cc:1722-1737 | every window is configured, from right to left |
| `LayoutManagers.LayoutManager.HandleWindowMap` | src/platform/window_manager/layout_manager.cc:344-391 | a transient is noted with its owner, a new toplevel goes right of the active one or last |
| `LayoutManagers.LayoutManager.HandleWindowUnmap` | src/platform/window_manager/layout_manager.cc:399-463 | no pointer to the window is left; another is activated if it was active |
| `LayoutManagers.LayoutManager.HandleButtonPress` | src/platform/window_manager/layout_manager.cc:490-513 | a click in an input window activates its toplevel, in overview mode only |
| `LayoutManagers.LayoutManager.HandlePointerEnter` | src/platform/window_manager/layout_manager.cc:553-571 | the toplevel under the pointer is magnified, in overview mode only |
| `LayoutManagers.LayoutManager.HandleChromeMessage` | src/platform/window_manager/layout_manager.cc:619-641 | the state becomes the specified one |
| `LayoutManagers.LayoutManager.HandleClientMessage` | src/platform/window_manager/layout_manager.cc:656-686 | the requested toplevel, or the owner of the requested transient, becomes active |
| `LayoutManagers.LayoutManager.MoveFloatingTab` | src/platform/window_manager/layout_manager.cc:735-789 | the toplevel under the tab is noted and magnified if it may be docked into |
| `LayoutManagers.LayoutManager.CycleActiveToplevelWindow` | src/platform/window_manager/layout_manager.cc:1893-1925 | the state becomes the specified one |
| `LayoutManagers.LayoutManager.CycleMagnifiedToplevelWindow` | src/platform/window_manager/layout_manager.cc:1927-1961 | likewise, starting from the active window if none is magnified |
| `ActionProcessors.ExpectedMeaning` | src/platform/update_engine/action_processor.h:78-95 | what is expected of a queue: actions performed and reported in order up to the first failure, then one Done that says whether all succeeded |
| `ActionProcessors.Processor.TimingDoesNotMatter` | src/platform/update_engine/action_processor.cc:32-85 | whichever actions complete at once and whichever later, exactly what is expected happens, and nothing runs or waits afterwards |
| `ActionProcessors.Processor.CompletedFuture` | src/platform/update_engine/action_processor.cc:56-85 | a completion takes from what is still to happen what it makes happen |
| `ActionProcessors.Processor.CompletedKeeps` | src/platform/update_engine/action_processor.cc:56-85 | waiting and running actions point back; others that do were dropped by a failure |
| `ActionProcessors.Processor.QueuedInOrder` | src/platform/update_engine/action_processor.cc:27-41 | actions are performed in the order in which they were queued |
| `ActionProcessors.Processor.StoppedGoesOn` | src/platform/update_engine/action_processor.cc:43-54 | stopping lets go of the current action alone; started again, the processor performs those that waited as expected |
| `ActionProcessors.Processor.RunKeeps` | src/platform/update_engine/action_processor.cc:27-85 | whatever the processor is called to do, and in whatever order, the pointers stay right and no dropped action is ever let go |
| `ActionProcessors.Processor.DroppedStayAttached` | src/platform/update_engine/action_processor.cc:67-71 | an action dropped by a failure keeps its processor pointer through every later call, so it is never performed and can never be queued again |
| `ActionProcessors.Processor.DestroyedLeavesDropped` | src/platform/update_engine/action_processor.cc:17-25 | the destructor's checks hold, and it leaves the pointers of exactly the dropped actions |
| `ActionProcessors.ActionProcessor.SetProcessor` | src/platform/update_engine/action.h:86-92 | the pointer is set or cleared, and was not so before |
| `ActionProcessors.ActionProcessor.EnqueueAction` | src/platform/update_engine/action_processor.cc:27-30 | the action waits last and points back |
| `ActionProcessors.ActionProcessor.StartProcessing` | src/platform/update_engine/action_processor.cc:32-41 | the first action is performed, and all that complete at once |
| `ActionProcessors.ActionProcessor.StopProcessing` | src/platform/update_engine/action_processor.cc:43-54 | the current action is detached, the queue kept |
| `ActionProcessors.ActionProcessor.ActionComplete` | src/platform/update_engine/action_processor.cc:56-85 | the action is reported and detached, and the next one performed or the queue dropped |
| `ActionProcessors.ActionProcessor.Destroy` | src/platform/update_engine/action_processor.cc:17-25 | every pointer that is still set belongs to a dropped action |
| `ActionProcessors.Attempter.PreparedKeeps` | src/platform/update_engine/main.cc:54-92 | the check on queued actions holds for every attempt, the nested one included |
| `ActionProcessors.Attempter.FirstStarts` | src/platform/update_engine/main.cc:54-105 | an update is on course from its start, even if it finishes at once |
| `ActionProcessors.Attempter.ResumedKeeps` | src/platform/update_engine/main.cc:107-127 | every later completion keeps it on course, and the response handler exists |
| `ActionProcessors.Attempter.UpdateFinishes` | src/platform/update_engine/main.cc:54-127 | at most two attempts, the second if and only if the first failed although there was an update; the main loop quits once |
| `ActionProcessors.UpdateAttempter.Update` | src/platform/update_engine/main.cc:54-105 | seven new actions are queued and started; nothing runs before |
| `ActionProcessors.UpdateAttempter.ProcessingDone` | src/platform/update_engine/main.cc:107-127 | quits, or tries a full update after a failed delta update |
| `ActionProcessors.UpdateInMainLoop` | src/platform/update_engine/main.cc:129-133 | a whole update quits the main loop once and does what is expected of its one or two attempts |
| `FailingInputs.ClashIsUnfaithful` | src/platform/update_engine/filesystem_copier_action.cc:262-273 | two linked files of different devices with one inode number: the copy succeeds and is unfaithful |
| `FailingInputs.MountedTwiceIsUnfaithful` | src/platform/update_engine/filesystem_copier_action.cc:262-273 | a single-link file that is seen at two places: the copy succeeds and is unfaithful |
| `FailingInputs.MarkerOfSourceIsExposed` | src/platform/update_engine/filesystem_copier_action.cc:132-136 | a source that has an empty marker, as a copy has, and a file after it exposes the marker |
| `FailingInputs.WrittenMarkerIsExposed` | src/platform/update_engine/filesystem_copier_action.cc:251-287 | a marker that is copied last is exposed if and only if it has content |
| `FailingInputs.HoleBeforeBlockZero` | src/platform/update_engine/graph_utils.cc:25-37 | a sparse hole followed by block 0 becomes a single run of two |
| `FailingInputs.TwoCombosOfOneKeysym` | src/platform/window_manager/key_bindings.cc:141-143 | a run of two calls after which a third fails the CHECK |
| `FailingInputs.CapitalTypesAnother` | src/platform/autox/script_runner.cc:385-424 | a keyboard on which the text A is read as that letter and accepted, and something else is typed |
| `FailingInputs.TooManyWindows` | src/platform/window_manager/layout_manager.cc:1664-1709 | a hundred and twenty maximized windows on 1024 by 768 pixels all get negative widths, without a warning |
| `FailingInputs.MagnifiedAndCreateBrowser` | src/platform/window_manager/layout_manager.cc:1698-1709 | a magnified window that has resized itself (lines 475-487) to the height of the overview area reaches the warning, beside the create-browser window |
| `FailingInputs.AddedBelowModal` | src/platform/window_manager/layout_manager.cc:1362-1365 | a transient added to a layer that has a modal one is stacked above it |
| `FailingInputs.MagnifiedUnseen` | src/platform/window_manager/layout_manager.cc:619-641 | the message to switch to overview mode magnifies a window without showing it |
| `FailingInputs.TransientOrphaned` | src/platform/window_manager/layout_manager.cc:424-463 | a toplevel unmapped before its transient leaves the transient with an owner that is gone |
| `FailingInputs.DroppedForGood` | src/platform/update_engine/action_processor.cc:67-71 | of two queued actions the second, dropped when the first fails, cannot be queued again |

## Left out

- File modes and owners in the copy (chmod and lchown), access and modification times.
- Failing reads, writes and other system calls, a source that changes during the walk, and `thread_should_exit_`, whose early exit still reports success.
- FilesystemCopiers.FilesystemCopierAction.HelperThreadMain: opening a marker that the copy has brought is modelled as changing nothing, also where it is a symbolic link, FIFO or socket; formatting is one step.
- Failure to format or mount the destination: the source then runs into its own CHECK in `Unmount`. The output pipe of FilesystemCopierAction.
- Empty exclusion prefixes; the copier only passes `/lost+found`.
- ExtentWriters.DirectExtentWriter.Init: what a writer does that is initialized again after it has written; extents without blocks, products beyond 64 bits, and reads of the file between writes.
- Extents.ExtentsForFileFibmap: the file size and the ioctl are a given list of answers.
- KeyBindingIndexes.KeyBindings.AddBinding: does not model the X grabs; nor do the other methods. Closures are not run but logged, and do not change bindings themselves.
- KeyBindingIndexes.KeyBindings.RemoveAction: combos are values. `key_bindings.cc:120` passes on a reference to an element of the set from which line 160 erases it, and lines 162 and 175-177 still read it; the model takes the combo that was passed.
- ScriptRunners.TypeText: keys with Shift_L are taken to act as Shift, and Caps Lock and the other modifiers not to be held; the JSON around a command is not parsed.
- ScriptRunners.ScriptRunner.HandleHotkeyCommand: the text is given already split at its hyphens. The key, motion, button and sleep commands are left out.
- Rounding errors of doubles in the overview arithmetic, and the panning, gradients and other parts of the new overview mode.
- The vertical placement of the create-browser window, and the on-screen geometry of windows in active mode beyond the kind of animation.
- Transients.ToplevelWindow.AddTransientWindow: does not model offsets from the owner, button grabs and event registration; a window's modality is fixed. Only the client windows' order is modelled, not that of shadows and actors.
- LayoutManagers.LayoutManager.MoveFloatingTab: the toplevel at the pointer and the pointer's area are given; only the client-message and key-event side of focus in `Transients` is modelled, not the focus calls of the layout manager.
- LayoutManagers.LayoutManager.HandleWindowMap: tab summaries, floating tabs and the create-browser window are not toplevels and are left out; a window is mapped only while it is not known.
- Key bindings for the two modes, metrics, messages to Chrome, and resizing of clients.
- ActionProcessors.UpdateAttempter.Update: the bonds between actions and what they pass on are left out, and so is the lifetime of action objects; it is called only when the queue and the vector of actions are empty, as both callers do.
- ActionProcessors.ActionProcessor.ActionComplete: ProcessingDone is the last thing it does, so it is returned to the caller to be called there; a processor without a delegate is not modelled.
- Stopping a running update from outside the processor; `StopProcessing` is modelled for the processor alone.
