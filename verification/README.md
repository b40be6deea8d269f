# A verified model of Ptychite's algorithms

Ptychite is a Wayland compositor written in C. Most of it drives other libraries; this project models the parts that
carry algorithms of their own and proves what they keep and compute. `dafny verify dfyconfig.toml` checks everything.

**Hash table and hash function** (`Primes`, `HashSizes`, `HashTable`, `Words`, `Murmur`). An open-addressing table
with double hashing, tombstones and a rehash that re-enters insertion, as a class over an array of slots. Its runs
refine a multiset of pairs. The number theory behind the walk over a prime size is proved from scratch; that a row's
size is prime is proved for the rows up to 4096 entries and is a hypothesis (`PrimeRow`) for larger ones. The mixer is
shown invertible step by step, with 32-bit words as bounded integers and their own exclusive or, shifts and rotation.

**Windows, workspaces and focus** (`Objects`, `Desktop`, `DesktopRuns`, `DesktopSteps`, `DesktopLists`, `Compositor`,
`CompositorRuns`). `Compositor` holds the source's mutable objects and handlers: views sit on four lists at once,
workspaces are allocated and freed, and focusing and switching call each other. Each method is proved to take exactly
the step that `Desktop` defines on a value `State`, the abstraction of the heap; the invariants and the theorems about
runs are proved there, and `DesktopLists` says what each step does to every list, element by element. The monitor
under the pointer, which decides the active monitor after a switch, is part of the state and changes by its own event.
`CompositorRuns` starts a server, serves any sequence of requests on the objects and shows that they go through a run
of `Desktop`; new outputs are requests too, so nothing is assumed about how many monitors a run has.

**Tiling and frames** (`Tiling`). The master and stack columns and the limits that client hints impose, in truncated
integer arithmetic; the master factor is a real number.

**Application switcher** (`Switcher`). The rebuilding of its list from the previous one, as classes.

**Chords** (`Chord`, `ChordMeaning`, `Actions`, `Bindings`, `Matcher`, `Json`). The parser over a character buffer,
the printer, actions and their arguments, the pool of binding slots with its JSON form, and the incremental matcher
over key presses. xkb's names of keysyms are a pair of abstract functions.

**Property tree** (`Paths`, `Properties`, `PropertyOrder`). The colon-separated paths, the table of properties, the
worklist that sets a nested object with its walk over parent ids, and the tree builder for reading. Setters and
getters are abstract: a getter may fail, and whether a setter succeeds may depend on all calls made before it.

Four statements that one might expect do not hold of the code, and are replaced by the exact condition. A pair whose
hash is 0 is refused by an empty slot and dropped by a rehash (`HashTable.Table.Insert`, `HashTable.Table.Reinsert`;
`Murmur.ZeroHashRefused` gives the one 32-bit key concerned). Printing a chord drops modifiers above bit 7
(`Chord.ParseUndoesPrint`). Setting an object differs from setting its leaves one by one if a key holds a colon that
makes its path name an entry (`Properties.ObjectIsItsLeaves`, `Properties.ColonKeyRefused`). Going to the next
workspace and back does not return to an empty workspace that is not the last, nor, with the cursor on another
monitor, to any but an only one (`DesktopSteps.PreviousWorkspaceUndoesNext`, `DesktopSteps.EmptyWorkspaceReached`).

## Model

| member | source | states |
|---|---|---|
| `HashSizes.RowShape` | src/ptychite/util.c:156-190 | In every size row but the last the rehash value is the size minus 2, fewer entries than slots are allowed, one step of the walk cannot overflow 32 bits, and each row allows twice the entries of the one before |
| `HashSizes.SmallRowsArePrime` | src/ptychite/util.c:159-170 | The sizes of the rows for up to 4096 entries are prime (proved by trial division) |
| `HashSizes.ProbeNext` | src/ptychite/util.c:227-229 | One turn of the probing loop, in 32-bit arithmetic, is one step of the walk (hash + n * step) mod size |
| `HashSizes.ProbeInjective` | src/ptychite/util.c:217-231 | For a prime size no slot is seen twice within one cycle of the walk |
| `HashSizes.ProbeReturns` | src/ptychite/util.c:217-231 | The walk is back at its start after exactly size steps and not before, so the loop's exit test ends it after one full cycle |
| `HashSizes.ProbeVisits` | src/ptychite/util.c:279-296 | Every slot of the table is visited at exactly one position of the cycle |
| `HashTable.Table.Init` | src/ptychite/util.c:236-246 | A new table is valid, holds no pair and starts at the first size row |
| `HashTable.Table.GetEntry` | src/ptychite/util.c:214-234 | The lookup loop ends, and finds a slot with the hash exactly if the array has one |
| `HashTable.Table.Get` | src/ptychite/util.c:315-323 | Get answers exactly if some pair with that hash is live, and then with the data of the first one on the walk |
| `HashTable.Table.Remove` | src/ptychite/util.c:301-313 | Remove takes the first pair with that hash on the walk out of the multiset, counts one more tombstone, and changes nothing if there is none |
| `HashTable.Table.FindFree` | src/ptychite/util.c:279-296 | The insertion loop ends at the first slot of the walk that is not filled, except that hash 0 is refused by an empty slot |
| `HashTable.Table.Insert` | src/ptychite/util.c:268-299 | Insert adds exactly one pair; with a non-zero hash it always succeeds; with hash 0 it succeeds exactly if no rehash comes first and the first unfilled slot on the walk is a tombstone; the row grows exactly when the entries are used up |
| `HashTable.Table.RehashesWhen` | src/ptychite/util.c:268-277 | An insertion takes the next size exactly when as many entries are counted as its row allows, and rehashes exactly when entries and tombstones together are as many |
| `HashTable.Table.Reinsert` | src/ptychite/util.c:207-209 | An insertion made inside a rehash never rehashes again (this ends the mutual recursion) and drops a pair whose hash is 0 |
| `HashTable.Table.Rehash` | src/ptychite/util.c:192-212 | A rehash keeps every pair with a non-zero hash, leaves no tombstone, and makes the entry counter the exact number of pairs |
| `HashTable.Table.Iterate` | src/ptychite/util.c:370-383 | Iteration calls the callback on the live items in slot order up to the first for which it answers true |
| `HashTable.ItemsAreLive` | src/ptychite/util.c:370-383 | The items iterated over are the data of the live pairs, taken in some order, each pair as often as it is live |
| `HashTable.ItemsAreSome` | src/ptychite/util.c:370-383 | A datum is iterated over exactly if some live pair has it |
| `HashTable.SmallRunsReachPrimes` | src/ptychite/util.c:156-190 | For runs of up to 4096 operations the primality of every reachable row is proved, not assumed |
| `HashTable.Execute` | src/ptychite/util.c:268-323 | One operation with a non-zero inserted hash keeps the table valid and steps the multiset of pairs as specified |
| `HashTable.Run` | src/ptychite/util.c:192-322 | Every sequence of insertions of non-zero hashes, removals and lookups on a new table, with all its rehashes, answers and evolves like a multiset of (hash, data) |
| `HashTable.RunAsMap` | src/ptychite/util.c:192-368 | A run on a new table that never inserts a present key gives, at every step, the answer of an ordinary map |
| `HashTable.StepIsMap` | src/ptychite/util.c:268-323 | While no present key is inserted again, one multiset step is one step of an ordinary map with the same answer |
| `HashTable.RunIsMap` | src/ptychite/util.c:333-368 | Over any run that never inserts a present key the table answers exactly like an ordinary map |
| `Words.RotlUndone` | src/ptychite/util.c:89-91 | Rotating by r and then by 32 - r is the identity |
| `Words.MulUndone` | src/ptychite/util.c:93-142 | Multiplying modulo 2^32 by a constant and then by its inverse is the identity |
| `Murmur.Murmur3Hash` | src/ptychite/util.c:102-142 | The block loop, the falling-through switch over the tail and the final mix compute the fold that the lemmas below are about |
| `Murmur.FmixUndone` | src/ptychite/util.c:93-100 | The final mixer is a bijection: an explicit inverse undoes it on both sides |
| `Murmur.ScrambleUndone` | src/ptychite/util.c:118-120 | The scrambling of one block is a bijection on 32-bit words |
| `Murmur.AdvanceUndone` | src/ptychite/util.c:123-124 | The rotation and affine step of the accumulator is a bijection |
| `Murmur.ScrambleInNumbers` | src/ptychite/util.c:118-120 | In numbers, a block's word is multiplied, its upper 15 bits change places with the others, and it is multiplied again, modulo 2^32 |
| `Murmur.ScrambleTailInNumbers` | src/ptychite/util.c:135-135 | The word of the tail is joined with the first constant instead of multiplied by it |
| `Murmur.AdvanceInNumbers` | src/ptychite/util.c:122-124 | In numbers, the accumulator's upper 13 bits change places with the others before it is multiplied by 5 and increased |
| `Murmur.FmixInNumbers` | src/ptychite/util.c:93-100 | In numbers, the final mixer joins the word with its quotients by 2^16, 2^13 and 2^16 and multiplies in between |
| `Murmur.LittleEndian` | src/ptychite/util.c:113-116 | The first byte of a block is the lowest of its word |
| `Murmur.CommonEndCollides` | src/ptychite/util.c:102-142 | Two keys of one length that agree from a block boundary on collide exactly if the accumulators agree at that boundary, for every length and seed |
| `Murmur.OneBlockSeparates` | src/ptychite/util.c:102-142 | Two keys that differ at most inside one 4-byte block hash alike exactly if they are equal |
| `Murmur.TailSeparates` | src/ptychite/util.c:126-142 | Two keys of one length that differ at most after the last whole block hash alike exactly if they are equal |
| `Murmur.Hash32Bijective` | src/ptychite/util.c:148-150 | The hash of 32-bit keys is a bijection on 32-bit words, with an explicit inverse |
| `Murmur.ZeroHashRefused` | src/ptychite/util.c:148-150 | Exactly one 32-bit key hashes to 0, and that key alone is refused by a new map |
| `Desktop.FocusBringsForward` | src/ptychite/view.c:106-156 | Focusing a view that does not hold the keyboard ends with it holding the keyboard, at the head of the server's list and of its workspace's focus list, its workspace current, its monitor active, and get_focused_view returning it |
| `Desktop.FocusKeeps` | src/ptychite/view.c:106-156 | Focusing a mapped view keeps every list invariant, also when it switches workspaces on the way |
| `Desktop.SwitchKeeps` | src/ptychite/monitor.c:101-134 | A switch makes exactly the requested workspace current, moves no view to another workspace, keeps every invariant, and leaves no empty workspace but the current and the last |
| `Desktop.FixTrims` | src/ptychite/monitor.c:83-99 | After fixing, every workspace of the monitor that is neither current nor last has a view |
| `DesktopLists.FocusLists` | src/ptychite/view.c:106-156 | Focusing puts the view first on the server's list and on its workspace's focus list; all other views keep their order there, and every other list that stays is unchanged |
| `DesktopLists.FocusWorkspaces` | src/ptychite/view.c:147-149 | Focusing a shown view keeps all workspaces; focusing a hidden one keeps, in their order, those that are then shown, last or not empty |
| `DesktopLists.SwitchLists` | src/ptychite/monitor.c:83-134 | A switch gives the keyboard to the first view of the workspace's focus list, or to none if it is empty, moves nothing else on any list, keeps in their order the workspaces shown, last or not empty, and ends with the stated monitor active |
| `Desktop.MapKeeps` | src/ptychite/view.c:197-244 | Mapping a view keeps the invariant, including a new empty workspace when the last one was filled |
| `DesktopLists.MapLists` | src/ptychite/view.c:197-244 | Mapping keeps the old order of the workspace and puts the view before it or after it, as configured, puts it first on the other lists, and changes no other list; a workspace is added exactly if the last one was filled |
| `Desktop.UnmapKeeps` | src/ptychite/view.c:246-281 | Unmapping a view keeps the invariant |
| `DesktopLists.UnmapLists` | src/ptychite/view.c:246-281 | Unmapping takes the view off all its lists and keeps the order of the others; whether it had the keyboard or not, the new keyboard holder, the server's list and the active monitor are stated |
| `DesktopLists.UnmapGivesBack` | src/ptychite/view.c:119-126 | A view that has the keyboard gets it back when the view focused after it on the same workspace is unmapped |
| `Desktop.StepWorkspaceKeeps` | src/ptychite/action.c:76-102 | The next and previous workspace actions keep the invariant |
| `Desktop.StepViewKeeps` | src/ptychite/action.c:104-132 | The next and previous view actions keep the invariant |
| `Desktop.SwapKeeps` | src/ptychite/action.c:134-157 | The swap-front action keeps the invariant |
| `Desktop.NextKeeps` | src/ptychite/monitor.c:83-134 | Every event (map, unmap, destroy, focus, workspace click, next and previous workspace and view, swap-front, pointer motion, new output) keeps the invariant |
| `Desktop.PlugKeeps` | src/ptychite/server.c:426-498 | A new output, with its first workspace and the tiling of every monitor that the changed layout asks for, keeps the invariant |
| `Desktop.RunKeeps` | src/ptychite/monitor.c:83-134 | The invariant holds after every event of every run |
| `Desktop.InitialInv` | src/ptychite/server.c:426-498 | A server with one monitor, one workspace and no view satisfies the invariant |
| `DesktopRuns.MappedOnce` | src/ptychite/view.c:197-216 | In every reachable state a mapped view is on exactly one workspace, a listed one of its monitor, on both of its lists, on exactly one monitor's list, and is shown exactly if that workspace is current |
| `DesktopRuns.ListsAreOnePermuted` | src/ptychite/view.c:119-126 | The order list and the focus list of a workspace are permutations of each other |
| `DesktopRuns.WorkspaceBound` | src/ptychite/monitor.c:83-99 | A monitor without superfluous empty workspaces has at most two workspaces more than views |
| `DesktopRuns.SwitchBounds` | src/ptychite/monitor.c:101-134 | After a click on a workspace, and after a workspace action, the monitor that switched has at most two workspaces more than views |
| `DesktopRuns.FocusBounds` | src/ptychite/view.c:106-156 | After focusing a view that is not shown, which switches to its workspace on the way, its monitor has at most two workspaces more than views |
| `DesktopRuns.StepViewMoves` | src/ptychite/action.c:104-132 | next_view and prev_view move the focus to the neighbour in the workspace's order and change no order |
| `DesktopRuns.NextViewCycles` | src/ptychite/action.c:104-117 | k uses of next_view focus the view k places on, around the end |
| `DesktopRuns.EachViewOnce` | src/ptychite/action.c:104-117 | In n uses of next_view on a workspace of n views each view is focused exactly once, and the n-th use is back at the start |
| `DesktopRuns.PreviousUndoesNext` | src/ptychite/action.c:104-132 | prev_view undoes next_view and next_view undoes prev_view |
| `DesktopLists.StepViewFallsBack` | src/ptychite/action.c:104-132 | Without a focused view the view actions focus the top one of the active monitor, or do nothing if it shows none |
| `DesktopLists.StepWorkspacePlace` | src/ptychite/action.c:76-102 | The next workspace is the one at the next place of the monitor's list, the previous one at the place before, around the ends |
| `DesktopLists.PointActivates` | src/ptychite/server.c:110-115 | The cursor on a monitor activates it |
| `DesktopLists.PlugLists` | src/ptychite/server.c:426-498 | A new output gets one empty workspace, and nothing else changes, except that the cursor's monitor becomes active if any view is shown |
| `DesktopLists.DestroyReleases` | src/ptychite/view.c:283-294 | A destroyed view that still has the keyboard leaves it to none; nothing else changes |
| `DesktopSteps.StepWorkspaceMoves` | src/ptychite/action.c:76-102 | The workspace actions make the neighbour on the active monitor's list current, around its ends, and clean the list up; if the cursor is on another monitor that one is active afterwards |
| `DesktopSteps.PreviousWorkspaceUndoesNext` | src/ptychite/action.c:76-102 | Going to the next workspace and back (or the other way round) ends where it began exactly if that workspace has a view or is the last; with the cursor on another monitor, exactly if it is the only one |
| `DesktopSteps.EmptyWorkspaceReached` | src/ptychite/action.c:76-102 | From the start, mapping a view and unmapping it leads to a workspace that the way there and back does not return to |
| `DesktopSteps.SwapMoves` | src/ptychite/action.c:134-157 | swap_front moves the focused view to the front of its workspace's order, or the second view if the focused one is first, and moves no focus |
| `DesktopLists.SwapLists` | src/ptychite/action.c:134-157 | The views that swap_front does not move keep their order, and it activates the cursor's monitor if it moves one |
| `DesktopSteps.SwapTwice` | src/ptychite/action.c:134-157 | Swapping twice restores the order exactly if the focused view is first or second; with the cursor on another monitor, exactly if it is alone |
| `DesktopRuns.MapTakesFocus` | src/ptychite/view.c:197-244 | A newly mapped view holds the keyboard, foremost on the monitor that was active and its current workspace; it is the focused view exactly if that monitor is still active, which only the tiling for a view that held the keyboard before can change |
| `DesktopRuns.UnmapHandsOver` | src/ptychite/view.c:263-270 | Unmapping the view with the keyboard hands it to the most recently focused other view of the workspace; if there is none the keyboard stays where it was |
| `Compositor.Server.GetFocusedView` | src/ptychite/server.c:717-733 | The method answers with the view that the specification calls focused: the top one of the active monitor, first in the focus order, if it holds the keyboard |
| `Compositor.Server.Focus` | src/ptychite/view.c:106-156 | The method, which calls Switch and is called by it, terminates and takes exactly the specified step on the heap's lists and marks |
| `Compositor.Server.Switch` | src/ptychite/monitor.c:101-134 | The method hides and shows views, frees workspaces and refocuses exactly as the specified step |
| `Compositor.Server.FixWorkspaces` | src/ptychite/monitor.c:83-99 | The loop frees exactly the empty workspaces that are neither current nor last, in place |
| `Compositor.Server.MapView` | src/ptychite/view.c:197-244 | Mapping takes exactly the specified step, with a newly allocated workspace when the last one was filled |
| `Compositor.Server.UnmapView` | src/ptychite/view.c:246-281 | Unmapping takes exactly the specified step |
| `Compositor.Server.SwapFront` | src/ptychite/action.c:134-157 | The action moves the focused view, or the second one if it is already first, to the front of the order and retiles as specified |
| `Compositor.Server.StepView` | src/ptychite/action.c:104-132 | The next and previous view actions take exactly the specified step |
| `Compositor.Server.StepWorkspace` | src/ptychite/action.c:76-102 | The next and previous workspace actions take exactly the specified step |
| `Compositor.Server.ClickWorkspace` | src/ptychite/windows/panel.c:621-630 | A click on a workspace of the panel switches to it unless it is current |
| `Compositor.Server.FocusAny` | src/ptychite/server.c:779-786 | The fallback focuses the top view, first in the focus order, if there is one |
| `Compositor.Server.PlugMonitor` | src/ptychite/server.c:426-498 | A new output joins the monitors with a newly allocated workspace, and all of them are tiled, exactly as the specified step |
| `CompositorRuns.Serve` | src/ptychite/view.c:197-281 | A request about views, places on the screen or outputs, whether it can be met or not, takes the objects through exactly the event it stands for, or leaves them alone |
| `CompositorRuns.Run` | src/ptychite/view.c:106-281 | Any sequence of requests to a server that has just started keeps the objects consistent and takes them from world to world as specified, with all that is allocated on the way new |
| `CompositorRuns.AnsweredIsRun` | src/ptychite/monitor.c:83-134 | What the requests lead through is a run of the specification, so every theorem about runs holds of the objects |
| `CompositorRuns.AnsweredKeeps` | src/ptychite/monitor.c:83-134 | The invariant holds after every request |
| `Tiling.Frame.Resize` | src/ptychite/view.c:23-83 | The frame takes the wanted size limited by the client's hints, and its borders, title bar and surface the boxes that follow from it |
| `Tiling.Frame.ResizeToSelf` | src/ptychite/view.c:23-83 | Resizing a frame to the size it settled on leaves that size |
| `Tiling.LimitIdempotent` | src/ptychite/view.c:41-55 | Resizing to the size that a resize settled on changes nothing, for any hints |
| `Tiling.LimitRespectsHints` | src/ptychite/view.c:41-55 | With consistent hints the client's own size lies within them, and the wanted size is kept exactly if it already fits |
| `Tiling.LimitContradicted` | src/ptychite/view.c:48-55 | A maximum below the minimum wins over it, unless with the decoration it exceeds the largest int |
| `Tiling.PartsTileFrame` | src/ptychite/view.c:68-82 | Title bar or top border, the other borders and the surface cover each point of the frame exactly once and nothing outside |
| `Tiling.PartsAroundSurface` | src/ptychite/view.c:68-82 | Each border is on its side of the surface, and the surface has the frame's size less the decoration |
| `Tiling.ColumnNeverOverlaps` | src/ptychite/monitor.c:57-74 | For any hints and any room the views of a column never overlap, and neighbours are exactly one gap apart |
| `Tiling.FairStep` | src/ptychite/monitor.c:57-74 | Dividing what is left, truncated, among the views that remain gives each the share of a fair division |
| `Tiling.ColumnIsFair` | src/ptychite/monitor.c:57-74 | With room for all, the heights of a column are a fair division of the room exactly if no view's own fair height is limited by its hints, and then each view stands where that division puts it |
| `Tiling.ColumnFillsExactly` | src/ptychite/monitor.c:57-74 | A column without a limited fair height starts one gap below the top, ends one gap above the bottom, and its heights never decrease and differ by at most 1 |
| `Tiling.ColumnStaysInside` | src/ptychite/monitor.c:57-74 | With room for all, a column in which no view is higher than what is asked for it stays one gap away from the top and the bottom, whatever heights the hints take off |
| `Tiling.ColumnsFit` | src/ptychite/monitor.c:37-54 | The two columns are one gap from the sides and from each other, and right-master is the mirror image of left-master |
| `Tiling.Tile` | src/ptychite/monitor.c:25-81 | The tiling loop puts every view where its column's offsets and heights say; on the frames, each column starts one gap below the top, its neighbours are one gap apart, and it ends one gap above the bottom if no fair height is limited |
| `Tiling.StackedDisjoint` | src/ptychite/monitor.c:57-74 | Whatever the hints, two frames of a column that has been tiled have no point in common |
| `Tiling.ColumnsApart` | src/ptychite/monitor.c:37-74 | Two tiled frames of different columns lie side by side exactly if the one in the left column is at most one gap wider than asked for, up to frames without width and columns that change sides |
| `Tiling.FramesDisjoint` | src/ptychite/monitor.c:25-81 | If no frame of the left column is more than one gap wider than asked for, no point lies in two tiled frames |
| `Tiling.FrameInside` | src/ptychite/monitor.c:25-81 | A tiled frame that is not enlarged, in a column with room for all and without enlarged views, stays one gap inside the window area on all four sides, if the width asked for the other column is not below minus one gap |
| `Tiling.ColumnsHaveRoom` | src/ptychite/monitor.c:37-54 | For every master factor the actions allow and a window area 39 gaps wide or more, no column is asked for a width below minus one gap |
| `Tiling.TiledWidth` | src/ptychite/monitor.c:43-54 | With both columns in use the first views are asked for the factor's share of the width, rounded down, less one gap, and the others for the rest less the gaps; a lone column is asked for the whole width less two gaps |
| `Tiling.ShareGrows` | src/ptychite/monitor.c:43-49 | A greater master factor never asks for a narrower master column |
| `Tiling.Layout.ChangeViewsInMaster` | src/ptychite/server.c:735-755 | The number of master views stays between 0 and 100, and the monitor is retiled exactly if it changed |
| `Tiling.Layout.ChangeMasterFactor` | src/ptychite/server.c:757-777 | The master factor stays between 0.05 and 0.95, and the monitor is retiled exactly if it changed |
| `Switcher.Switcher.Rebuild` | src/ptychite/windows/switcher.c:115-238 | The new list is the grouping of the views by application, reuses the old entries of applications that still have views, and ends with the stated current entry; with the sub-switcher the index of an entry that stays is kept if it is inside its views, and a new current entry selects its second view if it has one; all other indexes are kept, or 0 if there was no current entry |
| `Switcher.AppsDistinct` | src/ptychite/windows/switcher.c:123-191 | No application is listed twice |
| `Switcher.AppsAreUsed` | src/ptychite/windows/switcher.c:123-191 | An application is listed exactly if a view has it |
| `Switcher.AppsByAppearance` | src/ptychite/windows/switcher.c:123-191 | Applications are listed in the order in which they first appear among the views |
| `Switcher.GroupsAreExact` | src/ptychite/windows/switcher.c:123-191 | A group holds each view of its application as often as the list does, and no other |
| `Switcher.GroupsKeepOrder` | src/ptychite/windows/switcher.c:123-191 | A group keeps the order of the list (the grouping is stable) |
| `Chord.ParsePattern` | src/ptychite/chord.c:26-129 | The in-place parser computes the specified parse, with the same error for every malformed pattern, and every write stays inside its buffer and key array |
| `Chord.FillKeys` | src/ptychite/chord.c:55-119 | The filling pass leaves no key of the counted array unfilled when it succeeds |
| `Chord.ParseFillsCount` | src/ptychite/chord.c:26-129 | A successful parse yields exactly as many keys as the counting pass found tokens |
| `Chord.GetPattern` | src/ptychite/chord.c:135-195 | The printing loops produce the specified pattern, and nothing for an empty chord or a keysym without a name |
| `Chord.BitNamed` | src/ptychite/chord.c:9-24 | Each of the eight modifier bits is read back from the first name that the table has for it |
| `Chord.ModifierNamesMean` | src/ptychite/chord.c:9-24 | The eleven names mean these modifiers, three of them Alt and two the logo key, and no other name means any |
| `Chord.ParseUndoesPrint` | src/ptychite/chord.c:135-195 | Parsing a printed chord gives back its keysyms and the modifiers below bit 8; so it gives back the chord exactly if every key's modifiers are below 256 |
| `Chord.PrintingIsFaithful` | src/ptychite/chord.c:26-195 | For every chord that came from a pattern, the printed pattern parses to the same chord |
| `ChordMeaning.TokenMeans` | src/ptychite/chord.c:79-112 | A token is names with dashes and the name of a keysym: its first fault decides the error, and without one an unknown keysym does |
| `ChordMeaning.TokenModifiers` | src/ptychite/chord.c:79-112 | Without a fault the key has the keysym and exactly the modifiers that the names mean, in any order and however often |
| `ChordMeaning.PatternMeans` | src/ptychite/chord.c:26-129 | A pattern without words is empty; otherwise its keys are those of its words in order, or its error that of the first word that means none |
| `ChordMeaning.WordsSplit` | src/ptychite/chord.c:55-77 | A space ends a word and means nothing else, however many there are |
| `ChordMeaning.PrintedInOrder` | src/ptychite/chord.c:135-195 | The modifiers of a printed key are exactly the names of its bits below 256, from the lowest bit on |
| `Actions.CreateAction` | src/ptychite/action.c:215-312 | The table search and the arity checks accept and refuse exactly the specified argument lists |
| `Actions.ArgumentsTaken` | src/ptychite/action.c:187-312 | Under its name each function is found; spawn takes one argument or more, shell exactly one, and every other action none |
| `Actions.OtherNames` | src/ptychite/action.c:215-312 | Any other name is unknown |
| `Actions.ArgsOfCreated` | src/ptychite/action.c:314-403 | Reading the arguments of a created action gives the list it was created from |
| `Actions.CreatedFromArgs` | src/ptychite/action.c:215-312 | Creating from the arguments of an action gives the action back |
| `Bindings.Config.Wipe` | src/ptychite/config.c:1576-1585 | Every slot becomes inactive |
| `Bindings.Config.AddBinding` | src/ptychite/config.c:1597-1606 | The slot given out is the first inactive one, or a new one at the end |
| `Bindings.Config.ScanInto` | src/ptychite/config.c:1608-1636 | A scan fills that slot, or leaves it inactive when the pattern or the action is refused |
| `Bindings.Config.SetKeyboardChords` | src/ptychite/config.c:337-390 | Setting the chords wipes first when overwriting and then scans binding by binding up to the first error, as specified |
| `Bindings.Config.GetKeyboardChords` | src/ptychite/config.c:392-446 | Reading sizes and fills the array with the active bindings in order |
| `Bindings.PutActive` | src/ptychite/config.c:1597-1636 | A scanned binding comes right after the active bindings that precede the first inactive slot, and moves no other |
| `Bindings.ScanAppends` | src/ptychite/config.c:1608-1636 | In a pool without holes a successful scan appends, and a failed one changes no active binding |
| `Bindings.SetChordsKeeps` | src/ptychite/config.c:337-390 | No JSON value, in either mode, leads to a pool with a hole or to a binding that a scan could not make |
| `Bindings.SetChordsMeans` | src/ptychite/config.c:337-390 | Setting adds the bindings of the list in its order, up to the first item that stands for none, and succeeds exactly if there is none such; overwriting drops the old ones even if it fails |
| `Bindings.BindingReadsBack` | src/ptychite/config.c:392-446 | The JSON form of a binding is scanned back as the same keys, action function and action data |
| `Bindings.DumpThenRestore` | src/ptychite/config.c:337-446 | Reading the chords and setting the result in overwrite mode yields the same active bindings in the same order, whatever slots the pool held; in append mode they follow those of a pool without holes |
| `Matcher.Server.HandleKey` | src/ptychite/keyboard.c:28-144 | The loops over the keysyms of a key press and over the bindings compute the specified run of the matcher |
| `Matcher.Server.HandleKeys` | src/ptychite/keyboard.c:28-144 | Key events one after another make the keys, the effects and the answers of the specified run over all their keysyms |
| `Matcher.KeysArePrefix` | src/ptychite/keyboard.c:28-97 | After any run the keys held are none, or a proper prefix of an active chord |
| `Matcher.HeldKeys` | src/ptychite/keyboard.c:33-97 | The keys held are those of the unbroken end of the presses since none were held, without the modifiers pressed on the way |
| `Matcher.NextPress` | src/ptychite/keyboard.c:33-144 | After any presses, one more is ignored, completes the first chord that the presses since none were held begin, goes on with it, or drops all keys; it switches the terminal only if it matches nothing and no keys were held |
| `Matcher.PressRuns` | src/ptychite/keyboard.c:42-97 | A press runs a binding exactly if the presses since none were held are its chord and no earlier active chord begins so |
| `Matcher.KeysymsMean` | src/ptychite/keyboard.c:33-140 | Exactly the nine keysyms of Shift, Control, Caps Lock, Alt and Super are ignored while keys are held, and the twelve terminal keysyms stand for their numbers |
| `Matcher.TypingRuns` | src/ptychite/keyboard.c:42-97 | Typing an executable chord from the empty state runs its binding once, at the last key, and leaves no keys |
| `Matcher.RunsOnlyExecutable` | src/ptychite/keyboard.c:42-97 | Whatever is typed, only executable bindings run |
| `Matcher.SomeRunExecutes` | src/ptychite/keyboard.c:28-97 | A binding runs in some run exactly if its chord has no modifier keysym after the first key, no chord of an earlier length wins on the way, and it is the first binding with its keys |
| `Matcher.PrefixFreeExecutable` | src/ptychite/keyboard.c:42-97 | Among prefix-free chords a binding can run exactly if its chord has no modifier keysym after the first key |
| `Matcher.TypingRunsDespiteModifiers` | src/ptychite/keyboard.c:33-40 | Modifier-only presses between the first and the last key of an executable chord change nothing |
| `Matcher.Run` | src/ptychite/keyboard.c:28-144 | Any key events on a new server leave keys that begin an active chord, have run executable bindings only, and run a binding once and alone if they type its executable chord |
| `Paths.TableIsWellformed` | src/ptychite/config.c:1163-1212 | In the table of properties no path is a prefix of another, and all tokens are non-empty and without colons |
| `Paths.GatherEntryRefs` | src/ptychite/config.c:1214-1311 | The tokenising passes and the piecewise comparison gather exactly the entries whose paths begin with the tokens, in table order, and refuse empty tokens and unknown paths |
| `Paths.TokensRoundTrip` | src/ptychite/config.c:1216-1259 | Tokenising the path named by colon-free tokens gives the tokens back exactly if none is empty, two empty ones naming the root |
| `Paths.PathRoundTrip` | src/ptychite/config.c:1216-1259 | An accepted path is the one that its tokens name |
| `Paths.GatherExact` | src/ptychite/config.c:1261-1298 | The gathered entries are exactly those below the path, each once |
| `Paths.GatherInOrder` | src/ptychite/config.c:1261-1298 | They are gathered in the order of the table |
| `Properties.ParentsMatch` | src/ptychite/config.c:1376-1389 | The walk over parent ids never reaches the nameless root, and succeeds exactly if the entry's path ends in the names on the way from the root |
| `Properties.Config.VisitAll` | src/ptychite/config.c:1334-1419 | The worklist loop terminates and calls the setters for the leaves level by level, up to the first failure |
| `Properties.Config.SetPropertyInner` | src/ptychite/config.c:1313-1429 | Setting makes exactly the specified setter calls and fails exactly when specified |
| `Properties.LeavesExact` | src/ptychite/config.c:1348-1419 | The worklist meets every non-object value of the nested object exactly once, and nothing else |
| `PropertyOrder.LeavesRise` | src/ptychite/config.c:1334-1419 | The worklist meets shallow values before deep ones |
| `PropertyOrder.LeavesKeepOrder` | src/ptychite/config.c:1334-1419 | Among the values at one depth it keeps the order in which the object is written |
| `Properties.SetLeavesCalls` | src/ptychite/config.c:1362-1403 | The calls made are one per leaf in turn; a leaf without an entry stops the walk before a call, a failing setter after its own |
| `Properties.SetObject` | src/ptychite/config.c:1313-1429 | Each call is of the entry at the requested path followed by a leaf's own path, no setter is called twice, and on success every leaf has its call |
| `Properties.SetByFullPath` | src/ptychite/config.c:1320-1325 | Setting by the full path of an entry calls that entry's setter and nothing else |
| `Properties.SetRefused` | src/ptychite/config.c:1313-1333 | An ill-formed path, a path above no entry, and a value that is no object at a path above entries are refused with their own errors before any setter is called |
| `Properties.LeafAgrees` | src/ptychite/config.c:1362-1403 | For one leaf, setting it inside an object and by its own path make the same call exactly if its path is not misread, that is, names no other entry when its colons are read as separators |
| `Properties.ObjectIsItsLeaves` | README.md:79-84 | Setting an object makes the same calls as setting its leaves one by one, each by its own path, and fails with them, exactly if the first leaf without an entry is not misread or a setter refuses a leaf before it |
| `Properties.AlwaysItsLeaves` | README.md:79-84 | The two ways agree for all setters, whatever these refuse, exactly if that leaf is not misread |
| `Properties.ColonFreeKeysReadRight` | README.md:79-84 | No leaf of an object whose keys have no colon is misread, so there the equivalence holds |
| `Properties.ColonKeyRefused` | src/ptychite/config.c:1362-1403 | The equivalence fails for a key with a colon: inside an object it is refused where its own path would be set |
| `Properties.GetPropertyInner` | src/ptychite/config.c:1682-1735 | Reading gives one entry's value, or the object that the entries build one after another, and fails as a whole when a getter fails |
| `Properties.InsertKeys` | src/ptychite/config.c:1712-1734 | A key that is not there yet comes last in its object, and none moves |
| `Properties.ReadSucceeds` | src/ptychite/config.c:1682-1735 | Reading succeeds exactly if the path names something and the getter of every entry below it succeeds |
| `Properties.ReadExact` | src/ptychite/config.c:1700-1735 | When every getter below the path succeeds, the object read has unique keys and exactly one leaf for each entry below the path, at the entry's remaining path and with its getter's value |
| `Properties.ReadThenSet` | src/ptychite/config.c:1682-1735 | Setting what was read at the same path hands each entry below it the value its getter gave, each once, unless a setter refuses |

## Left out

- Wayland, wlroots, cairo, pango, librsvg, D-Bus, inotify and process spawning, drawing, the panel, wallpapers, title bar contents and `ptymsg`: foreign calls and user interface. Redraws that a handler triggers change nothing in the model.
- The removal of outputs and `ptychite_monitor_disable`, which re-links views without updating their monitor and workspace fields: monitors only join, all of them are enabled, and one is always active.
- A seat without a keyboard, where focusing does not move the focus; subsurfaces, pop-ups and pointer grabs.
- Event-listener registration on a second map, and the switcher's `in_switcher` flag, which is not set when a view joins an existing group.
- The last row of the size table, where one step of the walk can exceed 32 bits; failed allocation; null data; `ptychite_hash_table_elements_destroy`. The mixer is not claimed to be MurmurHash3, since its tail step differs.
- HashTable.Run: primality of the size rows above 4096 entries is a hypothesis, as the size table promises it.
- Tiling: integer overflow of pixel coordinates; the master factor is a real instead of a double; the mode without tiling, which places a view in the middle.
- Properties.GetPropertyInner: the JSON tree is built on values, so sharing and updating of its nodes in place are not modelled.
- The contents of the getters and setters other than those of the chords: fonts, colours and numbers, which go through libraries or floating point.
- JSON numbers, booleans and null are one abstract leaf; strings read as C strings end at their first NUL.
- Action data of kind int, which no action uses; the message text of errors, of which an unknown action name sets none.
- What a changed chord progress shows on the panels, and the hiding of the switcher when its modifier is released.
- xkb: the names of keysyms are assumed to fit the printer's buffer of 128 bytes.
- Matcher: an allocation that fails while a key is recorded, which drops the keys.
