# herdr: graphics cache, raw input, tiling and agent presence

A Dafny model of four components of the herdr terminal multiplexer, with proofs of what they promise.

- **Graphics cache** (`src/kitty_graphics.rs`). `KittyProtocol` is a host terminal that reads commands of the kitty
  terminal graphics protocol ("Display images on screen", "Deleting images"): transmitting an id again drops its old
  placements, deleting an image drops its placements. `GraphicsSpec` gives each encoder as a function on cache values;
  `GraphicsCache` is the class whose methods update fields in place and are proved to compute these functions.
  `GraphicsMirror` proves that cache and terminal agree over every run, `GraphicsDrain` that repeated calls end and
  with what, `GraphicsFairness` that no layer starves, `GraphicsReference` that the incremental encoder and the
  one-pass encoder end in the same place. `GraphicsCollected` and `GraphicsMissed` say what becomes of entries collected
  without data, `GraphicsPaint` carries this over to the loop that collects again before each call,
  `GraphicsCollisions` is about host ids that collide, and `GraphicsExamples` holds runs from a new host that go wrong.
  `Clipping`, `KittyWire` and `GraphicsBudget` are the arithmetic of clipping, the bytes on the wire, and their budget,
  `GraphicsSize` says which images are too large for it. `KittyReader` reads the bytes back by the key table of the
  protocol, and `KittyBytes` concludes that the bytes reach the terminal.
- **Tiling layout** (`src/layout.rs`). `LayoutTree` is the binary tree and its edits, `LayoutGeometry` its rectangles,
  `LayoutNavigation` the search for neighbours and borders, `TileLayout` the class with focus and history and the
  invariant over every run, `LayoutResize` what a resize does to the pane it is for, `LayoutEdits` what a split and a
  ratio mean on the screen and which pane a movement finds.
- **Raw input framer** (`src/raw_input.rs`). `RawInputBytes` holds the recognisers (ECMA-48 sections 5.4 and 5.6,
  RFC 3629 section 3), `RawInputStability` what they decide for good, `RawInputGrammar` the grammar of what they find,
  `RawInputReports` the reports of a terminal and how they are read back, `RawInputFramer` the class and its
  specification, `RawInputSplits` and `RawInputRuns` that cuts between reads do not show and no byte is invented,
  `RawInputTimeouts` how long input is held and which chunks are events, `RawInputLate` and `RawInputHeld` what becomes of
  input that a timeout cuts in two.
- **Agent presence** (`src/pane.rs`, `src/pane/agent_detection.rs`). `AgentPresence` and `AgentScreen` are the decisions,
  `AgentDetector` the loop as a class, for both places where the source has it (`src/pane.rs:622-922` and `2122-2446`),
  `AgentRuns` the exit protocol over runs, `AgentAcquisition` how a pane gets its agent and what is published of it.

Each class method is proved equal to a function of the old state, and the theorems are about these functions.

## Hypotheses

- *Coherent lists* (`GraphicsDrain.Coherent`): entries with one (host id, placement id) pair are one entry, one source
  has one host image, one host id stands for one image or one layer, and every pane layer in the list is live. Host ids
  are hashes modulo 900,000, and without this two entries can evict each other for ever. The mirror theorems over runs
  ask only that host ids identify images; what happens when they do not is the subject of `GraphicsCollisions`, which
  asks only that the ids of pane layers, which are handed out and not hashed (`src/app/pane_graphics.rs:108-119`), belong
  to one layer each.
- *Clipped entries* (`KittyBytes.AllClipped`): visible entries were clipped by the modelled function to panes on the
  screen.
- *Furnished entries* (`GraphicsPaint.Furnished`): before collecting leaves data out, every visible entry carries some.
- *Fresh ids* (`TileLayout.Fresh`): the allocator hands out ids that no pane of the layout has.
- *Parsers* (`RawInputBytes.Parsers`): which complete sequences are keys and colour replies is left open; the theorems
  hold for every choice, those of `RawInputReports` for every choice in which colour replies are OSC strings.

## What the code does otherwise than its comments or its purpose suggest

- A host id collision can make the cache record a placement the terminal does not have (`CallKeepsMirrorIff`,
  `BrokenInARun`). The program asks for a replay before every call, and a call that begins a replay is safe
  (`BeginningMeetsNone`), so that this happens only after a call that was left incomplete: a client of the headless
  server, whose next frame goes on with the replay (`src/server/headless.rs:4302-4312`), or the local loop when the image
  changes between two of its calls.
- A complete incremental call can miss an entry that was collected without data (`MissedExactly`, `MissedInARun`); the
  next frame repairs it (`NextPaintRepairs`).
- "`delta` is positive to grow" (`src/layout.rs:279-280`) holds at interior edges only (`InteriorResize`, `OuterResize`,
  `OuterShrinks`).
- A ratio set to a NaN stays a NaN, and `resize_pane` then reports a change every time (`ResizeReportsChange`,
  `NaNReportsChange`).
- "Flushed as best-effort" (`src/raw_input.rs:9-10`): key prefixes that time out are emitted as bytes and lost as events
  (`FlushedChunk`, `AltBracketLost`), and so are escapes before a mouse report where doubled escapes are preserved
  (`LostExactly`, `LostExample`).
- After a lone escape was flushed, `[<+0;1;1M` is dropped in one read and passed on in two (`LateOrphanExample`), and a
  discarded tail that outgrows its bound takes with it what was read together with it (`OverflowExample`).
- A control string that a timeout cuts inside its string terminator is not recognised as ended, and input is thrown away
  up to the next terminator (`CutStringVanishes`).
- The test for the rest of a colour reply does not know the hexadecimal digits a, c, d, e and f (`src/raw_input.rs:583-602`),
  so that a reply cut by two timeouts can reach the pane (`PieceKeepsDiscarding`, `LongReplyLeaks`).
- The full detection loop does not publish an exit while the screen rules hide the text; the basic loop does
  (`ExitIsPublished`).

## Model

| member | source | states |
|---|---|---|
| `KittyProtocol.InterpretDeletesImages` | src/kitty_graphics.rs:907-918 | Deleting a set of images leaves the terminal without these images and without their placements, in whatever order the hash map yields them |
| `KittyProtocol.InterpretDeletesPlacements` | src/kitty_graphics.rs:440-445 | Deleting a set of placements leaves the images and all other placements, in whatever order |
| `GraphicsSpec.UpdateEffect` | src/kitty_graphics.rs:643-711 | What one transaction changes, entry by entry: its own image, placement and source are recorded, the superseded image goes with its placements exactly when no source shows it any more, everything else stays |
| `GraphicsSpec.ReleaseEffect` | src/kitty_graphics.rs:713-729 | Moving a source to another image deletes the old image exactly when it was another one and no other source shows it |
| `GraphicsSpec.NextIndexWraps` | src/kitty_graphics.rs:597 | The cursor moves to the index after the served one, round the list |
| `GraphicsMirror.UpdateMirrors` | src/kitty_graphics.rs:643-711 | Interpreted by the terminal, the commands of one transaction leave it with exactly the images and placements the cache then records, and undo the loss of every placement they display |
| `GraphicsMirror.MirrorKeptIffNoHazard` | src/kitty_graphics.rs:643-711 | The cache still agrees with the terminal after a transaction if and only if the host id of the entry did not collide: no terminal image replaced under an id whose placement looked current, no pane layer transmitted over an id that carries another placement |
| `GraphicsMirror.HazardBreaks` | src/kitty_graphics.rs:667-706 | In the colliding cases the cache always ends up recording a placement that the terminal no longer has |
| `GraphicsMirror.IncrementalSynced` | src/kitty_graphics.rs:473-617 | One incremental call keeps cache and terminal equal, with every placement and source about a held image, whatever the list, the budget and the cursor |
| `GraphicsMirror.LegacySynced` | src/kitty_graphics.rs:350-446 | So does the one-pass encoder, whatever order the stale placements are deleted in |
| `GraphicsMirror.ClearBytesSynced` | src/kitty_graphics.rs:907-918 | Clearing everything leaves cache and terminal both empty of images and placements |
| `GraphicsMirror.ClearPaneSourcesSynced` | src/kitty_graphics.rs:802-829 | Removing all pane layers deletes from the terminal exactly what the cache forgets |
| `GraphicsMirror.ClearPaneSourcesExactly` | src/kitty_graphics.rs:802-829 | After it an image is still there exactly if a terminal image shows it or no layer did, and only terminal images have sources |
| `GraphicsMirror.ClearNextSynced` | src/kitty_graphics.rs:920-944 | Each step of the gradual clear keeps cache and terminal equal, sends exactly one deletion while there is an image, that of least id, and is incomplete exactly while something is left |
| `GraphicsMirror.ClearStepsEmpty` | src/kitty_graphics.rs:920-944 | Repeated until they are complete, the steps end after one deletion for every image, with nothing left on either side |
| `GraphicsMirror.CacheMirrorsTerminal` | src/kitty_graphics.rs:473-954 | At every point of every run of paints, replays, view changes and clears, the terminal holds exactly the recorded images, and exactly the recorded placements up to those that text has painted over since |
| `GraphicsMirror.NothingLostWithoutBlits` | src/kitty_graphics.rs:473-954 | Over runs in which no text paints over images nothing is ever lost: cache and terminal agree exactly |
| `GraphicsDrain.CurrentStays` | src/kitty_graphics.rs:643-729 | On coherent lists, making one entry current never undoes another |
| `GraphicsDrain.ChangeDisplayed` | src/kitty_graphics.rs:643-711 | An entry whose place, part of the image, depth or scroll position is not what was displayed last is displayed again |
| `GraphicsDrain.IdleCall` | src/kitty_graphics.rs:473-617 | A call that finds everything shown and nothing left over sends nothing |
| `GraphicsDrain.IncrementalDrains` | src/kitty_graphics.rs:473-617 | An incomplete call has emitted something and strictly shrinks what remains (dead sources, stale placements, pending entries); a complete call leaves no dead source, no stale placement and no entry that could be served |
| `GraphicsDrain.CallShrinks` | src/kitty_graphics.rs:731-746 | So the loop over one list ends, also when a replay is asked for before every call |
| `GraphicsDrain.DrainSettles` | src/kitty_graphics.rs:731-746 | When the loop over one list ends no vanished layer and no stale placement is left, and every visible entry that carries data and is not set aside as too large has its image, placement and source current |
| `GraphicsDrain.DrainSynced` | src/kitty_graphics.rs:731-746 | The whole loop over one list keeps cache and terminal equal |
| `GraphicsFairness.CallServes` | src/kitty_graphics.rs:569-609 | One call serves a pending pane layer or ends with a cursor that brings the next call closer to it |
| `GraphicsFairness.FairService` | src/kitty_graphics.rs:497-507 | With fixed layer identities and nothing dead or stale, a layer that stays visible, carries data and fits the budget is current within as many calls as there are layers, even if the contents of the others change at every call |
| `GraphicsFairness.ResumeIndex` | src/kitty_graphics.rs:497-507 | The index to resume from is found again by identity in a list of the same layers |
| `GraphicsFairness.NewViewStartsOver` | src/kitty_graphics.rs:946-953 | A new view makes the next call begin with the first entry, the same view lets it go on where it was; nothing that was sent is forgotten |
| `GraphicsSize.StreamBytes` | src/kitty_graphics.rs:1558-1572 | How many bytes carry the pixels, exactly, and that they are within what the size test counts |
| `GraphicsSize.FitsExactly` | src/kitty_graphics.rs:619-627 | The size test passes exactly the images whose base64, framing and one kilobyte are within the budget, in spite of saturation; the largest budget passes all |
| `GraphicsSize.SetAsideExactly` | src/kitty_graphics.rs:569-587 | After its visit an entry is set aside if and only if its image exceeds the budget and was not there, or it was set aside before |
| `GraphicsSize.RunKeepsMarks` | src/kitty_graphics.rs:473-954 | Over every run under one budget only images that exceed it are set aside |
| `GraphicsSize.CallForgetsMarks` | src/kitty_graphics.rs:542-547 | A call that completes forgets the marks of sources that are gone |
| `GraphicsSize.DrainShows` | src/kitty_graphics.rs:731-746 | Every visible entry with data that fits the budget is shown when the loop over one list ends |
| `GraphicsSize.FairShow` | src/kitty_graphics.rs:497-507 | A layer that stays visible, with data that fits the budget, is shown within as many calls as there are layers |
| `GraphicsReference.ReachesOne` | src/kitty_graphics.rs:350-471 | Showing the visible entries and keeping what must be kept determines images, placements and sources: there is one place to end |
| `GraphicsReference.DrainReaches` | src/kitty_graphics.rs:473-617 | The drained incremental encoder ends there, wherever its cursor stands and whether or not it replays |
| `GraphicsReference.LegacyReaches` | src/kitty_graphics.rs:350-446 | The one-pass encoder ends there |
| `GraphicsReference.LegacyDisplaysAll` | src/kitty_graphics.rs:408-430 | When the view changed it displays every visible entry with data again, current or not |
| `GraphicsReference.IncrementalEqualsReference` | src/kitty_graphics.rs:748-785 | Hence both encoders end with the same images, placements and sources on coherent lists of terminal images with data |
| `GraphicsCollected.SecuredEntryServed` | src/kitty_graphics.rs:965-1060 | An entry collected without data is still shown when a call completes if the source of some entry holds its image |
| `GraphicsCollected.CallSound` | src/kitty_graphics.rs:473-617 | A complete call without a budget leaves every visible entry such that, if its image is recorded, some source of an entry holds it; no call undoes that |
| `GraphicsCollected.DrainServes` | src/kitty_graphics.rs:731-746 | When the loop over one list ends every visible entry that carries data, or whose image the source of some entry held at its start, is shown or set aside as too large |
| `GraphicsCollected.ReplayDisplaysAll` | src/kitty_graphics.rs:876-881 | A loop that replays displays every placement the cache ends with, including those of entries without data whose image is held |
| `GraphicsCollected.ReplayRestores` | src/kitty_graphics.rs:273-277 | After a replayed frame the terminal shows again whatever text had painted over, also when data and geometry are unchanged: it agrees with the cache exactly |
| `GraphicsMissed.MissedExactly` | src/kitty_graphics.rs:473-617 | A complete call misses a visible entry whose image was recorded at its start if and only if it abandons that image: vanished layers are all that showed it, or it is the first image that, in the order of the visits, every source leaves for another one before an entry with that image is reached |
| `GraphicsPaint.PaintCallShrinks` | src/kitty_graphics.rs:187-206 | The paint loop, which collects its entries again before each call, ends: an incomplete call has emitted something and leaves strictly less to do |
| `GraphicsPaint.PaintSettles` | src/kitty_graphics.rs:187-206 | It ends with a complete call, cache and terminal equal up to what text painted over, no vanished layer and no stale placement |
| `GraphicsPaint.PaintMisses` | src/kitty_graphics.rs:187-206 | An entry with data is missed by a painted frame if and only if its image was recorded before the last call, so that it was collected without data, and that call abandoned the image |
| `GraphicsPaint.PaintRestores` | src/kitty_graphics.rs:187-206 | If some source of an entry holds every recorded image, a painted frame shows every visible entry and the terminal agrees with the cache exactly again |
| `GraphicsPaint.PaintEndsReplay` | src/kitty_graphics.rs:876-881 | A painted frame leaves no replay open |
| `GraphicsPaint.NextPaintRepairs` | src/kitty_graphics.rs:187-206 | Whatever a frame missed, painting the same entries once more shows them all, and the terminal agrees with the cache exactly |
| `GraphicsExamples.MissedInARun` | src/kitty_graphics.rs:187-206 | A run from a new host, with a replay before every painted frame and every call complete, whose last frame misses an entry |
| `GraphicsExamples.MissedCollects` | src/kitty_graphics.rs:965-1060 | In that run every list is what is collected from the cache at that moment |
| `GraphicsCollisions.HazardNeedsReplayed` | src/kitty_graphics.rs:643-711 | With ids of layers that are their own, only a terminal image can be hazardous, and only one that was displayed since the replay began, under the id of another image |
| `GraphicsCollisions.CallKeepsMirrorIff` | src/kitty_graphics.rs:473-617 | Though terminal images share ids, a call keeps cache and terminal equal if and only if its transaction is not a hazard |
| `GraphicsCollisions.BeginningMeetsNone` | src/kitty_graphics.rs:273-277 | A call that begins a replay meets no hazard |
| `GraphicsCollisions.CompleteCallsKeepMirror` | src/kitty_graphics.rs:187-206 | So over every run in which a replay is asked for before every call and every call completes, cache and terminal agree although ids collide |
| `GraphicsExamples.BrokenInARun` | src/kitty_graphics.rs:187-206 | And a run from a new host in which they do not: an incomplete call, and then an entry that was displayed changes its image under the same id |
| `GraphicsCache.HostGraphicsCache.constructor` | src/kitty_graphics.rs:132-146 | A new cache is empty |
| `GraphicsCache.HostGraphicsCache.CloneOf` | src/kitty_graphics.rs:583 | A candidate starts as the cache it is tried for |
| `GraphicsCache.HostGraphicsCache.Assign` | src/kitty_graphics.rs:588-599 | The cache becomes the candidate that is used |
| `GraphicsCache.HostGraphicsCache.ForgetImage` | src/kitty_graphics.rs:725-728 | An image is forgotten with its placements and replay marks, nothing else |
| `GraphicsCache.HostGraphicsCache.ReleaseSupersededSourceImage` | src/kitty_graphics.rs:713-729 | State and commands are those of the specified release |
| `GraphicsCache.HostGraphicsCache.SendPixels` | src/kitty_graphics.rs:672-700 | How pixels reach the terminal: not at all, transmitted and displayed at once, or uploaded after deleting what held the id; false exactly when they are needed and missing |
| `GraphicsCache.HostGraphicsCache.EncodePlacementUpdate` | src/kitty_graphics.rs:643-711 | The transaction is the specified one, and none is returned exactly when the entry is current or cannot be made so |
| `GraphicsCache.HostGraphicsCache.DropDeadSources` | src/kitty_graphics.rs:513-541 | Pane layers that vanished go in order of pane and name, up to the second deletion |
| `GraphicsCache.HostGraphicsCache.RetainWanted` | src/kitty_graphics.rs:542-547 | Unwanted terminal sources and marks of vanished sources are forgotten |
| `GraphicsCache.HostGraphicsCache.DropStalePlacements` | src/kitty_graphics.rs:549-567 | One stale placement is deleted, the least; the call ends when more is due |
| `GraphicsCache.HostGraphicsCache.Visit` | src/kitty_graphics.rs:569-608 | One visit of the scan: a clone is tried and used only if its transaction is emitted or empty |
| `GraphicsCache.HostGraphicsCache.ScanPlacements` | src/kitty_graphics.rs:569-609 | The scan visits every entry once, from the cursor round the list, and stops before a second transaction |
| `GraphicsCache.HostGraphicsCache.EncodeIncremental` | src/kitty_graphics.rs:473-617 | One call computes the specified state, commands and completeness |
| `GraphicsCache.HostGraphicsCache.CollectVisible` | src/kitty_graphics.rs:965-1060 | The entries without the data of images that the cache records |
| `GraphicsCache.HostGraphicsCache.EncodeLocal` | src/kitty_graphics.rs:214-277 | One call as a rendered frame makes it: collect, note the view, ask for a replay, encode |
| `GraphicsCache.HostGraphicsCache.PaintLocal` | src/kitty_graphics.rs:187-206 | The paint loop ends, in the specified state and with the specified commands |
| `GraphicsCache.HostGraphicsCache.DrainGraphicsUpdates` | src/kitty_graphics.rs:731-746 | The loop over one list ends, with the specified state and commands, and with nothing left over |
| `GraphicsCache.HostGraphicsCache.ResetIncrementalState` | src/kitty_graphics.rs:837-842 | Bookkeeping is cleared, images, placements and sources stay |
| `GraphicsCache.HostGraphicsCache.RequestPlacementReplay` | src/kitty_graphics.rs:876-881 | A replay is asked for once; marks already made survive a second request |
| `GraphicsCache.HostGraphicsCache.UpdateView` | src/kitty_graphics.rs:946-953 | A new view drops the cursor and says so; the same view changes nothing |
| `GraphicsCache.HostGraphicsCache.ClearPaneSources` | src/kitty_graphics.rs:802-829 | Deletes exactly the images that only pane layers showed, in some order |
| `GraphicsCache.HostGraphicsCache.ClearBytes` | src/kitty_graphics.rs:907-918 | Deletes every image, in some order, and empties the cache |
| `GraphicsCache.HostGraphicsCache.ClearNext` | src/kitty_graphics.rs:920-944 | One step of the gradual clear, as specified |
| `GraphicsCache.HostGraphicsCache.LegacyReleaseSuperseded` | src/kitty_graphics.rs:448-471 | The release of the one-pass encoder, which also un-wants the placements of the deleted image |
| `GraphicsCache.HostGraphicsCache.LegacyEncodeOne` | src/kitty_graphics.rs:365-434 | One entry of the one-pass encoder, as specified |
| `GraphicsCache.HostGraphicsCache.EncodeTerminalLegacy` | src/kitty_graphics.rs:350-446 | The one-pass encoder ends in the specified cache with an admissible sequence of commands |
| `Clipping.ClipInBounds` | src/kitty_graphics.rs:1348-1490 | Whatever is shown covers cells of the pane only and a nonempty part of the image only, for all 32-bit inputs |
| `Clipping.ClipInWindow` | src/kitty_graphics.rs:1348-1490 | When the pixel products do not saturate and the requested window fits the image, what is shown stays inside the window, although both ends are floors and at least one pixel is shown |
| `Clipping.ClipShowsPart` | src/kitty_graphics.rs:1348-1490 | When the products do not saturate and the window fits the image: on either axis exactly the cells of the pane are covered that cells of the grid fall on, the first pixel and the number of pixels are the whole parts of the exact shares of the window, one pixel at least; offsets are kept exactly where nothing is cut, the depth always |
| `Clipping.ClipWhole` | src/kitty_graphics.rs:1348-1490 | A grid that fits its pane and takes its pixels itself is shown whole, where it is placed, with the whole window |
| `Clipping.AxisShows` | src/kitty_graphics.rs:1348-1490 | Something is shown along an axis exactly when some cell of the grid falls on the pane and the visible part starts inside the image, for all 32-bit inputs, saturating and wrapping |
| `Clipping.StartsInside` | src/kitty_graphics.rs:1348-1490 | For a window within the image and products that do not saturate, the latter is that the window has a pixel |
| `Clipping.FloorParts` | src/kitty_graphics.rs:1492-1494 | Two floor-scaled parts never exceed the whole |
| `KittyWire.Base64RoundTrip` | src/kitty_graphics.rs:1558-1572 | Base64 (section 4 of RFC 4648) loses nothing |
| `KittyWire.Base64Length` | src/kitty_graphics.rs:619-627 | Four letters for every three bytes begun |
| `KittyWire.EncodeKittyData` | src/kitty_graphics.rs:1558-1572 | The chunk loop produces the specified packets: one for each 3072 bytes, none for empty data |
| `KittyWire.SplitStream` | src/kitty_graphics.rs:1558-1572 | A receiver finds the packet boundaries again |
| `KittyWire.TransferRoundTrip` | src/kitty_graphics.rs:1558-1572 | A receiver gets back exactly the data, "more" is flagged on every packet but the last, and no payload exceeds 4096 letters |
| `GraphicsBudget.TransferLength` | src/kitty_graphics.rs:619-627 | The framing of chunked data is within the 16 bytes a chunk that the budget test assumes |
| `GraphicsBudget.RenderLength` | src/kitty_graphics.rs:1257-1346 | Every command but for its data is short: control text, deletions and cursor moves with all numbers in decimal |
| `GraphicsBudget.CallSendsOne` | src/kitty_graphics.rs:508-617 | A call emits nothing, one deletion, or the transaction of one entry |
| `GraphicsBudget.BudgetHonoured` | src/kitty_graphics.rs:619-627 | With a budget of at least 1024, the rendered bytes of a call are within the budget, and an incomplete call renders something |
| `GraphicsBudget.DisplaysInBounds` | src/kitty_graphics.rs:1311-1346 | Whatever a call displays lies inside its pane and shows a part of its image |
| `KittyReader.ReadsRendered` | src/kitty_graphics.rs:1257-1346 | A reader written from the key table of the protocol reads the rendered bytes as exactly the commands they were made from: action, format, sizes, ids, cells, part of the image, offsets, depth, cursor position and the joined data |
| `KittyReader.RenderIsTokens` | src/kitty_graphics.rs:1257-1346 | The bytes of a command are a cursor move and packets with exactly the keys and values of the command |
| `KittyBytes.StepReaches` | src/kitty_graphics.rs:473-954 | Whatever an operation sends are bytes that, so read, take the terminal to its next state |
| `KittyBytes.BytesSynced` | src/kitty_graphics.rs:473-617 | One call keeps cache and terminal in step by the bytes that it writes |
| `LayoutTree.SplitAtIds` | src/layout.rs:590-617 | A split puts the new pane right behind its target, keeps all others in order and all ratios in bounds |
| `LayoutTree.RemovePaneIds` | src/layout.rs:627-648 | A removal takes out exactly the target and fails only when nothing would be left |
| `LayoutTree.RemoveAbsent` | src/layout.rs:627-648 | Removing a pane that is not there changes nothing |
| `LayoutTree.SplitThenRemove` | src/layout.rs:590-648 | Removing a pane that a split just added gives back the tree, with its ratios |
| `LayoutTree.CountIsIds` | src/layout.rs:476-481 | The pane count is the number of listed panes |
| `LayoutTree.SwapIdsAt` | src/layout.rs:574-588 | A swap exchanges the two panes in place and keeps all other panes and all ratios |
| `LayoutTree.SwapTwice` | src/layout.rs:574-588 | Swapping twice restores the tree |
| `LayoutTree.SetRatioAtChanges` | src/layout.rs:650-689 | A ratio can be set exactly where one can be read, and is what is read there afterwards |
| `LayoutTree.SetRatioAtKeeps` | src/layout.rs:650-670 | At every other path the ratio stays |
| `LayoutTree.SetRatioAtShape` | src/layout.rs:650-670 | Panes and split directions stay |
| `LayoutGeometry.FirstLengthBounded` | src/layout.rs:691-710 | A stored ratio gives the first child a part of the length, after rounding and the cast to 16 bits |
| `LayoutGeometry.ExactTiling` | src/layout.rs:483-507 | Every cell of the area lies in exactly one pane and no pane has a cell outside |
| `LayoutGeometry.PanesInside` | src/layout.rs:483-507 | Every pane lies in the area, also when it is empty, and panes are listed as their ids are |
| `LayoutGeometry.SameCellSamePane` | src/layout.rs:483-507 | Two panes with a common cell are one pane |
| `LayoutGeometry.SplitsAreTheSplits` | src/layout.rs:509-536 | The listed borders are exactly the split nodes, each with the ratio found at its path |
| `LayoutGeometry.SplitPathsDistinct` | src/layout.rs:509-536 | No split is listed twice |
| `LayoutNavigation.BestIsLeast` | src/layout.rs:350-405 | The search finds a pane exactly when a candidate exists, and then the one that ranks first by edge distance, overlap, centre distance and index |
| `LayoutNavigation.NavigationComplete` | src/layout.rs:350-409 | Across an interior edge of a pane with cells the search finds another pane, which touches that edge and lies alongside |
| `LayoutNavigation.NavigationSound` | src/layout.rs:350-409 | Across an edge of the area it never finds a pane with cells |
| `LayoutNavigation.NearestIsLeast` | src/layout.rs:426-438 | The split search finds a movable split of least distance exactly when there is one |
| `LayoutNavigation.InteriorEdgeResizes` | src/layout.rs:411-460 | Every interior edge of a pane with cells lies exactly on a movable split |
| `TileLayout.TileLayout.constructor` | src/layout.rs:97-107 | A new layout has one pane, focused, without history |
| `TileLayout.TileLayout.FromSaved` | src/layout.rs:336-345 | A restored layout has the saved tree and focus and no history |
| `TileLayout.TileLayout.SetFocusTo` | src/layout.rs:109-115 | A real focus move records the pane it leaves |
| `TileLayout.TileLayout.Split` | src/layout.rs:157-173 | A split leaves focus and history alone and is refused for an absent target |
| `TileLayout.TileLayout.Insert` | src/layout.rs:175-201 | An insertion is refused for an absent target and for a pane that is there already |
| `TileLayout.TileLayout.CloseTheFocused` | src/layout.rs:203-231 | Closing the focused pane, as specified; it panics only on a focus outside a tree of several panes |
| `TileLayout.TileLayout.Close` | src/layout.rs:233-252 | Closing any pane, as specified |
| `TileLayout.TileLayout.Focus` | src/layout.rs:254-258 | Focus moves to panes that exist only |
| `TileLayout.TileLayout.Swap` | src/layout.rs:260-272 | Two different existing panes are exchanged, focus and history keep their ids |
| `TileLayout.TileLayout.SetRatioOf` | src/layout.rs:274-277 | A ratio is set within bounds, where a split is |
| `TileLayout.TileLayout.Resize` | src/layout.rs:279-305 | A resize moves one border: the one at the edge in the direction, else the one at the opposite edge |
| `TileLayout.TileLayout.ResizeOther` | src/layout.rs:307-323 | A resize of any pane goes through the focus, which it puts back |
| `TileLayout.CloseRemovesOne` | src/layout.rs:203-252 | A close takes out exactly one pane, and is refused only for the last pane and for an absent one |
| `TileLayout.CloseFocus` | src/layout.rs:203-252 | Closing the focused pane returns to where focus came from, else to the next or previous pane in order; closing another leaves focus and forgets only a history that named it |
| `TileLayout.SplitRollback` | src/layout.rs:157-173 | Closing the pane that a split added gives back the whole layout: tree, ratios, focus and history |
| `TileLayout.InsertRollback` | src/layout.rs:175-201 | So it does for an insertion that did not take the focus |
| `TileLayout.FocusedInsertRollback` | src/layout.rs:175-201 | An insertion that took the focus is undone but for the older history |
| `TileLayout.ResizeKeepsShape` | src/layout.rs:279-305 | A resize keeps panes, their places, focus and history, and ratios in bounds |
| `TileLayout.ResizeReportsChange` | src/layout.rs:307-323 | A resize of any pane reports exactly a change of the tree, or a ratio that is not a number |
| `TileLayout.NaNReportsChange` | src/layout.rs:274-323 | Such a ratio: set to a NaN, it stays one, and a resize that changes nothing reports a change |
| `TileLayout.StepKeeps` | src/layout.rs:109-323 | No operation panics on a layout that meets the invariant, and each keeps it: distinct panes, focus on a pane, history on another pane, ratios in bounds |
| `TileLayout.EveryRun` | src/layout.rs:85-94 | The invariant holds and nothing panics over every run of operations with fresh ids |
| `TileLayout.EveryRunTiles` | src/layout.rs:483-507 | Over every run from a new layout the panes tile any area exactly |
| `LayoutEdits.SplitPlaces` | src/layout.rs:590-617 | On the screen the new pane comes right behind the split one, on its right for a horizontal split and below it for a vertical one; the pane keeps the share that was asked for, within bounds, to half a cell, or half when it is no number, and every other pane stays where it is |
| `LayoutEdits.NearestLength` | src/layout.rs:691-710 | The first child gets the whole number of cells nearest to its share |
| `LayoutEdits.ResizeMoves` | src/layout.rs:279-305 | A resize adds the change to the ratio of the border it moves, or takes it off when the movement is to the left or up, replaces what is out of bounds by the nearest bound, and leaves every other ratio |
| `LayoutEdits.NearestRatio` | src/layout.rs:274-277 | A ratio within bounds is kept, any other is replaced by the nearest bound |
| `LayoutEdits.FocusMoves` | src/layout.rs:254-258 | Focusing a pane that exists moves the focus there and remembers the pane left; anything else changes nothing |
| `LayoutEdits.FocusReturns` | src/layout.rs:203-258 | Closing a pane that was focused brings the focus back to where it came from |
| `LayoutEdits.MovesToPreferred` | src/layout.rs:350-405 | A movement finds a pane exactly when some pane lies beyond the edge and alongside, and then the nearest; of those as near the one that shares most rows or columns, then the one nearest to the middle, then the first |
| `LayoutResize.PushedPanes` | src/layout.rs:691-710 | Widening an area never shrinks a pane in it and moves its edges one way only, in spite of rounding |
| `LayoutResize.RaisedRatio` | src/layout.rs:691-710 | Raising a ratio pushes panes before the border forward, draws in panes behind it and leaves all others |
| `LayoutResize.EdgeOwner` | src/layout.rs:426-438 | The border picked at an interior edge is one that the pane lies against, never one of another branch with the same coordinate |
| `LayoutResize.InteriorTarget` | src/layout.rs:293-304 | At an interior edge a resize needs no fallback |
| `LayoutResize.InteriorResize` | src/layout.rs:279-305 | A positive change never makes the focused pane smaller at an interior edge and moves its edges in the direction only; a negative change does the reverse |
| `LayoutResize.OuterResize` | src/layout.rs:293-304 | At an edge of the whole area a positive change leaves the pane as it is, or with that edge and shorter; a negative change makes it no shorter, unless it picks a border at the very edge with nothing behind it, which draws the pane away |
| `LayoutResize.ShorterExactly` | src/layout.rs:279-305 | A positive change makes the focused pane shorter exactly when it is for an edge of the whole area and changes the pane at all |
| `LayoutResize.OuterShrinks` | src/layout.rs:279-281 | So it does, unlike the comment on the method says: two panes side by side, the right one asked to grow to the right |
| `LayoutResize.OuterDrawn` | src/layout.rs:293-304 | And a pane that a negative change draws away from the edge of the area |
| `RawInputStability.PrefixStable` | src/raw_input.rs:821-898 | More input does not change an event that is complete |
| `RawInputStability.EscapeLenDetermined` | src/raw_input.rs:1025-1080 | The length of an escape sequence depends on its own bytes only, with look-ahead only behind escapes |
| `RawInputGrammar.EscapeLenExactly` | src/raw_input.rs:1025-1080 | The recogniser takes `n` bytes if and only if these are a control sequence up to its final byte, an SGR report up to M or m, a default report of six bytes, a single shift with one byte, a control string up to its first terminator, or an escape with one character; with escapes in front that belong to it, or escapes alone in front of a mouse report that can be read |
| `RawInputGrammar.EventExactly` | src/raw_input.rs:821-898 | An event that is no paste takes exactly a sequence of this grammar that can be read, or one character that is a key |
| `RawInputGrammar.FirstCharExactly` | src/raw_input.rs:993-1023 | The first character is the UTF-8 encoding of one code point |
| `RawInputGrammar.TextExactly` | src/raw_input.rs:821-898 | Exactly the encodings of sequences of code points are taken as text |
| `RawInputReports.ReadsBack` | src/raw_input.rs:821-898 | Reports as a terminal writes them (mouse in both encodings, size of a cell, focus, colour scheme, pastes) are read back as their events, and no byte more is taken, whatever follows |
| `RawInputReports.SgrRead` | src/raw_input.rs:1256-1320 | A mouse event written as an SGR report is read back: kind, modifiers, column and row |
| `RawInputReports.DefaultRead` | src/raw_input.rs:1239-1254 | So is one in the default encoding, but a release is always of the left button |
| `RawInputReports.ReportPushed` | src/raw_input.rs:495-576 | A framer that waits for nothing hands a report on as one chunk and goes on with what follows |
| `RawInputReports.RepliesCounted` | src/raw_input.rs:552-570 | Of the replies that are awaited a drain takes off exactly those that it emits, unless it follows colour schemes or focus |
| `RawInputReports.ReportsAsk` | src/raw_input.rs:552-570 | When colours are followed a change of the colour scheme asks for all again; a framer that asks on focus awaits the appearance |
| `RawInputStability.TerminatorDetermined` | src/raw_input.rs:1190-1222 | A control string ends where it ends, whatever follows: at the first of ST and BEL |
| `RawInputStability.ChunkReparses` | src/raw_input.rs:197-217 | The bytes of an event read again on their own are that event, if and only if they are not escapes only |
| `RawInputStability.CompletePasteIsOneEvent` | src/raw_input.rs:111-124 | The test for one complete text paste holds exactly of what the framer takes as one paste from end to end |
| `RawInputFramer.RawInputByteFramer.WithHostInputPolicy` | src/raw_input.rs:243-248 | A new framer holds nothing; the policy decides whether doubled escapes are split |
| `RawInputFramer.RawInputByteFramer.HostColorQuerySent` | src/raw_input.rs:257-260 | 258 colour replies are awaited from now on |
| `RawInputFramer.RawInputByteFramer.HostAppearanceQuerySent` | src/raw_input.rs:262-265 | The appearance reply is awaited from now on |
| `RawInputFramer.RawInputByteFramer.HostCellSizeQuerySent` | src/raw_input.rs:269-273 | The cell size reply is awaited from now on |
| `RawInputFramer.RawInputByteFramer.Enable` | src/raw_input.rs:281-290 | Colour scheme changes, or focus, lead to queries from now on |
| `RawInputFramer.RawInputByteFramer.DiscardHostReplyCsiTail` | src/raw_input.rs:1139-1160 | The loop drops the rest of a control sequence up to its final byte, a foreign byte or the bound |
| `RawInputFramer.RawInputByteFramer.DiscardOrphanedSgrMouseTail` | src/raw_input.rs:1162-1188 | The loop drops the rest of a mouse report up to its final byte or a foreign byte; beyond the bound all of the buffer goes |
| `RawInputFramer.RawInputByteFramer.DiscardCompleteOrphan` | src/raw_input.rs:1104-1124 | A whole report without its escape is dropped, anything else is left |
| `RawInputFramer.RawInputByteFramer.Note` | src/raw_input.rs:552-570 | What an event means for the replies that are awaited |
| `RawInputFramer.RawInputByteFramer.DrainAvailableChunks` | src/raw_input.rs:495-576 | The loop ends and emits the specified chunks |
| `RawInputFramer.RawInputByteFramer.DrainOnce` | src/raw_input.rs:499-573 | One turn of it |
| `RawInputFramer.RawInputByteFramer.PushBytes` | src/raw_input.rs:250-253 | A read appends and drains |
| `RawInputFramer.RawInputByteFramer.FlushTimeout` | src/raw_input.rs:312-493 | A timeout drains and then does as specified with what is left |
| `RawInputFramer.TurnShrinks` | src/raw_input.rs:495-576 | Every turn of the drain that goes on leaves less to do |
| `RawInputSplits.DrainSplits` | src/raw_input.rs:495-576 | Draining early and again with more input is draining once with all of it, where no cut can show |
| `RawInputRuns.ChunkSplit` | src/raw_input.rs:250-253 | Two reads emit what one read of both would and leave the same state, if and only if the cut does not fall into one of two states left by a timeout: a late orphaned report, or an overflowing discarded tail |
| `RawInputRuns.CutsDoNotShow` | src/raw_input.rs:250-253 | In all other states chunks and final state do not depend on how the input is cut, into any number of reads |
| `RawInputRuns.DrainConserves` | src/raw_input.rs:495-576 | Unless something is being thrown away a drain loses no byte |
| `RawInputRuns.FlushGood` | src/raw_input.rs:312-493 | A timeout notes a lone escape only when nothing is being thrown away |
| `RawInputRuns.EveryRun` | src/raw_input.rs:250-576 | Over every run of reads, timeouts and queries, what was emitted and what is held is what was read less some dropped bytes, in order; without a timeout it is exactly what was read |
| `RawInputLate.LateRestDropped` | src/raw_input.rs:1139-1188 | The rest of a reply, of a mouse report or of a control string that comes after a timeout is thrown away to its last byte, and nothing of what follows |
| `RawInputLate.CutReplyVanishes` | src/raw_input.rs:312-493 | A reply to the query for the size of a cell that a timeout cuts in two reaches no pane, and what follows is read as ever |
| `RawInputHeld.HeldOnce` | src/raw_input.rs:312-493 | While a reply is awaited that may begin so, the first timeout only notes that it has been waited for: the report is read as if there had been no timeout |
| `RawInputHeld.CutSchemeVanishes` | src/raw_input.rs:312-493 | A report of the colour scheme that a timeout cuts in two when none is awaited, or when it was held back already, reaches no pane |
| `RawInputHeld.CutMouseVanishes` | src/raw_input.rs:312-493 | Nor does a mouse report that a timeout cuts in two, also when its escape was emitted by a timeout before |
| `RawInputHeld.OrphanDropped` | src/raw_input.rs:1104-1124 | When a timeout took the escape of a mouse report for the key, the rest of the report is dropped whole, and nothing of what follows |
| `RawInputLate.CutStringVanishes` | src/raw_input.rs:312-493 | A control string that a timeout cuts in two vanishes likewise, if and only if the cut does not fall into its string terminator; there what follows is thrown away up to the next terminator |
| `RawInputLate.PieceKeepsDiscarding` | src/raw_input.rs:581-610 | While a control string is thrown away, a piece of it that a timeout cuts off keeps the discarding going if and only if no more than 128 bytes were thrown away and, in an OSC string, each byte may be one of a colour reply (the hexadecimal digits a, c, d, e and f not among them), in any other, it ends in an escape; an escape at its end is kept as half a terminator |
| `RawInputLate.LongReplyLeaks` | src/raw_input.rs:581-610 | So the end of a reply with such a digit that comes in three pieces is typed into the pane |
| `RawInputLate.WaitsThroughTimeout` | src/raw_input.rs:312-493 | The beginning of a paste, of a default colour reply, or of a character, alone or behind an escape, waits through any timeout, and is read together with what follows as if there had been none |
| `RawInputTimeouts.TwoFlushes` | src/raw_input.rs:312-493 | After two timeouts in a row nothing is held but an open paste, an open colour reply, the beginning of a character, an escape with one, or the last escape of a discarded control string |
| `RawInputTimeouts.LoneEscapeEmitted` | src/raw_input.rs:446-465 | A lone escape is emitted by a timeout, or by the next one exactly when a reply is awaited and nothing was held for it yet |
| `RawInputTimeouts.DrainedChunks` | src/raw_input.rs:197-217 | Every chunk of a drain becomes an event but for two or more escapes alone, and each does where doubled escapes are split |
| `RawInputTimeouts.LostExactly` | src/raw_input.rs:1025-1080 | Where doubled escapes are preserved, the next chunk is lost if and only if what is held begins with two or more escapes in front of a whole mouse report that can be read, in either encoding |
| `RawInputTimeouts.LostExample` | src/raw_input.rs:1025-1080 | Three escapes, the last of which begins the report of a click |
| `RawInputTimeouts.FlushedChunk` | src/raw_input.rs:197-217 | What a timeout emits becomes an event if and only if it is a lone escape, or a bracket held as the rest of a mouse report |
| `RawInputTimeouts.AltBracketLost` | src/raw_input.rs:86-91 | So a timed-out Alt and bracket reaches no event, although the framer hands its bytes on |
| `RawInputTimeouts.LateOrphanExample` | src/raw_input.rs:1093-1124 | After an escape that was flushed on its own, `[<+` and `0;1;1M` emit something else in two reads than in one |
| `RawInputTimeouts.OverflowExample` | src/raw_input.rs:1162-1188 | After a timed-out `ESC [ <`, more than 125 digits and another byte do so too |
| `AgentDetector.PresenceTracker.constructor` | src/pane.rs:929-934 | An agent is tracked without misses |
| `AgentDetector.PresenceTracker.ClearCurrentAgent` | src/pane.rs:940-948 | Clearing reports whether there was an agent |
| `AgentDetector.PresenceTracker.ObserveProcessProbe` | src/pane.rs:950-974 | A sighting resets the misses; the sixth miss in a row gives the identity up; the result says whether it changed |
| `AgentDetector.DetectionLoop.ApplyAction` | src/pane.rs:337-367 | What an action does to presence and exit flags |
| `AgentDetector.DetectionLoop.RunOnce` | src/pane.rs:665-922 | One tick of the loop, with all that it publishes |
| `AgentScreen.HeldThrough` | src/pane/agent_detection.rs:29-78 | A fall from working to a plain idle that persists is held back exactly as long as it was seen at most three times, all within 700 milliseconds of the first; then it is published |
| `AgentAcquisition.ChangedGroupProbes` | src/pane.rs:400-446 | A turn probes whenever the foreground group is another than the one remembered |
| `AgentAcquisition.ProbesInTime` | src/pane.rs:412-446 | And otherwise after five seconds with an agent, at the first turn without one, and after thirty seconds when the kernel shows no group |
| `AgentAcquisition.QuietAfterProbe` | src/pane.rs:412-446 | For five seconds after a probe that found an agent, turns in its group do not probe |
| `AgentAcquisition.SettledGroupDoesNotProbe` | src/pane.rs:400-446 | In the group of the last probe and without a pending exit, turns do not probe while a lifecycle hook speaks, while an agent is being released, or in a pane without an agent in which nothing happens |
| `AgentAcquisition.ProbesWhileAcquiring` | src/pane.rs:412-446 | After new content in a pane without an agent it probes within half a second, later within two, for eight seconds |
| `AgentAcquisition.ContentWakes` | src/pane.rs:448-486 | New content in a pane without an agent starts that time |
| `AgentAcquisition.ContentKeepsAwake` | src/pane.rs:448-486 | It ends once eight seconds, and two without new content, are over, and starts again only then |
| `AgentAcquisition.FirstTurnProbes` | src/pane.rs:2112-2136 | The first turn probes, also after a reset; only an agent restored from an earlier session is known until then, and shown as idle |
| `AgentAcquisition.ReleaseEndProbes` | src/pane.rs:400-446 | The end of a release makes the next turn of a pane without an agent probe |
| `AgentAcquisition.Acquires` | src/pane.rs:690-803 | A probe that sees an agent makes the pane known for it, without misses and exits, and the turn publishes it as idle and starts its time of grace exactly when the pane was not known for it or its exit had been reported |
| `AgentAcquisition.NewAgentPublished` | src/pane.rs:665-922 | An agent that comes to the foreground in a new group is published in that very turn |
| `AgentAcquisition.ReleasedIsNotSeen` | src/pane.rs:690-803 | An agent that is being released does not become the agent of a pane |
| `AgentAcquisition.GraceHolds` | src/pane.rs:805-830 | In the time of grace of an agent nothing is published and what is shown stays, until the agent changes or an exit is to be published; the first turn after that time ends it |
| `AgentAcquisition.SilentScreen` | src/pane.rs:805-860 | Nothing is published, and what is shown stays, while the rules hide the screen or it is one that was read as idle already |
| `AgentAcquisition.KnownIsLastSighted` | src/pane.rs:928-975 | Over every run the agent that a pane is known for is exactly the one sighted last, or that it started with, unless it was given up since |
| `AgentAcquisition.ChangeIsPublished` | src/pane/agent_detection.rs:140-213 | Without a plain fall from working, a change of agent or an exit, exactly a state or sign that differs from what is shown is published, at once, or a blocker not renewed for 800 milliseconds |
| `AgentAcquisition.TurnPublishesChange` | src/pane.rs:805-921 | A turn that reads another state off the screen publishes it |
| `AgentRuns.StartsAreStarted` | src/pane.rs:667-690 | Starting and resetting both give a state from which the theorems about runs hold |
| `AgentRuns.TurnKeeps` | src/pane.rs:805-807 | Every tick keeps: misses below six, no misses and no exit without an agent, a reported exit is a pending one |
| `AgentRuns.PendingForcesProbe` | src/pane.rs:400-415 | A pending exit forces a probe whatever the lifecycle hook says |
| `AgentRuns.ReportedExitResolved` | src/pane.rs:305-367 | The tick after a reported exit leaves the pane known for exactly what its probe saw, with no exit being reported |
| `AgentRuns.ExitIsPublished` | src/pane.rs:213-249 | A probe that finds the shell in front of a known agent has its exit published in the same tick and keeps the identity; the full loop puts it off exactly while the screen rules hide the text |
| `AgentRuns.LosesAgent` | src/pane.rs:305-367 | A tick loses the agent if and only if its probe saw none and the exit was reported, or it is the sixth miss and the shell is not in front |
| `AgentRuns.History` | src/pane.rs:928-975 | Over every run: counted misses were missed probes in a row, and a reported exit was published for the very agent the pane is known for |
| `AgentRuns.IdentityIsNotLostSilently` | src/pane.rs:213-249 | Over every run a pane loses its agent only after the published exit of that agent or after six missed probes in a row |
| `AgentRuns.ExitPublishedOnce` | src/pane.rs:805-807 | An exit is published for the known agent, once until a probe resolves it |

## Left out

- The direct-file path (`prepare_direct_file`, `trust_pane_layer`, `forget_pane_layer`): it updates the cache before
  another component writes the bytes.
- Collecting placements from application state, standard output, locks, globals and tracing: the list of placements and
  the set of live layers are inputs of the encoders.
- The choice between the two encoders by whether any pane layer is present, and the escape codes that save and restore the
  cursor around each write.
- Hash values and fingerprints: ids and signatures are inputs; `Described` ties a signature to its data by an arbitrary
  fingerprint function.
- The order in which hash maps yield keys is left open where the source leaves it open.
- A painted frame in which the entries change between two calls: `GraphicsPaint` collects again before each call, from the
  same entries.
- In-place mutation inside tree nodes (`swap_pane_ids`, `set_ratio_at`) and the vectors that the tree walks push into: trees
  and lists are values and the class reassigns its root.
- Rounding of 32-bit floats: ratios are real numbers with infinities and NaN, and products and sums of them are exact.
  Tiling, navigation and rollback use only that a part of a length is no longer than the length; the resize theorems also
  use that the product of a length and a ratio is exact before it is rounded to cells (`LayoutResize.ScaledMonotone`).
- Overflow of 16-bit rectangle coordinates: coordinates are unbounded, so areas are taken to fit 16 bits.
- Scrollbars, borders and inner rectangles of panes, and serialisation of layouts.
- The 32-bit counter that allocates pane ids.
- Parsing of keys, colours and palettes, and the modifiers and text of key events: only whether a sequence parses matters
  to the framer.
- Threads, polling and the timeouts themselves: a timeout is an operation that can happen at any time; batching of palette
  colours between threads.
- Finding the foreground process, the screen rules and the text of the screen: a tick takes what they say as inputs.
- Restoring the host terminal theme, logging and sending the events: published events are a sequence.
- The saturation of byte counters at the largest machine word: they are compared with 128 only.
