# Pugputer: verified models of its simulator and tools

This project models, in Dafny, the parts of the Pugputer repository with the most state and arithmetic, and proves
what they are for. `dafny verify dfyconfig.toml` checks everything.

- **FAT16 volumes** (`Fat*.dfy`). The volume writer, from its 32-bit sizing arithmetic to the finished image; the
  independent reader of the tests; and the structure checker of the crash tests. A volume that is built is read back
  file for file, at any directory depth, and the checker accepts it and counts exactly the clusters in use; whatever
  volume the checker accepts has proper, acyclic, disjoint chains and sound entries throughout.
- **The video card** (`Video*.dfy`). The drawing commands on memory with 1, 2, 4 or 8 bits per pixel: each is proved to
  paint a set of points given independently of its loop, and painting is proved to change those pixels and nothing
  else. The compositor: a line of the picture against the frontmost pixel of a list of planes, and what text, tiles,
  bitmaps and sprites show in terms of the bytes in memory. The line clock.
- **The HD6309 processor** (`Cpu*.dfy`). Interrupt entry, CWAI, SWI and RTI, and what RTI restores after any
  well-nested run; TFM, what it copies, that an interrupt can break it off, and why that does not matter; the flags,
  byte chains of ADD/ADC and SUB/SBC of any length, the branches after them, and decimal arithmetic with DAA.
- **Streams** (`Wire.dfy`, `SrecLoader.dfy`, `Uart.dfy`). The records between the emulator and its window, the S-record
  loader, and the R65C51 serial chip.

Code that updates state in place is modelled by classes and by methods on arrays, each proved against a function or
predicate; the theorems are about those. `Words.dfy` has the fixed-width integers and arithmetic all of them share.

Every number in the models is an exact integer: where the program's arithmetic wraps around, the wrap is written out.

## Findings

Properties one would expect, and exactly when the program has them. Each is proved, with an input that shows the failure.

- **The writer's FAT can be too short for the clusters it counts.** The FAT-size formula counts a divisor that leaves out
  the two reserved entries. No list of files that the root directory has room for overruns the FAT exactly when the
  formula's rounding adds more than one cluster's worth of sectors, or the root directory has no entries at all
  (`FatLimits.RoomExactlyWhenExcess`). With the default parameters, no payload and 16481 sectors, one file of 8 MB passes
  every check of the writer and overruns the FAT (`FatLimits.ShortVolumeOverruns`).
- **On such a volume the checks find lost clusters, even with few files.** With two FAT copies, a built volume has no lost
  clusters exactly when its FAT has an entry for every cluster: the first entry past a short FAT is the next copy's
  first, $FFF8 (`FatConsistency.NothingLostExactly`; the volume of 16481 sectors is one).
- **The writer rounds the root directory's sectors up, the reader rounds them down.** They agree on where the clusters
  are exactly when the root entry count is a multiple of 16 (`FatLimits.RootMustFillSectors`). With 17 root entries and
  16481 sectors the writer puts them at sector 69, and the reader looks at 68 (`FatLimits.SeventeenEntries`,
  `FatVolumes.BuildSeventeen`).
- **A directory entry whose first cluster is 0 makes the checker walk the root again.** The walk goes on for ever exactly
  when the root has such an entry, named and not deleted, before which there are only deleted entries and empty
  files; else it refuses the volume the second time round (`FatEndless.EndlessExactly`). A volume of two sectors whose
  one entry is a directory A with first cluster 0 is such a volume (`FatEndless.LoopingNeverEnds`).
- **An S3 record near $FFFFFFFF passes the loader's bounds test.** The test adds in 32 bits. For a memory below 4 GB it is
  right exactly when the sum does not both wrap around and come out within the memory (`SrecLoader.TestIsRight`);
  `S307FFFFFFFFAABB97` is such a record for every such memory of at least one byte (`SrecLoader.WrappingRecord`).
- **BHI after a subtraction of several bytes is not "higher".** Z is that of the last byte alone. BHI follows the order of
  two numbers of n bytes exactly when the first is not higher, or higher by 256^(n-1) at least
  (`CpuAlu.HigherNeedsTopByte`); it misses 1 > 0 in two bytes (`CpuAlu.HigherMissed`).
- **A triangle on one row is drawn between its first two vertices only.** It contains the third exactly when that lies
  between them (`VideoTriangle.FlatTriangle`, `VideoTriangle.FlatTriangleMissesVertex`). The order the vertices are given
  in does not matter exactly when the triangle spans more than one row or is a single point
  (`VideoTriangle.OrderExactly`).

## Model

| member | source | states |
|---|---|---|
| `FatGeometry.AcceptedExactlyWhenFits` | simulator/src/pugputer/fat16_image.cpp:48-69 | the wrapping 32-bit arithmetic accepts a volume exactly when, over the integers, its regions fit and it has 4085 to 65524 clusters |
| `FatGeometry.SixteenBit` | simulator/src/pugputer/fat16_image.cpp:65-69 | the limits on the clusters are 4085 and 65524 |
| `FatGeometry.AcceptedIsExact` | simulator/src/pugputer/fat16_image.cpp:48-70 | an accepted geometry is the formula's over the integers: regions in order, ending inside the volume |
| `FatGeometry.ClustersInClosedForm` | simulator/src/pugputer/fat16_image.cpp:53-63 | for every size at which the regions fit: the number of clusters in closed form, and that the FAT has an entry for each exactly when the rounding excess is more than one cluster |
| `FatGeometry.AcceptedClusters` | simulator/src/pugputer/fat16_image.cpp:53-70 | the same of every geometry the writer accepts, as its 32-bit words compute it |
| `FatGeometry.ClustersInsideVolume` | simulator/src/pugputer/fat16_image.cpp:59-63 | every sector of every cluster lies after the root directory and inside the volume |
| `FatNames.UpperLetters` | simulator/src/pugputer/fat16_image.cpp:150-153 | the letters a to z become A to Z in their order, and every other byte stays |
| `FatNames.SameUpperCase` | simulator/src/pugputer/fat16_image.cpp:150-153 | two names have the same upper case if and only if they differ in the case of letters only |
| `FatNames.NameRoundTrip` | simulator/src/pugputer/fat16_image.cpp:27-36 | the name shown for the 11-byte field differs from the stored one in the case of letters only, none of them small, exactly when the name is storable in 8.3 form |
| `FatNames.ComponentsOfName` | simulator/tests/fat16_reader.hpp:118-127 | the reader splits a path into the parts the writer placed the file by |
| `FatNames.ComponentsOfJoined` | simulator/tests/fat16_reader.hpp:118-127 | a path made of a slash before each of some names is split into those names |
| `FatTree.PlaceOk` | simulator/src/pugputer/fat16_image.cpp:158-177 | placing a path keeps the tree, leads to the directory named, and adds only directories on the path |
| `FatTree.PathOfInjective` | simulator/src/pugputer/fat16_image.cpp:166-173 | different directories of the plan have different paths |
| `FatTree.EntriesCounted` | simulator/src/pugputer/fat16_image.cpp:178-182 | the entry count made ahead of time is the number of entries the second pass gives each directory |
| `FatTree.EntryNamesDistinct` | simulator/src/pugputer/fat16_image.cpp:113-116 | distinct file paths give each directory distinct entry names |
| `FatWriter.PutShortName` | simulator/src/pugputer/fat16_image.cpp:27-36 | writes exactly the name field at its offset and nothing else |
| `FatWriter.AddEntry` | simulator/src/pugputer/fat16_image.cpp:137-149 | appends exactly one slot of 32 bytes to a directory |
| `FatWriter.WriteBootSector` | simulator/src/pugputer/fat16_image.cpp:72-101 | the boot sector has every field of the geometry in place, and the rest of the image is left alone |
| `FatWriter.Allocate` | simulator/src/pugputer/fat16_image.cpp:126-136 | chains the next n clusters, ends the chain, leaves all other FAT entries, and gives 0 for no clusters |
| `FatFormat.ExtentsAreTight` | simulator/src/pugputer/fat16_image.cpp:188-194 | every file and directory gets the fewest clusters that hold it |
| `FatFormat.FatWritten` | simulator/src/pugputer/fat16_image.cpp:126-136 | each copy of the FAT entry by entry: $FFF8 and $FFFF, the links of each extent with $FFFF at its end, 0 elsewhere |
| `FatWriter.PlanTree` | simulator/src/pugputer/fat16_image.cpp:155-177 | the first pass builds the plan's tree and places every file |
| `FatBuilder.LinkPath` | simulator/src/pugputer/fat16_image.cpp:209-218 | links exactly the directories on the path not linked before, outermost first |
| `FatBuilder.OrderKept` | simulator/src/pugputer/fat16_image.cpp:113-116 | entries stay in the order they are first named in |
| `FatBuilder.SecondPass` | simulator/src/pugputer/fat16_image.cpp:204-229 | after the second pass every chain is in the FAT, every file's bytes are in its clusters and every directory lists its items |
| `FatImage.BuildFat16Image` | simulator/src/pugputer/fat16_image.cpp:43-257 | each of the three refusals exactly under its condition; else an image that stores the plan of the files, each directory in order, and the payload, and that is well formed for the reader when it has a FAT and the root count is a multiple of 16 |
| `FatImage.WrittenIsStored` | simulator/src/pugputer/fat16_image.cpp:230-242 | the parts written, each where it belongs, make up a volume that stores the plan |
| `FatReader.Fat16Volume.LoadBytes` | simulator/tests/fat16_reader.hpp:35-54 | accepts exactly the images with a boot sector, and sets the regions by its fields |
| `FatReader.Fat16Volume.Chain` | simulator/tests/fat16_reader.hpp:63-68 | the clusters of a chain up to its end, a wild link or a cycle |
| `FatReader.ChainFollows` | simulator/tests/fat16_reader.hpp:63-68 | each cluster of a chain is what the FAT has for the one before; it ends where that is no cluster, or one past the number of clusters, as in a cycle |
| `FatReader.Fat16Volume.FreeClusters` | simulator/tests/fat16_reader.hpp:70-76 | the number of data clusters whose FAT entry is 0 |
| `FatReader.Fat16Volume.FatsMatch` | simulator/tests/fat16_reader.hpp:77-82 | true exactly when the first two FAT copies agree on every cluster, or there is one copy |
| `FatReader.Fat16Volume.Entries` | simulator/tests/fat16_reader.hpp:91-115 | the live entries of a directory, in order, up to the first zero |
| `FatReader.ScanLists` | simulator/tests/fat16_reader.hpp:104-112 | the entries listed are those of the slots before the first zero, in order, that are neither deleted nor a volume label, each of them and no other |
| `FatReader.Fat16Volume.Find` | simulator/tests/fat16_reader.hpp:117-146 | the entry an absolute path resolves to, directory by directory |
| `FatReader.NamedFirst` | simulator/tests/fat16_reader.hpp:130-136 | of the entries of a name the first is found, and none exactly if there is none |
| `FatReader.Fat16Volume.Read` | simulator/tests/fat16_reader.hpp:148-158 | the sectors of the chain, cut to the entry's size |
| `FatRoundTrip.GeometryReadBack` | simulator/tests/fat16_reader.hpp:40-54 | the reader finds the regions the writer laid out |
| `FatRoundTrip.ChainOfExtent` | simulator/tests/fat16_reader.hpp:63-68 | following the links from anywhere in an extent leads through the rest of it |
| `FatRoundTrip.EntriesReadBack` | simulator/tests/fat16_reader.hpp:91-115 | the entries listed in a directory are those stored, one for one |
| `FatRoundTrip.EveryFileReadBack` | simulator/tests/fat16_reader.hpp:40-158 | on any well-formed image, every file is found by any path that is a slash and its name but for the case of letters, with none of them small, at any depth, and reads as exactly its bytes |
| `FatVolumes.BuildAndRead` | simulator/tests/fat16_reader.hpp:35-158 | build, load, find by such a path, read: any volume built gives back any of its files' bytes |
| `FatVolumes.BuildAndCheck` | simulator/tests/test_dos_crash.cpp:75-157 | any volume built is accepted by the checker, and with a full-length FAT the free clusters are all those the files and directories do not take |
| `FatVolumes.BuildSeventeen` | simulator/tests/fat16_reader.hpp:51-51 | a volume with 17 root entries, built and loaded, whose clusters the reader has one sector before where they are |
| `FatChecker.Walk.WalkChain` | simulator/tests/test_dos_crash.cpp:75-95 | follows a chain and marks its clusters; fails at an invalid link, a cluster met before or a free one |
| `FatChecker.Walk.WalkFrom` | simulator/tests/test_dos_crash.cpp:97-157 | walks a directory and everything below it as the specification function does |
| `FatChecker.ChainWalkSound` | simulator/tests/test_dos_crash.cpp:75-95 | a walk that succeeds has found a proper chain, clear of itself and of the clusters used before |
| `FatChecker.ChainWalkComplete` | simulator/tests/test_dos_crash.cpp:75-95 | any such chain is what the walk finds |
| `FatChecker.AcceptedIsConsistent` | simulator/tests/test_dos_crash.cpp:97-157 | on any image at all, acceptance means proper, acyclic, pairwise disjoint chains, and the clusters marked used are exactly theirs |
| `FatAccepted.AcceptedIsSound` | simulator/tests/test_dos_crash.cpp:97-157 | on any image, acceptance means that every entry of every directory that can be reached is sound: its name and attribute, the clusters of its dot entries, and a chain with room for its size |
| `FatAccepted.WellFormedIs` | simulator/tests/test_dos_crash.cpp:63-73 | which bytes of an entry the checker takes for a name and an attribute, exactly |
| `FatChecker.StartingOver` | simulator/tests/test_dos_crash.cpp:97-101 | what the walk comes to when it has gone back to the root: refused if a chain had been met before, else the same walk again |
| `FatEndless.RestartsExactly` | simulator/tests/test_dos_crash.cpp:107-142 | from any slot on, the walk of the root goes back with nothing more used if and only if some slot sends it back and only deleted slots and empty files are before that |
| `FatEndless.EndlessExactly` | simulator/tests/test_dos_crash.cpp:97-157 | the walk of a volume goes on for ever if and only if its root has such slots; else it ends after going back once at most, and then with an error |
| `FatEndless.LoopingNeverEnds` | simulator/tests/test_dos_crash.cpp:99-101 | a concrete image of two sectors that the reader takes and whose walk goes on for ever |
| `FatConsistency.BuiltVolumeAccepted` | simulator/tests/test_dos_crash.cpp:97-157 | every built volume is accepted, and the clusters found in chains are exactly those handed out |
| `FatConsistency.NothingLost` | simulator/tests/test_dos_crash.cpp:353-359 | with a full-length FAT a built volume has no lost clusters, and the free ones are those not handed out |
| `FatConsistency.NothingLostExactly` | simulator/tests/test_dos_crash.cpp:353-359 | with two FAT copies or more, no cluster is lost if and only if the FAT has an entry for every cluster |
| `FatConsistency.UnderItem` | simulator/src/pugputer/fat16_image.cpp:195-218 | every extent under a directory, but for its own, is under one of its items |
| `FatLimits.RoomExactlyWhenExcess` | simulator/src/pugputer/fat16_image.cpp:53-57 | no list of files the root has room for overruns the FAT if and only if the rounding excess is more than one cluster or the root has no entries |
| `FatLimits.ShortVolumeOverruns` | simulator/src/pugputer/fat16_image.cpp:188-194 | at 16481 sectors one file of 8 MB passes the writer's checks and overruns its FAT |
| `FatLimits.RootMustFillSectors` | simulator/tests/fat16_reader.hpp:51-51 | writer and reader agree on where the clusters are if and only if the root count is a multiple of 16 |
| `FatLimits.SeventeenEntries` | simulator/tests/fat16_reader.hpp:51-51 | with 17 root entries and 16481 sectors the volume is accepted and the two are one sector apart |
| `FatLimits.FatCopiesAgree` | simulator/src/pugputer/fat16_image.cpp:238-241 | all FAT copies of a built volume agree entry for entry |
| `FatLimits.FatsAgreeWhenFull` | simulator/tests/fat16_reader.hpp:77-82 | the reader finds that they do, when they have an entry for every cluster |
| `VideoMemory.MaskedLaw` | vidcard/core/vc.c:118-122 | the mask arithmetic sets one pixel of a byte to the colour's low bits and no other |
| `VideoMemory.PixelsApart` | vidcard/core/vc.c:114-119 | different pixels of a target whose rows do not overlap are kept in different places |
| `VideoMemory.PaintedPixel` | vidcard/core/vc.c:111-123 | painting sets the painted pixels to the colour modulo 2^bpp and leaves every other pixel |
| `VideoMemory.UntouchedByte` | vidcard/core/vc.c:42-47 | a byte that keeps no painted pixel is unchanged, anywhere in the 24-bit address space |
| `VideoMemory.StoredByte` | vidcard/core/vc.c:42-47 | a byte stored is there if its address is below $40400 or, with PSRAM, from $800000 on, and no other byte changes |
| `VideoScreen.PixelIs` | vidcard/core/vc.c:125-130 | which bits of which byte are a pixel, at each depth: the leftmost pixel of a byte is its highest bits |
| `VideoCard.Card.Poke` | vidcard/core/vc.c:42-47 | the one byte the map sends the address to, if any |
| `VideoCard.Card.PSet` | vidcard/core/vc.c:111-123 | paints that point, or nothing off the target |
| `VideoCard.Card.PGet` | vidcard/core/vc.c:125-130 | the pixel of an image of any depth anywhere in memory |
| `VideoCard.Card.HLine` | vidcard/core/vc.c:132-139 | paints the span between the two ends, in either order, clipped |
| `VideoCard.Card.Clear` | vidcard/core/vc.c:240-242 | paints the whole target |
| `VideoCard.Card.FillRect` | vidcard/core/vc.c:231-237 | paints the box, and nothing if a side is not positive |
| `VideoCard.Card.Rect` | vidcard/core/vc.c:219-230 | paints the outermost pixels of the box |
| `VideoCard.Card.Line` | vidcard/core/vc.c:141-152 | paints, in order, the points nearest to the ideal line |
| `VideoCard.Card.Circle` | vidcard/core/vc.c:154-178 | paints the circle or disc, sets given without the loop; nothing for a negative radius |
| `VideoCard.Card.Triangle` | vidcard/core/vc.c:188-199 | paints the rows between the rounded edges |
| `VideoCard.Card.SetTarget` | vidcard/core/vc.c:205-215 | later drawing goes there; a depth the card does not draw leaves an empty target |
| `VideoShapes.LineEnds` | vidcard/core/vc.c:141-152 | a line starts at one end and ends at the other |
| `VideoShapes.LineConnected` | vidcard/core/vc.c:145-151 | each pixel touches the next and none is repeated |
| `VideoShapes.LineInBox` | vidcard/core/vc.c:141-152 | a line stays in the box of its ends |
| `VideoShapes.LineHalfPixel` | vidcard/core/vc.c:141-152 | every pixel is within half a pixel of the ideal line on the shorter axis |
| `VideoShapes.LineNext` | vidcard/core/vc.c:146-150 | the two tests on one error term step to the nearest next pixel, in all eight octants |
| `VideoCircle.OctantBounds` | vidcard/core/vc.c:156-158 | the octant's pixel on a row is the integer radius nearest to the exact one |
| `VideoCircle.CircleNext` | vidcard/core/vc.c:170-176 | the error term keeps the loop on those pixels |
| `VideoCircle.OctantEnds` | vidcard/core/vc.c:158-177 | when the loop ends no row further out meets the octant |
| `VideoCircle.DiscRow` | vidcard/core/vc.c:159-163 | every row of the disc is filled exactly between the outline's outermost pixels on it |
| `VideoCircle.NothingOutside` | vidcard/core/vc.c:155-178 | nothing is drawn beyond the radius |
| `VideoTriangle.EdgeRounds` | vidcard/core/vc.c:180-186 | the truncating division is the exact x rounded to nearest, halves up, for edges of either slant |
| `VideoTriangle.ContainsVertices` | vidcard/core/vc.c:188-199 | a triangle of more than one row contains its vertices |
| `VideoTriangle.InsideBox` | vidcard/core/vc.c:194-198 | a triangle stays in the box of its vertices |
| `VideoTriangle.RowsUnbroken` | vidcard/core/vc.c:194-198 | a row of a triangle has no gaps |
| `VideoTriangle.AnyOrder` | vidcard/core/vc.c:190-193 | the vertices' order does not matter, for more than one row |
| `VideoTriangle.SharedEdge` | vidcard/core/vc.c:195-197 | two triangles that share an edge both contain its pixel on every row: no crack between them |
| `VideoTriangle.FlatTriangle` | vidcard/core/vc.c:194-198 | on one row, the pixels are the span of the first two vertices, and contain the third if and only if it lies between |
| `VideoTriangle.OrderExactly` | vidcard/core/vc.c:190-198 | all six orders of the vertices give the same pixels if and only if the triangle spans more than one row or is a single point |
| `VideoTriangle.FlatTriangleMissesVertex` | vidcard/core/vc.c:190-198 | a triangle on one row that misses a vertex in one order and not in another |
| `VideoPicture.RenderLayer` | vidcard/core/vc.c:467-524 | the layer's row over what is on the line, transparent where its pixel is 0; VideoScreen says what that is in the bytes of memory |
| `VideoScreen.TextShows` | vidcard/core/vc.c:478-484 | text: pixel (i, j) of a cell shows the cell's second byte where bit 7 - i of byte j of its character's glyph is 1, and its third where it is 0, with the map scrolled and repeated |
| `VideoScreen.TileShows` | vidcard/core/vc.c:485-501 | tiles: pixel (i, j) of a cell shows that pixel of its tile, or the mirrored one across, down or both as bits 10 and 11 of its entry say |
| `VideoScreen.BitmapShows` | vidcard/core/vc.c:502-513 | bitmaps: the pixels packed in each row, scrolled, and nothing outside the rows |
| `VideoScreen.SomeCell` | vidcard/core/vc.c:478-488 | every pixel of the picture shows some place in some cell of a map |
| `VideoScreen.TargetShows` | vidcard/core/vc.c:502-513 | a bitmap layer over a drawing target shows the colour of what was painted there, and all else as it was |
| `VideoPicture.RenderSprites` | vidcard/core/vc.c:531-566 | the sprites of a priority go over the line, the lowest-numbered in front |
| `VideoPicture.FindSprites` | vidcard/core/vc.c:575-592 | the first 32 sprites of the table that cross the line |
| `VideoPicture.RenderLine` | vidcard/core/vc.c:568-601 | each pixel of a line is in the colour of what is frontmost there; the four rows after this say what that is |
| `VideoScreen.LayerSeen` | vidcard/core/vc.c:592-601 | a layer is seen where it shows something and nothing shows of the layers above it or of sprites of higher priorities |
| `VideoScreen.SpriteSeen` | vidcard/core/vc.c:592-601 | a sprite is seen where it shows something and nothing shows of layers and priorities above it or of lower-numbered sprites of its own priority |
| `VideoScreen.BackdropSeen` | vidcard/core/vc.c:598-601 | where nothing shows the backdrop does |
| `VideoScreen.TextScreen` | vidcard/core/vc.c:468-601 | with a text layer alone, each pixel is in the palette's colour for the byte its cell has for it, or the backdrop's if that byte is 0 |
| `VideoScreen.SpriteShows` | vidcard/core/vc.c:531-561 | a sprite shows its image from its place on, mirrored as its bits say, and nothing outside |
| `VideoScreen.TableIs` | vidcard/core/vc.c:579-590 | the sprites are the table's entries up to 128 and up to the first that runs out of video memory, each as its 8 bytes say |
| `VideoScreen.SpriteShown` | vidcard/core/vc.c:576-590 | a sprite that crosses a line is shown if and only if sprites are on and fewer than 32 before it cross the line |
| `VideoPicture.StackedStep` | vidcard/core/vc.c:593-596 | drawing a layer and then its sprites over the line is searching those planes first |
| `VideoPicture.FirstIs` | vidcard/core/vc.c:593-599 | frontmost means: only transparent pixels in front of it |
| `VideoPicture.ShownFirst` | vidcard/core/vc.c:580-591 | a crossing sprite is shown if and only if fewer than 32 lower-numbered ones cross the line, in the place they leave |
| `VideoBeam.BegunBy` | simulator/src/pugputer/video_device.cpp:53-61 | by any cycle count a line has begun if and only if it is one of the lines due by then |
| `VideoBeam.FramesAreBlanks` | vidcard/core/vc.c:447-451 | the frame count is the number of times line 480 has begun |
| `VideoBeam.SixtyFrames` | simulator/src/pugputer/video_device.cpp:53-61 | every second has 60 frames of 525 lines, and a frame is counted where line 480 begins |
| `VideoBeam.VideoDevice.Tick` | simulator/src/pugputer/video_device.cpp:53-61 | begins every line due and no other, keeps the clock's invariant, and sets the two interrupt bits exactly if line 480 or the chosen line has begun |
| `VideoBeam.TickAll` | simulator/src/pugputer/video_device.cpp:53-61 | however cycles are split into ticks, the lines, the line, the frame and the interrupt bits depend only on their total |
| `CpuState.FlagsReadBack` | simulator/src/hd6309_types.hpp:8-18 | CC's flags survive being stored as a byte |
| `CpuCore.Cpu.PushFullSet` | simulator/src/hd6309_core.cpp:562-576 | lays down the whole frame for the mode the processor is in, and sets E |
| `CpuCore.Cpu.EnterInterrupt` | simulator/src/hd6309_core.cpp:584-593 | stacks the frame, unless CWAI has, masks and vectors; the rows of CpuEntries say to where and with what on the stack |
| `CpuCore.Cpu.ServiceInterrupts` | simulator/src/hd6309_core.cpp:609-631 | takes the interrupt due by priority and masks, or none |
| `CpuCore.Cpu.Trap` | simulator/src/hd6309_core.cpp:595-607 | an illegal opcode or a division by zero marks its cause in MD and enters the trap |
| `CpuCore.Cpu.Rti` | simulator/src/hd6309_opcodes.cpp:231-249 | pulls what the stacked E flag and the mode say |
| `CpuCore.Cpu.Step` | simulator/src/hd6309_core.cpp:649-676 | halted, interrupt, wait or instruction, in that order, as the specification's step |
| `CpuEntries.InterruptTaken` | simulator/src/hd6309_core.cpp:609-631 | which interrupt is taken, and its entry in literals: the word at $FFFC, $FFF6 or $FFF8, the masks, every byte on the stack, nothing more after CWAI |
| `CpuEntries.TrapTaken` | simulator/src/hd6309_core.cpp:595-607 | a trap goes to the word at $FFF0, masks both interrupts and sets its bit of MD, 6 or 7, alone |
| `CpuEntries.SoftwareEntry` | simulator/src/hd6309_opcodes.cpp:267-273 | SWI, SWI2 and SWI3 stack all and go to the words at $FFFA, $FFF4 and $FFF2; SWI alone masks |
| `CpuEntries.CwaiStacks` | simulator/src/hd6309_opcodes.cpp:250-258 | CWAI keeps the flags of its mask, stacks all with PC past it, and waits |
| `CpuEntries.RunHere` | simulator/src/hd6309_core.cpp:649-676 | exactly RTI, CWAI and the three SWIs are run as these specifications say |
| `CpuEntries.MaskedUntilCleared` | simulator/src/hd6309_core.cpp:609-631 | after an entry no IRQ is taken, whatever the lines do, until an instruction clears I, and after NMI and FIRQ no FIRQ until one clears F |
| `CpuRuns.ReturnRestores` | simulator/src/hd6309_opcodes.cpp:231-249 | RTI from a frame that is intact restores the registers it saved, full or partial, in both modes |
| `CpuRuns.SoundStep` | simulator/src/hd6309_core.cpp:584-676 | every event of a well-nested run keeps all frames on the stack intact |
| `CpuRuns.EveryReturnRestores` | simulator/src/hd6309_opcodes.cpp:231-249 | after any well-nested run RTI gives back S, PC and every stacked register as at the entry it returns from |
| `CpuRuns.EntryToReturn` | simulator/src/hd6309_core.cpp:560-593 | an entry and the return that pops its frame cancel, whatever the handler runs, at any depth |
| `CpuRuns.CwaiWaits` | simulator/src/hd6309_opcodes.cpp:250-258 | through any well-nested run, a frame that CWAI has stacked means that the processor is still waiting |
| `CpuRuns.CwaiPushesOnce` | simulator/src/hd6309_core.cpp:584-590 | the interrupt that ends CWAI's wait stacks nothing more |
| `CpuCore.Cpu.DoTfm` | simulator/src/hd6309_core.cpp:446-484 | copies until done, or until the lines and the masks make an interrupt due after a byte, and leaves pointers, W and PC for going on from there |
| `CpuCore.Cpu.RunTfm` | simulator/src/hd6309_core.cpp:446-484 | from its prefix, with two different pointers, the instruction leaves the machine stopped as the theorems on interrupted copies have it, with an interrupt due if bytes are left |
| `CpuCore.Cpu.StepWith` | simulator/src/hd6309_core.cpp:649-676 | a step of the processor with TFM among its instructions |
| `CpuTransfers.TransferMeans` | simulator/src/hd6309_core.cpp:446-484 | after any number of bytes: each form's bytes are where it puts them, also where source and target overlap, all others as before; the two pointers, W and PC in literals |
| `CpuTransfers.TransferUp` | simulator/src/hd6309_core.cpp:455-477 | $38 with source and target apart: byte d + i is old byte s + i |
| `CpuTransfers.TransferDown` | simulator/src/hd6309_core.cpp:456-477 | $39 with source and target apart: byte d - i is old byte s - i |
| `CpuTransfers.TransferFills` | simulator/src/hd6309_core.cpp:455-477 | $38 with the target one byte ahead fills it with the first byte |
| `CpuTransfers.NothingStops` | simulator/src/hd6309_core.cpp:479-483 | with no interrupt due and none to come all W bytes are copied |
| `CpuTransfers.CountWins` | simulator/src/hd6309_core.cpp:474-478 | whichever registers are named W counts down, and one named twice ends where the target does |
| `CpuTransfers.RegisterNumbers` | simulator/src/hd6309_core.cpp:205-236 | what each of the sixteen register numbers reads as |
| `CpuTransfers.SetReads` | simulator/src/hd6309_core.cpp:238-268 | a register set reads as what it was set to, or as its low byte |
| `CpuTfm.StillThere` | simulator/src/hd6309_core.cpp:479-483 | a copy that does not write its own instruction finds it there when it is fetched again |
| `CpuTfm.BreaksDoNotMatter` | simulator/src/hd6309_core.cpp:474-483 | broken off any number of times, after any bytes or before the first, and started again, TFM ends with the registers of an uninterrupted copy and its memory but for what the handlers used, if each leaves alone what is still to be read then |
| `CpuTfm.HandlerGivesBack` | simulator/src/hd6309_core.cpp:479-483 | which handlers give TFM its registers back: W is stacked in native mode only, and nothing but PC and CC by a fast entry |
| `CpuCopies.PauseGivesBack` | simulator/src/hd6309_core.cpp:474-483 | break-off, entry, handler and RTI together, or a line that falls again, give the copy back its registers, and its memory but for what the handler used |
| `CpuCopies.InterruptsDoNotMatter` | simulator/src/hd6309_core.cpp:446-484 | on the whole machine, a TFM interrupted any number of times, also by interrupts that wait at a return, with well-nested handlers, ends with the registers of one nothing interrupts, and with its memory but for what the handlers used |
| `CpuCopies.ReturnsAtOnce` | simulator/src/hd6309_core.cpp:609-616 | such interruptions exist: in native mode an NMI whose handler is an RTI is one, after any byte but the last, or before the first whatever else is due |
| `CpuCopies.StackBelowSource` | simulator/src/hd6309_core.cpp:465-473 | with S as a source that counts up, a frame pushed over the bytes read leaves alone those still to be read |
| `CpuCore.Cpu.Add8` | simulator/src/hd6309_core.cpp:294-305 | the sum and the flags H, N, Z, V and C of the specification |
| `CpuCore.Cpu.Sub8` | simulator/src/hd6309_core.cpp:307-314 | the difference and its flags |
| `CpuAlu.AddedMeans` | simulator/src/hd6309_core.cpp:294-305 | C is the carry of the unsigned sum, V that the signed sum does not fit, N with V its sign; Z, N and H in literals, E, F and I unchanged |
| `CpuAlu.SubtractedMeans` | simulator/src/hd6309_core.cpp:307-314 | C is the unsigned order, V that the signed difference does not fit, N with V the signed order; Z and N in literals, the other flags unchanged |
| `CpuAlu.BranchesMean` | simulator/src/hd6309_core.cpp:270-290 | all sixteen branches after two bytes are compared, by the order of the bytes, unsigned or signed |
| `CpuAlu.AddChainAdds` | simulator/src/hd6309_core.cpp:390-392 | ADD/ADC over numbers of any length adds them; C and V tell of the whole sum |
| `CpuAlu.SubChainSubtracts` | simulator/src/hd6309_core.cpp:383-385 | SUB/SBC over numbers of any length subtracts them; C and V tell of the whole difference |
| `CpuAlu.BranchesCompare` | simulator/src/hd6309_core.cpp:270-290 | BLO, BHS, BLT and BGE after such a chain branch on the unsigned and signed order of the whole numbers |
| `CpuAlu.HigherNeedsTopByte` | simulator/src/hd6309_core.cpp:275-275 | BHI branches on the order of two numbers of n bytes if and only if the first is not higher, or higher by 256^(n-1) at least |
| `CpuAlu.HigherMissed` | simulator/src/hd6309_core.cpp:275-275 | two bytes for which BHI does not branch although the first is higher |
| `CpuCore.Cpu.DoDaa` | simulator/src/hd6309_core.cpp:415-429 | A and CC become the specification's adjusted byte and flags |
| `CpuAlu.AdjustedMeans` | simulator/src/hd6309_core.cpp:415-429 | after adding two decimal bytes DAA leaves the digits of the decimal sum, and its carry in C |
| `CpuAlu.AdjustedIs` | simulator/src/hd6309_core.cpp:415-429 | DAA of any byte and flags: when 6 and $60 are added, and the flags |
| `CpuAlu.DecimalChainAdds` | simulator/src/hd6309_core.cpp:415-429 | with DAA after each ADD/ADC, decimal numbers of any length are added, every digit 0 to 9 |
| `CpuAlu.DecimalUnique` | simulator/src/hd6309_core.cpp:415-429 | equal decimal numbers of one length are digit for digit the same, so the chain's digits are the sum's |
| `Wire.Decode` | simulator/tools/video_out.cpp:430-463 | the loop's events and the bytes it leaves are those of the stream read record by record |
| `Wire.RecordsAre` | simulator/tools/video_out.cpp:430-463 | each record in bytes: a character, $FF and K, M or W with what follows, and what is passed over |
| `Wire.VideoOut.Poll` | simulator/tools/video_out.cpp:426-472 | reads an open pipe only when nothing waits, takes what that gives, its end included, and hands out the oldest event |
| `Wire.PollAll` | simulator/tools/video_out.cpp:426-472 | over any readings up to the end of the pipe, the events handed out and those waiting are those of the whole stream, in order |
| `Wire.SplitDoesNotMatter` | simulator/tools/video_out.cpp:431-463 | however a stream is split into reads, the events and the bytes left over are the same |
| `Wire.WireRoundTrip` | simulator/tools/pugputer_video.cpp:82-92 | decoding what the window sends gives what arrives of each event, with nothing over |
| `Wire.SentThroughReads` | simulator/tools/pugputer_video.cpp:163-199 | sent over the pipe in any pieces, the list of events arrives |
| `SrecLoader.ReadLine` | simulator/src/pugputer/srec_loader.cpp:47-139 | a line is a record, empty, or bad for the first of the loader's reasons that applies |
| `SrecLoader.RefusedLines` | simulator/src/pugputer/srec_loader.cpp:47-98 | why a line is refused before its fields, the first reason that applies |
| `SrecLoader.DigitsAre` | simulator/src/pugputer/srec_loader.cpp:11-16 | exactly the sixteen digits in either case are digits, with their values |
| `SrecLoader.SmallS` | simulator/src/pugputer/srec_loader.cpp:51-55 | a small s begins a record as a capital one does |
| `SrecLoader.BlankEnd` | simulator/src/pugputer/srec_loader.cpp:27-30 | white space at the end of a line makes no difference |
| `SrecLoader.DataRecord` | simulator/src/pugputer/srec_loader.cpp:62-139 | S1, S2 and S3 records: an address of two, three or four bytes, highest first, and the data |
| `SrecLoader.OtherRecord` | simulator/src/pugputer/srec_loader.cpp:62-139 | the other types store nothing but must have room for their address, and no other type is taken |
| `SrecLoader.LoadSrec` | simulator/src/pugputer/srec_loader.cpp:37-166 | loads the lines up to the first bad one: memory, hull and error are those the next row and HullIsTight describe |
| `SrecLoader.LoadMeans` | simulator/src/pugputer/srec_loader.cpp:141-166 | any load takes the lines before the first bad one, with that one's error; each byte of memory is that of the last data record over it, and as it was where none is |
| `SrecLoader.TestIsRight` | simulator/src/pugputer/srec_loader.cpp:142-142 | the bounds test is right if and only if the 32-bit sum does not wrap and come out within the memory |
| `SrecLoader.WrappingRecord` | simulator/src/pugputer/srec_loader.cpp:141-149 | a line whose record passes the test and ends past any memory below 4 GB |
| `SrecLoader.HullIsTight` | simulator/src/pugputer/srec_loader.cpp:149-160 | unless a record wraps, the range reported is the tight hull of the bytes written, whether the load succeeds or fails |
| `SrecLoader.LineByChecksum` | simulator/src/pugputer/srec_loader.cpp:98-139 | a line of the right count is taken if its checksum is right and refused if not |
| `SrecLoader.ChangedByteRefused` | simulator/src/pugputer/srec_loader.cpp:133-139 | a record with any one address, data or checksum byte changed is refused |
| `SrecLoader.RoundTrip` | simulator/tests/test_bios_audit.cpp:30-46 | loading what is printed for any list of records leaves each byte as the last record over it has it, or as it was if none is, and reports their tight hull |
| `SrecLoader.ChangedRecordFails` | simulator/src/pugputer/srec_loader.cpp:133-139 | with one byte changed, loading stops at that record; memory and hull are those of exactly the records before it, byte by byte |
| `Uart.UartR65C51.ReadRegister` | simulator/src/pugputer/uart_r65c51.cpp:7-26 | Data clears the receive flag and OVERRUN, Status clears the interrupt latch, the others change nothing |
| `Uart.UartR65C51.WriteRegister` | simulator/src/pugputer/uart_r65c51.cpp:28-55 | Data starts or replaces the byte going out; the programmed reset, Command with its re-latching, Control |
| `Uart.StatusBits` | simulator/src/pugputer/uart_r65c51.cpp:130-141 | which bits of Status say what |
| `Uart.RegistersReadBack` | simulator/src/pugputer/uart_r65c51.cpp:28-55 | Command and Control read as written; the programmed reset clears the low five bits of Command |
| `Uart.QueueFull` | simulator/src/pugputer/uart_r65c51.cpp:117-121 | the queue from the host holds 65536 bytes and refuses one more |
| `Uart.UartR65C51.AdvanceTime` | simulator/src/pugputer/uart_r65c51.cpp:77-115 | one tick of the transmitter and the receiver as the specification has it |
| `Uart.SentInTime` | simulator/src/pugputer/uart_r65c51.cpp:77-88 | a byte written goes out in the tick in which its time is up, however the time is split |
| `Uart.ReceivedInTime` | simulator/src/pugputer/uart_r65c51.cpp:96-115 | a byte that waits comes in in the tick in which its time is up |
| `Uart.ReceivedInOrder` | simulator/src/pugputer/uart_r65c51.cpp:96-115 | over any run, every byte accepted has come in, is coming in or waits, in order |
| `Uart.TakenInOrder` | simulator/src/pugputer/uart_r65c51.cpp:106-112 | over any run, every byte that came in and was not dropped has been read or can be, in order |
| `Uart.HostInOrder` | simulator/src/pugputer/uart_r65c51.cpp:123-128 | over any run, every byte that went out has been taken by the host or is queued, in order |
| `Uart.DroppedOnlyWhenUnread` | simulator/src/pugputer/uart_r65c51.cpp:106-112 | a byte is dropped only over an unread one, which stays, and OVERRUN says so |
| `Uart.OverrunStays` | simulator/src/pugputer/uart_r65c51.cpp:7-75 | only a Data read, the programmed reset and a reset clear OVERRUN |
| `Uart.SentExactly` | simulator/src/pugputer/uart_r65c51.cpp:30-35 | the bytes that go out are those written if and only if none is written over one going out |
| `Uart.IrqFalls` | simulator/src/pugputer/uart_r65c51.cpp:16-20 | only a Status read and a reset clear the interrupt latch |
| `Uart.IrqRises` | simulator/src/pugputer/uart_r65c51.cpp:36-115 | the latch is set exactly by a byte gone out or come in, and by a write to Command, while Command asks for that interrupt |
| `Uart.IrqStays` | simulator/src/pugputer/uart_r65c51.cpp:16-20 | the latch stays set through any run without those |
| `Uart.SinceReset` | simulator/src/pugputer/uart_r65c51.cpp:57-75 | all of the conservation laws from reset on, when nothing is held |
| `Uart.ResetReads` | simulator/src/pugputer/uart_r65c51.cpp:57-75 | what the registers read after a reset, and that nothing is under way |

## Left out

- FatImage.BuildFat16Image: asks that a cluster has sectors, that the reserved sectors fit the field of 16 bits, and that
  the files leave the FAT room; without the last the program writes past its FAT, as the findings say. Opening and writing
  the image file is not modelled.
- FatReader.Fat16Volume.LoadBytes: a boot sector with no sectors in a cluster, where the program divides by zero, is
  refused. A read past the end of an image gives 0, where the program reads outside its vector.
- FatRoundTrip.EveryFileReadBack: files are shorter than 4 GB, as the size field is, and their paths are distinct and valid
  8.3 names.
- FatChecker.Walk.WalkFrom: the map of what was found and the texts of the errors are left out; it stops at an entry that
  sends the walk back to the root, and FatEndless says what happens then. Where the walk goes on for ever the program,
  which calls itself, in the end has no stack left.
- VideoPicture.RenderLayer: the two bytes of a tile map entry at the last address of the video memory, for an odd map
  base, come from that byte and the settings byte after it in the model's memory; the program reads past an array there.
- VideoBeam.BegunBy: the times lines begin at are exact, where the program divides in floating point and rounds up.
- VideoBeam.VideoDevice.Tick: rendering, the frame sink and the pointer sprite are left out.
- The card's COPY, FILL, BLIT, FONT and CHAR commands, the decoding of command bytes, its registers, memory ports and input
  queues, and the palette and font that a reset loads.
- CpuCore.Cpu.Step: runs RTI, CWAI and the three SWIs, and StepWith runs TFM too; every other instruction is any change
  of the machine that a well-nested run allows. Opcode tables, addressing modes, cycle counts, SYNC, TFR, EXG and the
  multiplications and divisions are left out.
- CpuCore.Cpu.DoTfm: what the devices do to the interrupt lines while a byte is copied is a parameter.
- CpuCopies.InterruptsDoNotMatter: for two different pointers among D, X, Y, U and S, and copies that do not overwrite
  their own instruction.
- SrecLoader.LoadSrec: a record that wraps around the bounds test ends the load with an error of the model's own; what the
  program does then, writing outside the memory, has no meaning. Opening the file and the error texts are left out.
- Wire.VideoOut.Poll: what a read of the pipe gives is a parameter; pictures going the other way, windows and processes
  are left out.
- Uart.UartR65C51.AdvanceTime: the time of a character is a parameter. Baud arithmetic, modem lines, framing and parity
  errors are left out.
- The firmware, DOS, BASIC and ROM sources in assembly language, and the tests that drive them, are not modelled.
