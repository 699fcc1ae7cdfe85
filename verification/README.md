# Verified models of the hard parts of the repository

This project models, in Dafny 4.11, the code of the repository whose correctness is hard to see by
reading it, and proves what that code promises. `dafny verify dfyconfig.toml` checks everything.
Each group below is a specification in functions, the source's own loops and classes proved against
it, and theorems about all inputs or all runs of the specification.

1. **Saving and opening a project** of DesignEqualsImplementation2 (`ProjectObjects`,
   `ProjectStream`, `ProjectSaver`, `ProjectOpener`, `ProjectRoundTrip`). Projects are real object
   graphs on the heap. `Represents(p, d, l)` says that the graph of `p`, its objects listed by the
   layout `l`, has the description `d`, in which every pointer is a pair of indices. Saving writes
   exactly the tokens of `d`; opening them builds a graph of `Reopened(d)`. Nothing is excluded
   beforehand except what opening would refuse with a qFatal or rename: property members, private
   methods and exit signals are in the model, and the theorem is that the round trip is an
   isomorphism if and only if there are none (and every entry lifeline is already a root).
2. **C++ edit mode and connect statements** (`CppEditMode`, `CppReimport`, `CppChunks`,
   `CppTampering`, `CppSourceFile`, `CppLayout`, `ConnectWalk`, `ConnectCalls`). The generator's gaps,
   the importer's line scanner, and the theorem that whatever is written into the gaps of all files
   ends up interleaved with the old statements; what the generated text holds line by line, and when
   a file is refused. The recursive walk over the slot graph ends if and only if the calls of the use
   case go in no circle, follows every path of calls once, and places exactly the connections it
   should.
3. **The motion detector with an excluded cursor** (`MotionDetector`). Images are arrays that are
   painted on while they are scanned. The answer is shown to be exact about the original grabs.
4. **Incremental stream readers** (`ChecksummedFraming`, `ChecksummedStreams`,
   `ChecksummedSoundness`, `ChecksummedReader`; `NetworkFraming`, `NetworkConnection`). Round trips
   for every way of cutting the bytes into reads, what damage costs, what an emitted message
   guarantees on arbitrary input, and the exact limits of both framings.
5. **The connection registry of the server** (`CookieSearch`, `ConnectionRegistry`,
   `ConnectionRuns`, `ConnectionQueueing`). Classes with the lists, the round-robin queue and the
   handshake; when a handshake comes to an end at all, fairness over all runs, the merge of a
   returning client, and when a connection queues.
6. **The EasyTree text codec** (`ColonEscaping`, `LastModifiedTimestamp`, `EasyTreeHashItem`,
   `EasyTree`, `EasyTreeParser`). The tree walk, escaping of colons by a placeholder, and the round
   trip of whole trees.
7. **A recycling queue and satoshis** (`RecyclingQueue`, `RecycledCells`, `SharedPtrQueue`, `Satoshi`).
   A refinement proof, linearization points and the number of cells over all interleavings of thread
   steps, and conversions with an explicit rounding error.

`Text`, `Lists` and `Wrappers` hold the string and list operations all groups share.

Where something the code might be expected to do is false of it, the code was kept as it is and the
exact condition was proved instead, and an input that shows it: `IsomorphicIffLossless` (property
members lose their name, visibility and ownership), `CutBehindFieldIff` (the pieces in which bytes
arrive matter out of sync), `NeverEndsIff` (the checksummed reader never gets past an empty message),
`MagicFoundIff` and `StrayFirstBytes` (a stray byte can hide a frame), `NewDeviceNeedsFreshMatcher`
(a merge does not reset the matcher), `DistinctIffPolite` and `SecondThankYou` (a second thank you
breaks the queue), `HelloReturnsIff`, `BadBeforeHello` and `NobodyGetsACookie` (a client that goes bad
before its hello makes cookies never come out again), `FilesComeBackIff` and
`SharedFileIsImportedTwice` (class names that differ only in case share a file),
`TopRowIsNeverExcused`, `FileComesBackIff` and `StampComesBackIff` (a path that ends in a backslash
is not recovered).

## Model

| member | source | states |
|---|---|---|
| `ProjectRoundTrip.SaveThenOpen` | Projects/DesignEqualsImplementation2/src/designequalsimplementationprojectserializer.cpp:52-553 | saving any project in memory that the constructors of an open accept and opening the file again consumes exactly the file and gives a project that is isomorphic to the saved one, pointer by pointer, if and only if the project has no Q_PROPERTY, no private method, no slot exit signal and every entry lifeline is already a root |
| `ProjectRoundTrip.OpenThenSave` | Projects/DesignEqualsImplementation2/src/designequalsimplementationprojectserializer.cpp:249-553 | the other way round: opening a file and saving the project writes the same file again when nothing is lost, and in general the file of the description with exactly the known losses; whatever follows the project in the file stays unread |
| `ProjectRoundTrip.IsomorphicIffLossless` | Projects/DesignEqualsImplementation2/src/designequalsimplementationprojectserializer.cpp:115-148 | a project and one that was opened from its file are isomorphic if and only if nothing in its description is lost (both directions) |
| `ProjectRoundTrip.ReopenedIsSame` | Projects/DesignEqualsImplementation2/src/designequalsimplementationprojectserializer.cpp:343-466 | the description after an open equals the saved one if and only if there is no property member, private method, exit signal, or entry lifeline that was not a root |
| `ProjectRoundTrip.SameDescriptionIsIsomorphic` | Projects/DesignEqualsImplementation2/src/designequalsimplementationprojectserializer.cpp:52-553 | two projects in memory with one description correspond object for object: equal fields, and every pointer leads to the object at the same place of the other project |
| `ProjectRoundTrip.SlotTwinsAreUnique` | Projects/DesignEqualsImplementation2/src/designequalsimplementationprojectserializer.cpp:187-193 | a slot has at most one counterpart in the other project, in both directions, so the correspondence is a bijection; two slots never share a saved pair of ids |
| `ProjectRoundTrip.TypeTwinsAreUnique` | Projects/DesignEqualsImplementation2/src/designequalsimplementationproject.cpp:164-180 | a type has at most one counterpart in the other project, in both directions |
| `ProjectRoundTrip.KeptType` | Projects/DesignEqualsImplementation2/src/designequalsimplementationprojectserializer.cpp:372-390 | if an opened project is isomorphic to the saved one then the type had no private method, no property member and no slot with an exit signal; the prefix that is applied twice always shows |
| `ProjectRoundTrip.KeptUseCase` | Projects/DesignEqualsImplementation2/src/designequalsimplementationprojectserializer.cpp:454-466 | if an opened project is isomorphic to the saved one then the entry lifeline of the use case was the root |
| `ProjectRoundTrip.OpenedMember` | Projects/DesignEqualsImplementation2/src/designequalsimplementationprojectserializer.cpp:350-394 | what a member of the opened project is, field by field: one that is no property is as it was saved; a property member has m_ in front of the saved name with its first letter in upper case, is private, and is NOT_POINTER exactly if its right qualifier has no asterisk |
| `ProjectRoundTrip.OpenedTypeAndUseCase` | Projects/DesignEqualsImplementation2/src/designequalsimplementationprojectserializer.cpp:343-466 | no type of an opened project has private methods, no slot an exit signal, and every entry lifeline is the root |
| `ProjectSaver.Save` | Projects/DesignEqualsImplementation2/src/designequalsimplementationprojectserializer.cpp:52-247 | what is appended to the device is exactly the token stream of the description: all ids by indexOf, parts in dependency order |
| `ProjectSaver.WriteAncestors` | Projects/DesignEqualsImplementation2/src/designequalsimplementationprojectserializer.cpp:74-88 | only types with ancestors are written, each behind its own id, after their number |
| `ProjectSaver.WriteMembers` | Projects/DesignEqualsImplementation2/src/designequalsimplementationprojectserializer.cpp:115-148 | types defined elsewhere write no members at all; a class writes a property flag behind each member, an implicitly shared type does not |
| `ProjectSaver.WriteUseCases` | Projects/DesignEqualsImplementation2/src/designequalsimplementationprojectserializer.cpp:157-206 | use cases are written with actor, lifelines and entry point, lifelines before the statements that refer to them |
| `ProjectSaver.WriteBodies` | Projects/DesignEqualsImplementation2/src/designequalsimplementationprojectserializer.cpp:208-221 | the statements of every slot of every class, in order, each behind its type byte |
| `ProjectSaver.WriteActivations` | Projects/DesignEqualsImplementation2/src/designequalsimplementationprojectserializer.cpp:223-245 | connection activations come last, as lifeline indices, slot ids and statement indices |
| `ProjectOpener.Open` | Projects/DesignEqualsImplementation2/src/designequalsimplementationprojectserializer.cpp:250-553 | on a version 1 file of an openable description the project ends up representing that description with its known losses, every id found its object, and nothing behind the project is read; on another version the project stays empty |
| `ProjectOpener.OpenTypes` | Projects/DesignEqualsImplementation2/src/designequalsimplementationprojectserializer.cpp:262-394 | after the types part all types, signals, slots and members exist with the fields and pointers of the description, slots still without statements |
| `ProjectOpener.OpenUseCases` | Projects/DesignEqualsImplementation2/src/designequalsimplementationprojectserializer.cpp:396-466 | lifelines, member instances and entry points refer to types, slots and members created before them; lookups by id keep working afterwards |
| `ProjectOpener.OpenBodies` | Projects/DesignEqualsImplementation2/src/designequalsimplementationprojectserializer.cpp:469-552 | statements and activations are read last and refer to slots, signals, members and lifelines that exist; at() is never out of range |
| `ProjectOpener.SlotFound` | Projects/DesignEqualsImplementation2/src/designequalsimplementationclassslot.cpp:71-88 | once the types part is read every saved pair of slot ids names an existing class (the cast does not fail) and an existing slot, the one at the same place as in the saved project |
| `ProjectOpener.SignalFound` | Projects/DesignEqualsImplementation2/src/designequalsimplementationclasssignal.cpp:18-33 | likewise for signal references |
| `ProjectOpener.MemberFound` | Projects/DesignEqualsImplementation2/src/designequalsimplementationtype.cpp:185-192 | likewise for member references |
| `ProjectOpener.ClassFound` | Projects/DesignEqualsImplementation2/src/designequalsimplementationproject.cpp:164-180 | likewise for the class id of a lifeline |
| `ProjectOpener.ReadAncestorEntry` | Projects/DesignEqualsImplementation2/src/designequalsimplementationprojectserializer.cpp:292-310 | ancestor ids refer to types that exist; the type gets exactly the saved ancestors in order |
| `ProjectOpener.ReadMember` | Projects/DesignEqualsImplementation2/src/designequalsimplementationprojectserializer.cpp:350-394 | a member comes back as saved, except that a property member gets its prefix a second time, private visibility and the ownership read off its type |
| `ProjectOpener.ReadEntry` | Projects/DesignEqualsImplementation2/src/designequalsimplementationprojectserializer.cpp:454-466 | the entry lifeline and slot are set, and that lifeline becomes the root whatever it was |
| `ProjectObjects.Argument.constructor` | Projects/DesignEqualsImplementation2/src/designequalsimplementationtype.cpp:99-113 | the qualifiers around the type name are what splitting the qualified type at the name gives; a name that does not occur exactly once is the qFatal |
| `CppReimport.EditsAreInterleaved` | Projects/DesignEqualsImplementation2/src/designequalsimplementationproject.cpp:582-728 | importing the edited source files of all classes turns every slot of every class into chunk, statement, chunk, ..., statement, chunk, with empty chunks left out and blank, // and helper lines filtered out, whatever was written into the gaps |
| `CppReimport.FilesComeBackIff` | Projects/DesignEqualsImplementation2/src/designequalsimplementationtype.cpp:197-200 | every class reads back its own source file, whatever is in the files, if and only if no two class names agree after lower-casing |
| `CppReimport.SharedFileIsImportedTwice` | Projects/DesignEqualsImplementation2/src/designequalsimplementationproject.cpp:582-592 | when two names do agree, what is written for the first class is lost and what is written into the gap of the second is inserted twice |
| `CppReimport.UneditedChangesNothing` | Projects/DesignEqualsImplementation2/src/designequalsimplementationproject.cpp:582-728 | files whose gaps hold only lines that are passed over change no class at all |
| `CppReimport.SlotImported` | Projects/DesignEqualsImplementation2/src/designequalsimplementationproject.cpp:698-718 | within one slot, chunk after chunk lands at its insert index plus the number of chunks inserted before it in this slot |
| `CppReimport.ClassImported` | Projects/DesignEqualsImplementation2/src/designequalsimplementationproject.cpp:592-728 | one source file changes exactly the slots of its class, all of them at once |
| `CppReimport.GapImported` | Projects/DesignEqualsImplementation2/src/designequalsimplementationproject.cpp:608-718 | a gap read from between two scans inserts the kept lines as one statement of the named slot, or nothing if none is kept, and leaves the scanner between gaps again |
| `CppReimport.OutsideImported` | Projects/DesignEqualsImplementation2/src/designequalsimplementationproject.cpp:610-620 | generated lines without the BEGIN delimiter are passed over |
| `CppReimport.WrittenImported` | Projects/DesignEqualsImplementation2/src/designequalsimplementationproject.cpp:605-607 | inside a gap every line without the END delimiter is collected unless it is blank, // or the helper comment |
| `CppReimport.InterleavedLength` | Projects/DesignEqualsImplementation2/src/designequalsimplementationproject.cpp:699-709 | the statements before gap k are the k old ones and one for each chunk that was kept |
| `CppEditMode.ImportAppend` | Projects/DesignEqualsImplementation2/src/designequalsimplementationproject.cpp:602-727 | the scan of a file can be cut at any line and resumed from the state reached, also when it is given up in between |
| `CppChunks.SkippedIff` | Projects/DesignEqualsImplementation2/src/designequalsimplementationproject.cpp:605-607 | a line is passed over if and only if it is white space, one of the three texts (nothing, // or the helper comment) and white space again |
| `CppChunks.LineIsKept` | Projects/DesignEqualsImplementation2/src/designequalsimplementationproject.cpp:605-607 | every other written line is in the chunk, unchanged, behind what is kept of the lines in front of it and in front of what is kept of the lines behind it |
| `CppChunks.InterleavingStands` | Projects/DesignEqualsImplementation2/src/designequalsimplementationproject.cpp:698-718 | the slot after the import by index: statement k behind the k statements and all chunks in front of it, a chunk at the place of its gap if any line of it is kept, and nothing else |
| `CppChunks.ChunksInFront` | Projects/DesignEqualsImplementation2/src/designequalsimplementationproject.cpp:698-718 | the chunks in front of a gap are one for each earlier gap in which a line is kept |
| `CppTampering.RefusedIff` | Projects/DesignEqualsImplementation2/src/designequalsimplementationproject.cpp:621-695 | a line makes the import refuse the file if and only if it stands in the head of a gap and gives a value twice, an index that is no number, or ends the head without all three values |
| `CppTampering.CrashedIff` | Projects/DesignEqualsImplementation2/src/designequalsimplementationproject.cpp:698-709 | the program would crash exactly at the end of a gap with kept lines whose head names no class of the project or no slot of the first class of that name |
| `CppTampering.ImportStops` | Projects/DesignEqualsImplementation2/src/designequalsimplementationproject.cpp:591-728 | at such a line the import ends: what was inserted before stays, and nothing behind it is looked at in that file or in later ones |
| `CppTampering.HeadIs` | Projects/DesignEqualsImplementation2/src/designequalsimplementationproject.cpp:621-695 | behind the head of a gap the importer has its three values, and the offset goes on if the gap before was of the same class and slot, and starts again otherwise |
| `CppTampering.UnfinishedGapIsLost` | Projects/DesignEqualsImplementation2/src/designequalsimplementationproject.cpp:593-604 | a gap that the file does not close changes no class and is not noticed by the next file |
| `CppTampering.BareGapImported` | Projects/DesignEqualsImplementation2/src/designequalsimplementationproject.cpp:698-718 | delimiters without values of their own are taken for one more gap behind the last one: the text goes in behind what that one put there |
| `CppTampering.InsertedIs` | Projects/DesignEqualsImplementation2/src/designequalsimplementationproject.cpp:706-709 | an insert index in front of the list or behind it means its nearer end; what is behind the place moves up and nothing else changes |
| `CppSourceFile.GeneratedProjectStays` | Projects/DesignEqualsImplementation2/src/designequalsimplementationprojectgenerator.cpp:690-741 | generating all classes in edit mode and importing the files as they are leaves every class as it was |
| `CppSourceFile.GeneratedFileFits` | Projects/DesignEqualsImplementation2/src/designequalsimplementationprojectgenerator.cpp:929-989 | what the generator writes meets the conditions of the import: one gap in front of every statement and one behind the last, delimiters nowhere else, given statements and frames without them |
| `CppLayout.GeneratedTextStands` | Projects/DesignEqualsImplementation2/src/designequalsimplementationprojectgenerator.cpp:690-741 | the text of a class line by line, without the gaps of the import: the preamble, then for each slot in order its header, every statement in order with its lines between blank lines, and its closing, and gap number k directly in front of statement k |
| `CppLayout.StatementStands` | Projects/DesignEqualsImplementation2/src/designequalsimplementationprojectgenerator.cpp:698-730 | line i of statement k of slot j stands where it should, behind the gap of that statement and a blank line |
| `CppSourceFile.SourceFile.WriteClass` | Projects/DesignEqualsImplementation2/src/designequalsimplementationprojectgenerator.cpp:690-741 | the text of a class is its slots with their gaps in order, which GeneratedTextStands takes apart line by line, and the line to jump to is the free line of the wanted gap whenever the wanted slot and index are in the class |
| `CppSourceFile.SourceFile.WriteSlot` | Projects/DesignEqualsImplementation2/src/designequalsimplementationprojectgenerator.cpp:698-730 | one slot: a gap, blank line, statement, blank line for each statement, and a last gap |
| `CppSourceFile.SourceFile.WriteGap` | Projects/DesignEqualsImplementation2/src/designequalsimplementationprojectgenerator.cpp:955-988 | one gap with class name, slot index and insert index in its head; the jump line is set when this is the wanted gap |
| `CppSourceFile.Project.ImportSourceFile` | Projects/DesignEqualsImplementation2/src/designequalsimplementationproject.cpp:592-727 | the loop over the lines of one file; it fails exactly when the scan of the lines does, and the chunks inserted before a failure stay |
| `CppSourceFile.Project.ImportEditedFiles` | Projects/DesignEqualsImplementation2/src/designequalsimplementationproject.cpp:582-728 | all files in class order, flags fresh for each; the first failure ends it and leaves the chunks inserted so far; SkippedIff and LineIsKept say which lines a chunk holds |
| `CppSourceFile.Project.InsertChunk` | Projects/DesignEqualsImplementation2/src/designequalsimplementationproject.cpp:706-709 | inserts the collected lines at insert index plus offset in the slot the comments named, or fails when there is no such class or slot |
| `CppSourceFile.Project.ClassFromClassName` | Projects/DesignEqualsImplementation2/src/designequalsimplementationproject.h:65-76 | the first class of that name, or none |
| `ConnectWalk.WalkEndsIff` | Projects/DesignEqualsImplementation2/src/designequalsimplementationprojectgenerator.cpp:259-401 | the walk, which keeps no list of visited slots, ends if and only if no cycle of slots can be reached from its start |
| `ConnectWalk.LessAhead` | Projects/DesignEqualsImplementation2/src/designequalsimplementationprojectgenerator.cpp:377-398 | without a cycle every recursive call leaves one slot behind that can never be come to again: the set of slots ahead shrinks |
| `ConnectWalk.WalkPlacesExactly` | Projects/DesignEqualsImplementation2/src/designequalsimplementationprojectgenerator.cpp:259-401 | a connection is placed if and only if some slot that can be come to has a step that places it |
| `ConnectWalk.RelatedLifelinesAreConnected` | Projects/DesignEqualsImplementation2/src/designequalsimplementationprojectgenerator.cpp:285-341 | for every slot attached to a signal emission of a slot that can be come to: siblings are connected in their common parent, and a lifeline that is a member of the other lifeline's class in that class |
| `ConnectWalk.AttachmentIsWalked` | Projects/DesignEqualsImplementation2/src/designequalsimplementationprojectgenerator.cpp:275-383 | everything an attachment of a reachable emission places is in the walk, whichever activation, statement and slot it is |
| `ConnectWalk.EveryConnectionFits` | Projects/DesignEqualsImplementation2/src/designequalsimplementationprojectgenerator.cpp:290-341 | every connection placed in a class names only this or members of that class, and each object is of the class that declares its signal or slot, if members are listed in their parents and slots emit their own class's signals |
| `ConnectCalls.StepsAreCalls` | Projects/DesignEqualsImplementation2/src/designequalsimplementationprojectgenerator.cpp:259-401 | the steps of the walk at a slot, defined on the use case without the walk: exactly one for each invocation among its statements and for each slot an activation attaches to one of its emissions, in order, with that slot as destination |
| `ConnectCalls.WalkIsEveryPathOnce` | Projects/DesignEqualsImplementation2/src/designequalsimplementationprojectgenerator.cpp:259-401 | the walk follows every path of such calls exactly once, depth first, and places exactly what the last call of each path needs |
| `ConnectCalls.UseCaseWalkEndsIff` | Projects/DesignEqualsImplementation2/src/designequalsimplementationprojectgenerator.cpp:259-401 | the walk of a use case ends if and only if no slot that calls lead to calls itself again |
| `ConnectCalls.AcyclicIff` | Projects/DesignEqualsImplementation2/src/designequalsimplementationprojectgenerator.cpp:388-398 | the steps of the walk have a cycle exactly where the calls of the use case have one |
| `ConnectCalls.PlacementsAreExactly` | Projects/DesignEqualsImplementation2/src/designequalsimplementationprojectgenerator.cpp:290-341 | for one call the connections of the three cases are placed, each once and no other |
| `ConnectCalls.CallsAreConnected` | Projects/DesignEqualsImplementation2/src/designequalsimplementationprojectgenerator.cpp:275-401 | whatever path of invocations and emissions leads to a slot, every connection one of its emissions needs is placed |
| `ConnectWalk.Generator.AppendConnectStatementToClassInitializationSequence` | Projects/DesignEqualsImplementation2/src/designequalsimplementationprojectgenerator.cpp:922-928 | the class gets one more connection at the end of its list, the other classes keep theirs |
| `ConnectWalk.Generator.PlaceConnect` | Projects/DesignEqualsImplementation2/src/designequalsimplementationprojectgenerator.cpp:290-341 | the three cases, which do not exclude each other |
| `ConnectWalk.Generator.WalkDestination` | Projects/DesignEqualsImplementation2/src/designequalsimplementationprojectgenerator.cpp:287-381 | the connections of one attached slot, then the walk of that slot |
| `ConnectWalk.Generator.WalkAttached` | Projects/DesignEqualsImplementation2/src/designequalsimplementationprojectgenerator.cpp:285-383 | all slots attached to the signal of an activation, in order |
| `ConnectWalk.Generator.WalkActivation` | Projects/DesignEqualsImplementation2/src/designequalsimplementationprojectgenerator.cpp:277-384 | an activation counts only for its own lifeline, slot and statement index |
| `ConnectWalk.Generator.WalkSignal` | Projects/DesignEqualsImplementation2/src/designequalsimplementationprojectgenerator.cpp:275-386 | all activations of the use case, for one signal emission |
| `ConnectWalk.Generator.WalkSlot` | Projects/DesignEqualsImplementation2/src/designequalsimplementationprojectgenerator.cpp:259-401 | the recursion over the slot graph adds exactly the placements of the walk, which WalkIsEveryPathOnce ties to the paths of calls of the use case, and ends, when no cycle can be reached |
| `ConnectWalk.Generator.ProcessUseCase` | Projects/DesignEqualsImplementation2/src/designequalsimplementationprojectgenerator.cpp:105-228 | a use case without an entry point is refused and changes nothing; otherwise the walk of its entry is added |
| `MotionDetector.Detector.NewScreenGrabMatchesOldScreenGrab` | GloballySharedClasses/gui/mouseormotionorperiodofinactivitydetector.cpp:65-158 | true if and only if all differences in the scanned rows can be covered by disjoint cursor blocks, each differing at every pixel and showing the whole cursor on the old or the new grab; false leaves the point of motion at the first difference that no cursor found so far and no cursor starting there can excuse |
| `MotionDetector.Detector.CheckPixel` | GloballySharedClasses/gui/mouseormotionorperiodofinactivitydetector.cpp:91-154 | one pixel of the scan on the painted copies decides about the original grabs |
| `MotionDetector.Detector.CursorBlinkedAt` | GloballySharedClasses/gui/mouseormotionorperiodofinactivitydetector.cpp:108-145 | reading the painted copies, the block is accepted if and only if it is excused on the originals and disjoint from all blocks painted before |
| `MotionDetector.Detector.DrawCursor` | GloballySharedClasses/gui/mouseormotionorperiodofinactivitydetector.cpp:148-151 | painting a block changes that block of the copy and nothing else |
| `MotionDetector.Detector.ThereWasMotionOnScreenSinceLastPoll` | GloballySharedClasses/gui/mouseormotionorperiodofinactivitydetector.cpp:33-60 | motion is reported if and only if there is an old grab of the same size and more than cursors changed; then, or when there was nothing to compare with, the new grab becomes the old one |
| `MotionDetector.StopRefutes` | GloballySharedClasses/gui/mouseormotionorperiodofinactivitydetector.cpp:93-153 | a scan that stops early has refuted every possible set of cursors, not only the ones it tried |
| `MotionDetector.FoundIsNecessary` | GloballySharedClasses/gui/mouseormotionorperiodofinactivitydetector.cpp:93-153 | whatever set of cursors explains all differences, the scan only ever found cursors of that set, so painting greedily loses nothing |
| `MotionDetector.FirstUnexplained` | GloballySharedClasses/gui/mouseormotionorperiodofinactivitydetector.cpp:93-101 | the first difference not yet covered must start a cursor of every explanation |
| `MotionDetector.ExplanationIsUnique` | GloballySharedClasses/gui/mouseormotionorperiodofinactivitydetector.cpp:80-158 | there is at most one set of cursors that explains two grabs |
| `MotionDetector.TopRowIsNeverExcused` | GloballySharedClasses/gui/mouseormotionorperiodofinactivitydetector.cpp:159-171 | because one row more than the cursor needs is asked for, a change in the top row is always motion |
| `MotionDetector.BlinkIsExcused` | GloballySharedClasses/gui/mouseormotionorperiodofinactivitydetector.cpp:102-151 | one cursor that appeared or disappeared, and nothing else, is no motion |
| `MotionDetector.EveryChangeIsInACursor` | GloballySharedClasses/gui/mouseormotionorperiodofinactivitydetector.cpp:85-171 | in plain numbers: without motion every change above the lowest 16 rows lies in a block 2 wide and 13 high that changed at every pixel, is black on one of the grabs and has a spare row above it |
| `MotionDetector.OneBlinkIsNoMotion` | GloballySharedClasses/gui/mouseormotionorperiodofinactivitydetector.cpp:85-171 | and one such block, wherever it fits, is no motion when nothing else above the lowest 16 rows changed |
| `MotionDetector.QuietUnlessScanned` | GloballySharedClasses/gui/mouseormotionorperiodofinactivitydetector.cpp:84-85 | what changes in the lowest 16 rows only is no motion |
| `ChecksummedStreams.FramesComeBack` | GloballySharedClasses/qtiodevicechecksummedmessagereader.cpp:18-98 | any messages of positive size, framed and delivered in any pieces, come out exactly and in order, and the reader is ready for the next frame |
| `ChecksummedStreams.DamageIsConfined` | GloballySharedClasses/qtiodevicechecksummedmessagereader.cpp:27-71 | with junk without commas before the frames, bodies changed on the way, and heads that break off behind a size that is no number or does not fit its checksum, exactly the messages whose checksum still fits come out, in any pieces: damage costs its own frame and no other |
| `ChecksummedStreams.InSyncBehindBadSizeIff` | GloballySharedClasses/qtiodevicechecksummedmessageheaderreader.cpp:69-90 | behind a refused size the next field is taken for SYNC if and only if it ends in it, where a size that is no number still counts as its beginning |
| `ChecksummedFraming.ChunksDoNotMatter` | GloballySharedClasses/qtiodevicechecksummedmessagereader.cpp:18-26 | while the stream keeps in sync, reading it in any pieces gives the same messages and the same state as reading it whole |
| `ChecksummedFraming.CutInSync` | GloballySharedClasses/qtiodevicechecksummedmessagereader.cpp:18-26 | a cut behind bytes that are in sync never makes a difference, whatever bytes come behind it |
| `ChecksummedFraming.InSync` | GloballySharedClasses/qtiodevicechecksummedmessagereader.cpp:18-98 | bytes that are in sync are handled as they say, and what comes behind them as if it arrived by itself |
| `ChecksummedStreams.CutBehindFieldIff` | GloballySharedClasses/qtiodevicechecksummedmessageheaderreader.cpp:41-65 | out of sync it does matter: a cut right behind a field, in front of a header, makes no difference for all that may follow if and only if the field ends in SYNC, for every checksum that does not turn the text 1 into a number, as MD5 does not; the frame that shows it is lost in one piece and arrives in two |
| `ChecksummedStreams.NeverEndsIff` | GloballySharedClasses/qtiodevicechecksummedmessagereader.cpp:18-71 | any messages, empty ones too, framed and in any pieces: those before the first empty one come out, and the loop never ends if and only if a byte comes behind an empty one |
| `ChecksummedFraming.HandleAgrees` | GloballySharedClasses/qtiodevicechecksummedmessageheaderreader.cpp:37-110 | the fall-through state machine does what reading byte by byte says, as long as the stream keeps in sync |
| `ChecksummedStreams.FieldIs` | GloballySharedClasses/qtiodevicechecksummedmessageheaderreader.cpp:14-36 | the buffer is a sliding window: at a comma, or when the bytes run out, it holds the last 32 characters since it was cleared |
| `ChecksummedSoundness.EveryMessageWasFramed` | GloballySharedClasses/qtiodevicechecksummedmessagereader.cpp:18-98 | on any bytes at all in any pieces, every message that is emitted stood in the stream behind its checksum and behind a size field with its own matching checksum, has the declared size and the header's checksum, and the messages stand there one after the other |
| `ChecksummedSoundness.BodyTraced` | GloballySharedClasses/qtiodevicechecksummedmessagereader.cpp:42-71 | a body that is emitted has the declared size and the checksum of the header |
| `ChecksummedSoundness.HandleTraced` | GloballySharedClasses/qtiodevicechecksummedmessagereader.cpp:18-26 | over all iterations the buffer stays the last at most 32 characters of what was read |
| `Text.ParseIntIff` | GloballySharedClasses/qtiodevicechecksummedmessageheaderreader.cpp:74-80 | a field is taken for a number if and only if it is white space, a sign at most, zeros, the number as it is written, and white space, and the number is one of the type |
| `ChecksummedReader.HeaderReader.TryReadUntilComma` | GloballySharedClasses/qtiodevicechecksummedmessageheaderreader.cpp:14-36 | the loop takes characters up to a comma or the end and keeps the last 32 |
| `ChecksummedReader.HeaderReader.TryReadMessageHeader` | GloballySharedClasses/qtiodevicechecksummedmessageheaderreader.cpp:37-110 | the fall-through switch, with the size it hands out on success |
| `ChecksummedReader.MessageReader.MessageChecksumIsValid` | GloballySharedClasses/qtiodevicechecksummedmessagereader.cpp:27-41 | compares the checksum of the collected body with the one of the header |
| `ChecksummedReader.MessageReader.TryReadMessageActual` | GloballySharedClasses/qtiodevicechecksummedmessagereader.cpp:42-71 | collects at most the missing bytes; emits the body when it is complete and its checksum fits |
| `ChecksummedReader.MessageReader.TryReadMessage` | GloballySharedClasses/qtiodevicechecksummedmessagereader.cpp:72-98 | first the header, then the body, across calls |
| `ChecksummedReader.MessageReader.HandleReadyRead` | GloballySharedClasses/qtiodevicechecksummedmessagereader.cpp:18-26 | every iteration consumes a byte, so the loop ends with nothing left, unless a body of a declared size below one is awaited; then, and only then, it never ends |
| `NetworkFraming.FramesComeBack` | GloballySharedClasses/network/abstractclientconnection.cpp:107-142 | any messages behind magic and length, in any pieces, arrive as exactly the non-empty ones in order, and the connection is as at the start |
| `NetworkFraming.ChunksDoNotMatter` | GloballySharedClasses/network/abstractclientconnection.cpp:107-142 | for all bytes whatsoever, in sync or not, reading in pieces gives the same messages, state and pending bytes as reading at once |
| `NetworkFraming.ProcessSettles` | GloballySharedClasses/network/abstractclientconnection.cpp:107-142 | when the handler returns nothing is left that it could have handled: no whole frame is pending |
| `NetworkFraming.SeekIsSound` | GloballySharedClasses/network/networkmagic.cpp:18-55 | a report means that the last four bytes are the magic; without one the index counts magic bytes at the end of what was read |
| `NetworkFraming.MagicFoundIff` | GloballySharedClasses/network/networkmagic.cpp:30-51 | a magic behind a prefix without one is found if and only if the prefix leaves nothing half matched, because the byte that breaks a match is not tried again |
| `NetworkFraming.HidesOnlyByItsEnd` | GloballySharedClasses/network/networkmagic.cpp:30-51 | a prefix without the magic can hide the frame behind it only by ending in a beginning of the magic |
| `NetworkFraming.NothingHiddenWithoutFirstByte` | GloballySharedClasses/network/networkmagic.cpp:30-51 | no bytes without the first one of the magic ever hide a frame |
| `NetworkFraming.NewDeviceNeedsFreshMatcher` | GloballySharedClasses/network/abstractclientconnection.cpp:69-100 | after a merge, which does not reset the matcher, the first frame of the new device is found if and only if nothing was half read on the old one |
| `NetworkFraming.StrayFirstBytes` | GloballySharedClasses/network/networkmagic.cpp:30-51 | one stray first magic byte in front of a frame hides it, two do not |
| `NetworkFraming.BigEndianBack` | GloballySharedClasses/network/bytearraymessagesizepeekerforiodevice.cpp:17-56 | the length that is peeked is the one that was streamed out, for every 32-bit length |
| `NetworkConnection.NetworkMagic.ConsumeByteByByteLookingForMagic` | GloballySharedClasses/network/networkmagic.cpp:18-55 | the loop consumes up to the end of the magic, or everything |
| `NetworkConnection.NetworkMagic.MessageHasBeenConsumedSoPlzResetMagic` | GloballySharedClasses/network/networkmagic.h:43-47 | the matcher is as new |
| `NetworkConnection.MessageSizePeeker.EnoughBytesAreAvailableToReadTheByteArrayMessage` | GloballySharedClasses/network/bytearraymessagesizepeekerforiodevice.cpp:17-56 | true if and only if a whole byte array can be read, without consuming anything; a null array needs only its length |
| `NetworkConnection.ClientConnection.HandleDataReceivedFromClient` | GloballySharedClasses/network/abstractclientconnection.cpp:107-142 | the frame loop hands exactly the non-empty messages on and leaves nothing it could read |
| `ConnectionRuns.EveryRunIsFair` | GloballySharedClasses/network/multiserverabstraction.cpp:94-117 | over every run in which connections are announced only while they are not listed: listed and queued connections are distinct, the queue is within the list, between two refills nobody is chosen twice, and whoever stayed listed has been chosen exactly once when the next refill is due |
| `ConnectionRuns.StepIsFair` | GloballySharedClasses/network/multiserverabstraction.cpp:94-243 | every event keeps that invariant |
| `ConnectionRuns.DistinctIffPolite` | GloballySharedClasses/network/multiserverabstraction.cpp:94-97 | a step that is no broadcast keeps the list free of duplicates if and only if it announces nobody who is listed |
| `ConnectionRuns.SecondThankYou` | GloballySharedClasses/network/multiserverabstraction.cpp:200-224 | a run from the start with a second thank you, after which a connection that is not listed is in the queue and gets the next broadcast |
| `ConnectionRuns.ReturningClientIsMerged` | GloballySharedClasses/network/abstractclientconnection.cpp:165-267 | a hello with the cookie of a known connection, any other events in between, and the thank you: the old connection owns the new device, is listed exactly once, queues no more, has built its lists once unless it was queueing before, and the temporary connection is in no list |
| `ConnectionRuns.UndisturbedStep` | GloballySharedClasses/network/abstractclientconnection.cpp:165-267 | every event except another announcement of the two connections or another hello of the new one leaves a merge under way intact |
| `ConnectionRuns.HelloStartsMerge` | GloballySharedClasses/network/multiserverabstraction.cpp:64-93 | a hello with the cookie of a known connection takes it off the broadcast lists, turns its queueing on, building the lists if it was off, and remembers it |
| `ConnectionRuns.ThankYouCompletesMerge` | GloballySharedClasses/network/abstractclientconnection.cpp:69-100 | the matching thank you moves the device over, lists the old connection and leaves the temporary one unlisted |
| `ConnectionRuns.StepClosed` | GloballySharedClasses/network/multiserverabstraction.cpp:64-243 | lists, queue and merge targets only ever hold connections of the server |
| `ConnectionRuns.ListsOfStep` | GloballySharedClasses/network/abstractclientconnection.cpp:165-267 | apart from broadcasts every event first takes at most one connection off the lists and then announces at most one |
| `ConnectionQueueing.BadConnectionQueues` | GloballySharedClasses/network/abstractclientconnection.cpp:292-319 | a connection that goes bad queues, is off the lists and dead, and built its lists once more exactly if it was not queueing; nobody else is affected |
| `ConnectionQueueing.QueueingStep` | GloballySharedClasses/network/abstractclientconnection.cpp:52-100 | every event, exactly: queueing goes on for a connection that goes bad or is named by a hello, off when a merge onto it is completed, and stays otherwise |
| `ConnectionQueueing.BadQueuesUntilMerged` | GloballySharedClasses/network/abstractclientconnection.cpp:292-319 | over every run a connection that went bad queues until a merge onto it is completed |
| `ConnectionQueueing.BuildsAreChanges` | GloballySharedClasses/network/abstractclientconnection.cpp:52-68 | over every run from the empty server the lists of each connection were built exactly as often as its queueing went from off to on |
| `ConnectionQueueing.StrangerIsListed` | GloballySharedClasses/network/abstractclientconnection.cpp:165-272 | a hello and a thank you that name no known connection list the connection itself at the end and change nothing else; an earlier intention to merge is forgotten |
| `ConnectionQueueing.WrongCookieChangesNothing` | GloballySharedClasses/network/abstractclientconnection.cpp:203-272 | a thank you with the wrong cookie changes nothing at all |
| `ConnectionQueueing.UnknownDeviceIsDeadAndListed` | GloballySharedClasses/network/abstractclientconnection.cpp:69-100 | a merge with a device of no known kind leaves the old connection dead and listed at once |
| `ConnectionRuns.HelloReturnsIff` | GloballySharedClasses/network/abstractclientconnection.cpp:165-200 | in any state of the registry a hello with a cookie comes to an end if and only if its search meets nobody without a cookie before the match, and one without a cookie if and only if the connection has one, or everybody searched has one and an unused value turns up |
| `ConnectionRuns.ThankYouReturnsIff` | GloballySharedClasses/network/abstractclientconnection.cpp:203-212 | a thank you comes to an end if and only if its connection has a cookie, or everybody searched has one and an unused value turns up |
| `ConnectionRuns.BadBeforeHello` | GloballySharedClasses/network/abstractclientconnection.cpp:311-315 | a run from the start: a client whose socket goes bad before its hello is dead without a cookie |
| `ConnectionRuns.NobodyGetsACookie` | GloballySharedClasses/network/multiserverabstraction.h:42-105 | from then on, in every run in which that very connection does not say hello with a cookie, no hello or thank you of a connection without a cookie comes to an end |
| `ConnectionRegistry.CookieComesOutIff` | GloballySharedClasses/network/multiserverabstraction.h:42-105 | in any state of the registry generating a cookie comes to an end if and only if every helloed and every dead connection has one and an unused value turns up, and what comes out is unused |
| `ConnectionRegistry.LookupFinds` | GloballySharedClasses/network/multiserverabstraction.h:78-105 | looking a cookie up comes to an end if and only if nobody without a cookie is met before the match, and it finds the cookie if and only if somebody has it |
| `ConnectionRegistry.ExistingIsFirst` | GloballySharedClasses/network/multiserverabstraction.h:78-105 | it is the first with the cookie, all helloed connections before all dead ones |
| `CookieSearch.SearchReturnsIff` | GloballySharedClasses/network/multiserverabstraction.h:78-105 | the recursion of lookup and generation: a search comes to an end if and only if it never has to ask a connection without a cookie |
| `CookieSearch.GenerateReturnsIff` | GloballySharedClasses/network/multiserverabstraction.h:42-51 | a cookie comes out of the recursion if and only if nobody who is searched is without one and an unused value turns up |
| `CookieSearch.FirstUnused` | GloballySharedClasses/network/multiserverabstraction.h:42-51 | it is the first value drawn that nobody has, and only the values up to it are used up |
| `ConnectionRegistry.Server.HandleNewClientConnected` | GloballySharedClasses/network/multiserverabstraction.cpp:191-199 | a new connection is known, but neither listed nor queued |
| `ConnectionRegistry.Server.ReportConnectionDestroying` | GloballySharedClasses/network/multiserverabstraction.cpp:122-134 | it is forgotten among all connections and stays in the other lists |
| `ConnectionRegistry.Server.ConnectionDoneHelloing` | GloballySharedClasses/network/multiserverabstraction.cpp:94-97 | appended to the helloed list without a look whether it is there |
| `ConnectionRegistry.Server.AppendDeadConnectionThatMightBePickedUpLater` | GloballySharedClasses/network/multiserverabstraction.cpp:98-101 | appended to the dead list |
| `ConnectionRegistry.Server.DontBroadcastTo` | GloballySharedClasses/network/multiserverabstraction.cpp:200-224 | taken off the helloed list, and off the queue only if it was listed exactly once |
| `ConnectionRegistry.Server.GetExistingConnectionUsingCookie` | GloballySharedClasses/network/multiserverabstraction.h:78-105 | asking one connection after the other, which may have to generate a cookie first: the first helloed connection with the cookie, or else the first dead one, or none, or no end, exactly when the recursion says so |
| `ConnectionRegistry.Server.GenerateUnusedCookie` | GloballySharedClasses/network/multiserverabstraction.h:42-51 | the cookie, or no end, as the recursion of lookup and generation says; with CookieComesOutIff a cookie that no helloed and no dead connection has |
| `ConnectionRegistry.Server.PotentialMergeCaseAsCookieIsSupplied` | GloballySharedClasses/network/multiserverabstraction.cpp:64-93 | the old connection with the supplied cookie, off the broadcast lists and with its queueing on, or none, if the search comes to an end |
| `ConnectionRegistry.Server.RefillRoundRobinFromHellodConnections` | GloballySharedClasses/network/multiserverabstraction.cpp:225-243 | appends a permutation of the helloed list, whatever the random numbers, and changes nothing else |
| `ConnectionRegistry.Server.GetSuitableClientConnectionNextInRoundRobin` | GloballySharedClasses/network/multiserverabstraction.cpp:102-121 | refills only an empty queue and hands out its head, or none when nobody is listed |
| `ConnectionRegistry.Connection.SetQueueActionResponses` | GloballySharedClasses/network/abstractclientconnection.cpp:52-68 | the lists are built exactly when queueing goes from off to on |
| `ConnectionRegistry.Connection.GetCookie` | GloballySharedClasses/network/abstractclientconnection.cpp:43-51 | the cookie it has, or a generated one, if generating comes to an end; otherwise nothing changes |
| `ConnectionRegistry.Connection.MergeNewIoDevice` | GloballySharedClasses/network/abstractclientconnection.cpp:69-100 | the old connection takes the device, is announced and stops queueing; a device that is no kind of socket the server knows makes it bad before that |
| `ConnectionRegistry.Connection.MakeConnectionBad` | GloballySharedClasses/network/abstractclientconnection.cpp:292-319 | the connection leaves the broadcast lists, joins the dead ones and queues, with its lists built if they were not; BadConnectionQueues and BadQueuesUntilMerged say so for the step and for runs |
| `ConnectionRegistry.Connection.HandleHello` | GloballySharedClasses/network/abstractclientconnection.cpp:165-200 | an initial hello with or without a cookie, in any state: it comes to an end exactly when HelloReturnsIff says, and then the welcome carries the client's cookie or a generated one |
| `ConnectionRegistry.Connection.HandleThankYou` | GloballySharedClasses/network/abstractclientconnection.cpp:203-272 | in any state: the client may start sending exactly when it confirms the cookie; then the connection, or the old one it merges onto, is announced |
| `ConnectionRegistry.DealtWithout` | GloballySharedClasses/network/multiserverabstraction.cpp:225-243 | drawing one place of those left takes exactly that connection out of what is still to be dealt |
| `EasyTreeParser.SimplifiedTreeComesBack` | GloballySharedClasses/filesystem/easytree.cpp:42-216 | writing a tree in the simplified format and reading it line by line gives, in preorder and every directory before what is in it, path, directory flag and time in whole seconds of exactly the entries that are not ignored and have no ignored directory above them |
| `EasyTreeParser.ItemTreeComesBack` | GloballySharedClasses/filesystem/easytreeparser.cpp:6-26 | for the format with sizes and creation dates, through the list parser: the same entries in preorder, every directory before what is in it, with path, directory flag, size and times in whole seconds |
| `EasyTree.WalkIsUnmarked` | GloballySharedClasses/filesystem/easytree.cpp:42-69 | the entries of the text are exactly those that are not ignored and are in no ignored directory |
| `EasyTree.WalkHasParentsFirst` | GloballySharedClasses/filesystem/easytree.cpp:42-69 | every entry that is not at the top comes after its directory |
| `EasyTree.LastComponentIs` | GloballySharedClasses/filesystem/easytree.cpp:134-179 | the last part of the canonical path, which the filters look at, is the name of the entry |
| `EasyTree.IgnoredIff` | GloballySharedClasses/filesystem/easytree.cpp:134-179 | a file or directory is ignored if and only if its whole name is listed for its kind, or is something followed by a listed end, or for a directory begins like generated code |
| `EasyTree.EasyTree.InsertAllFileAndDirInfoIntoTreeTextRecursingIntoDirs` | GloballySharedClasses/filesystem/easytree.cpp:42-69 | the recursion, which overwrites the current entry, appends exactly the lines of the walk |
| `EasyTree.EasyTree.GenerateTreeText` | GloballySharedClasses/filesystem/easytree.cpp:180-216 | the text of a tree is the lines of its walk with paths relative to the root |
| `EasyTree.EasyTree.AddDirEntry` | GloballySharedClasses/filesystem/easytree.cpp:70-87 | the line of a directory, its slash outside the escaped path |
| `EasyTree.EasyTree.AddFileEntry` | GloballySharedClasses/filesystem/easytree.cpp:88-133 | the line of a file in either format |
| `EasyTree.EasyTree.WeDontWantToSkipCurrentFileInfo` | GloballySharedClasses/filesystem/easytree.cpp:134-155 | a file is kept if and only if its name is not ignored and ends in none of the ignored ends |
| `EasyTree.EasyTree.WeDontWantToSkipCurrentDirInfo` | GloballySharedClasses/filesystem/easytree.cpp:156-179 | a directory is kept if and only if its name is not ignored and ends in none of the ignored ends |
| `EasyTreeHashItem.FileComesBackIff` | GloballySharedClasses/filesystem/easytreehashitem.cpp:10-105 | a printed file item without a doubled slash in its path parses back to path, size, whole-second times and hash if and only if the path is not empty and ends neither in a slash nor in a backslash |
| `EasyTreeHashItem.DirectoryComesBack` | GloballySharedClasses/filesystem/easytreehashitem.cpp:143-161 | a printed directory item comes back whatever the last character of its path |
| `EasyTreeHashItem.ReplacementComesBack` | GloballySharedClasses/filesystem/easytreehashitem.cpp:41-46 | with a replacement path in front, colons of its own escaped, both paths and all fields come back: the first field is the replacement |
| `EasyTreeHashItem.UndatedItemComesBack` | GloballySharedClasses/filesystem/easytreehashitem.cpp:64-101 | read as a line without a creation date it gives path, size and time of modification; the hash is lost because it would be the fifth field |
| `EasyTreeHashItem.UndatedReplacementComesBack` | GloballySharedClasses/filesystem/easytreehashitem.cpp:41-101 | the same with a replacement path |
| `EasyTreeHashItem.FieldsAreTaken` | GloballySharedClasses/filesystem/easytreehashitem.cpp:41-105 | any number of fields, numbers or not: which field is read for what, that a hash needs more than four segments, that more are ignored, and exactly when there are too few |
| `EasyTreeHashItem.NumberAmongJunk` | GloballySharedClasses/filesystem/easytreehashitem.cpp:58-62 | a number is read whatever white space is in front of it and whatever else behind it |
| `EasyTreeHashItem.NoNumberIsZero` | GloballySharedClasses/filesystem/easytreehashitem.cpp:58-62 | a field that does not begin with a number is read as zero |
| `EasyTreeHashItem.JunkInHex` | GloballySharedClasses/filesystem/easytreehashitem.cpp:98-103 | a character of the hash field that is no hex digit might as well not be there |
| `EasyTreeHashItem.HexComesBack` | GloballySharedClasses/filesystem/easytreehashitem.cpp:143-161 | a hash of any bytes survives being written in hex |
| `EasyTreeHashItem.ReadQint64OfNumber` | GloballySharedClasses/filesystem/easytreehashitem.cpp:10-105 | every number survives being written and read by a text stream |
| `EasyTreeHashItem.EasyTreeHashItem.ToColonSeparatedLineOfText` | GloballySharedClasses/filesystem/easytreehashitem.cpp:143-161 | the printed line of the item |
| `EasyTreeHashItem.SegmentsOf` | GloballySharedClasses/filesystem/easytreehashitem.cpp:17-39 | splitting at the colons that are not escaped, with the placeholder put in and taken out segment by segment |
| `EasyTreeHashItem.NewEasyTreeHashItemFromLineOfText` | GloballySharedClasses/filesystem/easytreehashitem.cpp:10-105 | the parsed item, with or without replacement path and creation date, or null where the program would read past the last field |
| `ColonEscaping.PlaceholdersBack` | GloballySharedClasses/filesystem/easytreehashitem.cpp:202-208 | putting a placeholder with an early doubled slash in for all colons and taking it out again restores every path without a doubled slash, colons at any place |
| `ColonEscaping.LineSplits` | GloballySharedClasses/filesystem/easytreehashitem.cpp:17-39 | the first field of a line is the path with the placeholder in, however many colons it has |
| `ColonEscaping.NoPlaceholder` | GloballySharedClasses/filesystem/easytreehashitem.cpp:202-208 | no path without a doubled slash contains the placeholder |
| `LastModifiedTimestamp.StampComesBackIff` | GloballySharedClasses/filesystem/lastmodifiedtimestamp.cpp:9-68 | printing and parsing a timestamp recovers path, directory flag and the time in whole seconds if and only if the path is not empty and does not end in a backslash |
| `LastModifiedTimestamp.OneFieldIsTaken` | GloballySharedClasses/filesystem/lastmodifiedtimestamp.cpp:9-30 | behind a path there must be exactly one field, and it must be a number |
| `LastModifiedTimestamp.SimplifiedLastModifiedTimestamp.FromLine` | GloballySharedClasses/filesystem/lastmodifiedtimestamp.cpp:9-30 | a line without exactly two fields or without a number leaves an invalid object with an empty path |
| `LastModifiedTimestamp.SimplifiedLastModifiedTimestamp.ToColonSeparatedLineOfText` | GloballySharedClasses/filesystem/lastmodifiedtimestamp.cpp:62-68 | the printed line of the timestamp |
| `LastModifiedTimestamp.WholeSeconds` | GloballySharedClasses/filesystem/lastmodifiedtimestamp.cpp:62-68 | dividing by 1000 cuts off less than a second, towards 1970 from both sides |
| `EasyTreeParser.ParseEasyTreeAndReturnAsNewList` | GloballySharedClasses/filesystem/easytreeparser.cpp:6-26 | one item for each line, in order |
| `EasyTreeParser.ReadTimestamps` | Projects/LastModifiedTimestampsTools/src/lib/lastmodifiedtimestampstools.cpp:93-142 | the entries of all lines in order; empty lines and lines that cannot be parsed are passed over |
| `EasyTreeParser.StampsAppend` | Projects/LastModifiedTimestampsTools/src/lib/lastmodifiedtimestampstools.cpp:93-142 | every line counts by itself: no line, good or bad, changes what is read off the others |
| `EasyTreeParser.StampInItsPlace` | Projects/LastModifiedTimestampsTools/src/lib/lastmodifiedtimestampstools.cpp:93-142 | a printed timestamp among any lines is read at its place |
| `EasyTreeParser.BadLineIsPassedOver` | Projects/LastModifiedTimestampsTools/src/lib/lastmodifiedtimestampstools.cpp:93-142 | a line without a colon, or a printed one whose path is empty or ends in a backslash, might as well not be there |
| `RecyclingQueue.RecyclingRefinesSimple` | GloballySharedClasses/threading/lockfreequeueofsharedptrs.h:13-95 | under every interleaving of thread steps the recycling queue keeps its invariant and shows exactly the calls, returns, and moments at which items enter and leave that the simple queue shows in an interleaving of its own |
| `RecyclingQueue.EveryRunIsAQueue` | GloballySharedClasses/threading/lockfreequeueofsharedptrs.h:46-95 | from the empty queue, under every interleaving: the simple queue can show the same, what entered is what left followed by what is queued, pops find the queue empty only when it is, and every thread's history is a sequence of whole calls |
| `RecyclingQueue.StepRefines` | GloballySharedClasses/threading/lockfreequeueofsharedptrs.h:55-94 | each step of the recycling queue is one step of the simple one or, when it handles an empty cell, none |
| `RecyclingQueue.StepKeepsInv` | GloballySharedClasses/threading/lockfreequeueofsharedptrs.h:55-94 | every cell is in exactly one of main queue, recycle queue and one thread's hand; recycled cells own nothing; queued cells own an item |
| `RecyclingQueue.NoStepIsMissing` | GloballySharedClasses/threading/lockfreequeueofsharedptrs.h:55-94 | no thread ever reads, empties or deletes a cell that is gone or that a queue or another thread has |
| `RecyclingQueue.ReferencesAreAccountedFor` | GloballySharedClasses/threading/lockfreequeueofsharedptrs.h:55-94 | a cell owns a reference if and only if it is queued or in a hand that is still pushing or copying |
| `RecyclingQueue.RunIsFifo` | GloballySharedClasses/threading/lockfreequeueofsharedptrs.h:55-94 | over every run, what was queued and what entered is what left followed by what is queued |
| `RecyclingQueue.EveryRunReplays` | GloballySharedClasses/threading/lockfreequeueofsharedptrs.h:55-94 | under every interleaving the visible moments are what a list would do: a pop takes the item that entered first and finds the queue empty only when nothing is in it |
| `RecycledCells.StepIff` | GloballySharedClasses/threading/lockfreequeueofsharedptrs.h:55-94 | exactly which steps there are: a new cell only when none is to be recycled, a refusal only from the two boost queues |
| `RecycledCells.EmptiedIsRecycled` | GloballySharedClasses/threading/lockfreequeueofsharedptrs.h:67-92 | an emptied cell goes to the end of the recycle queue, and is deleted only if that refused it |
| `RecycledCells.CellsChange` | GloballySharedClasses/threading/lockfreequeueofsharedptrs.h:58-92 | the cells that are allocated change only by the one that is made or deleted |
| `RecycledCells.CellsAreCounted` | GloballySharedClasses/threading/lockfreequeueofsharedptrs.h:55-94 | as many cells are allocated as there are in the main queue, in the recycle queue and in the hands of threads together |
| `RecycledCells.NoMoreCellsThanNeeded` | GloballySharedClasses/threading/lockfreequeueofsharedptrs.h:55-94 | over every run there are never more cells than at its start, or than the longest main queue and the number of threads together |
| `RecycledCells.NothingIsDeleted` | GloballySharedClasses/threading/lockfreequeueofsharedptrs.h:55-94 | over every run in which the recycle queue refuses nothing, no cell is deleted: those at the end are those of the start and those that were made |
| `RecyclingQueue.EveryCallIsWhole` | GloballySharedClasses/threading/lockfreequeueofsharedptrs.h:55-94 | under every interleaving every thread's history is a sequence of whole calls: a push enters its own item once and before it returns true, and none if it returns false; a pop returns the very item that left the queue for it; so, with RunIsFifo, all calls seem to happen at single moments between their beginning and end |
| `SharedPtrQueue.SimpleQueue.Push` | GloballySharedClasses/threading/lockfreequeueofsharedptrs.h:21-30 | the item is behind all others, or nothing changed when there was no room |
| `SharedPtrQueue.SimpleQueue.Pop` | GloballySharedClasses/threading/lockfreequeueofsharedptrs.h:31-41 | the first item, or none from an empty queue |
| `SharedPtrQueue.RecyclingSharedPtrQueue.Push` | GloballySharedClasses/threading/lockfreequeueofsharedptrs.h:55-79 | as the simple queue, whether the cell is recycled or new and wherever there is room; the first recycled cell is used if there is one, and a rejected cell is recycled if there is room for it |
| `SharedPtrQueue.RecyclingSharedPtrQueue.Pop` | GloballySharedClasses/threading/lockfreequeueofsharedptrs.h:80-94 | as the simple queue; the cell is emptied before it is recycled, and is then the last to be used again |
| `Satoshi.SatoshiRoundTrip` | Solutions/Abc2couchbaseKeyAndJsonDefines/abc2couchbaseandjsonkeydefines.h:17-18 | every amount of up to ten to the fifteenth satoshis in magnitude, negative ones too, survives being a double, with every operation rounded by a relative error of up to two to the minus 53 |
| `Satoshi.RoundsToNearest` | Solutions/Abc2couchbaseKeyAndJsonDefines/abc2couchbaseandjsonkeydefines.h:17 | any double at all is turned into the nearest whole number of satoshis, but for the error of two roundings |
| `Satoshi.WholeBitcoins` | Solutions/Abc2couchbaseKeyAndJsonDefines/abc2couchbaseandjsonkeydefines.h:18 | a whole number of bitcoins is that double exactly, with one hundred million satoshis to the bitcoin |
| `Satoshi.FeeWithinOneSatoshi` | Solutions/Abc2couchbaseKeyAndJsonDefines/abc2couchbaseandjsonkeydefines.h:29-37 | the 1.5 percent fee is within one satoshi of the exact fee rounded up; up to seven million bitcoins it is never too small, and it is the exact one unless the amount is a multiple of 200 satoshis |
| `Satoshi.RoundsUp` | Solutions/Abc2couchbaseKeyAndJsonDefines/abc2couchbaseandjsonkeydefines.h:34 | for any double of either sign rounding up loses nothing and adds less than a satoshi, but for the error of three roundings |
| `Satoshi.FeeReadsBack` | Solutions/Abc2couchbaseKeyAndJsonDefines/abc2couchbaseandjsonkeydefines.h:34-37 | the fee that is returned as a double reads back as exactly the satoshis it was rounded up to |

## Left out

Project files:

- Blank member names: opening gives a member that was saved with a blank name a generated one; `CleanMember` shuts such members out. So it does members of class type in implicitly shared types, which opening refuses, and types whose qualified names do not split at the type's name.
- Calls of private methods and private method arguments as context variables: opening would look them up in an empty list. They are no statements of the model.
- Ownership of arguments, positions of types defined elsewhere and the undo state of the diagrams: not saved.
- Streams are sequences of tokens, one for each operator<<, not bytes; malformed version 1 files are not modelled, other versions are.
- Opening is modelled into a project without types, as the program does it.
- FirstCharacterToUpper: ASCII letters only.

C++ edit mode and connect:

- Lines are the unit of files; line endings and encodings are not modelled. Trimming and lower-casing know ASCII only.
- The text of statements, headers, declarations and connect lines is given as lines or as the objects it names; how it is spelled is not modelled. Slots hold their statements by value, so an inserted chunk is not a heap object of its own.
- EditsAreInterleaved: asks that no two class names agree after lower-casing, because such classes share one source file; `FilesComeBackIff` is the exact condition, and `SharedFileIsImportedTwice` shows what happens to the slots otherwise.
- Opening the editor and its exit code.

Motion detector:

- The pixel formats; alpha is always opaque, so drawing the cursor replaces its block. Mouse positions and the inactivity timer.

Stream readers:

- The checksum is any function to 32 characters without a comma; MD5 itself is not part of this model.
- toInt on a field with an embedded zero byte, and getChar failing while bytes are available.
- More than 2^31 bytes available at once.
- Declared sizes below one are modelled, but the round trips ask for bodies that are not empty.

Registry and handshake:

- Socket wiring, close, deleteLater, the bytes of hello and welcome messages, and the client's side of the handshake.
- The values of generateCookie and the random numbers are parameters.
- A call that never ends is modelled as one that is still going on when all the values generateCookie has to offer are used up; the stack it needs meanwhile is not modelled.
- Requests before the end of the hello: the code lets them through, so nothing is claimed.
- EveryRunIsFair: holds for runs in which connections are announced only while they are not listed; the handler itself does not check this.

EasyTree:

- MD5 sums of files, file access and the directory listing; a tree of entries is given, its root path canonical.
- ReadQint64: decimal numbers; other bases and overflow are not modelled. Conversions of texts to numbers skip the white space of ASCII.
- FileComesBackIff: for paths without a doubled slash, which no canonical path has.
- Uninitialised fields of an item whose line has no hash are read as no hash.

Queue and satoshis:

- Memory reclamation inside boost's lock-free queues; a push or pop on them is one step.
- A rounding is any function with a relative error of at most 2^-53 that keeps whole numbers of up to 2^53 in magnitude (section 4.3 of IEEE 754-2008); subnormal numbers and overflow, which cannot occur at the amounts in question, are not modelled. Conversions to and from strings are left to their libraries.

SSL, database, video, git and widget code is foreign code or input and output. String key builders, counters and clamping would only add easy members.
