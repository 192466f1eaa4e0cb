# SandboxBundler decisions, modelled in Dafny

SandboxBundler is a macOS application into which a user drops one or two
Mach-O executables, each on a slot that expects one architecture. Code to
merge them into a universal binary and to sign the result ad hoc exists
(`combineBinaries` and `codesign` in SandboxBundler/Classes/Bundler.swift),
but no user-interface path calls it yet. This project models the part of the
application that decides things:

- `architecture.dfy` — the architecture tag (`Arm64`, `Intel64`, `Universal`,
  `Invalid(diagnostic)`) with its drop prompt, its title and `IsInvalid`.
  The title of a tag determines the tag (`ParseTitle` inverts `Title`).
- `file_manager_extension.dfy` — the classifier. It reads the text printed by
  `/usr/bin/file -b` and looks for three fixed markers in priority order:
  universal, then x86_64, then arm64. `Contains` is substring occurrence on
  `seq<char>`. The universal marker itself contains the x86_64 marker, and a
  lemma proves it, which is why the order matters. `GetArchitectures` adds the
  one failure path, an error raised while running the tool.
- `droppable.dfy` — a drop slot expects one architecture. It flags a
  dropped file that does not match, and from the slot's tag and the optional
  file it computes the description text, the overlay text, the fill colour
  and the text colour.
- `file_drop_delegate.dfy` — the drop handler as a class. It has the two
  fields that the handler writes through its bindings, `binaryFile` and
  `isDropping`. `Handled` is the specification of `handle(url:)`, and the
  lemmas about it state what a drop leaves behind.

Inputs that come from the operating system are parameters:
- whether the file is readable (a `bool`);
- what the file tool printed, or the description of the error it raised (a
  `Result<string, string>`);
- what the drag item delivered (`Delivery`);
- a URL's last path component (a field of `Url`).

The application has no export validation: the export button's action is
empty (SandboxBundler/ContentView.swift:62-64), so none is modelled.

`BinaryFile` (SandboxBundler/Classes/FileManager+Extension.swift:11-14) is a
datatype of an optional `Url` and an `Architecture`. It has no operations of
its own; the members below that build or read it carry its properties.

## Model

| member | source | states |
|---|---|---|
| Architectures.IsInvalid | SandboxBundler/Classes/Architecture.swift:39-44 | true exactly for the invalid tag; false for arm64, intel64 and universal |
| Architectures.DragAndDropTitle | SandboxBundler/Classes/Architecture.swift:14-25 | on an invalid tag it equals the title; every valid tag's prompt starts with "Drag and drop "; the prompt starts with "Invalid architecture: " exactly when the tag is invalid |
| Architectures.Title | SandboxBundler/Classes/Architecture.swift:27-38 | a title starts with "Invalid architecture: " exactly when the tag is invalid, and then the rest of it is the diagnostic verbatim |
| Architectures.TitleRoundTrip | SandboxBundler/Classes/Architecture.swift:27-38 | reading a tag back from its title gives the same tag |
| Architectures.TitleInjective | SandboxBundler/Classes/Architecture.swift:28-36 | equal titles mean equal tags: the three fixed titles are pairwise distinct, none looks invalid, and different diagnostics give different titles |
| Architectures.InvalidTitlesCoincide | SandboxBundler/Classes/Architecture.swift:22-36 | on `Invalid(s)` the prompt and the title are both "Invalid architecture: " + s |
| FileManagerExtension.ContainsIffOccurs | SandboxBundler/Classes/FileManager+Extension.swift:21-25 | `Contains`, the model of the `contains` test on the output, holds exactly when the marker occurs in the output at some position |
| FileManagerExtension.Classify | SandboxBundler/Classes/FileManager+Extension.swift:21-28 | a valid result's marker is present and no marker of higher priority is; the result is invalid exactly when no marker is present, and then its diagnostic is the whole output |
| FileManagerExtension.UniversalMarkerShowsIntel | SandboxBundler/Classes/FileManager+Extension.swift:21-24 | any output containing the universal marker also contains the x86_64 marker |
| FileManagerExtension.UniversalWins | SandboxBundler/Classes/FileManager+Extension.swift:21-22 | an output containing the universal marker is universal, although it also contains the x86_64 marker |
| FileManagerExtension.IntelBeatsArm | SandboxBundler/Classes/FileManager+Extension.swift:23-24 | without the universal marker, the x86_64 marker gives intel64 even if the arm64 marker is present too |
| FileManagerExtension.ArmOnlyAlone | SandboxBundler/Classes/FileManager+Extension.swift:25-26 | arm64 is the result exactly when the output contains the arm64 marker and neither earlier marker |
| FileManagerExtension.ClassifyValid | SandboxBundler/Classes/FileManager+Extension.swift:21-28 | a valid tag is the result exactly when its marker is present and no marker of higher priority is present |
| FileManagerExtension.ClassifyInvalid | SandboxBundler/Classes/FileManager+Extension.swift:21-28 | the result is invalid exactly when no marker is present, and its diagnostic is then the whole output, unmodified |
| FileManagerExtension.KnownOutputs | SandboxBundler/Classes/FileManager+Extension.swift:21-28 | each marker alone is classified as its own tag; an empty output is invalid with an empty diagnostic |
| FileManagerExtension.GetArchitectures | SandboxBundler/Classes/FileManager+Extension.swift:17-29 | fails exactly when running the tool failed, with that error; otherwise gives the classification of the printed output |
| Droppables.IsInvalid | SandboxBundler/Classes/Droppable.swift:70-78 | an empty slot is never flagged; a present file is unflagged exactly when the slot is valid and the file has the slot's tag |
| Droppables.InvalidFileAlwaysFlagged | SandboxBundler/Classes/Droppable.swift:72-77 | a file with an invalid tag is flagged in every slot, including an invalid slot with the same diagnostic |
| Droppables.ValidTagsMismatch | SandboxBundler/Classes/Droppable.swift:72-76 | two different valid tags are a mismatch, shown in red |
| Droppables.ClassifiedFileMatches | SandboxBundler/Classes/Droppable.swift:70-78 | a file classified from an output matches a slot exactly when the slot is valid and the output is classified as the slot's tag |
| Droppables.ArchTitle | SandboxBundler/Classes/Droppable.swift:61-68 | empty without a file; "Expecting: " + slot title + ".\n Got: " + file title on a mismatch; file title + ".\n" + last path component (or "") on a match |
| Droppables.ArchTitleRevealsMismatch | SandboxBundler/Classes/Droppable.swift:61-68 | a present file's description starts with "Expecting: " exactly when the file is flagged |
| Droppables.ArchTitleShowsFileTitle | SandboxBundler/Classes/Droppable.swift:61-68 | a present file's description is non-empty and contains the file's own title |
| Droppables.OverlayTitle | SandboxBundler/Classes/Droppable.swift:45-51 | the slot's drop prompt while empty, the file's description once a file is present |
| Droppables.FillColorOf | SandboxBundler/Classes/Droppable.swift:53-59 | gray exactly when empty, red exactly when the file is flagged, green exactly when the file has the slot's valid tag |
| Droppables.OverlayTextColor | SandboxBundler/Classes/Droppable.swift:41-43 | white exactly when a file is present, black otherwise |
| FileDropDelegates.UnreadableKeepsFile | SandboxBundler/Classes/FileDropDelegate.swift:37 | handling an unreadable file leaves the slot's file unchanged |
| FileDropDelegates.ReadableFileLands | SandboxBundler/Classes/FileDropDelegate.swift:38-44 | after a readable file is handled the slot holds a file with that url; its tag is the classification, or `Invalid` of the error description when the tool failed |
| FileDropDelegates.ReadableForgetsPrevious | SandboxBundler/Classes/FileDropDelegate.swift:39-43 | after a readable file is handled, the slot's file does not depend on what it held before |
| FileDropDelegates.HandledAgainstSlot | SandboxBundler/Classes/FileDropDelegate.swift:38-44 | the handled file is flagged in a slot exactly when the tool failed, the slot is invalid, or the output is classified as another tag; its own tag is invalid exactly when the tool failed or its output showed no marker |
| FileDropDelegates.FileDropDelegate.constructor | SandboxBundler/Classes/FileDropDelegate.swift:11-13 | the handler starts from the slot's two current values |
| FileDropDelegates.FileDropDelegate.DropEntered | SandboxBundler/Classes/FileDropDelegate.swift:28-30 | sets `isDropping`, leaves the file unchanged |
| FileDropDelegates.FileDropDelegate.DropExited | SandboxBundler/Classes/FileDropDelegate.swift:32-34 | clears `isDropping`, leaves the file unchanged |
| FileDropDelegates.FileDropDelegate.Handle | SandboxBundler/Classes/FileDropDelegate.swift:36-45 | the new file is `Handled` of the old one; `isDropping` is unchanged |
| FileDropDelegates.FileDropDelegate.PerformDrop | SandboxBundler/Classes/FileDropDelegate.swift:15-26 | always accepts; without an item nothing changes; once the item loads `isDropping` is cleared; a missing url leaves the file unchanged, and a present one is handled |

## Left out

- Running `/usr/bin/file`, `/usr/bin/lipo` and `/usr/bin/codesign` is not modelled. The file tool's printed text, or the error it raised, is an input to `GetArchitectures`.
- SandboxBundler/Classes/Bundler.swift is not part of this model. It only builds argument lists for the merging and signing tools and relays their failures.
- SandboxBundler/Classes/BundlerError.swift is not part of this model. It is a title and message record with no logic.
- SandboxBundler/ContentView.swift and SandboxBundler/SandboxBundlerApp.swift are layout and bootstrap. ContentView.swift also holds its own copies of the slot, the drop handler, the classifier and the tag. They differ in two behaviours. First, the copy of the slot attaches the drop handler only while the slot is empty (SandboxBundler/ContentView.swift:79-111), so a filled slot ignores further drops. Second, it has no tap gesture, so it has no file-picker path (compare SandboxBundler/Classes/Droppable.swift:36-38). The model follows SandboxBundler/Classes/Droppable.swift:29-35, where the handler is always attached and a new drop replaces the file.
- `selectInputFolder` is not modelled. It is the file-picker path of a slot and uses an open panel.
- The slot's blue border while a drag hovers is not modelled, and neither is any colour's opacity.
- `PerformDrop`: the item's loading and the handling that follows run asynchronously in the source. The model applies their effect inside the call. An interleaving with other drag events is not captured.
- `PerformDrop`: when there are several file items, only the first is used. `Delivery` describes that first item.
- Strings are sequences of characters. Swift's comparison by grapheme clusters and canonical equivalence is not modelled, so `Contains` is plain substring occurrence. The three markers are ASCII and non-empty, so an empty pattern never arises.
- `Url`: `lastPathComponent` is carried as given rather than computed from the path.
- The error description produced by Foundation (`localizedDescription`) and the `debugPrint` of the error are not modelled. The description is the error value of the input.
- `Classify` is a function of the output alone, so equal outputs give equal tags by construction. No separate lemma states this.
