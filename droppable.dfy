/** The decisions of a drop slot: a slot expects one architecture and shows
    whether the file dropped on it matches (SandboxBundler/Classes/Droppable.swift).
    Colours are named, without their opacity. */
module Droppables {
  import opened Wrappers
  import opened Architectures
  import opened FileManagerExtension

  datatype FillColor = Gray | Red | Green

  datatype TextColor = White | Black

  /** Opening text of the message shown for a mismatched file. */
  const MismatchPrefix: string := "Expecting: "

  /** A file is flagged when it is present and its tag is not the slot's own
      valid tag; an invalid file is flagged in every slot, and an empty slot
      never is. */
  predicate IsInvalid(slot: Architecture, binaryFile: Option<BinaryFile>)
    ensures !IsInvalid(slot, binaryFile) <==>
      binaryFile.None? ||
      (!Architectures.IsInvalid(slot) && binaryFile.value.architecture == slot)
  {
    match binaryFile
    case None => false
    case Some(file) =>
      match (file.architecture, slot)
      case (Arm64, Arm64) => false
      case (Intel64, Intel64) => false
      case (Universal, Universal) => false
      case _ => true
  }

  /** The text describing the dropped file: empty without a file, the expected
      and the received titles on a mismatch, and the file's title and name
      otherwise. */
  function ArchTitle(slot: Architecture, binaryFile: Option<BinaryFile>): (r: string)
    ensures binaryFile.None? ==> r == ""
    ensures binaryFile.Some? && IsInvalid(slot, binaryFile) ==>
      r == MismatchPrefix + Title(slot) + ".\n Got: " + Title(binaryFile.value.architecture)
    ensures binaryFile.Some? && !IsInvalid(slot, binaryFile) ==>
      r == Title(binaryFile.value.architecture) + ".\n" +
        (match binaryFile.value.url case Some(u) => u.lastPathComponent case None => "")
  {
    match binaryFile
    case None => ""
    case Some(file) =>
      if IsInvalid(slot, binaryFile) then
        MismatchPrefix + Title(slot) + ".\n Got: " + Title(file.architecture)
      else
        var name := match file.url case Some(u) => u.lastPathComponent case None => "";
        Title(file.architecture) + ".\n" + name
  }

  /** The text in the middle of the slot: the prompt while empty, the file's
      description once a file is present. */
  function OverlayTitle(slot: Architecture, binaryFile: Option<BinaryFile>): (r: string)
    ensures binaryFile.None? ==> r == DragAndDropTitle(slot)
    ensures binaryFile.Some? ==> r == ArchTitle(slot, binaryFile)
  {
    if binaryFile.Some? then ArchTitle(slot, binaryFile) else DragAndDropTitle(slot)
  }

  /** The slot's colour: gray while empty, red for a flagged file, green for
      a matching one. */
  function FillColorOf(slot: Architecture, binaryFile: Option<BinaryFile>): (c: FillColor)
    ensures c == Gray <==> binaryFile.None?
    ensures c == Red <==> IsInvalid(slot, binaryFile)
    ensures c == Green <==> binaryFile.Some? && binaryFile.value.architecture == slot && !Architectures.IsInvalid(slot)
  {
    if binaryFile.Some? then
      (if IsInvalid(slot, binaryFile) then Red else Green)
    else
      Gray
  }

  /** The text colour: white on a filled slot, black on an empty one. */
  function OverlayTextColor(binaryFile: Option<BinaryFile>): (c: TextColor)
    ensures c == White <==> binaryFile.Some?
  {
    if binaryFile.Some? then White else Black
  }

  /** A file whose tag is invalid is flagged in every slot, an invalid slot
      included, even one carrying the same diagnostic. */
  lemma InvalidFileAlwaysFlagged(slot: Architecture, url: Option<Url>, diagnostic: string)
    ensures IsInvalid(slot, Some(BinaryFile(url, Invalid(diagnostic))))
  {
  }

  /** The description of a present file reveals a mismatch: it opens with
      MismatchPrefix exactly when the file is flagged. */
  lemma {:induction false} ArchTitleRevealsMismatch(slot: Architecture, file: BinaryFile)
    ensures MismatchPrefix <= ArchTitle(slot, Some(file)) <==> IsInvalid(slot, Some(file))
  {
    var r := ArchTitle(slot, Some(file));
    if !IsInvalid(slot, Some(file)) {
      var t := Title(file.architecture);
      assert t[0] != MismatchPrefix[0] by {
        assert t[0] in {'U', 'A', 'x'};
      }
      assert r[0] == t[0];
    }
  }

  /** A present file is always described by a non-empty text that shows its
      own title: after the expected one on a mismatch, at the start otherwise. */
  lemma {:induction false} ArchTitleShowsFileTitle(slot: Architecture, file: BinaryFile)
    ensures Contains(ArchTitle(slot, Some(file)), Title(file.architecture))
    ensures ArchTitle(slot, Some(file)) != ""
  {
    var t := Title(file.architecture);
    var r := ArchTitle(slot, Some(file));
    if IsInvalid(slot, Some(file)) {
      assert r == (MismatchPrefix + Title(slot) + ".\n Got: ") + t + "";
      ContainsInfix(MismatchPrefix + Title(slot) + ".\n Got: ", t, "");
    } else {
      var rest := r[|t|..];
      assert r == "" + t + rest;
      ContainsInfix("", t, rest);
    }
  }

  /** A file classified from the inspector's output matches a slot exactly
      when the slot is valid and the output is classified as the slot's tag. */
  lemma ClassifiedFileMatches(slot: Architecture, url: Option<Url>, output: string)
    ensures !IsInvalid(slot, Some(BinaryFile(url, Classify(output)))) <==>
      !Architectures.IsInvalid(slot) && Classify(output) == slot
  {
  }

  /** A universal executable is refused by the single-architecture slots, and
      an ARM or Intel executable by the universal slot. */
  lemma ValidTagsMismatch(slot: Architecture, file: BinaryFile)
    requires !Architectures.IsInvalid(slot) && !Architectures.IsInvalid(file.architecture)
    requires slot != file.architecture
    ensures IsInvalid(slot, Some(file)) && FillColorOf(slot, Some(file)) == Red
  {
  }
}
