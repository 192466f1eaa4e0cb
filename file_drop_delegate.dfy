/** The drop handler of a slot (SandboxBundler/Classes/FileDropDelegate.swift).
    It writes two pieces of the slot's state: the file dropped on it and
    whether a drag is hovering over it. Whether the file is readable and what
    the file inspector answered are inputs. */
module FileDropDelegates {
  import opened Wrappers
  import opened Architectures
  import opened FileManagerExtension
  import Droppables

  /** What the drop brought: no file item at all, or an item whose loading
      produced a location or failed to. */
  datatype Delivery = NoProvider | Loaded(url: Option<Url>)

  /** The file the slot holds after `handle(url:)`, given the one it held
      before, whether the file can be read and what the inspector answered. */
  function Handled(current: Option<BinaryFile>, url: Url, readable: bool,
                   probe: Result<string, string>): (r: Option<BinaryFile>)
  {
    if !readable then current
    else
      match GetArchitectures(probe)
      case Success(archs) => Some(BinaryFile(Some(url), archs))
      case Failure(message) => Some(BinaryFile(Some(url), Invalid(message)))
  }

  /** An unreadable file leaves the slot as it was. */
  lemma UnreadableKeepsFile(current: Option<BinaryFile>, url: Url, probe: Result<string, string>)
    ensures Handled(current, url, false, probe) == current
  {
  }

  /** A readable file always ends up in the slot, with its own location; its
      tag is the classification of the inspector's output, or an invalid tag
      carrying the inspector's error description. */
  lemma ReadableFileLands(current: Option<BinaryFile>, url: Url, probe: Result<string, string>)
    ensures Handled(current, url, true, probe).Some?
    ensures Handled(current, url, true, probe).value.url == Some(url)
    ensures probe.Success? ==>
      Handled(current, url, true, probe).value.architecture == Classify(probe.value)
    ensures probe.Failure? ==>
      Handled(current, url, true, probe).value.architecture == Invalid(probe.error)
  {
  }

  /** After a readable file is handled, what was there before is forgotten:
      the slot depends only on the new file. */
  lemma ReadableForgetsPrevious(a: Option<BinaryFile>, b: Option<BinaryFile>, url: Url,
                                probe: Result<string, string>)
    ensures Handled(a, url, true, probe) == Handled(b, url, true, probe)
  {
  }

  /** The file handled in a slot is flagged there exactly when the
      inspector raised an error, the slot's tag is invalid, or the output is
      classified as another tag; its own tag is invalid exactly when the
      inspector raised an error or showed no marker. */
  lemma HandledAgainstSlot(slot: Architecture, current: Option<BinaryFile>, url: Url,
                           probe: Result<string, string>)
    ensures var f := Handled(current, url, true, probe);
      IsInvalid(f.value.architecture) <==>
        probe.Failure? || IsInvalid(Classify(probe.value))
    ensures Droppables.IsInvalid(slot, Handled(current, url, true, probe)) <==>
      probe.Failure? || IsInvalid(slot) || Classify(probe.value) != slot
  {
    ReadableFileLands(current, url, probe);
  }

  class FileDropDelegate {
    var binaryFile: Option<BinaryFile>
    var isDropping: bool

    constructor (binaryFile: Option<BinaryFile>, isDropping: bool)
      ensures this.binaryFile == binaryFile && this.isDropping == isDropping
    {
      this.binaryFile := binaryFile;
      this.isDropping := isDropping;
    }

    /** A drag has entered the slot. */
    method DropEntered()
      modifies this`isDropping
      ensures isDropping
      ensures binaryFile == old(binaryFile)
    {
      isDropping := true;
    }

    /** A drag has left the slot. */
    method DropExited()
      modifies this`isDropping
      ensures !isDropping
      ensures binaryFile == old(binaryFile)
    {
      isDropping := false;
    }

    /** Takes a file into the slot if it can be read. */
    method Handle(url: Url, readable: bool, probe: Result<string, string>)
      modifies this`binaryFile
      ensures binaryFile == Handled(old(binaryFile), url, readable, probe)
      ensures isDropping == old(isDropping)
    {
      if !readable {
        return;
      }
      var archs := GetArchitectures(probe);
      match archs
      case Success(a) =>
        binaryFile := Some(BinaryFile(Some(url), a));
      case Failure(message) =>
        binaryFile := Some(BinaryFile(Some(url), Invalid(message)));
    }

    /** Accepts a drop. Once the item has loaded, the hover state is cleared
        and the loaded location, if any, is handled; without an item nothing
        changes. The drop is always reported as accepted. */
    method PerformDrop(delivery: Delivery, readable: bool, probe: Result<string, string>)
      returns (accepted: bool)
      modifies this
      ensures accepted
      ensures delivery.NoProvider? ==>
        binaryFile == old(binaryFile) && isDropping == old(isDropping)
      ensures delivery.Loaded? ==> !isDropping
      ensures delivery.Loaded? && delivery.url.None? ==> binaryFile == old(binaryFile)
      ensures delivery.Loaded? && delivery.url.Some? ==>
        binaryFile == Handled(old(binaryFile), delivery.url.value, readable, probe)
    {
      if delivery.Loaded? {
        isDropping := false;
        if delivery.url.Some? {
          Handle(delivery.url.value, readable, probe);
        }
      }
      accepted := true;
    }
  }
}
