/** The architecture tag of a dropped executable and the texts the user
    interface derives from it (SandboxBundler/Classes/Architecture.swift). */
module Architectures {
  import opened Wrappers

  /** One of the three architectures the application can bundle, or a tag
      carrying the diagnostic text that explains why none was recognised. */
  datatype Architecture = Arm64 | Intel64 | Universal | Invalid(diagnostic: string)

  /** The text every invalid tag's titles start with. */
  const InvalidPrefix: string := "Invalid architecture: "

  /** The text every valid tag's drop prompt starts with. */
  const DropPrompt: string := "Drag and drop "

  /** True exactly for the tag that carries a diagnostic. */
  predicate IsInvalid(a: Architecture)
    ensures IsInvalid(a) <==> a != Arm64 && a != Intel64 && a != Universal
  {
    a.Invalid?
  }

  /** None of the fixed texts of the valid tags starts with InvalidPrefix. */
  lemma FixedTextsNotInvalid()
    ensures !(InvalidPrefix <= "Drag and drop an ARM64 binary here")
    ensures !(InvalidPrefix <= "Drag and drop x86_64 binary here")
    ensures !(InvalidPrefix <= "Drag and drop a binary here")
    ensures !(InvalidPrefix <= "Universal binary")
    ensures !(InvalidPrefix <= "Arm64 binary")
    ensures !(InvalidPrefix <= "x86_64 binary")
  {
    assert InvalidPrefix[0] == 'I';
  }

  /** The prompt shown in an empty drop slot that expects `a`. */
  function DragAndDropTitle(a: Architecture): (r: string)
    ensures IsInvalid(a) ==> r == Title(a)
    ensures !IsInvalid(a) ==> DropPrompt <= r
    ensures InvalidPrefix <= r <==> IsInvalid(a)
  {
    FixedTextsNotInvalid();
    match a
    case Arm64 => "Drag and drop an ARM64 binary here"
    case Intel64 => "Drag and drop x86_64 binary here"
    case Universal => "Drag and drop a binary here"
    case Invalid(archs) => InvalidPrefix + archs
  }

  /** The name of `a` shown once a file has been classified. A title starts
      with InvalidPrefix exactly when the tag is invalid, and then the rest of
      it is the diagnostic, verbatim. */
  function Title(a: Architecture): (r: string)
    ensures InvalidPrefix <= r <==> IsInvalid(a)
    ensures IsInvalid(a) ==> r[|InvalidPrefix|..] == a.diagnostic
  {
    FixedTextsNotInvalid();
    match a
    case Universal => "Universal binary"
    case Arm64 => "Arm64 binary"
    case Intel64 => "x86_64 binary"
    case Invalid(arch) => InvalidPrefix + arch
  }

  /** Reads a tag back from a title; None for a text no tag has as title. */
  function ParseTitle(t: string): (r: Option<Architecture>)
  {
    if t == "Universal binary" then Some(Universal)
    else if t == "Arm64 binary" then Some(Arm64)
    else if t == "x86_64 binary" then Some(Intel64)
    else if InvalidPrefix <= t then Some(Invalid(t[|InvalidPrefix|..]))
    else None
  }

  /** A title determines its tag: ParseTitle inverts Title. */
  lemma TitleRoundTrip(a: Architecture)
    ensures ParseTitle(Title(a)) == Some(a)
  {
  }

  /** Different tags have different titles: the three fixed names are
      pairwise distinct, none of them looks like an invalid title, and two
      invalid titles differ when their diagnostics differ. */
  lemma TitleInjective(a: Architecture, b: Architecture)
    requires Title(a) == Title(b)
    ensures a == b
  {
  }

  /** On an invalid tag the drop prompt and the title are the same text. */
  lemma InvalidTitlesCoincide(s: string)
    ensures DragAndDropTitle(Invalid(s)) == Title(Invalid(s)) == InvalidPrefix + s
  {
  }
}
