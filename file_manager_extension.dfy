/** Classification of an executable by the text that the system's file
    inspector prints about it (SandboxBundler/Classes/FileManager+Extension.swift).
    Running the inspector is not modelled: its printed text, or the error it
    raised, is the input. */
module FileManagerExtension {
  import opened Wrappers
  import opened Architectures

  /** A file location. `lastPathComponent` is computed by Foundation from the
      path; here it is carried alongside the path as given. */
  datatype Url = Url(path: string, lastPathComponent: string)

  /** A chosen executable and the architecture it was classified as. */
  datatype BinaryFile = BinaryFile(url: Option<Url>, architecture: Architecture)

  /** What the inspector prints for an Intel 64-bit executable. */
  const IntelMarker: string := "Mach-O 64-bit executable x86_64"

  /** What the inspector prints for a two-slice universal executable:
      "Mach-O universal binary with 2 architectures: [x86_64:Mach-O 64-bit executable x86_64] [arm64]",
      written here around the Intel marker it contains. */
  const UniversalMarker: string :=
    "Mach-O universal binary with 2 architectures: [x86_64:" + IntelMarker + "] [arm64]"

  /** What the inspector prints for an ARM 64-bit executable. */
  const ArmMarker: string := "Mach-O 64-bit executable arm64"

  /** `pattern` occurs as a contiguous run of characters somewhere in `text`. */
  predicate Contains(text: string, pattern: string)
    decreases |text|
  {
    pattern <= text || (text != [] && Contains(text[1..], pattern))
  }

  /** `pattern` occurs in `text` starting at position `i`. */
  predicate OccursAt(text: string, pattern: string, i: nat)
  {
    i + |pattern| <= |text| && text[i..i + |pattern|] == pattern
  }

  /** Contains holds exactly when the pattern occurs at some position. */
  lemma {:induction false} ContainsIffOccurs(text: string, pattern: string)
    ensures Contains(text, pattern) <==> exists i: nat :: OccursAt(text, pattern, i)
    decreases |text|
  {
    if Contains(text, pattern) {
      if pattern <= text {
        assert OccursAt(text, pattern, 0);
      } else {
        ContainsIffOccurs(text[1..], pattern);
        var j: nat :| OccursAt(text[1..], pattern, j);
        assert text[j + 1..j + 1 + |pattern|] == text[1..][j..j + |pattern|];
        assert OccursAt(text, pattern, j + 1);
      }
    }
    if exists i: nat :: OccursAt(text, pattern, i) {
      var i: nat :| OccursAt(text, pattern, i);
      ContainsAt(text, pattern, i);
    }
  }

  /** An occurrence at any position makes Contains hold. */
  lemma {:induction false} ContainsAt(text: string, pattern: string, i: nat)
    requires i + |pattern| <= |text| && text[i..i + |pattern|] == pattern
    ensures Contains(text, pattern)
    decreases i
  {
    if i > 0 {
      assert text[1..][i - 1..i - 1 + |pattern|] == pattern;
      ContainsAt(text[1..], pattern, i - 1);
    }
  }

  /** A text contains each of its infixes. */
  lemma {:induction false} ContainsInfix(before: string, pattern: string, after: string)
    ensures Contains(before + pattern + after, pattern)
  {
    var text := before + pattern + after;
    assert text[|before|..|before| + |pattern|] == pattern;
    ContainsAt(text, pattern, |before|);
  }

  /** A text contains what any of its prefixes contains. */
  lemma {:induction false} ContainsInPrefix(prefix: string, text: string, pattern: string)
    requires prefix <= text && Contains(prefix, pattern)
    ensures Contains(text, pattern)
    decreases |prefix|
  {
    if !(pattern <= prefix) {
      ContainsInPrefix(prefix[1..], text[1..], pattern);
    }
  }

  /** Containment is transitive. */
  lemma {:induction false} ContainsTransitive(text: string, middle: string, pattern: string)
    requires Contains(text, middle) && Contains(middle, pattern)
    ensures Contains(text, pattern)
    decreases |text|
  {
    if middle <= text {
      ContainsInPrefix(middle, text, pattern);
    } else {
      ContainsTransitive(text[1..], middle, pattern);
    }
  }

  /** A pattern longer than a text does not occur in it. */
  lemma {:induction false} ContainsLength(text: string, pattern: string)
    requires Contains(text, pattern)
    ensures |pattern| <= |text|
    decreases |text|
  {
    if !(pattern <= text) {
      ContainsLength(text[1..], pattern);
    }
  }

  /** The universal marker spells out the Intel marker inside it, so any
      output that shows the universal marker shows the Intel marker too. */
  lemma UniversalMarkerShowsIntel(output: string)
    requires Contains(output, UniversalMarker)
    ensures Contains(output, IntelMarker)
  {
    ContainsInfix("Mach-O universal binary with 2 architectures: [x86_64:", IntelMarker, "] [arm64]");
    ContainsTransitive(output, UniversalMarker, IntelMarker);
  }

  /** The architecture the inspector's output describes: the three markers are
      tried in order universal, Intel, ARM, and an output showing none of them
      is kept whole as the diagnostic of an invalid tag. */
  function Classify(output: string): (r: Architecture)
    ensures !IsInvalid(r) ==> Contains(output, MarkerOf(r))
    ensures !IsInvalid(r) ==>
      forall b: Architecture :: !IsInvalid(b) && Priority(b) < Priority(r) ==> !Contains(output, MarkerOf(b))
    ensures IsInvalid(r) <==> forall b: Architecture :: !IsInvalid(b) ==> !Contains(output, MarkerOf(b))
    ensures IsInvalid(r) ==> r.diagnostic == output
  {
    if Contains(output, UniversalMarker) then Universal
    else if Contains(output, IntelMarker) then Intel64
    else if Contains(output, ArmMarker) then Arm64
    else Invalid(output)
  }

  /** The marker that identifies each valid tag in the inspector's output. */
  function MarkerOf(a: Architecture): (m: string)
    requires !IsInvalid(a)
    ensures m in {UniversalMarker, IntelMarker, ArmMarker}
  {
    match a
    case Universal => UniversalMarker
    case Intel64 => IntelMarker
    case Arm64 => ArmMarker
  }

  /** Rank of a valid tag among the markers: lower is tried first. */
  function Priority(a: Architecture): (p: nat)
    requires !IsInvalid(a)
    ensures p < 3
  {
    match a
    case Universal => 0
    case Intel64 => 1
    case Arm64 => 2
  }

  /** Classify gives a valid tag exactly when the output shows that tag's
      marker and the marker of no tag tried before it. */
  lemma {:induction false} ClassifyValid(output: string, a: Architecture)
    requires !IsInvalid(a)
    ensures Classify(output) == a <==>
      Contains(output, MarkerOf(a)) &&
      forall b: Architecture :: !IsInvalid(b) && Priority(b) < Priority(a) ==> !Contains(output, MarkerOf(b))
  {
    if Classify(output) == a {
      forall b: Architecture | !IsInvalid(b) && Priority(b) < Priority(a)
        ensures !Contains(output, MarkerOf(b))
      {
        assert b == Universal || b == Intel64;
      }
    } else if Contains(output, MarkerOf(a)) {
      match a
      case Universal =>
      case Intel64 =>
        assert Priority(Universal) < Priority(a) && Contains(output, MarkerOf(Universal));
      case Arm64 =>
        if Contains(output, UniversalMarker) {
          assert Priority(Universal) < Priority(a) && Contains(output, MarkerOf(Universal));
        } else {
          assert Priority(Intel64) < Priority(a) && Contains(output, MarkerOf(Intel64));
        }
    }
  }

  /** An output showing the universal marker is universal, although it shows
      the Intel marker as well. */
  lemma UniversalWins(output: string)
    requires Contains(output, UniversalMarker)
    ensures Contains(output, IntelMarker)
    ensures Classify(output) == Universal
  {
    UniversalMarkerShowsIntel(output);
  }

  /** Without the universal marker, the Intel marker decides, whether or not
      the ARM marker is shown too. */
  lemma IntelBeatsArm(output: string)
    requires !Contains(output, UniversalMarker) && Contains(output, IntelMarker)
    ensures Classify(output) == Intel64
  {
  }

  /** ARM is the answer only when the ARM marker is the only marker shown. */
  lemma ArmOnlyAlone(output: string)
    ensures Classify(output) == Arm64 <==>
      Contains(output, ArmMarker) && !Contains(output, IntelMarker) && !Contains(output, UniversalMarker)
  {
  }

  /** The result is invalid exactly when no marker is shown, and then its
      diagnostic is the whole output, unmodified. */
  lemma ClassifyInvalid(output: string)
    ensures IsInvalid(Classify(output)) <==>
      !Contains(output, UniversalMarker) && !Contains(output, IntelMarker) && !Contains(output, ArmMarker)
    ensures IsInvalid(Classify(output)) ==> Classify(output).diagnostic == output
  {
  }

  /** Each marker on its own, and an empty output, are classified as their
      own tag and as invalid respectively. */
  lemma {:induction false} KnownOutputs()
    ensures Classify(UniversalMarker) == Universal
    ensures Classify(IntelMarker) == Intel64
    ensures Classify(ArmMarker) == Arm64
    ensures Classify("") == Invalid("")
  {
    assert Contains(IntelMarker, IntelMarker) && Contains(ArmMarker, ArmMarker);
    if Contains(IntelMarker, UniversalMarker) { ContainsLength(IntelMarker, UniversalMarker); }
    if Contains(ArmMarker, UniversalMarker) { ContainsLength(ArmMarker, UniversalMarker); }
    if Contains(ArmMarker, IntelMarker) { ContainsLength(ArmMarker, IntelMarker); }
    if Contains("", UniversalMarker) { ContainsLength("", UniversalMarker); }
    if Contains("", IntelMarker) { ContainsLength("", IntelMarker); }
    if Contains("", ArmMarker) { ContainsLength("", ArmMarker); }
  }

  /** The inspector either printed an output or raised an error whose
      description is given. Only that error is raised: the classification
      itself always gives a tag. */
  function GetArchitectures(probe: Result<string, string>): (r: Result<Architecture, string>)
    ensures r.Failure? <==> probe.Failure?
    ensures probe.Failure? ==> r.error == probe.error
    ensures probe.Success? ==> r.value == Classify(probe.value)
  {
    match probe
    case Success(output) => Success(Classify(output))
    case Failure(message) => Failure(message)
  }
}
