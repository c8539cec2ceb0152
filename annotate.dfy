/** The pure decisions inside `main` of annotate.py: which embedding route an
    input format takes (lines 49-85) and which JSON file the annotations are
    written to (lines 107-127). Loading the model, embedding, the
    nearest-neighbour search and all file I/O are left out; what they would
    be called with is recorded as data. */
module Annotate {
  import opened Wrappers
  import opened PyList
  import opened PyStr

  datatype AnnotateError =
    | ValueError(message: string)  // an input format none of the branches handles
    | IndexError                   // `split('/')[-2]` on an input without '/'

  /** The configuration values the modelled code reads. */
  datatype Config = Config(input: string, outputPath: Option<string>, k: int)

  /** A call `esm_embed(input[, mode], residue_embeddings=...)`. */
  datatype EsmCall = EsmCall(input: string, mode: Option<string>, residueEmbeddings: bool)

  /** What `embed_queries` reads: the output of the ESM step, or a path. */
  datatype QueriesFrom = EsmOutput | InputPath(path: string)

  /** How one input format is embedded: an optional ESM step, then
      `embed_queries` with its arguments. */
  datatype EmbedPlan = EmbedPlan(
    esm: Option<EsmCall>,
    queriesFrom: QueriesFrom,
    inputFormat: Option<string>,
    representations: string,
    layer: nat,
    paddingValue: int)

  const Representations: string := "representations"
  const EsmLayer: nat := 32
  const PaddingValue: int := 0
  const Unhandled: string := "Program should have crashed by now..."
  /** The argument of `str.strip` on the default-name stem: a SET of characters. */
  const FastaChars: string := ".fasta"
  const SavePrefix: string := "Saving annotations to: "

  /** The formats `main` dispatches on. */
  predicate IsKnownFormat(fmt: string)
  {
    fmt == "fasta" || fmt == "folder" || fmt == "sequence"
  }

  /** Lines 49-85: the embedding route per input format. */
  function Dispatch(fmt: string, input: string): (r: Result<EmbedPlan, AnnotateError>)
    ensures r.Success? <==> IsKnownFormat(fmt)
    ensures r.Failure? ==> r.error == ValueError(Unhandled)
  {
    if fmt == "fasta" then
      Success(EmbedPlan(Some(EsmCall(input, None, true)), EsmOutput, None, Representations, EsmLayer, PaddingValue))
    else if fmt == "folder" then
      Success(EmbedPlan(None, InputPath(input), None, Representations, EsmLayer, PaddingValue))
    else if fmt == "sequence" then
      Success(EmbedPlan(Some(EsmCall(input, Some("sequence"), true)), EsmOutput, Some("sequence"), Representations, EsmLayer, PaddingValue))
    else
      Failure(ValueError(Unhandled))
  }

  /** Reads back the format a plan was made for. */
  function FormatOf(plan: EmbedPlan): string
  {
    if plan.esm.None? then "folder"
    else if plan.inputFormat == Some("sequence") then "sequence"
    else "fasta"
  }

  /** The three routes are distinct, each embeds exactly the configured input
      (directly for a folder, through ESM-2 per residue otherwise), and all use
      the same layer, padding and representation key. */
  lemma {:induction false} DispatchRoundTrip(fmt: string, input: string)
    requires IsKnownFormat(fmt)
    ensures var plan := Dispatch(fmt, input).value;
      && FormatOf(plan) == fmt
      && (plan.esm.Some? ==> plan.esm.value.input == input && plan.esm.value.residueEmbeddings && plan.queriesFrom == EsmOutput)
      && (plan.esm.Some? ==> (plan.esm.value.mode == Some("sequence") <==> fmt == "sequence"))
      && (plan.esm.None? ==> plan.queriesFrom == InputPath(input))
      && plan.layer == 32 && plan.paddingValue == 0 && plan.representations == "representations"
  {
  }

  // -----------------------------------------------------------------------
  // The output file

  /** The file name used when no output path is configured. */
  function DefaultName(stem: string, k: int): (r: string)
    ensures |r| >= 2 && r[..2] == "./"
    ensures '/' !in stem ==> '/' !in r[2..]
  {
    "./" + stem + "_k" + IntString(k) + "_annotations.json"
  }

  /** The stem of the default name: "sequence" for a single sequence; for a
      fasta file the last '/'-piece of the input, for anything else the one
      before it, each with the characters of ".fasta" stripped from both
      ends. */
  function DefaultStem(fmt: string, input: string): (r: Result<string, AnnotateError>)
    ensures r.Success? ==> '/' !in r.value
    ensures fmt == "sequence" ==> r == Success("sequence")
    ensures fmt != "sequence" && fmt != "fasta" ==> (r.Success? <==> '/' in input)
    ensures r.Failure? ==> r.error == IndexError
  {
    if fmt == "sequence" then Success("sequence")
    else
      var parts := Split(input, '/');
      var at := if fmt == "fasta" then PyIndex(|parts|, -1) else PyIndex(|parts|, -2);
      SplitCount(input, '/');
      assert Count(input, '/') > 0 <==> '/' in input;
      if at.None? then Failure(IndexError)
      else
        var piece := parts[at.value];
        StripAddsNothing(piece, FastaChars, '/');
        Success(Strip(piece, FastaChars))
  }

  /** Lines 107-127: the configured output path, verbatim, or the default name. */
  function OutputFile(outputPath: Option<string>, fmt: string, input: string, k: int): (r: Result<string, AnnotateError>)
    ensures outputPath.Some? ==> r == Success(outputPath.value)
    ensures r.Failure? <==> outputPath.None? && fmt != "sequence" && fmt != "fasta" && '/' !in input
    ensures r.Failure? ==> r.error == IndexError
  {
    if outputPath.Some? then Success(outputPath.value)
    else
      match DefaultStem(fmt, input)
      case Failure(e) => Failure(e)
      case Success(stem) => Success(DefaultName(stem, k))
  }

  /** Lines 111-113 and 119-121: the message printed before writing, if any.
      The source spells out the same f-string for the message (lines 112,
      120) as for the written file (lines 116, 124), so the message is built
      here from the same `DefaultStem` and `DefaultName` as `OutputFile`. */
  function Announcement(outputPath: Option<string>, fmt: string, input: string, k: int): (r: Result<Option<string>, AnnotateError>)
    ensures outputPath.Some? || fmt == "sequence" ==> r == Success(None)
    ensures r.Failure? ==> r.error == IndexError
    ensures r.Success? && r.value.Some? ==> |SavePrefix| < |r.value.value| && r.value.value[..|SavePrefix|] == SavePrefix
  {
    if outputPath.Some? || fmt == "sequence" then Success(None)
    else
      match DefaultStem(fmt, input)
      case Failure(e) => Failure(e)
      case Success(stem) => Success(Some(SavePrefix + DefaultName(stem, k)))
  }

  /** The modelled part of `main`: the format is dispatched first, so an
      unknown one fails before any file name is chosen. */
  function Main(config: Config, fmt: string): (r: Result<(EmbedPlan, string), AnnotateError>)
    ensures !IsKnownFormat(fmt) ==> r == Failure(ValueError(Unhandled))
    ensures IsKnownFormat(fmt) && config.outputPath.Some? ==> r.Success? && r.value.1 == config.outputPath.value
    ensures IsKnownFormat(fmt) ==> (r.Success? <==> OutputFile(config.outputPath, fmt, config.input, config.k).Success?)
    ensures IsKnownFormat(fmt) && r.Failure? ==> r.error == IndexError
    ensures r.Success? ==> r.value == (Dispatch(fmt, config.input).value, OutputFile(config.outputPath, fmt, config.input, config.k).value)
  {
    match Dispatch(fmt, config.input)
    case Failure(e) => Failure(e)
    case Success(plan) =>
      match OutputFile(config.outputPath, fmt, config.input, config.k)
      case Failure(e) => Failure(e)
      case Success(path) => Success((plan, path))
  }

  /** Something is printed exactly when the default name of a fasta or
      folder input is used, and what is printed names, character for
      character, the file that is written. Since `Announcement` and
      `OutputFile` share the stem and name computation (as the source's
      identical f-strings do), what this proves is the branch structure and
      that removing the printed prefix gives back the path. */
  lemma {:induction false} PrintedPathIsWrittenPath(outputPath: Option<string>, fmt: string, input: string, k: int)
    ensures Announcement(outputPath, fmt, input, k).Success? <==> OutputFile(outputPath, fmt, input, k).Success?
    ensures Announcement(outputPath, fmt, input, k).Success? ==>
      (Announcement(outputPath, fmt, input, k).value.Some? <==> outputPath.None? && fmt != "sequence")
    ensures Announcement(outputPath, fmt, input, k).Success? && Announcement(outputPath, fmt, input, k).value.Some? ==>
      var m := Announcement(outputPath, fmt, input, k).value.value;
      |SavePrefix| <= |m| && m[..|SavePrefix|] == SavePrefix
      && OutputFile(outputPath, fmt, input, k) == Success(m[|SavePrefix|..])
  {
    if outputPath.None? && fmt != "sequence" && DefaultStem(fmt, input).Success? {
      var m := SavePrefix + DefaultName(DefaultStem(fmt, input).value, k);
      assert m[..|SavePrefix|] == SavePrefix && m[|SavePrefix|..] == DefaultName(DefaultStem(fmt, input).value, k);
    }
  }

  /** A single sequence is always written to the same name for a given k,
      whatever the input. */
  lemma {:induction false} SequenceNameIgnoresInput(input: string, k: int)
    ensures OutputFile(None, "sequence", input, k) == Success("./sequence_k" + IntString(k) + "_annotations.json")
  {
    assert "./" + "sequence" + "_k" == "./sequence_k";
  }

  /** Default names of the same stem differ for different k. */
  lemma {:induction false} DefaultNameDeterminesK(stem: string, k1: int, k2: int)
    requires DefaultName(stem, k1) == DefaultName(stem, k2)
    ensures k1 == k2
  {
    var pre := "./" + stem + "_k";
    var post := "_annotations.json";
    var n1, n2 := DefaultName(stem, k1), DefaultName(stem, k2);
    assert n1 == pre + IntString(k1) + post;
    assert n2 == pre + IntString(k2) + post;
    assert |IntString(k1)| == |IntString(k2)|;
    assert IntString(k1) == n1[|pre|..|n1| - |post|];
    assert IntString(k2) == n2[|pre|..|n2| - |post|];
    IntStringInjective(k1, k2);
  }

  /** A fasta input names its file after its last path piece, whatever the
      directories before it. */
  lemma {:induction false} FastaUsesFileName(dirs: seq<string>, name: string, k: int)
    requires forall i :: 0 <= i < |dirs| ==> '/' !in dirs[i]
    requires '/' !in name
    ensures OutputFile(None, "fasta", Join(dirs + [name], '/'), k) == Success(DefaultName(Strip(name, FastaChars), k))
  {
    var parts := dirs + [name];
    var input := Join(parts, '/');
    SplitJoin(parts, '/');
    assert Split(input, '/') == parts;
    assert PyIndex(|parts|, -1) == Some(|parts| - 1);
    assert DefaultStem("fasta", input) == Success(Strip(name, FastaChars));
  }

  /** Any other input names its file after the piece before the last '/',
      stripped of the characters of ".fasta", so a trailing '/' matters:
      "x/y/" gives "y" but "x/y" gives "x". */
  lemma {:induction false} FolderUsesParentPiece(dirs: seq<string>, name: string, k: int)
    requires |dirs| > 0
    requires forall i :: 0 <= i < |dirs| ==> '/' !in dirs[i]
    requires '/' !in name
    ensures OutputFile(None, "folder", Join(dirs + [name], '/'), k) == Success(DefaultName(Strip(dirs[|dirs| - 1], FastaChars), k))
  {
    var parts := dirs + [name];
    var input := Join(parts, '/');
    SplitJoin(parts, '/');
    assert Split(input, '/') == parts;
    assert PyIndex(|parts|, -2) == Some(|parts| - 2);
    assert parts[|parts| - 2] == dirs[|dirs| - 1];
    assert DefaultStem("folder", input) == Success(Strip(dirs[|dirs| - 1], FastaChars));
  }

  lemma {:induction false} FastaExampleStem(s: string)
    requires s == "data.fasta"
    ensures OutputFile(None, "fasta", s, 5) == Success(DefaultName(Strip(s, FastaChars), 5))
  {
    assert '/' !in s;
    FastaUsesFileName([], s, 5);
    assert [] + [s] == [s];
  }

  lemma {:induction false} FastaExampleStrip(s: string)
    requires s == "data.fasta"
    ensures Strip(s, FastaChars) == "d"
  {
    assert IsStripWindow(s, FastaChars, 0, 1);
    StripUnique(s, FastaChars, 0, 1);
    assert s[0..1] == "d";
  }

  lemma {:induction false} FastaExampleName()
    ensures DefaultName("d", 5) == "./d_k5_annotations.json"
  {
    assert IntString(5) == "5";
  }

  /** `strip(".fasta")` removes characters, not a suffix: a FASTA file named
      "data.fasta" yields the stem "d", since every character after the 'd'
      is one of the stripped characters. */
  lemma {:induction false} FastaStripExample(s: string)
    requires s == "data.fasta"
    ensures OutputFile(None, "fasta", s, 5) == Success("./d_k5_annotations.json")
  {
    FastaExampleStem(s);
    FastaExampleStrip(s);
    FastaExampleName();
  }

  /** The stripped piece can vanish: for "a/b" the piece "a" consists only of
      characters of ".fasta", so the file is "./_k5_annotations.json". */
  lemma {:induction false} FolderExampleEmptyStem(input: string)
    requires input == "a/b"
    ensures OutputFile(None, "folder", input, 5) == Success(DefaultName("", 5))
  {
    assert input == Join(["a"] + ["b"], '/');
    FolderUsesParentPiece(["a"], "b", 5);
    StripUnique("a", FastaChars, 1, 1);
  }

  /** An input with no '/' has no piece before the last, so a folder input
      without a '/' fails. */
  lemma {:induction false} FolderWithoutSlashFails(input: string, k: int)
    requires '/' !in input
    ensures OutputFile(None, "folder", input, k) == Failure(IndexError)
  {
  }
}
