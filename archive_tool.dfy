/**
 * `extract_with_7zip(archive_path, output_dir)`: the checks made before,
 * around and after running the external extractor, in the order the
 * program makes them. The extractor itself, the search for its executable
 * and the free-space query are answers given as inputs.
 */
module ArchiveTool {
  import opened Wrappers
  import opened Paths
  import opened FileSystem

  /** The archive file as the checks see it: `os.path.getsize` and `os.access(p, os.R_OK)`. */
  datatype ArchiveFile = ArchiveFile(size: nat, readable: bool)

  /**
   * Everything the environment answers about one extraction into
   * `output_dir`: whether its parent exists or can be created and is
   * writable, whether an existing output directory is writable, the
   * integrity test, `os.makedirs(output_dir)`, the free space on that disk
   * (None when the query raises), the extractor's exit status, and what is
   * found at `output_dir` afterwards.
   */
  datatype ToolRun = ToolRun(
    parentReady: bool,
    parentWritable: bool,
    outputWritable: bool,
    testPasses: bool,
    outputCreated: bool,
    freeSpace: Option<nat>,
    exitOk: bool,
    output: Option<Node>)

  /** Why an extraction failed; each is a distinct raise in the source. */
  datatype ExtractError =
    | ArchiveMissing
    | TooSmall(size: nat)
    | ToolNotFound
    | NotReadable
    | ParentNotCreated
    | NotWritable
    | OutputNotCreated
    | ToolFailed
    | OutputMissing
    | NothingExtracted

  /** What is only logged: these never stop an extraction. */
  datatype Warning = UnusualExtension(ext: string) | TestFailed | LowDiskSpace | DiskSpaceUnknown

  datatype Extraction = Extraction(result: Result<Node, ExtractError>, warnings: seq<Warning>)

  /** The smallest size accepted as an archive, in bytes. */
  const MinArchiveSize: nat := 100

  /** Free space below this multiple of the archive size is reported. */
  const SpaceFactor: nat := 15

  predicate KnownExtension(ext: string)
  {
    ext == ".zip" || ext == ".rar" || ext == ".7z"
  }

  /** A directory with at least one entry can be listed and is not empty. */
  predicate NonEmptyDir(n: Option<Node>)
  {
    n.Some? && Listable(n.value) && n.value.entries != []
  }

  /** Every check of the sequence passes. */
  predicate Succeeds(archive: Option<ArchiveFile>, toolFound: bool, run: ToolRun)
  {
    && archive.Some?
    && archive.value.size >= MinArchiveSize
    && toolFound
    && archive.value.readable
    && run.parentReady
    && run.parentWritable
    && run.outputWritable
    && run.outputCreated
    && run.exitOk
    && NonEmptyDir(run.output)
  }

  /** The warning for an extension other than `.zip`, `.rar` and `.7z`, compared in lower case. */
  function ExtensionWarnings(path: string): seq<Warning>
  {
    var ext := Lower(Extension(path));
    if KnownExtension(ext) then [] else [UnusualExtension(ext)]
  }

  function SpaceWarnings(size: nat, free: Option<nat>): (r: seq<Warning>)
    ensures r == [] <==> free.Some? && free.value >= size * SpaceFactor
  {
    if free.None? then [DiskSpaceUnknown]
    else if free.value < size * SpaceFactor then [LowDiskSpace]
    else []
  }

  /**
   * The outcome of the check sequence for an archive described by
   * `archive` (None: nothing exists at its path), with the extractor found
   * or not: the first failing check decides the error; when all pass the
   * result is the extracted directory.
   */
  function Outcome(archive: Option<ArchiveFile>, toolFound: bool, run: ToolRun): Result<Node, ExtractError>
  {
    if archive.None? then Err(ArchiveMissing)
    else
      var a := archive.value;
      if a.size < MinArchiveSize then Err(TooSmall(a.size))
      else if !toolFound then Err(ToolNotFound)
      else if !a.readable then Err(NotReadable)
      else if !run.parentReady then Err(ParentNotCreated)
      else if !run.parentWritable || !run.outputWritable then Err(NotWritable)
      else if !run.outputCreated then Err(OutputNotCreated)
      else if !run.exitOk then Err(ToolFailed)
      else if run.output.None? then Err(OutputMissing)
      else if !NonEmptyDir(run.output) then Err(NothingExtracted)
      else Ok(run.output.value)
  }

  /**
   * The warnings logged after the extension check, up to the check that
   * stops the sequence: the failed integrity test once the output
   * directory is writable, the disk-space warning once it is created.
   */
  function LaterWarnings(a: ArchiveFile, toolFound: bool, run: ToolRun): seq<Warning>
  {
    if a.size < MinArchiveSize || !toolFound || !a.readable || !run.parentReady
       || !run.parentWritable || !run.outputWritable then []
    else
      (if run.testPasses then [] else [TestFailed])
      + (if run.outputCreated then SpaceWarnings(a.size, run.freeSpace) else [])
  }

  /**
   * `extract_with_7zip(archive_path, output_dir)` for the archive at
   * `path`: its outcome, and the warnings logged in order, the extension
   * warning first.
   */
  function Extract(path: string, archive: Option<ArchiveFile>, toolFound: bool, run: ToolRun): Extraction
  {
    Extraction(Outcome(archive, toolFound, run),
               if archive.None? then [] else ExtensionWarnings(path) + LaterWarnings(archive.value, toolFound, run))
  }

  /** An extraction succeeds exactly when every check passes, and then gives the directory found at the output. */
  lemma ExtractSucceedsIff(archive: Option<ArchiveFile>, toolFound: bool, run: ToolRun)
    ensures var r := Outcome(archive, toolFound, run);
            && (r.Ok? <==> Succeeds(archive, toolFound, run))
            && (r.Ok? ==> run.output == Some(r.value) && NonEmptyDir(run.output))
  {
  }

  /** The first checks decide their own errors: a missing archive, one below the minimum size, no extractor. */
  lemma ExtractFirstChecks(path: string, archive: Option<ArchiveFile>, toolFound: bool, run: ToolRun)
    ensures var x := Extract(path, archive, toolFound, run);
            && (archive.None? ==> x == Extraction(Err(ArchiveMissing), []))
            && (archive.Some? && archive.value.size < MinArchiveSize ==> x.result == Err(TooSmall(archive.value.size)))
            && (archive.Some? && archive.value.size >= MinArchiveSize && !toolFound ==> x.result == Err(ToolNotFound))
  {
  }

  /** An archive refused for its size or for want of the extractor carries only the extension warning. */
  lemma RefusedWarnings(path: string, archive: ArchiveFile, toolFound: bool, run: ToolRun)
    requires archive.size < MinArchiveSize || !toolFound
    ensures Extract(path, Some(archive), toolFound, run).warnings == ExtensionWarnings(path)
  {
  }

  /** A successful extraction has logged, in order, the extension, the integrity test and the disk space. */
  lemma SuccessWarnings(path: string, archive: ArchiveFile, toolFound: bool, run: ToolRun)
    requires Succeeds(Some(archive), toolFound, run)
    ensures Extract(path, Some(archive), toolFound, run).warnings
         == ExtensionWarnings(path) + (if run.testPasses then [] else [TestFailed])
            + SpaceWarnings(archive.size, run.freeSpace)
  {
  }

  /**
   * A failed integrity test and a shortage of disk space only warn: the
   * outcome is the same whatever they answer.
   */
  lemma WarningsDoNotDecide(path: string, archive: Option<ArchiveFile>, toolFound: bool, run: ToolRun,
                            testPasses: bool, freeSpace: Option<nat>)
    ensures Extract(path, archive, toolFound, run).result
         == Extract(path, archive, toolFound, run.(testPasses := testPasses, freeSpace := freeSpace)).result
  {
  }

  /** An unusual extension is reported but does not stop a good archive from being extracted. */
  lemma UnusualExtensionOnlyWarns(path: string, archive: ArchiveFile, run: ToolRun)
    requires !KnownExtension(Lower(Extension(path)))
    requires Succeeds(Some(archive), true, run)
    ensures Extract(path, Some(archive), true, run).result.Ok?
    ensures UnusualExtension(Lower(Extension(path))) in Extract(path, Some(archive), true, run).warnings
  {
  }

  /** Free space of fifteen times the archive size is enough; one byte less is reported. */
  lemma SpaceThreshold(size: nat)
    ensures SpaceWarnings(size, Some(size * SpaceFactor)) == []
    ensures size > 0 ==> SpaceWarnings(size, Some(size * SpaceFactor - 1)) == [LowDiskSpace]
  {
  }

  /** An archive of 99 bytes is refused before the extractor is even looked for. */
  lemma SmallArchiveRefused(path: string, readable: bool, toolFound: bool, run: ToolRun)
    ensures Extract(path, Some(ArchiveFile(99, readable)), toolFound, run).result == Err(TooSmall(99))
  {
  }
}
