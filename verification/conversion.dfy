/** The decisions `convert_las_to_3dtiles` takes around the engine run
    (src/converter.py:209-315): whether and how the input is decompressed
    (`uncompress_laz_to_las`, src/converter.py:20-42), which command is
    run, how the engine's exit is classified, and that the repair passes
    never decide the result. File system state, the CRS probe, executable
    lookup and the engine itself are inputs. */
module Conversion {
  import opened Common
  import UriRules
  import opened ManifestRepair
  import opened EngineCommand

  // ---------------------------------------------------------------------
  // Path suffixes

  /** `Path(path).name`: the text after the last `/`. */
  function FileName(path: string): (name: string)
    ensures '/' !in name
    ensures |name| <= |path| && path[|path| - |name|..] == name
  {
    if path == [] || path[|path| - 1] == '/' then []
    else FileName(path[..|path| - 1]) + [path[|path| - 1]]
  }

  /** `name.rfind('.')`, with `None` for -1. */
  function LastDot(name: string): (r: Option<nat>)
    ensures r.None? ==> '.' !in name
    ensures r.Some? ==> r.value < |name| && name[r.value] == '.' && '.' !in name[r.value + 1..]
  {
    if name == [] then None
    else if name[|name| - 1] == '.' then Some(|name| - 1)
    else
      var r := LastDot(name[..|name| - 1]);
      assert r.Some? ==> name[r.value + 1..] == name[..|name| - 1][r.value + 1..] + [name[|name| - 1]];
      r
  }

  /** `PurePath.suffix`: from the last dot on, unless that dot starts the
      name or ends it. */
  function Suffix(name: string): string
  {
    match LastDot(name)
    case Some(i) => if 0 < i < |name| - 1 then name[i..] else ""
    case None => ""
  }

  function AsciiLower(s: string): (r: string)
    ensures |r| == |s|
  {
    if s == [] then []
    else
      var c := s[0];
      [if 'A' <= c <= 'Z' then (c as int + 32) as char else c] + AsciiLower(s[1..])
  }

  /** `input_path.suffix.lower() == '.laz'` */
  predicate IsCompressed(path: string)
  {
    AsciiLower(Suffix(FileName(path))) == ".laz"
  }

  /** A path is a compressed input exactly when its file name has at least
      one character before a final `.laz` in any letter case. */
  lemma {:induction false} CompressedIffLazEnding(path: string)
    ensures var name := FileName(path);
            IsCompressed(path) <==> |name| >= 5 && AsciiLower(name[|name| - 4..]) == ".laz"
  {
    var name := FileName(path);
    if |name| >= 5 && AsciiLower(name[|name| - 4..]) == ".laz" {
      LazEndingIsSuffix(name);
    }
    if IsCompressed(path) {
      SuffixLazIsEnding(name);
    }
  }

  lemma LazEndingIsSuffix(name: string)
    requires |name| >= 5 && AsciiLower(name[|name| - 4..]) == ".laz"
    ensures Suffix(name) == name[|name| - 4..]
  {
    var tail := name[|name| - 4..];
    LowerKeepsDots(tail);
    assert AsciiLower(tail)[0] == '.' && AsciiLower(tail)[1] == 'l';
    assert AsciiLower(tail)[2] == 'a' && AsciiLower(tail)[3] == 'z';
    assert name[|name| - 3..] == tail[1..];
    assert forall k :: 0 <= k < 3 ==> tail[1..][k] == tail[k + 1];
    LastDotAt(name, |name| - 4);
  }

  lemma SuffixLazIsEnding(name: string)
    requires AsciiLower(Suffix(name)) == ".laz"
    ensures |name| >= 5 && AsciiLower(name[|name| - 4..]) == ".laz"
  {
    assert |Suffix(name)| == 4;
    var i := LastDot(name).value;
    assert Suffix(name) == name[i..];
  }

  lemma {:induction false} LowerKeepsDots(s: string)
    ensures forall k :: 0 <= k < |s| ==> (AsciiLower(s)[k] == '.' <==> s[k] == '.')
  {
    if s != [] {
      LowerKeepsDots(s[1..]);
      assert forall k :: 1 <= k < |s| ==> AsciiLower(s)[k] == AsciiLower(s[1..])[k - 1];
    }
  }

  lemma {:induction false} LastDotAt(name: string, i: nat)
    requires i < |name| && name[i] == '.' && '.' !in name[i + 1..]
    ensures LastDot(name) == Some(i)
    decreases |name|
  {
    if name[|name| - 1] != '.' {
      assert i < |name| - 1;
      assert name[..|name| - 1][i + 1..] == name[i + 1..|name| - 1];
      LastDotAt(name[..|name| - 1], i);
    }
  }

  /** `laz_path.with_suffix('.las')` for a compressed input. */
  function LasSibling(path: string): (r: string)
    requires IsCompressed(path)
    ensures |r| == |path| && r[..|r| - 4] == path[..|path| - 4] && EndsWith(r, ".las")
  {
    CompressedIffLazEnding(path);
    path[..|path| - 4] + ".las"
  }

  // ---------------------------------------------------------------------
  // Input preparation

  /** What probing a file says: absent, the existence probe itself raises
      (`Path.exists` re-raises every `stat` error except a missing or
      unreachable path), present but its timestamp cannot be read, or its
      modification time (only compared, so any totally ordered clock will
      do). */
  datatype Stat = NoFile | ProbeRaises | StatFails | ModifiedAt(mtime: int)

  /** The decompressed sibling can be reused: both timestamps could be read
      and the sibling is not older than the compressed file. */
  predicate SiblingIsFresh(las: Stat, laz: Stat)
  {
    las.ModifiedAt? && laz.ModifiedAt? && las.mtime >= laz.mtime
  }

  datatype PreparedInput =
    | AsGiven(path: string)             // not compressed
    | ReusedLas(path: string)           // fresh sibling reused, nothing decoded
    | DecodedLas(path: string)          // decoded and written to the sibling
    | CompressedFallback(path: string)  // decompression raised; the compressed file is used

  /** The input the engine is given (src/converter.py:26-42, 243-249). The
      sibling's existence probe sits outside the `try` that guards its
      timestamps, so when it raises, `uncompress_laz_to_las` raises before
      decoding and the caller falls back to the compressed file. The
      compressed file's own timestamp is only read inside that `try`, so
      any failure there merely rules out reuse. */
  function PrepareInput(input: string, las: Stat, laz: Stat, decodeOk: bool): (r: PreparedInput)
    ensures !IsCompressed(input) ==> r == AsGiven(input)
    ensures IsCompressed(input) ==> (r.ReusedLas? <==> SiblingIsFresh(las, laz))
    ensures r.DecodedLas? <==> IsCompressed(input) && !las.ProbeRaises? && !SiblingIsFresh(las, laz) && decodeOk
    ensures r.CompressedFallback?
            <==> IsCompressed(input) && (las.ProbeRaises? || (!SiblingIsFresh(las, laz) && !decodeOk))
    ensures r.ReusedLas? || r.DecodedLas? ==> IsCompressed(input) && r.path == LasSibling(input)
    ensures r.AsGiven? || r.CompressedFallback? ==> r.path == input
  {
    if !IsCompressed(input) then AsGiven(input)
    else if las.ProbeRaises? then CompressedFallback(input)
    else if SiblingIsFresh(las, laz) then ReusedLas(LasSibling(input))
    else if decodeOk then DecodedLas(LasSibling(input))
    else CompressedFallback(input)
  }

  /** The cache works: once a decode has written the sibling at a time no
      earlier than the compressed file's, the next run reuses it whatever
      decoding would do. */
  lemma DecodedSiblingIsReused(input: string, written: int, lazTime: int, decodeOk: bool)
    requires IsCompressed(input) && written >= lazTime
    ensures PrepareInput(input, ModifiedAt(written), ModifiedAt(lazTime), decodeOk) == ReusedLas(LasSibling(input))
  {
  }

  // ---------------------------------------------------------------------
  // The engine run

  datatype ConversionError =
    | OutputDirFailed          // creating or clearing the output directory raised
    | ToolNotFound             // no engine executable next to the interpreter or on PATH
    | EngineFailed(code: int)  // nonzero exit; details in tiles_log.txt
    | MissingOutput            // zero exit but no tileset.json
    | RunRaised                // launching the engine, decoding its output or writing tiles_log.txt raised
    | ProbeRaised              // zero exit, but probing for tileset.json raised

  function ManifestPath(outDir: string): string
  {
    outDir + "/tileset.json"
  }

  /** The checks after the engine exits (src/converter.py:300-305): the
      exit code first, then the probe for `tileset.json`, which may itself
      raise. */
  function CheckEngineRun(exitCode: int, probeRaises: bool, rootPresent: bool, outDir: string)
    : (r: Result<string, ConversionError>)
    ensures r.Success? <==> exitCode == 0 && !probeRaises && rootPresent
    ensures r.Success? ==> r.value == ManifestPath(outDir)
    ensures exitCode != 0 ==> r == Failure(EngineFailed(exitCode))
    ensures r == Failure(ProbeRaised) <==> exitCode == 0 && probeRaises
    ensures r == Failure(MissingOutput) <==> exitCode == 0 && !probeRaises && !rootPresent
  {
    if exitCode != 0 then Failure(EngineFailed(exitCode))
    else if probeRaises then Failure(ProbeRaised)
    else if !rootPresent then Failure(MissingOutput)
    else Success(ManifestPath(outDir))
  }

  // ---------------------------------------------------------------------
  // The whole conversion

  datatype Request = Request(
    input: string, outDir: string, extraFields: Option<string>, srsOut: Option<string>, overwrite: bool)

  /** What the engine left in the output directory. */
  datatype Output = Output(
    root: Stored, rootWritable: bool, pointsIsDir: bool, files: set<string>, listing: seq<Entry>)

  /** The output directory's parts agree with each other: without a
      `points/` directory no name that the bare-name test of Pass A accepts is a
      file under it, and every sub-manifest that could be read is a file
      under `points/`. Other names may still be in `files` without
      `points/`: `points_dir / "/x.pnts"` is the absolute `/x.pnts`, and
      when `points` is a regular file, `points_dir / ""` is that file. Pass
      A and Pass B probe the directory independently, so the model does not
      demand this of its inputs. */
  predicate Coherent(o: Output)
  {
    && (!o.pointsIsDir ==> forall s :: s in o.files ==> !UriRules.IsBareChildManifest(s))
    && forall i :: 0 <= i < |o.listing| ==> (o.listing[i].stored.Parsed? ==> o.listing[i].name in o.files)
  }

  /** Everything the conversion cannot decide itself: whether creating or
      clearing the output directory raises (the output path is a regular
      file, an entry cannot be removed), file timestamps,
      whether decoding works, the CRS probe, the executable lookup, whether
      running the engine and logging its output raise (a lookup result that
      is not executable, output that does not decode, a log that cannot be
      written), the engine's exit code, whether probing for `tileset.json`
      raises, and the engine's output. */
  datatype Environment = Environment(
    dirRaises: bool, las: Stat, laz: Stat, decodeOk: bool, hasCrs: bool,
    exe: Option<string>, runRaises: bool, exitCode: int, probeRaises: bool, output: Output)

  /** What the two repair passes reported. */
  datatype Repairs = Repairs(rootModified: bool, root: FileOutcome, subCount: nat, subs: seq<FileOutcome>)

  /** What a conversion did: whether an overwrite cleared the output
      directory completely, the input it prepared (none when the directory
      step raised first), the command it ran, its result and what the
      repair passes reported. */
  datatype Run = Run(
    cleared: bool,
    prepared: Option<PreparedInput>,
    command: Option<seq<string>>,
    result: Result<string, ConversionError>,
    repairs: Option<Repairs>)

  /** `convert_las_to_3dtiles`: the output directory is made (and, with
      `overwrite`, removed and made again) before anything else; then the
      input is prepared, the engine looked up, built, run and checked, and
      the repairs run only after a successful check. */
  function Convert(req: Request, env: Environment): (run: Run)
    ensures run.cleared <==> req.overwrite && !env.dirRaises
    ensures env.dirRaises ==> run.result == Failure(OutputDirFailed) && run.prepared.None? && run.command.None?
    ensures !env.dirRaises ==> run.prepared == Some(PrepareInput(req.input, env.las, env.laz, env.decodeOk))
    ensures !env.dirRaises && env.exe.None? ==> run.result == Failure(ToolNotFound) && run.command.None?
    ensures !env.dirRaises && env.exe.Some? ==>
              run.command == Some(BuildCommand(env.exe.value, req.outDir, env.hasCrs,
                                               req.srsOut, req.extraFields, run.prepared.value.path))
    ensures !env.dirRaises && env.exe.Some? && env.runRaises ==> run.result == Failure(RunRaised)
    ensures !env.dirRaises && env.exe.Some? && !env.runRaises && env.exitCode != 0
            ==> run.result == Failure(EngineFailed(env.exitCode))
    ensures run.result == Failure(ProbeRaised)
            <==> !env.dirRaises && env.exe.Some? && !env.runRaises && env.exitCode == 0 && env.probeRaises
    ensures run.result == Failure(MissingOutput)
            <==> !env.dirRaises && env.exe.Some? && !env.runRaises && env.exitCode == 0 && !env.probeRaises
                 && env.output.root.Missing?
    ensures run.result.Success?
            <==> !env.dirRaises && env.exe.Some? && !env.runRaises && env.exitCode == 0 && !env.probeRaises
                 && !env.output.root.Missing?
    ensures run.result.Success? ==> run.result.value == ManifestPath(req.outDir)
    ensures run.repairs.Some? <==> run.result.Success?
  {
    if env.dirRaises then Run(false, None, None, Failure(OutputDirFailed), None)
    else
      var prepared := PrepareInput(req.input, env.las, env.laz, env.decodeOk);
      match env.exe
      case None => Run(req.overwrite, Some(prepared), None, Failure(ToolNotFound), None)
      case Some(exe) =>
        var cmd := BuildCommand(exe, req.outDir, env.hasCrs, req.srsOut, req.extraFields, prepared.path);
        var checked :=
          if env.runRaises then Failure(RunRaised)
          else CheckEngineRun(env.exitCode, env.probeRaises, !env.output.root.Missing?, req.outDir);
        if checked.Failure? then Run(req.overwrite, Some(prepared), Some(cmd), checked, None)
        else
          var out := env.output;
          var (rootModified, rootOutcome) := RewriteChildTilesetUris(out.root, out.files, out.rootWritable);
          var (count, subs) := SubTilesetPass(out.pointsIsDir, out.files, out.listing);
          Run(req.overwrite, Some(prepared), Some(cmd), checked, Some(Repairs(rootModified, rootOutcome, count, subs)))
  }

  /** The repair passes never decide the result: whatever the manifests
      hold, whatever can be written, the result depends only on the
      executable, the engine run and whether `tileset.json` exists. */
  lemma RepairNeverDecidesResult(req: Request, env: Environment, other: Output)
    requires other.root.Missing? == env.output.root.Missing?
    ensures Convert(req, env.(output := other)).result == Convert(req, env).result
  {
  }

  /** An overwrite clears the output directory even when the engine cannot
      be found: the lookup comes after the clearing. */
  lemma OverwriteClearsBeforeLookup(req: Request, env: Environment)
    requires req.overwrite && !env.dirRaises && env.exe.None?
    ensures Convert(req, env).cleared && Convert(req, env).result == Failure(ToolNotFound)
  {
  }

  /** Without a `points/` directory neither pass touches anything: Pass A
      finds no file to point a bare name at and Pass B does not run. */
  lemma {:induction false} NoPointsDirNoRepair(req: Request, env: Environment)
    requires Coherent(env.output) && !env.output.pointsIsDir
    ensures var run := Convert(req, env);
            run.repairs.Some? ==>
              && !run.repairs.value.rootModified
              && (run.repairs.value.root.Unchanged? || run.repairs.value.root.NotLoaded?)
              && run.repairs.value.subCount == 0 && run.repairs.value.subs == []
  {
    PrefixNeedsFiles(env.output.root, env.output.files, env.output.rootWritable);
  }
}
