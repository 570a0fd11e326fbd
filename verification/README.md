# py3dtiles converter: a Dafny model of manifest repair and engine orchestration

This project models the core of the point-cloud to 3D Tiles converter
(`src/converter.py`). The external `py3dtiles` engine writes a root manifest
`tileset.json` and a `points/` directory that holds tile payloads and
auxiliary manifests `tileset.<N>.json`. Around that engine the converter
does five things:

- It decides whether a `.laz` input is decompressed to a `.las` sibling. A
  sibling whose modification time is not older than the `.laz` is reused.
  If decoding fails, the `.laz` file is used as it is.
- It builds the engine's argument vector. The coordinate transform flags are
  added only when the input carries CRS metadata and a non-empty target CRS
  was asked for.
- It creates the output directory (clearing it first on overwrite); if
  that raises, nothing else happens.
- It classifies the engine's exit. A run that raises, or a nonzero exit
  code, is a failure. A zero exit code without `tileset.json` is a separate
  failure.
- It runs **Pass A** on the root manifest. A bare reference
  `tileset.*.json` gets the prefix `points/` when that file exists under
  `points/`.
- It runs **Pass B** on every `points/tileset.*.json`. A redundant `points/`
  prefix is stripped when the stripped name exists under `points/`.

Both passes are one tree walk over the parsed JSON (`ManifestWalk`). It
visits `root`, the `content` object, each object in `contents`, and
recursively each object in `children`. A `Pass` value selects which rewrite
the walk applies (`UriRules.Retarget`). The walk is characterised through two
views of a manifest:

- `EraseManifest` is the skeleton: the manifest with every inspected `uri`
  blanked.
- `ManifestUris` is the inspected `uri` strings in walk order.

A repair keeps the skeleton. It maps each inspected URI to its settled value
(`Settle`: the rewrite, or the URI unchanged). The two views together
determine a manifest, so these facts pin the result down completely
(`WalkProperties.RepairManifestCharacterised`).

The filesystem under `points/` is a `set<string>` called `files`. It holds
every name `s` for which `points/s` is an existing regular file. An existence
probe that raises counts as "not a file". Path normalisation of the joined
name (`..`, an absolute remainder, the empty name) is folded into this set.
The parts of an engine output (`Conversion.Output`: the root manifest,
whether `points/` is a directory, `files` and the listing) are independent
inputs. `Conversion.Coherent` states how a real directory ties them
together: without `points/` no name that Pass A's bare-name test accepts is
a file under it, and every sub-manifest that could be read is a file.
Other names are not constrained: `/x.pnts` (from the reference
`points//x.pnts`) is an absolute path that may exist with or without
`points/`, and when `points` is a regular file the names `""` and `.`
denote that file. Only `Conversion.NoPointsDirNoRepair` assumes coherence.
Each manifest file is given as what reading it produced
(`Stored = Missing | Unparseable | Parsed(doc)`), together with whether
writing it back succeeds.

Modules, one per file: `Common`, `Json`, `UriRules`, `ManifestWalk`,
`WalkProperties`, `ManifestRepair`, `EngineCommand`, `Conversion`,
`Scenarios` (concrete output directories).

## Where the code differs from what a reader would expect

- The intended reference pattern is `tileset.<N>.json`. Pass A's test
  (`startswith("tileset.")`, `endswith(".json")`, no `/`) also accepts
  `tileset.json` itself and any other middle part. In the glob used by
  Pass B, the `*` may match the empty string (`tileset..json` is matched),
  but the affixes `tileset.` and `.json` cannot share their dot, so the
  glob does not match `tileset.json`. This is `UriRules.GlobNarrowerThanBareName`.
- A repair pass would be expected to be idempotent, and Pass A is. Pass B
  is only idempotent when no stripped URI can be stripped again. `points/points/x.pnts`, with both
  `points/points/x.pnts` and `points/x.pnts` present, is stripped once per
  run. See `WalkProperties.StripPassRepeatsIff` and
  `WalkProperties.StripPassNotIdempotent`.
- A missing engine executable could be expected to fail before the output
  directory is touched. In the code, the output directory is always
  created first (`mkdir` with `exist_ok`), `overwrite` then removes and
  recreates it, and the executable lookup comes later. This is
  `Conversion.OverwriteClearsBeforeLookup`.

## Model

| member | source | states |
|---|---|---|
| UriRules.Retarget | src/converter.py:91-96 | Every rewrite changes the value. Pass A only rewrites when `points/<uri>` is a file, and the new value is `points/` + uri. Pass B's new value is the remainder after `points/`, and it is a file under `points/`. |
| UriRules.PrefixSelection | src/converter.py:91-96 | Pass A rewrites a URI if and only if it starts with `tileset.`, ends with `.json`, contains no `/` and is present under `points/`. The new value is exactly `points/` + uri. |
| UriRules.PrefixIgnoresPaths | src/converter.py:90-91 | A URI containing `/` is never rewritten by Pass A, even when a file of that name exists. |
| UriRules.StripSelection | src/converter.py:158-164 | Pass B turns `points/` + rest into rest exactly when rest exists under `points/`. Otherwise the URI is left alone. |
| UriRules.PrefixSettles | src/converter.py:91-96 | After Pass A, no URI is eligible for Pass A again. |
| UriRules.StripSettlesUnless | src/converter.py:158-164 | After Pass B, a URI is eligible again exactly when its stripped value can itself be stripped. |
| UriRules.StripUndoesPrefix | src/converter.py:159-163 | Stripping a value Pass A produced gives back the bare name. |
| UriRules.GlobNarrowerThanBareName | src/converter.py:192 | Every glob-matched sub-manifest name passes Pass A's bare-name test. `tileset.json` passes that test but is not matched by the glob. |
| WalkProperties.FixReferenceFlag | src/converter.py:84-99 | For one reference object, the flag is raised exactly when the object changed, and exactly when its string `uri` is selected. |
| WalkProperties.FixReferencesFlag | src/converter.py:107-111 | For a `contents` array, the flag is raised exactly when the array changed, and exactly when some entry's `uri` is selected. |
| WalkProperties.RepairNodeKeepsSkeleton | src/converter.py:101-116 | The walk of a node changes nothing except the inspected `uri` values. |
| WalkProperties.RepairNodeSettlesUris | src/converter.py:101-116 | A walked node's inspected URIs are the original ones in the same order, each rewritten exactly when selected. |
| WalkProperties.RepairNodeFlag | src/converter.py:101-116 | A node's flag is raised exactly when the node changed, and exactly when one of its inspected URIs is selected. |
| WalkProperties.RepairManifestKeepsSkeleton | src/converter.py:118-122 | The frame condition for a whole document: every field other than an inspected `uri` is unchanged. This covers non-object entries, a non-object document and a missing `root`. |
| WalkProperties.RepairManifestSettlesUris | src/converter.py:118-122 | A repaired document's inspected URIs are the original ones, each settled. |
| WalkProperties.RepairManifestFlag | src/converter.py:82-96 | The `modified` flag is true exactly when some inspected URI is selected, and exactly when the document changed. |
| WalkProperties.RepairManifestCharacterised | src/converter.py:84-119 | The repaired document is the only document with the original skeleton and the settled URIs. |
| WalkProperties.PrefixPassIdempotent | src/converter.py:91-96 | Running Pass A's walk on its own result changes nothing and reports no modification. |
| WalkProperties.StripPassRepeatsIff | src/converter.py:158-164 | A second Pass B walk modifies something exactly when some URI stripped by the first walk can be stripped again. |
| WalkProperties.StripPassIdempotentWhenSettled | src/converter.py:158-164 | If no stripped URI can be stripped again, a second Pass B walk changes nothing. |
| WalkProperties.StripPassNotIdempotent | src/converter.py:158-164 | A concrete manifest and file set on which Pass B modifies the manifest on two successive runs. |
| ManifestRepair.RepairFileOutcome | src/converter.py:193-205 | A missing or unparseable file is not written. A parsed file is written back exactly when some URI is selected and the write succeeds. The written document has the original skeleton and the settled URIs, and differs from the original. |
| ManifestRepair.RewriteChildTilesetUris | src/converter.py:72-131 | Pass A returns false and writes nothing when `tileset.json` is missing or unparseable. It returns true exactly when the manifest parsed, some reference is selected and the write-back succeeded. |
| ManifestRepair.PrefixNeedsFiles | src/converter.py:91-96 | When no name that passes the bare-name test is a file under `points/`, Pass A reports false and leaves the manifest unwritten, whatever the manifest holds. |
| ManifestRepair.RootRepairIdempotent | src/converter.py:124-131 | Running Pass A again on the manifest it wrote reports false and writes nothing. |
| ManifestRepair.SubManifestOutcomes | src/converter.py:192-205 | Each glob-matched file gets its own single-file outcome, in listing order. |
| ManifestRepair.SubTilesetPass | src/converter.py:146-148 | The count is 0 when `points/` is absent or not a directory. It never exceeds the number of glob-matched files. |
| ManifestRepair.NormalizeSubTilesetUris | src/converter.py:191-206 | The loop over the glob returns the count and outcomes of `SubTilesetPass`, and the count never exceeds the number of outcomes. |
| ManifestRepair.CountZero | src/converter.py:202 | The count is zero exactly when no file was written back. |
| ManifestRepair.SubTilesetCountPositive | src/converter.py:191-206 | The count is positive exactly when `points/` is a directory and some matched file parsed, has a selected URI and could be written. |
| ManifestRepair.MalformedFileIsolated | src/converter.py:193-197 | Making one file unparseable lowers the count by exactly that file's own contribution. The other files are unaffected. |
| ManifestRepair.SubManifestIdempotent | src/converter.py:198-202 | A sub-manifest Pass B wrote is left unchanged by a second run, unless one of its stripped URIs can be stripped again. |
| EngineCommand.BuildCommand | src/converter.py:267-290 | The command starts with `[exe, "convert", "--out", out]` and ends with the input. Its length counts the optional groups. The transform group `--srs_out <crs> --pyproj-always-xy` comes right after the head exactly when the input has a CRS and the target is non-empty. `ParseCommand` reads back exactly the options requested. |
| EngineCommand.NoCrsIgnoresSrsOut | src/converter.py:274-283 | Without CRS metadata, the command does not depend on the requested target CRS. |
| EngineCommand.TransformIffCrsAndTarget | src/converter.py:274-287 | The transform is requested exactly when there is a CRS and a non-empty target, and then it carries that target. Extra fields are passed exactly when they are non-empty. |
| EngineCommand.ParseThenBuild | src/converter.py:267-290 | Every command the reader accepts, with non-empty option values, is exactly the command built from what it read. |
| Conversion.CompressedIffLazEnding | src/converter.py:244 | `suffix.lower() == '.laz'` holds exactly when the file name has at least one character before a final `.laz` in any letter case. |
| Conversion.LasSibling | src/converter.py:26 | `with_suffix('.las')` keeps everything before the four-character suffix and ends in `.las`. |
| Conversion.PrepareInput | src/converter.py:26-42 | A non-`.laz` input is used as given. For a `.laz` input, a raising existence probe on the sibling (outside the `try`) makes the `.laz` be used without decoding. Otherwise the sibling is reused exactly when both timestamps are readable and the sibling is not older; failing that, the input is decoded to the sibling, or the `.laz` is used when decoding fails. |
| Conversion.DecodedSiblingIsReused | src/converter.py:28-32 | A sibling written no earlier than the `.laz` is reused on the next run, whatever decoding would do. |
| Conversion.CheckEngineRun | src/converter.py:300-305 | A nonzero exit code is `EngineFailed(code)`, whatever the output. With a zero exit code, a raising probe for `tileset.json` is `ProbeRaised`, and an absent `tileset.json` is `MissingOutput`. Success holds exactly otherwise, with the path `<out>/tileset.json`. |
| Conversion.Convert | src/converter.py:232-315 | If creating or clearing the output directory raises, the result is `OutputDirFailed`, and nothing is prepared, looked up or run. Otherwise a missing executable is `ToolNotFound` and no command is run, and a found one gets `BuildCommand` on the prepared input. A raising launch, output decode or log write is `RunRaised` whatever the exit code. With the run complete, a nonzero exit is `EngineFailed(code)`; with a zero exit, a raising probe is `ProbeRaised` and an absent `tileset.json` is `MissingOutput`. Success holds exactly when none of these happens, and only then do the repairs run. |
| Conversion.RepairNeverDecidesResult | src/converter.py:307-315 | The result does not depend on manifest contents, the `points/` directory or write failures. Only the engine run and the presence of `tileset.json` matter. |
| Conversion.NoPointsDirNoRepair | src/converter.py:146-148 | In a coherent output without a `points/` directory, Pass A reports no modification and writes nothing, and Pass B counts 0 files and has no outcomes. |
| Conversion.OverwriteClearsBeforeLookup | src/converter.py:235-264 | With `overwrite`, and the directory steps completing, the output directory is cleared even when the executable is then not found. |
| Scenarios.RootEndToEnd | src/converter.py:61-131 | A root manifest with two bare references, both present under `points/`, gets both prefixed, and Pass A reports true. |
| Scenarios.SubEndToEnd | src/converter.py:134-206 | Two double-prefixed sub-manifests, one malformed sub-manifest and a payload give a count of 2. |
| Scenarios.AbsentChildNotRewritten | src/converter.py:91-96 | When the referenced file is absent, Pass A reports false and the manifest is unchanged. |

## Left out

- JSON text parsing and compact serialisation (src/converter.py:77-78, 126-128, 194-195, 200-201). A file is given as its parse result, and a write as success or failure. Key order and byte-identical output are not modelled, because objects are maps.
- Decoding with laspy and CRS parsing (src/converter.py:38-39, 253-261). These belong to a foreign library. Decode success and `has_crs` are inputs.
- Executable lookup (src/converter.py:45-58). The result is an input `Option<string>`. The lookup checks only existence, so a found path that cannot be executed surfaces as `RunRaised` when it is run.
- Running the engine and writing `tiles_log.txt` (src/converter.py:293-297). Whether this raises, the exit code and the produced directory are inputs. The log artifact is not modelled.
- Creating and removing the output directory (src/converter.py:233-240). Whether these steps raise is an input, and a raise ends the run as `OutputDirFailed`. Only whether an overwrite cleared the directory completely is recorded. A removal that raises part-way leaves a partly cleared directory, which is not modelled. The unconditional `mkdir` at line 233 happens on every run, including one that then fails with `ToolNotFound`, and is not a field of `Run`.
- Exceptions from the existence probes inside the repair passes (on `tileset.json` at line 74 or `points/` at line 147), and from iterating the glob. In the code these escape a pass, and Pass B is skipped if Pass A raised, because both sit in one `try`. The model treats these probes as not raising.
- Python's recursion limit. A manifest nested deeply enough makes `walk` raise `RecursionError`, so nothing is written. The model walks trees of any depth.
- Path strings are not normalised. `ManifestPath` is `out + "/tileset.json"`, and `FileName` does not strip trailing separators.
- `str.lower()` is modelled on ASCII letters only. The comparison is with the ASCII text `.laz`.
- Modification times are modelled as integers, because only their order matters.
- The order in which the glob yields files is arbitrary. It is an input sequence.
- `src/parameters.py` and `src/run.py`, which handle argument parsing, logging and exit codes. The empty `--srs-out` that parameters.py turns into `None` behaves the same as `None` here (`Common.Truthy`).
- Concurrent runs and truncated writes, which the converter does not guard against.
- Which `stat` errors make `Path.exists` raise depends on the Python version. The model takes the sibling's probe outcome as an input (`Conversion.Stat`): a version whose probe returns false instead of raising is given as `NoFile`.
