/** The argument vector for the external tiling engine
    (src/converter.py:266-290), and a reader for it that recovers the
    options the vector carries. */
module EngineCommand {
  import opened Common

  const ConvertVerb: string := "convert"
  const OutFlag: string := "--out"
  const SrsOutFlag: string := "--srs_out"
  const AxisOrderFlag: string := "--pyproj-always-xy"
  const ExtraFieldsFlag: string := "--extra-fields"

  /** What an engine invocation asks for. `srsOut` is `Some` exactly when a
      coordinate transform (with axis-order normalisation) is requested. */
  datatype Invocation = Invocation(
    exe: string, outDir: string, srsOut: Option<string>, extraFields: Option<string>, input: string)

  /** The options the engine is actually given: the transform only when the
      input carries CRS metadata and a non-empty target CRS was requested;
      extra fields only when non-empty. */
  function Requested(exe: string, outDir: string, hasCrs: bool, srsOut: Option<string>,
                     extraFields: Option<string>, input: string): Invocation
  {
    Invocation(exe, outDir,
      if hasCrs && Truthy(srsOut) then srsOut else None,
      if Truthy(extraFields) then extraFields else None,
      input)
  }

  /** The command list built by `convert_las_to_3dtiles`. */
  function BuildCommand(exe: string, outDir: string, hasCrs: bool, srsOut: Option<string>,
                        extraFields: Option<string>, input: string): (cmd: seq<string>)
    ensures |cmd| >= 5 && cmd[..4] == [exe, ConvertVerb, OutFlag, outDir] && cmd[|cmd| - 1] == input
    ensures |cmd| == 5 + (if hasCrs && Truthy(srsOut) then 3 else 0) + (if Truthy(extraFields) then 2 else 0)
    ensures hasCrs && Truthy(srsOut) ==> cmd[4..7] == [SrsOutFlag, srsOut.value, AxisOrderFlag]
    ensures hasCrs && Truthy(srsOut) <==> |cmd| >= 8 && cmd[4] == SrsOutFlag
    ensures ParseCommand(cmd) == Some(Requested(exe, outDir, hasCrs, srsOut, extraFields, input))
  {
    var head := [exe, ConvertVerb, OutFlag, outDir];
    var transform := if hasCrs && Truthy(srsOut) then [SrsOutFlag, srsOut.value, AxisOrderFlag] else [];
    var extra := if Truthy(extraFields) then [ExtraFieldsFlag, extraFields.value] else [];
    var cmd := head + transform + extra + [input];
    assert cmd[4..|cmd| - 1] == transform + extra;
    cmd
  }

  /** Reads an engine command back into the invocation it requests: the
      fixed head, an optional transform group, an optional extra-fields
      group, and the input as the final argument. */
  function ParseCommand(cmd: seq<string>): Option<Invocation>
  {
    if |cmd| < 5 || cmd[1] != ConvertVerb || cmd[2] != OutFlag then None
    else
      match ParseOptions(cmd[4..|cmd| - 1])
      case None => None
      case Some((srs, extra)) => Some(Invocation(cmd[0], cmd[3], srs, extra, cmd[|cmd| - 1]))
  }

  function ParseOptions(opts: seq<string>): Option<(Option<string>, Option<string>)>
  {
    if |opts| >= 3 && opts[0] == SrsOutFlag && opts[2] == AxisOrderFlag then
      match ParseExtraFields(opts[3..])
      case None => None
      case Some(extra) => Some((Some(opts[1]), extra))
    else
      match ParseExtraFields(opts)
      case None => None
      case Some(extra) => Some((None, extra))
  }

  function ParseExtraFields(opts: seq<string>): Option<Option<string>>
  {
    if opts == [] then Some(None)
    else if |opts| == 2 && opts[0] == ExtraFieldsFlag then Some(Some(opts[1]))
    else None
  }

  /** Without CRS metadata the requested target CRS makes no difference:
      the command is the one built with no target CRS at all. */
  lemma NoCrsIgnoresSrsOut(exe: string, outDir: string, srsOut: Option<string>,
                           extraFields: Option<string>, input: string)
    ensures BuildCommand(exe, outDir, false, srsOut, extraFields, input)
            == BuildCommand(exe, outDir, false, None, extraFields, input)
  {
  }

  /** The transform group is requested exactly when the input has CRS
      metadata and the target CRS is neither absent nor empty. */
  lemma TransformIffCrsAndTarget(exe: string, outDir: string, hasCrs: bool, srsOut: Option<string>,
                                 extraFields: Option<string>, input: string)
    ensures var inv := ParseCommand(BuildCommand(exe, outDir, hasCrs, srsOut, extraFields, input)).value;
            && (inv.srsOut.Some? <==> hasCrs && srsOut.Some? && srsOut.value != "")
            && (inv.srsOut.Some? ==> inv.srsOut == srsOut)
            && (inv.extraFields.Some? <==> extraFields.Some? && extraFields.value != "")
            && (inv.extraFields.Some? ==> inv.extraFields == extraFields)
  {
  }

  /** The other direction of the round trip: every command the reader
      accepts with non-empty option values is exactly the one built from
      what it read. */
  lemma ParseThenBuild(cmd: seq<string>)
    requires ParseCommand(cmd).Some?
    requires ParseCommand(cmd).value.srsOut.Some? ==> ParseCommand(cmd).value.srsOut.value != ""
    requires ParseCommand(cmd).value.extraFields.Some? ==> ParseCommand(cmd).value.extraFields.value != ""
    ensures var inv := ParseCommand(cmd).value;
            BuildCommand(inv.exe, inv.outDir, inv.srsOut.Some?, inv.srsOut, inv.extraFields, inv.input) == cmd
  {
    var inv := ParseCommand(cmd).value;
    var opts := cmd[4..|cmd| - 1];
    assert cmd == cmd[..4] + opts + [cmd[|cmd| - 1]];
    var transform := if inv.srsOut.Some? then [SrsOutFlag, inv.srsOut.value, AxisOrderFlag] else [];
    var extra := if inv.extraFields.Some? then [ExtraFieldsFlag, inv.extraFields.value] else [];
    if |opts| >= 3 && opts[0] == SrsOutFlag && opts[2] == AxisOrderFlag {
      assert opts == opts[..3] + opts[3..];
    }
    assert opts == transform + extra;
  }
}
