/** Which `uri` values the two manifest repair passes rewrite, and into what.

    The filesystem is abstracted to `files`: the set of names `s` for which
    `points/s` (relative to the output directory) exists and is a regular
    file. An existence check that raises is folded in as "not a file", which
    is how both passes treat it (src/converter.py:93-99, 161-166). */
module UriRules {
  import opened Common

  const PointsPrefix: string := "points/"
  const ManifestStem: string := "tileset."
  const ManifestExtension: string := ".json"

  /** Pass A's selection of a bare child-manifest reference: it starts with
      `tileset.`, ends with `.json` and has no `/`. The two affixes may share
      the dot, so the root manifest's own name `tileset.json` qualifies. */
  predicate IsBareChildManifest(uri: string)
  {
    StartsWith(uri, ManifestStem) && EndsWith(uri, ManifestExtension) && '/' !in uri
  }

  /** A directory entry name matched by the glob `tileset.*.json`: the
      wildcard sits between the two affixes, so they cannot overlap. */
  predicate MatchesSubManifestGlob(name: string)
  {
    |ManifestStem| + |ManifestExtension| <= |name|
    && StartsWith(name, ManifestStem) && EndsWith(name, ManifestExtension)
  }

  /** The two repair passes.
      PrefixChildManifests: Pass A, on the root `tileset.json`.
      StripPointsPrefix: Pass B, on each `points/tileset.*.json`. */
  datatype Pass = PrefixChildManifests | StripPointsPrefix

  /** The new value of a reference's `uri`, or `None` when the pass leaves
      it alone. */
  function Retarget(pass: Pass, files: set<string>, uri: string): (r: Option<string>)
    ensures r.Some? ==> r.value != uri
    ensures r.Some? && pass.PrefixChildManifests? ==> uri in files && r.value == PointsPrefix + uri
    ensures r.Some? && pass.StripPointsPrefix? ==> r.value in files && uri == PointsPrefix + r.value
  {
    match pass
    case PrefixChildManifests =>
      if IsBareChildManifest(uri) && uri in files then Some(PointsPrefix + uri) else None
    case StripPointsPrefix =>
      if StartsWith(uri, PointsPrefix) && uri[|PointsPrefix|..] in files
      then Some(uri[|PointsPrefix|..]) else None
  }

  /** The value a `uri` has after the pass: retargeted or kept. */
  function Settle(pass: Pass, files: set<string>, uri: string): string
  {
    match Retarget(pass, files, uri)
    case Some(v) => v
    case None => uri
  }

  /** Pass A rewrites exactly the bare child-manifest names present under
      `points/`, and always into `points/<name>`. */
  lemma PrefixSelection(files: set<string>, uri: string)
    ensures Retarget(PrefixChildManifests, files, uri).Some?
            <==> StartsWith(uri, "tileset.") && EndsWith(uri, ".json")
                 && '/' !in uri && uri in files
    ensures Retarget(PrefixChildManifests, files, uri).Some?
            ==> Retarget(PrefixChildManifests, files, uri).value == "points/" + uri
  {
  }

  /** A reference that already has a directory part is never touched by
      Pass A, even when a file of that name exists under `points/`. */
  lemma PrefixIgnoresPaths(files: set<string>, uri: string)
    requires '/' in uri
    ensures Retarget(PrefixChildManifests, files, uri) == None
  {
  }

  /** Pass B rewrites exactly the `points/`-prefixed references whose
      remainder names a file under `points/`, and into that remainder. */
  lemma StripSelection(files: set<string>, uri: string, rest: string)
    requires uri == "points/" + rest
    ensures Retarget(StripPointsPrefix, files, uri) == (if rest in files then Some(rest) else None)
  {
    assert uri[|PointsPrefix|..] == rest;
  }

  /** After Pass A the value is never eligible again: a rewritten value
      contains `/`, an untouched one was not eligible to begin with. */
  lemma {:induction false} PrefixSettles(files: set<string>, uri: string)
    ensures Retarget(PrefixChildManifests, files, Settle(PrefixChildManifests, files, uri)) == None
  {
    var v := Settle(PrefixChildManifests, files, uri);
    if Retarget(PrefixChildManifests, files, uri).Some? {
      assert v == PointsPrefix + uri;
      assert v[6] == '/';
    }
  }

  /** Pass B's value is eligible again exactly when the stripped remainder
      itself starts with `points/` and names a file once stripped again. */
  lemma {:induction false} StripSettlesUnless(files: set<string>, uri: string)
    ensures Retarget(StripPointsPrefix, files, Settle(StripPointsPrefix, files, uri)).Some?
            <==> (Retarget(StripPointsPrefix, files, uri).Some?
                  && Retarget(StripPointsPrefix, files, Retarget(StripPointsPrefix, files, uri).value).Some?)
  {
  }

  /** The passes undo each other on a single reference: stripping a value
      Pass A produced gives back the bare name. */
  lemma {:induction false} StripUndoesPrefix(files: set<string>, uri: string)
    requires Retarget(PrefixChildManifests, files, uri).Some?
    ensures Retarget(StripPointsPrefix, files, Retarget(PrefixChildManifests, files, uri).value) == Some(uri)
  {
    var v := PointsPrefix + uri;
    assert v[..|PointsPrefix|] == PointsPrefix;
    assert v[|PointsPrefix|..] == uri;
  }

  /** Every glob-matched sub-manifest name is also a bare child-manifest
      name, but not conversely: `tileset.json` passes Pass A's test and is
      not matched by the glob. */
  lemma GlobNarrowerThanBareName(name: string)
    requires '/' !in name
    ensures MatchesSubManifestGlob(name) ==> IsBareChildManifest(name)
    ensures IsBareChildManifest("tileset.json") && !MatchesSubManifestGlob("tileset.json")
  {
    assert "tileset.json"[..8] == "tileset.";
    assert "tileset.json"[7..] == ".json";
  }
}
