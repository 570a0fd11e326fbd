/** The two repair passes at the level of files: Pass A on the root
    `tileset.json` (`rewrite_child_tileset_uris_if_needed`,
    src/converter.py:61-131) and Pass B on every `points/tileset.*.json`
    (`normalize_sub_tileset_uris_in_points`, src/converter.py:134-206).
    Reading, parsing and writing are abstracted: a file is given as what
    `json.load` made of it, and a write-back as whether it succeeded. */
module ManifestRepair {
  import opened Common
  import opened Json
  import opened UriRules
  import opened ManifestWalk
  import opened WalkProperties

  /** What reading a manifest file yields. `Unparseable` covers every way
      `open` or `json.load` can raise: malformed JSON, a directory of that
      name, an I/O error. */
  datatype Stored = Missing | Unparseable | Parsed(doc: Json)

  /** What a pass did to one manifest file. */
  datatype FileOutcome =
    | NotLoaded               // missing or unparseable; nothing written
    | Unchanged               // parsed, no URI selected; nothing written
    | Rewritten(doc: Json)    // the repaired document was written back
    | WriteFailed(doc: Json)  // writing the repaired document raised

  /** Load, walk, and write back only when the walk modified something. */
  function RepairFile(pass: Pass, files: set<string>, stored: Stored, writeOk: bool): (r: FileOutcome)
  {
    match stored
    case Parsed(doc) =>
      var (repaired, modified) := RepairManifest(pass, files, doc);
      if !modified then Unchanged
      else if writeOk then Rewritten(repaired)
      else WriteFailed(repaired)
    case _ => NotLoaded
  }

  /** One file's outcome, in terms of what the file holds: it is written
      back exactly when it parsed, some inspected URI is selected and the
      write succeeds, and what is written is the original with every
      inspected URI settled and nothing else changed. */
  lemma RepairFileOutcome(pass: Pass, files: set<string>, stored: Stored, writeOk: bool)
    ensures var r := RepairFile(pass, files, stored, writeOk);
            && (!stored.Parsed? ==> r == NotLoaded)
            && (r.Unchanged? <==> stored.Parsed? && !AnyRetargetable(pass, files, ManifestUris(stored.doc)))
            && (r.Rewritten? <==> stored.Parsed? && writeOk && AnyRetargetable(pass, files, ManifestUris(stored.doc)))
            && (r.Rewritten? || r.WriteFailed? ==>
                  && r.doc != stored.doc
                  && EraseManifest(r.doc) == EraseManifest(stored.doc)
                  && ManifestUris(r.doc) == SettleAll(pass, files, ManifestUris(stored.doc)))
  {
    if stored.Parsed? {
      RepairManifestFlag(pass, files, stored.doc);
      RepairManifestKeepsSkeleton(pass, files, stored.doc);
      RepairManifestSettlesUris(pass, files, stored.doc);
    }
  }

  // ---------------------------------------------------------------------
  // Pass A

  /** `rewrite_child_tileset_uris_if_needed`: the reported flag and what
      happened to the root manifest. */
  function RewriteChildTilesetUris(root: Stored, files: set<string>, writeOk: bool): (r: (bool, FileOutcome))
    ensures !root.Parsed? ==> !r.0 && r.1 == NotLoaded
    ensures r.0 <==> root.Parsed? && writeOk && AnyRetargetable(PrefixChildManifests, files, ManifestUris(root.doc))
    ensures r.0 <==> r.1.Rewritten?
  {
    RepairFileOutcome(PrefixChildManifests, files, root, writeOk);
    var outcome := RepairFile(PrefixChildManifests, files, root, writeOk);
    (outcome.Rewritten?, outcome)
  }

  /** With no file under `points/` that the bare-name test of Pass A accepts,
      Pass A has nothing to point a bare name
      at: it reports false and writes nothing. */
  lemma {:induction false} PrefixNeedsFiles(root: Stored, files: set<string>, writeOk: bool)
    requires forall s :: s in files ==> !IsBareChildManifest(s)
    ensures var r := RewriteChildTilesetUris(root, files, writeOk);
            !r.0 && (r.1.Unchanged? || r.1.NotLoaded?)
  {
    if root.Parsed? {
      var us := ManifestUris(root.doc);
      forall i | 0 <= i < |us|
        ensures Retarget(PrefixChildManifests, files, us[i]).None?
      {
        if Retarget(PrefixChildManifests, files, us[i]).Some? {
          PrefixSelection(files, us[i]);
        }
      }
      RepairFileOutcome(PrefixChildManifests, files, root, writeOk);
    }
  }

  /** Running Pass A again on what it wrote reports nothing and writes
      nothing. */
  lemma RootRepairIdempotent(root: Stored, files: set<string>, writeOk: bool, writeOk': bool)
    requires RewriteChildTilesetUris(root, files, writeOk).1.Rewritten?
    ensures var again := RewriteChildTilesetUris(Parsed(RewriteChildTilesetUris(root, files, writeOk).1.doc), files, writeOk');
            again == (false, Unchanged)
  {
    PrefixPassIdempotent(files, root.doc);
  }

  // ---------------------------------------------------------------------
  // Pass B

  /** One entry of the `points/` directory listing: its name, what reading
      it yields, and whether writing it back would succeed. */
  datatype Entry = Entry(name: string, stored: Stored, writeOk: bool)

  /** The entries `points_dir.glob("tileset.*.json")` yields, in listing
      order. */
  function SubManifests(listing: seq<Entry>): (r: seq<Entry>)
    ensures |r| <= |listing|
  {
    if listing == [] then []
    else
      var last := listing[|listing| - 1];
      SubManifests(listing[..|listing| - 1]) + (if MatchesSubManifestGlob(last.name) then [last] else [])
  }

  function NormalizeEntry(files: set<string>, e: Entry): FileOutcome
  {
    RepairFile(StripPointsPrefix, files, e.stored, e.writeOk)
  }

  /** The outcome of every glob-matched file, in listing order; each depends
      on that file alone. */
  function SubManifestOutcomes(files: set<string>, listing: seq<Entry>): (r: seq<FileOutcome>)
    ensures |r| == |SubManifests(listing)|
    ensures forall i :: 0 <= i < |r| ==> r[i] == NormalizeEntry(files, SubManifests(listing)[i])
  {
    if listing == [] then []
    else
      var last := listing[|listing| - 1];
      SubManifestOutcomes(files, listing[..|listing| - 1])
      + (if MatchesSubManifestGlob(last.name) then [NormalizeEntry(files, last)] else [])
  }

  /** How many files were written back. */
  function CountRewritten(outcomes: seq<FileOutcome>): (n: nat)
    ensures n <= |outcomes|
  {
    if outcomes == [] then 0
    else
      CountRewritten(outcomes[..|outcomes| - 1]) + (if outcomes[|outcomes| - 1].Rewritten? then 1 else 0)
  }

  /** `normalize_sub_tileset_uris_in_points` as a function: nothing happens
      unless `points/` is a directory; otherwise every matched file is
      repaired on its own and the written ones are counted. */
  function SubTilesetPass(pointsIsDir: bool, files: set<string>, listing: seq<Entry>): (r: (nat, seq<FileOutcome>))
    ensures !pointsIsDir ==> r == (0, [])
    ensures r.0 <= |SubManifests(listing)|
  {
    if !pointsIsDir then (0, [])
    else
      var outcomes := SubManifestOutcomes(files, listing);
      (CountRewritten(outcomes), outcomes)
  }

  /** `normalize_sub_tileset_uris_in_points`: the loop over the glob. */
  method NormalizeSubTilesetUris(pointsIsDir: bool, files: set<string>, listing: seq<Entry>)
    returns (count: nat, outcomes: seq<FileOutcome>)
    ensures (count, outcomes) == SubTilesetPass(pointsIsDir, files, listing)
    ensures count <= |outcomes|
  {
    if !pointsIsDir {
      return 0, [];
    }
    count, outcomes := 0, [];
    var i := 0;
    while i < |listing|
      invariant 0 <= i <= |listing|
      invariant outcomes == SubManifestOutcomes(files, listing[..i])
      invariant count == CountRewritten(outcomes)
    {
      var e := listing[i];
      OutcomesStep(files, listing, i);
      if MatchesSubManifestGlob(e.name) {
        var outcome := NormalizeEntry(files, e);
        CountStep(outcomes, outcome);
        if outcome.Rewritten? {
          count := count + 1;
        }
        outcomes := outcomes + [outcome];
      }
      i := i + 1;
    }
    assert listing[..i] == listing;
  }

  /** One more listing entry extends the outcomes by that entry's own. */
  lemma OutcomesStep(files: set<string>, listing: seq<Entry>, i: int)
    requires 0 <= i < |listing|
    ensures SubManifestOutcomes(files, listing[..i + 1])
            == SubManifestOutcomes(files, listing[..i])
               + (if MatchesSubManifestGlob(listing[i].name) then [NormalizeEntry(files, listing[i])] else [])
  {
    assert listing[..i + 1][..i] == listing[..i];
  }

  /** One more outcome adds one to the count exactly when it was written. */
  lemma CountStep(outcomes: seq<FileOutcome>, o: FileOutcome)
    ensures CountRewritten(outcomes + [o]) == CountRewritten(outcomes) + (if o.Rewritten? then 1 else 0)
  {
    assert (outcomes + [o])[..|outcomes|] == outcomes;
  }

  /** Whether a sub-manifest entry gets written back, in terms of what it holds. */
  predicate WillRewrite(files: set<string>, e: Entry)
  {
    e.stored.Parsed? && e.writeOk && AnyRetargetable(StripPointsPrefix, files, ManifestUris(e.stored.doc))
  }

  lemma EntryRewritten(files: set<string>, e: Entry)
    ensures NormalizeEntry(files, e).Rewritten? <==> WillRewrite(files, e)
  {
    RepairFileOutcome(StripPointsPrefix, files, e.stored, e.writeOk);
  }

  lemma OutcomesRewritten(files: set<string>, listing: seq<Entry>, i: int)
    requires 0 <= i < |SubManifests(listing)|
    ensures SubManifestOutcomes(files, listing)[i].Rewritten? <==> WillRewrite(files, SubManifests(listing)[i])
  {
    EntryRewritten(files, SubManifests(listing)[i]);
  }

  /** The count is positive exactly when `points/` is a directory and some
      matched file parsed, has a selected URI and could be written. */
  lemma {:induction false} SubTilesetCountPositive(pointsIsDir: bool, files: set<string>, listing: seq<Entry>)
    ensures SubTilesetPass(pointsIsDir, files, listing).0 > 0
            <==> pointsIsDir && exists i :: 0 <= i < |SubManifests(listing)| && WillRewrite(files, SubManifests(listing)[i])
  {
    if pointsIsDir {
      var m := SubManifests(listing);
      var os := SubManifestOutcomes(files, listing);
      assert SubTilesetPass(pointsIsDir, files, listing).0 == CountRewritten(os);
      CountZero(os);
      if CountRewritten(os) > 0 {
        var i :| 0 <= i < |os| && os[i].Rewritten?;
        OutcomesRewritten(files, listing, i);
        assert WillRewrite(files, m[i]);
      }
      if exists i :: 0 <= i < |m| && WillRewrite(files, m[i]) {
        var i :| 0 <= i < |m| && WillRewrite(files, m[i]);
        OutcomesRewritten(files, listing, i);
        assert os[i].Rewritten?;
      }
    }
  }

  /** Nothing was written back exactly when no outcome is a write-back. */
  lemma {:induction false} CountZero(outcomes: seq<FileOutcome>)
    ensures CountRewritten(outcomes) == 0 <==> forall i :: 0 <= i < |outcomes| ==> !outcomes[i].Rewritten?
    decreases |outcomes|
  {
    if outcomes != [] {
      var n := |outcomes| - 1;
      CountZero(outcomes[..n]);
      assert forall i :: 0 <= i < n ==> outcomes[..n][i] == outcomes[i];
    }
  }

  /** What one listing entry adds to the count. */
  function Contribution(files: set<string>, e: Entry): nat
  {
    if MatchesSubManifestGlob(e.name) && NormalizeEntry(files, e).Rewritten? then 1 else 0
  }

  lemma {:induction false} CountUnfold(files: set<string>, listing: seq<Entry>)
    requires listing != []
    ensures CountRewritten(SubManifestOutcomes(files, listing))
            == CountRewritten(SubManifestOutcomes(files, listing[..|listing| - 1])) + Contribution(files, listing[|listing| - 1])
  {
    var n := |listing| - 1;
    var tail := if MatchesSubManifestGlob(listing[n].name) then [NormalizeEntry(files, listing[n])] else [];
    CountAppend(SubManifestOutcomes(files, listing[..n]), tail);
  }

  /** The count, summed entry by entry over the listing. */
  function ListingCount(files: set<string>, listing: seq<Entry>): nat
  {
    if listing == [] then 0
    else ListingCount(files, listing[..|listing| - 1]) + Contribution(files, listing[|listing| - 1])
  }

  lemma {:induction false} PassCountIsListingCount(files: set<string>, listing: seq<Entry>)
    ensures CountRewritten(SubManifestOutcomes(files, listing)) == ListingCount(files, listing)
    decreases |listing|
  {
    if listing != [] {
      CountUnfold(files, listing);
      PassCountIsListingCount(files, listing[..|listing| - 1]);
    }
  }

  lemma {:induction false} ListingCountUpdate(files: set<string>, listing: seq<Entry>, j: nat, e: Entry)
    requires j < |listing|
    ensures ListingCount(files, listing[j := e]) + Contribution(files, listing[j])
            == ListingCount(files, listing) + Contribution(files, e)
    decreases |listing|
  {
    var n := |listing| - 1;
    var updated := listing[j := e];
    if j == n {
      assert updated[..n] == listing[..n];
    } else {
      assert updated[..n] == listing[..n][j := e];
      ListingCountUpdate(files, listing[..n], j, e);
    }
  }

  /** A file that fails to parse costs exactly its own contribution to the
      count: the other files are repaired as before. */
  lemma MalformedFileIsolated(files: set<string>, listing: seq<Entry>, j: nat, writeOk: bool)
    requires j < |listing|
    ensures var broken := listing[j := Entry(listing[j].name, Unparseable, writeOk)];
            SubTilesetPass(true, files, broken).0 + Contribution(files, listing[j])
            == SubTilesetPass(true, files, listing).0
  {
    var broken := listing[j := Entry(listing[j].name, Unparseable, writeOk)];
    PassCountIsListingCount(files, listing);
    PassCountIsListingCount(files, broken);
    ListingCountUpdate(files, listing, j, Entry(listing[j].name, Unparseable, writeOk));
  }

  lemma {:induction false} CountAppend(a: seq<FileOutcome>, b: seq<FileOutcome>)
    ensures CountRewritten(a + b) == CountRewritten(a) + CountRewritten(b)
    decreases |b|
  {
    if b != [] {
      var n := |b| - 1;
      assert (a + b)[..|a + b| - 1] == a + b[..n];
      CountAppend(a, b[..n]);
    } else {
      assert a + b == a;
    }
  }

  /** A sub-manifest Pass B wrote is left alone by a second run, unless one
      of its stripped URIs can be stripped again. */
  lemma SubManifestIdempotent(files: set<string>, e: Entry, writeOk': bool)
    requires NormalizeEntry(files, e).Rewritten?
    requires forall u :: u in ManifestUris(e.stored.doc) && Retarget(StripPointsPrefix, files, u).Some?
                         ==> Retarget(StripPointsPrefix, files, Retarget(StripPointsPrefix, files, u).value).None?
    ensures NormalizeEntry(files, Entry(e.name, Parsed(NormalizeEntry(files, e).doc), writeOk')) == Unchanged
  {
    StripPassIdempotentWhenSettled(files, e.stored.doc);
  }
}
