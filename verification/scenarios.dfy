/** Concrete output directories run through both repair passes. */
module Scenarios {
  import opened Common
  import opened Json
  import opened UriRules
  import opened ManifestWalk
  import opened ManifestRepair

  function Ref(uri: string): Json
  {
    Obj(map[UriKey := Str(uri)])
  }

  function Leaf(uri: string): Json
  {
    Obj(map[ContentKey := Ref(uri)])
  }

  const Payloads: set<string> := {"tileset.1.json", "tileset.2.json", "tileset.3.json", "r1.pnts", "r2.pnts"}

  /** A root manifest referencing two auxiliary manifests by bare name. */
  const RootDoc: Json := Obj(map[RootKey := Obj(map[ChildrenKey := Arr([Leaf("tileset.1.json"), Leaf("tileset.2.json")])])])

  /** A listing with two sub-manifests that re-include `points/`, one
      malformed sub-manifest and a payload the glob does not match. */
  const Listing: seq<Entry> := [
    Entry("tileset.1.json", Parsed(Obj(map[RootKey := Leaf(PointsPrefix + "r1.pnts")])), true),
    Entry("tileset.2.json", Parsed(Obj(map[RootKey := Leaf(PointsPrefix + "r2.pnts")])), true),
    Entry("tileset.3.json", Unparseable, true),
    Entry("r1.pnts", Unparseable, true)]

  lemma RootUris()
    ensures ManifestUris(RootDoc) == ["tileset.1.json", "tileset.2.json"]
  {
    var kids := [Leaf("tileset.1.json"), Leaf("tileset.2.json")];
    var top := Obj(map[ChildrenKey := Arr(kids)]);
    LeafUris("tileset.1.json");
    LeafUris("tileset.2.json");
    assert ForestUris(kids[1..]) == ["tileset.2.json"];
    assert ForestUris(kids) == ["tileset.1.json", "tileset.2.json"];
    assert SitesOf(top.fields) == Sites(None, None, Some(kids));
    assert NodeUris(top) == ForestUris(kids);
  }

  /** A node whose only site is a `content` with a `uri` inspects just that. */
  lemma LeafUris(uri: string)
    ensures NodeUris(Leaf(uri)) == [uri]
  {
    assert SitesOf(Leaf(uri).fields) == Sites(Some(Ref(uri)), None, None);
    assert ReferenceUris(Ref(uri)) == [uri];
  }

  /** Both bare references gain the `points/` prefix and Pass A reports it. */
  lemma RootEndToEnd()
    ensures RewriteChildTilesetUris(Parsed(RootDoc), Payloads, true).0
    ensures ManifestUris(RewriteChildTilesetUris(Parsed(RootDoc), Payloads, true).1.doc)
            == [PointsPrefix + "tileset.1.json", PointsPrefix + "tileset.2.json"]
  {
    RootUris();
    var us := ManifestUris(RootDoc);
    BareChild("tileset.1.json");
    BareChild("tileset.2.json");
    RepairFileOutcome(PrefixChildManifests, Payloads, Parsed(RootDoc), true);
    var settled := SettleAll(PrefixChildManifests, Payloads, us);
    assert settled[0] == PointsPrefix + "tileset.1.json";
    assert settled[1] == PointsPrefix + "tileset.2.json";
    assert settled == [PointsPrefix + "tileset.1.json", PointsPrefix + "tileset.2.json"];
  }

  /** Pass B strips the redundant prefix in both well-formed sub-manifests
      and skips the malformed one and the payload. */
  lemma SubEndToEnd()
    ensures SubTilesetPass(true, Payloads, Listing).0 == 2
  {
    var o1 := NormalizeEntry(Payloads, Listing[0]);
    var o2 := NormalizeEntry(Payloads, Listing[1]);
    var o3 := NormalizeEntry(Payloads, Listing[2]);
    SubManifestRewritten(Listing[0], "r1.pnts");
    SubManifestRewritten(Listing[1], "r2.pnts");
    assert o3 == NotLoaded;
    ListingOutcomes();
    CountStep([], o1);
    CountStep([o1], o2);
    CountStep([o1] + [o2], o3);
  }

  /** Every glob-matched entry in listing order, the payload left out. */
  lemma ListingOutcomes()
    ensures SubManifestOutcomes(Payloads, Listing)
            == [NormalizeEntry(Payloads, Listing[0])] + [NormalizeEntry(Payloads, Listing[1])]
               + [NormalizeEntry(Payloads, Listing[2])]
  {
    ListingNames();
    ThreeMatchedOutcomes(Payloads, Listing);
  }

  lemma ThreeMatchedOutcomes(files: set<string>, l: seq<Entry>)
    requires |l| == 4
    requires MatchesSubManifestGlob(l[0].name) && MatchesSubManifestGlob(l[1].name)
    requires MatchesSubManifestGlob(l[2].name) && !MatchesSubManifestGlob(l[3].name)
    ensures SubManifestOutcomes(files, l)
            == [NormalizeEntry(files, l[0])] + [NormalizeEntry(files, l[1])] + [NormalizeEntry(files, l[2])]
  {
    assert l[..0] == [];
    OutcomesStep(files, l, 0);
    OutcomesStep(files, l, 1);
    OutcomesStep(files, l, 2);
    OutcomesStep(files, l, 3);
    assert l[..4] == l;
  }

  /** Which listing names the `tileset.*.json` glob picks up. */
  lemma ListingNames()
    ensures MatchesSubManifestGlob(Listing[0].name)
    ensures MatchesSubManifestGlob(Listing[1].name)
    ensures MatchesSubManifestGlob(Listing[2].name)
    ensures !MatchesSubManifestGlob(Listing[3].name)
  {
  }

  lemma BareChild(uri: string)
    requires uri in {"tileset.1.json", "tileset.2.json"}
    ensures Retarget(PrefixChildManifests, Payloads, uri) == Some(PointsPrefix + uri)
  {
    assert uri[..8] == "tileset.";
    assert uri[9..] == ".json";
  }

  lemma SubManifestRewritten(e: Entry, payload: string)
    requires e.stored == Parsed(Obj(map[RootKey := Leaf(PointsPrefix + payload)])) && e.writeOk
    requires payload in Payloads
    ensures NormalizeEntry(Payloads, e).Rewritten?
  {
    var doc := e.stored.doc;
    assert NodeUris(Leaf(PointsPrefix + payload)) == [PointsPrefix + payload];
    assert ManifestUris(doc) == [PointsPrefix + payload];
    StripSelection(Payloads, PointsPrefix + payload, payload);
    RepairFileOutcome(StripPointsPrefix, Payloads, e.stored, e.writeOk);
    assert ManifestUris(doc)[0] == PointsPrefix + payload;
  }

  /** Without the file under `points/` the bare reference is left alone and
      Pass A reports no modification. */
  lemma AbsentChildNotRewritten()
    ensures RewriteChildTilesetUris(Parsed(RootDoc), {"r1.pnts"}, true) == (false, Unchanged)
  {
    RootUris();
    RepairFileOutcome(PrefixChildManifests, {"r1.pnts"}, Parsed(RootDoc), true);
  }
}
