/** What the shared walk does to a manifest, stated through the two views of
    ManifestWalk: the skeleton is kept, every inspected URI is settled in
    place, the flag reports exactly a real change, and the two views
    together determine a manifest. */
module WalkProperties {
  import opened Common
  import opened Json
  import opened UriRules
  import opened ManifestWalk

  // ---------------------------------------------------------------------
  // Replacing the sites of a node

  lemma SitesOfWithSites(f: map<string, Json>, s: Sites)
    requires Fits(f, s)
    ensures SitesOf(WithSites(f, s)) == s
  {
  }

  lemma WithSitesOwn(f: map<string, Json>)
    ensures WithSites(f, SitesOf(f)) == f
  {
  }

  lemma WithSitesTwice(f: map<string, Json>, s1: Sites, s2: Sites)
    requires Fits(f, s1) && Fits(f, s2)
    ensures WithSites(WithSites(f, s1), s2) == WithSites(f, s2)
  {
  }

  // ---------------------------------------------------------------------
  // Sequences of URIs

  lemma {:induction false} SettleAllAppend(pass: Pass, files: set<string>, a: seq<string>, b: seq<string>)
    ensures SettleAll(pass, files, a + b) == SettleAll(pass, files, a) + SettleAll(pass, files, b)
  {
  }

  lemma AnyAppend(pass: Pass, files: set<string>, a: seq<string>, b: seq<string>)
    ensures AnyRetargetable(pass, files, a + b)
            <==> AnyRetargetable(pass, files, a) || AnyRetargetable(pass, files, b)
  {
    if AnyRetargetable(pass, files, a + b) {
      var i :| 0 <= i < |a + b| && Retarget(pass, files, (a + b)[i]).Some?;
      if i >= |a| {
        assert b[i - |a|] == (a + b)[i];
      }
    }
    if AnyRetargetable(pass, files, a) {
      var i :| 0 <= i < |a| && Retarget(pass, files, a[i]).Some?;
      assert (a + b)[i] == a[i];
    }
    if AnyRetargetable(pass, files, b) {
      var i :| 0 <= i < |b| && Retarget(pass, files, b[i]).Some?;
      assert (a + b)[|a| + i] == b[i];
    }
  }

  lemma SplitThree(x1: seq<string>, x2: seq<string>, x3: seq<string>,
                   y1: seq<string>, y2: seq<string>, y3: seq<string>)
    requires |x1| == |y1| && |x2| == |y2|
    requires x1 + x2 + x3 == y1 + y2 + y3
    ensures x1 == y1 && x2 == y2 && x3 == y3
  {
    var x := x1 + x2 + x3;
    assert x1 == x[..|x1|];
    assert y1 == (y1 + y2 + y3)[..|y1|];
    assert x2 == x[|x1|..|x1| + |x2|];
    assert y2 == (y1 + y2 + y3)[|y1|..|y1| + |y2|];
    assert x3 == x[|x1| + |x2|..];
    assert y3 == (y1 + y2 + y3)[|y1| + |y2|..];
  }

  // ---------------------------------------------------------------------
  // The sites of a repaired node

  /** The sites RepairNode puts back into an object node. */
  function RepairedSites(pass: Pass, files: set<string>, s: Sites): Sites
  {
    Sites(
      if s.content.Some? then Some(FixReference(pass, files, s.content.value).0) else None,
      if s.contents.Some? then Some(FixReferences(pass, files, s.contents.value).0) else None,
      if s.children.Some? then Some(RepairForest(pass, files, s.children.value).0) else None)
  }

  lemma RepairNodeUnfold(pass: Pass, files: set<string>, node: Json)
    requires node.Obj?
    ensures Fits(node.fields, RepairedSites(pass, files, SitesOf(node.fields)))
    ensures RepairNode(pass, files, node).0
            == Obj(WithSites(node.fields, RepairedSites(pass, files, SitesOf(node.fields))))
  {
  }

  /** The sites EraseNode puts back into an object node. */
  function ErasedSites(s: Sites): Sites
  {
    Sites(
      if s.content.Some? then Some(EraseReference(s.content.value)) else None,
      if s.contents.Some? then Some(EraseReferences(s.contents.value)) else None,
      if s.children.Some? then Some(EraseForest(s.children.value)) else None)
  }

  lemma EraseNodeUnfold(node: Json)
    requires node.Obj?
    ensures Fits(node.fields, ErasedSites(SitesOf(node.fields)))
    ensures EraseNode(node) == Obj(WithSites(node.fields, ErasedSites(SitesOf(node.fields))))
  {
  }

  // ---------------------------------------------------------------------
  // Frame: the walk changes nothing but inspected URIs

  lemma EraseFixReference(pass: Pass, files: set<string>, ref: Json)
    ensures EraseReference(FixReference(pass, files, ref).0) == EraseReference(ref)
  {
  }

  lemma {:induction false} EraseFixReferences(pass: Pass, files: set<string>, refs: seq<Json>)
    ensures EraseReferences(FixReferences(pass, files, refs).0) == EraseReferences(refs)
  {
    if refs != [] {
      EraseFixReference(pass, files, refs[0]);
      EraseFixReferences(pass, files, refs[1..]);
    }
  }

  /** The skeleton of a node survives the walk. */
  lemma {:induction false} RepairNodeKeepsSkeleton(pass: Pass, files: set<string>, node: Json)
    decreases node, 1
    ensures EraseNode(RepairNode(pass, files, node).0) == EraseNode(node)
  {
    if node.Obj? {
      var f := node.fields;
      var s := SitesOf(f);
      var s' := RepairedSites(pass, files, s);
      RepairNodeUnfold(pass, files, node);
      var g := WithSites(f, s');
      SitesOfWithSites(f, s');
      EraseNodeUnfold(Obj(g));
      EraseNodeUnfold(node);
      if s.content.Some? {
        EraseFixReference(pass, files, s.content.value);
      }
      if s.contents.Some? {
        EraseFixReferences(pass, files, s.contents.value);
      }
      if s.children.Some? {
        RepairForestKeepsSkeleton(pass, files, s.children.value);
      }
      assert ErasedSites(s') == ErasedSites(s);
      WithSitesTwice(f, s', ErasedSites(s));
    }
  }

  lemma {:induction false} RepairForestKeepsSkeleton(pass: Pass, files: set<string>, nodes: seq<Json>)
    decreases nodes, 0
    ensures EraseForest(RepairForest(pass, files, nodes).0) == EraseForest(nodes)
  {
    if nodes != [] {
      RepairNodeKeepsSkeleton(pass, files, nodes[0]);
      RepairForestKeepsSkeleton(pass, files, nodes[1..]);
    }
  }

  // ---------------------------------------------------------------------
  // Selection: every inspected URI is settled in place

  function SitesUris(s: Sites): seq<string>
  {
    (if s.content.Some? then ReferenceUris(s.content.value) else [])
    + (if s.contents.Some? then ReferencesUris(s.contents.value) else [])
    + (if s.children.Some? then ForestUris(s.children.value) else [])
  }

  lemma NodeUrisUnfold(node: Json)
    requires node.Obj?
    ensures NodeUris(node) == SitesUris(SitesOf(node.fields))
  {
  }

  lemma FixReferenceUris(pass: Pass, files: set<string>, ref: Json)
    ensures ReferenceUris(FixReference(pass, files, ref).0) == SettleAll(pass, files, ReferenceUris(ref))
  {
  }

  lemma {:induction false} FixReferencesUris(pass: Pass, files: set<string>, refs: seq<Json>)
    ensures ReferencesUris(FixReferences(pass, files, refs).0) == SettleAll(pass, files, ReferencesUris(refs))
  {
    if refs != [] {
      FixReferenceUris(pass, files, refs[0]);
      FixReferencesUris(pass, files, refs[1..]);
      SettleAllAppend(pass, files, ReferenceUris(refs[0]), ReferencesUris(refs[1..]));
    }
  }

  /** The URIs of a repaired node are the original ones, each settled. */
  lemma {:induction false} RepairNodeSettlesUris(pass: Pass, files: set<string>, node: Json)
    decreases node, 1
    ensures NodeUris(RepairNode(pass, files, node).0) == SettleAll(pass, files, NodeUris(node))
  {
    if node.Obj? {
      var f := node.fields;
      var s := SitesOf(f);
      var s' := RepairedSites(pass, files, s);
      RepairNodeUnfold(pass, files, node);
      SitesOfWithSites(f, s');
      NodeUrisUnfold(Obj(WithSites(f, s')));
      NodeUrisUnfold(node);
      var x1 := if s.content.Some? then ReferenceUris(s.content.value) else [];
      var x2 := if s.contents.Some? then ReferencesUris(s.contents.value) else [];
      var x3 := if s.children.Some? then ForestUris(s.children.value) else [];
      if s.content.Some? {
        FixReferenceUris(pass, files, s.content.value);
      }
      if s.contents.Some? {
        FixReferencesUris(pass, files, s.contents.value);
      }
      if s.children.Some? {
        RepairForestSettlesUris(pass, files, s.children.value);
      }
      assert SitesUris(s') == SettleAll(pass, files, x1) + SettleAll(pass, files, x2) + SettleAll(pass, files, x3);
      SettleAllAppend(pass, files, x1, x2);
      SettleAllAppend(pass, files, x1 + x2, x3);
    }
  }

  lemma {:induction false} RepairForestSettlesUris(pass: Pass, files: set<string>, nodes: seq<Json>)
    decreases nodes, 0
    ensures ForestUris(RepairForest(pass, files, nodes).0) == SettleAll(pass, files, ForestUris(nodes))
  {
    if nodes != [] {
      RepairNodeSettlesUris(pass, files, nodes[0]);
      RepairForestSettlesUris(pass, files, nodes[1..]);
      SettleAllAppend(pass, files, NodeUris(nodes[0]), ForestUris(nodes[1..]));
    }
  }

  // ---------------------------------------------------------------------
  // The modified flag

  lemma FixReferenceFlag(pass: Pass, files: set<string>, ref: Json)
    ensures FixReference(pass, files, ref).1 <==> FixReference(pass, files, ref).0 != ref
    ensures FixReference(pass, files, ref).1 <==> AnyRetargetable(pass, files, ReferenceUris(ref))
  {
    var r := FixReference(pass, files, ref);
    if ref.Obj? && UriKey in ref.fields && ref.fields[UriKey].Str? {
      assert ReferenceUris(ref) == [ref.fields[UriKey].s];
      if r.1 {
        assert r.0.fields[UriKey] != ref.fields[UriKey];
        assert Retarget(pass, files, ReferenceUris(ref)[0]).Some?;
      }
    }
  }

  lemma {:induction false} FixReferencesFlag(pass: Pass, files: set<string>, refs: seq<Json>)
    ensures FixReferences(pass, files, refs).1 <==> FixReferences(pass, files, refs).0 != refs
    ensures FixReferences(pass, files, refs).1 <==> AnyRetargetable(pass, files, ReferencesUris(refs))
  {
    if refs != [] {
      FixReferenceFlag(pass, files, refs[0]);
      FixReferencesFlag(pass, files, refs[1..]);
      AnyAppend(pass, files, ReferenceUris(refs[0]), ReferencesUris(refs[1..]));
      var r := FixReferences(pass, files, refs);
      if r.0 == refs {
        assert r.0[0] == refs[0] && r.0[1..] == refs[1..];
      }
    }
  }

  /** The node's flag is raised exactly when the node changed, and exactly
      when some inspected URI was one the pass rewrites. */
  lemma {:induction false} RepairNodeFlag(pass: Pass, files: set<string>, node: Json)
    decreases node, 1
    ensures RepairNode(pass, files, node).1 <==> RepairNode(pass, files, node).0 != node
    ensures RepairNode(pass, files, node).1 <==> AnyRetargetable(pass, files, NodeUris(node))
  {
    if node.Obj? {
      var f := node.fields;
      var s := SitesOf(f);
      var s' := RepairedSites(pass, files, s);
      RepairNodeUnfold(pass, files, node);
      NodeUrisUnfold(node);
      var x1 := if s.content.Some? then ReferenceUris(s.content.value) else [];
      var x2 := if s.contents.Some? then ReferencesUris(s.contents.value) else [];
      var x3 := if s.children.Some? then ForestUris(s.children.value) else [];
      var m1 := s.content.Some? && FixReference(pass, files, s.content.value).1;
      var m2 := s.contents.Some? && FixReferences(pass, files, s.contents.value).1;
      var m3 := s.children.Some? && RepairForest(pass, files, s.children.value).1;
      assert RepairNode(pass, files, node).1 == (m1 || m2 || m3);
      if s.content.Some? {
        FixReferenceFlag(pass, files, s.content.value);
      }
      if s.contents.Some? {
        FixReferencesFlag(pass, files, s.contents.value);
      }
      if s.children.Some? {
        RepairForestFlag(pass, files, s.children.value);
      }
      AnyAppend(pass, files, x1, x2);
      AnyAppend(pass, files, x1 + x2, x3);
      assert (m1 || m2 || m3) <==> s' != s;
      if s' == s {
        WithSitesOwn(f);
      } else {
        SitesOfWithSites(f, s');
      }
    }
  }

  lemma {:induction false} RepairForestFlag(pass: Pass, files: set<string>, nodes: seq<Json>)
    decreases nodes, 0
    ensures RepairForest(pass, files, nodes).1 <==> RepairForest(pass, files, nodes).0 != nodes
    ensures RepairForest(pass, files, nodes).1 <==> AnyRetargetable(pass, files, ForestUris(nodes))
  {
    if nodes != [] {
      RepairNodeFlag(pass, files, nodes[0]);
      RepairForestFlag(pass, files, nodes[1..]);
      AnyAppend(pass, files, NodeUris(nodes[0]), ForestUris(nodes[1..]));
      var r := RepairForest(pass, files, nodes);
      if r.0 == nodes {
        assert r.0[0] == nodes[0] && r.0[1..] == nodes[1..];
      }
    }
  }

  // ---------------------------------------------------------------------
  // The two views determine a manifest

  lemma ReferenceDetermined(a: Json, b: Json)
    requires EraseReference(a) == EraseReference(b)
    ensures |ReferenceUris(a)| == |ReferenceUris(b)|
    ensures ReferenceUris(a) == ReferenceUris(b) ==> a == b
  {
    var ha := a.Obj? && UriKey in a.fields && a.fields[UriKey].Str?;
    var hb := b.Obj? && UriKey in b.fields && b.fields[UriKey].Str?;
    if ha {
      assert EraseReference(a).fields[UriKey] == Str("");
    }
    if hb {
      assert EraseReference(b).fields[UriKey] == Str("");
    }
    assert ha == hb;
    if ReferenceUris(a) == ReferenceUris(b) && ha {
      var fa, fb := a.fields, b.fields;
      assert fa[UriKey := Str("")] == fb[UriKey := Str("")];
      assert fa.Keys == fa[UriKey := Str("")].Keys == fb.Keys;
      assert forall k :: k in fa && k != UriKey ==> fa[k] == fa[UriKey := Str("")][k];
      assert fa == fb;
    }
  }

  lemma {:induction false} ReferencesDetermined(as_: seq<Json>, bs: seq<Json>)
    requires EraseReferences(as_) == EraseReferences(bs)
    ensures |ReferencesUris(as_)| == |ReferencesUris(bs)|
    ensures ReferencesUris(as_) == ReferencesUris(bs) ==> as_ == bs
  {
    if as_ != [] {
      assert EraseReference(as_[0]) == EraseReferences(as_)[0] == EraseReference(bs[0]);
      assert EraseReferences(as_[1..]) == EraseReferences(as_)[1..] == EraseReferences(bs[1..]);
      ReferenceDetermined(as_[0], bs[0]);
      ReferencesDetermined(as_[1..], bs[1..]);
      if ReferencesUris(as_) == ReferencesUris(bs) {
        SplitThree(ReferenceUris(as_[0]), ReferencesUris(as_[1..]), [],
                   ReferenceUris(bs[0]), ReferencesUris(bs[1..]), []);
        assert as_ == [as_[0]] + as_[1..];
        assert bs == [bs[0]] + bs[1..];
      }
    }
  }

  /** Two nodes with the same skeleton have equally many inspected URIs, and
      are equal when those URIs agree too. */
  lemma {:induction false} NodeDetermined(a: Json, b: Json)
    requires EraseNode(a) == EraseNode(b)
    decreases a, 1
    ensures |NodeUris(a)| == |NodeUris(b)|
    ensures NodeUris(a) == NodeUris(b) ==> a == b
  {
    if a.Obj? {
      var fa, fb := a.fields, b.fields;
      var sa, sb := SitesOf(fa), SitesOf(fb);
      EraseNodeUnfold(a);
      EraseNodeUnfold(b);
      SitesOfWithSites(fa, ErasedSites(sa));
      SitesOfWithSites(fb, ErasedSites(sb));
      assert ErasedSites(sa) == ErasedSites(sb);
      NodeUrisUnfold(a);
      NodeUrisUnfold(b);
      var x1 := if sa.content.Some? then ReferenceUris(sa.content.value) else [];
      var x2 := if sa.contents.Some? then ReferencesUris(sa.contents.value) else [];
      var x3 := if sa.children.Some? then ForestUris(sa.children.value) else [];
      var y1 := if sb.content.Some? then ReferenceUris(sb.content.value) else [];
      var y2 := if sb.contents.Some? then ReferencesUris(sb.contents.value) else [];
      var y3 := if sb.children.Some? then ForestUris(sb.children.value) else [];
      if sa.content.Some? {
        ReferenceDetermined(sa.content.value, sb.content.value);
      }
      if sa.contents.Some? {
        ReferencesDetermined(sa.contents.value, sb.contents.value);
      }
      if sa.children.Some? {
        ForestDetermined(sa.children.value, sb.children.value);
      }
      if NodeUris(a) == NodeUris(b) {
        SplitThree(x1, x2, x3, y1, y2, y3);
        assert sa == sb;
        WithSitesTwice(fa, ErasedSites(sa), sa);
        WithSitesTwice(fb, ErasedSites(sb), sb);
        WithSitesOwn(fa);
        WithSitesOwn(fb);
      }
    }
  }

  lemma {:induction false} ForestDetermined(as_: seq<Json>, bs: seq<Json>)
    requires EraseForest(as_) == EraseForest(bs)
    decreases as_, 0
    ensures |ForestUris(as_)| == |ForestUris(bs)|
    ensures ForestUris(as_) == ForestUris(bs) ==> as_ == bs
  {
    if as_ != [] {
      assert EraseNode(as_[0]) == EraseForest(as_)[0] == EraseNode(bs[0]);
      assert EraseForest(as_[1..]) == EraseForest(as_)[1..] == EraseForest(bs[1..]);
      NodeDetermined(as_[0], bs[0]);
      ForestDetermined(as_[1..], bs[1..]);
      if ForestUris(as_) == ForestUris(bs) {
        SplitThree(NodeUris(as_[0]), ForestUris(as_[1..]), [],
                   NodeUris(bs[0]), ForestUris(bs[1..]), []);
        assert as_ == [as_[0]] + as_[1..];
        assert bs == [bs[0]] + bs[1..];
      }
    }
  }

  // ---------------------------------------------------------------------
  // Whole manifests

  /** Frame: repairing a manifest changes nothing but the URIs it inspects;
      every other field, every non-object entry and every URI outside the
      reference sites is kept. */
  lemma RepairManifestKeepsSkeleton(pass: Pass, files: set<string>, doc: Json)
    ensures EraseManifest(RepairManifest(pass, files, doc).0) == EraseManifest(doc)
  {
    if doc.Obj? && RootKey in doc.fields {
      RepairNodeKeepsSkeleton(pass, files, doc.fields[RootKey]);
    }
  }

  /** Selection: the inspected URIs of the repaired manifest are the
      original ones, each rewritten exactly when the pass selects it. */
  lemma RepairManifestSettlesUris(pass: Pass, files: set<string>, doc: Json)
    ensures ManifestUris(RepairManifest(pass, files, doc).0) == SettleAll(pass, files, ManifestUris(doc))
  {
    if doc.Obj? && RootKey in doc.fields {
      RepairNodeSettlesUris(pass, files, doc.fields[RootKey]);
    }
  }

  /** The modified flag is raised exactly when some inspected URI is
      selected, and exactly when the manifest changed. */
  lemma RepairManifestFlag(pass: Pass, files: set<string>, doc: Json)
    ensures RepairManifest(pass, files, doc).1 <==> AnyRetargetable(pass, files, ManifestUris(doc))
    ensures RepairManifest(pass, files, doc).1 <==> RepairManifest(pass, files, doc).0 != doc
  {
    if doc.Obj? && RootKey in doc.fields {
      RepairNodeFlag(pass, files, doc.fields[RootKey]);
      var r := RepairManifest(pass, files, doc);
      if r.0 == doc {
        assert r.0.fields[RootKey] == doc.fields[RootKey];
      }
    }
  }

  lemma ManifestDetermined(a: Json, b: Json)
    requires EraseManifest(a) == EraseManifest(b)
    requires ManifestUris(a) == ManifestUris(b)
    ensures a == b
  {
    var ha := a.Obj? && RootKey in a.fields;
    var hb := b.Obj? && RootKey in b.fields;
    if ha {
      assert EraseManifest(a).Obj? && RootKey in EraseManifest(a).fields;
    }
    if hb {
      assert EraseManifest(b).Obj? && RootKey in EraseManifest(b).fields;
    }
    if ha && hb {
      var fa, fb := a.fields, b.fields;
      assert EraseNode(fa[RootKey]) == EraseManifest(a).fields[RootKey] == EraseNode(fb[RootKey]);
      NodeDetermined(fa[RootKey], fb[RootKey]);
      assert fa == EraseManifest(a).fields[RootKey := fa[RootKey]];
      assert fb == EraseManifest(b).fields[RootKey := fb[RootKey]];
    }
  }

  /** The repaired manifest is the only document with the original skeleton
      whose inspected URIs are the original ones, each settled. */
  lemma RepairManifestCharacterised(pass: Pass, files: set<string>, doc: Json, other: Json)
    requires EraseManifest(other) == EraseManifest(doc)
    requires ManifestUris(other) == SettleAll(pass, files, ManifestUris(doc))
    ensures other == RepairManifest(pass, files, doc).0
  {
    RepairManifestKeepsSkeleton(pass, files, doc);
    RepairManifestSettlesUris(pass, files, doc);
    ManifestDetermined(other, RepairManifest(pass, files, doc).0);
  }

  // ---------------------------------------------------------------------
  // Running a pass twice

  /** Pass A is idempotent: a second run finds nothing to rewrite and
      leaves the manifest as the first run wrote it. */
  lemma PrefixPassIdempotent(files: set<string>, doc: Json)
    ensures var once := RepairManifest(PrefixChildManifests, files, doc).0;
            RepairManifest(PrefixChildManifests, files, once) == (once, false)
  {
    var once := RepairManifest(PrefixChildManifests, files, doc).0;
    var us := ManifestUris(doc);
    RepairManifestSettlesUris(PrefixChildManifests, files, doc);
    RepairManifestFlag(PrefixChildManifests, files, once);
    forall i | 0 <= i < |us|
      ensures Retarget(PrefixChildManifests, files, SettleAll(PrefixChildManifests, files, us)[i]) == None
    {
      PrefixSettles(files, us[i]);
    }
  }

  /** Pass B finds something to rewrite on a second run exactly when some
      URI it stripped is itself `points/`-prefixed with a file present for
      the doubly stripped name. */
  lemma StripPassRepeatsIff(files: set<string>, doc: Json)
    ensures var once := RepairManifest(StripPointsPrefix, files, doc).0;
            var us := ManifestUris(doc);
            RepairManifest(StripPointsPrefix, files, once).1
            <==> exists i :: 0 <= i < |us| && Retarget(StripPointsPrefix, files, us[i]).Some?
                             && Retarget(StripPointsPrefix, files, Retarget(StripPointsPrefix, files, us[i]).value).Some?
  {
    var once := RepairManifest(StripPointsPrefix, files, doc).0;
    var us := ManifestUris(doc);
    var settled := SettleAll(StripPointsPrefix, files, us);
    RepairManifestSettlesUris(StripPointsPrefix, files, doc);
    RepairManifestFlag(StripPointsPrefix, files, once);
    forall i | 0 <= i < |us|
      ensures Retarget(StripPointsPrefix, files, settled[i]).Some?
              <==> (Retarget(StripPointsPrefix, files, us[i]).Some?
                    && Retarget(StripPointsPrefix, files, Retarget(StripPointsPrefix, files, us[i]).value).Some?)
    {
      StripSettlesUnless(files, us[i]);
    }
  }

  /** Pass B is idempotent whenever no stripped URI is stripped again. */
  lemma StripPassIdempotentWhenSettled(files: set<string>, doc: Json)
    requires forall u :: u in ManifestUris(doc) && Retarget(StripPointsPrefix, files, u).Some?
                         ==> Retarget(StripPointsPrefix, files, Retarget(StripPointsPrefix, files, u).value).None?
    ensures var once := RepairManifest(StripPointsPrefix, files, doc).0;
            RepairManifest(StripPointsPrefix, files, once) == (once, false)
  {
    var once := RepairManifest(StripPointsPrefix, files, doc).0;
    StripPassRepeatsIff(files, doc);
    RepairManifestFlag(StripPointsPrefix, files, once);
  }

  /** A manifest on which Pass B is not idempotent: `points/points/x.pnts`
      with both `points/points/x.pnts` and `points/x.pnts` present is
      stripped once per run. */
  lemma StripPassNotIdempotent()
    ensures var files := {"points/x.pnts", "x.pnts"};
            var doc := Obj(map[RootKey := Obj(map[ContentKey := Obj(map[UriKey := Str("points/points/x.pnts")])])]);
            var once := RepairManifest(StripPointsPrefix, files, doc);
            once.1 && RepairManifest(StripPointsPrefix, files, once.0).1
  {
    var files := {"points/x.pnts", "x.pnts"};
    var uri := "points/points/x.pnts";
    var doc := Obj(map[RootKey := Obj(map[ContentKey := Obj(map[UriKey := Str(uri)])])]);
    StripSelection(files, uri, "points/x.pnts");
    StripSelection(files, "points/x.pnts", "x.pnts");
    assert ManifestUris(doc) == [uri];
    RepairManifestFlag(StripPointsPrefix, files, doc);
    StripPassRepeatsIff(files, doc);
    assert ManifestUris(doc)[0] == uri;
  }
}
