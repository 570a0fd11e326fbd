/** The tree walk shared by both manifest repair passes
    (`walk` / `maybe_fix_uri` in src/converter.py:84-116 and
    `walk` / `maybe_fix` in src/converter.py:153-183), and the two views of a
    manifest that characterise it: its skeleton (everything except the
    reference URIs) and its reference URIs in walk order. */
module ManifestWalk {
  import opened Common
  import opened Json
  import opened UriRules

  /** The three places of a tile node the walk looks at, each present only
      when it has the type the walk requires: a `content` object, a
      `contents` array and a `children` array. */
  datatype Sites = Sites(content: Option<Json>, contents: Option<seq<Json>>, children: Option<seq<Json>>)

  function SitesOf(f: map<string, Json>): (s: Sites)
    ensures s.content.Some? ==> ContentKey in f && f[ContentKey] == s.content.value && s.content.value.Obj?
    ensures s.contents.Some? ==> ContentsKey in f && f[ContentsKey] == Arr(s.contents.value)
    ensures s.children.Some? ==> ChildrenKey in f && f[ChildrenKey] == Arr(s.children.value)
  {
    Sites(
      if ContentKey in f && f[ContentKey].Obj? then Some(f[ContentKey]) else None,
      if ContentsKey in f && f[ContentsKey].Arr? then Some(f[ContentsKey].items) else None,
      if ChildrenKey in f && f[ChildrenKey].Arr? then Some(f[ChildrenKey].items) else None)
  }

  /** The node's fields with the present sites replaced. */
  function WithSites(f: map<string, Json>, s: Sites): map<string, Json>
  {
    var f1 := if s.content.Some? then f[ContentKey := s.content.value] else f;
    var f2 := if s.contents.Some? then f1[ContentsKey := Arr(s.contents.value)] else f1;
    if s.children.Some? then f2[ChildrenKey := Arr(s.children.value)] else f2
  }

  /** `s` replaces exactly the sites `f` has, and a content stays an object. */
  predicate Fits(f: map<string, Json>, s: Sites)
  {
    var own := SitesOf(f);
    && (s.content.Some? <==> own.content.Some?)
    && (s.content.Some? ==> s.content.value.Obj?)
    && (s.contents.Some? <==> own.contents.Some?)
    && (s.children.Some? <==> own.children.Some?)
  }

  // ---------------------------------------------------------------------
  // The walk

  /** `maybe_fix_uri` / `maybe_fix`: retarget the `uri` of one reference
      object when it is a string the pass selects. */
  function FixReference(pass: Pass, files: set<string>, ref: Json): (r: (Json, bool))
    ensures r.0.Obj? == ref.Obj?
  {
    if ref.Obj? && UriKey in ref.fields && ref.fields[UriKey].Str? then
      match Retarget(pass, files, ref.fields[UriKey].s)
      case Some(v) => (Obj(ref.fields[UriKey := Str(v)]), true)
      case None => (ref, false)
    else
      (ref, false)
  }

  /** The loop over a `contents` array; non-objects are skipped. */
  function FixReferences(pass: Pass, files: set<string>, refs: seq<Json>): (r: (seq<Json>, bool))
    ensures |r.0| == |refs|
  {
    if refs == [] then ([], false)
    else
      var (head, m1) := FixReference(pass, files, refs[0]);
      var (tail, m2) := FixReferences(pass, files, refs[1..]);
      ([head] + tail, m1 || m2)
  }

  /** `walk(node)`: fix the `content` object, every object in `contents`,
      and recurse into every object in `children`; non-objects are left
      alone. The flag is the `modified` variable the walk sets. */
  function RepairNode(pass: Pass, files: set<string>, node: Json): (r: (Json, bool))
    decreases node, 1
    ensures r.0.Obj? == node.Obj?
  {
    if !node.Obj? then (node, false)
    else
      var s := SitesOf(node.fields);
      var (content, m1) :=
        if s.content.Some? then
          var (c, m) := FixReference(pass, files, s.content.value); (Some(c), m)
        else (None, false);
      var (contents, m2) :=
        if s.contents.Some? then
          var (cs, m) := FixReferences(pass, files, s.contents.value); (Some(cs), m)
        else (None, false);
      var (children, m3) :=
        if s.children.Some? then
          var (ch, m) := RepairForest(pass, files, s.children.value); (Some(ch), m)
        else (None, false);
      (Obj(WithSites(node.fields, Sites(content, contents, children))), m1 || m2 || m3)
  }

  /** The loop over a `children` array. */
  function RepairForest(pass: Pass, files: set<string>, nodes: seq<Json>): (r: (seq<Json>, bool))
    decreases nodes, 0
    ensures |r.0| == |nodes|
  {
    if nodes == [] then ([], false)
    else
      var (head, m1) := RepairNode(pass, files, nodes[0]);
      var (tail, m2) := RepairForest(pass, files, nodes[1..]);
      ([head] + tail, m1 || m2)
  }

  /** `walk(data.get("root", {}))`: a document that is not an object makes
      `data.get` raise, which both passes turn into "not modified"; a
      missing `root` walks an empty object. */
  function RepairManifest(pass: Pass, files: set<string>, doc: Json): (r: (Json, bool))
  {
    if doc.Obj? && RootKey in doc.fields then
      var (root, m) := RepairNode(pass, files, doc.fields[RootKey]);
      (Obj(doc.fields[RootKey := root]), m)
    else
      (doc, false)
  }

  // ---------------------------------------------------------------------
  // View 1: the reference URIs, in walk order

  function ReferenceUris(ref: Json): seq<string>
  {
    if ref.Obj? && UriKey in ref.fields && ref.fields[UriKey].Str? then [ref.fields[UriKey].s] else []
  }

  function ReferencesUris(refs: seq<Json>): seq<string>
  {
    if refs == [] then [] else ReferenceUris(refs[0]) + ReferencesUris(refs[1..])
  }

  function NodeUris(node: Json): seq<string>
    decreases node, 1
  {
    if !node.Obj? then []
    else
      var s := SitesOf(node.fields);
      (if s.content.Some? then ReferenceUris(s.content.value) else [])
      + (if s.contents.Some? then ReferencesUris(s.contents.value) else [])
      + (if s.children.Some? then ForestUris(s.children.value) else [])
  }

  function ForestUris(nodes: seq<Json>): seq<string>
    decreases nodes, 0
  {
    if nodes == [] then [] else NodeUris(nodes[0]) + ForestUris(nodes[1..])
  }

  /** Every string `uri` the walk inspects, in the order it inspects them. */
  function ManifestUris(doc: Json): seq<string>
  {
    if doc.Obj? && RootKey in doc.fields then NodeUris(doc.fields[RootKey]) else []
  }

  // ---------------------------------------------------------------------
  // View 2: the skeleton, with every inspected `uri` blanked

  function EraseReference(ref: Json): (r: Json)
    ensures r.Obj? == ref.Obj?
  {
    if ref.Obj? && UriKey in ref.fields && ref.fields[UriKey].Str? then Obj(ref.fields[UriKey := Str("")]) else ref
  }

  function EraseReferences(refs: seq<Json>): (r: seq<Json>)
    ensures |r| == |refs|
  {
    if refs == [] then [] else [EraseReference(refs[0])] + EraseReferences(refs[1..])
  }

  function EraseNode(node: Json): (r: Json)
    decreases node, 1
    ensures r.Obj? == node.Obj?
  {
    if !node.Obj? then node
    else
      var s := SitesOf(node.fields);
      Obj(WithSites(node.fields, Sites(
        if s.content.Some? then Some(EraseReference(s.content.value)) else None,
        if s.contents.Some? then Some(EraseReferences(s.contents.value)) else None,
        if s.children.Some? then Some(EraseForest(s.children.value)) else None)))
  }

  function EraseForest(nodes: seq<Json>): (r: seq<Json>)
    decreases nodes, 0
    ensures |r| == |nodes|
  {
    if nodes == [] then [] else [EraseNode(nodes[0])] + EraseForest(nodes[1..])
  }

  /** The manifest with every `uri` the walk inspects replaced by `""`. */
  function EraseManifest(doc: Json): Json
  {
    if doc.Obj? && RootKey in doc.fields then Obj(doc.fields[RootKey := EraseNode(doc.fields[RootKey])]) else doc
  }

  // ---------------------------------------------------------------------
  // Sequences of URIs

  /** The URIs after the pass, position by position. */
  function SettleAll(pass: Pass, files: set<string>, uris: seq<string>): (r: seq<string>)
    ensures |r| == |uris|
    ensures forall i :: 0 <= i < |uris| ==> r[i] == Settle(pass, files, uris[i])
  {
    if uris == [] then [] else [Settle(pass, files, uris[0])] + SettleAll(pass, files, uris[1..])
  }

  /** Some URI in the sequence is one the pass would rewrite. */
  predicate AnyRetargetable(pass: Pass, files: set<string>, uris: seq<string>)
  {
    exists i :: 0 <= i < |uris| && Retarget(pass, files, uris[i]).Some?
  }
}
