/** The parsed form of a tileset manifest, as `json.load` hands it to the
    repair passes. */
module Json {
  import opened Common

  /** A JSON value. Objects are maps: keys are unique, and key order only
      matters to the serializer, which is not part of this model. Numbers
      are never inspected by the repair passes, so they are kept as their
      literal text. */
  datatype Json =
    | Null
    | Bool(b: bool)
    | Number(literal: string)
    | Str(s: string)
    | Arr(items: seq<Json>)
    | Obj(fields: map<string, Json>)

  /** The keys of the 3D Tiles manifest that the repair passes look at. */
  const RootKey: string := "root"
  const ContentKey: string := "content"
  const ContentsKey: string := "contents"
  const ChildrenKey: string := "children"
  const UriKey: string := "uri"
}
