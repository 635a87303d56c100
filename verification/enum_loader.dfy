/** `EnumCollectionSourceLoader`: the items of an ENUM-sourced collection,
    read from the `CollectionEnum` class the source names. */
module EnumSourceLoader {
  import opened Common
  import opened CollectionModel

  /** One constant of the enum: its code's text and whether it is a default. */
  datatype EnumCode = EnumCode(code: string, isDefault: bool)

  /** A `CollectionEnum` implementation: its class name, the collection it
      describes and its codes in `EnumSet` order. */
  datatype CollectionEnum = CollectionEnum(
    className: string,
    name: string,
    description: Option<string>,
    contentType: ContentType,
    codes: seq<EnumCode>)

  /** `Class.forName(name)` followed by the no-argument constructor: the
      instance, or None when any step throws. */
  type EnumResolver = string -> Option<CollectionEnum>

  /** The item an enum code becomes: no uuid, no description, the code as
      both reference and data. */
  function CodeItem(code: EnumCode, collectionUuid: Uuid): ItemDto
  {
    ItemDto("", collectionUuid.text, None, code.isDefault, Content(Some(code.code), Some(code.code)))
  }

  /** `loadCollectionItems(collectionSource, contentType)`. A class that
      cannot be loaded yields no items; a source without a collection uuid
      throws as soon as there is a code to turn into an item. */
  function LoadCollectionItems(source: Source, contentType: ContentType, resolve: EnumResolver): (r: Result<seq<ItemDto>, ServiceError>)
    ensures source.name.None? || resolve(source.name.value).None? ==> r == Ok([])
    ensures r.Err? <==>
      source.name.Some? && resolve(source.name.value).Some? && |resolve(source.name.value).value.codes| > 0
      && source.collectionUuid.None?
    ensures r.Err? ==> r.error == NullPointer
    ensures r.Ok? && source.name.Some? && resolve(source.name.value).Some? ==>
      var codes := resolve(source.name.value).value.codes;
      && |r.value| == |codes|
      && forall i :: 0 <= i < |codes| ==>
           && r.value[i].uuid == "" && r.value[i].description.None?
           && r.value[i].defaultItem == codes[i].isDefault
           && r.value[i].content == Content(Some(codes[i].code), Some(codes[i].code))
           && r.value[i].collectionUuid == source.collectionUuid.value.text
  {
    if source.name.None? then Ok([])
    else match resolve(source.name.value)
      case None => Ok([])
      case Some(e) =>
        if |e.codes| == 0 then Ok([])
        else if source.collectionUuid.None? then Err(NullPointer)
        else Ok(seq(|e.codes|, i requires 0 <= i < |e.codes| => CodeItem(e.codes[i], source.collectionUuid.value)))
  }

  /** The content type passed in plays no part in the items. */
  lemma ContentTypeIgnored(source: Source, t1: ContentType, t2: ContentType, resolve: EnumResolver)
    ensures LoadCollectionItems(source, t1, resolve) == LoadCollectionItems(source, t2, resolve)
  {
  }

  /** Every loaded item's content names one of the enum's codes, and every
      code is present. */
  lemma LoadedContentsAreTheCodes(source: Source, contentType: ContentType, resolve: EnumResolver)
    requires source.name.Some? && resolve(source.name.value).Some?
    requires LoadCollectionItems(source, contentType, resolve).Ok?
    ensures var items := LoadCollectionItems(source, contentType, resolve).value;
      var codes := resolve(source.name.value).value.codes;
      forall c :: (exists i :: 0 <= i < |items| && items[i].content == Content(Some(c), Some(c))) <==>
                  (exists k :: 0 <= k < |codes| && codes[k].code == c)
  {
    var items := LoadCollectionItems(source, contentType, resolve).value;
    var codes := resolve(source.name.value).value.codes;
    forall c
      ensures (exists i :: 0 <= i < |items| && items[i].content == Content(Some(c), Some(c))) <==>
              (exists k :: 0 <= k < |codes| && codes[k].code == c)
    {
      if exists k :: 0 <= k < |codes| && codes[k].code == c {
        var k :| 0 <= k < |codes| && codes[k].code == c;
        assert items[k].content == Content(Some(c), Some(c));
      }
    }
  }
}
