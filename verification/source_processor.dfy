/** `CollectionSourceProcessor`: where a collection's items come from when
    it has a source, and the contents of a collection looked up by name. */
module SourceProcessor {
  import opened Common
  import opened CollectionModel
  import EnumSourceLoader

  /** `loadCollectionItems(collectionSource, contentType)`: only ENUM has a
      loader; for REST_API and CSV_FILE the loader stays null and calling it
      throws. */
  function LoadCollectionItems(source: Source, contentType: ContentType, resolve: EnumSourceLoader.EnumResolver): (r: Result<seq<ItemDto>, ServiceError>)
    ensures source.sourceType == EnumSource ==> r == EnumSourceLoader.LoadCollectionItems(source, contentType, resolve)
    ensures source.sourceType != EnumSource ==> r == Err(NullPointer)
  {
    match source.sourceType
    case EnumSource => EnumSourceLoader.LoadCollectionItems(source, contentType, resolve)
    case RestApiSource => Err(NullPointer)
    case CsvFileSource => Err(NullPointer)
  }

  /** `loadCollectionItemsContent(collectionName)`: an unknown name gives no
      contents; a collection without a source gives its stored items'
      contents in order; one with a source gives its loaded items'. */
  function LoadCollectionItemsContent(store: Store, name: string, resolve: EnumSourceLoader.EnumResolver): (r: Result<seq<Content>, ServiceError>)
    ensures FindByName(store.collections, name).None? ==> r == Ok([])
    ensures FindByName(store.collections, name).Some? && FindByName(store.collections, name).value.source.None? ==>
      r == Ok(Contents(FindByName(store.collections, name).value.items))
    ensures FindByName(store.collections, name).Some? && FindByName(store.collections, name).value.source.Some? ==>
      var c := FindByName(store.collections, name).value;
      var loaded := LoadCollectionItems(c.source.value, c.contentType, resolve);
      && (r.Ok? <==> loaded.Ok?)
      && (r.Ok? ==> |r.value| == |loaded.value| && forall i :: 0 <= i < |r.value| ==> r.value[i] == loaded.value[i].content)
      && (r.Err? ==> r.error == loaded.error)
  {
    match FindByName(store.collections, name)
    case None => Ok([])
    case Some(c) =>
      if c.source.None? then Ok(Contents(c.items))
      else
        match LoadCollectionItems(c.source.value, c.contentType, resolve)
        case Err(e) => Err(e)
        case Ok(items) => Ok(seq(|items|, i requires 0 <= i < |items| => items[i].content))
  }

  /** Only an ENUM source can be read: a collection whose source is REST_API
      or CSV_FILE cannot have its contents listed at all. */
  lemma OnlyEnumSourcesLoad(store: Store, name: string, resolve: EnumSourceLoader.EnumResolver)
    requires FindByName(store.collections, name).Some?
    requires FindByName(store.collections, name).value.source.Some?
    ensures LoadCollectionItemsContent(store, name, resolve).Ok? ==>
      FindByName(store.collections, name).value.source.value.sourceType == EnumSource
  {
  }
}
