/** `CollectionServiceImpl`: collections and their items. Every operation
    runs in one transaction, so an operation that throws leaves the store as
    it was: the model returns either the error or the new store with the
    operation's answer. Fresh uuids, the attribute content-type check and
    Base64 decoding are parameters. */
module CollectionService {
  import opened Common
  import opened JavaText
  import opened CollectionModel
  import EnumSourceLoader
  import SourceProcessor
  import CsvImport

  datatype SourceRequest = SourceRequest(
    sourceType: SourceType,
    name: Option<string>,
    url: Option<string>,
    credentialUuid: Option<string>)

  datatype CollectionRequest = CollectionRequest(
    name: Option<string>,
    description: Option<string>,
    contentType: ContentType,
    source: Option<SourceRequest>)

  datatype CollectionUpdateRequest = CollectionUpdateRequest(description: Option<string>, source: Option<SourceRequest>)

  datatype ItemRequest = ItemRequest(content: Content, description: Option<string>, defaultItem: bool)

  /** The store after a successful operation and what the operation returns. */
  datatype Done<T> = Done(store: Store, value: T)

  /** `AttributeDefinitionUtils.checkAttributeContentType`: None when the
      content fits the content type, otherwise the validation message. */
  type ContentChecker = (Content, ContentType) -> Option<string>

  /** `Base64.getDecoder().decode` followed by `new String`: None when the
      text is not Base64. */
  type Base64Decoder = string -> Option<string>

  datatype SourceDto = SourceDto(sourceType: SourceType, name: Option<string>, url: Option<string>, credentialUuid: Option<string>)

  datatype Detail = Detail(
    uuid: string,
    name: string,
    description: Option<string>,
    contentType: ContentType,
    systemCollection: bool,
    source: Option<SourceDto>,
    items: seq<ItemDto>)

  const NAME_EMPTY: string := "Collection name must not be empty"
  const SYSTEM_NOT_EDITED: string := "System Collection cannot be edited"
  const SYSTEM_NOT_DELETED: string := "System Collection cannot be deleted"
  const SYSTEM_NO_ADD: string := "Cannot add items to system Collection"
  const SOURCE_NO_ADD: string := "Cannot add items to collection with items source"
  const CONTENT_EMPTY: string := "Collection item content cannot be empty"
  const CONTENT_INVALID: string := "Collection item content is not valid based on content type of collection: "
  const CONTENT_DUPLICATE: string := "Collection item content is duplicate: "
  const SYSTEM_NO_IMPORT: string := "Cannot import items to system Collection"
  const SOURCE_NO_IMPORT: string := "Cannot import items to collection with items source"

  function AlreadyExists(name: string): string
  {
    "Collection with name '" + name + "' already exists"
  }

  /** `CollectionSource.mapToDto`. */
  function SourceToDto(s: Source): SourceDto
  {
    SourceDto(s.sourceType, s.name, s.url, if s.credentialUuid.Some? then Some(s.credentialUuid.value.text) else None)
  }

  /** `getCollectionDetailDto(collection)`: a collection with a source lists
      the source's items, one without lists its stored items. */
  function CollectionDetail(c: Collection, resolve: EnumSourceLoader.EnumResolver): (r: Result<Detail, ServiceError>)
    ensures r.Ok? ==>
      && r.value.uuid == c.uuid.text && r.value.name == c.name && r.value.description == c.description
      && r.value.contentType == c.contentType && r.value.systemCollection == c.systemCollection
    ensures c.source.None? ==> r.Ok? && r.value.source.None? && r.value.items == ItemDtos(c.items)
    ensures c.source.Some? ==>
      var loaded := SourceProcessor.LoadCollectionItems(c.source.value, c.contentType, resolve);
      && (r.Ok? <==> loaded.Ok?)
      && (r.Ok? ==> r.value.source == Some(SourceToDto(c.source.value)) && r.value.items == loaded.value)
      && (r.Err? ==> r.error == loaded.error)
  {
    var head := Detail(c.uuid.text, c.name, c.description, c.contentType, c.systemCollection, None, []);
    match c.source
    case None => Ok(head.(items := ItemDtos(c.items)))
    case Some(s) =>
      match SourceProcessor.LoadCollectionItems(s, c.contentType, resolve)
      case Err(e) => Err(e)
      case Ok(items) => Ok(head.(source := Some(SourceToDto(s)), items := items))
  }

  /** `getCollection(collectionUuid)`. */
  function GetCollection(store: Store, uuid: Uuid, resolve: EnumSourceLoader.EnumResolver): (r: Result<Detail, ServiceError>)
    ensures FindByUuid(store.collections, uuid).None? ==> r == Err(NotFound(uuid.text))
    ensures FindByUuid(store.collections, uuid).Some? ==> r == CollectionDetail(FindByUuid(store.collections, uuid).value, resolve)
  {
    match FindByUuid(store.collections, uuid)
    case None => Err(NotFound(uuid.text))
    case Some(c) => CollectionDetail(c, resolve)
  }

  // ---- collections ----

  /** `StringUtils.isBlank`: null, empty or whitespace only. */
  predicate BlankName(name: Option<string>)
  {
    name.None? || IsBlank(name.value)
  }

  /** A source built from a request for the collection `owner`; a credential
      uuid is parsed only when one is given. */
  function NewSource(rs: SourceRequest, owner: Uuid): (r: Result<Source, ServiceError>)
    ensures r.Err? <==> rs.credentialUuid.Some? && ParseUuid(rs.credentialUuid.value).None?
    ensures r.Err? ==> r.error == IllegalArgument
    ensures r.Ok? ==>
      && r.value.sourceType == rs.sourceType && r.value.name == rs.name && r.value.url == rs.url
      && r.value.collectionUuid == Some(owner)
      && r.value.credentialUuid == if rs.credentialUuid.Some? then ParseUuid(rs.credentialUuid.value) else None
  {
    if rs.credentialUuid.None? then Ok(Source(rs.sourceType, rs.name, rs.url, None, Some(owner)))
    else match ParseUuid(rs.credentialUuid.value)
      case None => Err(IllegalArgument)
      case Some(u) => Ok(Source(rs.sourceType, rs.name, rs.url, Some(u), Some(owner)))
  }

  /** `createCollection(request)`; `newUuid` is the uuid the new collection
      is given when it is saved. */
  function CreateCollection(store: Store, req: CollectionRequest, newUuid: Uuid,
                            resolve: EnumSourceLoader.EnumResolver): (r: Result<Done<Detail>, ServiceError>)
    ensures BlankName(req.name) ==> r == Err(Validation(NAME_EMPTY))
    ensures !BlankName(req.name) && FindByName(store.collections, req.name.value).Some? ==>
      r == Err(AlreadyExist(AlreadyExists(req.name.value)))
    ensures r.Ok? ==> !BlankName(req.name) && FindByName(store.collections, req.name.value).None?
    // the new collection is appended, user-owned and empty; nothing else changes
    ensures r.Ok? ==>
      && |r.value.store.collections| == |store.collections| + 1
      && r.value.store.collections[..|store.collections|] == store.collections
      && var c := r.value.store.collections[|store.collections|];
      && c.uuid == newUuid && c.name == req.name.value && c.description == req.description
      && c.contentType == req.contentType && !c.systemCollection && c.items == []
      && (c.source.Some? <==> req.source.Some?)
      && (c.source.Some? ==> NewSource(req.source.value, newUuid).Ok? && c.source == Some(NewSource(req.source.value, newUuid).value))
      && CollectionDetail(c, resolve).Ok? && r.value.value == CollectionDetail(c, resolve).value
    ensures r.Err? && r.error == IllegalArgument ==>
      req.source.Some? && req.source.value.credentialUuid.Some? && ParseUuid(req.source.value.credentialUuid.value).None?
    // a free, non-blank name with no source or a well-formed ENUM source is created
    ensures r.Ok? <==>
      && !BlankName(req.name) && FindByName(store.collections, req.name.value).None?
      && (req.source.Some? ==> NewSource(req.source.value, newUuid).Ok? && req.source.value.sourceType == EnumSource)
    // a well-formed source of another type has no loader to list its items
    ensures !BlankName(req.name) && FindByName(store.collections, req.name.value).None? &&
            req.source.Some? && NewSource(req.source.value, newUuid).Ok? && req.source.value.sourceType != EnumSource ==>
      r == Err(NullPointer)
  {
    if BlankName(req.name) then Err(Validation(NAME_EMPTY))
    else
      var name := req.name.value;
      if FindByName(store.collections, name).Some? then Err(AlreadyExist(AlreadyExists(name)))
      else
        var source: Result<Option<Source>, ServiceError> :=
          if req.source.None? then Ok(None)
          else match NewSource(req.source.value, newUuid)
            case Err(e) => Err(e)
            case Ok(s) => Ok(Some(s));
        if source.Err? then Err(source.error)
        else
          var c := Collection(newUuid, name, req.description, req.contentType, false, [], source.value);
          match CollectionDetail(c, resolve)
          case Err(e) => Err(e)
          case Ok(detail) =>
            var cs := store.collections + [c];
            assert cs[..|store.collections|] == store.collections;
            Ok(Done(Store(cs), detail))
  }

  /** A collection can only be given a source whose items can be listed:
      creating one with a REST_API or CSV_FILE source always fails. */
  lemma OnlyEnumSourcesCreated(store: Store, req: CollectionRequest, newUuid: Uuid, resolve: EnumSourceLoader.EnumResolver)
    requires req.source.Some? && req.source.value.sourceType != EnumSource
    ensures CreateCollection(store, req, newUuid, resolve).Err?
  {
  }

  /** Creating keeps collection names unique. */
  lemma CreateKeepsNamesUnique(store: Store, req: CollectionRequest, newUuid: Uuid, resolve: EnumSourceLoader.EnumResolver)
    requires UniqueNames(store)
    requires CreateCollection(store, req, newUuid, resolve).Ok?
    ensures UniqueNames(CreateCollection(store, req, newUuid, resolve).value.store)
  {
    var s := CreateCollection(store, req, newUuid, resolve).value.store;
    var n := |store.collections|;
    forall i, j | 0 <= i < j < |s.collections| ensures s.collections[i].name != s.collections[j].name {
      if j == n {
        assert s.collections[i] == store.collections[i];
      } else {
        assert s.collections[i] == store.collections[i] && s.collections[j] == store.collections[j];
      }
    }
  }

  /** Reading a collection just created under a fresh uuid gives back the
      detail the creation returned. */
  lemma {:induction false} GetCreatedCollection(store: Store, req: CollectionRequest, newUuid: Uuid,
                                                resolve: EnumSourceLoader.EnumResolver)
    requires FindByUuid(store.collections, newUuid).None?
    requires CreateCollection(store, req, newUuid, resolve).Ok?
    ensures var done := CreateCollection(store, req, newUuid, resolve).value;
      GetCollection(done.store, newUuid, resolve) == Ok(done.value)
  {
    var done := CreateCollection(store, req, newUuid, resolve).value;
    var cs := done.store.collections;
    var n := |store.collections|;
    assert forall i :: 0 <= i < n ==> cs[i] == store.collections[i];
    var found := FindByUuid(cs, newUuid).value;
    var j :| 0 <= j < |cs| && cs[j] == found;
    assert j == n;
  }

  /** How an existing source is overwritten by a request: as written the
      request's credential uuid is parsed even when it is absent, which
      throws; `CredentialOptional` leaves the credential empty instead. */
  datatype CredentialRule = CredentialRequired | CredentialOptional

  function OverwriteSource(s: Source, rs: SourceRequest, rule: CredentialRule): (r: Result<Source, ServiceError>)
    ensures rs.credentialUuid.None? && rule == CredentialRequired ==> r == Err(NullPointer)
    ensures rs.credentialUuid.Some? && ParseUuid(rs.credentialUuid.value).None? ==> r == Err(IllegalArgument)
    ensures r.Ok? ==> r.value == s.(sourceType := rs.sourceType, name := rs.name, url := rs.url,
      credentialUuid := if rs.credentialUuid.Some? then ParseUuid(rs.credentialUuid.value) else None)
  {
    var s2 := s.(sourceType := rs.sourceType, name := rs.name, url := rs.url);
    if rs.credentialUuid.None? then
      if rule == CredentialRequired then Err(NullPointer) else Ok(s2.(credentialUuid := None))
    else match ParseUuid(rs.credentialUuid.value)
      case None => Err(IllegalArgument)
      case Some(u) => Ok(s2.(credentialUuid := Some(u)))
  }

  /** `editCollection(collectionUuid, request)`. */
  function EditCollection(store: Store, uuid: Uuid, req: CollectionUpdateRequest, resolve: EnumSourceLoader.EnumResolver,
                          rule: CredentialRule): (r: Result<Done<Detail>, ServiceError>)
    ensures FindByUuid(store.collections, uuid).None? ==> r == Err(NotFound(uuid.text))
    ensures FindByUuid(store.collections, uuid).Some? && FindByUuid(store.collections, uuid).value.systemCollection ==>
      r == Err(Validation(SYSTEM_NOT_EDITED))
    // only the description and the source change, and only in this collection
    ensures r.Ok? ==>
      var c := FindByUuid(store.collections, uuid).value;
      exists c2: Collection ::
        && r.value.store == Store(ReplaceByUuid(store.collections, uuid, c2))
        && c2 == c.(description := req.description, source := c2.source)
        && (c2.source.None? <==> req.source.None?)
        && (req.source.Some? && c.source.None? ==>
              NewSource(req.source.value, uuid).Ok? && c2.source == Some(NewSource(req.source.value, uuid).value))
        && (req.source.Some? && c.source.Some? ==>
              && OverwriteSource(c.source.value, req.source.value, rule).Ok?
              && c2.source == Some(OverwriteSource(c.source.value, req.source.value, rule).value))
        && CollectionDetail(c2, resolve).Ok? && r.value.value == CollectionDetail(c2, resolve).value
    ensures r.Ok? ==> !FindByUuid(store.collections, uuid).value.systemCollection
    // a found user collection is edited when its new source, if any, can be
    // built and its items listed
    ensures r.Ok? <==>
      && FindByUuid(store.collections, uuid).Some?
      && var c := FindByUuid(store.collections, uuid).value;
      && !c.systemCollection
      && (req.source.Some? ==>
            var s := if c.source.Some? then OverwriteSource(c.source.value, req.source.value, rule)
                     else NewSource(req.source.value, uuid);
            s.Ok? && SourceProcessor.LoadCollectionItems(s.value, c.contentType, resolve).Ok?)
  {
    match FindByUuid(store.collections, uuid)
    case None => Err(NotFound(uuid.text))
    case Some(c) =>
      if c.systemCollection then Err(Validation(SYSTEM_NOT_EDITED))
      else
        var source: Result<Option<Source>, ServiceError> :=
          match req.source
          case None => Ok(None)
          case Some(rs) =>
            (match c.source
             case Some(s) =>
               (match OverwriteSource(s, rs, rule)
                case Err(e) => Err(e)
                case Ok(s2) => Ok(Some(s2)))
             case None =>
               (match NewSource(rs, uuid)
                case Err(e) => Err(e)
                case Ok(s2) => Ok(Some(s2))));
        if source.Err? then Err(source.error)
        else
          var c2 := c.(description := req.description, source := source.value);
          match CollectionDetail(c2, resolve)
          case Err(e) => Err(e)
          case Ok(detail) => Ok(Done(Store(ReplaceByUuid(store.collections, uuid, c2)), detail))
  }

  /** As written, a collection that already has a source cannot be edited
      with a source that names no credential: parsing the absent credential
      uuid throws, although creating the same source succeeds. */
  lemma EditWithoutCredentialThrows(store: Store, uuid: Uuid, req: CollectionUpdateRequest, resolve: EnumSourceLoader.EnumResolver)
    requires FindByUuid(store.collections, uuid).Some?
    requires !FindByUuid(store.collections, uuid).value.systemCollection
    requires FindByUuid(store.collections, uuid).value.source.Some?
    requires req.source.Some? && req.source.value.credentialUuid.None?
    ensures EditCollection(store, uuid, req, resolve, CredentialRequired) == Err(NullPointer)
    ensures NewSource(req.source.value, uuid).Ok?
  {
  }

  /** With the credential optional, overwriting a source gives the same
      source as creating it from the request, whatever was there before. */
  lemma {:induction false} EditedSourceMatchesRequest(store: Store, uuid: Uuid, req: CollectionUpdateRequest, resolve: EnumSourceLoader.EnumResolver)
    requires req.source.Some? && FindByUuid(store.collections, uuid).Some?
    requires var c := FindByUuid(store.collections, uuid).value; c.source.Some? ==> c.source.value.collectionUuid == Some(uuid)
    ensures var r := EditCollection(store, uuid, req, resolve, CredentialOptional);
      r.Ok? ==>
        && FindByUuid(r.value.store.collections, uuid).Some?
        && FindByUuid(r.value.store.collections, uuid).value.source == Some(NewSource(req.source.value, uuid).value)
  {
    if EditCollection(store, uuid, req, resolve, CredentialOptional).Ok? {
      var c := FindByUuid(store.collections, uuid).value;
      var rs := req.source.value;
      var src := if c.source.Some? then OverwriteSource(c.source.value, rs, CredentialOptional) else NewSource(rs, uuid);
      var c2 := c.(description := req.description, source := Some(src.value));
      assert EditCollection(store, uuid, req, resolve, CredentialOptional).value.store == Store(ReplaceByUuid(store.collections, uuid, c2));
      FindReplaced(store.collections, uuid, c2);
    }
  }

  /** The two credential rules agree whenever the request names a
      credential or the collection has no source yet. */
  lemma CredentialRulesAgree(store: Store, uuid: Uuid, req: CollectionUpdateRequest, resolve: EnumSourceLoader.EnumResolver)
    requires req.source.None? || req.source.value.credentialUuid.Some? ||
             FindByUuid(store.collections, uuid).None? || FindByUuid(store.collections, uuid).value.source.None?
    ensures EditCollection(store, uuid, req, resolve, CredentialRequired) == EditCollection(store, uuid, req, resolve, CredentialOptional)
  {
  }

  /** `deleteCollection(collectionUuid)`: the collection goes with its items
      and source. */
  function DeleteCollection(store: Store, uuid: Uuid): (r: Result<Store, ServiceError>)
    ensures FindByUuid(store.collections, uuid).None? ==> r == Err(NotFound(uuid.text))
    ensures FindByUuid(store.collections, uuid).Some? && FindByUuid(store.collections, uuid).value.systemCollection ==>
      r == Err(Validation(SYSTEM_NOT_DELETED))
    ensures r.Err? ==> r.error.NotFound? || r.error.Validation?
    ensures r.Ok? ==> forall c :: c in r.value.collections <==> c in store.collections && c.uuid != uuid
    ensures r.Ok? ==> exists c :: c in store.collections && c.uuid == uuid && !c.systemCollection
  {
    match FindByUuid(store.collections, uuid)
    case None => Err(NotFound(uuid.text))
    case Some(c) =>
      if c.systemCollection then Err(Validation(SYSTEM_NOT_DELETED))
      else Ok(Store(RemoveByUuid(store.collections, uuid)))
  }

  /** `bulkDeleteCollections(collectionUuids)`: unknown and system
      collections are skipped. */
  function BulkDeleteCollections(store: Store, uuids: seq<Uuid>): (r: Store)
    decreases |uuids|
  {
    if |uuids| == 0 then store
    else
      var next := match DeleteCollection(store, uuids[0]) case Ok(s) => s case Err(_) => store;
      BulkDeleteCollections(next, uuids[1..])
  }

  /** All rows with one uuid agree on whether they are a system collection. */
  predicate SystemFlagPerUuid(cs: seq<Collection>)
  {
    forall c, d :: c in cs && d in cs && c.uuid == d.uuid ==> c.systemCollection == d.systemCollection
  }

  lemma UniqueUuidsFlag(s: Store)
    requires UniqueUuids(s)
    ensures SystemFlagPerUuid(s.collections)
  {
    forall c, d | c in s.collections && d in s.collections && c.uuid == d.uuid
      ensures c.systemCollection == d.systemCollection
    {
      var i :| 0 <= i < |s.collections| && s.collections[i] == c;
      var j :| 0 <= j < |s.collections| && s.collections[j] == d;
      assert i == j;
    }
  }

  /** A bulk delete removes exactly the listed collections that are not
      system collections, and keeps every other one. */
  lemma BulkDeleteRemovesListedUserCollections(store: Store, uuids: seq<Uuid>)
    requires UniqueUuids(store)
    ensures forall c :: c in BulkDeleteCollections(store, uuids).collections <==>
      c in store.collections && !(c.uuid in uuids && !c.systemCollection)
  {
    UniqueUuidsFlag(store);
    BulkDeleteByFlag(store, uuids);
  }

  lemma {:induction false} BulkDeleteByFlag(store: Store, uuids: seq<Uuid>)
    requires SystemFlagPerUuid(store.collections)
    ensures forall c :: c in BulkDeleteCollections(store, uuids).collections <==>
      c in store.collections && !(c.uuid in uuids && !c.systemCollection)
    decreases |uuids|
  {
    if |uuids| > 0 {
      var u := uuids[0];
      var next := match DeleteCollection(store, u) case Ok(s) => s case Err(_) => store;
      assert forall c :: c in next.collections <==> c in store.collections && !(c.uuid == u && !c.systemCollection) by {
        match FindByUuid(store.collections, u)
        case None =>
        case Some(found) =>
          if found.systemCollection {
            assert forall c :: c in store.collections && c.uuid == u ==> c.systemCollection;
          }
      }
      assert SystemFlagPerUuid(next.collections);
      BulkDeleteByFlag(next, uuids[1..]);
      assert forall x :: x in uuids <==> x == u || x in uuids[1..];
    }
  }

  // ---- items ----

  /** `addCollectionItem(collectionUuid, request)`; `newUuid` is the uuid the
      item is given when it is saved. The checks run in this order and the
      first that fails decides. */
  function AddCollectionItem(store: Store, uuid: Uuid, req: ItemRequest, newUuid: Uuid, check: ContentChecker): (r: Result<Done<ItemDto>, ServiceError>)
    ensures FindByUuid(store.collections, uuid).None? ==> r == Err(NotFound(uuid.text))
    ensures FindByUuid(store.collections, uuid).Some? ==>
      var c := FindByUuid(store.collections, uuid).value;
      && (c.systemCollection ==> r == Err(Validation(SYSTEM_NO_ADD)))
      && (!c.systemCollection && c.source.Some? ==> r == Err(Validation(SOURCE_NO_ADD)))
      && (!c.systemCollection && c.source.None? && req.content.data.None? ==> r == Err(Validation(CONTENT_EMPTY)))
      && (!c.systemCollection && c.source.None? && req.content.data.Some? && check(req.content, c.contentType).Some? ==>
            r == Err(Validation(CONTENT_INVALID + check(req.content, c.contentType).value)))
      && (!c.systemCollection && c.source.None? && req.content.data.Some? && check(req.content, c.contentType).None? &&
          (exists k :: 0 <= k < |c.items| && c.items[k].content == req.content) ==>
            r == Err(Validation(CONTENT_DUPLICATE + req.content.data.value)))
    // a request passing every check is added
    ensures r.Ok? <==>
      && FindByUuid(store.collections, uuid).Some?
      && var c := FindByUuid(store.collections, uuid).value;
      && !c.systemCollection && c.source.None? && req.content.data.Some? && check(req.content, c.contentType).None?
      && (forall k :: 0 <= k < |c.items| ==> c.items[k].content != req.content)
    // success appends one item to this collection and changes nothing else
    ensures r.Ok? ==>
      var c := FindByUuid(store.collections, uuid).value;
      var item := Item(newUuid, uuid, req.description, req.defaultItem, req.content);
      && !c.systemCollection && c.source.None? && req.content.data.Some? && check(req.content, c.contentType).None?
      && (forall k :: 0 <= k < |c.items| ==> c.items[k].content != req.content)
      && r.value.store == Store(ReplaceByUuid(store.collections, uuid, c.(items := c.items + [item])))
      && r.value.value == ItemToDto(item)
  {
    match FindByUuid(store.collections, uuid)
    case None => Err(NotFound(uuid.text))
    case Some(c) =>
      if c.systemCollection then Err(Validation(SYSTEM_NO_ADD))
      else if c.source.Some? then Err(Validation(SOURCE_NO_ADD))
      else if req.content.data.None? then Err(Validation(CONTENT_EMPTY))
      else if check(req.content, c.contentType).Some? then Err(Validation(CONTENT_INVALID + check(req.content, c.contentType).value))
      else if exists k :: 0 <= k < |c.items| && c.items[k].content == req.content then
        Err(Validation(CONTENT_DUPLICATE + req.content.data.value))
      else
        var item := Item(newUuid, uuid, req.description, req.defaultItem, req.content);
        Ok(Done(Store(ReplaceByUuid(store.collections, uuid, c.(items := c.items + [item]))), ItemToDto(item)))
  }

  /** Adding keeps the contents of a collection's items distinct. */
  lemma AddKeepsContentsDistinct(store: Store, uuid: Uuid, req: ItemRequest, newUuid: Uuid, check: ContentChecker)
    requires AddCollectionItem(store, uuid, req, newUuid, check).Ok?
    requires DistinctContents(FindByUuid(store.collections, uuid).value.items)
    ensures var c2 := FindByUuid(AddCollectionItem(store, uuid, req, newUuid, check).value.store.collections, uuid);
      c2.Some? && DistinctContents(c2.value.items)
  {
    var c := FindByUuid(store.collections, uuid).value;
    var item := Item(newUuid, uuid, req.description, req.defaultItem, req.content);
    var s := AddCollectionItem(store, uuid, req, newUuid, check).value.store;
    var i :| 0 <= i < |store.collections| && store.collections[i] == c;
    assert s.collections[i].uuid == uuid;
    var found := FindByUuid(s.collections, uuid).value;
    assert found == c.(items := c.items + [item]);
  }

  /** `importCollectionItems(collectionUuid, request)`: the collection's
      items are replaced by those of the CSV text; the k-th imported item is
      given `newUuid(k)`. */
  method ImportCollectionItems(store: Store, uuid: Uuid, content: string, decode: Base64Decoder,
                               newUuid: nat -> Uuid) returns (r: Result<Done<Detail>, ServiceError>)
    ensures FindByUuid(store.collections, uuid).None? ==> r == Err(NotFound(uuid.text))
    ensures FindByUuid(store.collections, uuid).Some? ==>
      var c := FindByUuid(store.collections, uuid).value;
      && (c.systemCollection ==> r == Err(Validation(SYSTEM_NO_IMPORT)))
      && (!c.systemCollection && c.source.Some? ==> r == Err(Validation(SOURCE_NO_IMPORT)))
      && (!c.systemCollection && c.source.None? && decode(content).None? ==> r == Err(IllegalArgument))
      && (!c.systemCollection && c.source.None? && decode(content).Some? ==>
            (r.Err? <==> CsvImport.ImportRows(decode(content).value).Err?))
    ensures r.Ok? ==>
      var c := FindByUuid(store.collections, uuid).value;
      var items := CsvImport.ImportedItems(CsvImport.ImportRows(decode(content).value).value, uuid, newUuid);
      && r.value.store == Store(ReplaceByUuid(store.collections, uuid, c.(items := items)))
      && r.value.value == CollectionDetail(c.(items := items), EmptyResolver).value
      && DistinctContents(items)
  {
    var found := FindByUuid(store.collections, uuid);
    if found.None? {
      return Err(NotFound(uuid.text));
    }
    var c := found.value;
    if c.systemCollection {
      return Err(Validation(SYSTEM_NO_IMPORT));
    }
    if c.source.Some? {
      return Err(Validation(SOURCE_NO_IMPORT));
    }
    var text := decode(content);
    if text.None? {
      return Err(IllegalArgument);
    }
    var rows := CsvImport.ParseCsv(text.value);
    if rows.Err? {
      return Err(rows.error);
    }
    var items := CsvImport.ImportedItems(rows.value, uuid, newUuid);
    CsvImport.ImportedContentsDistinct(text.value, uuid, newUuid);
    var c2 := c.(items := items);
    var detail := CollectionDetail(c2, EmptyResolver);
    r := Ok(Done(Store(ReplaceByUuid(store.collections, uuid, c2)), detail.value));
  }

  /** No enum class resolves; used where no source is involved. */
  const EmptyResolver: EnumSourceLoader.EnumResolver := (name: string) => None

  /** How the duplicate check of an item edit recognises the item being
      edited: as written by comparing the printed uuid with the request's
      text, or by comparing uuids. */
  datatype ItemSkipRule = SkipByText | SkipByUuid

  predicate Skipped(rule: ItemSkipRule, item: Item, text: string, parsed: Uuid)
  {
    match rule
    case SkipByText => item.uuid.text == text
    case SkipByUuid => item.uuid == parsed
  }

  /** Some other item of the collection already holds the content. */
  predicate ClashFound(items: seq<Item>, content: Content, rule: ItemSkipRule, text: string, parsed: Uuid)
  {
    exists k :: 0 <= k < |items| && !Skipped(rule, items[k], text, parsed) && items[k].content == content
  }

  /** `editCollectionItem(collectionUuid, collectionItemUuid, request)`. The
      item is looked up among all items, but checked against this
      collection's content type and items. */
  function EditCollectionItem(store: Store, uuid: Uuid, itemText: string, req: ItemRequest, check: ContentChecker,
                              rule: ItemSkipRule): (r: Result<Done<ItemDto>, ServiceError>)
    ensures FindByUuid(store.collections, uuid).None? ==> r == Err(NotFound(uuid.text))
    ensures FindByUuid(store.collections, uuid).Some? && ParseUuid(itemText).None? ==> r == Err(IllegalArgument)
    ensures (FindByUuid(store.collections, uuid).Some? && ParseUuid(itemText).Some? &&
             FindItem(store.collections, ParseUuid(itemText).value).None?) ==> r == Err(NotFound(itemText))
    ensures r.Ok? ==>
      var c := FindByUuid(store.collections, uuid).value;
      var iu := ParseUuid(itemText).value;
      var edited := FindItem(store.collections, iu).value.(description := req.description,
        defaultItem := req.defaultItem, content := req.content);
      && check(req.content, c.contentType).None?
      && !ClashFound(c.items, req.content, rule, itemText, iu)
      && r.value.store == Store(SaveItem(store.collections, edited))
      && r.value.value == ItemToDto(edited)
    ensures r.Err? && r.error.Validation? && FindByUuid(store.collections, uuid).Some? && ParseUuid(itemText).Some? ==>
      var c := FindByUuid(store.collections, uuid).value;
      (check(req.content, c.contentType).Some? &&
       r.error.message == CONTENT_INVALID + check(req.content, c.contentType).value) ||
      (check(req.content, c.contentType).None? && ClashFound(c.items, req.content, rule, itemText, ParseUuid(itemText).value) &&
       req.content.data.Some? && r.error.message == CONTENT_DUPLICATE + req.content.data.value)
    // once collection and item are found, the content check and then the clash decide
    ensures FindByUuid(store.collections, uuid).Some? && ParseUuid(itemText).Some? &&
            FindItem(store.collections, ParseUuid(itemText).value).Some? ==>
      var c := FindByUuid(store.collections, uuid).value;
      var iu := ParseUuid(itemText).value;
      && (check(req.content, c.contentType).Some? ==>
            r == Err(Validation(CONTENT_INVALID + check(req.content, c.contentType).value)))
      && (check(req.content, c.contentType).None? && ClashFound(c.items, req.content, rule, itemText, iu) ==>
            r == if req.content.data.None? then Err(NullPointer)
                 else Err(Validation(CONTENT_DUPLICATE + req.content.data.value)))
      && (check(req.content, c.contentType).None? && !ClashFound(c.items, req.content, rule, itemText, iu) ==> r.Ok?)
  {
    match FindByUuid(store.collections, uuid)
    case None => Err(NotFound(uuid.text))
    case Some(c) =>
      match ParseUuid(itemText)
      case None => Err(IllegalArgument)
      case Some(iu) =>
        match FindItem(store.collections, iu)
        case None => Err(NotFound(itemText))
        case Some(item) =>
          if check(req.content, c.contentType).Some? then Err(Validation(CONTENT_INVALID + check(req.content, c.contentType).value))
          else if ClashFound(c.items, req.content, rule, itemText, iu) then
            // the duplicate message prints the content's data
            if req.content.data.None? then Err(NullPointer) else Err(Validation(CONTENT_DUPLICATE + req.content.data.value))
          else
            var edited := item.(description := req.description, defaultItem := req.defaultItem, content := req.content);
            Ok(Done(Store(SaveItem(store.collections, edited)), ItemToDto(edited)))
  }

  /** After an edit, looking the item up by its uuid finds it with the
      request's description, default flag and content, in the collection
      that held it; every other item row is as it was. */
  lemma {:induction false} EditedItemReadBack(store: Store, uuid: Uuid, itemText: string, req: ItemRequest,
                                              check: ContentChecker, rule: ItemSkipRule)
    requires EditCollectionItem(store, uuid, itemText, req, check, rule).Ok?
    ensures var iu := ParseUuid(itemText).value;
      var before := FindItem(store.collections, iu).value;
      var after := EditCollectionItem(store, uuid, itemText, req, check, rule).value.store.collections;
      && FindItem(after, iu) == Some(before.(description := req.description, defaultItem := req.defaultItem,
                                              content := req.content))
      && |after| == |store.collections|
      && forall i, k :: 0 <= i < |store.collections| && 0 <= k < |store.collections[i].items| &&
                        store.collections[i].items[k].uuid != iu ==>
           after[i].items[k] == store.collections[i].items[k]
  {
    var iu := ParseUuid(itemText).value;
    var before := FindItem(store.collections, iu).value;
    var edited := before.(description := req.description, defaultItem := req.defaultItem, content := req.content);
    FindSavedItem(store.collections, edited);
  }

  /** As written, an item addressed by an upper-case spelling of its uuid is
      not recognised as itself: editing only its description reports its
      own content as a duplicate. */
  lemma UpperCaseUuidClashesWithItself(store: Store, uuid: Uuid, itemText: string, req: ItemRequest, check: ContentChecker)
    requires FindByUuid(store.collections, uuid).Some?
    requires ParseUuid(itemText).Some? && ParseUuid(itemText).value.text != itemText
    requires var c := FindByUuid(store.collections, uuid).value;
      exists k :: 0 <= k < |c.items| && c.items[k].uuid == ParseUuid(itemText).value && c.items[k].content == req.content
    requires check(req.content, FindByUuid(store.collections, uuid).value.contentType).None?
    requires req.content.data.Some?
    ensures EditCollectionItem(store, uuid, itemText, req, check, SkipByText) == Err(Validation(CONTENT_DUPLICATE + req.content.data.value))
  {
    var c := FindByUuid(store.collections, uuid).value;
    var k :| 0 <= k < |c.items| && c.items[k].uuid == ParseUuid(itemText).value && c.items[k].content == req.content;
    assert !Skipped(SkipByText, c.items[k], itemText, ParseUuid(itemText).value);
    assert FindItem(store.collections, ParseUuid(itemText).value).Some? by {
      var i :| 0 <= i < |store.collections| && store.collections[i] == c;
      assert store.collections[i].items[k].uuid == ParseUuid(itemText).value;
    }
  }

  /** A uuid text in upper case that `UUID.fromString` accepts. */
  lemma UpperCaseUuidParses()
    ensures var t := "AAAAAAAA-0000-0000-0000-000000000000";
      ParseUuid(t) == Some(Uuid("aaaaaaaa-0000-0000-0000-000000000000")) && ParseUuid(t).value.text != t
  {
    var t := "AAAAAAAA-0000-0000-0000-000000000000";
    var u := "aaaaaaaa-0000-0000-0000-000000000000";
    assert DashedHex(t);
    var p := ParseUuid(t).value.text;
    assert |p| == |u| && forall i :: 0 <= i < |p| ==> p[i] == u[i];
    assert p == u;
  }

  /** Recognising the item by uuid, an edit that keeps an item's content
      (a new description or default flag) is never refused as a duplicate
      while the collection's contents are distinct. */
  lemma EditKeepingContentSucceeds(store: Store, uuid: Uuid, itemText: string, req: ItemRequest, check: ContentChecker)
    requires FindByUuid(store.collections, uuid).Some?
    requires ParseUuid(itemText).Some?
    requires var c := FindByUuid(store.collections, uuid).value;
      DistinctContents(c.items) &&
      exists k :: 0 <= k < |c.items| && c.items[k].uuid == ParseUuid(itemText).value && c.items[k].content == req.content
    requires check(req.content, FindByUuid(store.collections, uuid).value.contentType).None?
    ensures EditCollectionItem(store, uuid, itemText, req, check, SkipByUuid).Ok?
  {
    var c := FindByUuid(store.collections, uuid).value;
    var iu := ParseUuid(itemText).value;
    var k :| 0 <= k < |c.items| && c.items[k].uuid == iu && c.items[k].content == req.content;
    assert !ClashFound(c.items, req.content, SkipByUuid, itemText, iu) by {
      forall j | 0 <= j < |c.items| && !Skipped(SkipByUuid, c.items[j], itemText, iu)
        ensures c.items[j].content != req.content
      {
        assert j != k;
      }
    }
    assert FindItem(store.collections, iu).Some? by {
      var i :| 0 <= i < |store.collections| && store.collections[i] == c;
      assert store.collections[i].items[k].uuid == iu;
    }
  }

  /** For a uuid given in its printed form the two rules agree. */
  lemma SkipRulesAgreeOnPrintedUuid(store: Store, uuid: Uuid, itemText: string, req: ItemRequest, check: ContentChecker)
    requires ParseUuid(itemText).Some? ==> ParseUuid(itemText).value.text == itemText
    ensures EditCollectionItem(store, uuid, itemText, req, check, SkipByText) ==
            EditCollectionItem(store, uuid, itemText, req, check, SkipByUuid)
  {
    if ParseUuid(itemText).Some? {
      var iu := ParseUuid(itemText).value;
      var c := FindByUuid(store.collections, uuid);
      if c.Some? {
        assert forall k :: 0 <= k < |c.value.items| ==>
          (Skipped(SkipByText, c.value.items[k], itemText, iu) <==> Skipped(SkipByUuid, c.value.items[k], itemText, iu));
      }
    }
  }

  /** `deleteCollectionItem(collectionUuid, collectionItemUuid)`: the item is
      found among all items; the collection uuid is not consulted. */
  function DeleteCollectionItem(store: Store, uuid: Uuid, itemText: string): (r: Result<Store, ServiceError>)
    ensures ParseUuid(itemText).None? <==> r == Err(IllegalArgument)
    ensures ParseUuid(itemText).Some? && !ItemExists(store.collections, ParseUuid(itemText).value) ==> r == Err(NotFound(itemText))
    ensures r.Ok? ==>
      && ItemExists(store.collections, ParseUuid(itemText).value)
      && r.value == Store(DeleteItem(store.collections, ParseUuid(itemText).value))
  {
    match ParseUuid(itemText)
    case None => Err(IllegalArgument)
    case Some(iu) =>
      if FindItem(store.collections, iu).None? then Err(NotFound(itemText))
      else Ok(Store(DeleteItem(store.collections, iu)))
  }

  /** The collection named in the request plays no part in deleting an item. */
  lemma DeleteItemIgnoresCollection(store: Store, u1: Uuid, u2: Uuid, itemText: string)
    ensures DeleteCollectionItem(store, u1, itemText) == DeleteCollectionItem(store, u2, itemText)
  {
  }

  /** `bulkDeleteCollectionItems(collectionUuid, collectionItemUuids)`:
      unknown items are skipped, but a text that is not a uuid aborts the
      whole request and nothing is deleted. */
  function BulkDeleteCollectionItems(store: Store, uuid: Uuid, texts: seq<string>): (r: Result<Store, ServiceError>)
    decreases |texts|
  {
    if |texts| == 0 then Ok(store)
    else match DeleteCollectionItem(store, uuid, texts[0])
      case Err(IllegalArgument) => Err(IllegalArgument)
      case Err(_) => BulkDeleteCollectionItems(store, uuid, texts[1..])
      case Ok(s) => BulkDeleteCollectionItems(s, uuid, texts[1..])
  }

  /** Items left after deleting every item whose uuid is listed. */
  predicate Survives(it: Item, texts: seq<string>)
  {
    forall t :: t in texts ==> ParseUuid(t) != Some(it.uuid)
  }

  /** A bulk item delete fails exactly when some text is not a uuid; when it
      succeeds, each collection keeps exactly its items whose uuid is not
      listed, and the collections themselves are untouched. */
  lemma {:induction false} BulkDeleteItemsRemovesListed(store: Store, uuid: Uuid, texts: seq<string>)
    ensures var r := BulkDeleteCollectionItems(store, uuid, texts);
      && (r.Err? <==> exists t :: t in texts && ParseUuid(t).None?)
      && (r.Ok? ==>
            && |r.value.collections| == |store.collections|
            && forall i :: 0 <= i < |store.collections| ==>
                 && r.value.collections[i] == store.collections[i].(items := r.value.collections[i].items)
                 && forall it :: it in r.value.collections[i].items <==> it in store.collections[i].items && Survives(it, texts))
    decreases |texts|
  {
    if |texts| > 0 {
      var t := texts[0];
      var rest := texts[1..];
      assert forall x :: x in texts <==> x == t || x in rest;
      match DeleteCollectionItem(store, uuid, t)
      case Err(e) =>
        if e != IllegalArgument {
          BulkDeleteItemsRemovesListed(store, uuid, rest);
          var iu := ParseUuid(t).value;
          assert !ItemExists(store.collections, iu);
        }
      case Ok(s) =>
        BulkDeleteItemsRemovesListed(s, uuid, rest);
    }
  }
}
