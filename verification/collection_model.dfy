/** The collection entities (`Collection`, `CollectionItem`,
    `CollectionSource`) as plain values, the repositories as a sequence of
    collections that own their items, and the exceptions the collection code
    raises. */
module CollectionModel {
  import opened Common

  // ---- uuids ----

  /** A uuid, held as the text `UUID.toString()` gives. */
  datatype Uuid = Uuid(text: string)

  predicate IsHexDigit(c: char)
  {
    ('0' <= c <= '9') || ('a' <= c <= 'f') || ('A' <= c <= 'F')
  }

  predicate IsDashPosition(i: int)
  {
    i == 8 || i == 13 || i == 18 || i == 23
  }

  /** The dashed 8-4-4-4-12 hex form, in either case. */
  predicate DashedHex(s: string)
  {
    |s| == 36 && forall i :: 0 <= i < 36 ==> if IsDashPosition(i) then s[i] == '-' else IsHexDigit(s[i])
  }

  /** The form `UUID.toString()` produces: dashed hex in lower case. */
  predicate Canonical(u: Uuid)
  {
    DashedHex(u.text) && forall i :: 0 <= i < |u.text| ==> !('A' <= u.text[i] <= 'F')
  }

  function LowerHexChar(c: char): (r: char)
    ensures !('A' <= r <= 'F')
    ensures IsHexDigit(c) ==> IsHexDigit(r)
    ensures c == '-' ==> r == '-'
  {
    if 'A' <= c <= 'F' then ((c as int) + 32) as char else c
  }

  /** `UUID.fromString(s)` for the dashed form; None is the
      `IllegalArgumentException` it throws otherwise. The uuid it denotes
      prints in lower case. */
  function ParseUuid(s: string): (r: Option<Uuid>)
    ensures r.Some? <==> DashedHex(s)
    ensures r.Some? ==> Canonical(r.value) && |r.value.text| == |s|
    ensures r.Some? ==> forall i :: 0 <= i < |s| ==> r.value.text[i] == LowerHexChar(s[i])
  {
    if DashedHex(s) then Some(Uuid(seq(|s|, i requires 0 <= i < |s| => LowerHexChar(s[i])))) else None
  }

  /** Parsing the printed form of a uuid gives the uuid back. */
  lemma ParsePrinted(u: Uuid)
    requires Canonical(u)
    ensures ParseUuid(u.text) == Some(u)
  {
    var t := ParseUuid(u.text).value.text;
    assert |t| == |u.text|;
    assert forall i :: 0 <= i < |t| ==> t[i] == u.text[i];
    assert t == u.text;
  }

  // ---- entities ----

  datatype ContentType = ContentType(code: string)

  /** `BaseAttributeContent`: a reference and the data, as text. */
  datatype Content = Content(reference: Option<string>, data: Option<string>)

  datatype SourceType = EnumSource | RestApiSource | CsvFileSource

  datatype Source = Source(
    sourceType: SourceType,
    name: Option<string>,
    url: Option<string>,
    credentialUuid: Option<Uuid>,
    collectionUuid: Option<Uuid>)

  datatype Item = Item(
    uuid: Uuid,
    collectionUuid: Uuid,
    description: Option<string>,
    defaultItem: bool,
    content: Content)

  datatype Collection = Collection(
    uuid: Uuid,
    name: string,
    description: Option<string>,
    contentType: ContentType,
    systemCollection: bool,
    items: seq<Item>,
    source: Option<Source>)

  /** The collection table with each collection's items and source. */
  datatype Store = Store(collections: seq<Collection>)

  /** The exceptions the collection code raises. */
  datatype ServiceError =
    | NotFound(uuid: string)
    | Validation(message: string)
    | AlreadyExist(message: string)
    | NullPointer
    | IllegalArgument
    | IndexOutOfBounds
    | DuplicateKey         // `Collectors.toMap` meeting a name twice

  /** `CollectionItemDto`. */
  datatype ItemDto = ItemDto(
    uuid: string,
    collectionUuid: string,
    description: Option<string>,
    defaultItem: bool,
    content: Content)

  /** `CollectionItem.mapToDto`. */
  function ItemToDto(i: Item): ItemDto
  {
    ItemDto(i.uuid.text, i.collectionUuid.text, i.description, i.defaultItem, i.content)
  }

  function Contents(items: seq<Item>): (r: seq<Content>)
    ensures |r| == |items| && forall i :: 0 <= i < |items| ==> r[i] == items[i].content
  {
    seq(|items|, i requires 0 <= i < |items| => items[i].content)
  }

  function ItemDtos(items: seq<Item>): (r: seq<ItemDto>)
    ensures |r| == |items| && forall i :: 0 <= i < |items| ==> r[i] == ItemToDto(items[i])
  {
    seq(|items|, i requires 0 <= i < |items| => ItemToDto(items[i]))
  }

  // ---- repository queries ----

  predicate UniqueUuids(s: Store)
  {
    forall i, j :: 0 <= i < j < |s.collections| ==> s.collections[i].uuid != s.collections[j].uuid
  }

  predicate UniqueNames(s: Store)
  {
    forall i, j :: 0 <= i < j < |s.collections| ==> s.collections[i].name != s.collections[j].name
  }

  /** `findByUuid`. */
  function FindByUuid(cs: seq<Collection>, u: Uuid): (r: Option<Collection>)
    ensures r.None? <==> forall i :: 0 <= i < |cs| ==> cs[i].uuid != u
    ensures r.Some? ==> r.value in cs && r.value.uuid == u
    decreases |cs|
  {
    if |cs| == 0 then None else if cs[0].uuid == u then Some(cs[0]) else FindByUuid(cs[1..], u)
  }

  /** `findByName`. */
  function FindByName(cs: seq<Collection>, name: string): (r: Option<Collection>)
    ensures r.None? <==> forall i :: 0 <= i < |cs| ==> cs[i].name != name
    ensures r.Some? ==> r.value in cs && r.value.name == name
    decreases |cs|
  {
    if |cs| == 0 then None else if cs[0].name == name then Some(cs[0]) else FindByName(cs[1..], name)
  }

  /** Saving a changed collection: the row with its uuid takes the new value. */
  function ReplaceByUuid(cs: seq<Collection>, u: Uuid, c: Collection): (r: seq<Collection>)
    ensures |r| == |cs|
    ensures forall i :: 0 <= i < |cs| ==> r[i] == if cs[i].uuid == u then c else cs[i]
  {
    seq(|cs|, i requires 0 <= i < |cs| => if cs[i].uuid == u then c else cs[i])
  }

  /** After saving a changed collection under its own uuid, looking the
      uuid up finds the changed collection. */
  lemma FindReplaced(cs: seq<Collection>, u: Uuid, c: Collection)
    requires c.uuid == u && FindByUuid(cs, u).Some?
    ensures FindByUuid(ReplaceByUuid(cs, u, c), u) == Some(c)
  {
    var r := ReplaceByUuid(cs, u, c);
    var i :| 0 <= i < |cs| && cs[i] == FindByUuid(cs, u).value;
    assert r[i] == c;
    var found := FindByUuid(r, u).value;
    var j :| 0 <= j < |r| && r[j] == found;
  }

  /** Deleting a collection, with its items and source. */
  function RemoveByUuid(cs: seq<Collection>, u: Uuid): (r: seq<Collection>)
    ensures forall c :: c in r <==> c in cs && c.uuid != u
    ensures |r| <= |cs|
    decreases |cs|
  {
    if |cs| == 0 then []
    else if cs[0].uuid == u then RemoveByUuid(cs[1..], u)
    else [cs[0]] + RemoveByUuid(cs[1..], u)
  }

  /** Every item, whatever its collection (the item repository). */
  predicate ItemExists(cs: seq<Collection>, u: Uuid)
  {
    exists i, k :: 0 <= i < |cs| && 0 <= k < |cs[i].items| && cs[i].items[k].uuid == u
  }

  /** The item repository's `findByUuid`. */
  function FindItem(cs: seq<Collection>, u: Uuid): (r: Option<Item>)
    ensures r.None? <==> !ItemExists(cs, u)
    ensures r.Some? ==> r.value.uuid == u && exists i :: 0 <= i < |cs| && r.value in cs[i].items
    decreases |cs|
  {
    if |cs| == 0 then None
    else match FindItemIn(cs[0].items, u)
      case Some(it) => Some(it)
      case None =>
        var r := FindItem(cs[1..], u);
        assert ItemExists(cs, u) ==> ItemExists(cs[1..], u) by {
          if ItemExists(cs, u) {
            var i, k :| 0 <= i < |cs| && 0 <= k < |cs[i].items| && cs[i].items[k].uuid == u;
            assert i > 0;
            assert cs[1..][i - 1] == cs[i];
          }
        }
        assert ItemExists(cs[1..], u) ==> ItemExists(cs, u) by {
          if ItemExists(cs[1..], u) {
            var i, k :| 0 <= i < |cs[1..]| && 0 <= k < |cs[1..][i].items| && cs[1..][i].items[k].uuid == u;
            assert cs[i + 1].items[k].uuid == u;
          }
        }
        assert r.Some? ==> exists i :: 1 <= i < |cs| && r.value in cs[i].items by {
          if r.Some? {
            var i :| 0 <= i < |cs[1..]| && r.value in cs[1..][i].items;
            assert r.value in cs[i + 1].items;
          }
        }
        r
  }

  function FindItemIn(items: seq<Item>, u: Uuid): (r: Option<Item>)
    ensures r.None? <==> forall k :: 0 <= k < |items| ==> items[k].uuid != u
    ensures r.Some? ==> r.value in items && r.value.uuid == u
    decreases |items|
  {
    if |items| == 0 then None else if items[0].uuid == u then Some(items[0]) else FindItemIn(items[1..], u)
  }

  /** Items whose uuid is not `u`, kept in order. */
  function WithoutItem(items: seq<Item>, u: Uuid): (r: seq<Item>)
    ensures forall it :: it in r <==> it in items && it.uuid != u
    decreases |items|
  {
    if |items| == 0 then []
    else if items[0].uuid == u then WithoutItem(items[1..], u)
    else [items[0]] + WithoutItem(items[1..], u)
  }

  /** Deleting an item row, from whichever collection holds it. */
  function DeleteItem(cs: seq<Collection>, u: Uuid): (r: seq<Collection>)
    ensures |r| == |cs|
    ensures forall i :: 0 <= i < |cs| ==> r[i] == cs[i].(items := WithoutItem(cs[i].items, u))
  {
    seq(|cs|, i requires 0 <= i < |cs| => cs[i].(items := WithoutItem(cs[i].items, u)))
  }

  /** Saving an edited item row, in whichever collection holds it. */
  function SaveItem(cs: seq<Collection>, it: Item): (r: seq<Collection>)
    ensures |r| == |cs|
    ensures forall i :: 0 <= i < |cs| ==> r[i].uuid == cs[i].uuid && r[i].name == cs[i].name && |r[i].items| == |cs[i].items|
    // only item rows change, and only the rows with the saved uuid
    ensures forall i :: 0 <= i < |cs| ==> r[i] == cs[i].(items := r[i].items)
    ensures forall i, k :: 0 <= i < |cs| && 0 <= k < |cs[i].items| ==>
      r[i].items[k] == if cs[i].items[k].uuid == it.uuid then it else cs[i].items[k]
  {
    seq(|cs|, i requires 0 <= i < |cs| =>
      cs[i].(items := seq(|cs[i].items|, k requires 0 <= k < |cs[i].items| =>
        if cs[i].items[k].uuid == it.uuid then it else cs[i].items[k])))
  }

  /** Saving an item row that exists and looking its uuid up again finds
      the saved row. */
  lemma {:induction false} FindSavedItem(cs: seq<Collection>, it: Item)
    requires ItemExists(cs, it.uuid)
    ensures FindItem(SaveItem(cs, it), it.uuid) == Some(it)
  {
    var r := SaveItem(cs, it);
    var i, k :| 0 <= i < |cs| && 0 <= k < |cs[i].items| && cs[i].items[k].uuid == it.uuid;
    assert r[i].items[k].uuid == it.uuid;
    var found := FindItem(r, it.uuid).value;
    var j :| 0 <= j < |r| && found in r[j].items;
    var l :| 0 <= l < |r[j].items| && r[j].items[l] == found;
    assert found == it;
  }

  /** No two items of a collection hold the same content. */
  predicate DistinctContents(items: seq<Item>)
  {
    forall j, k :: 0 <= j < k < |items| ==> items[j].content != items[k].content
  }
}
