/** The CSV text of an item import: one item per line, `value;description`,
    carriage returns dropped, lines whose value is empty skipped, and only
    the first line of each value kept. */
module CsvImport {
  import opened Common
  import opened JavaText
  import opened CollectionModel

  /** An imported line: the item's value and its optional description. */
  datatype Row = Row(value: string, description: Option<string>)

  /** `s.replace("\r", "")` for one character. */
  function WithoutChar(s: string, c: char): (r: string)
    ensures c !in r
    ensures forall x :: x != c ==> (x in r <==> x in s)
    ensures c !in s ==> r == s
    decreases |s|
  {
    if |s| == 0 then ""
    else if s[0] == c then WithoutChar(s[1..], c)
    else
      var rest := WithoutChar(s[1..], c);
      assert forall x :: x in s <==> x == s[0] || x in s[1..];
      [s[0]] + rest
  }

  /** The lines of the decoded text. */
  function Lines(text: string): seq<string>
  {
    Split(WithoutChar(text, '\r'), '\n')
  }

  /** One line: a line made only of ';' splits into nothing and indexing
      field 0 throws; an empty first field is skipped. */
  function LineRow(line: string): (r: Result<Option<Row>, ServiceError>)
    ensures r.Err? <==> Split(line, ';') == []
    ensures r.Err? ==> r.error == IndexOutOfBounds
    ensures r.Ok? && r.value.Some? ==> r.value.value.value != "" && ';' !in r.value.value.value
  {
    var parts := Split(line, ';');
    if |parts| == 0 then Err(IndexOutOfBounds)
    else if parts[0] == "" then Ok(None)
    else Ok(Some(Row(parts[0], if |parts| > 1 then Some(parts[1]) else None)))
  }

  /** The rows of all lines in order, failing at the first line that throws. */
  function RowsOf(lines: seq<string>): (r: Result<seq<Row>, ServiceError>)
    ensures r.Err? <==> exists i :: 0 <= i < |lines| && Split(lines[i], ';') == []
    ensures r.Err? ==> r.error == IndexOutOfBounds
    ensures r.Ok? ==> forall k :: 0 <= k < |r.value| ==> r.value[k].value != "" && ';' !in r.value[k].value
    decreases |lines|
  {
    if |lines| == 0 then Ok([])
    else
      var init := lines[..|lines| - 1];
      assert forall i :: 0 <= i < |init| ==> init[i] == lines[i];
      match RowsOf(init)
      case Err(e) => Err(e)
      case Ok(prefix) =>
        match LineRow(lines[|lines| - 1])
        case Err(e) => Err(e)
        case Ok(row) => Ok(prefix + if row.Some? then [row.value] else [])
  }

  function Values(rows: seq<Row>): set<string>
  {
    set k | 0 <= k < |rows| :: rows[k].value
  }

  /** The index of the first row holding `v`. */
  function FirstIndex(rows: seq<Row>, v: string): (i: nat)
    requires v in Values(rows)
    ensures i < |rows| && rows[i].value == v
    ensures forall j :: 0 <= j < i ==> rows[j].value != v
    decreases |rows|
  {
    var init := rows[..|rows| - 1];
    if v in Values(init) then
      var i := FirstIndex(init, v);
      assert rows[i] == init[i];
      i
    else
      assert forall j :: 0 <= j < |init| ==> init[j].value in Values(init);
      |rows| - 1
  }

  lemma ValuesSnoc(rows: seq<Row>, x: Row)
    ensures Values(rows + [x]) == Values(rows) + {x.value}
  {
    var all := rows + [x];
    forall k | 0 <= k < |rows| ensures rows[k].value in Values(all) {
      assert all[k] == rows[k];
    }
    assert all[|rows|] == x;
  }

  /** The rows whose value has not appeared on an earlier row. */
  function KeepFirst(rows: seq<Row>): (r: seq<Row>)
    ensures Values(r) == Values(rows)
    ensures forall j, k :: 0 <= j < k < |r| ==> r[j].value != r[k].value
    decreases |rows|
  {
    if |rows| == 0 then []
    else
      var init := rows[..|rows| - 1];
      var last := rows[|rows| - 1];
      var kept := KeepFirst(init);
      assert rows == init + [last];
      ValuesSnoc(init, last);
      if last.value in Values(kept) then kept
      else
        ValuesSnoc(kept, last);
        assert forall k :: 0 <= k < |kept| ==> kept[k].value in Values(kept);
        kept + [last]
  }

  /** How one more row extends the kept rows. */
  lemma KeepFirstSnoc(rows: seq<Row>, x: Row)
    ensures KeepFirst(rows + [x]) == if x.value in Values(rows) then KeepFirst(rows) else KeepFirst(rows) + [x]
  {
    assert (rows + [x])[..|rows|] == rows;
  }

  lemma FirstIndexOfPrefix(rows: seq<Row>, v: string)
    requires |rows| > 0 && v in Values(rows[..|rows| - 1])
    ensures v in Values(rows)
    ensures FirstIndex(rows, v) == FirstIndex(rows[..|rows| - 1], v)
  {
    var init := rows[..|rows| - 1];
    var i := FirstIndex(init, v);
    assert rows[i] == init[i];
  }

  /** Each row of `r` is the first row of `rows` holding its value, and the
      rows of `r` come in the order of those first rows. */
  predicate TakesFirst(rows: seq<Row>, r: seq<Row>)
  {
    && (forall k :: 0 <= k < |r| ==> r[k].value in Values(rows))
    && (forall k :: 0 <= k < |r| ==> r[k] == rows[FirstIndex(rows, r[k].value)])
    && (forall j, k :: 0 <= j < k < |r| ==> FirstIndex(rows, r[j].value) < FirstIndex(rows, r[k].value))
  }

  /** Rows already kept find their first row at the same index after one
      more row is appended. */
  lemma {:induction false} KeptIndicesStay(init: seq<Row>, last: Row)
    requires TakesFirst(init, KeepFirst(init))
    ensures var kept := KeepFirst(init);
      forall k :: 0 <= k < |kept| ==>
        && kept[k].value in Values(init + [last])
        && FirstIndex(init + [last], kept[k].value) == FirstIndex(init, kept[k].value)
        && kept[k] == (init + [last])[FirstIndex(init, kept[k].value)]
  {
    var rows := init + [last];
    var kept := KeepFirst(init);
    assert rows[..|rows| - 1] == init;
    forall k | 0 <= k < |kept|
      ensures kept[k].value in Values(rows)
      ensures FirstIndex(rows, kept[k].value) == FirstIndex(init, kept[k].value)
      ensures kept[k] == rows[FirstIndex(init, kept[k].value)]
    {
      FirstIndexOfPrefix(rows, kept[k].value);
    }
  }

  /** A row with a new value is the first row of that value and comes
      after every row kept before it. */
  lemma {:induction false} TakesFirstSnocNew(init: seq<Row>, last: Row)
    requires TakesFirst(init, KeepFirst(init))
    requires last.value !in Values(init)
    ensures TakesFirst(init + [last], KeepFirst(init) + [last])
  {
    var rows := init + [last];
    var kept := KeepFirst(init);
    var r := kept + [last];
    KeptIndicesStay(init, last);
    ValuesSnoc(init, last);
    assert rows[..|rows| - 1] == init;
    assert FirstIndex(rows, last.value) == |init|;
    forall k | 0 <= k < |r|
      ensures r[k].value in Values(rows) && r[k] == rows[FirstIndex(rows, r[k].value)]
    {
      if k < |kept| { assert r[k] == kept[k]; } else { assert r[k] == last; }
    }
    forall j, k | 0 <= j < k < |r|
      ensures FirstIndex(rows, r[j].value) < FirstIndex(rows, r[k].value)
    {
      assert r[j] == kept[j];
      if k < |kept| {
        assert r[k] == kept[k];
      } else {
        assert r[k] == last;
        assert FirstIndex(init, kept[j].value) < |init|;
      }
    }
  }

  /** One more row keeps the first-row property of the kept rows. */
  lemma {:induction false} TakesFirstSnoc(init: seq<Row>, last: Row)
    requires TakesFirst(init, KeepFirst(init))
    ensures TakesFirst(init + [last], KeepFirst(init + [last]))
  {
    KeepFirstSnoc(init, last);
    if last.value in Values(init) {
      KeptIndicesStay(init, last);
    } else {
      TakesFirstSnocNew(init, last);
    }
  }

  /** Each kept row is the first row holding its value, and the kept rows
      come in the order of those first rows. */
  lemma {:induction false} KeepFirstTakesFirst(rows: seq<Row>)
    ensures TakesFirst(rows, KeepFirst(rows))
    decreases |rows|
  {
    if |rows| > 0 {
      var init := rows[..|rows| - 1];
      var last := rows[|rows| - 1];
      KeepFirstTakesFirst(init);
      assert rows == init + [last];
      TakesFirstSnoc(init, last);
    }
  }

  /** What an import yields for the decoded text: the rows of every line,
      keeping each value's first row. */
  function ImportRows(text: string): (r: Result<seq<Row>, ServiceError>)
    ensures r.Err? <==> exists i :: 0 <= i < |Lines(text)| && Split(Lines(text)[i], ';') == []
    ensures r.Ok? ==> forall j, k :: 0 <= j < k < |r.value| ==> r.value[j].value != r.value[k].value
  {
    match RowsOf(Lines(text))
    case Err(e) => Err(e)
    case Ok(rows) => Ok(KeepFirst(rows))
  }

  /** One more line extends the rows of the lines before it. */
  lemma RowsOfStep(lines: seq<string>, i: nat)
    requires i < |lines| && RowsOf(lines[..i]).Ok?
    ensures RowsOf(lines[..i + 1]) ==
      match LineRow(lines[i])
      case Err(e) => Err(e)
      case Ok(row) => Ok(RowsOf(lines[..i]).value + if row.Some? then [row.value] else [])
  {
    assert lines[..i + 1][..i] == lines[..i];
  }

  /** The parsing loop of `importCollectionItems`, with its set of values
      already imported. */
  method ParseCsv(text: string) returns (r: Result<seq<Row>, ServiceError>)
    ensures r == ImportRows(text)
  {
    var lines := Lines(text);
    var rows: seq<Row> := [];
    var seen: set<string> := {};
    var i := 0;
    while i < |lines|
      invariant 0 <= i <= |lines|
      invariant RowsOf(lines[..i]).Ok?
      invariant rows == KeepFirst(RowsOf(lines[..i]).value)
      invariant seen == Values(rows)
    {
      RowsOfStep(lines, i);
      var parts := Split(lines[i], ';');
      if |parts| == 0 {
        assert Split(lines[i], ';') == [];
        return Err(IndexOutOfBounds);
      }
      ghost var prefix := RowsOf(lines[..i]).value;
      if parts[0] == "" {
        assert RowsOf(lines[..i + 1]).value == prefix + [];
        assert prefix + [] == prefix;
        i := i + 1;
        continue;
      }
      var row := Row(parts[0], if |parts| > 1 then Some(parts[1]) else None);
      assert RowsOf(lines[..i + 1]).value == prefix + [row];
      KeepFirstSnoc(prefix, row);
      if parts[0] in seen {
        assert row.value in Values(prefix);
        assert KeepFirst(RowsOf(lines[..i + 1]).value) == rows;
        i := i + 1;
        continue;
      }
      assert KeepFirst(RowsOf(lines[..i + 1]).value) == rows + [row];
      ValuesSnoc(rows, row);
      seen := seen + {parts[0]};
      rows := rows + [row];
      i := i + 1;
    }
    assert lines[..|lines|] == lines;
    r := Ok(rows);
  }

  /** A value is imported exactly when some line's first field holds it. */
  lemma {:induction false} ImportedValues(lines: seq<string>, v: string)
    requires RowsOf(lines).Ok?
    ensures v in Values(RowsOf(lines).value) <==>
      v != "" && exists i :: 0 <= i < |lines| && Split(lines[i], ';')[0] == v
    decreases |lines|
  {
    if |lines| > 0 {
      var init := lines[..|lines| - 1];
      var line := lines[|lines| - 1];
      assert forall i :: 0 <= i < |init| ==> init[i] == lines[i];
      ImportedValues(init, v);
      var prefix := RowsOf(init).value;
      var row := LineRow(line).value;
      var rows := RowsOf(lines).value;
      assert rows == prefix + if row.Some? then [row.value] else [];
      assert Values(rows) == Values(prefix) + (if row.Some? then {row.value.value} else {}) by {
        forall k | 0 <= k < |prefix| ensures prefix[k].value in Values(rows) {
          assert rows[k] == prefix[k];
        }
        if row.Some? {
          assert rows[|rows| - 1] == row.value;
        }
      }
      if v != "" && exists i :: 0 <= i < |lines| && Split(lines[i], ';')[0] == v {
        var i :| 0 <= i < |lines| && Split(lines[i], ';')[0] == v;
        if i == |lines| - 1 {
          assert row.Some? && row.value.value == v;
        } else {
          assert init[i] == lines[i];
        }
      }
    }
  }

  /** The items an import stores: newUuid uuids, the row's value as both
      reference and data, the row's description, never a default. */
  function ImportedItems(rows: seq<Row>, collectionUuid: Uuid, newUuid: nat -> Uuid): (r: seq<Item>)
    ensures |r| == |rows|
    ensures forall k :: 0 <= k < |rows| ==>
      r[k] == Item(newUuid(k), collectionUuid, rows[k].description, false, Content(Some(rows[k].value), Some(rows[k].value)))
  {
    seq(|rows|, k requires 0 <= k < |rows| =>
      Item(newUuid(k), collectionUuid, rows[k].description, false, Content(Some(rows[k].value), Some(rows[k].value))))
  }

  /** An import never stores two items with the same content. */
  lemma ImportedContentsDistinct(text: string, collectionUuid: Uuid, newUuid: nat -> Uuid)
    requires ImportRows(text).Ok?
    ensures DistinctContents(ImportedItems(ImportRows(text).value, collectionUuid, newUuid))
  {
  }
}
