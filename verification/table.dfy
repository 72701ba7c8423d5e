/**
 * The table builder of galcat/core.py (`Database.table`), as functions: each
 * document of a query's result becomes one row with the same keys, a
 * scalar field copied and a field of value entries reduced to the `value`
 * of one entry.
 */
module Table {
  import opened Values
  import opened QueryEngine

  /** One row of the table: the items of `out_row`, in the document's order. */
  type Row = Fields

  /** `[x[name] for x in entries]`: every entry must have the field. */
  function Column(entries: seq<Val>, name: string): (r: Result<seq<Val>>)
    ensures r.Ok? <==> forall j :: 0 <= j < |entries| ==> Get(entries[j], name).Ok?
    ensures r.Ok? ==> |r.value| == |entries|
                      && forall j :: 0 <= j < |entries| ==> r.value[j] == Get(entries[j], name).value
    ensures r.Err? ==> exists j :: 0 <= j < |entries| && Get(entries[j], name) == Err(r.error)
                                   && forall i :: 0 <= i < j ==> Get(entries[i], name).Ok?
  {
    if entries == [] then Ok([])
    else
      var init := entries[..|entries| - 1];
      assert forall j :: 0 <= j < |init| ==> init[j] == entries[j];
      match Column(init, name)
      case Err(e) => Err(e)
      case Ok(xs) =>
        match Get(entries[|entries| - 1], name)
        case Err(e) => Err(e)
        case Ok(x) => Ok(xs + [x])
  }

  /** numpy's element-wise `column == target`. */
  function EqualBits(xs: seq<Val>, target: Val): (r: Result<seq<bool>>)
    ensures r.Ok? <==> forall j :: 0 <= j < |xs| ==> Compare(EqOp, xs[j], target).Ok?
    ensures r.Ok? ==> |r.value| == |xs|
                      && forall j :: 0 <= j < |xs| ==> r.value[j] == Compare(EqOp, xs[j], target).value
  {
    if xs == [] then Ok([])
    else
      var init := xs[..|xs| - 1];
      assert forall j :: 0 <= j < |init| ==> init[j] == xs[j];
      match EqualBits(init, target)
      case Err(e) => Err(e)
      case Ok(bs) =>
        match Compare(EqOp, xs[|xs| - 1], target)
        case Err(e) => Err(e)
        case Ok(b) => Ok(bs + [b])
  }

  /** The field the mask of `key` reads from each entry. */
  function MaskField(key: string, selection: Fields): (r: string)
    ensures r == "reference" <==> HasKey(selection, key)
    ensures r == "best" <==> !HasKey(selection, key)
  {
    if Contains(selection, key) then "reference" else "best"
  }

  /** The value the mask compares that field with: the selection's entry
      for `key`, or 1. */
  function MaskTarget(key: string, selection: Fields): (r: Val)
    ensures HasKey(selection, key) ==> Lookup(selection, key) == Some(r)
    ensures !HasKey(selection, key) ==> r == Num(1.0)
  {
    if Contains(selection, key) then Lookup(selection, key).value else Num(1.0)
  }

  /**
   * The mask `ind` of a multi-entry field: the entries whose `reference`
   * equals the selection for `key` when the selection names `key`, else
   * the entries whose `best` equals 1. It raises the first entry's error.
   */
  function Mask(entries: seq<Val>, key: string, selection: Fields): (r: Result<seq<bool>>)
    ensures var (name, target) := (MaskField(key, selection), MaskTarget(key, selection));
            && (r.Err? ==> exists j :: 0 <= j < |entries| &&
                             !(Get(entries[j], name).Ok? && Compare(EqOp, Get(entries[j], name).value, target).Ok?))
            && (r.Ok? ==> |r.value| == |entries|
                          && forall j :: 0 <= j < |entries| ==>
                               && Get(entries[j], name).Ok?
                               && Compare(EqOp, Get(entries[j], name).value, target).Ok?
                               && (r.value[j] <==> Compare(EqOp, Get(entries[j], name).value, target) == Ok(true)))
  {
    match Column(entries, MaskField(key, selection))
    case Err(e) => Err(e)
    case Ok(xs) => EqualBits(xs, MaskTarget(key, selection))
  }

  /** `val[ind][0]`: the first entry the mask marks, if any. */
  function FirstMarked(entries: seq<Val>, bits: seq<bool>): (r: Option<Val>)
    requires |bits| == |entries|
    ensures r.None? <==> forall j :: 0 <= j < |bits| ==> !bits[j]
    ensures r.Some? ==> exists j :: 0 <= j < |bits| && bits[j] && entries[j] == r.value
                                    && forall i :: 0 <= i < j ==> !bits[i]
  {
    if entries == [] then None
    else if bits[0] then Some(entries[0])
    else
      var r := FirstMarked(entries[1..], bits[1..]);
      assert forall j :: 0 < j < |bits| ==> bits[j] == bits[1..][j - 1] && entries[j] == entries[1..][j - 1];
      if r.Some? then
        var j :| 0 <= j < |bits[1..]| && bits[1..][j] && entries[1..][j] == r.value
                 && forall i :: 0 <= i < j ==> !bits[1..][i];
        assert bits[j + 1] && entries[j + 1] == r.value;
        r
      else r
  }

  /**
   * The table cell of field `key` holding `val`. A scalar is copied. Several
   * entries: the mask is computed, an ordinary list cannot be indexed by it,
   * and the first marked entry's `value` is taken (none marked raises). One
   * or no entry: `val[0]['value']`.
   */
  function Cell(key: string, val: Val, selection: Fields): (r: Result<Val>)
    ensures !IsSeq(val) ==> r == Ok(val)
    ensures IsSeq(val) && |val.elems| == 1 ==> r == Get(val.elems[0], "value")
    ensures IsSeq(val) && |val.elems| == 0 ==> r == Err(IndexError)
  {
    if !IsSeq(val) then Ok(val)
    else if |val.elems| > 1 then
      match Mask(val.elems, key, selection)
      case Err(e) => Err(e)
      case Ok(bits) =>
        if val.List? then Err(TypeError)
        else
          match FirstMarked(val.elems, bits)
          case None => Err(IndexError)
          case Some(x) => Get(x, "value")
    else if |val.elems| == 0 then Err(IndexError)
    else Get(val.elems[0], "value")
  }

  /** `out_row` of one document: one cell per item, in order; the first
      failing cell raises. */
  function RowOf(doc: Doc, selection: Fields): Result<Row> {
    if doc == [] then Ok([])
    else
      var (k, v) := doc[|doc| - 1];
      match RowOf(doc[..|doc| - 1], selection)
      case Err(e) => Err(e)
      case Ok(row) =>
        match Cell(k, v, selection)
        case Err(e) => Err(e)
        case Ok(c) => Ok(row + [(k, c)])
  }

  /** `tab_data`: one row per document, in order. */
  function Rows(docs: seq<Doc>, selection: Fields): Result<seq<Row>> {
    if docs == [] then Ok([])
    else
      match Rows(docs[..|docs| - 1], selection)
      case Err(e) => Err(e)
      case Ok(rows) =>
        match RowOf(docs[|docs| - 1], selection)
        case Err(e) => Err(e)
        case Ok(row) => Ok(rows + [row])
  }

  /** `Database.table(query, selection)` before the conversion to a data frame. */
  function TableOf(docs: seq<Doc>, query: Fields, selection: Fields): (r: Result<seq<Row>>)
    ensures Query(docs, query).Err? ==> r == Err(Query(docs, query).error)
    ensures r.Ok? ==> Query(docs, query).Ok? && |r.value| == |Query(docs, query).value|
  {
    match Query(docs, query)
    case Err(e) => Err(e)
    case Ok(results) => RowsSpec(results, selection); Rows(results, selection)
  }

  /* ---------------- properties ---------------- */

  /** `out_row` has one cell per item of the document, under the item's
      key; when it raises, some item's cell raised that error. */
  lemma {:induction false} RowOfSpec(doc: Doc, selection: Fields)
    ensures var r := RowOf(doc, selection);
            && (r.Err? ==> exists j :: 0 <= j < |doc| && Cell(doc[j].0, doc[j].1, selection) == Err(r.error))
            && (r.Ok? ==> |r.value| == |doc|
                          && forall j :: 0 <= j < |doc| ==>
                               r.value[j].0 == doc[j].0 && Cell(doc[j].0, doc[j].1, selection) == Ok(r.value[j].1))
    decreases |doc|
  {
    if doc != [] {
      var init, last := doc[..|doc| - 1], doc[|doc| - 1];
      RowOfSpec(init, selection);
      var c := Cell(last.0, last.1, selection);
      var prefix := RowOf(init, selection);
      if prefix.Err? {
        assert RowOf(doc, selection) == prefix;
        var j :| 0 <= j < |init| && Cell(init[j].0, init[j].1, selection) == Err(prefix.error);
        assert doc[j] == init[j];
      } else if c.Err? {
        assert RowOf(doc, selection) == Err(c.error);
      } else {
        var row := prefix.value + [(last.0, c.value)];
        assert RowOf(doc, selection) == Ok(row);
        forall j | 0 <= j < |doc|
          ensures row[j].0 == doc[j].0 && Cell(doc[j].0, doc[j].1, selection) == Ok(row[j].1)
        {
          if j < |init| {
            assert doc[j] == init[j] && row[j] == prefix.value[j];
          }
        }
      }
    }
  }

  /** `tab_data` has one row per document, the row `out_row` builds for
      it; when it raises, some document's row raised that error. */
  lemma {:induction false} RowsSpec(docs: seq<Doc>, selection: Fields)
    ensures var r := Rows(docs, selection);
            && (r.Err? ==> exists i :: 0 <= i < |docs| && RowOf(docs[i], selection) == Err(r.error))
            && (r.Ok? ==> |r.value| == |docs|
                          && forall i :: 0 <= i < |docs| ==> RowOf(docs[i], selection) == Ok(r.value[i]))
    decreases |docs|
  {
    if docs != [] {
      var init, last := docs[..|docs| - 1], docs[|docs| - 1];
      RowsSpec(init, selection);
      var prefix := Rows(init, selection);
      if prefix.Err? {
        assert Rows(docs, selection) == prefix;
        var i :| 0 <= i < |init| && RowOf(init[i], selection) == Err(prefix.error);
        assert docs[i] == init[i];
      } else if RowOf(last, selection).Ok? {
        var rows := prefix.value + [RowOf(last, selection).value];
        assert Rows(docs, selection) == Ok(rows);
        forall i | 0 <= i < |docs|
          ensures RowOf(docs[i], selection) == Ok(rows[i])
        {
          if i < |init| {
            assert docs[i] == init[i] && rows[i] == prefix.value[i];
          }
        }
      }
    }
  }

  /** Building a row stops at the first cell that raises. */
  lemma {:induction false} RowOfStops(doc: Doc, n: nat, selection: Fields)
    requires n <= |doc| && RowOf(doc[..n], selection).Err?
    ensures RowOf(doc, selection) == RowOf(doc[..n], selection)
    decreases |doc|
  {
    if n < |doc| {
      var init := doc[..|doc| - 1];
      assert init[..n] == doc[..n];
      RowOfStops(init, n, selection);
    } else {
      assert doc[..n] == doc;
    }
  }

  /** One more document is one more row on the table so far. */
  lemma RowsPrefixStep(docs: seq<Doc>, i: nat, selection: Fields)
    requires i < |docs|
    ensures Rows(docs[..i + 1], selection) == (match Rows(docs[..i], selection)
                                               case Err(e) => Err(e)
                                               case Ok(rows) =>
                                                 match RowOf(docs[i], selection)
                                                 case Err(e) => Err(e)
                                                 case Ok(row) => Ok(rows + [row]))
  {
    assert docs[..i + 1][..i] == docs[..i];
  }

  /** Building the table stops at the first row that raises. */
  lemma {:induction false} RowsStops(docs: seq<Doc>, n: nat, selection: Fields)
    requires n <= |docs| && Rows(docs[..n], selection).Err?
    ensures Rows(docs, selection) == Rows(docs[..n], selection)
    decreases |docs|
  {
    if n < |docs| {
      var init := docs[..|docs| - 1];
      assert init[..n] == docs[..n];
      RowsStops(init, n, selection);
    } else {
      assert docs[..n] == docs;
    }
  }

  /**
   * The table has one row per query result, in order, and each row has
   * exactly the keys of its document, in the document's order.
   */
  lemma {:induction false} TableShape(docs: seq<Doc>, query: Fields, selection: Fields)
    ensures var t := TableOf(docs, query, selection);
            t.Ok? ==> Query(docs, query).Ok?
                      && |t.value| == |Query(docs, query).value|
                      && forall i :: 0 <= i < |t.value| ==> Keys(t.value[i]) == Keys(Query(docs, query).value[i])
  {
    var t := TableOf(docs, query, selection);
    if t.Ok? {
      var results := Query(docs, query).value;
      RowsSpec(results, selection);
      forall i | 0 <= i < |t.value|
        ensures Keys(t.value[i]) == Keys(results[i])
      {
        var row := RowOf(results[i], selection).value;
        RowOfSpec(results[i], selection);
        assert t.value[i] == row;
        assert forall j :: 0 <= j < |row| ==> Keys(row)[j] == Keys(results[i])[j];
      }
    }
  }

  /** An entry that is a dict with the given field. */
  predicate HasField(x: Val, name: string) {
    x.Obj? && Contains(x.fields, name)
  }

  /**
   * A field of several entries, named in the selection with the string
   * `ref`, where every entry carries a string `reference`: the cell is the
   * `value` of the first entry with that reference, and the call raises
   * `IndexError` when no entry has it.
   */
  lemma {:induction false} SelectedReference(key: string, entries: seq<Val>, selection: Fields, ref: string)
    requires |entries| > 1
    requires Lookup(selection, key) == Some(Str(ref))
    requires forall j :: 0 <= j < |entries| ==>
               HasField(entries[j], "reference") && Get(entries[j], "reference").value.Str?
    ensures var r := Cell(key, Array(entries), selection);
            && ((forall j :: 0 <= j < |entries| ==> Get(entries[j], "reference") != Ok(Str(ref)))
                  ==> r == Err(IndexError))
            && (forall j :: 0 <= j < |entries| && Get(entries[j], "reference") == Ok(Str(ref))
                  && (forall i :: 0 <= i < j ==> Get(entries[i], "reference") != Ok(Str(ref)))
                  ==> r == Get(entries[j], "value"))
  {
    assert Contains(selection, key);
    MarkedFirst(entries, "reference", Str(ref));
    assert Mask(entries, key, selection) == EqualBits(Column(entries, "reference").value, Str(ref));
    MarkedCell(key, entries, selection, "reference", Str(ref));
  }

  /**
   * A field of several entries not named in the selection, where every entry
   * carries a numeric `best`: the cell is the `value` of the first entry with
   * `best == 1`, and the call raises `IndexError` when there is none.
   */
  lemma {:induction false} BestEntry(key: string, entries: seq<Val>, selection: Fields)
    requires |entries| > 1
    requires !HasKey(selection, key)
    requires forall j :: 0 <= j < |entries| ==>
               HasField(entries[j], "best") && Get(entries[j], "best").value.Num?
    ensures var r := Cell(key, Array(entries), selection);
            && ((forall j :: 0 <= j < |entries| ==> Get(entries[j], "best") != Ok(Num(1.0)))
                  ==> r == Err(IndexError))
            && (forall j :: 0 <= j < |entries| && Get(entries[j], "best") == Ok(Num(1.0))
                  && (forall i :: 0 <= i < j ==> Get(entries[i], "best") != Ok(Num(1.0)))
                  ==> r == Get(entries[j], "value"))
  {
    assert !Contains(selection, key);
    MarkedFirst(entries, "best", Num(1.0));
    assert Mask(entries, key, selection) == EqualBits(Column(entries, "best").value, Num(1.0));
    MarkedCell(key, entries, selection, "best", Num(1.0));
  }

  /**
   * A field of several entries where entry `j` is the first one that is a
   * dict lacking the field the mask reads (`reference` when the selection
   * names `key`, else `best`): the cell raises `KeyError` for that field.
   */
  lemma {:induction false} CellMissingField(key: string, val: Val, selection: Fields, j: nat)
    requires IsSeq(val) && |val.elems| > 1
    requires j < |val.elems| && val.elems[j].Obj? && !HasKey(val.elems[j].fields, MaskField(key, selection))
    requires forall i :: 0 <= i < j ==> HasField(val.elems[i], MaskField(key, selection))
    ensures Cell(key, val, selection) == Err(KeyError(MaskField(key, selection)))
  {
    var name := MaskField(key, selection);
    var c := Column(val.elems, name);
    assert Get(val.elems[j], name) == Err(KeyError(name));
    assert c.Err?;
    assert forall i :: 0 <= i < j ==> Get(val.elems[i], name).Ok?;
    var k :| 0 <= k < |val.elems| && Get(val.elems[k], name) == Err(c.error)
             && forall i :: 0 <= i < k ==> Get(val.elems[i], name).Ok?;
    assert k == j;
    assert Mask(val.elems, key, selection) == Err(KeyError(name));
  }

  /** A plain list of several entries cannot be indexed by a boolean mask:
      once the mask is computed, the cell raises `TypeError`. */
  lemma ListCellRaises(key: string, entries: seq<Val>, selection: Fields)
    requires |entries| > 1 && Mask(entries, key, selection).Ok?
    ensures Cell(key, List(entries), selection) == Err(TypeError)
  {
  }

  /** The cell of an array field whose mask marks exactly the entries with
      `name == target`: the first such entry's `value`, or `IndexError`. */
  lemma {:induction false} MarkedCell(key: string, entries: seq<Val>, selection: Fields, name: string, target: Val)
    requires |entries| > 1
    requires Mask(entries, key, selection).Ok?
    requires var bits := Mask(entries, key, selection).value;
             |bits| == |entries| && forall j :: 0 <= j < |entries| ==> (bits[j] <==> Get(entries[j], name) == Ok(target))
    ensures var r := Cell(key, Array(entries), selection);
            && ((forall j :: 0 <= j < |entries| ==> Get(entries[j], name) != Ok(target))
                  ==> r == Err(IndexError))
            && (forall j :: 0 <= j < |entries| && Get(entries[j], name) == Ok(target)
                  && (forall i :: 0 <= i < j ==> Get(entries[i], name) != Ok(target))
                  ==> r == Get(entries[j], "value"))
  {
    var bits := Mask(entries, key, selection).value;
    var f := FirstMarked(entries, bits);
    assert IsSeq(Array(entries)) && !Array(entries).List? && Array(entries).elems == entries;
    assert Cell(key, Array(entries), selection) == if f.None? then Err(IndexError) else Get(f.value, "value");
    forall j | 0 <= j < |entries| && Get(entries[j], name) == Ok(target)
                && (forall i :: 0 <= i < j ==> Get(entries[i], name) != Ok(target))
      ensures f == Some(entries[j])
    {
      assert bits[j];
      var k :| 0 <= k < |bits| && bits[k] && entries[k] == f.value && forall i :: 0 <= i < k ==> !bits[i];
      assert k == j;
    }
  }

  /** The mask over entries whose field `name` is a string or a number of the
      same kind as `target` marks exactly the entries where it equals
      `target`, and the first marked entry is the first such entry. */
  lemma {:induction false} MarkedFirst(entries: seq<Val>, name: string, target: Val)
    requires target.Str? || target.Num?
    requires forall j :: 0 <= j < |entries| ==>
               HasField(entries[j], name) && (Get(entries[j], name).value.Str? == target.Str?)
               && (Get(entries[j], name).value.Num? == target.Num?)
    ensures Column(entries, name).Ok?
    ensures EqualBits(Column(entries, name).value, target).Ok?
    ensures var bits := EqualBits(Column(entries, name).value, target).value;
            |bits| == |entries| && forall j :: 0 <= j < |entries| ==> (bits[j] <==> Get(entries[j], name) == Ok(target))
  {
    var xs := Column(entries, name).value;
    forall j | 0 <= j < |entries|
      ensures Compare(EqOp, xs[j], target) == Ok(xs[j] == target)
    {
      if target.Num? {
        assert xs[j].Num?;
      }
    }
  }
}
