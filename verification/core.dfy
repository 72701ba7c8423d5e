/**
 * `Database` of galcat/core.py with its in-memory backend: the stored
 * documents, loading (with the list-to-array fix), the query loops, the
 * table builder and the saving helpers. Each looping method is proved equal
 * to the function that specifies it in `Convert`, `QueryEngine` or `Table`.
 */
module Core {
  import opened Strings
  import opened Values
  import opened Convert
  import opened QueryEngine
  import opened Table

  /* ---------------- file names ---------------- */

  /** `load_all` skips hidden files and files that are not `.json`. */
  predicate AcceptFileName(name: string)
    ensures AcceptFileName(name) <==> |name| > 5 && name[0] != '.' && name[|name| - 5..] == ".json"
  {
    assert |name| > 0 ==> name[..1] == [name[0]];
    assert |name| == 5 && name[|name| - 5..] == ".json" ==> name[0] == '.';
    !StartsWith(name, ".") && EndsWith(name, ".json")
  }

  /**
   * The file `save_from_db` writes to: `name` when one is given, else the
   * document's `name` stripped of surrounding whitespace, with spaces made
   * underscores, plus `.json`. The document must have a string `name`.
   */
  function SaveFileName(doc: Doc, name: string): (r: Result<string>)
    ensures name != "" ==> r == Ok(name)
    ensures name == "" && !HasKey(doc, "name") ==> r == Err(KeyError("name"))
    ensures name == "" && HasKey(doc, "name") && !Lookup(doc, "name").value.Str? ==> r == Err(AttributeError)
    ensures name == "" && HasKey(doc, "name") && Lookup(doc, "name").value.Str? ==>
              r == Ok(ReplaceChar(Strip(Lookup(doc, "name").value.s), ' ', '_') + ".json")
    ensures name == "" && r.Ok? ==> EndsWith(r.value, ".json") && ' ' !in r.value
  {
    if name != "" then Ok(name)
    else
      match Lookup(doc, "name")
      case None => Err(KeyError("name"))
      case Some(v) =>
        if !v.Str? then Err(AttributeError)
        else
          var stem := ReplaceChar(Strip(v.s), ' ', '_');
          assert (stem + ".json")[|stem| + 5 - 5..] == ".json";
          Ok(stem + ".json")
  }

  /**
   * A file saved under its default name is one `load_all` picks up, unless
   * the document's stripped name starts with a dot or is empty (the file is
   * then `.json`, a hidden file).
   */
  lemma SavedFileIsLoadable(doc: Doc, s: string)
    requires Lookup(doc, "name") == Some(Str(s))
    ensures SaveFileName(doc, "").Ok?
    ensures AcceptFileName(SaveFileName(doc, "").value) <==> Strip(s) != "" && Strip(s)[0] != '.'
  {
    var stem := ReplaceChar(Strip(s), ' ', '_');
    var f := stem + ".json";
    assert f[|f| - 5..] == ".json";
    if |stem| > 0 {
      assert f[..1] == stem[..1];
      assert Strip(s)[..1] == [Strip(s)[0]];
    } else {
      assert f[..1] == ".";
    }
  }

  /* ---------------- loading ---------------- */

  /**
   * `load_all` over a directory listing, each entry a file name and the
   * parsed contents of that file: accepted files are fixed and appended in
   * listing order; the first failure stops the loading, with the documents
   * loaded before it kept.
   */
  function LoadAllSpec(db: seq<Doc>, files: seq<(string, Val)>): (r: (seq<Doc>, Outcome))
    ensures |db| <= |r.0| <= |db| + |files| && r.0[..|db|] == db
  {
    if files == [] then (db, Pass)
    else
      var (docs, o) := LoadAllSpec(db, files[..|files| - 1]);
      var (name, contents) := files[|files| - 1];
      if o.Fail? || !AcceptFileName(name) then (docs, o)
      else
        match Fix(contents)
        case Err(e) => (docs, Fail(e))
        case Ok(f) =>
          assert (docs + [f.fields])[..|db|] == docs[..|db|];
          (docs + [f.fields], Pass)
  }

  /** The contents of the accepted files, in listing order. */
  function AcceptedContents(files: seq<(string, Val)>): seq<Val> {
    if files == [] then []
    else
      var rest := AcceptedContents(files[..|files| - 1]);
      if AcceptFileName(files[|files| - 1].0) then rest + [files[|files| - 1].1] else rest
  }

  /**
   * Loading appends and never changes the documents already stored; when it
   * succeeds it has appended exactly the fixed contents of the accepted
   * files, in listing order.
   */
  lemma {:induction false} LoadAllAppends(db: seq<Doc>, files: seq<(string, Val)>)
    ensures var (docs, o) := LoadAllSpec(db, files);
            && |db| <= |docs| && docs[..|db|] == db
            && (o == Pass ==> |docs| == |db| + |AcceptedContents(files)|
                              && forall i :: 0 <= i < |AcceptedContents(files)| ==>
                                   Fix(AcceptedContents(files)[i]) == Ok(Obj(docs[|db| + i])))
    decreases |files|
  {
    if files != [] {
      var init := files[..|files| - 1];
      LoadAllAppends(db, init);
      var (docs, o) := LoadAllSpec(db, init);
      var (name, contents) := files[|files| - 1];
      if o == Pass && AcceptFileName(name) && Fix(contents).Ok? {
        var f := Fix(contents).value;
        var acc := AcceptedContents(files);
        assert acc == AcceptedContents(init) + [contents];
        assert (docs + [f.fields])[..|db|] == docs[..|db|];
        forall i | 0 <= i < |acc|
          ensures Fix(acc[i]) == Ok(Obj((docs + [f.fields])[|db| + i]))
        {
          if i < |acc| - 1 {
            assert acc[i] == AcceptedContents(init)[i];
          }
        }
      }
    }
  }

  /** Loading stops at its first failure. */
  lemma {:induction false} LoadAllStops(db: seq<Doc>, files: seq<(string, Val)>, n: nat)
    requires n <= |files| && LoadAllSpec(db, files[..n]).1.Fail?
    ensures LoadAllSpec(db, files) == LoadAllSpec(db, files[..n])
    decreases |files|
  {
    if n < |files| {
      var init := files[..|files| - 1];
      assert init[..n] == files[..n];
      LoadAllStops(db, init, n);
    } else {
      assert files[..n] == files;
    }
  }

  /** Every document loaded from parsed JSON has the stored shape. */
  lemma {:induction false} LoadAllLoaded(db: seq<Doc>, files: seq<(string, Val)>)
    requires forall i :: 0 <= i < |db| ==> Loaded(Obj(db[i]))
    requires forall i :: 0 <= i < |files| ==> Json(files[i].1)
    ensures var docs := LoadAllSpec(db, files).0;
            forall i :: 0 <= i < |docs| ==> Loaded(Obj(docs[i]))
    decreases |files|
  {
    if files != [] {
      var init := files[..|files| - 1];
      assert forall i :: 0 <= i < |init| ==> init[i] == files[i];
      LoadAllLoaded(db, init);
      assert var docs := LoadAllSpec(db, init).0; forall i :: 0 <= i < |docs| ==> Loaded(Obj(docs[i]));
      var prev := LoadAllSpec(db, init);
      assert forall i :: 0 <= i < |prev.0| ==> Loaded(Obj(prev.0[i]));
      var (name, contents) := files[|files| - 1];
      assert Json(contents);
      if prev.1 == Pass && AcceptFileName(name) && Fix(contents).Ok? {
        FixLoads(contents);
        var f := Fix(contents).value;
        assert Obj(f.fields) == f;
        var all := prev.0 + [f.fields];
        assert LoadAllSpec(db, files).0 == all;
        forall i | 0 <= i < |all| ensures Loaded(Obj(all[i])) {
          if i < |prev.0| {
            assert all[i] == prev.0[i];
          }
        }
      } else {
        assert LoadAllSpec(db, files).0 == prev.0;
      }
    }
  }

  /** The outcome of `save_from_db`: the document as written out and, when
      saving, the file written to. */
  datatype Saved = Saved(out: Val, file: Option<string>)

  /* ---------------- the database ---------------- */

  class Database {
    /** The stored documents, in load order (`self.db`). */
    var db: seq<Doc>

    /** Every stored document has the shape the loader gives it. */
    ghost predicate Valid()
      reads this
    {
      forall i :: 0 <= i < |db| ==> Loaded(Obj(db[i]))
    }

    /** `self.db = np.array([])`. */
    constructor Empty()
      ensures db == [] && Valid()
    {
      db := [];
    }

    /**
     * `Database(directory)`: an empty database that then loads every
     * accepted file of the listing; a failing load raises out of the
     * constructor.
     */
    static method Open(files: seq<(string, Val)>) returns (r: Result<Database>)
      ensures r.Ok? ==> fresh(r.value) && LoadAllSpec([], files) == (r.value.db, Pass)
      ensures r.Err? ==> LoadAllSpec([], files).1 == Fail(r.error)
      ensures r.Ok? && (forall i :: 0 <= i < |files| ==> Json(files[i].1)) ==> r.value.Valid()
    {
      var d := new Database.Empty();
      var o := d.LoadAll(files);
      if o.Fail? {
        return Err(o.error);
      }
      if forall i :: 0 <= i < |files| ==> Json(files[i].1) {
        LoadAllLoaded([], files);
      }
      return Ok(d);
    }

    /** `load_to_db`: the fixed document is appended; a document that cannot
        be fixed raises and leaves the database as it was. */
    method LoadToDb(contents: Val) returns (o: Outcome)
      modifies this
      ensures Fix(contents).Ok? ==> o == Pass && db == old(db) + [Fix(contents).value.fields]
      ensures Fix(contents).Err? ==> o == Fail(Fix(contents).error) && db == old(db)
      ensures old(Valid()) && Json(contents) ==> Valid()
    {
      var fixed := FixDoc(contents);
      if fixed.Err? {
        return Fail(fixed.error);
      }
      if Json(contents) {
        FixLoads(contents);
      }
      db := db + [fixed.value.fields];
      return Pass;
    }

    /** `load_all`: the accepted files of the listing, loaded in order. */
    method LoadAll(files: seq<(string, Val)>) returns (o: Outcome)
      modifies this
      ensures (db, o) == LoadAllSpec(old(db), files)
    {
      ghost var start := db;
      var i := 0;
      while i < |files|
        invariant 0 <= i <= |files|
        invariant LoadAllSpec(start, files[..i]) == (db, Pass)
      {
        assert files[..i + 1][..i] == files[..i];
        var name := files[i].0;
        if AcceptFileName(name) {
          o := LoadToDb(files[i].1);
          if o.Fail? {
            LoadAllStops(start, files, i + 1);
            return;
          }
        }
        i := i + 1;
      }
      assert files[..i] == files;
      return Pass;
    }

    /** `_recursive_json_fix`. */
    static method FixDoc(doc: Val) returns (r: Result<Val>)
      ensures r == Fix(doc)
    {
      r := WalkDoc(doc, ToArrays, ToArrays);
    }

    /** `_recursive_json_reverse_fix`: its nested calls go to the forward fix. */
    static method ReverseFixDoc(doc: Val) returns (r: Result<Val>)
      ensures r == ReverseFix(doc)
    {
      r := WalkDoc(doc, ToLists, ToArrays);
    }

    /**
     * The loop both fixes share: `out_doc` built item by item, a dict
     * walked recursively, a replaced sequence rebuilt element by element,
     * anything else copied.
     */
    static method WalkDoc(doc: Val, top: Dir, inner: Dir) returns (r: Result<Val>)
      ensures r == Walk(doc, top, inner)
      decreases doc
    {
      if !doc.Obj? {
        return Err(AttributeError);
      }
      var out: Fields := [];
      var i := 0;
      while i < |doc.fields|
        invariant 0 <= i <= |doc.fields|
        invariant WalkFields(doc, i, top, inner) == Ok(out)
      {
        var key := doc.fields[i].0;
        var val := doc.fields[i].1;
        var y: Result<Val>;
        if val.Obj? {
          y := WalkDoc(val, inner, inner);
        } else if Replaces(top, val) {
          y := WalkSeq(val, top, inner);
        } else {
          y := Ok(val);
        }
        assert y == WalkValue(val, top, inner);
        if y.Err? {
          WalkFieldsStops(doc, i + 1, |doc.fields|, top, inner);
          return Err(y.error);
        }
        out := out + [(key, y.value)];
        i := i + 1;
      }
      return Ok(Obj(out));
    }

    /** The inner loop of the fixes: a replaced sequence rebuilt element by
        element, each element walked as a dict; the first failure aborts. */
    static method WalkSeq(val: Val, top: Dir, inner: Dir) returns (y: Result<Val>)
      requires Replaces(top, val)
      ensures y == WalkValue(val, top, inner)
      decreases val
    {
      var items: seq<Val> := [];
      var j := 0;
      while j < |val.elems|
        invariant 0 <= j <= |val.elems|
        invariant WalkElems(val, j, inner) == Ok(items)
      {
        var e := WalkDoc(val.elems[j], inner, inner);
        if e.Err? {
          WalkElemsStops(val, j + 1, |val.elems|, inner);
          return Err(e.error);
        }
        items := items + [e.value];
        j := j + 1;
      }
      return Ok(Wrap(top, items));
    }

    /** `save_from_db`: the reverse-fixed document and, when saving, the file
        name. Writing and printing are not modelled. */
    static method SaveFromDb(doc: Val, save: bool, name: string) returns (r: Result<Saved>)
      ensures ReverseFix(doc).Err? ==> r == Err(ReverseFix(doc).error)
      ensures ReverseFix(doc).Ok? && !save ==> r == Ok(Saved(ReverseFix(doc).value, None))
      ensures ReverseFix(doc).Ok? && save ==>
                r == match SaveFileName(doc.fields, name)
                     case Err(e) => Err(e)
                     case Ok(f) => Ok(Saved(ReverseFix(doc).value, Some(f)))
    {
      var out := ReverseFixDoc(doc);
      if out.Err? {
        return Err(out.error);
      }
      if !save {
        return Ok(Saved(out.value, None));
      }
      var file := SaveFileName(doc.fields, name);
      if file.Err? {
        return Err(file.error);
      }
      return Ok(Saved(out.value, Some(file.value)));
    }

    /** `query` / `_query_manual`: the query's items applied in order to the
        stored documents. */
    method Query(query: Fields) returns (r: Result<seq<Doc>>)
      ensures r == QueryEngine.Query(db, query)
    {
      var out := db;
      var i := 0;
      while i < |query|
        invariant 0 <= i <= |query|
        invariant QueryEngine.Query(db, query[..i]) == Ok(out)
      {
        QueryPrefixStep(db, query, i);
        var next := QueryItem(out, query[i].0, query[i].1);
        if next.Err? {
          QueryConcat(db, query[..i + 1], query[i + 1..]);
          assert query[..i + 1] + query[i + 1..] == query;
          return Err(next.error);
        }
        out := next.value;
        i := i + 1;
      }
      assert query[..i] == query;
      return Ok(out);
    }

    /** One item of `_query_manual`: a plain key first keeps the documents
        that have its field and filters on the value only when more than one
        does; an operator key filters directly. */
    static method QueryItem(docs: seq<Doc>, key: string, value: Val) returns (r: Result<seq<Doc>>)
      ensures r == Step(docs, key, value)
    {
      var segs := Split(key);
      if !IsOperator(segs[0]) {
        var found := Presence(docs, segs[0]);
        if |found| > 1 {
          r := SubQuery(found, segs, value);
        } else {
          r := Ok(found);
        }
      } else {
        r := SubQuery(docs, segs, value);
      }
    }

    /**
     * `_sub_query(doc_list, key, value)`: a dotted or operator key collects
     * the indices of matching documents in `ind_list` and returns
     * `doc_list[ind_list]`; a plain key filters on `doc[key] == value`.
     */
    static method SubQuery(docs: seq<Doc>, segs: seq<string>, value: Val) returns (r: Result<seq<Doc>>)
      requires |segs| > 0
      ensures r == QueryEngine.SubQuery(docs, segs, value)
      decreases value, 7
    {
      if value.Null? {
        if docs == [] {
          return Ok([]);
        }
        return Err(TypeError);
      }
      if !(|segs| > 1 || IsOperator(segs[0])) {
        return Select(docs, segs, value);
      }
      r := MatchAll(docs, segs, value);
    }

    /** `_sub_query`'s loop over the documents for a dotted or operator key:
        `ind_list` gathers the matching positions, in order. */
    static method MatchAll(docs: seq<Doc>, segs: seq<string>, value: Val) returns (r: Result<seq<Doc>>)
      requires |segs| > 1 || (|segs| == 1 && IsOperator(segs[0]))
      ensures r == Select(docs, segs, value)
      decreases value, 6
    {
      var indices: seq<nat> := [];
      var i := 0;
      assert Select(docs[..0], segs, value) == Ok(Gather(docs, indices)) by {
        assert docs[..0] == [] && Gather(docs, indices) == [];
      }
      while i < |docs|
        invariant 0 <= i <= |docs|
        invariant Increasing(indices, i)
        invariant Select(docs[..i], segs, value) == Ok(Gather(docs, indices))
      {
        var err;
        err, indices := MatchNext(docs, i, segs, value, indices);
        if err.Some? {
          return Err(err.value);
        }
        i := i + 1;
      }
      assert docs[..i] == docs;
      return Ok(Gather(docs, indices));
    }

    /** One pass of that loop: `docs[i]` is tested and its index appended to
        `ind_list` when it matches; an error in the test aborts the query. */
    static method MatchNext(docs: seq<Doc>, i: nat, segs: seq<string>, value: Val, indices: seq<nat>)
      returns (err: Option<Error>, next: seq<nat>)
      requires |segs| > 1 || (|segs| == 1 && IsOperator(segs[0]))
      requires i < |docs| && Increasing(indices, i)
      requires Select(docs[..i], segs, value) == Ok(Gather(docs, indices))
      ensures err.Some? ==> Select(docs, segs, value) == Err(err.value)
      ensures err.None? ==> Increasing(next, i + 1) && Select(docs[..i + 1], segs, value) == Ok(Gather(docs, next))
      decreases value, 5
    {
      var hit := MatchDoc(docs[i], segs, value);
      SelectStep(docs, i, segs, value, indices);
      if hit.Err? {
        return Some(hit.error), indices;
      }
      next := if hit.value then indices + [i] else indices;
      return None, next;
    }

    /** The body of `_sub_query`'s loop for one document: whether it goes
        into `ind_list`. */
    static method MatchDoc(doc: Doc, segs: seq<string>, value: Val) returns (r: Result<bool>)
      requires |segs| > 0
      ensures r == Match(doc, segs, value)
      decreases value, 4
    {
      if !(value.Obj? || value.List?) {
        return FieldTest(doc, segs, Cmp(EqOp, value));
      }
      if value.Obj? && value.fields == [] {
        return Err(IndexError);
      }
      var name := if value.List? then segs[0] else value.fields[0].0;
      var sub := if value.List? then value else value.fields[0].1;
      if ComparisonOf(name).Some? {
        r := FieldTest(doc, segs, Cmp(ComparisonOf(name).value, sub));
      } else if name == "$exists" {
        var want := Truthy(sub);
        if want.Err? {
          return Err(want.error);
        }
        r := FieldTest(doc, segs, Exists(want.value));
      } else if name == "$or" {
        r := OrLoop(doc, sub);
      } else {
        r := Err(Unsupported(name));
      }
    }

    /**
     * The `$or` loops: every item of every sub-query is run against the
     * single document, the documents found being appended to `temp_list`;
     * the document matches when `temp_list` is not empty.
     */
    static method OrLoop(doc: Doc, sub: Val) returns (r: Result<bool>)
      ensures r == OrEval(doc, sub)
      decreases sub, 3
    {
      if !IsSeq(sub) {
        // a string or a dict iterates into strings, which have no `items()`
        return OrEval(doc, sub);
      }
      ghost var results := OrResults(doc, sub);
      var found: seq<Doc> := [];
      var i := 0;
      while i < |sub.elems|
        invariant 0 <= i <= |sub.elems|
        invariant AnyOf(results[..i]) == Ok(|found| > 0)
      {
        var q := sub.elems[i];
        assert results[i] == OrItem(doc, q);
        AnyOfSnoc(results, i);
        if !q.Obj? {
          AnyOfStops(results, i + 1);
          assert results[..|results|] == results;
          return Err(AttributeError);
        }
        var hit := KeysLoop(doc, q);
        if hit.Err? {
          AnyOfStops(results, i + 1);
          assert results[..|results|] == results;
          return Err(hit.error);
        }
        found := found + hit.value;
        i := i + 1;
      }
      assert results[..i] == results;
      return Ok(|found| > 0);
    }

    /** The inner `$or` loop over the (key, value) items of one sub-query:
        the documents it appends to `temp_list`. */
    static method KeysLoop(doc: Doc, q: Val) returns (r: Result<seq<Doc>>)
      requires q.Obj?
      ensures r.Err? ==> OrItem(doc, q) == Err(r.error)
      ensures r.Ok? ==> OrItem(doc, q) == Ok(|r.value| > 0)
      decreases q, 2
    {
      ghost var hits := KeyHits(doc, q);
      var found: seq<Doc> := [];
      var j := 0;
      while j < |q.fields|
        invariant 0 <= j <= |q.fields|
        invariant AnyOf(hits[..j]) == Ok(|found| > 0)
      {
        var k := q.fields[j].0;
        var v := q.fields[j].1;
        assert hits[j] == KeyHit(doc, k, v);
        AnyOfSnoc(hits, j);
        var ks := Split(k);
        var temp := Presence([doc], ks[0]);
        if |temp| > 0 {
          var narrowed := SubQuery(temp, ks, v);
          if narrowed.Err? {
            AnyOfStops(hits, j + 1);
            assert hits[..|hits|] == hits;
            return Err(narrowed.error);
          }
          temp := narrowed.value;
        }
        found := found + temp;
        j := j + 1;
      }
      assert hits[..j] == hits;
      return Ok(found);
    }

    /** `table(query, selection)`: one row per query result, filled cell by
        cell; the data frame conversion is not modelled. */
    method Table(query: Fields, selection: Fields) returns (r: Result<seq<Row>>)
      ensures r == TableOf(db, query, selection)
    {
      var results := Query(query);
      if results.Err? {
        return Err(results.error);
      }
      var entries := results.value;
      var tab: seq<Row> := [];
      var i := 0;
      while i < |entries|
        invariant 0 <= i <= |entries|
        invariant Rows(entries[..i], selection) == Ok(tab)
      {
        RowsPrefixStep(entries, i, selection);
        var row := RowLoop(entries[i], selection);
        if row.Err? {
          RowsStops(entries, i + 1, selection);
          assert entries[..|entries|] == entries;
          return Err(row.error);
        }
        tab := tab + [row.value];
        i := i + 1;
      }
      assert entries[..i] == entries;
      return Ok(tab);
    }

    /** `out_row` of one document: its cells, item by item; the first
        failing cell raises. */
    static method RowLoop(entry: Doc, selection: Fields) returns (r: Result<Row>)
      ensures r == RowOf(entry, selection)
    {
      var row: Row := [];
      var j := 0;
      while j < |entry|
        invariant 0 <= j <= |entry|
        invariant RowOf(entry[..j], selection) == Ok(row)
      {
        assert entry[..j + 1][..j] == entry[..j];
        var cell := Cell(entry[j].0, entry[j].1, selection);
        if cell.Err? {
          RowOfStops(entry, j + 1, selection);
          assert entry[..|entry|] == entry;
          return Err(cell.error);
        }
        row := row + [(entry[j].0, cell.value)];
        j := j + 1;
      }
      assert entry[..j] == entry;
      return Ok(row);
    }
  }
}
