/**
 * The pre-ingestion checks of galcat/validator.py (`Validator`): the name
 * check, the existence check against the database, the per-entry value and
 * reference checks, and the order in which the constructor runs them. The
 * document is the value `json.load` gives for the file being validated.
 */
module Validator {
  import opened Strings
  import opened Values
  import opened QueryEngine
  import opened Core

  /** `d.get(k) is None`: the key is missing or holds `null`. */
  predicate IsNone(x: Option<Val>) {
    x.None? || x.value.Null?
  }

  /** `self.doc.get(name)` on a document that may not be a dict. */
  function DocGet(doc: Val, name: string): Result<Option<Val>> {
    if doc.Obj? then Ok(Lookup(doc.fields, name)) else Err(AttributeError)
  }

  /**
   * `check_name`: the value of the id field when it is present and truthy;
   * otherwise `RuntimeError` naming the id field.
   */
  function CheckName(doc: Val, idColumn: string): (r: Result<Val>)
    ensures r.Ok? <==> doc.Obj? && HasKey(doc.fields, idColumn) && Truthy(Lookup(doc.fields, idColumn).value) == Ok(true)
    ensures r.Ok? ==> r.value == Lookup(doc.fields, idColumn).value
    ensures (doc.Obj? && (!HasKey(doc.fields, idColumn) || Truthy(Lookup(doc.fields, idColumn).value) == Ok(false)))
              ==> r == Err(InvalidName(idColumn))
  {
    match DocGet(doc, idColumn)
    case Err(e) => Err(e)
    case Ok(found) =>
      var name := if found.Some? then found.value else Null;
      match Truthy(name)
      case Err(e) => Err(e)
      case Ok(truthy) => if truthy then Ok(name) else Err(InvalidName(idColumn))
  }

  /** `check_exists`: whether querying `{idColumn: name}` finds a document
      (the warning printed otherwise is not modelled). */
  function CheckExists(docs: seq<Doc>, idColumn: string, name: Val): (r: Result<bool>)
    ensures r.Ok? <==> Step(docs, idColumn, name).Ok?
    ensures docs == [] ==> r == Ok(false)
  {
    assert [(idColumn, name)][..0] == [];
    assert Query(docs, [(idColumn, name)]) == Step(docs, idColumn, name);
    assert docs == [] ==> Presence(docs, Head(idColumn)) == [] && Select(docs, Split(idColumn), name) == Ok([]);
    match Query(docs, [(idColumn, name)])
    case Err(e) => Err(e)
    case Ok(found) => Ok(|found| > 0)
  }

  /** `check_references`: false iff `reference` is missing, `null` or the
      empty string. */
  function CheckReferences(elem: Fields): (r: bool)
    ensures !r <==> !HasKey(elem, "reference") || Lookup(elem, "reference").value in {Null, Str("")}
  {
    var ref := Lookup(elem, "reference");
    !(IsNone(ref) || ref.value == Str(""))
  }

  /** One entry of a field: it must be a dict (`.get`), with `value` and
      `distribution` both not `None`, and with a reference. */
  function EntryCheck(elem: Val): (r: Result<bool>)
    ensures !elem.Obj? ==> r == Err(AttributeError)
    ensures elem.Obj? ==> r == Ok(!IsNone(Lookup(elem.fields, "value")) && !IsNone(Lookup(elem.fields, "distribution"))
                                  && CheckReferences(elem.fields))
  {
    if !elem.Obj? then Err(AttributeError)
    else if IsNone(Lookup(elem.fields, "value")) || IsNone(Lookup(elem.fields, "distribution")) then Ok(false)
    else Ok(CheckReferences(elem.fields))
  }

  /**
   * The outcome of checks run in order until one fails: the first error or
   * `false` decides, and all of them must pass for `true`.
   */
  function AllOf(rs: seq<Result<bool>>): (r: Result<bool>)
    ensures r == Ok(true) <==> forall j :: 0 <= j < |rs| ==> rs[j] == Ok(true)
    ensures r != Ok(true) ==> exists j :: 0 <= j < |rs| && rs[j] == r
                                         && forall i :: 0 <= i < j ==> rs[i] == Ok(true)
  {
    if rs == [] then Ok(true)
    else
      var init := rs[..|rs| - 1];
      assert forall j :: 0 <= j < |init| ==> init[j] == rs[j];
      var prev := AllOf(init);
      if prev != Ok(true) then prev else rs[|rs| - 1]
  }

  lemma AllOfSnoc(rs: seq<Result<bool>>, n: nat)
    requires n < |rs|
    ensures AllOf(rs[..n + 1]) == if AllOf(rs[..n]) != Ok(true) then AllOf(rs[..n]) else rs[n]
  {
    assert rs[..n + 1][..n] == rs[..n];
  }

  /** Once a check fails the later ones are not run. */
  lemma {:induction false} AllOfStops(rs: seq<Result<bool>>, n: nat)
    requires n <= |rs| && AllOf(rs[..n]) != Ok(true)
    ensures AllOf(rs) == AllOf(rs[..n])
    decreases |rs|
  {
    if n < |rs| {
      var init := rs[..|rs| - 1];
      assert init[..n] == rs[..n];
      AllOfStops(init, n);
    } else {
      assert rs[..n] == rs;
    }
  }

  /** The check of every entry of one field. */
  function EntryChecks(items: seq<Val>): (rs: seq<Result<bool>>)
    ensures |rs| == |items| && forall j :: 0 <= j < |items| ==> rs[j] == EntryCheck(items[j])
  {
    seq(|items|, j requires 0 <= j < |items| => EntryCheck(items[j]))
  }

  /** One field of the document: the id field is skipped; any other field is
      iterated and each of its entries checked. */
  function FieldCheck(key: string, v: Val, idColumn: string): Result<bool> {
    if key == idColumn then Ok(true)
    else
      match Iterate(v)
      case Err(e) => Err(e)
      case Ok(items) => AllOf(EntryChecks(items))
  }

  function FieldChecks(fs: Fields, idColumn: string): (rs: seq<Result<bool>>)
    ensures |rs| == |fs| && forall j :: 0 <= j < |fs| ==> rs[j] == FieldCheck(fs[j].0, fs[j].1, idColumn)
  {
    seq(|fs|, j requires 0 <= j < |fs| => FieldCheck(fs[j].0, fs[j].1, idColumn))
  }

  /** `check_values` as a function of the document. */
  function ValuesSpec(doc: Val, idColumn: string): (r: Result<bool>)
    ensures !doc.Obj? ==> r == Err(AttributeError)
    ensures doc.Obj? && (forall i :: 0 <= i < |doc.fields| ==> doc.fields[i].0 == idColumn) ==> r == Ok(true)
    ensures doc.Obj? && r != Ok(true) ==>
              exists i :: 0 <= i < |doc.fields| && doc.fields[i].0 != idColumn
                          && FieldCheck(doc.fields[i].0, doc.fields[i].1, idColumn) == r
  {
    if !doc.Obj? then Err(AttributeError) else AllOf(FieldChecks(doc.fields, idColumn))
  }

  /** The inner loop of `check_values` over the entries of one field,
      returning `False` at the first failing entry. */
  method EntriesLoop(items: seq<Val>) returns (r: Result<bool>)
    ensures r == AllOf(EntryChecks(items))
  {
    ghost var entries := EntryChecks(items);
    var j := 0;
    while j < |items|
      invariant 0 <= j <= |items|
      invariant AllOf(entries[..j]) == Ok(true)
    {
      AllOfSnoc(entries, j);
      var c := EntryCheck(items[j]);
      if c != Ok(true) {
        AllOfStops(entries, j + 1);
        assert entries[..|entries|] == entries;
        return c;
      }
      j := j + 1;
    }
    assert entries[..j] == entries;
    return Ok(true);
  }

  /** `check_values`: the loop over the document's fields, skipping the id
      field and stopping at the first field that fails. */
  method CheckValues(doc: Val, idColumn: string) returns (r: Result<bool>)
    ensures r == ValuesSpec(doc, idColumn)
  {
    if !doc.Obj? {
      return Err(AttributeError);
    }
    var fs := doc.fields;
    ghost var checks := FieldChecks(fs, idColumn);
    var i := 0;
    while i < |fs|
      invariant 0 <= i <= |fs|
      invariant AllOf(checks[..i]) == Ok(true)
    {
      AllOfSnoc(checks, i);
      var k := fs[i].0;
      var v := fs[i].1;
      if k != idColumn {
        var items := Iterate(v);
        if items.Err? {
          AllOfStops(checks, i + 1);
          assert checks[..|checks|] == checks;
          return Err(items.error);
        }
        var ok := EntriesLoop(items.value);
        if ok != Ok(true) {
          AllOfStops(checks, i + 1);
          assert checks[..|checks|] == checks;
          return ok;
        }
      }
      i := i + 1;
    }
    assert checks[..i] == checks;
    return Ok(true);
  }

  /** What the constructor ran: nothing, or the three checks' results. */
  datatype Checks = Skipped | Ran(name: Val, found: bool, valid: bool)

  /** The constructor's checks as a function of the document and the
      database's documents. */
  function ValidateSpec(doc: Val, docs: seq<Doc>, isData: bool, idColumn: string): (r: Result<Checks>)
    ensures !isData ==> r == Ok(Skipped)
    ensures isData && !doc.Obj? ==> r == Err(AttributeError)
    ensures isData && CheckName(doc, idColumn).Err? ==> r == Err(CheckName(doc, idColumn).error)
    ensures isData && r.Ok? ==> r.value.Ran? && Truthy(r.value.name) == Ok(true)
                                && (r.value.valid <==> ValuesSpec(doc, idColumn) == Ok(true))
  {
    if !isData then Ok(Skipped)
    else
      match CheckName(doc, idColumn)
      case Err(e) => Err(e)
      case Ok(name) =>
        match CheckExists(docs, idColumn, name)
        case Err(e) => Err(e)
        case Ok(found) =>
          match ValuesSpec(doc, idColumn)
          case Err(e) => Err(e)
          case Ok(valid) => Ok(Ran(name, found, valid))
  }

  /** `Validator.__init__` after loading the file: when the document is data,
      the name, existence and value checks, in that order. */
  method Validate(doc: Val, database: Database, isData: bool, idColumn: string) returns (r: Result<Checks>)
    ensures r == ValidateSpec(doc, database.db, isData, idColumn)
  {
    if !isData {
      return Ok(Skipped);
    }
    var name := CheckName(doc, idColumn);
    if name.Err? {
      return Err(name.error);
    }
    var found := database.Query([(idColumn, name.value)]);
    if found.Err? {
      return Err(found.error);
    }
    var values := CheckValues(doc, idColumn);
    if values.Err? {
      return Err(values.error);
    }
    return Ok(Ran(name.value, |found.value| > 0, values.value));
  }

  /* ---------------- properties ---------------- */

  /**
   * `check_values` passes iff the document is a dict and every entry of
   * every field other than the id field is a dict with both `value` and
   * `distribution` present and not `None`, and a reference.
   */
  lemma {:induction false} ValuesIff(doc: Val, idColumn: string)
    ensures ValuesSpec(doc, idColumn) == Ok(true) <==>
              doc.Obj? && forall i :: 0 <= i < |doc.fields| && doc.fields[i].0 != idColumn ==>
                Iterate(doc.fields[i].1).Ok? && EntriesPass(Iterate(doc.fields[i].1).value)
  {
    if doc.Obj? {
      var fs := doc.fields;
      forall i | 0 <= i < |fs| && fs[i].0 != idColumn
        ensures FieldCheck(fs[i].0, fs[i].1, idColumn) == Ok(true) <==>
                  Iterate(fs[i].1).Ok? && EntriesPass(Iterate(fs[i].1).value)
      {
        FieldCheckIff(fs[i].0, fs[i].1, idColumn);
      }
      var checks := FieldChecks(fs, idColumn);
      assert AllOf(checks) == Ok(true) <==> forall i :: 0 <= i < |checks| ==> checks[i] == Ok(true);
    }
  }

  /** A field other than the id field passes iff it can be iterated and
      every one of its entries passes. */
  lemma FieldCheckIff(key: string, v: Val, idColumn: string)
    requires key != idColumn
    ensures FieldCheck(key, v, idColumn) == Ok(true) <==> Iterate(v).Ok? && EntriesPass(Iterate(v).value)
  {
    if Iterate(v).Ok? {
      var items := Iterate(v).value;
      var rs := EntryChecks(items);
      assert AllOf(rs) == Ok(true) <==> forall j :: 0 <= j < |rs| ==> rs[j] == Ok(true);
    }
  }

  /** Every entry passes: a dict with `value`, `distribution` and a reference. */
  predicate EntriesPass(items: seq<Val>) {
    forall j :: 0 <= j < |items| ==>
      items[j].Obj? && !IsNone(Lookup(items[j].fields, "value"))
      && !IsNone(Lookup(items[j].fields, "distribution")) && CheckReferences(items[j].fields)
  }

  /** The id field is never inspected: whatever it holds, `check_values`
      gives the same answer. */
  lemma IdFieldIgnored(fs: Fields, i: nat, idColumn: string, w: Val)
    requires i < |fs| && fs[i].0 == idColumn
    ensures ValuesSpec(Obj(fs[i := (idColumn, w)]), idColumn) == ValuesSpec(Obj(fs), idColumn)
  {
    assert FieldChecks(fs[i := (idColumn, w)], idColumn) == FieldChecks(fs, idColumn);
  }

  /** Both `value` and `distribution` are required: an entry lacking either
      one fails, whatever else it has. */
  lemma BothValueAndDistributionRequired(entry: Fields)
    requires !HasKey(entry, "value") || !HasKey(entry, "distribution")
    ensures EntryCheck(Obj(entry)) == Ok(false)
  {
    if !HasKey(entry, "value") {
      assert Lookup(entry, "value").None?;
    } else {
      assert Lookup(entry, "distribution").None?;
    }
  }

  /**
   * With a plain id column and at least two documents having it,
   * `check_exists` holds iff some document's id field equals the name.
   */
  lemma CheckExistsIff(docs: seq<Doc>, idColumn: string, name: Val)
    requires '.' !in idColumn && !IsOperator(idColumn) && !name.Null?
    requires |Presence(docs, idColumn)| > 1
    requires CheckExists(docs, idColumn, name).Ok?
    ensures CheckExists(docs, idColumn, name).value <==>
              exists d :: d in docs && HasKey(d, idColumn) && DocEquals(d, idColumn, name) == Ok(true)
  {
    var segs := Split(idColumn);
    assert segs == [segs[0]] && Join(segs) == segs[0];
    assert segs == [idColumn];
    var q: Fields := [(idColumn, name)];
    assert q[..0] == [];
    assert Query(docs, q) == Step(docs, idColumn, name);
    FieldKeyFilters(docs, idColumn, name);
    var found := Query(docs, q).value;
    if |found| > 0 {
      assert found[0] in found;
    } else {
      forall d | d in docs && HasKey(d, idColumn) ensures DocEquals(d, idColumn, name) != Ok(true) {
        assert d !in found;
      }
    }
  }

  /**
   * With a plain id column that exactly one document has, `check_exists`
   * holds whatever the name: the query skips the value filter for a single
   * candidate.
   */
  lemma CheckExistsSingleCandidate(docs: seq<Doc>, idColumn: string, name: Val)
    requires '.' !in idColumn && !IsOperator(idColumn)
    requires |Presence(docs, idColumn)| == 1
    ensures CheckExists(docs, idColumn, name) == Ok(true)
  {
    var segs := Split(idColumn);
    assert segs == [segs[0]] && Join(segs) == segs[0];
    var q: Fields := [(idColumn, name)];
    assert q[..0] == [];
    assert Query(docs, q) == Step(docs, idColumn, name);
  }
}
