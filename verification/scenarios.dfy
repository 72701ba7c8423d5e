/**
 * Worked examples on two loaded galaxy documents shaped like the catalog's
 * own: "Gal 1" with two `ra` measurements (the best one and one from
 * FakeRef2019) and "Gal 2", with V magnitudes 16.2 and 20.5.
 */
module Scenarios {
  import opened Strings
  import opened Values
  import opened QueryEngine
  import opened Table
  import opened Core

  function Measurement(value: real, reference: string, best: real): Val {
    Obj([("value", Num(value)), ("reference", Str(reference)), ("best", Num(best))])
  }

  function Gal1(): Doc {
    [("name", Str("Gal 1")),
     ("ra", Array([Measurement(9.14542, "Bellazzini_2006_1", 1.0), Measurement(999.14542, "FakeRef2019", 0.0)])),
     ("v_mag", Array([Measurement(16.2, "Bellazzini_2006_1", 1.0)]))]
  }

  function Gal2(): Doc {
    [("name", Str("Gal 2")),
     ("ra", Array([Measurement(10.4, "McConnachie_2012_1", 1.0)])),
     ("v_mag", Array([Measurement(20.5, "McConnachie_2012_1", 1.0)]))]
  }

  function Comparison(op: string, c: real): Fields {
    [("v_mag.value", Obj([(op, Num(c))]))]
  }

  /* ---------------- steps shared by the examples ---------------- */

  lemma SplitKeys()
    ensures Split("name") == ["name"]
    ensures Split("v_mag.value") == ["v_mag", "value"]
  {
    assert '.' !in "name";
    assert '.' !in "value";
    var s := "v_mag.value";
    assert s[5] == '.' && '.' !in s[..5];
    assert IndexOf(s, '.') == 5;
    assert s[..5] == "v_mag" && s[6..] == "value";
    assert Split("value") == ["value"];
  }

  lemma GalaxyFields(g: Doc, name: string, v: real, ref: string)
    requires g == Gal1() || g == Gal2()
    requires name == (if g == Gal1() then "Gal 1" else "Gal 2")
    requires v == (if g == Gal1() then 16.2 else 20.5)
    requires ref == (if g == Gal1() then "Bellazzini_2006_1" else "McConnachie_2012_1")
    ensures Lookup(g, "name") == Some(Str(name))
    ensures Lookup(g, "v_mag") == Some(Array([Measurement(v, ref, 1.0)]))
  {
    assert g[0].0 == "name" && g[2].0 == "v_mag";
    assert "ra" != "v_mag" && "name" != "v_mag";
  }

  /** The comparison of the `value` of the only V magnitude measurement. */
  lemma MagnitudeTest(g: Doc, v: real, ref: string, op: Op, c: real)
    requires Lookup(g, "v_mag") == Some(Array([Measurement(v, ref, 1.0)]))
    ensures FieldTest(g, ["v_mag", "value"], Cmp(op, Num(c))) == Ok(NumCompare(op, v, c))
  {
    var m := Measurement(v, ref, 1.0);
    assert Get(Obj(g), "v_mag") == Ok(Array([m]));
    assert Lookup(m.fields, "value") == Some(Num(v));
    var rs := EntryResults([m], ["v_mag", "value"], Cmp(op, Num(c)));
    assert rs == [Ok(NumCompare(op, v, c))];
    assert rs[..0] == [];
  }

  lemma PresenceOfBoth(a: Doc, b: Doc, k: string)
    requires HasKey(a, k) && HasKey(b, k)
    ensures Presence([a, b], k) == [a, b]
  {
    assert [a, b][..1] == [a];
    assert [a][..0] == [];
    assert Contains(a, k) && Contains(b, k);
    assert Presence([a], k) == [a];
  }

  lemma SelectTwo(a: Doc, b: Doc, segs: seq<string>, value: Val, ba: bool, bb: bool)
    requires |segs| > 0
    requires DocTest(a, segs, value) == Ok(ba) && DocTest(b, segs, value) == Ok(bb)
    ensures Select([a, b], segs, value) == Ok((if ba then [a] else []) + (if bb then [b] else []))
  {
    assert Select([], segs, value) == Ok([]);
    SelectSnoc([], a, segs, value);
    assert [] + [a] == [a];
    var kept := if ba then [a] else [];
    assert Select([a], segs, value) == Ok(kept);
    SelectSnoc([a], b, segs, value);
    assert [a] + [b] == [a, b];
    if !bb {
      assert kept + [] == kept;
    }
  }

  lemma SingleItemQuery(docs: seq<Doc>, key: string, value: Val)
    ensures Query(docs, [(key, value)]) == Step(docs, key, value)
  {
    assert [(key, value)][..0] == [];
  }

  /* ---------------- the examples ---------------- */

  /** An operator dict on `v_mag.value` tests the measurements. */
  lemma OperatorDocTest(g: Doc, op: string, o: Op, c: real)
    requires ComparisonOf(op) == Some(o)
    ensures DocTest(g, ["v_mag", "value"], Obj([(op, Num(c))])) == FieldTest(g, ["v_mag", "value"], Cmp(o, Num(c)))
  {
  }

  /** A query on `v_mag.value` over two documents having `v_mag` applies
      its value to both. */
  lemma MagnitudeStep(a: Doc, b: Doc, value: Val)
    requires HasKey(a, "v_mag") && HasKey(b, "v_mag") && !value.Null?
    ensures Query([a, b], [("v_mag.value", value)]) == Select([a, b], ["v_mag", "value"], value)
  {
    SplitKeys();
    PresenceOfBoth(a, b, "v_mag");
    SingleItemQuery([a, b], "v_mag.value", value);
    assert "v_mag"[..1] == "v";
    assert !IsOperator(Split("v_mag.value")[0]);
    assert Step([a, b], "v_mag.value", value) == SubQuery([a, b], ["v_mag", "value"], value);
  }

  /** A comparison operator on `v_mag.value` keeps the documents whose only
      V magnitude measurement passes, in stored order. */
  lemma ComparisonQuery(a: Doc, va: real, ra: string, b: Doc, vb: real, rb: string, op: string, o: Op, c: real)
    requires ComparisonOf(op) == Some(o)
    requires Lookup(a, "v_mag") == Some(Array([Measurement(va, ra, 1.0)]))
    requires Lookup(b, "v_mag") == Some(Array([Measurement(vb, rb, 1.0)]))
    ensures Query([a, b], Comparison(op, c))
            == Ok((if NumCompare(o, va, c) then [a] else []) + (if NumCompare(o, vb, c) then [b] else []))
  {
    var segs := ["v_mag", "value"];
    var value := Obj([(op, Num(c))]);
    MagnitudeStep(a, b, value);
    MagnitudeTest(a, va, ra, o, c);
    MagnitudeTest(b, vb, rb, o, c);
    OperatorDocTest(a, op, o, c);
    OperatorDocTest(b, op, o, c);
    SelectTwo(a, b, segs, value, NumCompare(o, va, c), NumCompare(o, vb, c));
  }

  lemma Gal1Magnitude()
    ensures Lookup(Gal1(), "v_mag") == Some(Array([Measurement(16.2, "Bellazzini_2006_1", 1.0)]))
  {
    GalaxyFields(Gal1(), "Gal 1", 16.2, "Bellazzini_2006_1");
  }

  lemma Gal2Magnitude()
    ensures Lookup(Gal2(), "v_mag") == Some(Array([Measurement(20.5, "McConnachie_2012_1", 1.0)]))
  {
    GalaxyFields(Gal2(), "Gal 2", 20.5, "McConnachie_2012_1");
  }

  /** `$lt 21` keeps both galaxies. */
  lemma LessThanQuery()
    ensures Query([Gal1(), Gal2()], Comparison("$lt", 21.0)) == Ok([Gal1(), Gal2()])
  {
    Gal1Magnitude();
    Gal2Magnitude();
    assert ComparisonOf("$lt") == Some(LtOp);
    ComparisonQuery(Gal1(), 16.2, "Bellazzini_2006_1", Gal2(), 20.5, "McConnachie_2012_1", "$lt", LtOp, 21.0);
    assert NumCompare(LtOp, 16.2, 21.0) && NumCompare(LtOp, 20.5, 21.0);
    assert [Gal1()] + [Gal2()] == [Gal1(), Gal2()];
  }

  /** `$lte 16.2` keeps the first galaxy only. */
  lemma AtMostQuery()
    ensures Query([Gal1(), Gal2()], Comparison("$lte", 16.2)) == Ok([Gal1()])
  {
    Gal1Magnitude();
    Gal2Magnitude();
    assert ComparisonOf("$lte") == Some(LeOp);
    ComparisonQuery(Gal1(), 16.2, "Bellazzini_2006_1", Gal2(), 20.5, "McConnachie_2012_1", "$lte", LeOp, 16.2);
    assert NumCompare(LeOp, 16.2, 16.2) && !NumCompare(LeOp, 20.5, 16.2);
    assert [Gal1()] + [] == [Gal1()];
  }

  /** `$gte 20.2` keeps the second galaxy only. */
  lemma AtLeastQuery()
    ensures Query([Gal1(), Gal2()], Comparison("$gte", 20.2)) == Ok([Gal2()])
  {
    Gal1Magnitude();
    Gal2Magnitude();
    assert ComparisonOf("$gte") == Some(GeOp);
    ComparisonQuery(Gal1(), 16.2, "Bellazzini_2006_1", Gal2(), 20.5, "McConnachie_2012_1", "$gte", GeOp, 20.2);
    assert !NumCompare(GeOp, 16.2, 20.2) && NumCompare(GeOp, 20.5, 20.2);
    assert [] + [Gal2()] == [Gal2()];
  }

  /** `$gte 999` keeps neither galaxy. */
  lemma NoneQuery()
    ensures Query([Gal1(), Gal2()], Comparison("$gte", 999.0)) == Ok([])
  {
    Gal1Magnitude();
    Gal2Magnitude();
    assert ComparisonOf("$gte") == Some(GeOp);
    ComparisonQuery(Gal1(), 16.2, "Bellazzini_2006_1", Gal2(), 20.5, "McConnachie_2012_1", "$gte", GeOp, 999.0);
    assert !NumCompare(GeOp, 16.2, 999.0) && !NumCompare(GeOp, 20.5, 999.0);
    var none: seq<Doc> := [];
    assert none + none == none;
  }

  /** A name query over two documents having a name applies the value to
      both. */
  lemma NameStep(a: Doc, b: Doc, name: string)
    requires HasKey(a, "name") && HasKey(b, "name")
    ensures Query([a, b], [("name", Str(name))]) == Select([a, b], ["name"], Str(name))
  {
    SplitKeys();
    SingleItemQuery([a, b], "name", Str(name));
    PresenceOfBoth(a, b, "name");
    assert "name"[..1] == "n";
    assert !IsOperator(Split("name")[0]);
    assert Step([a, b], "name", Str(name)) == SubQuery([a, b], ["name"], Str(name));
  }

  /** A document's name test compares its name with the one asked for. */
  lemma NameTest(a: Doc, na: string, name: string)
    requires Lookup(a, "name") == Some(Str(na))
    ensures DocTest(a, ["name"], Str(name)) == Ok(na == name)
  {
    assert "name"[..1] == "n";
    assert !IsOperator(["name"][0]) && |["name"]| == 1;
    assert DocTest(a, ["name"], Str(name)) == DocEquals(a, "name", Str(name));
    assert Compare(EqOp, Str(na), Str(name)) == Ok(na == name);
  }

  /** A name query over two named documents keeps those with that name. */
  lemma NameQuery(a: Doc, na: string, b: Doc, nb: string, name: string)
    requires Lookup(a, "name") == Some(Str(na)) && Lookup(b, "name") == Some(Str(nb))
    ensures Query([a, b], [("name", Str(name))])
            == Ok((if na == name then [a] else []) + (if nb == name then [b] else []))
  {
    NameStep(a, b, name);
    NameTest(a, na, name);
    NameTest(b, nb, name);
    SelectTwo(a, b, ["name"], Str(name), na == name, nb == name);
  }

  /** A name query against one document having a name returns it whatever
      the name asked for. */
  lemma SingleDocumentQuery(a: Doc, name: string)
    requires HasKey(a, "name")
    ensures Query([a], [("name", Str(name))]) == Ok([a])
  {
    SplitKeys();
    SingleItemQuery([a], "name", Str(name));
    assert [a][..0] == [];
    assert Contains(a, "name");
    assert Presence([a], "name") == [a];
    assert "name"[..1] == "n";
  }

  /** Asking for "Gal 2" finds Gal 2 among the two galaxies. */
  lemma FindGal2()
    ensures Query([Gal1(), Gal2()], [("name", Str("Gal 2"))]) == Ok([Gal2()])
  {
    GalaxyFields(Gal1(), "Gal 1", 16.2, "Bellazzini_2006_1");
    GalaxyFields(Gal2(), "Gal 2", 20.5, "McConnachie_2012_1");
    NameQuery(Gal1(), "Gal 1", Gal2(), "Gal 2", "Gal 2");
    assert "Gal 1" != "Gal 2";
    assert [] + [Gal2()] == [Gal2()];
  }

  /** Against a database holding only Gal 1, asking for "Gal 2" returns
      Gal 1: the value filter is skipped for a single candidate. */
  lemma SingleGalaxyQuery()
    ensures Query([Gal1()], [("name", Str("Gal 2"))]) == Ok([Gal1()])
  {
    GalaxyFields(Gal1(), "Gal 1", 16.2, "Bellazzini_2006_1");
    SingleDocumentQuery(Gal1(), "Gal 2");
  }

  /** With the value filter always applied, a name query against one named
      document keeps it iff the names are equal. */
  lemma SingleDocumentFiltered(a: Doc, na: string, name: string)
    requires Lookup(a, "name") == Some(Str(na))
    ensures FilteredStep([a], "name", Str(name)) == Ok(if na == name then [a] else [])
  {
    FilteredNameStep(a, name);
    NameTest(a, na, name);
    assert [a][..0] == [] && [a][0] == a;
    assert Select([], ["name"], Str(name)) == Ok([]);
    assert [] + [a] == [a];
  }

  lemma FilteredNameStep(a: Doc, name: string)
    requires HasKey(a, "name")
    ensures FilteredStep([a], "name", Str(name)) == Select([a], ["name"], Str(name))
  {
    SplitKeys();
    assert [a][..0] == [];
    assert Contains(a, "name");
    assert Presence([a], "name") == [a];
    assert "name"[..1] == "n";
  }

  /** With the value filter always applied, asking for "Gal 2" against a
      database holding only Gal 1 finds nothing. */
  lemma SingleGalaxyFiltered()
    ensures FilteredStep([Gal1()], "name", Str("Gal 2")) == Ok([])
  {
    GalaxyFields(Gal1(), "Gal 1", 16.2, "Bellazzini_2006_1");
    SingleDocumentFiltered(Gal1(), "Gal 1", "Gal 2");
    assert "Gal 1" != "Gal 2";
  }

  lemma MeasurementFields(v: real, ref: string, best: real)
    ensures var m := Measurement(v, ref, best);
            && HasField(m, "reference") && HasField(m, "best")
            && Get(m, "value") == Ok(Num(v))
            && Get(m, "reference") == Ok(Str(ref))
            && Get(m, "best") == Ok(Num(best))
  {
    var m := Measurement(v, ref, best);
    assert "value" != "reference" && "value" != "best" && "reference" != "best";
    assert m.fields[1].0 == "reference" && m.fields[2].0 == "best";
  }

  /** The two `ra` measurements of Gal 1. */
  function RaEntries(): seq<Val> {
    [Measurement(9.14542, "Bellazzini_2006_1", 1.0), Measurement(999.14542, "FakeRef2019", 0.0)]
  }

  lemma RaEntriesFields()
    ensures Gal1()[1].1 == Array(RaEntries())
    ensures forall j :: 0 <= j < |RaEntries()| ==>
              HasField(RaEntries()[j], "reference") && Get(RaEntries()[j], "reference").value.Str?
              && HasField(RaEntries()[j], "best") && Get(RaEntries()[j], "best").value.Num?
  {
    MeasurementFields(9.14542, "Bellazzini_2006_1", 1.0);
    MeasurementFields(999.14542, "FakeRef2019", 0.0);
  }

  /** By default the `ra` cell of Gal 1 is its best measurement. */
  lemma RaBest()
    ensures Cell("ra", Gal1()[1].1, []) == Ok(Num(9.14542))
  {
    var es := RaEntries();
    RaEntriesFields();
    MeasurementFields(9.14542, "Bellazzini_2006_1", 1.0);
    assert Get(es[0], "best") == Ok(Num(1.0));
    BestEntry("ra", es, []);
    assert Cell("ra", Array(es), []) == Get(es[0], "value");
  }

  /** Of two measurements with string references, a selection naming the
      second's reference picks the second, and one naming neither raises. */
  lemma TwoReferences(key: string, m1: Val, m2: Val, selection: Fields, r1: string, r2: string, ref: string)
    requires Lookup(selection, key) == Some(Str(ref))
    requires HasField(m1, "reference") && Get(m1, "reference") == Ok(Str(r1))
    requires HasField(m2, "reference") && Get(m2, "reference") == Ok(Str(r2))
    requires r1 != ref
    ensures ref == r2 ==> Cell(key, Array([m1, m2]), selection) == Get(m2, "value")
    ensures ref != r2 ==> Cell(key, Array([m1, m2]), selection) == Err(IndexError)
  {
    var entries := [m1, m2];
    SelectedReference(key, entries, selection, ref);
    assert entries[0] == m1 && entries[1] == m2;
  }

  /** Selecting FakeRef2019 for `ra` gives that measurement. */
  lemma RaSelected()
    ensures Cell("ra", Gal1()[1].1, [("ra", Str("FakeRef2019"))]) == Ok(Num(999.14542))
  {
    RaEntriesFields();
    MeasurementFields(9.14542, "Bellazzini_2006_1", 1.0);
    MeasurementFields(999.14542, "FakeRef2019", 0.0);
    assert "Bellazzini_2006_1" != "FakeRef2019";
    TwoReferences("ra", RaEntries()[0], RaEntries()[1], [("ra", Str("FakeRef2019"))],
                  "Bellazzini_2006_1", "FakeRef2019", "FakeRef2019");
  }

  /** Selecting a reference no `ra` measurement has raises `IndexError`. */
  lemma RaMissingReference()
    ensures Cell("ra", Gal1()[1].1, [("ra", Str("NoSuchRef"))]) == Err(IndexError)
  {
    RaEntriesFields();
    MeasurementFields(9.14542, "Bellazzini_2006_1", 1.0);
    MeasurementFields(999.14542, "FakeRef2019", 0.0);
    assert "Bellazzini_2006_1" != "NoSuchRef" && "FakeRef2019" != "NoSuchRef";
    TwoReferences("ra", RaEntries()[0], RaEntries()[1], [("ra", Str("NoSuchRef"))],
                  "Bellazzini_2006_1", "FakeRef2019", "NoSuchRef");
  }

  /** Gal 1 is saved as `Gal_1.json`. */
  lemma DefaultFileName()
    ensures SaveFileName(Gal1(), "") == Ok("Gal_1.json")
  {
    GalaxyFields(Gal1(), "Gal 1", 16.2, "Bellazzini_2006_1");
    var s := "Gal 1";
    assert !IsSpace(s[0]) && !IsSpace(s[4]);
    assert LeadingSpaces(s) == 0 && TrailingSpaces(s) == 0;
    assert Strip(s) == s[0..5] == s;
    var r := ReplaceChar(s, ' ', '_');
    assert r == "Gal_1";
    assert r + ".json" == "Gal_1.json";
  }
}
