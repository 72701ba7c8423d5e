/**
 * The conversion between documents as `json.load` gives them (Python lists)
 * and documents as the in-memory database stores them (numpy arrays):
 * `Database._recursive_json_fix` and `Database._recursive_json_reverse_fix`
 * in galcat/core.py.
 *
 * Both are one walk over a dict: a dict value is walked recursively, a
 * sequence of the kind being replaced is rebuilt element by element (each
 * element walked, so each must itself be a dict), and anything else is copied.
 * They differ only in the direction at the top level and in the direction
 * used for nested values:
 *   Fix         = Walk(_, ToArrays, ToArrays)
 *   ReverseFix  = Walk(_, ToLists,  ToArrays)   (as written: nested calls fix)
 *   Unfix       = Walk(_, ToLists,  ToLists)    (the evidently intended inverse)
 */
module Convert {
  import opened Values

  datatype Dir = ToArrays | ToLists

  /** The kind of sequence a walk in direction `d` replaces. */
  predicate Replaces(d: Dir, x: Val) {
    if d == ToArrays then x.List? else x.Array?
  }

  /** The kind of sequence a walk in direction `d` produces. */
  function Wrap(d: Dir, xs: seq<Val>): (r: Val)
    ensures IsSeq(r) && r.elems == xs
  {
    if d == ToArrays then Array(xs) else List(xs)
  }

  /** Walk a dict: `top` decides what happens to sequences directly in it,
      `inner` is the direction of every nested walk. A non-dict has no
      `.items()`. */
  function Walk(v: Val, top: Dir, inner: Dir): (r: Result<Val>)
    ensures r.Ok? ==> v.Obj? && r.value.Obj? && Keys(r.value.fields) == Keys(v.fields)
    ensures !v.Obj? ==> r == Err(AttributeError)
    decreases v, 1
  {
    if !v.Obj? then Err(AttributeError)
    else
      match WalkFields(v, |v.fields|, top, inner)
      case Err(e) => Err(e)
      case Ok(fs) => Ok(Obj(fs))
  }

  /** The first `n` items of dict `v`, walked in order; the first failure
      aborts. */
  function WalkFields(v: Val, n: nat, top: Dir, inner: Dir): (r: Result<Fields>)
    requires v.Obj? && n <= |v.fields|
    ensures r.Ok? <==> forall j :: 0 <= j < n ==> WalkValue(v.fields[j].1, top, inner).Ok?
    ensures r.Ok? ==> |r.value| == n
                      && forall j :: 0 <= j < n ==>
                           r.value[j] == (v.fields[j].0, WalkValue(v.fields[j].1, top, inner).value)
    decreases v, 0, n
  {
    if n == 0 then Ok([])
    else
      match WalkFields(v, n - 1, top, inner)
      case Err(e) => Err(e)
      case Ok(prev) =>
        match WalkValue(v.fields[n - 1].1, top, inner)
        case Err(e) => Err(e)
        case Ok(y) => Ok(prev + [(v.fields[n - 1].0, y)])
  }

  /** One value of a dict being walked. */
  function WalkValue(x: Val, top: Dir, inner: Dir): (r: Result<Val>)
    ensures r.Ok? && x.Obj? ==> r.value.Obj? && Keys(r.value.fields) == Keys(x.fields)
    ensures r.Ok? && Replaces(top, x) ==> IsSeq(r.value) && r.value == Wrap(top, r.value.elems)
                                          && |r.value.elems| == |x.elems|
    ensures !x.Obj? && !Replaces(top, x) ==> r == Ok(x)
    decreases x, 2
  {
    if x.Obj? then Walk(x, inner, inner)
    else if Replaces(top, x) then
      match WalkElems(x, |x.elems|, inner)
      case Err(e) => Err(e)
      case Ok(ys) => Ok(Wrap(top, ys))
    else Ok(x)
  }

  /** The first `m` elements of a sequence, each walked as a dict. */
  function WalkElems(x: Val, m: nat, inner: Dir): (r: Result<seq<Val>>)
    requires IsSeq(x) && m <= |x.elems|
    ensures r.Ok? <==> forall j :: 0 <= j < m ==> Walk(x.elems[j], inner, inner).Ok?
    ensures r.Ok? ==> |r.value| == m
                      && forall j :: 0 <= j < m ==> r.value[j] == Walk(x.elems[j], inner, inner).value
    decreases x, 0, m
  {
    if m == 0 then Ok([])
    else
      match WalkElems(x, m - 1, inner)
      case Err(e) => Err(e)
      case Ok(prev) =>
        match Walk(x.elems[m - 1], inner, inner)
        case Err(e) => Err(e)
        case Ok(y) => Ok(prev + [y])
  }

  /** A walk stops at its first failing item: a failing prefix decides. */
  lemma {:induction false} WalkFieldsStops(v: Val, n: nat, m: nat, top: Dir, inner: Dir)
    requires v.Obj? && n <= m <= |v.fields|
    requires WalkFields(v, n, top, inner).Err?
    ensures WalkFields(v, m, top, inner) == WalkFields(v, n, top, inner)
    decreases m
  {
    if m > n {
      WalkFieldsStops(v, n, m - 1, top, inner);
    }
  }

  lemma {:induction false} WalkElemsStops(x: Val, n: nat, m: nat, inner: Dir)
    requires IsSeq(x) && n <= m <= |x.elems|
    requires WalkElems(x, n, inner).Err?
    ensures WalkElems(x, m, inner) == WalkElems(x, n, inner)
    decreases m
  {
    if m > n {
      WalkElemsStops(x, n, m - 1, inner);
    }
  }

  /** `Database._recursive_json_fix`: lists become numpy arrays, recursively. */
  function Fix(v: Val): (r: Result<Val>)
    ensures !v.Obj? ==> r == Err(AttributeError)
    ensures r.Ok? ==> r.value.Obj? && Keys(r.value.fields) == Keys(v.fields)
  {
    Walk(v, ToArrays, ToArrays)
  }

  /** Field by field: each list becomes an array of the fixed elements, each
      nested dict is fixed, and anything else is copied. */
  lemma FixFields(v: Val)
    ensures var r := Fix(v);
            r.Ok? ==> forall i :: 0 <= i < |v.fields| ==>
              var (x, y) := (v.fields[i].1, r.value.fields[i].1);
              && r.value.fields[i].0 == v.fields[i].0
              && (x.List? ==>
                    && y.Array? && |y.elems| == |x.elems|
                    && forall j :: 0 <= j < |x.elems| ==> Ok(y.elems[j]) == Fix(x.elems[j]))
              && (x.Obj? ==> Fix(x) == Ok(y))
              && (!x.List? && !x.Obj? ==> y == x)
  {
    var r := Fix(v);
    if r.Ok? {
      var fs := WalkFields(v, |v.fields|, ToArrays, ToArrays).value;
      assert r.value.fields == fs;
      forall i | 0 <= i < |v.fields| && v.fields[i].1.List?
        ensures forall j :: 0 <= j < |v.fields[i].1.elems| ==> Ok(fs[i].1.elems[j]) == Fix(v.fields[i].1.elems[j])
      {
        var x := v.fields[i].1;
        assert WalkValue(x, ToArrays, ToArrays).Ok?;
        var ys := WalkElems(x, |x.elems|, ToArrays).value;
        assert fs[i].1.elems == ys;
      }
    }
  }

  /** `Database._recursive_json_reverse_fix` as written: arrays directly in
      the dict become lists, but nested dicts and array elements are passed
      to the forward fix. */
  function ReverseFix(v: Val): (r: Result<Val>)
    ensures !v.Obj? ==> r == Err(AttributeError)
    ensures r.Ok? ==> r.value.Obj? && Keys(r.value.fields) == Keys(v.fields)
  {
    Walk(v, ToLists, ToArrays)
  }

  /** Field by field, as written: each array becomes a list, but its
      elements and each nested dict get the forward fix; anything else is
      copied. */
  lemma ReverseFixFields(v: Val)
    ensures var r := ReverseFix(v);
            r.Ok? ==> forall i :: 0 <= i < |v.fields| ==>
              var (x, y) := (v.fields[i].1, r.value.fields[i].1);
              && r.value.fields[i].0 == v.fields[i].0
              && (x.Array? ==>
                    && y.List? && |y.elems| == |x.elems|
                    && forall j :: 0 <= j < |x.elems| ==> Ok(y.elems[j]) == Fix(x.elems[j]))
              && (x.Obj? ==> Fix(x) == Ok(y))
              && (!x.Array? && !x.Obj? ==> y == x)
  {
    var r := ReverseFix(v);
    if r.Ok? {
      var fs := WalkFields(v, |v.fields|, ToLists, ToArrays).value;
      assert r.value.fields == fs;
      forall i | 0 <= i < |v.fields| && v.fields[i].1.Array?
        ensures forall j :: 0 <= j < |v.fields[i].1.elems| ==> Ok(fs[i].1.elems[j]) == Fix(v.fields[i].1.elems[j])
      {
        var x := v.fields[i].1;
        assert WalkValue(x, ToLists, ToArrays).Ok?;
        var ys := WalkElems(x, |x.elems|, ToArrays).value;
        assert fs[i].1.elems == ys;
      }
    }
  }

  /** The reverse conversion the reverse fix evidently intends: arrays become
      lists at every depth. */
  function Unfix(v: Val): (r: Result<Val>)
    ensures !v.Obj? ==> r == Err(AttributeError)
    ensures r.Ok? ==> r.value.Obj? && Keys(r.value.fields) == Keys(v.fields)
  {
    Walk(v, ToLists, ToLists)
  }

  /** Field by field: each array becomes a list of the unfixed elements, each
      nested dict is unfixed, and anything else is copied. */
  lemma UnfixFields(v: Val)
    ensures var r := Unfix(v);
            r.Ok? ==> forall i :: 0 <= i < |v.fields| ==>
              var (x, y) := (v.fields[i].1, r.value.fields[i].1);
              && r.value.fields[i].0 == v.fields[i].0
              && (x.Array? ==>
                    && y.List? && |y.elems| == |x.elems|
                    && forall j :: 0 <= j < |x.elems| ==> Ok(y.elems[j]) == Unfix(x.elems[j]))
              && (x.Obj? ==> Unfix(x) == Ok(y))
              && (!x.Array? && !x.Obj? ==> y == x)
  {
    var r := Unfix(v);
    if r.Ok? {
      var fs := WalkFields(v, |v.fields|, ToLists, ToLists).value;
      assert r.value.fields == fs;
      forall i | 0 <= i < |v.fields| && v.fields[i].1.Array?
        ensures forall j :: 0 <= j < |v.fields[i].1.elems| ==> Ok(fs[i].1.elems[j]) == Unfix(v.fields[i].1.elems[j])
      {
        var x := v.fields[i].1;
        assert WalkValue(x, ToLists, ToLists).Ok?;
        var ys := WalkElems(x, |x.elems|, ToLists).value;
        assert fs[i].1.elems == ys;
      }
    }
  }

  // ---------------------------------------------------------------------
  // Shapes

  /** No numpy array anywhere: what `json.load` produces. */
  predicate Json(v: Val) {
    match v
    case Array(_) => false
    case List(xs) => forall i | 0 <= i < |xs| :: Json(xs[i])
    case Obj(fs) => forall i | 0 <= i < |fs| :: Json(fs[i].1)
    case _ => true
  }

  /** The shape of a stored document: a dict with no Python list anywhere and
      only dicts inside its arrays. */
  predicate Loaded(v: Val) {
    v.Obj? && LoadedValue(v)
  }

  predicate LoadedValue(x: Val) {
    match x
    case List(_) => false
    case Array(xs) => forall i | 0 <= i < |xs| :: xs[i].Obj? && LoadedValue(xs[i])
    case Obj(fs) => forall i | 0 <= i < |fs| :: LoadedValue(fs[i].1)
    case _ => true
  }

  /** What a walk accepts: a dict whose replaced sequences, at every depth,
      hold only dicts. */
  predicate Walkable(v: Val, top: Dir, inner: Dir)
    decreases v, 1
  {
    v.Obj? && forall i | 0 <= i < |v.fields| :: WalkableValue(v.fields[i].1, top, inner)
  }

  predicate WalkableValue(x: Val, top: Dir, inner: Dir)
    decreases x, 2
  {
    if x.Obj? then Walkable(x, inner, inner)
    else if Replaces(top, x) then forall j | 0 <= j < |x.elems| :: Walkable(x.elems[j], inner, inner)
    else true
  }

  // ---------------------------------------------------------------------
  // Properties

  /** A walk fails exactly when it meets a non-dict where it needs `.items()`. */
  lemma {:induction false} WalkOkIff(v: Val, top: Dir, inner: Dir)
    ensures Walk(v, top, inner).Ok? <==> Walkable(v, top, inner)
    decreases v, 1
  {
    if v.Obj? {
      forall j | 0 <= j < |v.fields|
        ensures WalkValue(v.fields[j].1, top, inner).Ok? <==> WalkableValue(v.fields[j].1, top, inner)
      {
        WalkValueOkIff(v.fields[j].1, top, inner);
      }
    }
  }

  lemma {:induction false} WalkValueOkIff(x: Val, top: Dir, inner: Dir)
    ensures WalkValue(x, top, inner).Ok? <==> WalkableValue(x, top, inner)
    decreases x, 2
  {
    if x.Obj? {
      WalkOkIff(x, inner, inner);
    } else if Replaces(top, x) {
      forall j | 0 <= j < |x.elems|
        ensures Walk(x.elems[j], inner, inner).Ok? <==> Walkable(x.elems[j], inner, inner)
      {
        WalkOkIff(x.elems[j], inner, inner);
      }
    }
  }

  /** Fixing a parsed document yields the stored shape. */
  lemma {:induction false} FixLoads(v: Val)
    requires Json(v) && Fix(v).Ok?
    ensures Loaded(Fix(v).value)
    decreases v, 1
  {
    var fs := Fix(v).value.fields;
    forall j | 0 <= j < |fs| ensures LoadedValue(fs[j].1) {
      FixValueLoads(v.fields[j].1);
    }
  }

  lemma {:induction false} FixValueLoads(x: Val)
    requires Json(x) && WalkValue(x, ToArrays, ToArrays).Ok?
    ensures LoadedValue(WalkValue(x, ToArrays, ToArrays).value)
    decreases x, 2
  {
    if x.Obj? {
      FixLoads(x);
    } else if x.List? {
      var ys := WalkValue(x, ToArrays, ToArrays).value.elems;
      forall j | 0 <= j < |ys| ensures ys[j].Obj? && LoadedValue(ys[j]) {
        FixLoads(x.elems[j]);
      }
    }
  }

  /** A stored document is a fixed point of the fix. */
  lemma {:induction false} FixStored(v: Val)
    requires Loaded(v)
    ensures Fix(v) == Ok(v)
    decreases v, 1
  {
    forall j | 0 <= j < |v.fields|
      ensures WalkValue(v.fields[j].1, ToArrays, ToArrays) == Ok(v.fields[j].1)
    {
      FixValueStored(v.fields[j].1);
    }
    assert WalkFields(v, |v.fields|, ToArrays, ToArrays).value == v.fields;
  }

  lemma {:induction false} FixValueStored(x: Val)
    requires LoadedValue(x)
    ensures WalkValue(x, ToArrays, ToArrays) == Ok(x)
    decreases x, 2
  {
    if x.Obj? {
      FixStored(x);
    }
  }

  /** Round trip: un-fixing a fixed parsed document gives it back. */
  lemma {:induction false} UnfixFix(v: Val)
    requires Json(v) && Fix(v).Ok?
    ensures Unfix(Fix(v).value) == Ok(v)
    decreases v, 1
  {
    var f := Fix(v).value;
    forall j | 0 <= j < |v.fields|
      ensures WalkValue(f.fields[j].1, ToLists, ToLists) == Ok(v.fields[j].1)
    {
      UnfixFixValue(v.fields[j].1);
    }
    assert WalkFields(f, |f.fields|, ToLists, ToLists).value == v.fields;
  }

  lemma {:induction false} UnfixFixValue(x: Val)
    requires Json(x) && WalkValue(x, ToArrays, ToArrays).Ok?
    ensures WalkValue(WalkValue(x, ToArrays, ToArrays).value, ToLists, ToLists) == Ok(x)
    decreases x, 2
  {
    var y := WalkValue(x, ToArrays, ToArrays).value;
    if x.Obj? {
      UnfixFix(x);
    } else if x.List? {
      forall j | 0 <= j < |x.elems| ensures Walk(y.elems[j], ToLists, ToLists) == Ok(x.elems[j]) {
        UnfixFix(x.elems[j]);
      }
      assert WalkElems(y, |y.elems|, ToLists).value == x.elems;
    }
  }

  /** Round trip the other way: a stored document un-fixes to a parsed
      document that fixes back to it. */
  lemma {:induction false} FixUnfix(f: Val)
    requires Loaded(f)
    ensures Unfix(f).Ok? && Json(Unfix(f).value) && Fix(Unfix(f).value) == Ok(f)
    decreases f, 1
  {
    forall j | 0 <= j < |f.fields|
      ensures var u := WalkValue(f.fields[j].1, ToLists, ToLists);
              u.Ok? && Json(u.value) && WalkValue(u.value, ToArrays, ToArrays) == Ok(f.fields[j].1)
    {
      FixUnfixValue(f.fields[j].1);
    }
    var u := Unfix(f).value;
    assert WalkFields(u, |u.fields|, ToArrays, ToArrays).value == f.fields;
  }

  lemma {:induction false} FixUnfixValue(x: Val)
    requires LoadedValue(x)
    ensures var u := WalkValue(x, ToLists, ToLists);
            u.Ok? && Json(u.value) && WalkValue(u.value, ToArrays, ToArrays) == Ok(x)
    decreases x, 2
  {
    if x.Obj? {
      FixUnfix(x);
    } else if x.Array? {
      forall j | 0 <= j < |x.elems|
        ensures var u := Walk(x.elems[j], ToLists, ToLists);
                u.Ok? && Json(u.value) && Fix(u.value) == Ok(x.elems[j])
      {
        FixUnfix(x.elems[j]);
      }
      var u := WalkValue(x, ToLists, ToLists).value;
      assert WalkElems(u, |u.elems|, ToArrays).value == x.elems;
    }
  }

  /** The fields of a stored document with each top-level array turned into a
      list holding the very same elements. */
  function TopListed(fs: Fields): (r: Fields)
    ensures |r| == |fs|
  {
    seq(|fs|, i requires 0 <= i < |fs| =>
      (fs[i].0, if fs[i].1.Array? then List(fs[i].1.elems) else fs[i].1))
  }

  /** What the reverse fix does to a stored document: only its top-level
      arrays become lists; arrays nested deeper stay numpy arrays. */
  lemma {:induction false} ReverseFixStored(f: Val)
    requires Loaded(f)
    ensures ReverseFix(f) == Ok(Obj(TopListed(f.fields)))
  {
    var fs := f.fields;
    forall j | 0 <= j < |fs| ensures WalkValue(fs[j].1, ToLists, ToArrays) == Ok(TopListed(fs)[j].1) {
      var x := fs[j].1;
      assert LoadedValue(x);
      if x.Obj? {
        FixStored(x);
      } else if x.Array? {
        forall k | 0 <= k < |x.elems| ensures Walk(x.elems[k], ToArrays, ToArrays) == Ok(x.elems[k]) {
          FixStored(x.elems[k]);
        }
        assert WalkElems(x, |x.elems|, ToArrays).value == x.elems;
      }
    }
    assert WalkFields(f, |fs|, ToLists, ToArrays).value == TopListed(fs);
  }

  /** A parsed document whose entries hold a list of dicts: the shape the
      reverse fix does not restore. */
  function NestedListDoc(): Val {
    Obj([("ebv", List([Obj([("value", Num(0.6)), ("list", List([Obj([("a", Num(1.0))])]))])]))])
  }

  /** `NestedListDoc` once fixed: both lists are numpy arrays. */
  function NestedFixedDoc(): Val {
    Obj([("ebv", Array([Obj([("value", Num(0.6)), ("list", Array([Obj([("a", Num(1.0))])]))])]))])
  }

  /** The fix turns the lists of `NestedListDoc` into arrays at both depths,
      and the result is in stored form. */
  lemma FixNestedListDoc()
    ensures Fix(NestedListDoc()) == Ok(NestedFixedDoc())
    ensures Loaded(NestedFixedDoc())
  {
    var d := NestedListDoc();
    var inner := Obj([("a", Num(1.0))]);
    var entry := Obj([("value", Num(0.6)), ("list", List([inner]))]);
    var fixedEntry := Obj([("value", Num(0.6)), ("list", Array([inner]))]);
    var f := NestedFixedDoc();
    assert Loaded(inner) && Loaded(fixedEntry);
    assert Loaded(f) by {
      assert LoadedValue(Array([fixedEntry]));
    }
    FixStored(inner);
    assert WalkElems(List([inner]), 1, ToArrays).value == [inner];
    assert WalkFields(entry, 2, ToArrays, ToArrays).value == fixedEntry.fields;
    assert Walk(entry, ToArrays, ToArrays) == Ok(fixedEntry);
    assert WalkElems(List([entry]), 1, ToArrays).value == [fixedEntry];
    assert WalkFields(d, 1, ToArrays, ToArrays).value == f.fields;
  }

  /** `NestedFixedDoc` after the reverse fix as written: the top-level array
      is a list again, the nested one is still an array. */
  function NestedReversedDoc(): Val {
    Obj([("ebv", List([Obj([("value", Num(0.6)), ("list", Array([Obj([("a", Num(1.0))])]))])]))])
  }

  lemma ReverseFixNestedFixedDoc()
    ensures ReverseFix(NestedFixedDoc()) == Ok(NestedReversedDoc())
  {
    var f := NestedFixedDoc();
    FixNestedListDoc();
    ReverseFixStored(f);
    assert TopListed(f.fields) == NestedReversedDoc().fields;
  }

  lemma NestedReversedDiffers()
    ensures NestedReversedDoc() != NestedListDoc()
  {
    var x, y := NestedReversedDoc(), NestedListDoc();
    assert x.fields[0].1.elems[0].fields[1] != y.fields[0].1.elems[0].fields[1];
  }

  /** The reverse fix does not undo the fix: the nested list comes back as a
      numpy array. */
  lemma ReverseFixKeepsNestedArray()
    ensures Fix(NestedListDoc()).Ok?
    ensures ReverseFix(Fix(NestedListDoc()).value) != Ok(NestedListDoc())
    ensures Unfix(Fix(NestedListDoc()).value) == Ok(NestedListDoc())
  {
    FixNestedListDoc();
    ReverseFixNestedFixedDoc();
    NestedReversedDiffers();
    NestedListDocIsJson();
    UnfixFix(NestedListDoc());
  }

  lemma NestedListDocIsJson()
    ensures Json(NestedListDoc())
  {
    var inner := Obj([("a", Num(1.0))]);
    var entry := Obj([("value", Num(0.6)), ("list", List([inner]))]);
    assert Json(inner);
    assert Json(List([inner]));
    assert Json(entry);
    assert Json(List([entry]));
  }

  /** A parsed document with a list of numbers, such as `[1, 2, 3]`. */
  function NumberListDoc(): Val {
    Obj([("list2", List([Num(1.0), Num(2.0), Num(3.0)]))])
  }

  /** Every element of a list is walked as a dict, so the fix raises
      `AttributeError` on a list of numbers. */
  lemma FixRejectsNumberList()
    ensures Fix(NumberListDoc()) == Err(AttributeError)
  {
    var x := List([Num(1.0), Num(2.0), Num(3.0)]);
    assert Walk(x.elems[0], ToArrays, ToArrays) == Err(AttributeError);
    assert WalkElems(x, 1, ToArrays) == Err(AttributeError);
    WalkElemsStops(x, 1, 3, ToArrays);
  }
}
