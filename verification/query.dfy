/**
 * The in-memory query engine of galcat/core.py: `Database._query_manual`
 * and `Database._sub_query`, as functions over the list of stored
 * documents.
 *
 * A query is a dict of (key, value) items applied one after the other, each
 * narrowing the documents the previous items left. A key is split at dots;
 * its first segment is the document field and its second segment, when
 * there is one, the sub-field of the field's entries. A key whose first
 * segment starts with `$` is an operator (only `$or` is meaningful there).
 *
 * Errors are those Python raises: the first document (in order) whose test
 * raises decides the error of the whole filter.
 */
module QueryEngine {
  import opened Strings
  import opened Values

  /** A stored document: the items of a top-level dict. */
  type Doc = Fields

  /* ---------------- subsequences ---------------- */

  /** Strictly increasing indices below `bound`, as `doc_list[ind_list]` takes. */
  predicate Increasing(idx: seq<nat>, bound: nat) {
    (forall i :: 0 <= i < |idx| ==> idx[i] < bound)
    && (forall i, j :: 0 <= i < j < |idx| ==> idx[i] < idx[j])
  }

  function Gather<T>(xs: seq<T>, idx: seq<nat>): (r: seq<T>)
    requires forall i :: 0 <= i < |idx| ==> idx[i] < |xs|
    ensures |r| == |idx| && forall i :: 0 <= i < |idx| ==> r[i] == xs[idx[i]]
  {
    seq(|idx|, i requires 0 <= i < |idx| => xs[idx[i]])
  }

  /** `a` is `b` with some elements dropped and the rest in their order. */
  ghost predicate Subseq<T>(a: seq<T>, b: seq<T>) {
    exists idx :: Increasing(idx, |b|) && a == Gather(b, idx)
  }

  lemma SubseqEmpty<T>(b: seq<T>)
    ensures Subseq([], b)
  {
    assert Increasing([], |b|) && [] == Gather(b, []);
  }

  lemma SubseqRefl<T>(b: seq<T>)
    ensures Subseq(b, b)
  {
    var idx: seq<nat> := seq(|b|, i requires 0 <= i < |b| => i as nat);
    assert Increasing(idx, |b|) && b == Gather(b, idx);
  }

  /** Appending one element to the sequence keeps a subsequence one, with or
      without the element. */
  lemma SubseqSnoc<T>(a: seq<T>, b: seq<T>, x: T)
    requires Subseq(a, b)
    ensures Subseq(a, b + [x]) && Subseq(a + [x], b + [x])
  {
    var idx: seq<nat> :| Increasing(idx, |b|) && a == Gather(b, idx);
    assert Increasing(idx, |b + [x]|) && a == Gather(b + [x], idx);
    var idx2 := idx + [|b|];
    assert Increasing(idx2, |b + [x]|) && a + [x] == Gather(b + [x], idx2);
  }

  lemma SubseqTrans<T>(a: seq<T>, b: seq<T>, c: seq<T>)
    requires Subseq(a, b) && Subseq(b, c)
    ensures Subseq(a, c)
  {
    var ia :| Increasing(ia, |b|) && a == Gather(b, ia);
    var ib :| Increasing(ib, |c|) && b == Gather(c, ib);
    var idx: seq<nat> := seq(|ia|, i requires 0 <= i < |ia| => ib[ia[i]]);
    assert Increasing(idx, |c|) && a == Gather(c, idx);
  }

  lemma SubseqMembers<T>(a: seq<T>, b: seq<T>)
    requires Subseq(a, b)
    ensures forall x :: x in a ==> x in b
  {
    var idx :| Increasing(idx, |b|) && a == Gather(b, idx);
    forall x | x in a
      ensures x in b
    {
      var i :| 0 <= i < |a| && a[i] == x;
      assert b[idx[i]] == x;
    }
  }

  /** `r` is `docs` with exactly the positions `keep` marks, in their order:
      `docs[ind_list]` where `ind_list` lists the marked indices. Unlike
      `Subseq` this fixes how many copies of a repeated element are kept. */
  ghost predicate KeepsExactly<T>(r: seq<T>, docs: seq<T>, keep: seq<bool>) {
    |keep| == |docs|
    && exists idx :: Increasing(idx, |docs|) && r == Gather(docs, idx)
                     && forall i :: 0 <= i < |docs| ==> (i in idx <==> keep[i])
  }

  lemma KeepsEmpty<T>()
    ensures KeepsExactly<T>([], [], [])
  {
    var idx: seq<nat> := [];
    var none: seq<T> := [];
    assert Increasing(idx, 0) && none == Gather(none, idx);
  }

  /** One more element, kept iff it is marked. */
  lemma KeepsSnoc<T>(r: seq<T>, docs: seq<T>, keep: seq<bool>, d: T, b: bool)
    requires KeepsExactly(r, docs, keep)
    ensures KeepsExactly(if b then r + [d] else r, docs + [d], keep + [b])
  {
    var idx: seq<nat> :| Increasing(idx, |docs|) && r == Gather(docs, idx)
               && forall i :: 0 <= i < |docs| ==> (i in idx <==> keep[i]);
    var all := docs + [d];
    assert Gather(all, idx) == r;
    assert |docs| !in idx;
    if b {
      var idx2: seq<nat> := idx + [|docs|];
      assert Increasing(idx2, |all|);
      assert Gather(all, idx2) == r + [d];
      assert forall i :: 0 <= i < |all| ==> (i in idx2 <==> (keep + [b])[i]);
    } else {
      assert Increasing(idx, |all|);
      assert forall i :: 0 <= i < |all| ==> (i in idx <==> (keep + [b])[i]);
    }
  }

  /** Keeping marked positions gives a subsequence holding exactly the marked
      elements. */
  lemma KeepsSubseq<T>(r: seq<T>, docs: seq<T>, keep: seq<bool>)
    requires KeepsExactly(r, docs, keep)
    ensures Subseq(r, docs)
    ensures forall x :: x in r <==> exists i :: 0 <= i < |docs| && keep[i] && docs[i] == x
  {
    var idx: seq<nat> :| Increasing(idx, |docs|) && r == Gather(docs, idx)
               && forall i :: 0 <= i < |docs| ==> (i in idx <==> keep[i]);
    forall x | x in r
      ensures exists i :: 0 <= i < |docs| && keep[i] && docs[i] == x
    {
      var t :| 0 <= t < |r| && r[t] == x;
      assert idx[t] in idx && docs[idx[t]] == x;
    }
    forall x | exists i :: 0 <= i < |docs| && keep[i] && docs[i] == x
      ensures x in r
    {
      var i :| 0 <= i < |docs| && keep[i] && docs[i] == x;
      assert i in idx;
      var t :| 0 <= t < |idx| && idx[t] == i;
      assert r[t] == x;
    }
  }

  /**
   * Two filters in a row: keeping the `inner` positions of what the `outer`
   * filter kept is one filter on the original, provided the inner test
   * depends on the element only (`test` is it on `docs`).
   */
  lemma KeepsCompose<T>(r: seq<T>, mid: seq<T>, docs: seq<T>, outer: seq<bool>, inner: seq<bool>,
                        test: seq<bool>, both: seq<bool>)
    requires KeepsExactly(mid, docs, outer) && KeepsExactly(r, mid, inner)
    requires |test| == |docs| && |both| == |docs|
    requires forall i :: 0 <= i < |docs| ==> (both[i] <==> outer[i] && test[i])
    requires forall i, j :: 0 <= i < |docs| && 0 <= j < |mid| && mid[j] == docs[i] ==> (inner[j] <==> test[i])
    ensures KeepsExactly(r, docs, both)
  {
    var ia: seq<nat> :| Increasing(ia, |docs|) && mid == Gather(docs, ia)
              && forall i :: 0 <= i < |docs| ==> (i in ia <==> outer[i]);
    var ib: seq<nat> :| Increasing(ib, |mid|) && r == Gather(mid, ib)
              && forall j :: 0 <= j < |mid| ==> (j in ib <==> inner[j]);
    var idx: seq<nat> := seq(|ib|, t requires 0 <= t < |ib| => ia[ib[t]]);
    assert Increasing(idx, |docs|) by {
      forall t, u | 0 <= t < u < |idx|
        ensures idx[t] < idx[u]
      {
        assert ib[t] < ib[u];
      }
    }
    assert r == Gather(docs, idx);
    ComposedMarks(mid, docs, outer, inner, test, both, ia, ib, idx);
  }

  /** The positions picked by two filters in a row are the doubly marked ones. */
  lemma ComposedMarks<T>(mid: seq<T>, docs: seq<T>, outer: seq<bool>, inner: seq<bool>,
                         test: seq<bool>, both: seq<bool>, ia: seq<nat>, ib: seq<nat>, idx: seq<nat>)
    requires |outer| == |docs| && |inner| == |mid| && |test| == |docs| && |both| == |docs|
    requires Increasing(ia, |docs|) && mid == Gather(docs, ia)
    requires forall i :: 0 <= i < |docs| ==> (i in ia <==> outer[i])
    requires Increasing(ib, |mid|)
    requires forall j :: 0 <= j < |mid| ==> (j in ib <==> inner[j])
    requires forall i :: 0 <= i < |docs| ==> (both[i] <==> outer[i] && test[i])
    requires forall i, j :: 0 <= i < |docs| && 0 <= j < |mid| && mid[j] == docs[i] ==> (inner[j] <==> test[i])
    requires |idx| == |ib| && forall t :: 0 <= t < |ib| ==> idx[t] == ia[ib[t]]
    ensures forall i :: 0 <= i < |docs| ==> (i in idx <==> both[i])
  {
    forall i | 0 <= i < |docs|
      ensures i in idx <==> both[i]
    {
      if i in idx {
        var t :| 0 <= t < |idx| && idx[t] == i;
        var j := ib[t];
        assert ia[j] == i && i in ia;
        assert mid[j] == docs[i] && j in ib;
      }
      if both[i] {
        assert i in ia;
        var j :| 0 <= j < |ia| && ia[j] == i;
        assert mid[j] == docs[i];
        assert j in ib;
        var t :| 0 <= t < |ib| && ib[t] == j;
        assert idx[t] == i;
      }
    }
  }

  /* ---------------- keys and operators ---------------- */

  /** `key[0].startswith('$')`: the segment names a query operator. */
  predicate IsOperator(seg: string) {
    StartsWith(seg, "$")
  }

  /** The first segment of a dotted key: the document field it is about. */
  function Head(key: string): string {
    Split(key)[0]
  }

  /** The comparison each ordering operator stands for. */
  function ComparisonOf(name: string): (r: Option<Op>)
    ensures r.Some? <==> name in {"$gt", "$gte", "$lt", "$lte"}
    ensures r.Some? ==> r.value != EqOp
  {
    if name == "$gt" then Some(GtOp)
    else if name == "$gte" then Some(GeOp)
    else if name == "$lt" then Some(LtOp)
    else if name == "$lte" then Some(LeOp)
    else None
  }

  /** The operators `_sub_query` implements; any other raises once it is
      applied to a document. */
  predicate Known(name: string) {
    name in {"$gt", "$gte", "$lt", "$lte", "$exists", "$or"}
  }

  /* ---------------- the test on one entry of a field ---------------- */

  /** What each entry `y` of a field is asked: `y[sub] op operand`, or
      whether `sub in y` is `want`. */
  datatype Test = Cmp(op: Op, operand: Val) | Exists(want: bool)

  /** Python's `k in y` for a string `k`. */
  function In(k: string, y: Val): (r: Result<bool>)
    ensures y.Obj? ==> r == Ok(HasKey(y.fields, k))
    ensures y.Str? ==> r == Ok(IsSubstring(k, y.s))
    ensures (y.Null? || y.Bool? || y.Num?) ==> r == Err(TypeError)
  {
    match y
    case Obj(fs) => Ok(Contains(fs, k))
    case Str(s) => Ok(IsSubstring(k, s))
    case List(xs) => ListHas(y, Str(k), |xs|)
    case Array(xs) =>
      (match EachLeft(EqOp, y, Str(k), |xs|)
       case Err(e) => Err(e)
       case Ok(bits) => Ok(true in bits))
    case _ => Err(TypeError)
  }

  /** `x in list` over the first `n` elements: stops at the first equal one. */
  function ListHas(y: Val, x: Val, n: nat): Result<bool>
    requires y.List? && n <= |y.elems|
  {
    if n == 0 then Ok(false)
    else
      match ListHas(y, x, n - 1)
      case Err(e) => Err(e)
      case Ok(found) => if found then Ok(true) else Compare(EqOp, y.elems[n - 1], x)
  }

  /** The test `_sub_query`'s filter lambdas apply to one entry `y` of the
      field `segs[0]`: they need the sub-field name `segs[1]`. */
  function EntryTest(y: Val, segs: seq<string>, t: Test): (r: Result<bool>)
    ensures |segs| < 2 ==> r == Err(IndexError)
    ensures |segs| >= 2 && t.Cmp? ==>
              r == (match Get(y, segs[1])
                    case Err(e) => Err(e)
                    case Ok(x) => Compare(t.op, x, t.operand))
    ensures |segs| >= 2 && t.Exists? && y.Obj? ==> r == Ok(HasKey(y.fields, segs[1]) == t.want)
  {
    if |segs| < 2 then Err(IndexError)
    else
      match t
      case Cmp(op, c) =>
        (match Get(y, segs[1])
         case Err(e) => Err(e)
         case Ok(x) => Compare(op, x, c))
      case Exists(want) =>
        (match In(segs[1], y)
         case Err(e) => Err(e)
         case Ok(b) => Ok(b == want))
  }

  /**
   * The outcome of tests that are all evaluated in order, as `filter` and
   * the `$or` loops evaluate them: the error of the first test that raises,
   * or else whether some test held.
   */
  function AnyOf(rs: seq<Result<bool>>): (r: Result<bool>)
    ensures r.Ok? <==> forall j :: 0 <= j < |rs| ==> rs[j].Ok?
    ensures r.Ok? ==> (r.value <==> exists j :: 0 <= j < |rs| && rs[j] == Ok(true))
    ensures r.Err? ==> exists j :: 0 <= j < |rs| && rs[j] == Err(r.error)
                                   && forall i :: 0 <= i < j ==> rs[i].Ok?
  {
    if rs == [] then Ok(false)
    else
      var init := rs[..|rs| - 1];
      assert forall j :: 0 <= j < |init| ==> init[j] == rs[j];
      match AnyOf(init)
      case Err(e) => Err(e)
      case Ok(b) =>
        match rs[|rs| - 1]
        case Err(e) => Err(e)
        case Ok(c) => Ok(b || c)
  }

  /** `AnyOf` of one more outcome. */
  lemma AnyOfSnoc(rs: seq<Result<bool>>, n: nat)
    requires n < |rs|
    ensures AnyOf(rs[..n + 1]) == match AnyOf(rs[..n])
                                  case Err(e) => Err(e)
                                  case Ok(b) => (match rs[n]
                                                 case Err(e) => Err(e)
                                                 case Ok(c) => Ok(b || c))
  {
    assert rs[..n + 1][..n] == rs[..n];
  }

  /** Once a test raises, the later ones do not matter. */
  lemma {:induction false} AnyOfStops(rs: seq<Result<bool>>, n: nat)
    requires n <= |rs| && AnyOf(rs[..n]).Err?
    ensures AnyOf(rs) == AnyOf(rs[..n])
    decreases |rs|
  {
    if n < |rs| {
      var init := rs[..|rs| - 1];
      assert init[..n] == rs[..n];
      AnyOfStops(init, n);
    } else {
      assert rs[..n] == rs;
    }
  }

  /** The test `t` on each entry of a field. */
  function EntryResults(items: seq<Val>, segs: seq<string>, t: Test): (rs: seq<Result<bool>>)
    ensures |rs| == |items| && forall j :: 0 <= j < |items| ==> rs[j] == EntryTest(items[j], segs, t)
  {
    seq(|items|, j requires 0 <= j < |items| => EntryTest(items[j], segs, t))
  }

  /** Iterate the field `segs[0]` of `doc` and ask whether some entry passes
      `t`: `elem[key[0]]` must exist and be iterable. */
  function FieldTest(doc: Doc, segs: seq<string>, t: Test): (r: Result<bool>)
    requires |segs| > 0
    ensures !HasKey(doc, segs[0]) ==> r == Err(KeyError(segs[0]))
  {
    match Get(Obj(doc), segs[0])
    case Err(e) => Err(e)
    case Ok(field) =>
      match Iterate(field)
      case Err(e) => Err(e)
      case Ok(items) => AnyOf(EntryResults(items, segs, t))
  }

  /** `doc[key] == value`, for a key with one segment and no operator. */
  function DocEquals(doc: Doc, key: string, value: Val): (r: Result<bool>)
    ensures !HasKey(doc, key) ==> r == Err(KeyError(key))
    ensures HasKey(doc, key) ==> r == Compare(EqOp, Lookup(doc, key).value, value)
  {
    match Get(Obj(doc), key)
    case Err(e) => Err(e)
    case Ok(x) => Compare(EqOp, x, value)
  }

  /** The documents that have key `k`: `_sub_query(docs, k)` with no value. */
  function Presence(docs: seq<Doc>, k: string): (r: seq<Doc>)
    ensures forall d :: d in r <==> d in docs && HasKey(d, k)
    ensures |r| <= |docs|
  {
    if docs == [] then []
    else
      var init := docs[..|docs| - 1];
      var last := docs[|docs| - 1];
      assert docs == init + [last];
      var kept := Presence(init, k);
      if Contains(last, k) then kept + [last] else kept
  }

  /* ---------------- `_sub_query` with a value ---------------- */

  /**
   * `_sub_query(docs, segs, value)`: a `None` value is looked up as a key,
   * which raises for the list `segs` as soon as there is a document;
   * otherwise the documents passing `DocTest`, in order.
   */
  function SubQuery(docs: seq<Doc>, segs: seq<string>, value: Val): (r: Result<seq<Doc>>)
    requires |segs| > 0
    ensures value.Null? && docs != [] ==> r == Err(TypeError)
    ensures r.Ok? ==> |r.value| <= |docs|
    decreases value, 7
  {
    if value.Null? then (if docs == [] then Ok([]) else Err(TypeError))
    else Select(docs, segs, value)
  }

  /** The documents of `docs` whose `DocTest` holds, in order. */
  function Select(docs: seq<Doc>, segs: seq<string>, value: Val): (r: Result<seq<Doc>>)
    requires |segs| > 0
    ensures r.Ok? ==> |r.value| <= |docs|
    decreases value, 6, |docs|
  {
    if docs == [] then Ok([])
    else
      match Select(docs[..|docs| - 1], segs, value)
      case Err(e) => Err(e)
      case Ok(kept) =>
        match DocTest(docs[|docs| - 1], segs, value)
        case Err(e) => Err(e)
        case Ok(b) => Ok(if b then kept + [docs[|docs| - 1]] else kept)
  }

  /** Which of `docs` have key `k`. */
  ghost function HasKeyMarks(docs: seq<Doc>, k: string): (m: seq<bool>)
    ensures |m| == |docs| && forall i :: 0 <= i < |docs| ==> m[i] == HasKey(docs[i], k)
  {
    seq(|docs|, i requires 0 <= i < |docs| => HasKey(docs[i], k))
  }

  /** Which of `docs` pass the value's test. */
  ghost function TestMarks(docs: seq<Doc>, segs: seq<string>, value: Val): (m: seq<bool>)
    requires |segs| > 0
    ensures |m| == |docs| && forall i :: 0 <= i < |docs| ==> m[i] == (DocTest(docs[i], segs, value) == Ok(true))
  {
    seq(|docs|, i requires 0 <= i < |docs| => DocTest(docs[i], segs, value) == Ok(true))
  }

  /** Which of `docs` have the field of `key` and pass the value's test. */
  ghost function FieldMarks(docs: seq<Doc>, key: string, value: Val): (m: seq<bool>)
    ensures |m| == |docs|
    ensures forall i :: 0 <= i < |docs| ==>
              m[i] == (HasKey(docs[i], Head(key)) && DocTest(docs[i], Split(key), value) == Ok(true))
  {
    seq(|docs|, i requires 0 <= i < |docs| =>
          HasKey(docs[i], Head(key)) && DocTest(docs[i], Split(key), value) == Ok(true))
  }

  /** A dotted or operator key tests the field's entries (`Match`); a plain
      key compares the field itself. */
  function DocTest(doc: Doc, segs: seq<string>, value: Val): Result<bool>
    requires |segs| > 0
    decreases value, 5
  {
    if |segs| > 1 || IsOperator(segs[0]) then Match(doc, segs, value)
    else DocEquals(doc, segs[0], value)
  }

  /**
   * Whether `doc` goes into `ind_list`. A dict value is an operator
   * (only its first item counts); a list value takes `segs[0]` as the
   * operator; anything else is compared for equality with each entry's
   * sub-field.
   */
  function Match(doc: Doc, segs: seq<string>, value: Val): Result<bool>
    requires |segs| > 0
    decreases value, 4
  {
    if value.Obj? && value.fields == [] then Err(IndexError)
    else if value.Obj? || value.List? then
      var name := if value.List? then segs[0] else value.fields[0].0;
      var sub := if value.List? then value else value.fields[0].1;
      if ComparisonOf(name).Some? then FieldTest(doc, segs, Cmp(ComparisonOf(name).value, sub))
      else if name == "$exists" then
        (match Truthy(sub)
         case Err(e) => Err(e)
         case Ok(want) => FieldTest(doc, segs, Exists(want)))
      else if name == "$or" then OrEval(doc, sub)
      else Err(Unsupported(name))
    else FieldTest(doc, segs, Cmp(EqOp, value))
  }

  /** `$or`: iterate the operand; each item must be a dict, and the document
      matches when one of its (key, value) items does. Every item is
      evaluated. */
  function OrEval(doc: Doc, sub: Val): Result<bool>
    decreases sub, 3
  {
    match sub
    case List(xs) => AnyOf(OrResults(doc, sub))
    case Array(xs) => AnyOf(OrResults(doc, sub))
    case Str(s) => if s == [] then Ok(false) else Err(AttributeError)
    case Obj(fs) => if fs == [] then Ok(false) else Err(AttributeError)
    case _ => Err(TypeError)
  }

  /** The outcome of each sub-query of an `$or`. */
  function OrResults(doc: Doc, sub: Val): (rs: seq<Result<bool>>)
    requires IsSeq(sub)
    ensures |rs| == |sub.elems|
    decreases sub, 2
  {
    seq(|sub.elems|, i requires 0 <= i < |sub.elems| => OrItem(doc, sub.elems[i]))
  }

  /** One sub-query of an `$or`: it needs `.items()`, so it must be a dict;
      it matches when one of its (key, value) items does. */
  function OrItem(doc: Doc, q: Val): Result<bool>
    decreases q, 1
  {
    if !q.Obj? then Err(AttributeError) else AnyOf(KeyHits(doc, q))
  }

  /** The outcome of each (key, value) item of one `$or` sub-query. */
  function KeyHits(doc: Doc, q: Val): (rs: seq<Result<bool>>)
    requires q.Obj?
    ensures |rs| == |q.fields|
    decreases q, 0
  {
    seq(|q.fields|, j requires 0 <= j < |q.fields| => KeyHit(doc, q.fields[j].0, q.fields[j].1))
  }

  /** One item `k: v` of an `$or` sub-query on the single document `doc`:
      the presence check on the head, then the value filter. */
  function KeyHit(doc: Doc, k: string, v: Val): Result<bool>
    decreases v, 8
  {
    var segs := Split(k);
    var found := Presence([doc], segs[0]);
    if |found| > 0 then
      match SubQuery(found, segs, v)
      case Err(e) => Err(e)
      case Ok(r) => Ok(|r| > 0)
    else Ok(false)
  }

  /* ---------------- `_query_manual` ---------------- */

  /**
   * One (key, value) item of a query applied to the documents left so far.
   * A field key first keeps the documents having the field and applies the
   * value only when more than one document is left; an operator key applies
   * the value at once.
   */
  function Step(docs: seq<Doc>, key: string, value: Val): (r: Result<seq<Doc>>)
    ensures r.Ok? ==> |r.value| <= |docs|
  {
    var segs := Split(key);
    if !IsOperator(segs[0]) then
      var found := Presence(docs, segs[0]);
      if |found| > 1 then SubQuery(found, segs, value) else Ok(found)
    else SubQuery(docs, segs, value)
  }

  /** `_query_manual`: the query's items applied in order. */
  function Query(docs: seq<Doc>, query: Fields): (r: Result<seq<Doc>>)
    ensures r.Ok? ==> |r.value| <= |docs|
  {
    if query == [] then Ok(docs)
    else
      match Query(docs, query[..|query| - 1])
      case Err(e) => Err(e)
      case Ok(out) => Step(out, query[|query| - 1].0, query[|query| - 1].1)
  }

  /* ---------------- properties ---------------- */

  /** The presence filter keeps exactly the documents having the key, in
      their order, one copy per position. */
  lemma {:induction false} PresenceKeeps(docs: seq<Doc>, k: string)
    ensures KeepsExactly(Presence(docs, k), docs, HasKeyMarks(docs, k))
    ensures Subseq(Presence(docs, k), docs)
    decreases |docs|
  {
    if docs == [] {
      KeepsEmpty<Doc>();
      assert HasKeyMarks(docs, k) == [];
    } else {
      var init := docs[..|docs| - 1];
      var last := docs[|docs| - 1];
      assert docs == init + [last];
      PresenceKeeps(init, k);
      KeepsSnoc(Presence(init, k), init, HasKeyMarks(init, k), last, HasKey(last, k));
      assert HasKeyMarks(docs, k) == HasKeyMarks(init, k) + [HasKey(last, k)];
    }
    KeepsSubseq(Presence(docs, k), docs, HasKeyMarks(docs, k));
  }

  /**
   * The value filter succeeds iff every document's test does; it then keeps
   * exactly the documents whose test holds, in their order; otherwise it
   * raises the error of the first document whose test raises.
   */
  lemma {:induction false} SelectSpec(docs: seq<Doc>, segs: seq<string>, value: Val)
    requires |segs| > 0
    ensures var r := Select(docs, segs, value);
            && (r.Ok? <==> forall j :: 0 <= j < |docs| ==> DocTest(docs[j], segs, value).Ok?)
            && (r.Ok? ==> KeepsExactly(r.value, docs, TestMarks(docs, segs, value))
                          && Subseq(r.value, docs)
                          && forall d :: d in r.value <==> d in docs && DocTest(d, segs, value) == Ok(true))
            && (r.Err? ==> exists j :: 0 <= j < |docs| && DocTest(docs[j], segs, value) == Err(r.error)
                                       && forall i :: 0 <= i < j ==> DocTest(docs[i], segs, value).Ok?)
  {
    SelectOutcome(docs, segs, value);
    var r := Select(docs, segs, value);
    if r.Ok? {
      var m := TestMarks(docs, segs, value);
      SelectKeeps(docs, segs, value);
      KeepsSubseq(r.value, docs, m);
      forall d
        ensures d in r.value <==> d in docs && DocTest(d, segs, value) == Ok(true)
      {
        if d in r.value {
          var i :| 0 <= i < |docs| && m[i] && docs[i] == d;
        }
        if d in docs && DocTest(d, segs, value) == Ok(true) {
          var i :| 0 <= i < |docs| && docs[i] == d;
          assert m[i];
        }
      }
    }
  }

  /** The value filter succeeds iff every document's test does, and
      otherwise raises the error of the first document whose test raises. */
  lemma {:induction false} SelectOutcome(docs: seq<Doc>, segs: seq<string>, value: Val)
    requires |segs| > 0
    ensures var r := Select(docs, segs, value);
            && (r.Ok? <==> forall j :: 0 <= j < |docs| ==> DocTest(docs[j], segs, value).Ok?)
            && (r.Err? ==> exists j :: 0 <= j < |docs| && DocTest(docs[j], segs, value) == Err(r.error)
                                       && forall i :: 0 <= i < j ==> DocTest(docs[i], segs, value).Ok?)
    decreases |docs|
  {
    if docs != [] {
      var init := docs[..|docs| - 1];
      var last := docs[|docs| - 1];
      assert docs == init + [last];
      assert forall j :: 0 <= j < |init| ==> init[j] == docs[j];
      SelectOutcome(init, segs, value);
    }
  }

  /** The value filter keeps the documents whose test holds position by
      position: a repeated document is kept once per passing position. */
  lemma {:induction false} SelectKeeps(docs: seq<Doc>, segs: seq<string>, value: Val)
    requires |segs| > 0
    ensures Select(docs, segs, value).Ok? ==> KeepsExactly(Select(docs, segs, value).value, docs, TestMarks(docs, segs, value))
    decreases |docs|
  {
    if docs == [] {
      KeepsEmpty<Doc>();
      assert TestMarks(docs, segs, value) == [];
    } else {
      var init := docs[..|docs| - 1];
      var last := docs[|docs| - 1];
      assert docs == init + [last];
      SelectKeeps(init, segs, value);
      if Select(init, segs, value).Ok? {
        SelectKeepsSnoc(init, last, segs, value);
      }
    }
  }

  lemma {:induction false} SelectKeepsSnoc(init: seq<Doc>, last: Doc, segs: seq<string>, value: Val)
    requires |segs| > 0 && Select(init, segs, value).Ok?
    requires KeepsExactly(Select(init, segs, value).value, init, TestMarks(init, segs, value))
    ensures var r := Select(init + [last], segs, value);
            r.Ok? ==> KeepsExactly(r.value, init + [last], TestMarks(init + [last], segs, value))
  {
    SelectSnoc(init, last, segs, value);
    var t := DocTest(last, segs, value);
    if t.Ok? {
      var b := t == Ok(true);
      var m := TestMarks(init, segs, value);
      KeepsSnoc(Select(init, segs, value).value, init, m, last, b);
      assert TestMarks(init + [last], segs, value) == m + [b];
    }
  }

  /** The value filter stops at the first document whose test raises. */
  /** One more document of `_sub_query`'s loop: an error in its test
      aborts, otherwise it is kept iff it matches. */
  lemma {:induction false} SelectSnoc(pre: seq<Doc>, d: Doc, segs: seq<string>, value: Val)
    requires |segs| > 0 && Select(pre, segs, value).Ok?
    ensures Select(pre + [d], segs, value) == match DocTest(d, segs, value)
                                             case Err(e) => Err(e)
                                             case Ok(b) => Ok(if b then Select(pre, segs, value).value + [d]
                                                              else Select(pre, segs, value).value)
  {
    var all := pre + [d];
    assert all[..|all| - 1] == pre && all[|all| - 1] == d;
  }

  /** One pass of `_sub_query`'s loop over `docs[i]` for a dotted or
      operator key, given that `ind_list` gathers `Select` of the documents
      before it. */
  lemma {:induction false} SelectStep(docs: seq<Doc>, i: nat, segs: seq<string>, value: Val, idx: seq<nat>)
    requires |segs| > 1 || (|segs| == 1 && IsOperator(segs[0]))
    requires i < |docs| && Increasing(idx, i)
    requires Select(docs[..i], segs, value) == Ok(Gather(docs, idx))
    ensures var hit := Match(docs[i], segs, value);
            && (hit.Err? ==> Select(docs, segs, value) == Err(hit.error))
            && (hit.Ok? ==>
                  var next := if hit.value then idx + [i] else idx;
                  Increasing(next, i + 1) && Select(docs[..i + 1], segs, value) == Ok(Gather(docs, next)))
  {
    var pre, d := docs[..i], docs[i];
    assert DocTest(d, segs, value) == Match(d, segs, value);
    assert docs[..i + 1] == pre + [d];
    SelectSnoc(pre, d, segs, value);
    if DocTest(d, segs, value).Err? {
      SelectStops(docs, i + 1, segs, value);
    } else {
      SelectStepKeeps(docs, i, segs, value, idx);
    }
  }

  /** `SelectStep` when the document's test does not raise. */
  lemma SelectStepKeeps(docs: seq<Doc>, i: nat, segs: seq<string>, value: Val, idx: seq<nat>)
    requires |segs| > 0 && i < |docs| && Increasing(idx, i)
    requires Select(docs[..i], segs, value) == Ok(Gather(docs, idx))
    requires DocTest(docs[i], segs, value).Ok?
    requires Select(docs[..i + 1], segs, value)
             == Ok(if DocTest(docs[i], segs, value).value then Gather(docs, idx) + [docs[i]] else Gather(docs, idx))
    ensures var next := if DocTest(docs[i], segs, value).value then idx + [i] else idx;
            Increasing(next, i + 1) && Select(docs[..i + 1], segs, value) == Ok(Gather(docs, next))
  {
    if DocTest(docs[i], segs, value).value {
      GatherSnoc(docs, i, idx);
    }
  }

  /** `ind_list` gains index `i` of `docs`: still increasing, and gathering
      it appends `docs[i]`. */
  lemma GatherSnoc<T>(docs: seq<T>, i: nat, idx: seq<nat>)
    requires i < |docs| && Increasing(idx, i)
    ensures Increasing(idx + [i], i + 1) && Gather(docs, idx + [i]) == Gather(docs, idx) + [docs[i]]
  {
  }

  lemma {:induction false} SelectStops(docs: seq<Doc>, n: nat, segs: seq<string>, value: Val)
    requires |segs| > 0 && n <= |docs| && Select(docs[..n], segs, value).Err?
    ensures Select(docs, segs, value) == Select(docs[..n], segs, value)
    decreases |docs|
  {
    if n < |docs| {
      var init := docs[..|docs| - 1];
      assert init[..n] == docs[..n];
      SelectStops(init, n, segs, value);
    } else {
      assert docs[..n] == docs;
    }
  }

  /** `_sub_query` with a value keeps documents in their order. */
  lemma SubQuerySubseq(docs: seq<Doc>, segs: seq<string>, value: Val)
    requires |segs| > 0
    ensures SubQuery(docs, segs, value).Ok? ==> Subseq(SubQuery(docs, segs, value).value, docs)
  {
    if value.Null? {
      SubseqEmpty(docs);
    } else {
      SelectSpec(docs, segs, value);
    }
  }

  /** One query item narrows: its result is a subsequence of its input, and
      a field key keeps only documents that have the field. */
  lemma StepNarrows(docs: seq<Doc>, key: string, value: Val)
    ensures var r := Step(docs, key, value);
            r.Ok? ==> Subseq(r.value, docs)
                      && (!IsOperator(Head(key)) ==> forall d :: d in r.value ==> HasKey(d, Head(key)))
  {
    var segs := Split(key);
    if !IsOperator(segs[0]) {
      var found := Presence(docs, segs[0]);
      PresenceKeeps(docs, segs[0]);
      if |found| > 1 {
        var r := SubQuery(found, segs, value);
        if r.Ok? {
          SubQuerySubseq(found, segs, value);
          SubseqTrans(r.value, found, docs);
          SubseqMembers(r.value, found);
        }
      }
    } else {
      SubQuerySubseq(docs, segs, value);
    }
  }

  /**
   * A query returns documents of the database in their stored order, and
   * every document it returns has the field of each of the query's field
   * keys.
   */
  lemma {:induction false} QueryNarrows(docs: seq<Doc>, query: Fields)
    ensures var r := Query(docs, query);
            r.Ok? ==> Subseq(r.value, docs)
                      && forall i, d :: 0 <= i < |query| && !IsOperator(Head(query[i].0)) && d in r.value
                                        ==> HasKey(d, Head(query[i].0))
    decreases |query|
  {
    if query == [] {
      SubseqRefl(docs);
    } else {
      var init := query[..|query| - 1];
      var last := query[|query| - 1];
      QueryNarrows(docs, init);
      var prev := Query(docs, init);
      if prev.Ok? {
        StepNarrows(prev.value, last.0, last.1);
        var r := Step(prev.value, last.0, last.1);
        if r.Ok? {
          SubseqTrans(r.value, prev.value, docs);
          SubseqMembers(r.value, prev.value);
          assert forall i :: 0 <= i < |init| ==> init[i] == query[i];
        }
      }
    }
  }

  /** One more item of a query is one more `Step` on the result so far. */
  lemma QueryPrefixStep(docs: seq<Doc>, query: Fields, i: nat)
    requires i < |query|
    ensures Query(docs, query[..i + 1]) == (match Query(docs, query[..i])
                                            case Err(e) => Err(e)
                                            case Ok(r) => Step(r, query[i].0, query[i].1))
  {
    assert query[..i + 1][..i] == query[..i];
  }

  /** The items of a query are applied one after the other: a query split
      in two is the second part run on the first part's result. */
  lemma {:induction false} QueryConcat(docs: seq<Doc>, q1: Fields, q2: Fields)
    ensures Query(docs, q1 + q2) == (match Query(docs, q1)
                                     case Err(e) => Err(e)
                                     case Ok(r) => Query(r, q2))
    decreases |q2|
  {
    if q2 == [] {
      assert q1 + q2 == q1;
    } else {
      var init := q2[..|q2| - 1];
      assert (q1 + q2)[..|q1 + q2| - 1] == q1 + init;
      assert (q1 + q2)[|q1 + q2| - 1] == q2[|q2| - 1];
      QueryConcat(docs, q1, init);
    }
  }

  /**
   * A field key leaves the documents that have the field untouched by its
   * value when at most one of them has it: the value filter is skipped,
   * whatever the value.
   */
  lemma SingleCandidateSkipsValue(docs: seq<Doc>, key: string, value: Val)
    requires !IsOperator(Head(key))
    requires |Presence(docs, Head(key))| <= 1
    ensures Step(docs, key, value) == Ok(Presence(docs, Head(key)))
    ensures forall d :: d in docs && HasKey(d, Head(key)) ==> Step(docs, key, value).value == [d]
  {
    var found := Presence(docs, Head(key));
    forall d | d in docs && HasKey(d, Head(key))
      ensures found == [d]
    {
      assert d in found;
    }
  }

  /**
   * A field key with more than one candidate keeps exactly the candidates
   * whose test holds; for a dotted key the test looks at the entries of the
   * field.
   */
  lemma FieldKeyFilters(docs: seq<Doc>, key: string, value: Val)
    requires !IsOperator(Head(key)) && !value.Null?
    requires |Presence(docs, Head(key))| > 1
    ensures var r := Step(docs, key, value);
            r.Ok? ==> KeepsExactly(r.value, docs, FieldMarks(docs, key, value))
                      && forall d :: d in r.value <==> (d in docs && HasKey(d, Head(key))
                                                       && DocTest(d, Split(key), value) == Ok(true))
    ensures '.' in key ==> forall d :: DocTest(d, Split(key), value) == Match(d, Split(key), value)
  {
    var found := Presence(docs, Head(key));
    SelectSpec(found, Split(key), value);
    assert Step(docs, key, value) == Select(found, Split(key), value);
    FilterAfterPresence(docs, key, value);
  }

  /** The presence filter followed by the value filter keeps exactly the
      documents having the field and passing the test. */
  lemma FilterAfterPresence(docs: seq<Doc>, key: string, value: Val)
    ensures var r := Select(Presence(docs, Head(key)), Split(key), value);
            r.Ok? ==> KeepsExactly(r.value, docs, FieldMarks(docs, key, value))
  {
    var found := Presence(docs, Head(key));
    var segs := Split(key);
    PresenceKeeps(docs, Head(key));
    SelectSpec(found, segs, value);
    var r := Select(found, segs, value);
    if r.Ok? {
      KeepsCompose(r.value, found, docs, HasKeyMarks(docs, Head(key)), TestMarks(found, segs, value),
                   TestMarks(docs, segs, value), FieldMarks(docs, key, value));
    }
  }

  /**
   * One query item with the value filter applied whatever the number of
   * documents left after the presence filter: the step `_query_manual`
   * evidently means, without the skip for a single candidate.
   */
  function FilteredStep(docs: seq<Doc>, key: string, value: Val): Result<seq<Doc>> {
    var segs := Split(key);
    if !IsOperator(segs[0]) then SubQuery(Presence(docs, segs[0]), segs, value)
    else SubQuery(docs, segs, value)
  }

  /**
   * The corrected step keeps, in order, exactly the documents that have the
   * field and pass the value's test, however many have the field; it agrees
   * with `Step` whenever more than one document has the field.
   */
  lemma FilteredStepSpec(docs: seq<Doc>, key: string, value: Val)
    requires !IsOperator(Head(key)) && !value.Null?
    ensures var r := FilteredStep(docs, key, value);
            r.Ok? ==> KeepsExactly(r.value, docs, FieldMarks(docs, key, value))
                      && Subseq(r.value, docs)
                      && forall d :: d in r.value <==> (d in docs && HasKey(d, Head(key))
                                                      && DocTest(d, Split(key), value) == Ok(true))
    ensures |Presence(docs, Head(key))| > 1 ==> FilteredStep(docs, key, value) == Step(docs, key, value)
  {
    var found := Presence(docs, Head(key));
    SelectSpec(found, Split(key), value);
    PresenceKeeps(docs, Head(key));
    var r := FilteredStep(docs, key, value);
    if r.Ok? {
      SubseqTrans(r.value, found, docs);
      FilterAfterPresence(docs, key, value);
    }
  }

  /**
   * The ordering operators: a document matches `{op: c}` (only the first
   * item of the operator dict counts) iff its field `segs[0]` has an entry
   * whose sub-field `segs[1]` compares to `c` as `op` says; the test raises
   * iff the field is missing or not iterable or some entry's test raises.
   */
  lemma {:induction false} ComparisonOperator(doc: Doc, segs: seq<string>, name: string, c: Val, rest: Fields)
    requires |segs| > 0 && ComparisonOf(name).Some?
    ensures var r := Match(doc, segs, Obj([(name, c)] + rest));
            var t := Cmp(ComparisonOf(name).value, c);
            && (r.Ok? <==> HasKey(doc, segs[0]) && Iterate(Lookup(doc, segs[0]).value).Ok?
                           && forall y :: y in Iterate(Lookup(doc, segs[0]).value).value ==> EntryTest(y, segs, t).Ok?)
            && (r.Ok? ==> (r.value <==> exists y :: y in Iterate(Lookup(doc, segs[0]).value).value
                                                    && EntryTest(y, segs, t) == Ok(true)))
  {
    var t := Cmp(ComparisonOf(name).value, c);
    assert Match(doc, segs, Obj([(name, c)] + rest)) == FieldTest(doc, segs, t);
    if HasKey(doc, segs[0]) {
      var field := Lookup(doc, segs[0]).value;
      if Iterate(field).Ok? {
        var items := Iterate(field).value;
        assert forall y :: y in items <==> exists j :: 0 <= j < |items| && items[j] == y;
      }
    }
  }

  /**
   * An operator `_sub_query` does not implement raises `RuntimeError` for
   * the first document it is applied to, and is never noticed when there
   * are no documents.
   */
  lemma UnknownOperator(docs: seq<Doc>, segs: seq<string>, name: string, c: Val, rest: Fields)
    requires |segs| > 0 && !Known(name)
    ensures forall doc :: Match(doc, segs, Obj([(name, c)] + rest)) == Err(Unsupported(name))
    ensures (|segs| > 1 || IsOperator(segs[0])) ==>
              SubQuery(docs, segs, Obj([(name, c)] + rest))
                == if docs == [] then Ok([]) else Err(Unsupported(name))
  {
    var v := Obj([(name, c)] + rest);
    if |segs| > 1 || IsOperator(segs[0]) {
      SelectSpec(docs, segs, v);
    }
  }

  /**
   * `$or` with a list of sub-queries: the test succeeds iff every item
   * evaluates without error, and it then holds iff some item matches.
   */
  lemma OrSpec(doc: Doc, subs: seq<Val>)
    ensures var r := OrEval(doc, List(subs));
            && (r.Ok? <==> forall i :: 0 <= i < |subs| ==> OrItem(doc, subs[i]).Ok?)
            && (r.Ok? ==> (r.value <==> exists i :: 0 <= i < |subs| && OrItem(doc, subs[i]) == Ok(true)))
  {
    var rs := OrResults(doc, List(subs));
    assert forall i :: 0 <= i < |subs| ==> rs[i] == OrItem(doc, subs[i]);
  }

  /**
   * One `$or` sub-query: it evaluates without error iff it is a dict and
   * each of its (key, value) items does; it then matches iff one of them
   * does.
   */
  lemma {:induction false} OrItemSpec(doc: Doc, q: Val)
    ensures !q.Obj? ==> OrItem(doc, q) == Err(AttributeError)
    ensures q.Obj? ==>
              var hits, r := KeyHits(doc, q), OrItem(doc, q);
              && (r.Ok? <==> forall j :: 0 <= j < |hits| ==> hits[j].Ok?)
              && (r.Ok? ==> (r.value <==> exists j :: 0 <= j < |hits| && hits[j] == Ok(true)))
  {
    if q.Obj? {
      assert OrItem(doc, q) == AnyOf(KeyHits(doc, q));
    }
  }

  /**
   * One item `k: v` of an `$or` sub-query on one document: no match when the
   * document lacks the field; a `None` value raises (`key in new_doc` with
   * a list key); otherwise the value's test on that document, since the
   * presence check leaves the document alone and the filter keeps it iff
   * its test holds.
   */
  lemma KeyHitSpec(doc: Doc, k: string, v: Val)
    ensures !HasKey(doc, Head(k)) ==> KeyHit(doc, k, v) == Ok(false)
    ensures HasKey(doc, Head(k)) && v.Null? ==> KeyHit(doc, k, v) == Err(TypeError)
    ensures HasKey(doc, Head(k)) && !v.Null? ==> KeyHit(doc, k, v) == DocTest(doc, Split(k), v)
  {
    var segs := Split(k);
    if HasKey(doc, segs[0]) {
      assert Presence([doc], segs[0]) == [doc] by {
        assert Presence([doc][..0], segs[0]) == [];
      }
      if !v.Null? {
        SelectSnoc([], doc, segs, v);
        assert [] + [doc] == [doc];
      }
    } else {
      assert doc !in Presence([doc], segs[0]);
    }
  }

  /** The errors of one document's test: a plain (non-dict, non-list) value
      needs the field, and an empty operator dict has no first item. */
  lemma DocTestErrors(doc: Doc, segs: seq<string>, value: Val)
    requires |segs| > 0
    ensures !value.Obj? && !value.List? && !HasKey(doc, segs[0]) ==> DocTest(doc, segs, value) == Err(KeyError(segs[0]))
    ensures (|segs| > 1 || IsOperator(segs[0])) && value == Obj([]) ==> DocTest(doc, segs, value) == Err(IndexError)
  {
    MatchErrors(doc, segs, value);
  }

  /** The errors of the `ind_list` loop body: an empty operator dict has no
      first item, an operator outside the implemented ones raises
      `RuntimeError`, and an equality test needs the field. */
  lemma MatchErrors(doc: Doc, segs: seq<string>, value: Val)
    requires |segs| > 0
    ensures value == Obj([]) ==> Match(doc, segs, value) == Err(IndexError)
    ensures value.Obj? && value.fields != [] && !Known(value.fields[0].0) ==>
              Match(doc, segs, value) == Err(Unsupported(value.fields[0].0))
    ensures !value.Obj? && !value.List? && !HasKey(doc, segs[0]) ==> Match(doc, segs, value) == Err(KeyError(segs[0]))
  {
  }

  /** An `$or` operand that is not a list or array: iterating it either
      raises or yields strings, which have no `.items()`; only an empty
      operand matches nothing quietly. */
  lemma OrEvalNonList(doc: Doc, sub: Val)
    ensures !IsSeq(sub) ==> OrEval(doc, sub) == match Iterate(sub)
                                               case Err(e) => Err(e)
                                               case Ok(items) => if items == [] then Ok(false) else Err(AttributeError)
    ensures IsSeq(sub) && sub.elems == [] ==> OrEval(doc, sub) == Ok(false)
  {
  }

  /**
   * Inside `$or` a plain (undotted, non-operator) key is checked against the
   * single document with its value: the document matches iff it has the
   * field and the field equals the value. Unlike a top-level field key, the
   * value is not skipped for a single candidate.
   */
  lemma PlainKeyInOr(doc: Doc, k: string, v: Val)
    requires '.' !in k && !IsOperator(k) && !v.Null?
    ensures KeyHit(doc, k, v) == if HasKey(doc, k) then DocEquals(doc, k, v) else Ok(false)
  {
    var segs := Split(k);
    assert segs == [segs[0]];
    assert Join(segs) == segs[0];
    assert segs == [k];
    KeyHitSpec(doc, k, v);
    if HasKey(doc, k) {
      assert DocTest(doc, segs, v) == DocEquals(doc, k, v);
    }
  }

  /**
   * A top-level `$or` with a list of sub-queries keeps exactly the
   * documents for which the `$or` test holds, in their order.
   */
  lemma TopLevelOr(docs: seq<Doc>, subs: seq<Val>)
    ensures var r := Query(docs, [("$or", List(subs))]);
            r.Ok? ==> KeepsExactly(r.value, docs, seq(|docs|, i requires 0 <= i < |docs| => OrEval(docs[i], List(subs)) == Ok(true)))
                      && Subseq(r.value, docs)
                      && forall d :: d in r.value <==> d in docs && OrEval(d, List(subs)) == Ok(true)
  {
    var q: Fields := [("$or", List(subs))];
    assert q[..0] == [];
    assert Split("$or") == ["$or"] by {
      assert '.' !in "$or";
    }
    assert IsOperator("$or");
    assert Query(docs, q) == Select(docs, ["$or"], List(subs));
    SelectSpec(docs, ["$or"], List(subs));
    assert forall d :: DocTest(d, ["$or"], List(subs)) == OrEval(d, List(subs));
    assert TestMarks(docs, ["$or"], List(subs))
        == seq(|docs|, i requires 0 <= i < |docs| => OrEval(docs[i], List(subs)) == Ok(true));
  }
}
