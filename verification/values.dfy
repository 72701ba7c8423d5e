/**
 * The document model: JSON values as Python holds them after `json.load`,
 * plus the numpy object arrays that the loader puts in place of lists, and
 * the Python semantics the query engine relies on: subscripting, iteration,
 * truthiness and the comparison operators (including numpy's element-wise
 * comparison when one side is an array).
 */
module Values {
  import opened Strings

  /** A value held in a document or a query. `List` is a Python list (what
      `json.load` and query literals give); `Array` is a numpy object array
      (what the loader stores in place of a list). */
  datatype Val =
    | Null
    | Bool(b: bool)
    | Num(n: real)
    | Str(s: string)
    | List(elems: seq<Val>)
    | Array(elems: seq<Val>)
    | Obj(fields: seq<(string, Val)>)

  /** The items of a Python dict, in insertion order. */
  type Fields = seq<(string, Val)>

  /** The Python exceptions the core can raise. `Unsupported` and
      `InvalidName` are the two `RuntimeError`s the source raises itself. */
  datatype Error =
    | KeyError(key: string)
    | IndexError
    | TypeError
    | ValueError
    | AttributeError
    | Unsupported(op: string)
    | InvalidName(column: string)

  datatype Result<T> = Ok(value: T) | Err(error: Error)

  datatype Option<T> = None | Some(value: T)

  datatype Outcome = Pass | Fail(error: Error)

  /** The comparison operators the query language maps onto. */
  datatype Op = EqOp | GtOp | GeOp | LtOp | LeOp

  predicate IsSeq(v: Val) {
    v.List? || v.Array?
  }

  ghost predicate HasKey(fs: Fields, k: string) {
    exists i :: 0 <= i < |fs| && fs[i].0 == k
  }

  /** `k in d` for a dict. */
  function Contains(fs: Fields, k: string): (r: bool)
    ensures r <==> HasKey(fs, k)
  {
    if fs == [] then false
    else fs[0].0 == k || (assert forall i :: 0 < i < |fs| ==> fs[i] == fs[1..][i - 1]; Contains(fs[1..], k))
  }

  /** `d.get(k)`: the value of the first item with key `k`. */
  function Lookup(fs: Fields, k: string): (r: Option<Val>)
    ensures r.Some? <==> HasKey(fs, k)
    ensures r.Some? ==> exists i :: 0 <= i < |fs| && fs[i] == (k, r.value)
                                    && forall j :: 0 <= j < i ==> fs[j].0 != k
  {
    if fs == [] then None
    else if fs[0].0 == k then Some(fs[0].1)
    else
      var r := Lookup(fs[1..], k);
      assert forall i :: 0 < i < |fs| ==> fs[i] == fs[1..][i - 1];
      if r.Some? then
        var i :| 0 <= i < |fs[1..]| && fs[1..][i] == (k, r.value)
                 && forall j :: 0 <= j < i ==> fs[1..][j].0 != k;
        assert fs[i + 1] == (k, r.value);
        r
      else r
  }

  function Keys(fs: Fields): (r: seq<string>)
    ensures |r| == |fs| && forall i :: 0 <= i < |fs| ==> r[i] == fs[i].0
  {
    seq(|fs|, i requires 0 <= i < |fs| => fs[i].0)
  }

  /** Python's `v[k]` with a string subscript: a dict looks the key up, a
      numpy array refuses a string index with `IndexError`, and every other
      value is not subscriptable by a string (`TypeError`). */
  function Get(v: Val, k: string): (r: Result<Val>)
    ensures r.Ok? <==> v.Obj? && HasKey(v.fields, k)
    ensures v.Obj? && !HasKey(v.fields, k) ==> r == Err(KeyError(k))
    ensures r.Ok? ==> Lookup(v.fields, k) == Some(r.value)
    ensures v.Array? ==> r == Err(IndexError)
    ensures !v.Obj? && !v.Array? ==> r == Err(TypeError)
  {
    match v
    case Obj(fs) =>
      (match Lookup(fs, k)
       case Some(x) => Ok(x)
       case None => Err(KeyError(k)))
    case Array(_) => Err(IndexError)
    case _ => Err(TypeError)
  }

  /** What `for y in v` yields: the elements of a list or array, the
      one-character strings of a string, the keys of a dict. */
  function Iterate(v: Val): (r: Result<seq<Val>>)
    ensures IsSeq(v) ==> r == Ok(v.elems)
    ensures v.Str? ==> r.Ok? && |r.value| == |v.s|
                       && forall i :: 0 <= i < |v.s| ==> r.value[i] == Str([v.s[i]])
    ensures v.Obj? ==> r.Ok? && |r.value| == |v.fields|
                       && forall i :: 0 <= i < |v.fields| ==> r.value[i] == Str(v.fields[i].0)
    ensures r.Err? <==> v.Null? || v.Bool? || v.Num?
  {
    match v
    case List(xs) => Ok(xs)
    case Array(xs) => Ok(xs)
    case Str(s) => Ok(seq(|s|, i requires 0 <= i < |s| => Str([s[i]])))
    case Obj(fs) => Ok(seq(|fs|, i requires 0 <= i < |fs| => Str(fs[i].0)))
    case _ => Err(TypeError)
  }

  /** numpy's `bool(array)` on an array of comparison results (numpy 1.x):
      an empty array is false, a one-element array is its element, and any
      longer array is ambiguous. */
  function ArrayTruth(bs: seq<bool>): (r: Result<bool>)
    ensures r.Err? <==> |bs| > 1
    ensures r == Ok(true) <==> |bs| == 1 && bs[0]
  {
    if |bs| == 0 then Ok(false) else if |bs| == 1 then Ok(bs[0]) else Err(ValueError)
  }

  /** Python truthiness (`if v:`), with numpy's rule for arrays. */
  function Truthy(v: Val): (r: Result<bool>)
    ensures r.Err? ==> r.error == ValueError && v.Array? && |v.elems| >= 1
    ensures v.Null? ==> r == Ok(false)
    ensures v.Str? ==> r == Ok(v.s != [])
    ensures v.Bool? ==> r == Ok(v.b)
    ensures v.Num? ==> r == Ok(v.n != 0.0)
    ensures v.List? ==> r == Ok(v.elems != [])
    ensures v.Obj? ==> r == Ok(v.fields != [])
    ensures v.Array? && |v.elems| == 0 ==> r == Ok(false)
    ensures v.Array? && |v.elems| == 1 ==> r == Truthy(v.elems[0])
    ensures v.Array? && |v.elems| > 1 ==> r == Err(ValueError)
  {
    match v
    case Null => Ok(false)
    case Bool(b) => Ok(b)
    case Num(n) => Ok(n != 0.0)
    case Str(s) => Ok(s != [])
    case List(xs) => Ok(xs != [])
    case Obj(fs) => Ok(fs != [])
    case Array(xs) =>
      if |xs| == 0 then Ok(false)
      else if |xs| == 1 then Truthy(xs[0])
      else Err(ValueError)
  }

  predicate IsNumeric(v: Val) {
    v.Num? || v.Bool?
  }

  /** Python's `bool` is an `int`: `True == 1`. */
  function Numeric(v: Val): real
    requires IsNumeric(v)
  {
    if v.Bool? then (if v.b then 1.0 else 0.0) else v.n
  }

  predicate NumCompare(op: Op, x: real, y: real) {
    match op
    case EqOp => x == y
    case GtOp => x > y
    case GeOp => x >= y
    case LtOp => x < y
    case LeOp => x <= y
  }

  predicate StrCompare(op: Op, s: string, t: string) {
    match op
    case EqOp => s == t
    case GtOp => StrLess(t, s)
    case GeOp => s == t || StrLess(t, s)
    case LtOp => StrLess(s, t)
    case LeOp => s == t || StrLess(s, t)
  }

  /**
   * `bool(a op b)` in Python, `a` being the document side. Numbers and
   * booleans compare numerically, strings by code point, lists and dicts
   * structurally for `==`; an ordering between unorderable values raises
   * `TypeError`. When either side is a numpy array the comparison is
   * element-wise and its truth value follows `ArrayTruth`.
   */
  function Compare(op: Op, a: Val, b: Val): (r: Result<bool>)
    ensures IsNumeric(a) && IsNumeric(b) ==> r == Ok(NumCompare(op, Numeric(a), Numeric(b)))
    ensures a.Str? && b.Str? ==> r == Ok(StrCompare(op, a.s, b.s))
    ensures (op != EqOp && !IsSeq(a) && !IsSeq(b) && !(IsNumeric(a) && IsNumeric(b))
             && !(a.Str? && b.Str?)) ==> r == Err(TypeError)
    decreases a, b, 2
  {
    if a.Array? || b.Array? then NumpyCompare(op, a, b)
    else if IsNumeric(a) && IsNumeric(b) then Ok(NumCompare(op, Numeric(a), Numeric(b)))
    else if a.Str? && b.Str? then Ok(StrCompare(op, a.s, b.s))
    else if op == EqOp then PyEq(a, b)
    else if a.List? && b.List? then ListOrder(op, a, b, 0)
    else Err(TypeError)
  }

  /** `==` on non-array values that are not both numbers or both strings. */
  function PyEq(a: Val, b: Val): Result<bool>
    requires !a.Array? && !b.Array?
    decreases a, b, 1
  {
    if a.Null? && b.Null? then Ok(true)
    else if a.List? && b.List? then
      if |a.elems| != |b.elems| then Ok(false) else ListEqUpTo(a, b, |a.elems|)
    else if a.Obj? && b.Obj? then
      if |a.fields| != |b.fields| then Ok(false) else DictEqUpTo(a, b, |a.fields|)
    else Ok(false)
  }

  /** Python list equality on the first `n` positions, stopping at the first
      pair that is not equal. */
  function ListEqUpTo(a: Val, b: Val, n: nat): Result<bool>
    requires a.List? && b.List? && n <= |a.elems| == |b.elems|
    decreases a, b, 0, n
  {
    if n == 0 then Ok(true)
    else
      match ListEqUpTo(a, b, n - 1)
      case Err(e) => Err(e)
      case Ok(same) => if !same then Ok(false) else Compare(EqOp, a.elems[n - 1], b.elems[n - 1])
  }

  /** Python dict equality over the first `n` items of `a`: each key must be
      in `b` with an equal value. */
  function DictEqUpTo(a: Val, b: Val, n: nat): Result<bool>
    requires a.Obj? && b.Obj? && n <= |a.fields|
    decreases a, b, 0, n
  {
    if n == 0 then Ok(true)
    else
      match DictEqUpTo(a, b, n - 1)
      case Err(e) => Err(e)
      case Ok(same) =>
        if !same then Ok(false)
        else
          match Lookup(b.fields, a.fields[n - 1].0)
          case None => Ok(false)
          case Some(y) => Compare(EqOp, a.fields[n - 1].1, y)
  }

  /** Python's lexicographic ordering of two lists from position `i` on. */
  function ListOrder(op: Op, a: Val, b: Val, i: nat): Result<bool>
    requires a.List? && b.List? && op != EqOp
    decreases a, b, 0, |a.elems| - i
  {
    if i >= |a.elems| || i >= |b.elems| then Ok(NumCompare(op, |a.elems| as real, |b.elems| as real))
    else
      match Compare(EqOp, a.elems[i], b.elems[i])
      case Err(e) => Err(e)
      case Ok(same) => if same then ListOrder(op, a, b, i + 1) else Compare(op, a.elems[i], b.elems[i])
  }

  /** numpy's element-wise comparison when at least one side is an array. */
  function NumpyCompare(op: Op, a: Val, b: Val): Result<bool>
    requires a.Array? || b.Array?
    decreases a, b, 1
  {
    if IsSeq(a) && IsSeq(b) && |a.elems| != |b.elems| && |a.elems| != 1 && |b.elems| != 1 then
      // shapes that do not broadcast: `==` gives False, an ordering raises
      if op == EqOp then Ok(false) else Err(ValueError)
    else
      var bits :=
        if IsSeq(a) && IsSeq(b) then
          if |a.elems| == |b.elems| then Pairwise(op, a, b, |a.elems|)
          else if |b.elems| == 1 then EachLeft(op, a, b.elems[0], |a.elems|)
          else EachRight(op, a.elems[0], b, |b.elems|)
        else if a.Array? then EachLeft(op, a, b, |a.elems|)
        else EachRight(op, a, b, |b.elems|);
      if bits.Err? then Err(bits.error) else ArrayTruth(bits.value)
  }

  function Pairwise(op: Op, a: Val, b: Val, n: nat): (r: Result<seq<bool>>)
    requires IsSeq(a) && IsSeq(b) && n <= |a.elems| == |b.elems|
    ensures r.Ok? ==> |r.value| == n
    decreases a, b, 0, n
  {
    if n == 0 then Ok([])
    else
      match Pairwise(op, a, b, n - 1)
      case Err(e) => Err(e)
      case Ok(bs) =>
        match Compare(op, a.elems[n - 1], b.elems[n - 1])
        case Err(e) => Err(e)
        case Ok(x) => Ok(bs + [x])
  }

  function EachLeft(op: Op, a: Val, c: Val, n: nat): (r: Result<seq<bool>>)
    requires IsSeq(a) && n <= |a.elems|
    ensures r.Ok? ==> |r.value| == n
    decreases a, c, 0, n
  {
    if n == 0 then Ok([])
    else
      match EachLeft(op, a, c, n - 1)
      case Err(e) => Err(e)
      case Ok(bs) =>
        match Compare(op, a.elems[n - 1], c)
        case Err(e) => Err(e)
        case Ok(x) => Ok(bs + [x])
  }

  function EachRight(op: Op, c: Val, b: Val, n: nat): (r: Result<seq<bool>>)
    requires IsSeq(b) && n <= |b.elems|
    ensures r.Ok? ==> |r.value| == n
    decreases c, b, 0, n
  {
    if n == 0 then Ok([])
    else
      match EachRight(op, c, b, n - 1)
      case Err(e) => Err(e)
      case Ok(bs) =>
        match Compare(op, c, b.elems[n - 1])
        case Err(e) => Err(e)
        case Ok(x) => Ok(bs + [x])
  }
}
