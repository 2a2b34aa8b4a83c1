/** The parsed metadata tree that every stage of the indexer works on.
    xmltodict turns an MMD record into nested dictionaries, lists,
    strings and None; the SolR document built from it adds booleans and
    numbers.  One `Value` type covers both. */
module Documents {

  datatype Option<T> = None | Some(value: T)

  datatype Value =
    | VNone
    | VStr(s: string)
    | VBool(b: bool)
    | VNum(n: real)
    | VList(items: seq<Value>)
    | VMap(fields: map<string, Value>)

  /** A dictionary keyed by strings: an MMD element's children, or a SolR document. */
  type Doc = map<string, Value>

  /** The Python exceptions the modelled code can raise (or raises on purpose). */
  datatype Error =
    | KeyError(key: string)
    | TypeError(context: string)
    | ValueError(context: string)
    | IndexError(context: string)
    | AttributeError(context: string)
    | Warning(message: string)

  datatype Result<T> = Success(value: T) | Failure(error: Error) {
    predicate IsFailure() { Failure? }
    function PropagateFailure<U>(): Result<U>
      requires Failure?
    {
      Failure(error)
    }
    function Extract(): T
      requires Success?
    {
      value
    }
  }

  /** The shapes shapely builds for `polygon_rpt`: `Point(x, y)` and
      `box(minx, miny, maxx, maxy, ccw)`. */
  datatype Geometry =
    | Point(x: real, y: real)
    | Box(minx: real, miny: real, maxx: real, maxy: real, ccw: bool)

  /** What one stage of `tosolr` contributes: the entries it writes into the
      SolR document, and the exception it raises, if any. */
  datatype Step = Step(fields: Doc, raised: Option<Error>)

  /** Behaviour the model takes as given: Python's `float()` on a string
      (None where it raises ValueError), `str()` of a float, `str()` of a
      number, list or dictionary, and shapely's `.wkt` text; and, as
      functions of the checked record, the date checks of `check_mmd`
      (the exception they raise, if any) and the stages of `tosolr` that
      are not modelled (what they write and the first exception they
      raise). */
  datatype Foreign = Foreign(
    parseFloat: string -> Option<real>,
    formatFloat: real -> string,
    repr: Value -> string,
    wkt: Geometry -> string,
    dateChecks: Doc -> Option<Error>,
    stages: Doc -> Step)

  /** `d[key]`, raising KeyError when the key is absent. */
  function Lookup(d: Doc, key: string): Result<Value>
  {
    if key in d then Success(d[key]) else Failure(KeyError(key))
  }

  /** `v[key]` on a parsed element: a dictionary gives the child or raises
      KeyError, anything else raises TypeError. */
  function Get(v: Value, key: string): Result<Value>
  {
    match v
    case VMap(m) => Lookup(m, key)
    case VStr(_) => Failure(TypeError("string indices must be integers"))
    case VList(_) => Failure(TypeError("list indices must be integers or slices"))
    case _ => Failure(TypeError("object is not subscriptable"))
  }

  /** Python's `str(v)`. */
  function Str(v: Value, fx: Foreign): string
  {
    match v
    case VStr(s) => s
    case VNone => "None"
    case VBool(b) => if b then "True" else "False"
    case _ => fx.repr(v)
  }

  /** Python's `float(v)`. */
  function FloatOf(v: Value, fx: Foreign): Result<real>
  {
    match v
    case VStr(s) =>
      (match fx.parseFloat(s)
       case Some(x) => Success(x)
       case None => Failure(ValueError("could not convert string to float")))
    case VNum(n) => Success(n)
    case VBool(b) => Success(if b then 1.0 else 0.0)
    case _ => Failure(TypeError("float() argument must be a string or a number"))
  }

  /** A `for` loop over a list that, for each element, appends what `f`
      gives (possibly nothing) or raises.  The first element that raises
      decides the exception. */
  function Collect<T>(items: seq<Value>, f: Value -> Result<seq<T>>): Result<seq<T>>
    decreases |items|
  {
    if items == [] then Success([])
    else
      var prev :- Collect(items[..|items| - 1], f);
      var last :- f(items[|items| - 1]);
      Success(prev + last)
  }

  /** One more element processed without an exception extends the output. */
  lemma CollectStep<T>(items: seq<Value>, f: Value -> Result<seq<T>>, k: nat, acc: seq<T>, more: seq<T>)
    requires k < |items|
    requires Collect(items[..k], f) == Success(acc)
    requires f(items[k]) == Success(more)
    ensures Collect(items[..k + 1], f) == Success(acc + more)
  {
    assert items[..k + 1][..k] == items[..k];
  }

  /** Once an element raises, the whole loop raises that exception. */
  lemma CollectStop<T>(items: seq<Value>, f: Value -> Result<seq<T>>, k: nat, acc: seq<T>)
    requires k < |items|
    requires Collect(items[..k], f) == Success(acc)
    requires f(items[k]).Failure?
    ensures Collect(items, f) == Failure(f(items[k]).error)
  {
    assert items[..k + 1][..k] == items[..k];
    CollectPersist(items, f, k + 1);
  }

  lemma {:induction false} CollectPersist<T>(items: seq<Value>, f: Value -> Result<seq<T>>, k: nat)
    requires k <= |items|
    requires Collect(items[..k], f).Failure?
    ensures Collect(items, f) == Collect(items[..k], f)
    decreases |items|
  {
    if k < |items| {
      var pre := items[..|items| - 1];
      assert pre[..k] == items[..k];
      CollectPersist(pre, f, k);
    } else {
      assert items[..k] == items;
    }
  }
}
