/** Loaded YAML documents as the Python scripts see them, and the handful of
    Python operations the scripts apply to them. A mapping is an
    insertion-ordered association list with string keys (the order in which
    `dict.items()` walks it); an operation Python would reject at run time
    returns `Raised` with the exception's kind. */
module Py {

  import opened Text

  datatype Option<+T> = None | Some(value: T)

  datatype Exc = KeyError | TypeError | AttributeError | IndexError | OSError | CalledProcessError

  /** The outcome of a Python expression: a value, or an exception that
      propagates unless the caller catches it. */
  datatype Result<+T> = Ok(value: T) | Raised(exc: Exc) {
    predicate IsFailure() { Raised? }

    function PropagateFailure<U>(): Result<U>
      requires Raised?
    {
      Raised(exc)
    }

    function Extract(): T
      requires Ok?
    {
      value
    }
  }

  datatype Value =
    | Null
    | Bool(b: bool)
    | Int(i: int)
    | Str(s: string)
    | List(items: seq<Value>)
    | Dict(entries: seq<(string, Value)>)

  type Entries = seq<(string, Value)>

  /** The keys of an association list, in order. */
  function Keys<V>(entries: seq<(string, V)>): (r: seq<string>)
    ensures |r| == |entries|
    ensures forall i :: 0 <= i < |entries| ==> r[i] == entries[i].0
  {
    seq(|entries|, i requires 0 <= i < |entries| => entries[i].0)
  }

  /** `d.get(k)`: the value bound to `k`, found at its first binding. */
  function Lookup(entries: Entries, k: string): (r: Option<Value>)
    ensures r.Some? <==> k in Keys(entries)
    ensures r.Some? ==> (k, r.value) in entries
  {
    if |entries| == 0 then None
    else if entries[0].0 == k then Some(entries[0].1)
    else
      var r := Lookup(entries[1..], k);
      assert forall j :: 0 <= j < |entries| - 1 ==> Keys(entries[1..])[j] == Keys(entries)[j + 1];
      assert k in Keys(entries) ==> k in Keys(entries[1..]) by {
        if k in Keys(entries) {
          var j :| 0 <= j < |entries| && Keys(entries)[j] == k;
          assert j > 0 && Keys(entries[1..])[j - 1] == k;
        }
      }
      r
  }

  /** The bindings of a mapping; none for any other value. */
  function EntriesOf(v: Value): Entries {
    if v.Dict? then v.entries else []
  }

  /** Python truthiness of a loaded value. */
  predicate Truthy(v: Value) {
    match v
    case Null => false
    case Bool(b) => b
    case Int(i) => i != 0
    case Str(s) => |s| > 0
    case List(xs) => |xs| > 0
    case Dict(es) => |es| > 0
  }

  /** `v or []` */
  function OrEmpty(v: Value): (r: Value)
    ensures Truthy(v) ==> r == v
    ensures !Truthy(v) ==> r == List([])
  {
    if Truthy(v) then v else List([])
  }

  /** `k in v` for a string `k`: key membership for a dict, element equality
      for a list, substring for a string; anything else is not a container. */
  function In(k: string, v: Value): (r: Result<bool>)
    ensures v.Dict? ==> r == Ok(k in Keys(v.entries))
    ensures v.List? ==> r == Ok(Str(k) in v.items)
    ensures (v.Null? || v.Bool? || v.Int?) ==> r == Raised(TypeError)
  {
    match v
    case Dict(es) => Ok(k in Keys(es))
    case List(xs) => Ok(Str(k) in xs)
    case Str(s) => Ok(Contains(s, k))
    case _ => Raised(TypeError)
  }

  /** `k in v` for a loaded `k`: a mapping tests its (string) keys and needs
      a hashable `k`, a list compares its elements, a string needs a string
      `k`; anything else is not a container. */
  function Member(k: Value, v: Value): (r: Result<bool>)
    ensures k.Str? ==> r == In(k.s, v)
    ensures v.Dict? && (k.List? || k.Dict?) ==> r == Raised(TypeError)
    ensures v.Dict? && (k.Null? || k.Bool? || k.Int?) ==> r == Ok(false)
  {
    match v
    case Dict(es) =>
      if k.List? || k.Dict? then Raised(TypeError) else Ok(k.Str? && k.s in Keys(es))
    case List(xs) => Ok(k in xs)
    case Str(s) => if k.Str? then Ok(Contains(s, k.s)) else Raised(TypeError)
    case _ => Raised(TypeError)
  }

  /** The position `i` names in a sequence of length `n`, counting from the
      end when negative; `-1` when out of range. */
  function Position(i: int, n: nat): (p: int)
    ensures -1 <= p < n
    ensures p >= 0 <==> -(n as int) <= i < n
    ensures p >= 0 ==> p == i || p == i + n
  {
    if 0 <= i < n then i else if -(n as int) <= i < 0 then i + n else -1
  }

  /** `v[k]` for a loaded `k`: a mapping looks up a string key; a list or a
      string takes an integer (or boolean) position, negative from the end;
      anything else is not subscriptable with `k`. */
  function Subscript(v: Value, k: Value): (r: Result<Value>)
    ensures k.Str? && v.Dict? ==> r == Index(v, k.s)
    ensures r.Ok? ==> v.Dict? || v.List? || v.Str?
  {
    match v
    case Dict(es) =>
      if k.Str? then Index(v, k.s)
      else if k.List? || k.Dict? then Raised(TypeError)
      else Raised(KeyError)
    case List(xs) =>
      if !(k.Int? || k.Bool?) then Raised(TypeError)
      else
        var p := Position(if k.Int? then k.i else if k.b then 1 else 0, |xs|);
        if p < 0 then Raised(IndexError) else Ok(xs[p])
    case Str(s) =>
      if !(k.Int? || k.Bool?) then Raised(TypeError)
      else
        var p := Position(if k.Int? then k.i else if k.b then 1 else 0, |s|);
        if p < 0 then Raised(IndexError) else Ok(Str([s[p]]))
    case _ => Raised(TypeError)
  }

  /** `v[k]` for a string `k`. */
  function Index(v: Value, k: string): (r: Result<Value>)
    ensures r.Ok? <==> v.Dict? && k in Keys(v.entries)
    ensures r.Ok? ==> (k, r.value) in v.entries
    ensures v.Dict? && r.Raised? ==> r.exc == KeyError
  {
    match v
    case Dict(es) =>
      (match Lookup(es, k)
       case Some(x) => Ok(x)
       case None => Raised(KeyError))
    case _ => Raised(TypeError)
  }

  /** `v.get(k, default)`; only a dict has `get`. */
  function Get(v: Value, k: string, default: Value): (r: Result<Value>)
    ensures r.Ok? <==> v.Dict?
    ensures v.Dict? && k in Keys(v.entries) ==> r == Index(v, k)
    ensures v.Dict? && k !in Keys(v.entries) ==> r == Ok(default)
  {
    match v
    case Dict(es) =>
      (match Lookup(es, k)
       case Some(x) => Ok(x)
       case None => Ok(default))
    case _ => Raised(AttributeError)
  }

  /** `d.get(k, default)` on a mapping known to be one. */
  function GetOr(entries: Entries, k: string, default: Value): (r: Value)
    ensures Get(Dict(entries), k, default) == Ok(r)
  {
    match Lookup(entries, k)
    case Some(x) => x
    case None => default
  }

  /** `v.get(key, default)` where the key is itself a loaded value: lists and
      dicts are unhashable, and only a string can equal a string key. */
  function GetByValue(v: Value, key: Value, default: Value): (r: Result<Value>)
    ensures !v.Dict? ==> r == Raised(AttributeError)
    ensures v.Dict? && key.Str? ==> r == Get(v, key.s, default)
    ensures v.Dict? && (key.Null? || key.Bool? || key.Int?) ==> r == Ok(default)
  {
    if !v.Dict? then Raised(AttributeError)
    else
      match key
      case Str(s) => Get(v, s, default)
      case List(_) => Raised(TypeError)
      case Dict(_) => Raised(TypeError)
      case _ => Ok(default)
  }

  /** `v.items()`; only a dict has `items`. */
  function Items(v: Value): (r: Result<Entries>)
    ensures r.Ok? <==> v.Dict?
    ensures v.Dict? ==> r.value == v.entries
  {
    if v.Dict? then Ok(v.entries) else Raised(AttributeError)
  }

  /** `list(v)`: the elements iteration yields. */
  function Iter(v: Value): (r: Result<seq<Value>>)
    ensures r.Ok? <==> v.List? || v.Dict? || v.Str?
    ensures v.List? ==> r == Ok(v.items)
    ensures r.Ok? ==> (|r.value| > 0 <==> Truthy(v))
  {
    match v
    case List(xs) => Ok(xs)
    case Dict(es) => Ok(seq(|es|, i requires 0 <= i < |es| => Str(es[i].0)))
    case Str(s) => Ok(seq(|s|, i requires 0 <= i < |s| => Str([s[i]])))
    case _ => Raised(TypeError)
  }

  /** `list(v or [])`, the scripts' idiom for an optional list. */
  function ListOrEmpty(v: Value): (r: Result<seq<Value>>)
    ensures !Truthy(v) ==> r == Ok([])
    ensures v.List? ==> r == Ok(v.items)
  {
    Iter(OrEmpty(v))
  }

  /** Whether every element is a string. */
  predicate AllStrings(xs: seq<Value>) {
    forall i :: 0 <= i < |xs| ==> xs[i].Str?
  }

  function Strs(xs: seq<string>): (r: seq<Value>)
    ensures |r| == |xs| && AllStrings(r)
    ensures forall i :: 0 <= i < |xs| ==> r[i] == Str(xs[i])
  {
    seq(|xs|, i requires 0 <= i < |xs| => Str(xs[i]))
  }

  /** `needle in text` where `text` is a string: only a string can be
      searched for in a string. */
  function InText(needle: Value, text: string): (r: Result<bool>)
    ensures r.Ok? <==> needle.Str?
    ensures needle.Str? ==> r == Ok(Contains(text, needle.s))
  {
    if needle.Str? then Ok(Contains(text, needle.s)) else Raised(TypeError)
  }

  /** `set(v)`: the elements iteration yields, all of which must be
      hashable (no lists or mappings). */
  function SetOf(v: Value): (r: Result<seq<Value>>)
    ensures r.Ok? ==> Iter(v) == r
    ensures r.Ok? ==> forall i :: 0 <= i < |r.value| ==> !r.value[i].List? && !r.value[i].Dict?
  {
    var xs :- Iter(v);
    if exists i :: 0 <= i < |xs| && (xs[i].List? || xs[i].Dict?) then Raised(TypeError) else Ok(xs)
  }

  /** The string payloads of a token list in which every token is a string. */
  function TokenStrings(xs: seq<Value>): (r: Result<seq<string>>)
    ensures r.Ok? <==> AllStrings(xs)
    ensures r.Ok? ==> Strs(r.value) == xs
  {
    if AllStrings(xs) then Ok(seq(|xs|, i requires 0 <= i < |xs| => xs[i].s)) else Raised(TypeError)
  }

  /** List concatenation `xs += step` over steps that may raise: the first
      exception propagates, otherwise the lists are joined in order. */
  function Concat<T(!new)>(rs: seq<Result<seq<T>>>): (r: Result<seq<T>>)
    ensures r.Ok? <==> forall i :: 0 <= i < |rs| ==> rs[i].Ok?
    ensures r.Ok? ==> forall x :: x in r.value <==> exists i :: 0 <= i < |rs| && x in rs[i].value
  {
    if |rs| == 0 then Ok([])
    else
      assert forall i :: 1 <= i < |rs| ==> rs[i] == rs[1..][i - 1];
      var head :- rs[0];
      var tail :- Concat(rs[1..]);
      Ok(head + tail)
  }

  /** The running flag of `ok &= check` over checks that may raise: the
      first exception in order propagates, otherwise every flag is and-ed. */
  function Conjoin(rs: seq<Result<bool>>): (r: Result<bool>)
    ensures r == Ok(true) <==> forall i :: 0 <= i < |rs| ==> rs[i] == Ok(true)
    ensures r.Raised? <==> exists i :: 0 <= i < |rs| && rs[i].Raised?
    ensures r.Raised? ==>
      exists i :: 0 <= i < |rs| && rs[i] == r && forall j :: 0 <= j < i ==> rs[j].Ok?
  {
    if |rs| == 0 then Ok(true)
    else if rs[0].Raised? then rs[0]
    else
      var rest := Conjoin(rs[1..]);
      assert forall i :: 1 <= i < |rs| ==> rs[i] == rs[1..][i - 1];
      assert rest.Raised? ==>
        exists i :: 0 <= i < |rs| && rs[i] == rest && forall j :: 0 <= j < i ==> rs[j].Ok?
      by {
        if rest.Raised? {
          var i :| 0 <= i < |rs[1..]| && rs[1..][i] == rest && forall j :: 0 <= j < i ==> rs[1..][j].Ok?;
          assert rs[i + 1] == rest && forall j :: 0 <= j < i + 1 ==> rs[j].Ok?;
        }
      }
      if rest.Raised? then rest else Ok(rs[0].value && rest.value)
  }
}
