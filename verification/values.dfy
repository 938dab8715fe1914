/** Values as the Python code sees them: optional results, and the dynamically
    typed cells of a database row or a JSON-able dictionary. */
module Values {

  datatype Option<+T> = None | Some(value: T)

  /** The outcome of an SQL statement: the new table, or the error text. */
  datatype Result<+T> = Ok(value: T) | Err(error: string)

  /** A cell of an sqlite row or a value of a Python dictionary. Timestamps are
      modelled as integers (seconds); text is `Str`. */
  datatype Value = Null | Str(s: string) | Int(i: int)

  /** Python truthiness: `None`, `''` and `0` are false. */
  predicate Truthy(v: Value)
  {
    match v
    case Null => false
    case Str(s) => s != []
    case Int(i) => i != 0
  }

  /** `None` or the text. */
  function OptStr(o: Option<string>): (v: Value)
    ensures o.None? <==> v == Null
  {
    match o
    case None => Null
    case Some(s) => Str(s)
  }

  function OptInt(o: Option<int>): (v: Value)
    ensures o.None? <==> v == Null
  {
    match o
    case None => Null
    case Some(i) => Int(i)
  }

  /** A Python dictionary with string keys, as its items in insertion order. */
  type Registro = seq<(string, Value)>

  /** The keys of a dictionary are pairwise distinct. */
  predicate ClavesDistintas(r: Registro)
  {
    forall i, j :: 0 <= i < j < |r| ==> r[i].0 != r[j].0
  }

  /** `d.get(k)`: the value stored under `k`, or `None`. */
  function Lookup(r: Registro, k: string): (v: Value)
    ensures (forall i :: 0 <= i < |r| ==> r[i].0 != k) ==> v == Null
  {
    if r == [] then Null
    else if r[0].0 == k then r[0].1
    else Lookup(r[1..], k)
  }
}
