/**
 * Canonicalization-v1: the values the harnesses accept, the canonical tree each
 * of them denotes, and what equality of canonical text means. NFC is a function
 * parameter; the text is `JsonText.Print` of the tree.
 */
module Canonical {
  import opened Outcome
  import opened JsonText
  import opened KeySort
  import Decimal

  const SAFE_MAX: int := 9007199254740991
  const SAFE_MIN: int := -9007199254740991

  datatype Code =
    | FloatNotAllowed | UnsafeInteger | DuplicateKey | InvalidTimestamp | UnsupportedType | KeyResolutionFailed

  /** A binary float or exact rational, with the special values of the former. */
  datatype Float = NaN | PosInf | NegInf | Finite(r: real)

  /** A Python mapping may hold keys that are not strings. */
  datatype Key = Text(s: string) | NonText

  datatype Pair = Pair(key: Key, val: Value)

  datatype Value =
    | Null
    | Bool(b: bool)
    | Str(s: string)
    | Int(n: int)
    | Flt(f: Float)
    | Arr(items: seq<Value>)
    | Obj(pairs: seq<Pair>)
    | Other

  type Canonized<T> = Result<T, Code>

  // ------------------------------------------------------- the specification

  function CheckSafe(n: int): Canonized<int> {
    if n < SAFE_MIN || n > SAFE_MAX then Err(UnsafeInteger) else Ok(n)
  }

  predicate IsWhole(r: real) {
    r == r.Floor as real
  }

  function ToInteger(v: Value): Canonized<int> {
    match v
    case Int(n) => CheckSafe(n)
    case Flt(Finite(r)) => if IsWhole(r) then CheckSafe(r.Floor) else Err(FloatNotAllowed)
    case Flt(_) => Err(FloatNotAllowed)
    case _ => Err(UnsupportedType)
  }

  function NumberTree(n: int): Json {
    JNum(Decimal.OfInt(n))
  }

  /** Keys are checked in entry order, before any child is looked at. */
  function CheckKeys(nfc: string -> string, ps: seq<Pair>, seen: set<string>): (r: Option<Code>)
    ensures r.None? ==> AllText(ps)
  {
    if ps == [] then None
    else match ps[0].key
      case NonText => Some(UnsupportedType)
      case Text(s) =>
        if nfc(s) in seen then Some(DuplicateKey) else CheckKeys(nfc, ps[1..], seen + {nfc(s)})
  }

  predicate AllText(ps: seq<Pair>) {
    forall i :: 0 <= i < |ps| ==> ps[i].key.Text?
  }

  /** The canonical tree of a value: NFC strings, decimal integers, sorted keys. */
  function Tree(nfc: string -> string, v: Value): Canonized<Json>
    decreases v, 0
  {
    match v
    case Null => Ok(JNull)
    case Bool(b) => Ok(JBool(b))
    case Str(s) => Ok(JStr(nfc(s)))
    case Int(_) => IntegerTree(v)
    case Flt(_) => IntegerTree(v)
    case Arr(vs) =>
      (match Gather(Trees(nfc, vs))
       case Ok(js) => Ok(JArr(js))
       case Err(c) => Err(c))
    case Obj(ps) =>
      (match CheckKeys(nfc, ps, {})
       case Some(c) => Err(c)
       case None =>
         match GatherFields(Sort(Fields(nfc, ps)))
         case Ok(fs) => Ok(JObj(fs))
         case Err(c) => Err(c))
    case Other => Err(UnsupportedType)
  }

  function IntegerTree(v: Value): Canonized<Json> {
    match ToInteger(v)
    case Ok(n) => Ok(NumberTree(n))
    case Err(c) => Err(c)
  }

  /** The value of key `ts` must be a safe integer. */
  function TimestampTree(v: Value): Canonized<Json> {
    match ToInteger(v)
    case Ok(n) => Ok(NumberTree(n))
    case Err(_) => Err(InvalidTimestamp)
  }

  function Trees(nfc: string -> string, vs: seq<Value>): (r: seq<Canonized<Json>>)
    ensures |r| == |vs|
    ensures forall i :: 0 <= i < |vs| ==> r[i] == Tree(nfc, vs[i])
    decreases vs, 0
  {
    if vs == [] then [] else [Tree(nfc, vs[0])] + Trees(nfc, vs[1..])
  }

  function ChildTree(nfc: string -> string, key: string, v: Value): Canonized<Json>
    decreases v, 1
  {
    if key == "ts" then TimestampTree(v) else Tree(nfc, v)
  }

  function FieldOf(nfc: string -> string, p: Pair): (f: Field<Canonized<Json>>)
    requires p.key.Text?
    ensures f.key == nfc(p.key.s) && f.val == ChildTree(nfc, f.key, p.val)
    decreases p, 0
  {
    Field(nfc(p.key.s), ChildTree(nfc, nfc(p.key.s), p.val))
  }

  function Fields(nfc: string -> string, ps: seq<Pair>): (r: seq<Field<Canonized<Json>>>)
    requires AllText(ps)
    ensures |r| == |ps| && forall i :: 0 <= i < |ps| ==> r[i] == FieldOf(nfc, ps[i])
    decreases ps, 0
  {
    if ps == [] then [] else [FieldOf(nfc, ps[0])] + Fields(nfc, ps[1..])
  }

  /** All the values, or the first error in order. */
  function Gather<T>(rs: seq<Canonized<T>>): (r: Canonized<seq<T>>)
    ensures r.Ok? ==> |r.value| == |rs| && forall i :: 0 <= i < |rs| ==> rs[i] == Ok(r.value[i])
    ensures (forall i :: 0 <= i < |rs| ==> rs[i].Ok?) ==> r.Ok?
  {
    if rs == [] then Ok([])
    else match rs[0]
      case Err(c) => Err(c)
      case Ok(t) =>
        match Gather(rs[1..])
        case Err(c) => Err(c)
        case Ok(ts) => Ok([t] + ts)
  }

  function GatherFields<T>(fs: seq<Field<Canonized<T>>>): (r: Canonized<seq<Field<T>>>)
    ensures r.Ok? ==> |r.value| == |fs|
                      && forall i :: 0 <= i < |fs| ==> fs[i] == Field(r.value[i].key, Ok(r.value[i].val))
    ensures (forall i :: 0 <= i < |fs| ==> fs[i].val.Ok?) ==> r.Ok?
  {
    if fs == [] then Ok([])
    else match fs[0].val
      case Err(c) => Err(c)
      case Ok(t) =>
        match GatherFields(fs[1..])
        case Err(c) => Err(c)
        case Ok(ts) => Ok([Field(fs[0].key, t)] + ts)
  }

  /** The canonical text, with `quote` printing string literals. */
  function Text'(nfc: string -> string, quote: string -> string, v: Value): Canonized<string> {
    match Tree(nfc, v)
    case Ok(j) => Ok(Print(quote, j))
    case Err(c) => Err(c)
  }

  /** Canonical text with JSON string literals. */
  function Canonicalize(nfc: string -> string, v: Value): Canonized<string> {
    Text'(nfc, Quote, v)
  }

  // ------------------------------------------- what equal canonical text means

  ghost predicate Bijection(p: seq<nat>, q: seq<nat>, n: nat) {
    && |p| == |q| == n
    && (forall i :: 0 <= i < n ==> p[i] < n && q[p[i]] == i)
    && (forall i :: 0 <= i < n ==> q[i] < n && p[q[i]] == i)
  }

  predicate SameKey(nfc: string -> string, k: Key, l: Key) {
    match (k, l)
    case (Text(s), Text(t)) => nfc(s) == nfc(t)
    case (NonText, NonText) => true
    case _ => false
  }

  predicate IsNumber(v: Value) {
    v.Int? || v.Flt?
  }

  function Numeric(v: Value): Float
    requires IsNumber(v)
  {
    if v.Int? then Finite(v.n as real) else v.f
  }

  /**
   * The same value up to NFC of strings and keys, the order of object entries at
   * any depth, and whether an integer is held as an integer or as a float.
   */
  ghost predicate Same(nfc: string -> string, v: Value, w: Value)
    decreases v
  {
    match (v, w)
    case (Null, Null) => true
    case (Bool(b), Bool(c)) => b == c
    case (Str(s), Str(t)) => nfc(s) == nfc(t)
    case (Arr(vs), Arr(ws)) =>
      |vs| == |ws| && forall i :: 0 <= i < |vs| ==> Same(nfc, vs[i], ws[i])
    case (Obj(ps), Obj(qs)) =>
      && |ps| == |qs|
      && exists p: seq<nat>, q: seq<nat> ::
           && Bijection(p, q, |ps|)
           && forall i :: 0 <= i < |ps| ==>
                SameKey(nfc, ps[i].key, qs[p[i]].key) && Same(nfc, ps[i].val, qs[p[i]].val)
    case (Other, Other) => true
    case _ => IsNumber(v) && IsNumber(w) && Numeric(v) == Numeric(w)
  }
}
