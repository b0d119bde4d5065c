/**
 * The slice of JavaScript semantics the client relies on: optional values,
 * thrown errors as results, primitive values, plain objects as ordered
 * records (own enumerable properties in insertion order; JavaScript's
 * ordering of integer-like keys first is not modelled), object spread
 * and property assignment.
 */
module Js {

  datatype Option<+T> = None | Some(value: T)

  /** The exceptions the modelled code can raise. */
  datatype Error =
    | TransportError  // the proxy produced no response (network failure, no stub left)
    | SyntaxError     // `JSON.parse` of a body that is not JSON
    | TypeError       // a property read or method call on `undefined`

  /** A completed call: the value it returned, or the exception it threw. */
  datatype Result<+T> = Ok(value: T) | Err(error: Error) {
    predicate IsFailure() { Err? }

    function PropagateFailure<U>(): Result<U>
      requires Err?
    {
      Err(error)
    }

    function Extract(): T
      requires Ok?
    {
      value
    }
  }

  /** A JavaScript value as far as the client inspects one. */
  datatype Value = Undefined | Str(s: string) | Num(n: int) | Bool(b: bool)

  function OfOption(o: Option<string>): (v: Value)
    ensures v == Undefined <==> o.None?
  {
    match o
    case None => Undefined
    case Some(s) => Str(s)
  }

  /** Decimal rendering of an integer, as `Number.prototype.toString` gives it. */
  function IntToString(n: int): (s: string)
    ensures |s| >= 1
  {
    if n < 0 then "-" + NatToString(-n) else NatToString(n)
  }

  function NatToString(n: nat): (s: string)
    ensures |s| >= 1
    ensures forall i :: 0 <= i < |s| ==> '0' <= s[i] <= '9'
  {
    if n < 10 then [Digit(n)] else NatToString(n / 10) + [Digit(n % 10)]
  }

  function Digit(d: nat): (c: char)
    requires d < 10
    ensures '0' <= c <= '9'
  {
    ['0', '1', '2', '3', '4', '5', '6', '7', '8', '9'][d]
  }

  /** `String(v)` / template-literal conversion; `undefined` renders as "undefined". */
  function ToText(v: Value): string
  {
    match v
    case Undefined => "undefined"
    case Str(s) => s
    case Num(n) => IntToString(n)
    case Bool(b) => if b then "true" else "false"
  }

  type Entry = (string, Value)

  /** True when `k` names a property of `r`. */
  predicate Has(r: seq<Entry>, k: string)
  {
    r != [] && (r[0].0 == k || Has(r[1..], k))
  }

  predicate UniqueKeys(r: seq<Entry>)
  {
    r == [] || (!Has(r[1..], r[0].0) && UniqueKeys(r[1..]))
  }

  /** A plain object: its own enumerable properties in insertion order (integer-like keys are not moved first). */
  type Record = r: seq<Entry> | UniqueKeys(r) witness []

  /** An object literal, one property at a time: `{k: v, ...r}` for a key `r` lacks. */
  function Cons(e: Entry, r: Record): (c: Record)
    requires !Has(r, e.0)
    ensures c == [e] + r
    ensures forall k {:trigger Has(c, k)} :: Has(c, k) <==> k == e.0 || Has(r, k)
  {
    assert ([e] + r)[1..] == r;
    [e] + r
  }

  /** Property read `r[k]`: a missing property reads as `undefined`. */
  function Get(r: seq<Entry>, k: string): (v: Value)
    ensures !Has(r, k) ==> v == Undefined
  {
    if r == [] then Undefined else if r[0].0 == k then r[0].1 else Get(r[1..], k)
  }

  /** Every key of `r` is one of its properties. */
  lemma {:induction false} HasAt(r: seq<Entry>, i: nat)
    requires i < |r|
    ensures Has(r, r[i].0)
    decreases i
  {
    if i > 0 {
      HasAt(r[1..], i - 1);
    }
  }

  /** A key `r` lacks is the key of none of its entries. */
  lemma HasNone(r: seq<Entry>, k: string)
    requires !Has(r, k)
    ensures forall j :: 0 <= j < |r| ==> r[j].0 != k
  {
    forall j | 0 <= j < |r| ensures r[j].0 != k {
      HasAt(r, j);
    }
  }

  /**
   * Property assignment `r[k] = v`: an existing property keeps its place and
   * takes the new value, a new one is appended (and may hold `undefined`).
   */
  function SetProp(r: Record, k: string, v: Value): (r': Record)
    ensures Has(r', k) && Get(r', k) == v
    ensures forall k' {:trigger Get(r', k')} :: k' != k ==> Get(r', k') == Get(r, k')
    ensures forall k' {:trigger Has(r', k')} :: Has(r', k') <==> Has(r, k') || k' == k
    ensures Has(r, k) ==> |r'| == |r| && forall i :: 0 <= i < |r| ==> r'[i] == if r[i].0 == k then (k, v) else r[i]
    ensures !Has(r, k) ==> r' == r + [(k, v)]
  {
    if r == [] then Cons((k, v), [])
    else
      var rest: Record := r[1..];
      if r[0].0 == k then
        HasNone(rest, k);
        Cons((k, v), rest)
      else
        var t := SetProp(rest, k, v);
        assert forall i :: 0 < i < |r| ==> rest[i - 1] == r[i];
        Cons(r[0], t)
  }

  /**
   * Object spread `{...a, ...b}`: `b`'s properties are assigned onto a copy
   * of `a` in `b`'s order, so a key `b` defines wins, even with `undefined`.
   * The keys come in `a`'s order, followed by the keys only `b` has, in `b`'s order.
   */
  function Spread(a: Record, b: Record): (r: Record)
    ensures forall k {:trigger Get(r, k)} :: Get(r, k) == if Has(b, k) then Get(b, k) else Get(a, k)
    ensures forall k {:trigger Has(r, k)} :: Has(r, k) <==> Has(a, k) || Has(b, k)
    ensures r == Overridden(a, b) + NewIn(a, b)
    decreases |b|
  {
    if b == [] then a
    else
      var r := Spread(SetProp(a, b[0].0, b[0].1), b[1..]);
      assert forall k :: Has(b, k) <==> k == b[0].0 || Has(b[1..], k);
      assert forall k :: k != b[0].0 ==> Get(b, k) == Get(b[1..], k);
      assert !Has(b[1..], b[0].0);
      SpreadStep(a, b);
      r
  }

  /** The entry `e` after `b` is spread over it: `b`'s value wins when `b` has the key. */
  function Override(e: Entry, b: seq<Entry>): Entry
  {
    if Has(b, e.0) then (e.0, Get(b, e.0)) else e
  }

  /** `a`'s entries, in `a`'s order, each taking `b`'s value where `b` has its key. */
  function Overridden(a: seq<Entry>, b: seq<Entry>): seq<Entry>
  {
    seq(|a|, i requires 0 <= i < |a| => Override(a[i], b))
  }

  /** `b`'s entries whose key `a` lacks, in `b`'s order. */
  function NewIn(a: seq<Entry>, b: seq<Entry>): seq<Entry>
    decreases |b|
  {
    if b == [] then [] else (if Has(a, b[0].0) then [] else [b[0]]) + NewIn(a, b[1..])
  }

  /** Which of `b`'s entries are new depends only on which of `b`'s keys `a` has. */
  lemma {:induction false} NewInSame(a: seq<Entry>, a': seq<Entry>, b: seq<Entry>)
    requires forall k {:trigger Has(b, k)} :: Has(b, k) ==> (Has(a, k) <==> Has(a', k))
    ensures NewIn(a, b) == NewIn(a', b)
    decreases |b|
  {
    if b != [] {
      assert Has(b, b[0].0);
      assert forall k :: Has(b[1..], k) ==> Has(b, k);
      NewInSame(a, a', b[1..]);
    }
  }

  /** Spreading `b`'s first entry onto `a`, then the rest of `b`, keeps the order of spreading all of `b`. */
  lemma SpreadStep(a: Record, b: Record)
    requires b != []
    ensures var a1 := SetProp(a, b[0].0, b[0].1);
      Overridden(a1, b[1..]) + NewIn(a1, b[1..]) == Overridden(a, b) + NewIn(a, b)
  {
    var a1 := SetProp(a, b[0].0, b[0].1);
    NewInSame(a1, a, b[1..]);
    if Has(a, b[0].0) {
      OverriddenKept(a, b);
      assert NewIn(a, b) == [] + NewIn(a, b[1..]);
    } else {
      OverriddenAppended(a, b);
      assert NewIn(a, b) == [b[0]] + NewIn(a, b[1..]);
      Assoc(Overridden(a, b), [b[0]], NewIn(a, b[1..]));
    }
  }

  /** Overriding by `b`'s tail is overriding by `b` for an entry whose key is not `b`'s first. */
  lemma OverrideTail(e: Entry, b: Record)
    requires b != [] && e.0 != b[0].0
    ensures Override(e, b[1..]) == Override(e, b)
  {
  }

  /** When `a` has `b`'s first key, assigning it in place gives what spreading all of `b` gives. */
  lemma OverriddenKept(a: Record, b: Record)
    requires b != [] && Has(a, b[0].0)
    ensures Overridden(SetProp(a, b[0].0, b[0].1), b[1..]) == Overridden(a, b)
  {
    var a1 := SetProp(a, b[0].0, b[0].1);
    assert !Has(b[1..], b[0].0);
    forall i | 0 <= i < |a|
      ensures Override(a1[i], b[1..]) == Override(a[i], b)
    {
      if a[i].0 != b[0].0 {
        OverrideTail(a[i], b);
      }
    }
  }

  /** When `a` lacks `b`'s first key, the appended entry is left alone by the rest of `b`. */
  lemma OverriddenAppended(a: Record, b: Record)
    requires b != [] && !Has(a, b[0].0)
    ensures Overridden(SetProp(a, b[0].0, b[0].1), b[1..]) == Overridden(a, b) + [b[0]]
  {
    var a1 := SetProp(a, b[0].0, b[0].1);
    assert !Has(b[1..], b[0].0);
    HasNone(a, b[0].0);
    forall i | 0 <= i < |a|
      ensures Override(a1[i], b[1..]) == Override(a[i], b)
    {
      OverrideTail(a[i], b);
    }
    assert Override(a1[|a|], b[1..]) == b[0];
  }

  /** Concatenation is associative; stated once, so proofs can name the step. */
  lemma Assoc<T>(a: seq<T>, b: seq<T>, c: seq<T>)
    ensures (a + b) + c == a + (b + c)
  {
  }

  /** Assigning the same property twice keeps only the second value. */
  lemma {:induction false} SetPropTwice(r: Record, k: string, v1: Value, v2: Value)
    ensures SetProp(SetProp(r, k, v1), k, v2) == SetProp(r, k, v2)
    decreases |r|
  {
    if r != [] && r[0].0 != k {
      SetPropTwice(r[1..], k, v1, v2);
    }
  }
}
