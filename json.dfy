/** Values of the document store: the JSON-like values that mongoose documents,
    request bodies and serialised responses are made of.  A document is a map
    from field names to values; an absent key is JavaScript's `undefined`. */
module Json {

  /** An ObjectId.  Ids are only ever compared for equality. */
  type Oid = nat

  newtype Byte = b: int | 0 <= b < 256

  datatype Option<T> = None | Some(value: T)

  /** `Num` holds integers only; the source's floating point is not modelled. */
  datatype Json =
    | Undefined
    | Null
    | Bool(b: bool)
    | Num(n: int)
    | Str(s: string)
    | Bin(bytes: seq<Byte>)
    | Ref(id: Oid)
    | Arr(items: seq<Json>)
    | Obj(fields: map<string, Json>)

  type Doc = map<string, Json>

  /** What a handler answers: `Ok`, an explicit 404 (`NotFound`), an explicit
      400 guard (`Rejected`), or an exception that reached a catch or escaped
      the handler (`Fails`). */
  datatype Reply<T> = Ok(value: T) | NotFound | Rejected | Fails

  /** `doc[k]`, `undefined` when the key is absent. */
  function Get(d: Doc, k: string): Json {
    if k in d then d[k] else Undefined
  }

  /** `j[k]` for a value that may or may not be an object. */
  function Field(j: Json, k: string): Json {
    if j.Obj? then Get(j.fields, k) else Undefined
  }

  /** The elements of an array field; mongoose array paths default to `[]`. */
  function Items(j: Json): seq<Json> {
    if j.Arr? then j.items else []
  }

  /** `doc[k].push(x)` on an array path. */
  function Append(d: Doc, k: string, x: Json): (r: Doc)
    ensures Items(Get(r, k)) == Items(Get(d, k)) + [x]
    ensures forall f :: f != k ==> Get(r, f) == Get(d, f)
  {
    d[k := Arr(Items(Get(d, k)) + [x])]
  }

  /** JavaScript truthiness. A Buffer, an ObjectId, an array and an object are
      always truthy; `0`, `""`, `undefined`, `null` and `false` are not. */
  predicate Truthy(j: Json) {
    match j
    case Undefined => false
    case Null => false
    case Bool(b) => b
    case Num(n) => n != 0
    case Str(s) => s != ""
    case _ => true
  }

  /** A value that passes mongoose's `required` validator: not undefined, not
      null, and neither an empty string nor an empty buffer. */
  predicate Present(j: Json) {
    j != Undefined && j != Null && j != Str("") && j != Bin([])
  }

  /** The hexadecimal text of an ObjectId as it appears in a template string;
      here the decimal digits of the id. */
  function IdString(id: Oid): string
    decreases id
  {
    if id < 10 then [Digit(id)] else IdString(id / 10) + [Digit(id % 10)]
  }

  function Digit(d: nat): char
    requires d < 10
  {
    "0123456789"[d]
  }

  /** String concatenation of `x` into a template: a string stays as it is,
      a number or id becomes its digits, anything else its JavaScript text. */
  function Text(j: Json): string {
    match j
    case Str(s) => s
    case Num(n) => if n >= 0 then IdString(n) else "-" + IdString(-n)
    case Ref(id) => IdString(id)
    case Undefined => "undefined"
    case Null => "null"
    case Bool(b) => if b then "true" else "false"
    case _ => "[object Object]"
  }

  /** The number of elements of `xs` equal to `x`. */
  function Count(xs: seq<Json>, x: Json): nat {
    if xs == [] then 0 else (if xs[0] == x then 1 else 0) + Count(xs[1..], x)
  }

  /** `xs.filter(y => y !== x)` on ids: every element equal to `x` dropped,
      every other element kept, in order. */
  function Without(xs: seq<Json>, x: Json): (r: seq<Json>)
    ensures forall y :: y in r <==> y in xs && y != x
    ensures |r| == |xs| - Count(xs, x)
  {
    if xs == [] then []
    else if xs[0] == x then Without(xs[1..], x)
    else [xs[0]] + Without(xs[1..], x)
  }

  /** Removing what was just appended leaves the list as if it had never been
      appended. */
  lemma {:induction false} WithoutAppend(xs: seq<Json>, x: Json)
    ensures Without(xs + [x], x) == Without(xs, x)
  {
    if xs == [] {
      assert [x][1..] == [];
    } else {
      assert (xs + [x])[1..] == xs[1..] + [x];
      WithoutAppend(xs[1..], x);
    }
  }

  /** Filtering twice is filtering once. */
  lemma {:induction false} WithoutIdempotent(xs: seq<Json>, x: Json)
    ensures Without(Without(xs, x), x) == Without(xs, x)
  {
    if xs != [] {
      WithoutIdempotent(xs[1..], x);
      if xs[0] != x {
        assert ([xs[0]] + Without(xs[1..], x))[1..] == Without(xs[1..], x);
      }
    }
  }

  /** Filtering out an element that is not there changes nothing. */
  lemma {:induction false} WithoutAbsent(xs: seq<Json>, x: Json)
    requires x !in xs
    ensures Without(xs, x) == xs
  {
    if xs != [] {
      WithoutAbsent(xs[1..], x);
      assert xs == [xs[0]] + xs[1..];
    }
  }

  /** `xs.map(f)`, built front to back as a `forEach` pushing onto a new array. */
  function MapSeq<A, B>(f: A -> B, xs: seq<A>): seq<B>
    decreases |xs|
  {
    if xs == [] then [] else MapSeq(f, xs[..|xs| - 1]) + [f(xs[|xs| - 1])]
  }

  /** The mapped list has one image per element, in order. */
  lemma {:induction false} MapSeqSpec<A, B>(f: A -> B, xs: seq<A>)
    ensures |MapSeq(f, xs)| == |xs|
    ensures forall i :: 0 <= i < |xs| ==> MapSeq(f, xs)[i] == f(xs[i])
    decreases |xs|
  {
    if xs != [] {
      var init := xs[..|xs| - 1];
      MapSeqSpec(f, init);
      assert forall i :: 0 <= i < |init| ==> init[i] == xs[i];
    }
  }

  /** One more step of the map: the image of the next element appended. */
  lemma MapSeqSnoc<A, B>(f: A -> B, xs: seq<A>, i: nat)
    requires i < |xs|
    ensures MapSeq(f, xs[..i + 1]) == MapSeq(f, xs[..i]) + [f(xs[i])]
  {
    assert xs[..i + 1][..i] == xs[..i];
  }

  /** A `forEach` that may throw on an element: the images of all elements,
      in order, or none as soon as one element has none. */
  function CollectSeq<A, B>(f: A -> Option<B>, xs: seq<A>): Option<seq<B>>
    decreases |xs|
  {
    if xs == [] then Some([])
    else match CollectSeq(f, xs[..|xs| - 1])
      case None => None
      case Some(prefix) => if f(xs[|xs| - 1]).None? then None else Some(prefix + [f(xs[|xs| - 1]).value])
  }

  /** Collecting succeeds exactly when every element has an image... */
  lemma {:induction false} CollectSeqSucceeds<A, B>(f: A -> Option<B>, xs: seq<A>)
    ensures CollectSeq(f, xs).Some? <==> forall i :: 0 <= i < |xs| ==> f(xs[i]).Some?
    decreases |xs|
  {
    if xs != [] {
      var init := xs[..|xs| - 1];
      CollectSeqSucceeds(f, init);
      assert forall i :: 0 <= i < |init| ==> init[i] == xs[i];
    }
  }

  /** ...and then holds those images, one per element, in order. */
  lemma {:induction false} CollectSeqValues<A, B>(f: A -> Option<B>, xs: seq<A>)
    requires CollectSeq(f, xs).Some?
    ensures |CollectSeq(f, xs).value| == |xs|
    ensures forall i :: 0 <= i < |xs| ==> f(xs[i]).Some? && CollectSeq(f, xs).value[i] == f(xs[i]).value
    decreases |xs|
  {
    if xs != [] {
      var init := xs[..|xs| - 1];
      CollectSeqValues(f, init);
      assert forall i :: 0 <= i < |init| ==> init[i] == xs[i];
    }
  }

  /** The position of the first element satisfying `p`, or none. */
  function FirstIndex<T>(xs: seq<T>, p: T -> bool): (r: Option<nat>)
    ensures r.Some? ==> r.value < |xs| && p(xs[r.value])
    ensures r.Some? ==> forall j :: 0 <= j < r.value ==> !p(xs[j])
    ensures r.None? <==> forall j :: 0 <= j < |xs| ==> !p(xs[j])
    decreases |xs|
  {
    if xs == [] then None
    else if p(xs[0]) then Some(0)
    else
      assert forall j :: 1 <= j < |xs| ==> xs[j] == xs[1..][j - 1];
      match FirstIndex(xs[1..], p)
      case None => None
      case Some(i) => Some(i + 1)
  }

  /** Two lists on which the tests agree position by position have the same
      first match. */
  lemma FirstIndexAgrees<A, B>(a: seq<A>, b: seq<B>, p: A -> bool, q: B -> bool)
    requires |a| == |b|
    requires forall i :: 0 <= i < |a| ==> (p(a[i]) <==> q(b[i]))
    ensures FirstIndex(a, p) == FirstIndex(b, q)
  {
    var ra := FirstIndex(a, p);
    var rb := FirstIndex(b, q);
    if ra.Some? && rb.Some? {
      assert !(ra.value < rb.value) && !(rb.value < ra.value);
    }
  }

  /** The first match in `[x] + rest`: `x` itself, or one past the first
      match in `rest`. */
  lemma FirstIndexCons<T>(x: T, rest: seq<T>, p: T -> bool)
    ensures p(x) ==> FirstIndex([x] + rest, p) == Some(0)
    ensures !p(x) ==> FirstIndex([x] + rest, p)
                      == match FirstIndex(rest, p)
                         case None => None
                         case Some(i) => Some(i + 1)
  {
    assert ([x] + rest)[0] == x;
    assert ([x] + rest)[1..] == rest;
  }
}
