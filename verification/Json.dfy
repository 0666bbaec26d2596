/**
 * JSON-like values: query results, mutation payloads and query arguments. An object is the list of its properties in
 * the order of insertion, which spreading and assigning keep.
 */
module Json {

  /** Objects keep the order of their keys; `NegInfinity` is the maximum of no numbers. */
  datatype Json =
    | Undefined | Null | Bool(b: bool) | Num(n: int) | NegInfinity | Str(s: string)
    | Arr(items: seq<Json>)
    | Obj(fields: seq<Prop>)
  {
    predicate Truthy() {
      match this
      case Undefined | Null => false
      case Bool(b) => b
      case Num(n) => n != 0
      case Str(s) => s != ""
      case NegInfinity | Arr(_) | Obj(_) => true
    }

    /** `typeof x === 'object'`, which holds of null too. */
    predicate IsObject() {
      Null? || Arr? || Obj?
    }

    predicate Nullish() {
      Undefined? || Null?
    }
  }

  datatype Prop = Prop(key: string, val: Json)

  function IndexOf(fields: seq<Prop>, key: string): (i: nat)
    ensures i <= |fields|
    ensures i < |fields| ==> fields[i].key == key
    ensures forall j | 0 <= j < i :: fields[j].key != key
  {
    if fields == [] || fields[0].key == key then 0 else 1 + IndexOf(fields[1..], key)
  }

  predicate DistinctKeys(fields: seq<Prop>) {
    forall i, j | 0 <= i < j < |fields| :: fields[i].key != fields[j].key
  }

  predicate Has(fields: seq<Prop>, key: string) {
    IndexOf(fields, key) < |fields|
  }

  function Get(fields: seq<Prop>, key: string): Json {
    var i := IndexOf(fields, key);
    if i < |fields| then fields[i].val else Undefined
  }

  /** `x.key` of a value that is not nullish. */
  function Member(j: Json, key: string): Json {
    if j.Obj? then Get(j.fields, key) else Undefined
  }

  predicate HasMember(j: Json, key: string) {
    j.Obj? && Has(j.fields, key)
  }

  /** `fields[key] = val` */
  function Put(fields: seq<Prop>, key: string, val: Json): (r: seq<Prop>)
    ensures forall p | p in r :: p in fields || p == Prop(key, val)
    ensures Get(r, key) == val && Has(r, key)
    ensures forall k | k != key :: Get(r, k) == Get(fields, k) && (Has(r, k) <==> Has(fields, k))
  {
    var i := IndexOf(fields, key);
    if i < |fields| then
      PutAt(fields, i, key, val);
      fields[i := Prop(key, val)]
    else
      PutEnd(fields, key, val);
      fields + [Prop(key, val)]
  }

  lemma IndexIs(fields: seq<Prop>, key: string, i: nat)
    requires i <= |fields| && (i < |fields| ==> fields[i].key == key)
    requires forall j | 0 <= j < i :: fields[j].key != key
    ensures IndexOf(fields, key) == i
  {
  }

  lemma PutAt(fields: seq<Prop>, i: nat, key: string, val: Json)
    requires i < |fields| && IndexOf(fields, key) == i
    ensures var r := fields[i := Prop(key, val)];
      Get(r, key) == val && Has(r, key)
      && forall k | k != key :: Get(r, k) == Get(fields, k) && (Has(r, k) <==> Has(fields, k))
  {
    var r := fields[i := Prop(key, val)];
    IndexIs(r, key, i);
    forall k | k != key ensures IndexOf(r, k) == IndexOf(fields, k) {
      IndexIs(r, k, IndexOf(fields, k));
    }
  }

  lemma PutEnd(fields: seq<Prop>, key: string, val: Json)
    requires !Has(fields, key)
    ensures var r := fields + [Prop(key, val)];
      Get(r, key) == val && Has(r, key)
      && forall k | k != key :: Get(r, k) == Get(fields, k) && (Has(r, k) <==> Has(fields, k))
  {
    var r := fields + [Prop(key, val)];
    IndexIs(r, key, |fields|);
    forall k | k != key
      ensures Get(r, k) == Get(fields, k) && (Has(r, k) <==> Has(fields, k))
    {
      var i := IndexOf(fields, k);
      IndexIs(r, k, if i < |fields| then i else |r|);
    }
  }

  /** `===` between data and payload, which never share an object. */
  predicate StrictEqual(a: Json, b: Json) {
    a == b && !a.Arr? && !a.Obj?
  }

  // ----- a size for recursion through objects that are rebuilt on the way -----

  function Size(j: Json): nat {
    match j
    case Arr(items) => 1 + SizeAll(items)
    case Obj(fields) => 1 + SizeProps(fields)
    case _ => 0
  }

  function SizeAll(items: seq<Json>): nat {
    if items == [] then 0 else Size(items[0]) + SizeAll(items[1..])
  }

  function SizeProps(fields: seq<Prop>): nat {
    if fields == [] then 0 else Size(fields[0].val) + SizeProps(fields[1..])
  }

  lemma {:induction false} ItemIsSmaller(items: seq<Json>, x: Json)
    requires x in items
    ensures Size(x) <= SizeAll(items)
  {
    if x != items[0] {
      ItemIsSmaller(items[1..], x);
    }
  }

  lemma {:induction false} PropIsSmaller(fields: seq<Prop>, p: Prop)
    requires p in fields
    ensures Size(p.val) <= SizeProps(fields)
  {
    if p != fields[0] {
      PropIsSmaller(fields[1..], p);
    }
  }
}
