/**
 * `WheelNode`, the handle the library hands out: a mutable holder of one
 * decoded value with navigation by `elements()`, `get(key)` and `val(clazz)`,
 * and `JsonWheel.read`, which fills a fresh node with the decoded document.
 * Both variants define the node identically.
 */
module Wheel {
  import opened Chars
  import opened Values
  import opened Decoder

  datatype Option<T> = None | Some(value: T)

  /**
   * The classes a caller can pass to `val`: `Object` and the classes of the
   * objects the decoder builds. `MapClass` and `ListClass` stand for
   * `HashMap.class` and `ArrayList.class`, which `readValue` creates for `{` and `[`.
   */
  datatype JavaClass =
    | ObjectClass
    | StringClass
    | BooleanClass
    | IntegerClass
    | LongClass
    | BigIntegerClass
    | DoubleClass
    | BigDecimalClass
    | MapClass
    | ListClass

  /** The class of the object the decoder builds for a non-null value. */
  function ClassOf(v: Value): (c: JavaClass)
    requires v != Null
    ensures c != ObjectClass
  {
    match v
    case Bool(_) => BooleanClass
    case Str(_) => StringClass
    case Int32(_) => IntegerClass
    case Int64(_) => LongClass
    case BigInt(_) => BigIntegerClass
    case Double(_) => DoubleClass
    case BigDec(_) => BigDecimalClass
    case Obj(_) => MapClass
    case Arr(_) => ListClass
  }

  /** Whether a non-null value is an instance of `c`: its own class, or `Object`. */
  predicate IsInstance(v: Value, c: JavaClass)
    requires v != Null
  {
    c == ObjectClass || c == ClassOf(v)
  }

  /** `val(clazz)`: null for a null inner, else `clazz.cast(inner)`. */
  function Cast(inner: Value, c: JavaClass): (r: Result<Option<Value>>)
    ensures r.Err? ==> r.error == ClassCast
  {
    if inner == Null then Ok(None)
    else if IsInstance(inner, c) then Ok(Some(inner))
    else Err(ClassCast)
  }

  /** The values `elements()` wraps: the list's elements; a non-list inner fails the cast, a null one the iteration. */
  function ElementValues(inner: Value): (r: Result<seq<Value>>)
    ensures r.Ok? <==> inner.Arr?
    ensures r.Err? ==> r.error == (if inner == Null then NullPointer else ClassCast)
  {
    match inner
    case Null => Err(NullPointer)
    case Arr(elems) => Ok(elems)
    case _ => Err(ClassCast)
  }

  /** The value `get(key)` wraps: the map's entry, null when the key is absent. */
  function Lookup(inner: Value, key: Key): (r: Result<Value>)
    ensures r.Ok? <==> inner.Obj?
    ensures r.Err? ==> r.error == (if inner == Null then NullPointer else ClassCast)
  {
    match inner
    case Null => Err(NullPointer)
    case Obj(fields) => Ok(if key in fields then fields[key] else Null)
    case _ => Err(ClassCast)
  }

  /** The inner values of a list of nodes, in order. */
  function Inners(nodes: seq<WheelNode>): (r: seq<Value>)
    reads set n | n in nodes
    ensures |r| == |nodes|
    ensures forall i | 0 <= i < |nodes| :: r[i] == nodes[i].inner
  {
    if nodes == [] then [] else Inners(nodes[..|nodes| - 1]) + [nodes[|nodes| - 1].inner]
  }

  class WheelNode {
    var inner: Value

    /** `new WheelNode()`: the inner value starts out null. */
    constructor()
      ensures inner == Null
    {
      inner := Null;
    }

    /** `setInner(o)`. */
    method SetInner(o: Value)
      modifies this
      ensures inner == o
    {
      inner := o;
    }

    /** `elements()`: one fresh node per list element, in order. */
    method Elements() returns (r: Result<seq<WheelNode>>)
      ensures r.Ok? <==> ElementValues(inner).Ok?
      ensures r.Err? ==> r.error == ElementValues(inner).error
      ensures r.Ok? ==> Inners(r.value) == ElementValues(inner).value
      ensures r.Ok? ==> forall i | 0 <= i < |r.value| :: fresh(r.value[i])
    {
      if inner == Null {
        return Err(NullPointer);
      }
      if !inner.Arr? {
        return Err(ClassCast);
      }
      var elems := inner.elems;
      var list: seq<WheelNode> := [];
      var i := 0;
      while i < |elems|
        invariant 0 <= i <= |elems| && |list| == i
        invariant forall j | 0 <= j < i :: list[j].inner == elems[j] && fresh(list[j])
      {
        var node := new WheelNode();
        node.SetInner(elems[i]);
        list := list + [node];
        i := i + 1;
      }
      return Ok(list);
    }

    /** `get(key)`: a fresh node holding the entry for `key`, or null when there is none. */
    method Get(key: Key) returns (r: Result<WheelNode>)
      ensures r.Ok? <==> Lookup(inner, key).Ok?
      ensures r.Err? ==> r.error == Lookup(inner, key).error
      ensures r.Ok? ==> fresh(r.value) && r.value.inner == Lookup(inner, key).value
    {
      if inner == Null {
        return Err(NullPointer);
      }
      if !inner.Obj? {
        return Err(ClassCast);
      }
      var node := new WheelNode();
      var entry := if key in inner.fields then inner.fields[key] else Null;
      node.SetInner(entry);
      return Ok(node);
    }

    /** `val(clazz)`. */
    method Val(c: JavaClass) returns (r: Result<Option<Value>>)
      ensures r == Cast(inner, c)
    {
      if inner == Null {
        return Ok(None);
      }
      if c == ObjectClass || c == ClassOf(inner) {
        return Ok(Some(inner));
      }
      return Err(ClassCast);
    }
  }

  /** `JsonWheel.read`: a fresh node holding the value decoded from index 0. */
  method ReadJson(v: Variant, chars: seq<CodeUnit>, fit: Decimal -> DoubleFit) returns (r: Result<WheelNode>)
    ensures r.Ok? <==> Decode(v, chars, fit).Ok?
    ensures r.Err? ==> r.error == Decode(v, chars, fit).error
    ensures r.Ok? ==> fresh(r.value) && r.value.inner == Decode(v, chars, fit).value
  {
    var node := new WheelNode();
    var item :- ReadValueAt(v, chars, fit, 0);
    node.SetInner(item.value);
    return Ok(node);
  }

  // ---- What the navigation promises ----

  /** `val` succeeds exactly on a null inner or an instance of the class, and then gives the inner value itself. */
  lemma CastIff(inner: Value, c: JavaClass)
    ensures Cast(inner, c).Ok? <==> inner == Null || IsInstance(inner, c)
    ensures Cast(inner, c) == Ok(None) <==> inner == Null
    ensures Cast(inner, c).Ok? && inner != Null ==> Cast(inner, c) == Ok(Some(inner))
  {
  }

  /** A value read as one class cannot be read as another, except as `Object`. */
  lemma OneClassOnly(inner: Value, c: JavaClass, d: JavaClass)
    requires Cast(inner, c).Ok? && Cast(inner, c) != Ok(None) && c != ObjectClass
    requires d != c && d != ObjectClass
    ensures Cast(inner, d) == Err(ClassCast)
  {
  }

  /** `get` on an absent key gives a node whose `val` is null, whatever class is asked for. */
  lemma AbsentKeyIsNull(fields: map<Key, Value>, key: Key, c: JavaClass)
    requires key !in fields
    ensures Lookup(Obj(fields), key) == Ok(Null)
    ensures Cast(Lookup(Obj(fields), key).value, c) == Ok(None)
  {
  }

  /** `get` on a present key gives a node holding its value, readable as that value's class. */
  lemma PresentKeyHoldsValue(fields: map<Key, Value>, key: Key)
    requires key in fields && fields[key] != Null
    ensures Lookup(Obj(fields), key) == Ok(fields[key])
    ensures Cast(fields[key], ClassOf(fields[key])) == Ok(Some(fields[key]))
  {
  }
}
