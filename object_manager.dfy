/**
 * Ladybug's object manager (lib/ladybug/object_manager.rb): a registry
 * that keeps every object it has handed out an id for, and the serialiser
 * that turns Ruby values into Chrome DevTools RemoteObject hashes,
 * registering arrays and other composite objects as it goes.
 *
 * The registry is threaded through pure functions (`RegisterIn`,
 * `SerializeIn`, `PropertiesIn`); the class `ObjectManager` holds it as
 * mutable state and its methods are proved to change it as those
 * functions say.
 */
module ObjectManager {
  import opened Wrappers
  import opened Values
  import opened Numerals

  /**
   * Stands for the UUID `register` draws. The registry hands out ids from
   * a counter, so a new id is never one already in the map; nothing else
   * about the choice is relied on.
   */
  type ObjectId = nat

  datatype Registry = Registry(objects: map<ObjectId, Value>, next: ObjectId)
  {
    /** Every id in use lies below the next one to be handed out. */
    predicate Valid()
    {
      forall id :: id in objects ==> id < next
    }
  }

  /** `after` keeps every entry of `before` unchanged. */
  predicate Extends(before: Registry, after: Registry)
  {
    forall id :: id in before.objects ==> id in after.objects && after.objects[id] == before.objects[id]
  }

  /** `find(id)`: the registered object, or `nil`. */
  function Lookup(reg: Registry, id: ObjectId): (r: Option<Value>)
    ensures r.None? <==> id !in reg.objects
    ensures r.Some? ==> r.value == reg.objects[id]
  {
    if id in reg.objects then Some(reg.objects[id]) else None
  }

  /** `register(object)`: stores the object under a new id and returns the id. */
  function RegisterIn(reg: Registry, v: Value): (res: (Registry, ObjectId))
    requires reg.Valid()
    ensures res.0.Valid()
    ensures res.1 !in reg.objects
    ensures res.0.objects == reg.objects[res.1 := v]
  {
    (Registry(reg.objects[reg.next := v], reg.next + 1), reg.next)
  }

  /** A returned id resolves to the object, and every other entry is left as it was. */
  lemma RegisterThenFind(reg: Registry, v: Value, other: ObjectId)
    requires reg.Valid()
    ensures Lookup(RegisterIn(reg, v).0, RegisterIn(reg, v).1) == Some(v)
    ensures other != RegisterIn(reg, v).1 ==> Lookup(RegisterIn(reg, v).0, other) == Lookup(reg, other)
  {
  }

  /** Registering the same object twice gives two different ids that both resolve to it. */
  lemma RegisterTwice(reg: Registry, v: Value)
    requires reg.Valid()
    ensures var (reg1, id1) := RegisterIn(reg, v);
            var (reg2, id2) := RegisterIn(reg1, v);
            id1 != id2 && Lookup(reg2, id1) == Some(v) && Lookup(reg2, id2) == Some(v)
  {
  }

  /** `find` of an id that was never handed out is `nil`. */
  lemma FindUnregistered(reg: Registry, id: ObjectId)
    requires reg.Valid() && id >= reg.next
    ensures Lookup(reg, id) == None
  {
  }

  /**
   * A RemoteObject hash. Each field is a key of the Ruby hash; `None` means
   * the key is absent. `value` is `Some(Nil)` for the `value: nil` of the
   * null object. An array's `preview` is a copy of its own keys with
   * `overflow` and `properties` added.
   */
  datatype RemoteObject = RemoteObject(
    kind: string,
    subtype: Option<string>,
    className: Option<string>,
    description: Option<string>,
    value: Option<Value>,
    objectId: Option<ObjectId>,
    preview: Option<RemoteObject>,
    overflow: Option<bool>,
    properties: Option<seq<Property>>)

  /** One `{name:, value:}` entry of `get_properties`. */
  datatype Property = Property(name: Value, value: RemoteObject)

  /** String, Numeric, true/false and Symbol are sent by value. */
  predicate IsScalar(v: Value)
  {
    v.Str? || v.Num? || v.Bool? || v.Sym?
  }

  function ScalarObject(kind: string, v: Value, description: string): RemoteObject
  {
    RemoteObject(kind, None, None, Some(description), Some(v), None, None, None, None)
  }

  const NullObject := RemoteObject("object", Some("null"), None, None, Some(Nil), None, None, None, None)

  function ClassName(v: Value): string
  {
    match v
    case Arr(_) => "Array"
    case Hash(_, _) => "Hash"
    case Other(c, _, _, _) => c
    case _ => ""
  }

  /** `to_s` of a composite object; for an array, Ladybug's own "Array(n)". */
  function Description(v: Value): string
  {
    match v
    case Arr(a) => "Array(" + Decimal(|a|) + ")"
    case Hash(_, t) => t
    case Other(_, t, _, _) => t
    case _ => ""
  }

  /**
   * What a client can rely on about the RemoteObject for `v`: scalars carry
   * their type, the value itself and its text; `nil` is the null object;
   * anything else is an object whose `objectId` resolves back to `v` in
   * `reg`.
   */
  predicate Represents(reg: Registry, r: RemoteObject, v: Value)
  {
    match v
    case Str(s) => r == ScalarObject("string", v, s)
    case Num(n) => r == ScalarObject("number", v, Decimal(n))
    case Bool(b) => r == ScalarObject("boolean", v, if b then "true" else "false")
    case Sym(name) => r == ScalarObject("symbol", v, name)
    case Nil => r == NullObject
    case _ =>
      && r.kind == "object"
      && r.className == Some(ClassName(v))
      && r.description == Some(Description(v))
      && r.objectId.Some?
      && Lookup(reg, r.objectId.value) == Some(v)
  }

  lemma RepresentsPreserved(reg: Registry, reg': Registry, r: RemoteObject, v: Value)
    requires Extends(reg, reg') && Represents(reg, r, v)
    ensures Represents(reg', r, v)
  {
  }

  /**
   * The number of name/value pairs `get_properties` lists when it falls
   * back to the contents of `o`: an array's elements, a hash's entries, an
   * object's instance variables.
   */
  function EntryCount(o: Value): nat
  {
    match o
    case Arr(a) => |a|
    case Hash(e, _) => |e|
    case Other(_, _, _, ivars) => |ivars|
    case _ => 0
  }

  /** Pair `i`: an array element is named by `index.to_s`, a hash entry by its key, an instance variable by its Symbol. */
  function Entry(o: Value, i: nat): (e: (Value, Value))
    requires i < EntryCount(o)
    ensures o decreases to e.1
  {
    match o
    case Arr(a) => (Str(Decimal(i)), a[i])
    case Hash(e, _) => e[i]
    case Other(_, _, _, ivars) => (Sym(ivars[i].0), ivars[i].1)
  }

  /** The instance-variable hash `get_properties` builds for an object with no conversion. */
  function IvarHash(ivars: seq<(string, Value)>): seq<(Value, Value)>
  {
    seq(|ivars|, i requires 0 <= i < |ivars| => (Sym(ivars[i].0), ivars[i].1))
  }

  /** `serialize(object)`, with the registrations it makes. */
  function SerializeIn(reg: Registry, v: Value): (res: (Registry, RemoteObject))
    requires reg.Valid()
    ensures res.0.Valid() && Extends(reg, res.0)
    ensures Represents(res.0, res.1, v)
    ensures IsScalar(v) || v.Nil? ==> res.0 == reg
    decreases v, 2, 0
  {
    match v
    case Str(s) => (reg, ScalarObject("string", v, s))
    case Num(n) => (reg, ScalarObject("number", v, Decimal(n)))
    case Bool(b) => (reg, ScalarObject("boolean", v, if b then "true" else "false"))
    case Sym(name) => (reg, ScalarObject("symbol", v, name))
    case Arr(a) =>
      var (reg1, id) := RegisterIn(reg, v);
      var result := RemoteObject("object", Some("array"), Some(ClassName(v)), Some(Description(v)), None,
                                 Some(id), None, None, None);
      var (reg2, props) := PropertiesIn(reg1, v);
      (reg2, result.(preview := Some(result.(overflow := Some(false), properties := Some(props)))))
    case Nil => (reg, NullObject)
    case _ =>
      var (reg1, id) := RegisterIn(reg, v);
      (reg1, RemoteObject("object", None, Some(ClassName(v)), Some(Description(v)), None, Some(id), None, None, None))
  }

  /**
   * `get_properties(object)`: the debug view, then Hash, then Array, then
   * `to_a`, `attributes`, `to_hash`, `to_h`, and finally the instance
   * variables as a hash. A String, Numeric, true/false or Symbol has no
   * instance variables, and `nil.to_a` is empty, so those give no
   * properties.
   */
  function PropertiesIn(reg: Registry, v: Value): (res: (Registry, seq<Property>))
    requires reg.Valid()
    ensures res.0.Valid() && Extends(reg, res.0)
    decreases v, 1, 0
  {
    match v
    case Other(_, _, caps, ivars) =>
      if caps.debugProperties.Some? then PropertiesIn(reg, caps.debugProperties.value)
      else if caps.toA.Some? then PropertiesIn(reg, caps.toA.value)
      else if caps.attributes.Some? then PropertiesIn(reg, caps.attributes.value)
      else if caps.toHash.Some? then PropertiesIn(reg, caps.toHash.value)
      else if caps.toH.Some? then PropertiesIn(reg, caps.toH.value)
      else EntriesIn(reg, v, |ivars|)
    case Hash(entries, _) => EntriesIn(reg, v, |entries|)
    case Arr(a) => EntriesIn(reg, v, |a|)
    case _ => (reg, [])
  }

  /**
   * The first `n` pairs of `o`, each value serialised in turn. For a hash
   * the source also rejects entries whose serialisation is `nil`; since
   * `serialize` always returns a hash, that rejects nothing.
   */
  function EntriesIn(reg: Registry, o: Value, n: nat): (res: (Registry, seq<Property>))
    requires reg.Valid() && n <= EntryCount(o)
    ensures res.0.Valid() && Extends(reg, res.0)
    decreases o, 0, n
  {
    if n == 0 then (reg, [])
    else
      var (reg1, props) := EntriesIn(reg, o, n - 1);
      var (name, child) := Entry(o, n - 1);
      var (reg2, r) := SerializeIn(reg1, child);
      (reg2, props + [Property(name, r)])
  }

  /** Pair `i` of the result is named as pair `i` of `o` and represents its value. */
  lemma {:induction false} EntriesShape(reg: Registry, o: Value, n: nat)
    requires reg.Valid() && n <= EntryCount(o)
    ensures var (after, props) := EntriesIn(reg, o, n);
            && |props| == n
            && forall i :: 0 <= i < n ==> props[i].name == Entry(o, i).0 && Represents(after, props[i].value, Entry(o, i).1)
    decreases n
  {
    if n > 0 {
      EntriesShape(reg, o, n - 1);
      var prefix := EntriesIn(reg, o, n - 1);
      var last := SerializeIn(prefix.0, Entry(o, n - 1).1);
      var props := prefix.1 + [Property(Entry(o, n - 1).0, last.1)];
      assert EntriesIn(reg, o, n) == (last.0, props);
      forall i | 0 <= i < n
        ensures props[i].name == Entry(o, i).0 && Represents(last.0, props[i].value, Entry(o, i).1)
      {
        if i < n - 1 {
          assert props[i] == prefix.1[i];
          RepresentsPreserved(prefix.0, last.0, prefix.1[i].value, Entry(o, i).1);
        }
      }
    }
  }

  /** For a Hash: one property per entry, in insertion order, named by the key; nothing is dropped. */
  lemma HashProperties(reg: Registry, entries: seq<(Value, Value)>, text: string)
    requires reg.Valid()
    ensures var (after, props) := PropertiesIn(reg, Hash(entries, text));
            && |props| == |entries|
            && forall i :: 0 <= i < |entries| ==> props[i].name == entries[i].0 && Represents(after, props[i].value, entries[i].1)
  {
    EntriesShape(reg, Hash(entries, text), |entries|);
  }

  /**
   * `serialize` of an Array: an object of subtype "array" described as
   * "Array(n)" whose id resolves to the array, with a preview that does not
   * overflow and lists the elements in order under the names "0" to "n-1".
   */
  lemma SerializeArray(reg: Registry, a: seq<Value>)
    requires reg.Valid()
    ensures var (after, r) := SerializeIn(reg, Arr(a));
            && r.kind == "object" && r.subtype == Some("array") && r.className == Some("Array")
            && r.description == Some("Array(" + Decimal(|a|) + ")")
            && r.objectId.Some? && r.objectId.value !in reg.objects && Lookup(after, r.objectId.value) == Some(Arr(a))
            && r.preview.Some? && r.preview.value.overflow == Some(false)
            && r.preview.value.kind == r.kind && r.preview.value.subtype == r.subtype
            && r.preview.value.className == r.className
            && r.preview.value.objectId == r.objectId && r.preview.value.description == r.description
            && r.preview.value.properties.Some?
            && var props := r.preview.value.properties.value;
               && |props| == |a|
               && forall i :: 0 <= i < |a| ==> props[i].name == Str(Decimal(i)) && Represents(after, props[i].value, a[i])
  {
    var (reg1, id) := RegisterIn(reg, Arr(a));
    EntriesShape(reg1, Arr(a), |a|);
  }

  /** A Hash or other object is registered exactly once, under a new id that resolves to it. */
  lemma SerializeRegistersOnce(reg: Registry, v: Value)
    requires reg.Valid() && (v.Hash? || v.Other?)
    ensures var (after, r) := SerializeIn(reg, v);
            && r.objectId.Some?
            && r.objectId.value !in reg.objects
            && after.objects == reg.objects[r.objectId.value := v]
            && r.preview.None?
  {
  }

  /** `serialize(nil)` is the null object and registers nothing. */
  lemma SerializeNil(reg: Registry)
    requires reg.Valid()
    ensures SerializeIn(reg, Nil) == (reg, RemoteObject("object", Some("null"), None, None, Some(Nil), None, None, None, None))
  {
  }

  /** The conversions of an object, in the order `get_properties` tries them. */
  function ConversionOrder(caps: Capabilities): seq<Option<Value>>
  {
    [caps.debugProperties, caps.toA, caps.attributes, caps.toHash, caps.toH]
  }

  /** The first conversion present, if any. */
  function FirstPresent(options: seq<Option<Value>>): (r: Option<Value>)
    ensures r.None? <==> forall i :: 0 <= i < |options| ==> options[i].None?
    ensures r.Some? ==> exists i :: 0 <= i < |options| && options[i] == r &&
                                    forall j :: 0 <= j < i ==> options[j].None?
  {
    if options == [] then None
    else if options[0].Some? then options[0]
    else
      var r := FirstPresent(options[1..]);
      assert forall i :: 1 <= i < |options| ==> options[i] == options[1..][i - 1];
      r
  }

  /**
   * The fallback order: an object's properties are those of its first
   * conversion in `ConversionOrder`; with none, those of the Hash of its
   * instance variables.
   */
  lemma PropertiesFallback(reg: Registry, className: string, text: string, caps: Capabilities,
                           ivars: seq<(string, Value)>, hashText: string)
    requires reg.Valid()
    ensures PropertiesIn(reg, Other(className, text, caps, ivars))
         == match FirstPresent(ConversionOrder(caps))
            case Some(w) => PropertiesIn(reg, w)
            case None => PropertiesIn(reg, Hash(IvarHash(ivars), hashText))
  {
    var o := Other(className, text, caps, ivars);
    var order := ConversionOrder(caps);
    if caps.debugProperties.None? && caps.toA.None? && caps.attributes.None? && caps.toHash.None? && caps.toH.None? {
      assert forall i :: 0 <= i < |order| ==> order[i].None?;
      SameEntries(reg, o, Hash(IvarHash(ivars), hashText), |ivars|);
    } else {
      var w := FirstPresent(order);
      var i :| 0 <= i < |order| && order[i] == w && forall j :: 0 <= j < i ==> order[j].None?;
      assert order[0] == caps.debugProperties && order[1] == caps.toA && order[2] == caps.attributes
          && order[3] == caps.toHash && order[4] == caps.toH;
    }
  }

  /** Containers listing the same pairs have the same properties. */
  lemma {:induction false} SameEntries(reg: Registry, o: Value, o': Value, n: nat)
    requires reg.Valid() && n <= EntryCount(o) && n <= EntryCount(o')
    requires forall i :: 0 <= i < n ==> Entry(o, i) == Entry(o', i)
    ensures EntriesIn(reg, o, n) == EntriesIn(reg, o', n)
    decreases n
  {
    if n > 0 {
      SameEntries(reg, o, o', n - 1);
    }
  }

  class ObjectManager {
    var objects: map<ObjectId, Value>
    var next: ObjectId

    function State(): Registry
      reads this
    {
      Registry(objects, next)
    }

    ghost predicate Valid()
      reads this
    {
      State().Valid()
    }

    constructor ()
      ensures Valid() && objects == map[]
    {
      objects := map[];
      next := 0;
    }

    /** `find(id)`. */
    function Find(id: ObjectId): (r: Option<Value>)
      reads this
      ensures r == Lookup(State(), id)
    {
      Lookup(State(), id)
    }

    method Register(o: Value) returns (id: ObjectId)
      requires Valid()
      modifies this
      ensures Valid()
      ensures id !in old(objects) && objects == old(objects)[id := o]
      ensures (State(), id) == RegisterIn(old(State()), o)
    {
      id := next;
      objects := objects[id := o];
      next := next + 1;
    }

    method Serialize(o: Value) returns (r: RemoteObject)
      requires Valid()
      modifies this
      ensures Valid()
      ensures (State(), r) == SerializeIn(old(State()), o)
      decreases o, 2, 0
    {
      match o {
        case Str(s) => r := ScalarObject("string", o, s);
        case Num(n) => r := ScalarObject("number", o, Decimal(n));
        case Bool(b) => r := ScalarObject("boolean", o, if b then "true" else "false");
        case Sym(name) => r := ScalarObject("symbol", o, name);
        case Arr(_) =>
          var id := Register(o);
          var result := RemoteObject("object", Some("array"), Some(ClassName(o)), Some(Description(o)), None,
                                     Some(id), None, None, None);
          var props := GetProperties(o);
          r := result.(preview := Some(result.(overflow := Some(false), properties := Some(props))));
        case Nil => r := NullObject;
        case _ =>
          var id := Register(o);
          r := RemoteObject("object", None, Some(ClassName(o)), Some(Description(o)), None, Some(id), None, None, None);
      }
    }

    method GetProperties(o: Value) returns (props: seq<Property>)
      requires Valid()
      modifies this
      ensures Valid()
      ensures (State(), props) == PropertiesIn(old(State()), o)
      decreases o, 1, 0
    {
      match o {
        case Other(_, _, caps, ivars) =>
          if caps.debugProperties.Some? {
            props := GetProperties(caps.debugProperties.value);
          } else if caps.toA.Some? {
            props := GetProperties(caps.toA.value);
          } else if caps.attributes.Some? {
            props := GetProperties(caps.attributes.value);
          } else if caps.toHash.Some? {
            props := GetProperties(caps.toHash.value);
          } else if caps.toH.Some? {
            props := GetProperties(caps.toH.value);
          } else {
            props := SerializeEntries(o);
          }
        case Hash(_, _) => props := SerializeEntries(o);
        case Arr(_) => props := SerializeEntries(o);
        case _ => props := [];
      }
    }

    /** The `map` over the pairs of `o`, serialising each value in order. */
    method SerializeEntries(o: Value) returns (props: seq<Property>)
      requires Valid()
      modifies this
      ensures Valid()
      ensures (State(), props) == EntriesIn(old(State()), o, EntryCount(o))
      decreases o, 0, EntryCount(o) + 1
    {
      props := [];
      var i := 0;
      while i < EntryCount(o)
        invariant 0 <= i <= EntryCount(o)
        invariant Valid()
        invariant (State(), props) == EntriesIn(old(State()), o, i)
      {
        var (name, child) := Entry(o, i);
        var r := Serialize(child);
        props := props + [Property(name, r)];
        i := i + 1;
      }
    }
  }
}
