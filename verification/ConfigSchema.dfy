/** Checks on a plugin's configSchema (packages/plugin-protocol/src/json-schema-subset.ts): structural
    bounds on the raw value, secrets below the root, and defaults against their own constraints. */
module ConfigSchema {
  import opened Common
  import Text

  // ---------------------------------------------------------------- raw values

  /** A decoded JSON value; the entries of an object come in enumeration order. */
  datatype Json =
    | JNull
    | JBool(b: bool)
    | JNumber(n: real)
    | JString(s: string)
    | JArray(elements: seq<Json>)
    | JObject(entries: seq<Entry>)

  datatype Entry = Entry(key: string, value: Json)

  function Find(entries: seq<Entry>, key: string): (k: Option<nat>)
    ensures k.Some? ==> k.value < |entries| && entries[k.value].key == key
    ensures k.None? ==> forall i :: 0 <= i < |entries| ==> entries[i].key != key
  {
    if entries == [] then None
    else if entries[0].key == key then Some(0)
    else
      match Find(entries[1..], key)
      case None => None
      case Some(k) => Some(k + 1)
  }

  function Field(raw: Json, key: string): Option<Json> {
    if !raw.JObject? then None
    else
      match Find(raw.entries, key)
      case None => None
      case Some(k) => Some(raw.entries[k].value)
  }

  const MAX_DEPTH := 8
  const MAX_ENUM := 200
  const MAX_PROPERTIES := 200
  const MAX_REQUIRED := 200

  datatype BoundsReason = MaxDepthExceeded | TooManyProperties | EnumTooLarge | TooManyRequired

  datatype Violation = Violation(path: string, reason: BoundsReason)

  function Dotted(path: string, name: string): string {
    if path == "" then name else path + "." + name
  }

  predicate LongArray(v: Option<Json>, max: nat) {
    v.Some? && v.value.JArray? && |v.value.elements| > max
  }

  /** The entries of a node's `properties`, if that is an object. */
  function PropertiesOf(raw: Json): seq<Entry> {
    var p := Field(raw, "properties");
    if p.Some? && p.value.JObject? then p.value.entries else []
  }

  /** The check. Its nesting is bounded by the depth argument alone, not by the input. */
  function CheckBounds(raw: Json, path: string, depth: nat): Option<Violation>
    requires depth <= MAX_DEPTH + 1
    decreases MAX_DEPTH + 1 - depth, 1, 0
  {
    if depth > MAX_DEPTH then Some(Violation(path, MaxDepthExceeded))
    else if !raw.JObject? then None
    else if LongArray(Field(raw, "enum"), MAX_ENUM) then Some(Violation(Dotted(path, "enum"), EnumTooLarge))
    else
      var properties := PropertiesOf(raw);
      if |properties| > MAX_PROPERTIES then Some(Violation(Dotted(path, "properties"), TooManyProperties))
      else
        var below := CheckProperties(properties, path, depth);
        if below.Some? then below
        else if LongArray(Field(raw, "required"), MAX_REQUIRED) then Some(Violation(Dotted(path, "required"), TooManyRequired))
        else if Field(raw, "items").Some? then CheckBounds(Field(raw, "items").value, path + "[]", depth + 1)
        else None
  }

  function CheckProperties(properties: seq<Entry>, path: string, depth: nat): Option<Violation>
    requires depth <= MAX_DEPTH
    decreases MAX_DEPTH + 1 - depth, 0, |properties|
  {
    if properties == [] then None
    else
      var first := CheckBounds(properties[0].value, Dotted(path, properties[0].key), depth + 1);
      if first.Some? then first else CheckProperties(properties[1..], path, depth)
  }

  /** How many frames of the check are nested in the worst case. */
  function Frames(raw: Json, depth: nat): (n: nat)
    requires depth <= MAX_DEPTH + 1
    ensures 1 <= n <= MAX_DEPTH + 2 - depth
    decreases MAX_DEPTH + 1 - depth, 1, 0
  {
    if depth > MAX_DEPTH || !raw.JObject? then 1
    else
      var items := if Field(raw, "items").Some? then Frames(Field(raw, "items").value, depth + 1) else 0;
      1 + Max(items, PropertyFrames(PropertiesOf(raw), depth))
  }

  function PropertyFrames(properties: seq<Entry>, depth: nat): (n: nat)
    requires depth <= MAX_DEPTH
    ensures n <= MAX_DEPTH + 1 - depth
    decreases MAX_DEPTH + 1 - depth, 0, |properties|
  {
    if properties == [] then 0
    else Max(Frames(properties[0].value, depth + 1), PropertyFrames(properties[1..], depth))
  }

  /** A node's frames are one more than those of the deepest node below it. */
  lemma FramesAre(raw: Json, depth: nat)
    requires depth <= MAX_DEPTH && raw.JObject?
    ensures forall h :: Child(raw, h).Some? ==> Frames(raw, depth) > Frames(Child(raw, h).value, depth + 1)
    ensures Frames(raw, depth) == 1
            || exists h :: Child(raw, h).Some? && Frames(raw, depth) == 1 + Frames(Child(raw, h).value, depth + 1)
  {
    var ps := PropertiesOf(raw);
    forall i: nat | i < |ps|
      ensures PropertyFrames(ps, depth) >= Frames(ps[i].value, depth + 1)
    {
      PropertyIsCovered(ps, depth, i);
    }
    if Field(raw, "items").Some? && Frames(raw, depth) == 1 + Frames(Field(raw, "items").value, depth + 1) {
      assert Child(raw, Items).Some?;
    } else if ps != [] && Frames(raw, depth) > 1 {
      var i := DeepestProperty(ps, depth);
      assert Child(raw, Prop(i)) == Some(ps[i].value);
    }
  }

  lemma {:induction false} PropertyIsCovered(properties: seq<Entry>, depth: nat, i: nat)
    requires depth <= MAX_DEPTH && i < |properties|
    ensures PropertyFrames(properties, depth) >= Frames(properties[i].value, depth + 1)
  {
    if i > 0 {
      PropertyIsCovered(properties[1..], depth, i - 1);
    }
  }

  lemma {:induction false} DeepestProperty(properties: seq<Entry>, depth: nat) returns (i: nat)
    requires depth <= MAX_DEPTH && properties != []
    ensures i < |properties| && PropertyFrames(properties, depth) == Frames(properties[i].value, depth + 1)
  {
    i := 0;
    assert |properties| == 1 ==> PropertyFrames(properties[1..], depth) == 0;
    if PropertyFrames(properties, depth) != Frames(properties[0].value, depth + 1) {
      var k := DeepestProperty(properties[1..], depth);
      i := k + 1;
    }
  }

  // ---------------------------------------------------------------- what "within bounds" means

  /** One step down a schema: into a named property, or into an array's items. */
  datatype Hop = Prop(index: nat) | Items

  function Child(raw: Json, h: Hop): Option<Json> {
    match h
    case Prop(i) => if i < |PropertiesOf(raw)| then Some(PropertiesOf(raw)[i].value) else None
    case Items => Field(raw, "items")
  }

  function NodeAt(raw: Json, hops: seq<Hop>): Option<Json> {
    if hops == [] then Some(raw)
    else
      match Child(raw, hops[0])
      case None => None
      case Some(c) => NodeAt(c, hops[1..])
  }

  predicate CapsOk(raw: Json) {
    && !LongArray(Field(raw, "enum"), MAX_ENUM)
    && |PropertiesOf(raw)| <= MAX_PROPERTIES
    && !LongArray(Field(raw, "required"), MAX_REQUIRED)
  }

  /** A field of an object is the value of its first entry with that key, and nothing else has fields. */
  lemma FieldIs(raw: Json, key: string, k: nat)
    ensures !raw.JObject? ==> Field(raw, key) == None
    ensures raw.JObject? && k < |raw.entries| && raw.entries[k].key == key
            && (forall i :: 0 <= i < k ==> raw.entries[i].key != key)
            ==> Field(raw, key) == Some(raw.entries[k].value)
    ensures raw.JObject? && (forall i :: 0 <= i < |raw.entries| ==> raw.entries[i].key != key) ==> Field(raw, key) == None
  {
    if raw.JObject? && k < |raw.entries| && raw.entries[k].key == key && (forall i :: 0 <= i < k ==> raw.entries[i].key != key) {
      FirstIsFound(raw.entries, key, k);
    }
  }

  lemma {:induction false} FirstIsFound(entries: seq<Entry>, key: string, k: nat)
    requires k < |entries| && entries[k].key == key && forall i :: 0 <= i < k ==> entries[i].key != key
    ensures Find(entries, key) == Some(k)
  {
    if k > 0 {
      FirstIsFound(entries[1..], key, k - 1);
    }
  }

  /** At most 200 options, 200 required names and 200 properties. */
  ghost predicate Small(node: Json) {
    && (forall xs :: Field(node, "enum") == Some(JArray(xs)) ==> |xs| <= 200)
    && (forall xs :: Field(node, "required") == Some(JArray(xs)) ==> |xs| <= 200)
    && (forall es :: Field(node, "properties") == Some(JObject(es)) ==> |es| <= 200)
  }

  lemma CapsAre(node: Json)
    ensures CapsOk(node) <==> Small(node)
  {
    if !CapsOk(node) {
      if LongArray(Field(node, "enum"), MAX_ENUM) {
        assert Field(node, "enum") == Some(JArray(Field(node, "enum").value.elements));
      } else if LongArray(Field(node, "required"), MAX_REQUIRED) {
        assert Field(node, "required") == Some(JArray(Field(node, "required").value.elements));
      } else {
        assert Field(node, "properties") == Some(JObject(PropertiesOf(node)));
      }
    }
  }

  /** One step down leads to the value of a property, or to the items. */
  lemma ChildIs(node: Json, es: seq<Entry>, i: nat)
    ensures Field(node, "properties") == Some(JObject(es)) && i < |es| ==> Child(node, Prop(i)) == Some(es[i].value)
    ensures Child(node, Items) == Field(node, "items")
  {
  }

  /** Every node that zod would recurse into is shallow enough and small enough, whatever its type. */
  ghost predicate Bounded(raw: Json, depth: nat) {
    forall hops :: NodeAt(raw, hops).Some? ==> depth + |hops| <= 8 && Small(NodeAt(raw, hops).value)
  }

  /** Being within bounds, one level at a time. */
  ghost predicate Within(raw: Json, depth: nat)
    requires depth <= MAX_DEPTH + 1
    decreases MAX_DEPTH + 1 - depth, 1
  {
    && depth <= MAX_DEPTH && CapsOk(raw) && PropertiesWithin(PropertiesOf(raw), depth)
    && (Field(raw, "items").Some? ==> Within(Field(raw, "items").value, depth + 1))
  }

  ghost predicate PropertiesWithin(properties: seq<Entry>, depth: nat)
    requires depth <= MAX_DEPTH
    decreases MAX_DEPTH + 1 - depth, 0
  {
    forall i :: 0 <= i < |properties| ==> Within(properties[i].value, depth + 1)
  }

  lemma CheckUnfolds(raw: Json, path: string, depth: nat)
    requires depth <= MAX_DEPTH
    ensures CheckBounds(raw, path, depth).None?
       <==> && CapsOk(raw) && CheckProperties(PropertiesOf(raw), path, depth).None?
            && (Field(raw, "items").Some? ==> CheckBounds(Field(raw, "items").value, path + "[]", depth + 1).None?)
  {
  }

  lemma FirstAndRest(properties: seq<Entry>, depth: nat)
    requires depth <= MAX_DEPTH && properties != []
    ensures PropertiesWithin(properties, depth)
       <==> Within(properties[0].value, depth + 1) && PropertiesWithin(properties[1..], depth)
  {
    assert properties == [properties[0]] + properties[1..];
  }

  lemma {:induction false} CheckPropertiesLevel(properties: seq<Entry>, path: string, depth: nat)
    requires depth <= MAX_DEPTH
    ensures CheckProperties(properties, path, depth).None? <==> PropertiesWithin(properties, depth)
    decreases MAX_DEPTH + 1 - depth, 0, |properties|
  {
    if properties != [] {
      CheckLevel(properties[0].value, Dotted(path, properties[0].key), depth + 1);
      CheckPropertiesLevel(properties[1..], path, depth);
      FirstAndRest(properties, depth);
    }
  }

  lemma {:induction false} CheckLevel(raw: Json, path: string, depth: nat)
    requires depth <= MAX_DEPTH + 1
    ensures CheckBounds(raw, path, depth).None? <==> Within(raw, depth)
    decreases MAX_DEPTH + 1 - depth, 1, 0
  {
    if depth <= MAX_DEPTH {
      CheckPropertiesLevel(PropertiesOf(raw), path, depth);
      if Field(raw, "items").Some? {
        CheckLevel(Field(raw, "items").value, path + "[]", depth + 1);
      }
      LevelFromParts(raw, path, depth, PropertiesOf(raw), Field(raw, "items"));
    }
  }

  lemma LevelFromParts(raw: Json, path: string, depth: nat, properties: seq<Entry>, items: Option<Json>)
    requires depth <= MAX_DEPTH && properties == PropertiesOf(raw) && items == Field(raw, "items")
    requires CheckProperties(properties, path, depth).None? <==> PropertiesWithin(properties, depth)
    requires items.Some? ==> (CheckBounds(items.value, path + "[]", depth + 1).None? <==> Within(items.value, depth + 1))
    ensures CheckBounds(raw, path, depth).None? <==> Within(raw, depth)
  {
    CheckUnfolds(raw, path, depth);
  }

  lemma {:induction false} WithinEverywhere(raw: Json, depth: nat, hops: seq<Hop>)
    requires depth <= MAX_DEPTH + 1 && Within(raw, depth) && NodeAt(raw, hops).Some?
    ensures depth + |hops| <= MAX_DEPTH && CapsOk(NodeAt(raw, hops).value)
    decreases |hops|
  {
    if hops != [] {
      WithinChild(raw, depth, hops[0]);
      WithinEverywhere(Child(raw, hops[0]).value, depth + 1, hops[1..]);
    }
  }

  lemma WithinChild(raw: Json, depth: nat, h: Hop)
    requires depth <= MAX_DEPTH + 1 && Within(raw, depth) && Child(raw, h).Some?
    ensures depth <= MAX_DEPTH && Within(Child(raw, h).value, depth + 1)
  {
    assert PropertiesWithin(PropertiesOf(raw), depth);
  }

  /** Node `hops` breaks a bound. */
  predicate BreaksAt(raw: Json, depth: nat, hops: seq<Hop>) {
    NodeAt(raw, hops).Some? && !(depth + |hops| <= MAX_DEPTH && CapsOk(NodeAt(raw, hops).value))
  }

  /** What is not within bounds has a node that is not. */
  lemma {:induction false} Offender(raw: Json, depth: nat) returns (hops: seq<Hop>)
    requires depth <= MAX_DEPTH + 1 && !Within(raw, depth)
    ensures BreaksAt(raw, depth, hops)
    decreases MAX_DEPTH + 1 - depth
  {
    hops := [];
    if depth <= MAX_DEPTH && CapsOk(raw) {
      var h := OffendingChild(raw, depth);
      var below := Offender(Child(raw, h).value, depth + 1);
      hops := [h] + below;
      BreaksBelow(raw, depth, h, below);
    }
  }

  lemma NodeBelow(raw: Json, h: Hop, below: seq<Hop>)
    requires Child(raw, h).Some?
    ensures NodeAt(raw, [h] + below) == NodeAt(Child(raw, h).value, below)
  {
    assert ([h] + below)[1..] == below;
  }

  lemma BreaksBelow(raw: Json, depth: nat, h: Hop, below: seq<Hop>)
    requires Child(raw, h).Some? && BreaksAt(Child(raw, h).value, depth + 1, below)
    ensures BreaksAt(raw, depth, [h] + below)
  {
    NodeBelow(raw, h, below);
  }

  lemma OffendingChild(raw: Json, depth: nat) returns (h: Hop)
    requires depth <= MAX_DEPTH && CapsOk(raw) && !Within(raw, depth)
    ensures Child(raw, h).Some? && !Within(Child(raw, h).value, depth + 1)
  {
    if PropertiesWithin(PropertiesOf(raw), depth) {
      h := Items;
    } else {
      var i :| 0 <= i < |PropertiesOf(raw)| && !Within(PropertiesOf(raw)[i].value, depth + 1);
      h := Prop(i);
    }
  }

  lemma WithinIff(raw: Json, depth: nat)
    requires depth <= MAX_DEPTH + 1
    ensures Within(raw, depth) <==> Bounded(raw, depth)
  {
    if Within(raw, depth) {
      forall hops | NodeAt(raw, hops).Some?
        ensures depth + |hops| <= 8 && Small(NodeAt(raw, hops).value)
      {
        WithinEverywhere(raw, depth, hops);
        CapsAre(NodeAt(raw, hops).value);
      }
    } else {
      var hops := Offender(raw, depth);
      CapsAre(NodeAt(raw, hops).value);
    }
  }

  /** The check passes exactly when every node reachable through properties or items is within the
      depth and the caps. */
  lemma BoundsIff(raw: Json, path: string, depth: nat)
    requires depth <= MAX_DEPTH + 1
    ensures CheckBounds(raw, path, depth).None? <==> Bounded(raw, depth)
  {
    CheckLevel(raw, path, depth);
    WithinIff(raw, depth);
  }

  // ---------------------------------------------------------------- what a violation says

  function PathText(raw: Json, path: string, hops: seq<Hop>): string
    requires NodeAt(raw, hops).Some?
  {
    if hops == [] then path
    else
      var c := Child(raw, hops[0]).value;
      match hops[0]
      case Prop(i) => PathText(c, Dotted(path, PropertiesOf(raw)[i].key), hops[1..])
      case Items => PathText(c, path + "[]", hops[1..])
  }

  /** The keys on the way down. */
  function KeysTo(raw: Json, hops: seq<Hop>): seq<string>
    requires NodeAt(raw, hops).Some? && forall i :: 0 <= i < |hops| ==> hops[i].Prop?
  {
    if hops == [] then [] else [PropertiesOf(raw)[hops[0].index].key] + KeysTo(Child(raw, hops[0]).value, hops[1..])
  }

  /** A path of properties is their keys with dots between; the items of an array add a pair of brackets. */
  lemma {:induction false} PathJoinsKeys(raw: Json, path: string, hops: seq<Hop>)
    requires NodeAt(raw, hops).Some? && hops != [] && forall i :: 0 <= i < |hops| ==> hops[i].Prop?
    requires forall i :: 0 <= i < |KeysTo(raw, hops)| ==> KeysTo(raw, hops)[i] != ""
    ensures PathText(raw, path, hops)
         == if path == "" then Text.Join(KeysTo(raw, hops), '.') else path + "." + Text.Join(KeysTo(raw, hops), '.')
    decreases |hops|
  {
    var c, key := Child(raw, hops[0]).value, PropertiesOf(raw)[hops[0].index].key;
    var keys, rest := KeysTo(raw, hops), KeysTo(c, hops[1..]);
    assert keys == [key] + rest;
    KeysApart(key, rest, keys);
    if |hops| > 1 {
      PathJoinsKeys(c, Dotted(path, key), hops[1..]);
    }
    JoinedPath(path, key, rest);
  }

  lemma KeysApart(key: string, rest: seq<string>, keys: seq<string>)
    requires keys == [key] + rest && forall i :: 0 <= i < |keys| ==> keys[i] != ""
    ensures key != "" && forall i :: 0 <= i < |rest| ==> rest[i] != ""
  {
    assert keys[0] == key;
    assert forall i :: 0 <= i < |rest| ==> rest[i] == keys[i + 1];
  }

  lemma JoinedPath(path: string, key: string, rest: seq<string>)
    requires key != ""
    ensures Text.Join([key] + rest, '.') == if rest == [] then key else key + "." + Text.Join(rest, '.')
    ensures Dotted(path, key) == if path == "" then key else path + "." + key
    ensures path + "." + (key + "." + Text.Join(rest, '.')) == path + "." + key + "." + Text.Join(rest, '.')
  {
    assert ([key] + rest)[1..] == rest;
  }

  /** `v` names node `hops` and what is wrong with it. */
  predicate Names(raw: Json, path: string, depth: nat, v: Violation, hops: seq<Hop>)
    requires NodeAt(raw, hops).Some?
  {
    var node, at := NodeAt(raw, hops).value, PathText(raw, path, hops);
    match v.reason
    case MaxDepthExceeded => v.path == at && depth + |hops| == MAX_DEPTH + 1
    case EnumTooLarge => v.path == Dotted(at, "enum") && LongArray(Field(node, "enum"), MAX_ENUM)
    case TooManyProperties => v.path == Dotted(at, "properties") && |PropertiesOf(node)| > MAX_PROPERTIES
    case TooManyRequired => v.path == Dotted(at, "required") && LongArray(Field(node, "required"), MAX_REQUIRED)
  }

  lemma {:induction false} PropertyViolation(raw: Json, k: nat, path: string, depth: nat) returns (hops: seq<Hop>)
    requires depth <= MAX_DEPTH && k <= |PropertiesOf(raw)|
    requires CheckProperties(PropertiesOf(raw)[k..], path, depth).Some?
    ensures NodeAt(raw, hops).Some? && Names(raw, path, depth, CheckProperties(PropertiesOf(raw)[k..], path, depth).value, hops)
    decreases MAX_DEPTH + 1 - depth, 0, |PropertiesOf(raw)| - k
  {
    var ps := PropertiesOf(raw);
    assert ps[k..][0] == ps[k] && ps[k..][1..] == ps[k + 1..];
    var sub := Dotted(path, ps[k].key);
    if CheckBounds(ps[k].value, sub, depth + 1).Some? {
      var below := ViolationIsReal(ps[k].value, sub, depth + 1);
      hops := [Prop(k)] + below;
      assert hops[1..] == below;
    } else {
      hops := PropertyViolation(raw, k + 1, path, depth);
    }
  }

  /** A reported violation names a node of the schema and a bound that this node breaks. */
  lemma NamedBelowItems(raw: Json, path: string, depth: nat, v: Violation, below: seq<Hop>)
    requires Child(raw, Items).Some? && NodeAt(Child(raw, Items).value, below).Some?
    requires Names(Child(raw, Items).value, path + "[]", depth + 1, v, below)
    ensures NodeAt(raw, [Items] + below).Some? && Names(raw, path, depth, v, [Items] + below)
  {
    NodeBelow(raw, Items, below);
    assert ([Items] + below)[1..] == below;
  }

  lemma {:induction false} ViolationIsReal(raw: Json, path: string, depth: nat) returns (hops: seq<Hop>)
    requires depth <= MAX_DEPTH + 1 && CheckBounds(raw, path, depth).Some?
    ensures NodeAt(raw, hops).Some? && Names(raw, path, depth, CheckBounds(raw, path, depth).value, hops)
    decreases MAX_DEPTH + 1 - depth, 1, 0
  {
    hops := [];
    if depth <= MAX_DEPTH && CapsOk(raw) {
      assert PropertiesOf(raw)[0..] == PropertiesOf(raw);
      if CheckProperties(PropertiesOf(raw), path, depth).Some? {
        hops := PropertyViolation(raw, 0, path, depth);
      } else {
        var below := ViolationIsReal(Field(raw, "items").value, path + "[]", depth + 1);
        hops := [Items] + below;
        NamedBelowItems(raw, path, depth, CheckBounds(raw, path, depth).value, below);
      }
    } else if depth <= MAX_DEPTH && !LongArray(Field(raw, "enum"), MAX_ENUM) && |PropertiesOf(raw)| <= MAX_PROPERTIES {
      assert PropertiesOf(raw)[0..] == PropertiesOf(raw);
      if CheckProperties(PropertiesOf(raw), path, depth).Some? {
        hops := PropertyViolation(raw, 0, path, depth);
      }
    }
  }
}
