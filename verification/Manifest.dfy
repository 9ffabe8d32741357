/** The staged manifest parser (packages/plugin-protocol/src/envelope.ts) and the two walkers over a
    validated configSchema (packages/plugin-protocol/src/json-schema-subset.ts). */
module Manifest {
  import opened Common
  import opened ConfigSchema

  // ---------------------------------------------------------------- validated schemas

  datatype Node =
    | StringNode(options: Option<seq<string>>, fixed: Option<string>, minLength: Option<int>, maxLength: Option<int>,
                 text: Option<string>, secret: bool)
    | NumberNode(integer: bool, minimum: Option<real>, maximum: Option<real>, number: Option<real>)
    | BooleanNode
    | ArrayNode(items: Node)
    | ObjectNode(properties: seq<Property>)

  datatype Property = Property(key: string, node: Node)

  predicate IsSecret(n: Node) {
    n.StringNode? && n.secret
  }

  /** A default that the field's own constraints allow. */
  predicate DefaultAllowed(n: Node) {
    match n
    case StringNode(options, fixed, minLength, maxLength, text, _) =>
      text.Some? ==>
        && (options.Some? ==> text.value in options.value)
        && (fixed.Some? ==> fixed.value == text.value)
        && (minLength.Some? ==> minLength.value <= |text.value|)
        && (maxLength.Some? ==> |text.value| <= maxLength.value)
    case NumberNode(integer, minimum, maximum, number) =>
      number.Some? ==>
        && (minimum.Some? ==> minimum.value <= number.value)
        && (maximum.Some? ==> number.value <= maximum.value)
        && (integer ==> number.value.Floor as real == number.value)
    case _ => true
  }

  predicate DefaultRefused(n: Node) {
    !DefaultAllowed(n)
  }

  function Step(n: Node, h: Hop): Option<Node> {
    match h
    case Prop(i) => if n.ObjectNode? && i < |n.properties| then Some(n.properties[i].node) else None
    case Items => if n.ArrayNode? then Some(n.items) else None
  }

  function FieldAt(n: Node, hops: seq<Hop>): Option<Node> {
    if hops == [] then Some(n)
    else
      match Step(n, hops[0])
      case None => None
      case Some(c) => FieldAt(c, hops[1..])
  }

  // ---------------------------------------------------------------- the walkers

  /** The paths of the fields at or below `n` for which `bad` holds, in walking order. */
  function Offenders(n: Node, path: string, bad: Node -> bool): seq<string>
    decreases n, 0
  {
    if bad(n) then [path]
    else
      match n
      case ObjectNode(properties) => OffendersOf(n, |properties|, path, bad)
      case ArrayNode(items) => Offenders(items, path + "[]", bad)
      case _ => []
  }

  /** Those below the first `k` properties. */
  function OffendersOf(n: Node, k: nat, path: string, bad: Node -> bool): seq<string>
    requires n.ObjectNode? && k <= |n.properties|
    decreases n, 0, k
  {
    if k == 0 then []
    else
      var p := n.properties[k - 1];
      OffendersOf(n, k - 1, path, bad) + Offenders(p.node, Dotted(path, p.key), bad)
  }

  /** Only leaves can be bad, as in both walkers. */
  ghost predicate LeavesOnly(bad: Node -> bool) {
    forall n: Node :: bad(n) ==> !n.ObjectNode? && !n.ArrayNode?
  }

  class Walker {
    var violations: seq<string>

    constructor ()
      ensures violations == []
    {
      violations := [];
    }

    method Walk(n: Node, path: string, bad: Node -> bool)
      modifies this
      ensures violations == old(violations) + Offenders(n, path, bad)
      decreases n, 0
    {
      if bad(n) {
        violations := violations + [path];
        return;
      }
      if n.ObjectNode? {
        for k := 0 to |n.properties|
          invariant violations == old(violations) + OffendersOf(n, k, path, bad)
        {
          Walk(n.properties[k].node, Dotted(path, n.properties[k].key), bad);
        }
      } else if n.ArrayNode? {
        Walk(n.items, path + "[]", bad);
      }
    }
  }

  method FindInconsistentDefaults(schema: Node) returns (paths: seq<string>)
    ensures paths == Offenders(schema, "", DefaultRefused)
  {
    var w := new Walker();
    w.Walk(schema, "", DefaultRefused);
    paths := w.violations;
  }

  /** What lies below the first `k` properties of the root: the root's own fields are not looked at,
      only their children. */
  function SecretsBelow(schema: Node, k: nat): seq<string>
    requires schema.ObjectNode? && k <= |schema.properties|
  {
    if k == 0 then []
    else SecretsBelow(schema, k - 1) + SecretsUnder(schema.properties[k - 1])
  }

  function SecretsUnder(p: Property): seq<string> {
    match p.node
    case ObjectNode(children) => SecretChildren(p.node, p.key, |children|)
    case ArrayNode(items) => Offenders(items, p.key + "[]", IsSecret)
    case _ => []
  }

  function SecretChildren(n: Node, key: string, k: nat): seq<string>
    requires n.ObjectNode? && k <= |n.properties|
  {
    if k == 0 then []
    else
      SecretChildren(n, key, k - 1)
      + Offenders(n.properties[k - 1].node, key + "." + n.properties[k - 1].key, IsSecret)
  }

  /** The children of one root field. */
  method WalkChildren(w: Walker, p: Property)
    modifies w
    ensures w.violations == old(w.violations) + SecretsUnder(p)
  {
    if p.node.ObjectNode? {
      for j := 0 to |p.node.properties|
        invariant w.violations == old(w.violations) + SecretChildren(p.node, p.key, j)
      {
        w.Walk(p.node.properties[j].node, p.key + "." + p.node.properties[j].key, IsSecret);
      }
    } else if p.node.ArrayNode? {
      w.Walk(p.node.items, p.key + "[]", IsSecret);
    }
  }

  method FindSecretBelowRoot(schema: Node) returns (paths: seq<string>)
    requires schema.ObjectNode?
    ensures paths == SecretsBelow(schema, |schema.properties|)
  {
    var w := new Walker();
    for k := 0 to |schema.properties|
      invariant w.violations == SecretsBelow(schema, k)
    {
      WalkChildren(w, schema.properties[k]);
    }
    paths := w.violations;
  }

  function TopLevelSecrets(schema: Node, k: nat): seq<string>
    requires schema.ObjectNode? && k <= |schema.properties|
  {
    if k == 0 then []
    else
      TopLevelSecrets(schema, k - 1) + (if IsSecret(schema.properties[k - 1].node) then [schema.properties[k - 1].key] else [])
  }

  // ---------------------------------------------------------------- what the walkers find

  /** No field at or below `n` is bad. */
  ghost predicate NoneBad(n: Node, bad: Node -> bool) {
    forall hops :: FieldAt(n, hops).Some? ==> !bad(FieldAt(n, hops).value)
  }

  lemma StepNoneBad(n: Node, h: Hop, bad: Node -> bool)
    requires NoneBad(n, bad) && Step(n, h).Some?
    ensures NoneBad(Step(n, h).value, bad)
  {
    var c := Step(n, h).value;
    forall hops | FieldAt(c, hops).Some?
      ensures !bad(FieldAt(c, hops).value)
    {
      assert ([h] + hops)[1..] == hops;
      assert FieldAt(n, [h] + hops) == FieldAt(c, hops);
    }
  }

  lemma NoneBadByParts(n: Node, bad: Node -> bool)
    ensures NoneBad(n, bad) <==> !bad(n) && forall h :: Step(n, h).Some? ==> NoneBad(Step(n, h).value, bad)
  {
    assert FieldAt(n, []) == Some(n);
    if NoneBad(n, bad) {
      forall h | Step(n, h).Some?
        ensures NoneBad(Step(n, h).value, bad)
      {
        StepNoneBad(n, h, bad);
      }
    } else if !bad(n) && forall h :: Step(n, h).Some? ==> NoneBad(Step(n, h).value, bad) {
      forall hops | FieldAt(n, hops).Some?
        ensures !bad(FieldAt(n, hops).value)
      {
        if hops != [] {
          assert FieldAt(Step(n, hops[0]).value, hops[1..]).Some?;
        }
      }
    }
  }

  lemma {:induction false} OffendersIff(n: Node, path: string, bad: Node -> bool)
    requires LeavesOnly(bad)
    ensures Offenders(n, path, bad) == [] <==> NoneBad(n, bad)
    decreases n, 0
  {
    NoneBadByParts(n, bad);
    match n
    case ObjectNode(properties) => {
      OffendersOfIff(n, |properties|, path, bad);
      assert forall i: nat :: i < |properties| ==> Step(n, Prop(i)) == Some(properties[i].node);
    }
    case ArrayNode(items) => {
      OffendersIff(items, path + "[]", bad);
      assert Step(n, Items) == Some(items);
    }
    case _ =>
  }

  lemma {:induction false} OffendersOfIff(n: Node, k: nat, path: string, bad: Node -> bool)
    requires LeavesOnly(bad) && n.ObjectNode? && k <= |n.properties|
    ensures OffendersOf(n, k, path, bad) == [] <==> forall i: nat :: i < k ==> NoneBad(n.properties[i].node, bad)
    decreases n, 0, k
  {
    if k > 0 {
      var p := n.properties[k - 1];
      OffendersOfIff(n, k - 1, path, bad);
      OffendersIff(p.node, Dotted(path, p.key), bad);
    }
  }

  predicate IsInt(x: real, k: int) {
    x == k as real
  }

  /** A field without a default, or whose default is one it would accept as a value: a text that is one
      of the options, equals the fixed text and has an allowed length, or a number within the limits
      and whole where only whole numbers are. */
  ghost predicate AcceptsItsDefault(n: Node) {
    match n
    case StringNode(options, fixed, minLength, maxLength, Some(text), _) =>
      && (options == None || text in options.value) && (fixed == None || fixed == Some(text))
      && minLength.GetOr(0) <= |text| && (maxLength == None || |text| <= maxLength.value)
    case NumberNode(integer, minimum, maximum, Some(x)) =>
      && minimum.GetOr(x) <= x <= maximum.GetOr(x) && (integer ==> exists k: int :: IsInt(x, k))
    case _ => true
  }

  lemma AllowedIffAccepted(n: Node)
    ensures DefaultAllowed(n) <==> AcceptsItsDefault(n)
  {
    match n
    case NumberNode(integer, minimum, maximum, Some(x)) =>
      assert x.Floor as real == x ==> IsInt(x, x.Floor);
    case _ =>
  }

  /** The default check passes exactly when every field of the schema accepts its own default. */
  lemma DefaultsConsistentIff(schema: Node)
    ensures Offenders(schema, "", DefaultRefused) == []
       <==> forall hops :: FieldAt(schema, hops).Some? ==> AcceptsItsDefault(FieldAt(schema, hops).value)
  {
    OffendersIff(schema, "", DefaultRefused);
    var bad := DefaultRefused;
    forall n: Node
      ensures bad(n) <==> !AcceptsItsDefault(n)
    {
      AllowedIffAccepted(n);
    }
    if NoneBad(schema, bad) {
      forall hops | FieldAt(schema, hops).Some?
        ensures AcceptsItsDefault(FieldAt(schema, hops).value)
      {
        assert !bad(FieldAt(schema, hops).value);
      }
    } else {
      var hops :| FieldAt(schema, hops).Some? && bad(FieldAt(schema, hops).value);
      assert !AcceptsItsDefault(FieldAt(schema, hops).value);
    }
  }

  lemma {:induction false} SecretChildrenIff(n: Node, key: string, k: nat)
    requires n.ObjectNode? && k <= |n.properties|
    ensures SecretChildren(n, key, k) == [] <==> forall i: nat :: i < k ==> NoneBad(n.properties[i].node, IsSecret)
  {
    if k > 0 {
      SecretChildrenIff(n, key, k - 1);
      OffendersIff(n.properties[k - 1].node, key + "." + n.properties[k - 1].key, IsSecret);
    }
  }

  /** Nothing below this field, the field itself apart, is a secret. */
  ghost predicate NoSecretUnder(n: Node) {
    forall h :: Step(n, h).Some? ==> NoneBad(Step(n, h).value, IsSecret)
  }

  lemma UnderIff(p: Property)
    ensures SecretsUnder(p) == [] <==> NoSecretUnder(p.node)
  {
    match p.node
    case ObjectNode(children) => {
      SecretChildrenIff(p.node, p.key, |children|);
      assert forall i: nat :: i < |children| ==> Step(p.node, Prop(i)) == Some(children[i].node);
    }
    case ArrayNode(items) => {
      OffendersIff(items, p.key + "[]", IsSecret);
      assert Step(p.node, Items) == Some(items);
    }
    case _ =>
  }

  lemma {:induction false} NoSecretsBelow(schema: Node, k: nat, i: nat)
    requires schema.ObjectNode? && i < k <= |schema.properties| && SecretsBelow(schema, k) == []
    ensures SecretsUnder(schema.properties[i]) == []
  {
    var front, last := SecretsBelow(schema, k - 1), SecretsUnder(schema.properties[k - 1]);
    assert |front + last| == |front| + |last|;
    if i < k - 1 {
      NoSecretsBelow(schema, k - 1, i);
    }
  }

  lemma {:induction false} SomeSecretBelow(schema: Node, k: nat) returns (i: nat)
    requires schema.ObjectNode? && k <= |schema.properties| && SecretsBelow(schema, k) != []
    ensures i < k && SecretsUnder(schema.properties[i]) != []
  {
    i := k - 1;
    if SecretsUnder(schema.properties[i]) == [] {
      i := SomeSecretBelow(schema, k - 1);
    }
  }

  /** The secret check passes exactly when every secret field, at any depth, is a property of the root. */
  lemma SecretsAreTopLevelIff(schema: Node)
    requires schema.ObjectNode?
    ensures SecretsBelow(schema, |schema.properties|) == []
       <==> forall hops :: (FieldAt(schema, hops).Some? && FieldAt(schema, hops).value.StringNode?
                            && FieldAt(schema, hops).value.secret) ==> |hops| == 1
  {
    forall i: nat | i < |schema.properties|
      ensures SecretsUnder(schema.properties[i]) == [] <==> DeepOnly(schema, i)
    {
      UnderIff(schema.properties[i]);
      UnderIsDeep(schema, i);
    }
    var clean := SecretsBelow(schema, |schema.properties|) == [];
    if clean {
      forall i: nat | i < |schema.properties|
        ensures DeepOnly(schema, i)
      {
        NoSecretsBelow(schema, |schema.properties|, i);
      }
    } else {
      var i := SomeSecretBelow(schema, |schema.properties|);
      assert !DeepOnly(schema, i);
    }
    forall hops: seq<Hop> | FieldAt(schema, hops).Some? && IsSecret(FieldAt(schema, hops).value) && |hops| != 1
      ensures hops[0].Prop? && hops[0].index < |schema.properties| && !DeepOnly(schema, hops[0].index)
    {
    }
    if exists i: nat :: i < |schema.properties| && !DeepOnly(schema, i) {
      var i: nat :| i < |schema.properties| && !DeepOnly(schema, i);
      var hops :| |hops| >= 2 && hops[0] == Prop(i) && FieldAt(schema, hops).Some? && IsSecret(FieldAt(schema, hops).value);
    }
  }

  /** No secret two or more steps below the root through property `i`. */
  ghost predicate DeepOnly(schema: Node, i: nat) {
    forall hops :: |hops| >= 2 && hops[0] == Prop(i) && FieldAt(schema, hops).Some? ==> !IsSecret(FieldAt(schema, hops).value)
  }

  lemma UnderIsDeep(schema: Node, i: nat)
    requires schema.ObjectNode? && i < |schema.properties|
    ensures NoSecretUnder(schema.properties[i].node) <==> DeepOnly(schema, i)
  {
    var n := schema.properties[i].node;
    if NoSecretUnder(n) {
      forall hops | |hops| >= 2 && hops[0] == Prop(i) && FieldAt(schema, hops).Some?
        ensures !IsSecret(FieldAt(schema, hops).value)
      {
        assert FieldAt(n, hops[1..]).Some?;
        assert FieldAt(Step(n, hops[1]).value, hops[1..][1..]).Some?;
      }
    }
    if DeepOnly(schema, i) {
      forall h, rest | Step(n, h).Some? && FieldAt(Step(n, h).value, rest).Some?
        ensures !IsSecret(FieldAt(Step(n, h).value, rest).value)
      {
        var hops := [Prop(i), h] + rest;
        assert hops[1..] == [h] + rest && hops[1..][1..] == rest;
        assert FieldAt(n, hops[1..]) == FieldAt(Step(n, h).value, rest);
        assert FieldAt(schema, hops) == FieldAt(n, hops[1..]);
      }
    }
  }

  /** The host's list names exactly the secret properties of the root. */
  lemma {:induction false} TopLevelSecretsExactly(schema: Node, k: nat, key: string)
    requires schema.ObjectNode? && k <= |schema.properties|
    ensures key in TopLevelSecrets(schema, k)
       <==> exists i :: && 0 <= i < k && schema.properties[i].key == key
                        && schema.properties[i].node.StringNode? && schema.properties[i].node.secret
  {
    if k > 0 {
      TopLevelSecretsExactly(schema, k - 1, key);
    }
  }

  // ---------------------------------------------------------------- the staged parser

  const PROTOCOL_VERSION := 1.0

  datatype Envelope = Envelope(
    name: string, version: string, protocolVersion: real, capabilities: seq<Json>, configSchema: Json,
    description: string, publisher: string)

  datatype Stage = EnvelopeStage | VersionStage | CapabilityStage | BoundsStage | ShapeStage | SecretStage | DefaultStage

  /** What a rejection reports beside its stage, as far as this model goes. */
  datatype Found = Issues | BrokenBound(violation: Violation) | Fields(paths: seq<string>)

  datatype Parsed = Accepted(envelope: Envelope, config: Node) | Rejected(stage: Stage, found: Found)

  /** What the schema library makes of a configSchema. */
  datatype Shape = Shaped(node: Node) | Misshapen | Threw

  /** The schema library's own validation: of the envelope, of each capability list, and of a
      configSchema's shape. */
  datatype Shapes = Shapes(
    envelope: Json -> Option<Envelope>, capabilitiesOk: seq<Json> -> bool, config: Json -> Shape)

  /** A configSchema that is accepted is an object's. */
  ghost predicate ShapesObjects(shapes: Shapes) {
    forall j :: shapes.config(j).Shaped? ==> shapes.config(j).node.ObjectNode?
  }

  const THREW := Rejected(BoundsStage, BrokenBound(Violation("", MaxDepthExceeded)))

  method ParseLppManifest(raw: Json, shapes: Shapes) returns (r: Parsed)
    requires ShapesObjects(shapes)
    ensures r == ParsedOf(raw, shapes)
  {
    var envelope := shapes.envelope(raw);
    if envelope.None? {
      return Rejected(EnvelopeStage, Issues);
    }
    var data := envelope.value;
    if data.protocolVersion != PROTOCOL_VERSION {
      return Rejected(VersionStage, Issues);
    }
    if !shapes.capabilitiesOk(data.capabilities) {
      return Rejected(CapabilityStage, Issues);
    }
    var violation := CheckBounds(data.configSchema, "", 1);
    if violation.Some? {
      return Rejected(BoundsStage, BrokenBound(violation.value));
    }
    var config := shapes.config(data.configSchema);
    if config.Threw? {
      return THREW;
    }
    if config.Misshapen? {
      return Rejected(ShapeStage, Issues);
    }
    var secrets := FindSecretBelowRoot(config.node);
    if |secrets| > 0 {
      return Rejected(SecretStage, Fields(secrets));
    }
    var defaults := FindInconsistentDefaults(config.node);
    if |defaults| > 0 {
      return Rejected(DefaultStage, Fields(defaults));
    }
    r := Accepted(data, config.node);
  }

  /** The checks in order; each presupposes the ones before it. */
  ghost function ParsedOf(raw: Json, shapes: Shapes): Parsed
    requires ShapesObjects(shapes)
  {
    if shapes.envelope(raw).None? then Rejected(EnvelopeStage, Issues)
    else
      var data := shapes.envelope(raw).value;
      var violation, config := CheckBounds(data.configSchema, "", 1), shapes.config(data.configSchema);
      if data.protocolVersion != PROTOCOL_VERSION then Rejected(VersionStage, Issues)
      else if !shapes.capabilitiesOk(data.capabilities) then Rejected(CapabilityStage, Issues)
      else if violation.Some? then Rejected(BoundsStage, BrokenBound(violation.value))
      else
        match config
        case Threw => THREW
        case Misshapen => Rejected(ShapeStage, Issues)
        case Shaped(n) =>
          var secrets := SecretsBelow(n, |n.properties|);
          if secrets != [] then Rejected(SecretStage, Fields(secrets))
          else
            var defaults := Offenders(n, "", DefaultRefused);
            if defaults != [] then Rejected(DefaultStage, Fields(defaults)) else Accepted(data, n)
  }

  /** The schema library keeps the structure of what it validates: it adds no levels and no fields. */
  predicate Mirrors(n: Node, raw: Json)
    decreases n
  {
    match n
    case ObjectNode(properties) =>
      && |properties| == |PropertiesOf(raw)|
      && forall i :: 0 <= i < |properties| ==>
           properties[i].key == PropertiesOf(raw)[i].key && Mirrors(properties[i].node, PropertiesOf(raw)[i].value)
    case ArrayNode(items) => Field(raw, "items").Some? && Mirrors(items, Field(raw, "items").value)
    case _ => true
  }

  lemma {:induction false} MirroredField(n: Node, raw: Json, hops: seq<Hop>)
    requires Mirrors(n, raw) && FieldAt(n, hops).Some?
    ensures NodeAt(raw, hops).Some? && Mirrors(FieldAt(n, hops).value, NodeAt(raw, hops).value)
    decreases |hops|
  {
    if hops != [] {
      MirroredField(Step(n, hops[0]).value, Child(raw, hops[0]).value, hops[1..]);
    }
  }

  lemma FieldIsBounded(n: Node, raw: Json, hops: seq<Hop>)
    requires Mirrors(n, raw) && Bounded(raw, 1) && FieldAt(n, hops).Some?
    ensures |hops| < MAX_DEPTH
    ensures FieldAt(n, hops).value.ObjectNode? ==> |FieldAt(n, hops).value.properties| <= MAX_PROPERTIES
  {
    MirroredField(n, raw, hops);
  }

  lemma SecretIsListed(config: Node, hops: seq<Hop>)
    requires config.ObjectNode? && |hops| == 1 && FieldAt(config, hops).Some? && IsSecret(FieldAt(config, hops).value)
    ensures hops[0].Prop? && hops[0].index < |config.properties|
    ensures config.properties[hops[0].index].key in TopLevelSecrets(config, |config.properties|)
  {
    assert FieldAt(config, hops) == Step(config, hops[0]);
    TopLevelSecretsExactly(config, |config.properties|, config.properties[hops[0].index].key);
  }

  /** A manifest is accepted exactly when every stage passes: and then its schema is at most eight
      levels deep with at most 200 properties a level, every secret is a top-level field that the host
      lists as one, and every default satisfies its own field. */
  lemma AcceptedSchemasAreSafe(raw: Json, shapes: Shapes)
    requires ShapesObjects(shapes) && forall j :: shapes.config(j).Shaped? ==> Mirrors(shapes.config(j).node, j)
    requires ParsedOf(raw, shapes).Accepted?
    ensures var config := ParsedOf(raw, shapes).config;
            && config.ObjectNode?
            && forall hops: seq<Hop> :: FieldAt(config, hops).Some? ==>
                 var n := FieldAt(config, hops).value;
                 && |hops| < MAX_DEPTH && (n.ObjectNode? ==> |n.properties| <= MAX_PROPERTIES)
                 && AcceptsItsDefault(n)
                 && (n.StringNode? && n.secret ==> |hops| == 1 && config.properties[hops[0].index].key in TopLevelSecrets(config, |config.properties|))
  {
    var data, config := ParsedOf(raw, shapes).envelope, ParsedOf(raw, shapes).config;
    BoundsIff(data.configSchema, "", 1);
    SecretsAreTopLevelIff(config);
    DefaultsConsistentIff(config);
    forall hops: seq<Hop> | FieldAt(config, hops).Some?
      ensures |hops| < MAX_DEPTH
      ensures FieldAt(config, hops).value.ObjectNode? ==> |FieldAt(config, hops).value.properties| <= MAX_PROPERTIES
      ensures IsSecret(FieldAt(config, hops).value)
              ==> |hops| == 1 && config.properties[hops[0].index].key in TopLevelSecrets(config, |config.properties|)
    {
      FieldIsBounded(config, data.configSchema, hops);
      if IsSecret(FieldAt(config, hops).value) {
        SecretIsListed(config, hops);
      }
    }
  }

  ghost predicate Passes(raw: Json, shapes: Shapes, stage: Stage)
    requires ShapesObjects(shapes)
    requires shapes.envelope(raw).Some? || stage.EnvelopeStage?
  {
    match stage
    case EnvelopeStage => shapes.envelope(raw).Some?
    case VersionStage => shapes.envelope(raw).value.protocolVersion == PROTOCOL_VERSION
    case CapabilityStage => shapes.capabilitiesOk(shapes.envelope(raw).value.capabilities)
    case BoundsStage =>
      var schema := shapes.envelope(raw).value.configSchema;
      CheckBounds(schema, "", 1).None? && !shapes.config(schema).Threw?
    case ShapeStage => !shapes.config(shapes.envelope(raw).value.configSchema).Misshapen?
    case SecretStage =>
      var config := shapes.config(shapes.envelope(raw).value.configSchema);
      config.Shaped? ==> SecretsBelow(config.node, |config.node.properties|) == []
    case DefaultStage =>
      var config := shapes.config(shapes.envelope(raw).value.configSchema);
      config.Shaped? ==> Offenders(config.node, "", DefaultRefused) == []
  }

  const STAGES := [EnvelopeStage, VersionStage, CapabilityStage, BoundsStage, ShapeStage, SecretStage, DefaultStage]

  /** A rejection names the first stage that fails, and a manifest that no stage fails is accepted. */
  lemma RejectionNamesTheFirstFailure(raw: Json, shapes: Shapes)
    requires ShapesObjects(shapes)
    ensures match ParsedOf(raw, shapes)
            case Rejected(stage, _) =>
              exists k :: 0 <= k < |STAGES| && STAGES[k] == stage && FirstFailure(raw, shapes, k)
            case Accepted(envelope, config) =>
              && shapes.envelope(raw) == Some(envelope) && shapes.config(envelope.configSchema) == Shaped(config)
              && forall stage :: Passes(raw, shapes, stage)
  {
    match ParsedOf(raw, shapes)
    case Rejected(stage, _) =>
      var k := match stage
        case EnvelopeStage => 0
        case VersionStage => 1
        case CapabilityStage => 2
        case BoundsStage => 3
        case ShapeStage => 4
        case SecretStage => 5
        case DefaultStage => 6;
      assert STAGES[k] == stage && FirstFailure(raw, shapes, k);
    case Accepted(envelope, config) =>
  }

  ghost predicate FirstFailure(raw: Json, shapes: Shapes, k: nat)
    requires k < |STAGES|
    requires ShapesObjects(shapes)
  {
    if k == 0 then shapes.envelope(raw).None?
    else
      && shapes.envelope(raw).Some? && !Passes(raw, shapes, STAGES[k])
      && forall i :: 0 <= i < k ==> Passes(raw, shapes, STAGES[i])
  }
}
