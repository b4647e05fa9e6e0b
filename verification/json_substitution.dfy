/** `JsonSubstitution.substituteJsonVariable` of
    src/operations/jsonVariableSubstitutionUtility.ts: walks the keys of a JSON
    document, resolves each key's dotted segments against an environment
    tree, and overwrites a value with a type-directed coercion of the
    environment string, or recurses when the key names an interior node.

    The in-place mutation becomes a function returning the new document and
    the "changed" flag. `JSON.parse`, `isNaN`/`Number` and the environment
    lookup (`checkEnvTreePath`) are fields of a `Host` value. */
module JsonSubstitution {
  import opened Results
  import opened JsString

  /** A JSON value. Object members keep the order `for…in` visits them. */
  datatype Json =
    | JNull
    | JBool(b: bool)
    | JNumber(n: real)
    | JString(s: string)
    | JArray(items: seq<Json>)
    | JObject(fields: seq<Field>)

  datatype Field = Field(key: string, value: Json)

  /** The answers of JavaScript's `typeof` on a JSON value. */
  datatype JsType = NumberType | BooleanType | StringType | ObjectType

  /** `typeof`: null and arrays are `'object'` too, so the `case null` label of
      the coercion switch has no value that reaches it. */
  function TypeOf(j: Json): (t: JsType)
    ensures t == ObjectType <==> j.JNull? || j.JArray? || j.JObject?
  {
    match j
    case JNumber(_) => NumberType
    case JBool(_) => BooleanType
    case JString(_) => StringType
    case _ => ObjectType
  }

  /** What the environment tree answers for a path of segments. */
  datatype EnvHit<E> = NotFound | Terminal(value: string) | Interior(node: E)

  /** The collaborators substitution consults. */
  datatype Host<!E> = Host(
    lookup: (seq<string>, E) -> EnvHit<E>,   // checkEnvTreePath(segments, 0, n, env)
    parseJson: string -> Option<Json>,       // JSON.parse; None when it throws
    isNumericText: string -> bool,           // !isNaN(v)
    toNumber: string -> real)                // Number(v)

  /** The coercion switch, keyed on the type of the value being replaced. */
  function Coerce<E>(current: Json, v: string, host: Host<E>): (r: Json)
    ensures TypeOf(current) == NumberType ==>
              r == (if host.isNumericText(v) then JNumber(host.toNumber(v)) else JString(v))
    ensures TypeOf(current) == BooleanType ==>
              r == (if v == "true" then JBool(true) else if v == "false" then JBool(false) else JString(v))
    ensures TypeOf(current) == ObjectType ==>
              r == (if host.parseJson(v).Some? then host.parseJson(v).value else JString(v))
    ensures TypeOf(current) == StringType ==>
              (r == JString(v) || (host.parseJson(v) == Some(r) && (r.JObject? || r.JArray?)))
              && (host.parseJson(v).Some? && (host.parseJson(v).value.JObject? || host.parseJson(v).value.JArray?)
                  ==> r == host.parseJson(v).value)
  {
    match TypeOf(current)
    case NumberType =>
      if host.isNumericText(v) then JNumber(host.toNumber(v)) else JString(v)
    case BooleanType =>
      if v == "true" then JBool(true) else if v == "false" then JBool(false) else JString(v)
    case ObjectType =>
      (match host.parseJson(v)
       case Some(parsed) => parsed
       case None => JString(v))
    case StringType =>
      (match host.parseJson(v)
       case Some(parsed) =>
         if parsed.JObject? || parsed.JArray? then parsed else JString(v)
       case None => JString(v))
  }

  /** The result of substituting into one value: the new value and whether
      anything was assigned. */
  datatype Outcome = Outcome(doc: Json, changed: bool)

  /** The keys `for…in` yields: member names of an object, decimal indices of
      an array, none for a scalar. */
  function Keys(j: Json): (r: seq<string>)
    ensures j.JObject? ==> |r| == |j.fields| && forall k :: 0 <= k < |r| ==> r[k] == j.fields[k].key
    ensures j.JArray? ==> |r| == |j.items|
    ensures !j.JObject? && !j.JArray? ==> r == []
  {
    match j
    case JObject(fs) => seq(|fs|, k requires 0 <= k < |fs| => fs[k].key)
    case JArray(items) => seq(|items|, k requires 0 <= k < |items| => NatToString(k))
    case _ => []
  }

  /** `substituteJsonVariable(jsonObject, envObject)`. Every key is visited
      and the flag is the OR of all entries: the recursive call sits left of
      `||`, so no later entry is skipped. Scalars have no keys to visit, so
      they come back unchanged with `false`. */
  function Substitute<E>(doc: Json, env: E, host: Host<E>): (r: Outcome)
    ensures !r.changed ==> r.doc == doc
    ensures doc.JObject? <==> r.doc.JObject?
    ensures doc.JArray? <==> r.doc.JArray?
    ensures Keys(r.doc) == Keys(doc)
    ensures !doc.JObject? && !doc.JArray? ==> r == Outcome(doc, false)
    decreases doc, 3, 0
  {
    match doc
    case JObject(fs) =>
      var outs := FieldOutcomes(fs, env, host);
      UnchangedFields(fs, outs);
      assert Keys(JObject(WithValues(fs, outs))) == Keys(doc);
      Outcome(JObject(WithValues(fs, outs)), AnyChanged(outs))
    case JArray(items) =>
      var outs := ItemOutcomes(items, Keys(doc), env, host);
      UnchangedItems(items, outs);
      Outcome(JArray(Docs(outs)), AnyChanged(outs))
    case _ => Outcome(doc, false)
  }

  /** The loop body for one key: split it on `.`, look it up, and either
      leave the value (miss), coerce into it (terminal), or recurse into it
      with the node found (interior). */
  function SubstituteEntry<E>(key: string, value: Json, env: E, host: Host<E>): (r: Outcome)
    ensures host.lookup(Split(key, '.'), env).NotFound? ==> r == Outcome(value, false)
    ensures host.lookup(Split(key, '.'), env).Terminal? ==>
              r == Outcome(Coerce(value, host.lookup(Split(key, '.'), env).value, host), true)
    ensures !r.changed ==> r.doc == value
    decreases value, 4, 0
  {
    match host.lookup(Split(key, '.'), env)
    case NotFound => Outcome(value, false)
    case Terminal(v) => Outcome(Coerce(value, v, host), true)
    case Interior(node) => Substitute(value, node, host)
  }

  /** The loop over the members of an object: one outcome per member, in
      visiting order. */
  function FieldOutcomes<E>(fs: seq<Field>, env: E, host: Host<E>): (r: seq<Outcome>)
    ensures |r| == |fs|
    ensures forall k :: 0 <= k < |r| ==> r[k] == SubstituteEntry(fs[k].key, fs[k].value, env, host)
    decreases JObject(fs), 2
  {
    seq(|fs|, k requires 0 <= k < |fs| => SubstituteEntry(fs[k].key, fs[k].value, env, host))
  }

  /** The loop over the elements of an array; `keys` are the array's
      `for…in` keys, its decimal indices. */
  function ItemOutcomes<E>(items: seq<Json>, keys: seq<string>, env: E, host: Host<E>): (r: seq<Outcome>)
    requires |keys| == |items|
    ensures |r| == |items|
    ensures forall k :: 0 <= k < |r| ==> r[k] == SubstituteEntry(keys[k], items[k], env, host)
    decreases JArray(items), 2
  {
    seq(|items|, k requires 0 <= k < |items| => SubstituteEntry(keys[k], items[k], env, host))
  }

  /** `isValueChanged` after the loop: whether any entry assigned. */
  predicate AnyChanged(outs: seq<Outcome>) {
    exists k :: 0 <= k < |outs| && outs[k].changed
  }

  /** The new values, in order. */
  function Docs(outs: seq<Outcome>): (r: seq<Json>)
    ensures |r| == |outs| && forall k :: 0 <= k < |r| ==> r[k] == outs[k].doc
  {
    seq(|outs|, k requires 0 <= k < |outs| => outs[k].doc)
  }

  /** The members with their new values, keys and order kept. */
  function WithValues(fs: seq<Field>, outs: seq<Outcome>): (r: seq<Field>)
    requires |outs| == |fs|
    ensures |r| == |fs| && forall k :: 0 <= k < |r| ==> r[k] == Field(fs[k].key, outs[k].doc)
  {
    seq(|fs|, k requires 0 <= k < |fs| => Field(fs[k].key, outs[k].doc))
  }

  /** When no entry assigned, every array element is the one it was. */
  lemma UnchangedItems(items: seq<Json>, outs: seq<Outcome>)
    requires |outs| == |items|
    requires forall k :: 0 <= k < |outs| && !outs[k].changed ==> outs[k].doc == items[k]
    ensures !AnyChanged(outs) ==> Docs(outs) == items
  {
  }

  /** When no entry assigned, every member is the one it was. */
  lemma UnchangedFields(fs: seq<Field>, outs: seq<Outcome>)
    requires |outs| == |fs|
    requires forall k :: 0 <= k < |outs| && !outs[k].changed ==> outs[k].doc == fs[k].value
    ensures !AnyChanged(outs) ==> WithValues(fs, outs) == fs
  {
  }

  /** The coercion looks only at the `typeof` of the old value; in particular
      a null slot is coerced exactly like an object or array slot. */
  lemma CoerceDependsOnlyOnType<E>(a: Json, b: Json, v: string, host: Host<E>)
    requires TypeOf(a) == TypeOf(b)
    ensures Coerce(a, v, host) == Coerce(b, v, host)
  {
  }

  /** Array indices never contain `.`, so an element is looked up under its
      index as a single segment. */
  lemma IndexKeyIsOneSegment(i: nat)
    ensures Split(NatToString(i), '.') == [NatToString(i)]
  {
    var key := NatToString(i);
    assert forall k :: 0 <= k < |key| ==> key[k] != '.';
    DotFreeKey(key);
  }

  /** The keys of an array are one segment each and pairwise distinct, so
      every element is visited once, under a key that names only it. */
  lemma ArrayKeys(items: seq<Json>)
    ensures var r := Keys(JArray(items));
            && (forall k :: 0 <= k < |r| ==> Split(r[k], '.') == [r[k]])
            && (forall i, j :: 0 <= i < j < |r| ==> r[i] != r[j])
  {
    var r := Keys(JArray(items));
    forall k | 0 <= k < |r|
      ensures Split(r[k], '.') == [r[k]]
    {
      IndexKeyIsOneSegment(k);
    }
    forall i, j | 0 <= i < j < |r|
      ensures r[i] != r[j]
    {
      NatToStringValue(i);
      NatToStringValue(j);
    }
  }

  /** What happens to member `k` of an object: a miss leaves it alone, a
      terminal hit stores the coerced string and marks the document changed,
      an interior hit stores the result of recursing into it with the node
      found and passes its flag up. No member is added or removed. */
  lemma ObjectMemberOutcome<E>(fs: seq<Field>, env: E, host: Host<E>, k: nat)
    requires k < |fs|
    ensures var r := Substitute(JObject(fs), env, host);
            var f := fs[k];
            var hit := host.lookup(Split(f.key, '.'), env);
            && r.doc.JObject? && |r.doc.fields| == |fs| && r.doc.fields[k].key == f.key
            && (hit.NotFound? ==> r.doc.fields[k].value == f.value)
            && (hit.Terminal? ==> r.doc.fields[k].value == Coerce(f.value, hit.value, host) && r.changed)
            && (hit.Interior? ==>
                  r.doc.fields[k].value == Substitute(f.value, hit.node, host).doc
                  && (Substitute(f.value, hit.node, host).changed ==> r.changed))
  {
    var outs := FieldOutcomes(fs, env, host);
    assert outs[k] == SubstituteEntry(fs[k].key, fs[k].value, env, host);
  }

  /** The same for element `k` of an array, looked up under its index. */
  lemma ArrayElementOutcome<E>(items: seq<Json>, env: E, host: Host<E>, k: nat)
    requires k < |items|
    ensures var r := Substitute(JArray(items), env, host);
            var hit := host.lookup([NatToString(k)], env);
            && r.doc.JArray? && |r.doc.items| == |items|
            && (hit.NotFound? ==> r.doc.items[k] == items[k])
            && (hit.Terminal? ==> r.doc.items[k] == Coerce(items[k], hit.value, host) && r.changed)
            && (hit.Interior? ==>
                  r.doc.items[k] == Substitute(items[k], hit.node, host).doc
                  && (Substitute(items[k], hit.node, host).changed ==> r.changed))
  {
    IndexKeyIsOneSegment(k);
    var outs := ItemOutcomes(items, Keys(JArray(items)), env, host);
    assert outs[k] == SubstituteEntry(NatToString(k), items[k], env, host);
  }

  /** Whether the entry under `key` assigns anything: its key resolves to a
      terminal value, or to an interior node whose recursion assigns. */
  predicate Assigns<E>(key: string, value: Json, env: E, host: Host<E>)
    decreases value, 5, 0
  {
    var hit := host.lookup(Split(key, '.'), env);
    hit.Terminal? || (hit.Interior? && Substitute(value, hit.node, host).changed)
  }

  /** An entry reports a change exactly when it assigns. */
  lemma EntryChanged<E>(key: string, value: Json, env: E, host: Host<E>)
    ensures SubstituteEntry(key, value, env, host).changed <==> Assigns(key, value, env, host)
  {
  }

  /** `isValueChanged` for an object is the OR over its members: it is true
      exactly when some member assigns. */
  lemma ObjectChanged<E>(fs: seq<Field>, env: E, host: Host<E>)
    ensures Substitute(JObject(fs), env, host).changed
            <==> exists k :: 0 <= k < |fs| && Assigns(fs[k].key, fs[k].value, env, host)
  {
    var outs := FieldOutcomes(fs, env, host);
    forall k | 0 <= k < |fs|
      ensures outs[k].changed <==> Assigns(fs[k].key, fs[k].value, env, host)
    {
      EntryChanged(fs[k].key, fs[k].value, env, host);
    }
  }

  /** The same for an array, each element looked up under its index. */
  lemma ArrayChanged<E>(items: seq<Json>, env: E, host: Host<E>)
    ensures Substitute(JArray(items), env, host).changed
            <==> exists k :: 0 <= k < |items| && Assigns(NatToString(k), items[k], env, host)
  {
    var keys := Keys(JArray(items));
    var outs := ItemOutcomes(items, keys, env, host);
    forall k | 0 <= k < |items|
      ensures outs[k].changed <==> Assigns(NatToString(k), items[k], env, host)
    {
      assert keys[k] == NatToString(k);
      EntryChanged(keys[k], items[k], env, host);
    }
  }

  /** If no key of the document resolves, substitution reports `false` and
      returns the document as it was. */
  lemma NoResolutionNoChange<E>(doc: Json, env: E, host: Host<E>)
    requires forall k :: 0 <= k < |Keys(doc)| ==> host.lookup(Split(Keys(doc)[k], '.'), env).NotFound?
    ensures Substitute(doc, env, host) == Outcome(doc, false)
  {
    match doc
    case JObject(fs) =>
      var outs := FieldOutcomes(fs, env, host);
      forall k | 0 <= k < |outs|
        ensures !outs[k].changed
      {
        assert Keys(doc)[k] == fs[k].key;
      }
    case JArray(items) =>
      var outs := ItemOutcomes(items, Keys(doc), env, host);
      forall k | 0 <= k < |outs|
        ensures !outs[k].changed
      {
        assert Keys(doc)[k] == NatToString(k);
      }
    case _ =>
  }

  /** A key without `.` is looked up as one segment. */
  lemma DotFreeKey(key: string)
    requires forall i :: 0 <= i < |key| ==> key[i] != '.'
    ensures Split(key, '.') == [key]
  {
    assert IndexOf(key, '.') == -1;
  }

  /** Substituting into a one-member object whose key resolves to a terminal
      value: the member holds the coerced string and the result is `true`. */
  lemma SingleMemberTerminal<E>(key: string, value: Json, v: string, env: E, host: Host<E>)
    requires host.lookup(Split(key, '.'), env) == Terminal(v)
    ensures Substitute(JObject([Field(key, value)]), env, host)
            == Outcome(JObject([Field(key, Coerce(value, v, host))]), true)
  {
    ObjectMemberOutcome([Field(key, value)], env, host, 0);
  }

  /** `{"port": 80}` with `port` resolved to `"8080"` becomes `{"port": 8080}`;
      likewise for any key without `.`. */
  lemma NumberSlotExample<E>(key: string, env: E, host: Host<E>)
    requires forall i :: 0 <= i < |key| ==> key[i] != '.'
    requires host.lookup([key], env) == Terminal("8080")
    requires host.isNumericText("8080") && host.toNumber("8080") == 8080.0
    ensures Substitute(JObject([Field(key, JNumber(80.0))]), env, host)
            == Outcome(JObject([Field(key, JNumber(8080.0))]), true)
  {
    DotFreeKey(key);
    SingleMemberTerminal(key, JNumber(80.0), "8080", env, host);
  }

  /** `{"enabled": false}` with `enabled` resolved to `"true"` becomes
      `{"enabled": true}`; likewise for any key without `.`. */
  lemma BooleanSlotExample<E>(key: string, env: E, host: Host<E>)
    requires forall i :: 0 <= i < |key| ==> key[i] != '.'
    requires host.lookup([key], env) == Terminal("true")
    ensures Substitute(JObject([Field(key, JBool(false))]), env, host)
            == Outcome(JObject([Field(key, JBool(true))]), true)
  {
    DotFreeKey(key);
    SingleMemberTerminal(key, JBool(false), "true", env, host);
  }

  /** An object slot (here `{"cfg": {}}`) resolved to JSON text stores the
      parsed value. */
  lemma ObjectSlotExample<E>(key: string, env: E, host: Host<E>, text: string, parsed: Json)
    requires forall i :: 0 <= i < |key| ==> key[i] != '.'
    requires host.lookup([key], env) == Terminal(text)
    requires host.parseJson(text) == Some(parsed)
    ensures Substitute(JObject([Field(key, JObject([]))]), env, host)
            == Outcome(JObject([Field(key, parsed)]), true)
  {
    DotFreeKey(key);
    SingleMemberTerminal(key, JObject([]), text, env, host);
  }

  /** A string slot (here `{"name": "x"}`) resolved to text that does not
      parse as an object or array keeps the raw text. */
  lemma StringSlotFallbackExample<E>(key: string, env: E, host: Host<E>, text: string)
    requires forall i :: 0 <= i < |key| ==> key[i] != '.'
    requires host.lookup([key], env) == Terminal(text)
    requires host.parseJson(text).None? || !(host.parseJson(text).value.JObject? || host.parseJson(text).value.JArray?)
    ensures Substitute(JObject([Field(key, JString("x"))]), env, host)
            == Outcome(JObject([Field(key, JString(text))]), true)
  {
    DotFreeKey(key);
    SingleMemberTerminal(key, JString("x"), text, env, host);
  }
}
