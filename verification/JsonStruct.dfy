/** Conversion of a decoded JSON value into a google.protobuf.Struct. */
module JsonStruct {
  import opened AuditLog

  /** What encoding/json decodes a document into (RFC 8259, section 3). */
  datatype Json =
    | JNull
    | JBool(b: bool)
    | JNumber(n: real)
    | JString(s: string)
    | JArray(items: seq<Json>)
    | JObject(members: map<string, Json>)

  function ValueOf(j: Json): Value {
    match j
    case JNull => NullValue
    case JBool(b) => BoolValue(b)
    case JNumber(n) => NumberValue(n)
    case JString(s) => StringValue(s)
    case JArray(items) => ListValue(seq(|items|, i requires 0 <= i < |items| => ValueOf(items[i])))
    case JObject(members) => StructValue(map k | k in members :: ValueOf(members[k]))
  }

  function StructOf(m: map<string, Json>): Struct {
    map k | k in m :: ValueOf(m[k])
  }

  /** The map is ranged over in an order Go does not fix: any key may come next. */
  method JsonMapToProtoStruct(m: map<string, Json>) returns (fields: Struct)
    ensures fields == StructOf(m)
    decreases JObject(m), 0
  {
    fields := map[];
    var todo := m.Keys;
    while todo != {}
      invariant todo <= m.Keys && fields.Keys == m.Keys - todo
      invariant forall k :: k in fields ==> fields[k] == ValueOf(m[k])
      decreases |todo|
    {
      var k :| k in todo;
      var v := JsonValueToStructValue(m[k]);
      fields := fields[k := v];
      todo := todo - {k};
    }
  }

  method JsonValueToStructValue(v: Json) returns (r: Value)
    ensures r == ValueOf(v)
    decreases v, 1
  {
    match v
    case JBool(x) => r := BoolValue(x);
    case JNumber(x) => r := NumberValue(x);
    case JString(x) => r := StringValue(x);
    case JNull => r := NullValue;
    case JObject(x) =>
      var fields := JsonMapToProtoStruct(x);
      r := StructValue(fields);
    case JArray(x) =>
      var vals: seq<Value> := [];
      for i := 0 to |x|
        invariant |vals| == i && forall k :: 0 <= k < i ==> vals[k] == ValueOf(x[k])
      {
        var e := JsonValueToStructValue(x[i]);
        vals := vals + [e];
      }
      r := ListValue(vals);
  }

  /** toProtoStruct on what json.Marshal produced, if anything. A JSON null decodes into a nil map, so
      it gives an empty struct; any other value that is not an object is an error. */
  function ToProtoStruct(marshalled: Option<Json>): Option<Struct> {
    match marshalled
    case Some(JObject(members)) => Some(StructOf(members))
    case Some(JNull) => Some(map[])
    case _ => None
  }

  // ---- nothing is lost ----

  function JsonOf(v: Value): Json {
    match v
    case NullValue => JNull
    case BoolValue(b) => JBool(b)
    case NumberValue(n) => JNumber(n)
    case StringValue(s) => JString(s)
    case ListValue(values) => JArray(seq(|values|, i requires 0 <= i < |values| => JsonOf(values[i])))
    case StructValue(fields) => JObject(map k | k in fields :: JsonOf(fields[k]))
  }

  /** Every JSON value, however nested, can be read back from its conversion. */
  lemma {:induction false} JsonRoundTrip(j: Json)
    ensures JsonOf(ValueOf(j)) == j
  {
    match j
    case JArray(items) =>
      forall i | 0 <= i < |items| ensures JsonOf(ValueOf(items[i])) == items[i] {
        JsonRoundTrip(items[i]);
      }
      assert JsonOf(ValueOf(j)).items == items;
    case JObject(members) =>
      forall k | k in members ensures JsonOf(ValueOf(members[k])) == members[k] {
        JsonRoundTrip(members[k]);
      }
      assert JsonOf(ValueOf(j)).members == members;
    case _ =>
  }

  /** Every protobuf value is the conversion of some JSON value. */
  lemma {:induction false} ValueRoundTrip(v: Value)
    ensures ValueOf(JsonOf(v)) == v
  {
    match v
    case ListValue(values) =>
      forall i | 0 <= i < |values| ensures ValueOf(JsonOf(values[i])) == values[i] {
        ValueRoundTrip(values[i]);
      }
      assert ValueOf(JsonOf(v)).values == values;
    case StructValue(fields) =>
      forall k | k in fields ensures ValueOf(JsonOf(fields[k])) == fields[k] {
        ValueRoundTrip(fields[k]);
      }
      assert ValueOf(JsonOf(v)).fields == fields;
    case _ =>
  }

  /** A JSON value and a protobuf value say the same: the same kind, and the same content at every depth. */
  ghost predicate SaysTheSame(j: Json, v: Value)
    decreases j
  {
    match (j, v)
    case (JNull, NullValue) => true
    case (JBool(a), BoolValue(b)) => a == b
    case (JNumber(a), NumberValue(b)) => a == b
    case (JString(a), StringValue(b)) => a == b
    case (JArray(items), ListValue(values)) =>
      |items| == |values| && forall i :: 0 <= i < |items| ==> SaysTheSame(items[i], values[i])
    case (JObject(members), StructValue(fields)) =>
      members.Keys == fields.Keys && forall k :: k in members ==> SaysTheSame(members[k], fields[k])
    case _ => false
  }

  /** The conversion is the one protobuf value that says what the JSON value does. */
  lemma {:induction false} ConversionIff(j: Json, v: Value)
    ensures v == ValueOf(j) <==> SaysTheSame(j, v)
    decreases j
  {
    match (j, v)
    case (JArray(items), ListValue(values)) =>
      forall i | 0 <= i < |items| && i < |values| ensures values[i] == ValueOf(items[i]) <==> SaysTheSame(items[i], values[i]) {
        ConversionIff(items[i], values[i]);
      }
      if SaysTheSame(j, v) { assert values == ValueOf(j).values; }
    case (JObject(members), StructValue(fields)) =>
      forall k | k in members && k in fields ensures fields[k] == ValueOf(members[k]) <==> SaysTheSame(members[k], fields[k]) {
        ConversionIff(members[k], fields[k]);
      }
      if SaysTheSame(j, v) { assert fields == ValueOf(j).fields; }
    case _ =>
  }

  datatype Step = Key(name: string) | Index(i: nat)

  function JsonAt(j: Json, path: seq<Step>): Option<Json> {
    if path == [] then Some(j)
    else
      match (j, path[0])
      case (JObject(m), Key(k)) => if k in m then JsonAt(m[k], path[1..]) else None
      case (JArray(a), Index(i)) => if i < |a| then JsonAt(a[i], path[1..]) else None
      case _ => None
  }

  function ValueAt(v: Value, path: seq<Step>): Option<Value> {
    if path == [] then Some(v)
    else
      match (v, path[0])
      case (StructValue(m), Key(k)) => if k in m then ValueAt(m[k], path[1..]) else None
      case (ListValue(a), Index(i)) => if i < |a| then ValueAt(a[i], path[1..]) else None
      case _ => None
  }

  /** Every path of keys and list positions leads to the conversion of what it led to before: key
      sets, list lengths and list order are kept at every depth. */
  lemma {:induction false} PathsAreKept(j: Json, path: seq<Step>)
    ensures ValueAt(ValueOf(j), path) ==
            match JsonAt(j, path) case Some(x) => Some(ValueOf(x)) case None => None
    decreases |path|
  {
    if path != [] {
      match (j, path[0])
      case (JObject(m), Key(k)) => if k in m { PathsAreKept(m[k], path[1..]); }
      case (JArray(a), Index(i)) => if i < |a| { PathsAreKept(a[i], path[1..]); }
      case _ =>
    }
  }

  /** Different objects give different structs. */
  lemma StructOfIsInjective(a: map<string, Json>, b: map<string, Json>)
    ensures StructOf(a) == StructOf(b) ==> a == b
  {
    assert ValueOf(JObject(a)).fields == StructOf(a) && ValueOf(JObject(b)).fields == StructOf(b);
    JsonRoundTrip(JObject(a));
    JsonRoundTrip(JObject(b));
  }
}
