/** The route manifest of the n8n executor and the capabilities of its rows
    (scripts/n8n_manifest_capabilities.py), with the JSON values its tools exchange. */
module Manifest {
  import opened Prelude
  import opened Text

  // ---------------------------------------------------------------------------
  // JSON as Python reads it

  datatype Value = Null | Bool(b: bool) | Num(n: real) | Str(s: string) | Arr(items: seq<Value>) | Obj(fields: Fields)

  type Fields = map<string, Value>

  /** `dict.get(key)`: a missing key and a JSON null look the same. */
  function Get(fields: Fields, key: string): Value { if key in fields then fields[key] else Null }

  /** The key is there, with this value. */
  predicate Says(fields: Fields, key: string, value: Value) { key in fields && fields[key] == value }

  /** `bool(value)` */
  predicate Truthy(v: Value) {
    match v
    case Null => false
    case Bool(b) => b
    case Num(n) => n != 0.0
    case Str(s) => s != ""
    case Arr(items) => items != []
    case Obj(fields) => fields != map[]
  }

  /** `value == False`: the number zero is equal to False. */
  predicate EqualsFalse(v: Value) { v == Bool(false) || v == Num(0.0) }

  /** What the scripts use of Python's library: timestamps in microseconds, `str` of a
      value that is no string, the SHA-256 of a document's canonical JSON, sorting, and
      counting node types. */
  datatype Library = Library(
    text: Value -> string,
    parse: string -> Option<int>,
    show: int -> string,
    sha: Value -> string,
    sorted: set<string> -> seq<string>,
    nodeTypes: Fields -> Value)

  const SECOND := 1_000_000

  ghost predicate Lists(items: seq<string>, s: set<string>) {
    (forall x :: x in items <==> x in s) && forall i, j | 0 <= i < j < |items| :: items[i] != items[j]
  }

  /** Sorting lists a set's members once each, and a whole second prints and parses. */
  ghost predicate ValidLibrary(lib: Library) {
    && (forall s :: Lists(lib.sorted(s), s))
    && (forall t | t % SECOND == 0 :: lib.parse(lib.show(t)) == Some(t))
  }

  // ---------------------------------------------------------------------------
  // Rows

  datatype Row = Row(eventType: string, workflowId: string, capability: string, enabled: string, templates: string)

  const UNAVAILABLE := "UNAVAILABLE"
  const WELCOME := "fan.lifecycle.welcome.v2"

  function Extras(row: Row): set<string> {
    set part | part in Split(row.templates, ',') && PyStrip(part) != "" :: PyStrip(part)
  }

  predicate LifecycleRoute(row: Row) {
    row.capability == "fan.lifecycle.message" && row.eventType == "crowdrelay.fan_lifecycle.message_requested"
  }

  /** `row_capabilities`; None stands for its ValueError. */
  function RowCapabilities(row: Row): (caps: Option<set<string>>)
    ensures caps.Some? ==> row.capability in caps.value && caps.value <= {row.capability, WELCOME}
  {
    if Extras(row) - {WELCOME} != {} then None
    else if Extras(row) != {} && !LifecycleRoute(row) then None
    else Some({row.capability} + Extras(row))
  }

  /** The templates a row names: the parts between commas, stripped, but for empty ones. */
  ghost predicate NamesTemplate(row: Row, t: string) {
    t != "" && exists part | part in Split(row.templates, ',') :: PyStrip(part) == t
  }

  /** A template that the row may not name. */
  ghost predicate Refused(row: Row, t: string) { NamesTemplate(row, t) && (t != WELCOME || !LifecycleRoute(row)) }

  /** A row may name no template but the welcome, and that only on the lifecycle route;
      it then has it besides its own capability. */
  lemma RowCapabilitiesAre(row: Row)
    ensures RowCapabilities(row).None? <==> exists t :: Refused(row, t)
    ensures RowCapabilities(row).Some? ==>
              forall c :: c in RowCapabilities(row).value <==> c == row.capability || NamesTemplate(row, c)
  {
    var extras, other := Extras(row), Extras(row) - {WELCOME};
    assert forall t :: t in extras <==> NamesTemplate(row, t);
    assert forall t :: t in other <==> t in extras && t != WELCOME;
    if other != {} {
      var t :| t in other;
      assert Refused(row, t);
    } else if extras != {} && !LifecycleRoute(row) {
      var t :| t in extras;
      assert Refused(row, t);
    } else {
      assert extras == {} || LifecycleRoute(row);
      assert forall t :: !Refused(row, t);
    }
  }

  /** The capabilities of several rows together. */
  function CapabilitiesOf(rows: seq<Row>): (caps: Option<set<string>>)
    ensures caps.Some? <==> forall r | r in rows :: RowCapabilities(r).Some?
    ensures caps.Some? ==> forall c :: c in caps.value <==> exists r | r in rows :: c in RowCapabilities(r).value
  {
    if rows == [] then Some({})
    else
      var head, tail := RowCapabilities(rows[0]), CapabilitiesOf(rows[1..]);
      assert rows == [rows[0]] + rows[1..];
      if head.None? || tail.None? then None else Some(head.value + tail.value)
  }

  predicate AnyEnabled(rows: seq<Row>) { exists r | r in rows :: r.enabled == "1" }

  function RowsFor(rows: seq<Row>, id: string): (found: seq<Row>)
    ensures forall r :: r in found <==> r in rows && r.workflowId == id
  {
    if rows == [] then []
    else
      var n := |rows| - 1;
      assert rows == rows[..n] + [rows[n]];
      RowsFor(rows[..n], id) + if rows[n].workflowId == id then [rows[n]] else []
  }

  /** The workflows the manifest routes to. */
  function Ids(rows: seq<Row>): set<string> { set r | r in rows && r.workflowId != UNAVAILABLE :: r.workflowId }
}
