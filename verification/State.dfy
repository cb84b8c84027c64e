/** What the strategy remembers between bars, and the file it is kept in
    (src/strategy/state.py). */
module State {
  import opened Prelude
  import opened Strategy

  /** A parsed document. `JKey(k)` stands for the ISO text of the canonical bar stamp `k`. */
  datatype Json =
    | JNull
    | JBool(b: bool)
    | JNum(x: real)
    | JStr(s: string)
    | JKey(k: int)
    | JArr(items: seq<Json>)
    | JObj(fields: map<string, Json>)
  {
    /** How the program's `or` and `bool()` read a value. */
    predicate Truthy() {
      match this
      case JNull => false
      case JBool(b) => b
      case JNum(x) => x != 0.0
      case JStr(s) => s != ""
      case JKey(_) => true
      case JArr(items) => items != []
      case JObj(fields) => fields != map[]
    }
  }

  datatype Memory = Memory(mind: Mind, barIndex: int, last: Json, unfilled: Option<map<string, Json>>)

  const FLAT_MEMORY := Memory(FRESH_MIND, 0, JNull, None)

  /** `d.get(name)`, and the same with a default. */
  function Get(d: map<string, Json>, name: string): Json {
    if name in d then d[name] else JNull
  }

  function GetOr(d: map<string, Json>, name: string, default: Json): Json {
    if name in d then d[name] else default
  }

  /** `a or b`. */
  function Or(a: Json, b: Json): Json {
    if a.Truthy() then a else b
  }

  function Truncated(x: real): int {
    if x < 0.0 then -((-x).Floor) else x.Floor
  }

  /** `float(v)`; `None` where it raises. */
  function AsFloat(v: Json): Option<real> {
    match v
    case JNum(x) => Some(x)
    case JBool(b) => Some(if b then 1.0 else 0.0)
    case _ => None
  }

  function AsInt(v: Json): Option<int> {
    var x :- AsFloat(v);
    Some(Truncated(x))
  }

  function OptionalNumber(v: Json): Option<real> {
    if v.JNum? then Some(v.x) else None
  }

  function NumberOrNull(v: Option<real>): Json {
    if v.Some? then JNum(v.value) else JNull
  }

  // -- serialization --------------------------------------------------------

  function PositionAsDict(p: Position): map<string, Json> {
    map[
      "entry_index" := JNum(p.entryIndex as real),
      "entry_price" := JNum(p.entryPrice),
      "raw_entry_price" := JNum(p.rawEntryPrice),
      "short" := JBool(p.short),
      "stop" := NumberOrNull(p.stop),
      "take" := NumberOrNull(p.take),
      "weight" := JNum(p.weight),
      "stop_pct" := NumberOrNull(p.stopPct)
    ]
  }

  /** `None` stands for the exceptions `from_dict` catches. */
  function PositionFromDict(d: map<string, Json>): Option<Position> {
    var index :- AsInt(GetOr(d, "entry_index", JNum(0.0)));
    var price :- if "entry_price" in d then AsFloat(d["entry_price"]) else None;
    var raw :- AsFloat(GetOr(d, "raw_entry_price", d["entry_price"]));
    var weight :- AsFloat(GetOr(d, "weight", JNum(1.0)));
    Some(Position(index, price, raw, Get(d, "short").Truthy(),
                  OptionalNumber(Get(d, "stop")), OptionalNumber(Get(d, "take")),
                  weight, OptionalNumber(Get(d, "stop_pct"))))
  }

  function AsDict(m: Memory): map<string, Json> {
    map[
      "position" := if m.mind.position.Some? then JObj(PositionAsDict(m.mind.position.value)) else JNull,
      "bar_index" := JNum(m.barIndex as real),
      "last_decided_bar" := m.last,
      "first_weight" := JNum(m.mind.firstWeight),
      "weight_seen" := JBool(m.mind.weightSeen),
      "unfilled_entry" := if m.unfilled.Some? && m.unfilled.value != map[] then JObj(m.unfilled.value) else JNull
    ]
  }

  /** Restoring a state file. `None` is the one exception that escapes: a stored position
      that is neither empty nor an object has no fields to read. */
  function FromDict(d: map<string, Json>): Option<Memory> {
    var raw := Get(d, "position");
    if raw.Truthy() && !raw.JObj? then None
    else
      var position := if raw.Truthy() then PositionFromDict(raw.fields) else None;
      if raw.Truthy() && position.None? then Some(FLAT_MEMORY)
      else
        var index := AsInt(Or(GetOr(d, "bar_index", JNum(0.0)), JNum(0.0)));
        var weight := AsFloat(Or(GetOr(d, "first_weight", JNum(1.0)), JNum(1.0)));
        if index.None? || weight.None? then Some(FLAT_MEMORY)
        else
          var note := Or(Get(d, "unfilled_entry"), Get(d, "refused_entry"));
          Some(Memory(Mind(position, weight.value, GetOr(d, "weight_seen", JBool(false)).Truthy()),
                      index.value, Get(d, "last_decided_bar"),
                      if note.Truthy() && note.JObj? then Some(note.fields) else None))
  }

  lemma PositionRoundTrip(p: Position)
    ensures PositionFromDict(PositionAsDict(p)) == Some(p)
  {
    assert Truncated(p.entryIndex as real) == p.entryIndex;
  }

  /** What a save and a load preserve: everything except a first weight of zero, which
      comes back as one, and an empty note, which comes back as none. */
  lemma Restored(m: Memory)
    ensures FromDict(AsDict(m)) == Some(Memory(
      m.mind.(firstWeight := if m.mind.firstWeight == 0.0 then 1.0 else m.mind.firstWeight),
      m.barIndex, m.last,
      if m.unfilled == Some(map[]) then None else m.unfilled))
  {
    if m.mind.position.Some? {
      PositionRoundTrip(m.mind.position.value);
      assert "short" in PositionAsDict(m.mind.position.value);
      assert PositionAsDict(m.mind.position.value) != map[];
    }
    assert Truncated(m.barIndex as real) == m.barIndex;
  }

  /** A restart continues the very same memory exactly when the stored first weight is
      not zero and the note is not empty. */
  lemma RoundTripExactly(m: Memory)
    ensures FromDict(AsDict(m)) == Some(m) <==> m.mind.firstWeight != 0.0 && m.unfilled != Some(map[])
  {
    Restored(m);
  }

  /** The loader never raises unless the stored position is truthy and not an object. */
  lemma LoadsExactly(d: map<string, Json>)
    ensures FromDict(d).Some? <==> (Get(d, "position").Truthy() ==> Get(d, "position").JObj?)
  {
  }

  /** A file as an older program wrote it: no raw price, no weight, and the note under its
      former name. The raw price is then the entry price and the weight the whole account. */
  const OLD_POSITION: map<string, Json> := map[
    "entry_index" := JNum(7.0), "entry_price" := JNum(100.0), "short" := JBool(true), "stop" := JNum(102.0), "take" := JNull]

  const OLD_FILE: map<string, Json> := map[
    "position" := JObj(OLD_POSITION), "bar_index" := JNum(9.0), "last_decided_bar" := JKey(5), "weight_seen" := JBool(true),
    "refused_entry" := JObj(map["status" := JStr("no_fill")])]

  lemma ReadsAnOlderPosition()
    ensures PositionFromDict(OLD_POSITION) == Some(Position(7, 100.0, 100.0, true, Some(102.0), None, 1.0, None))
    ensures OLD_POSITION != map[]
  {
    assert "short" in OLD_POSITION;
  }

  lemma ReadsAnOlderFile()
    ensures FromDict(OLD_FILE) ==
      Some(Memory(Mind(Some(Position(7, 100.0, 100.0, true, Some(102.0), None, 1.0, None)), 1.0, true), 9, JKey(5),
                  Some(map["status" := JStr("no_fill")])))
  {
    ReadsAnOlderPosition();
    hide PositionFromDict, OLD_POSITION;
    assert Truncated(9.0) == 9;
    assert map["status" := JStr("no_fill")] != map[] by {
      assert "status" in map["status" := JStr("no_fill")];
    }
  }

  /** The object the driver keeps and updates. */
  class StrategyState {
    var position: Option<Position>
    var barIndex: int
    var lastDecidedBar: Json
    var firstWeight: real
    var weightSeen: bool
    var unfilledEntry: Option<map<string, Json>>

    function TheMind(): Mind
      reads this
    {
      Mind(position, firstWeight, weightSeen)
    }

    function Value(): Memory
      reads this
    {
      Memory(TheMind(), barIndex, lastDecidedBar, unfilledEntry)
    }

    constructor ()
      ensures Value() == FLAT_MEMORY
    {
      position, barIndex, lastDecidedBar := None, 0, JNull;
      firstWeight, weightSeen, unfilledEntry := 1.0, false, None;
    }

    constructor From(m: Memory)
      ensures Value() == m
    {
      position, barIndex, lastDecidedBar := m.mind.position, m.barIndex, m.last;
      firstWeight, weightSeen, unfilledEntry := m.mind.firstWeight, m.mind.weightSeen, m.unfilled;
    }
  }
}
