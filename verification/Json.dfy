/** The values that flow through an invocation, and JavaScript's own-property rule for them. */
module Json {
  import opened Prelude
  import opened Text

  datatype Entry = Entry(key: string, value: Value)

  /**
   Objects list their own properties in order; keys are looked up by first match. Hole only ever
   stands for an absent array slot: it reads as undefined but is not an own property.
   */
  datatype Value =
    | Hole
    | Undefined
    | Null
    | Bool(flag: bool)
    | Num(number: real)
    | Str(text: string)
    | Arr(slots: seq<Value>)
    | Obj(entries: seq<Entry>)
  {
    predicate IsObject() { Arr? || Obj? }
  }

  /** What reading an array slot yields. */
  function Read(slot: Value): Value {
    if slot.Hole? then Undefined else slot
  }

  function EntryOf(entries: seq<Entry>, key: string): (r: Option<Value>)
    ensures r.None? <==> forall i :: 0 <= i < |entries| ==> entries[i].key != key
  {
    if entries == [] then None
    else if entries[0].key == key then Some(entries[0].value)
    else EntryOf(entries[1..], key)
  }

  /** Object.hasOwn(value, n) with value[n], for an array index n. */
  function OwnIndex(value: Value, n: nat): Option<Value> {
    if value.Arr? && n < |value.slots| && !value.slots[n].Hole? then Some(value.slots[n]) else None
  }

  /** Object.hasOwn(value, key) with value[key]: arrays own `length` and their canonical numerals. */
  function OwnKey(value: Value, key: string): Option<Value> {
    match value
    case Obj(entries) => EntryOf(entries, key)
    case Arr(slots) =>
      if key == "length" then Some(Num(|slots| as real))
      else if IsNumeral(key) && Numeral(NumeralValue(key)) == key then OwnIndex(value, NumeralValue(key))
      else None
    case _ => None
  }

  // ----- The strings of a value -----

  /** A string somewhere in a value, with the keys and indices that lead to it. */
  datatype Leaf = Leaf(path: seq<string>, text: string)

  /** All of them, in document order; path is where the value itself is. */
  function Leaves(value: Value, path: seq<string>): seq<Leaf>
    decreases value, 1
  {
    match value
    case Str(text) => [Leaf(path, text)]
    case Arr(slots) => LeavesOfSlots(slots, 0, path)
    case Obj(entries) => LeavesOfEntries(entries, path)
    case _ => []
  }

  function LeavesOfSlots(slots: seq<Value>, index: nat, path: seq<string>): seq<Leaf>
    decreases slots, 0
  {
    if slots == [] then []
    else Leaves(slots[0], path + [Numeral(index)]) + LeavesOfSlots(slots[1..], index + 1, path)
  }

  function LeavesOfEntries(entries: seq<Entry>, path: seq<string>): seq<Leaf>
    decreases entries, 0
  {
    if entries == [] then []
    else Leaves(entries[0].value, path + [entries[0].key]) + LeavesOfEntries(entries[1..], path)
  }
}
