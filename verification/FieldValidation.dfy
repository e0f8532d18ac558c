/**
 Payload field validation (request-validation.ts). The walker descends one target at a time and
 stops at the first failure; the specification quantifies over every choice of array indices for
 the wildcards and says which targets offend.
 */
module FieldValidation {
  import opened Prelude
  import opened Text
  import opened Json
  import opened Paths

  datatype FieldType = StringType | NumberType | IntegerType | BooleanType | ArrayType | ObjectType

  datatype Field = Field(
    path: string,
    required: bool,
    fieldType: Option<FieldType>,
    minItems: Option<nat>,
    minLength: Option<nat>,
    message: Option<string>)

  datatype Step = AtKey(key: string) | AtIndex(index: nat)

  datatype Failure = Failure(path: seq<Step>, message: string)

  // ----- One target -----

  function PathValue(segment: Segment): Step {
    match segment
    case Key(name) => AtKey(name)
    case Quoted(name) => AtKey(name)
    case Index(n) => AtIndex(n)
    case Wildcard => AtKey("*")
  }

  function PathValues(path: seq<Segment>): (r: seq<Step>)
    ensures |r| == |path|
    ensures forall i :: 0 <= i < |path| ==> r[i] == PathValue(path[i])
  {
    seq(|path|, i requires 0 <= i < |path| => PathValue(path[i]))
  }

  function Fail(field: Field, path: seq<Segment>, steps: seq<Step>, complaint: string): Failure {
    Failure(steps, if field.message.Some? then field.message.value else FormatPath(path) + complaint)
  }

  predicate IsInteger(number: real) {
    number == number.Floor as real
  }

  predicate MatchesType(fieldType: FieldType, value: Value, found: bool) {
    found && match fieldType
             case StringType => value.Str?
             case NumberType => value.Num?
             case IntegerType => value.Num? && IsInteger(value.number)
             case BooleanType => value.Bool?
             case ArrayType => value.Arr?
             case ObjectType => value.Obj?
  }

  function TypeName(fieldType: FieldType): string {
    match fieldType
    case StringType => "a string"
    case NumberType => "a number"
    case IntegerType => "an integer"
    case BooleanType => "a boolean"
    case ArrayType => "an array"
    case ObjectType => "an object"
  }

  predicate Missing(value: Value, found: bool) {
    !found || value.Null? || value.Undefined?
  }

  function CheckTarget(field: Field, value: Value, found: bool, path: seq<Segment>): Option<Failure> {
    if field.required && Missing(value, found) then
      Some(Fail(field, path, PathValues(path), " is required"))
    else if field.fieldType.Some? && !MatchesType(field.fieldType.value, value, found) then
      Some(Fail(field, path, PathValues(path), " must be " + TypeName(field.fieldType.value)))
    else if field.minItems.Some? && (!value.Arr? || |value.slots| < field.minItems.value) then
      Some(Fail(field, path, PathValues(path),
        " must contain at least " + Numeral(field.minItems.value)
        + (if field.minItems.value == 1 then " entry" else " entries")))
    else if field.minLength.Some? && (!value.Str? || |value.text| < field.minLength.value) then
      Some(Fail(field, path, PathValues(path),
        " must have at least " + Numeral(field.minLength.value)
        + (if field.minLength.value == 1 then " character" else " characters")))
    else
      None
  }

  /** What a field demands of one target. */
  predicate Satisfies(field: Field, value: Value, found: bool) {
    && (field.required ==> !Missing(value, found))
    && (field.fieldType.Some? ==> MatchesType(field.fieldType.value, value, found))
    && (field.minItems.Some? ==> value.Arr? && field.minItems.value <= |value.slots|)
    && (field.minLength.Some? ==> value.Str? && field.minLength.value <= |value.text|)
  }

  /** A target passes exactly when it meets every constraint; the failure names the target's own path. */
  lemma CheckTargetMeaning(field: Field, value: Value, found: bool, path: seq<Segment>)
    ensures CheckTarget(field, value, found, path).None? <==> Satisfies(field, value, found)
    ensures CheckTarget(field, value, found, path).Some?
            ==> CheckTarget(field, value, found, path).value.path == PathValues(path)
  {
  }

  // ----- What a constraint asks for, and how its failure reads -----

  function Whole(n: int): Value {
    Num(n as real)
  }

  /** The type of a value; an integer is a number without a fraction. */
  lemma TypeMeaning(fieldType: FieldType, value: Value, found: bool)
    ensures MatchesType(fieldType, value, found) <==>
              found && match fieldType
                       case StringType => exists text :: value == Str(text)
                       case NumberType => exists number :: value == Num(number)
                       case IntegerType => exists n: int :: value == Whole(n)
                       case BooleanType => value == Bool(true) || value == Bool(false)
                       case ArrayType => exists slots :: value == Arr(slots)
                       case ObjectType => exists entries :: value == Obj(entries)
  {
    if value.Num? {
      assert IsInteger(value.number) ==> value == Whole(value.number.Floor);
    }
  }

  /** The complaints about a target, in the order of the constraints: all it does not meet. */
  function Complaints(field: Field, value: Value, found: bool): seq<string> {
    (if field.required && (!found || value == Null || value == Undefined) then [" is required"] else [])
    + (if field.fieldType.Some? && !MatchesType(field.fieldType.value, value, found)
       then [" must be " + TypeName(field.fieldType.value)]
       else [])
    + (if field.minItems.Some? && !(value.Arr? && field.minItems.value <= |value.slots|)
       then [" must contain at least " + Numeral(field.minItems.value)
             + (if field.minItems == Some(1) then " entry" else " entries")]
       else [])
    + (if field.minLength.Some? && !(value.Str? && field.minLength.value <= |value.text|)
       then [" must have at least " + Numeral(field.minLength.value)
             + (if field.minLength == Some(1) then " character" else " characters")]
       else [])
  }

  /** The first complaint is the failure, after the target's path, unless the field has a message of its own. */
  lemma FirstComplaintIsReported(field: Field, value: Value, found: bool, path: seq<Segment>)
    ensures var complaints := Complaints(field, value, found);
            CheckTarget(field, value, found, path)
            == if complaints == [] then None
               else
                 Some(Failure(
                   PathValues(path),
                   if field.message.Some? then field.message.value else FormatPath(path) + complaints[0]))
  {
    hide FormatPath, Numeral, MatchesType, TypeName;
  }

  // ----- One step of the walk -----

  datatype Found = Found(value: Value, found: bool)

  const ABSENT := Found(Undefined, false)

  function StepInto(segment: Segment, value: Value, found: bool): Found
    requires !segment.Wildcard?
  {
    if !found || !value.IsObject() then ABSENT
    else
      var own := if segment.Index? then OwnIndex(value, segment.index) else OwnKey(value, segment.name);
      if own.Some? then Found(own.value, true) else ABSENT
  }

  // ----- The specification -----

  /** Where one choice of array indices for the wildcards leads. */
  datatype Arrival =
    | Target(value: Value, found: bool, path: seq<Segment>)
    | NotAnArray(path: seq<Segment>)
    | NoSuchChoice

  function Arrive(segments: seq<Segment>, value: Value, found: bool, path: seq<Segment>, choice: seq<nat>): Arrival
    decreases |segments|
  {
    if segments == [] then
      if choice == [] then Target(value, found, path) else NoSuchChoice
    else if segments[0].Wildcard? then
      if !found || !value.Arr? then
        if choice == [] then NotAnArray(path) else NoSuchChoice
      else if choice == [] || |value.slots| <= choice[0] then NoSuchChoice
      else Arrive(segments[1..], Read(value.slots[choice[0]]), true, path + [Index(choice[0])], choice[1..])
    else
      var next := StepInto(segments[0], value, found);
      Arrive(segments[1..], next.value, next.found, path + [segments[0]], choice)
  }

  /** The failure at an arrival: an unmet constraint, or a wildcard on something that is no array. */
  function Offence(field: Field, arrival: Arrival): Option<Failure> {
    match arrival
    case Target(value, found, path) => CheckTarget(field, value, found, path)
    case NotAnArray(path) => Some(Fail(field, path, PathValues(path) + [AtKey("*")], " must be an array"))
    case NoSuchChoice => None
  }

  predicate Before(a: seq<nat>, b: seq<nat>)
    decreases |a|
  {
    b != [] && (a == [] || a[0] < b[0] || (a[0] == b[0] && Before(a[1..], b[1..])))
  }

  /** A walk still to be done: the state walkTargets is called with. */
  datatype Walk = Walk(segments: seq<Segment>, field: Field, value: Value, found: bool, path: seq<Segment>)

  function OffenceAt(w: Walk, choice: seq<nat>): Option<Failure> {
    Offence(w.field, Arrive(w.segments, w.value, w.found, w.path, choice))
  }

  /** r is the offence of the lexicographically first offending choice, if any choice offends. */
  ghost predicate IsFirstOffence(w: Walk, r: Option<Failure>) {
    match r
    case None => forall choice :: OffenceAt(w, choice).None?
    case Some(_) =>
      exists choice :: OffenceAt(w, choice) == r && forall c :: Before(c, choice) ==> OffenceAt(w, c).None?
  }

  // ----- The walker -----

  lemma ChoiceAtTarget(w: Walk)
    requires w.segments == []
    ensures IsFirstOffence(w, CheckTarget(w.field, w.value, w.found, w.path))
  {
    assert OffenceAt(w, []) == CheckTarget(w.field, w.value, w.found, w.path);
    forall c | c != [] ensures OffenceAt(w, c).None? {
    }
  }

  lemma ChoiceAtBrokenWildcard(w: Walk)
    requires w.segments != [] && w.segments[0].Wildcard? && (!w.found || !w.value.Arr?)
    ensures IsFirstOffence(w, Some(Fail(w.field, w.path, PathValues(w.path) + [AtKey("*")], " must be an array")))
  {
    assert OffenceAt(w, []) == Some(Fail(w.field, w.path, PathValues(w.path) + [AtKey("*")], " must be an array"));
    assert forall c :: !Before(c, []);
  }

  /** The walk one segment further. */
  function Deeper(w: Walk): Walk
    requires w.segments != [] && !w.segments[0].Wildcard?
  {
    var next := StepInto(w.segments[0], w.value, w.found);
    Walk(w.segments[1..], w.field, next.value, next.found, w.path + [w.segments[0]])
  }

  lemma ChoiceDeeper(w: Walk, r: Option<Failure>)
    requires w.segments != [] && !w.segments[0].Wildcard? && IsFirstOffence(Deeper(w), r)
    ensures IsFirstOffence(w, r)
  {
    assert forall c :: OffenceAt(w, c) == OffenceAt(Deeper(w), c);
    if r.Some? {
      var choice :| OffenceAt(Deeper(w), choice) == r
                   && forall c :: Before(c, choice) ==> OffenceAt(Deeper(w), c).None?;
      assert OffenceAt(w, choice) == r;
    }
  }

  /** The walk into one array element. */
  function Element(w: Walk, index: nat): Walk
    requires w.segments != [] && w.value.Arr? && index < |w.value.slots|
  {
    Walk(w.segments[1..], w.field, Read(w.value.slots[index]), true, w.path + [Index(index)])
  }

  predicate OverArray(w: Walk) {
    w.segments != [] && w.segments[0].Wildcard? && w.found && w.value.Arr?
  }

  /** No choice into the first n elements offends. */
  ghost predicate CleanUpTo(w: Walk, n: nat)
    requires OverArray(w)
  {
    forall i, c :: 0 <= i < n && i < |w.value.slots| ==> OffenceAt(Element(w, i), c).None?
  }

  lemma OffenceInElement(w: Walk, choice: seq<nat>)
    requires OverArray(w)
    ensures OffenceAt(w, choice)
         == if choice == [] || |w.value.slots| <= choice[0] then None
            else OffenceAt(Element(w, choice[0]), choice[1..])
  {
  }

  lemma CleanArray(w: Walk)
    requires OverArray(w) && CleanUpTo(w, |w.value.slots|)
    ensures IsFirstOffence(w, None)
  {
    forall choice ensures OffenceAt(w, choice).None? {
      OffenceInElement(w, choice);
    }
  }

  lemma FirstInArray(w: Walk, index: nat, r: Option<Failure>)
    requires OverArray(w) && index < |w.value.slots| && CleanUpTo(w, index)
    requires r.Some? && IsFirstOffence(Element(w, index), r)
    ensures IsFirstOffence(w, r)
  {
    var inner := Element(w, index);
    var choice :| OffenceAt(inner, choice) == r && forall c :: Before(c, choice) ==> OffenceAt(inner, c).None?;
    var whole: seq<nat> := [index] + choice;
    assert whole[1..] == choice;
    OffenceInElement(w, whole);
    forall c | Before(c, whole) ensures OffenceAt(w, c).None? {
      OffenceInElement(w, c);
    }
  }

  lemma OneMoreClean(w: Walk, index: nat)
    requires OverArray(w) && index < |w.value.slots| && CleanUpTo(w, index)
    requires IsFirstOffence(Element(w, index), None)
    ensures CleanUpTo(w, index + 1)
  {
  }

  method WalkTargets(segments: seq<Segment>, field: Field, value: Value, found: bool, path: seq<Segment>)
    returns (r: Option<Failure>)
    ensures IsFirstOffence(Walk(segments, field, value, found, path), r)
    decreases |segments|
  {
    ghost var w := Walk(segments, field, value, found, path);
    if segments == [] {
      ChoiceAtTarget(w);
      return CheckTarget(field, value, found, path);
    }
    var segment, rest := segments[0], segments[1..];
    if segment.Wildcard? {
      if !found || !value.Arr? {
        ChoiceAtBrokenWildcard(w);
        return Some(Fail(field, path, PathValues(path) + [AtKey("*")], " must be an array"));
      }
      for index := 0 to |value.slots|
        invariant CleanUpTo(w, index)
      {
        var failure := WalkTargets(rest, field, Read(value.slots[index]), true, path + [Index(index)]);
        if failure.Some? {
          FirstInArray(w, index, failure);
          return failure;
        }
        OneMoreClean(w, index);
      }
      CleanArray(w);
      return None;
    }
    var next := StepInto(segment, value, found);
    r := WalkTargets(rest, field, next.value, next.found, path + [segment]);
    ChoiceDeeper(w, r);
  }

  // ----- The first offence is unique -----

  lemma {:induction false} BeforeIsTotal(a: seq<nat>, b: seq<nat>)
    ensures a == b || Before(a, b) || Before(b, a)
    decreases |a|
  {
    if a != [] && b != [] && a[0] == b[0] {
      BeforeIsTotal(a[1..], b[1..]);
      assert a == [a[0]] + a[1..] && b == [b[0]] + b[1..];
    }
  }

  /** So the walker's result is determined by the specification alone. */
  lemma FirstOffenceIsUnique(w: Walk, r1: Option<Failure>, r2: Option<Failure>)
    requires IsFirstOffence(w, r1) && IsFirstOffence(w, r2)
    ensures r1 == r2
  {
    if r1.Some? && r2.Some? {
      var c1 :| OffenceAt(w, c1) == r1 && forall c :: Before(c, c1) ==> OffenceAt(w, c).None?;
      var c2 :| OffenceAt(w, c2) == r2 && forall c :: Before(c, c2) ==> OffenceAt(w, c).None?;
      BeforeIsTotal(c1, c2);
    }
  }

  /** The walk of a whole payload. */
  function FieldWalk(field: Field, segments: seq<Segment>, payload: Value): Walk {
    Walk(segments, field, payload, true, [])
  }

  /** What a field demands at one arrival: wildcards sit on arrays, targets meet every constraint. */
  predicate Passes(field: Field, arrival: Arrival) {
    match arrival
    case Target(value, found, _) => Satisfies(field, value, found)
    case NotAnArray(_) => false
    case NoSuchChoice => true
  }

  ghost predicate AllPass(w: Walk) {
    forall choice :: Passes(w.field, Arrive(w.segments, w.value, w.found, w.path, choice))
  }

  /** A field passes exactly when every wildcard reached is on an array and every target satisfies it. */
  lemma PassingField(w: Walk)
    ensures IsFirstOffence(w, None) <==> AllPass(w)
  {
    forall choice
      ensures OffenceAt(w, choice).None? <==> Passes(w.field, Arrive(w.segments, w.value, w.found, w.path, choice))
    {
    }
  }

  // ----- Targets and lookupPath -----

  /** The segments with each wildcard replaced by the chosen index. */
  function Instantiate(segments: seq<Segment>, choice: seq<nat>): seq<Segment>
    decreases |segments|
  {
    if segments == [] then []
    else if segments[0].Wildcard? then
      if choice == [] then segments else [Index(choice[0])] + Instantiate(segments[1..], choice[1..])
    else [segments[0]] + Instantiate(segments[1..], choice)
  }

  /** The same names, read by lookupPath. */
  function AsPlain(segment: Segment): (r: Segment)
    requires !segment.Wildcard?
    ensures IsPlain(r)
  {
    if segment.Quoted? then Key(segment.name) else segment
  }

  /** lookupPath along concrete segments; None is "not found". */
  function LookupConcrete(value: Value, segments: seq<Segment>): Option<Value>
    requires forall i :: 0 <= i < |segments| ==> !segments[i].Wildcard?
    decreases |segments|
  {
    if segments == [] then Some(value)
    else
      var next := OwnProperty(value, AsPlain(segments[0]));
      if next.None? then None else LookupConcrete(next.value, segments[1..])
  }

  function AllAsPlain(segments: seq<Segment>): (r: seq<Segment>)
    requires forall i :: 0 <= i < |segments| ==> !segments[i].Wildcard?
    ensures |r| == |segments| && AllPlain(r)
    ensures forall i :: 0 <= i < |r| ==> r[i] == AsPlain(segments[i])
  {
    seq(|segments|, i requires 0 <= i < |segments| => AsPlain(segments[i]))
  }

  lemma {:induction false} LookupConcreteIsLookup(value: Value, segments: seq<Segment>)
    requires forall i :: 0 <= i < |segments| ==> !segments[i].Wildcard?
    ensures LookupConcrete(value, segments) == Lookup(value, AllAsPlain(segments))
    decreases |segments|
  {
    if segments != [] {
      var next := OwnProperty(value, AsPlain(segments[0]));
      assert AllAsPlain(segments)[1..] == AllAsPlain(segments[1..]);
      if next.Some? {
        LookupConcreteIsLookup(next.value, segments[1..]);
      }
    }
  }

  /** Array lengths are below 2^32, so every index of an element is a safe integer. */
  predicate Sized(value: Value)
    decreases value, 1
  {
    match value
    case Arr(slots) => |slots| < 0x1_0000_0000 && forall i :: 0 <= i < |slots| ==> Sized(slots[i])
    case Obj(entries) => forall i :: 0 <= i < |entries| ==> Sized(entries[i].value)
    case _ => true
  }

  lemma {:induction false} EntryIsSized(entries: seq<Entry>, key: string)
    requires forall i :: 0 <= i < |entries| ==> Sized(entries[i].value)
    ensures EntryOf(entries, key).Some? ==> Sized(EntryOf(entries, key).value)
    decreases |entries|
  {
    if entries != [] && entries[0].key != key {
      EntryIsSized(entries[1..], key);
    }
  }

  lemma StepIsOwnProperty(segment: Segment, value: Value)
    requires !segment.Wildcard? && Sized(value)
    ensures var own := OwnProperty(value, AsPlain(segment));
            && StepInto(segment, value, true) == (if own.Some? then Found(own.value, true) else ABSENT)
            && (own.Some? ==> Sized(own.value))
  {
    if value.Obj? && !segment.Index? {
      EntryIsSized(value.entries, segment.name);
    }
  }

  lemma {:induction false} AbsentStaysAbsent(segments: seq<Segment>, path: seq<Segment>)
    requires forall i :: 0 <= i < |segments| ==> !segments[i].Wildcard?
    ensures Arrive(segments, Undefined, false, path, []) == Target(Undefined, false, path + segments)
    decreases |segments|
  {
    if segments == [] {
      assert path + segments == path;
    } else {
      AbsentStaysAbsent(segments[1..], path + [segments[0]]);
      assert path + segments == path + [segments[0]] + segments[1..];
    }
  }

  /** On a path without wildcards the one target is what lookupPath finds, at the path itself. */
  lemma {:induction false} WildcardFreeIsLookup(segments: seq<Segment>, value: Value, path: seq<Segment>)
    requires Sized(value) && forall i :: 0 <= i < |segments| ==> !segments[i].Wildcard?
    ensures var r := Lookup(value, AllAsPlain(segments));
            Arrive(segments, value, true, path, [])
            == Target(if r.Some? then r.value else Undefined, r.Some?, path + segments)
    decreases |segments|
  {
    LookupConcreteIsLookup(value, segments);
    if segments == [] {
      assert path + segments == path;
    } else {
      StepIsOwnProperty(segments[0], value);
      var own := OwnProperty(value, AsPlain(segments[0]));
      assert path + segments == path + [segments[0]] + segments[1..];
      if own.Some? {
        LookupConcreteIsLookup(own.value, segments[1..]);
        WildcardFreeIsLookup(segments[1..], own.value, path + [segments[0]]);
      } else {
        AbsentStaysAbsent(segments[1..], path + [segments[0]]);
      }
    }
  }

  lemma {:induction false} AbsentMeetsWildcard(
    before: seq<Segment>, after: seq<Segment>, path: seq<Segment>, choice: seq<nat>)
    requires forall i :: 0 <= i < |before| ==> !before[i].Wildcard?
    ensures Arrive(before + [Wildcard] + after, Undefined, false, path, choice)
         == if choice == [] then NotAnArray(path + before) else NoSuchChoice
    decreases |before|
  {
    var segments := before + [Wildcard] + after;
    if before == [] {
      assert path + before == path;
    } else {
      assert segments[1..] == before[1..] + [Wildcard] + after;
      AbsentMeetsWildcard(before[1..], after, path + [before[0]], choice);
      assert path + [before[0]] + before[1..] == path + before;
    }
  }

  /**
   A wildcard is on what lookupPath finds in front of it. An array is entered at every element, each with the rest of
   the path and under its index; on anything else the walk arrives at the wildcard itself.
   */
  lemma {:induction false} WildcardEntersEveryElement(
    before: seq<Segment>, after: seq<Segment>, value: Value, path: seq<Segment>, choice: seq<nat>)
    requires Sized(value) && forall i :: 0 <= i < |before| ==> !before[i].Wildcard?
    ensures var arrival := Arrive(before + [Wildcard] + after, value, true, path, choice);
            match Lookup(value, AllAsPlain(before))
            case Some(Arr(slots)) =>
              if choice == [] || |slots| <= choice[0] then arrival == NoSuchChoice
              else
                arrival
                == Arrive(after, Read(slots[choice[0]]), true, path + before + [Index(choice[0])], choice[1..])
            case _ => arrival == if choice == [] then NotAnArray(path + before) else NoSuchChoice
    decreases |before|
  {
    var segments := before + [Wildcard] + after;
    if before == [] {
      assert path + before == path && segments[1..] == after;
    } else {
      hide Sized, OwnProperty;
      StepIsOwnProperty(before[0], value);
      LookupConcreteIsLookup(value, before);
      var own := OwnProperty(value, AsPlain(before[0]));
      assert segments[1..] == before[1..] + [Wildcard] + after;
      assert path + [before[0]] + before[1..] == path + before;
      if own.Some? {
        LookupConcreteIsLookup(own.value, before[1..]);
        WildcardEntersEveryElement(before[1..], after, own.value, path + [before[0]], choice);
      } else {
        AbsentMeetsWildcard(before[1..], after, path + [before[0]], choice);
      }
    }
  }

  /** A failure's path is the field path with the chosen indices in place of its wildcards. */
  lemma {:induction false} TargetPathIsInstantiated(
    segments: seq<Segment>, value: Value, found: bool, path: seq<Segment>, choice: seq<nat>)
    ensures Arrive(segments, value, found, path, choice).Target?
            ==> Arrive(segments, value, found, path, choice).path == path + Instantiate(segments, choice)
    decreases |segments|
  {
    if segments == [] {
      assert path + [] == path;
    } else if segments[0].Wildcard? {
      if found && value.Arr? && choice != [] && choice[0] < |value.slots| {
        var here := [Index(choice[0])];
        TargetPathIsInstantiated(segments[1..], Read(value.slots[choice[0]]), true, path + here, choice[1..]);
        assert path + here + Instantiate(segments[1..], choice[1..])
            == path + (here + Instantiate(segments[1..], choice[1..]));
      }
    } else {
      var next, here := StepInto(segments[0], value, found), [segments[0]];
      TargetPathIsInstantiated(segments[1..], next.value, next.found, path + here, choice);
      assert path + here + Instantiate(segments[1..], choice) == path + (here + Instantiate(segments[1..], choice));
    }
  }

  // ----- All fields -----

  /** The failures of the first n fields in order, at most one each; origin names the failing fields. */
  ghost predicate AreFieldFailures(fields: seq<Field>, n: nat, payload: Value, failures: seq<Failure>, origin: seq<nat>)
    requires n <= |fields|
  {
    && |origin| == |failures|
    && (forall k :: 0 <= k < |origin| ==> origin[k] < n)
    && (forall j, k :: 0 <= j < k < |origin| ==> origin[j] < origin[k])
    && (forall k :: 0 <= k < |origin| ==> FieldFails(fields[origin[k]], payload, Some(failures[k])))
    && (forall i :: 0 <= i < n && i !in origin ==> FieldFails(fields[i], payload, None))
  }

  /** r is the first offence of a field whose path parses. */
  ghost predicate FieldFails(field: Field, payload: Value, r: Option<Failure>) {
    && FieldSegments(field.path).Some?
    && IsFirstOffence(FieldWalk(field, FieldSegments(field.path).value, payload), r)
  }

  /** Err carries the first stored path that does not parse (TransformationError). */
  method CollectFieldFailures(fields: seq<Field>, payload: Value)
    returns (r: Result<seq<Failure>, string>, ghost origin: seq<nat>)
    ensures r.Ok? ==> AreFieldFailures(fields, |fields|, payload, r.value, origin)
    ensures r.Err? ==> exists i ::
              && 0 <= i < |fields| && r.error == fields[i].path && FieldSegments(fields[i].path).None?
              && forall j :: 0 <= j < i ==> FieldSegments(fields[j].path).Some?
  {
    var failures: seq<Failure> := [];
    origin := [];
    for n := 0 to |fields|
      invariant AreFieldFailures(fields, n, payload, failures, origin)
      invariant forall j :: 0 <= j < n ==> FieldSegments(fields[j].path).Some?
    {
      var field := fields[n];
      var segments := ParseFieldPath(field.path);
      if segments.None? {
        return Err(field.path), origin;
      }
      var failure := WalkTargets(segments.value, field, payload, true, []);
      assert FieldFails(field, payload, failure);
      ExtendFailures(fields, n, payload, failures, origin, failure);
      if failure.Some? {
        failures, origin := failures + [failure.value], origin + [n];
      }
    }
    return Ok(failures), origin;
  }

  lemma ExtendFailures(
    fields: seq<Field>, n: nat, payload: Value, failures: seq<Failure>, origin: seq<nat>, failure: Option<Failure>)
    requires n < |fields| && AreFieldFailures(fields, n, payload, failures, origin)
    requires FieldFails(fields[n], payload, failure)
    ensures failure.None? ==> AreFieldFailures(fields, n + 1, payload, failures, origin)
    ensures failure.Some? ==> AreFieldFailures(fields, n + 1, payload, failures + [failure.value], origin + [n])
  {
    assert n in origin + [n];
  }
}
