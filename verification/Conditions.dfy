/**
 * The condition evaluator of src/game/Conditions.cpp: Meets over a table of
 * rows that refer to one another by number, the check each row goes through
 * when the table is loaded, and disabling. What a single predicate such as
 * "has this aura" looks at, and what makes its row valid, are parameters.
 */
module Conditions {
  import opened Bytes

  const NOT := -3
  const OR := -2
  const AND := -1
  const NONE := 0
  const LUNATIC := 61

  const REVERSE_RESULT: bv8 := 0x1
  const SWAP_TARGETS: bv8 := 0x2

  datatype Kind = Player | Creature | GameObject | OtherObject

  datatype WorldObject = WorldObject(guid: nat, kind: Kind)

  datatype Params = Params(target: Option<WorldObject>, mapId: Option<nat>, source: Option<WorldObject>)

  function Swapped(p: Params): Params
  {
    Params(p.source, p.mapId, p.target)
  }

  /** One row of the table. The values are signed; as row numbers they are read unsigned. */
  datatype Row = Row(entry: nat, condition: int, value1: int, value2: int, value3: int, value4: int, flags: bv8)

  function RowId(value: int): nat
  {
    value % TWO_32
  }

  predicate Reversed(r: Row)
  {
    r.flags & REVERSE_RESULT != 0
  }

  predicate SwapsTargets(r: Row)
  {
    r.flags & SWAP_TARGETS != 0
  }

  // ------------------------------------------------- which params a row needs

  datatype Requirement =
    | Nothing
    | TargetWorldObject | TargetGameObject | TargetUnit | TargetPlayer
    | SourceWorldObject | SourceUnit | SourceCreature
    | AnyWorldObject | MapOrWorldObject | BothWorldObjects

  /** The table ConditionTargets. */
  function RequirementOf(condition: int): Requirement
  {
    if condition in {1, 6, 15, 40, 41, 42, 43, 46, 60} then TargetUnit
    else if condition in {2, 3, 5, 7, 8, 9, 10, 14, 17, 19, 22, 23, 29, 30, 45, 51, 61} then TargetPlayer
    else if condition in {20, 21, 27, 28, 39, 54, 56} then TargetWorldObject
    else if condition in {48, 49, 55} then TargetGameObject
    else if condition in {13, 32} then SourceUnit
    else if condition in {16, 31, 52} then SourceWorldObject
    else if condition in {57, 58} then SourceCreature
    else if condition == 4 then AnyWorldObject
    else if condition in {18, 33, 34, 35, 36, 47, 50, 59} then MapOrWorldObject
    else if condition in {37, 38, 44} then BothWorldObjects
    else Nothing
  }

  predicate IsUnit(o: Option<WorldObject>)
  {
    o.Some? && (o.value.kind.Player? || o.value.kind.Creature?)
  }

  /** CheckParamRequirements. */
  predicate ParamsFit(r: Row, p: Params)
  {
    match RequirementOf(r.condition)
    case Nothing => true
    case TargetWorldObject => p.target.Some?
    case TargetGameObject => p.target.Some? && p.target.value.kind.GameObject?
    case TargetUnit => IsUnit(p.target)
    case TargetPlayer => p.target.Some? && p.target.value.kind.Player?
    case SourceWorldObject => p.source.Some?
    case SourceUnit => IsUnit(p.source)
    case SourceCreature => p.source.Some? && p.source.value.kind.Creature?
    case AnyWorldObject => p.source.Some? || p.target.Some?
    case MapOrWorldObject => p.mapId.Some? || p.source.Some? || p.target.Some?
    case BothWorldObjects => p.source.Some? && p.target.Some?
  }

  // ------------------------------------------------------------- evaluation

  type Table = map<nat, Row>

  /** The part of a row that a single predicate looks at. */
  datatype Predicate = Predicate(condition: int, value1: int, value2: int, value3: int, value4: int)

  function PredicateOf(r: Row): Predicate
  {
    Predicate(r.condition, r.value1, r.value2, r.value3, r.value4)
  }

  /** What a single predicate says of the params it is given. */
  type Leaf = (Predicate, Params) -> bool

  /** The params a row looks at. */
  function Seen(r: Row, p: Params): Params
  {
    if SwapsTargets(r) then Swapped(p) else p
  }

  /** C++'s !, || and && where the left operand, or both, may not return. */
  function Negate(a: Option<bool>): Option<bool>
  {
    if a.Some? then Some(!a.value) else None
  }

  function OrElse(a: Option<bool>, b: Option<bool>): Option<bool>
  {
    if a == Some(false) then b else a
  }

  function AndAlso(a: Option<bool>, b: Option<bool>): Option<bool>
  {
    if a == Some(true) then b else a
  }

  /**
   * Meets called on row id, nested at most depth deep. None stands for a call
   * that does not come back: the row is missing, which dereferences null, or
   * the calls nest deeper.
   */
  function Meets(t: Table, leaf: Leaf, id: nat, p: Params, depth: nat): Option<bool>
    decreases depth, 2
  {
    if depth == 0 || id !in t then None
    else MeetsRow(t, leaf, t[id], p, depth)
  }

  function MeetsRow(t: Table, leaf: Leaf, r: Row, p: Params, depth: nat): Option<bool>
    requires depth > 0
    decreases depth, 1
  {
    var seen := Seen(r, p);
    if !ParamsFit(r, seen) then Some(false)
    else
      var result := Evaluate(t, leaf, r, seen, depth);
      if Reversed(r) then Negate(result) else result
  }

  function Evaluate(t: Table, leaf: Leaf, r: Row, p: Params, depth: nat): Option<bool>
    requires depth > 0
    decreases depth, 0
  {
    if r.condition == NOT then
      OrElse(Extra(t, leaf, r.value3, p, depth - 1, false),
             OrElse(Extra(t, leaf, r.value4, p, depth - 1, false),
                    Negate(Meets(t, leaf, RowId(r.value1), p, depth - 1))))
    else if r.condition == OR then
      OrElse(Extra(t, leaf, r.value3, p, depth - 1, false),
             OrElse(Extra(t, leaf, r.value4, p, depth - 1, false),
                    OrElse(Meets(t, leaf, RowId(r.value1), p, depth - 1),
                           Meets(t, leaf, RowId(r.value2), p, depth - 1))))
    else if r.condition == AND then
      AndAlso(Extra(t, leaf, r.value3, p, depth - 1, true),
              AndAlso(Extra(t, leaf, r.value4, p, depth - 1, true),
                      AndAlso(Meets(t, leaf, RowId(r.value1), p, depth - 1),
                              Meets(t, leaf, RowId(r.value2), p, depth - 1))))
    else if r.condition == NONE then Some(true)
    else Some(leaf(PredicateOf(r), p))
  }

  /** The optional third and fourth condition: zero means there is none. */
  function Extra(t: Table, leaf: Leaf, value: int, p: Params, depth: nat, absent: bool): Option<bool>
    decreases depth, 3
  {
    if value == 0 then Some(absent) else Meets(t, leaf, RowId(value), p, depth)
  }

  // ----------------------------------------------------------------- loading

  /** DisableCondition. */
  function Disabled(r: Row): Row
  {
    r.(condition := NONE, flags := r.flags ^ REVERSE_RESULT)
  }

  datatype Verdict = Valid | Disable | Invalid

  /** What IsValid makes of a predicate's own values. */
  type LeafCheck = Row -> Verdict

  predicate IsJunction(r: Row)
  {
    r.condition == NOT || r.condition == OR || r.condition == AND
  }

  /** A value that names an earlier row that is there. */
  predicate RefersBack(keys: set<nat>, r: Row, value: int)
  {
    RowId(value) < r.entry && RowId(value) in keys
  }

  predicate ExtraRefersBack(keys: set<nat>, r: Row, value: int)
  {
    value == 0 || RefersBack(keys, r, value)
  }

  /** IsValid: what becomes of the row. NOT has its third and fourth value unchecked. */
  function Check(keys: set<nat>, leafCheck: LeafCheck, r: Row): Verdict
  {
    if r.condition == NOT then
      if RefersBack(keys, r, r.value1) then Valid else Invalid
    else if r.condition == OR || r.condition == AND then
      if && RefersBack(keys, r, r.value1) && RefersBack(keys, r, r.value2)
         && ExtraRefersBack(keys, r, r.value3) && ExtraRefersBack(keys, r, r.value4)
      then Valid else Invalid
    else if r.condition == NONE then Valid
    else if r.condition < NOT || r.condition > LUNATIC then Invalid
    else leafCheck(r)
  }

  /** Row i after its check, the rows before it being settled. */
  function Settle(t: Table, leafCheck: LeafCheck, i: nat): Table
  {
    if i !in t then t
    else
      match Check(t.Keys, leafCheck, t[i])
      case Valid => t
      case Disable => t[i := Disabled(t[i])]
      case Invalid => t - {i}
  }

  /** The table after the rows below n have been checked in order. */
  function Loaded(t: Table, leafCheck: LeafCheck, n: nat): Table
  {
    if n == 0 then t else Settle(Loaded(t, leafCheck, n - 1), leafCheck, n - 1)
  }

  class ConditionEntry {
    const entry: nat
    var condition: int
    var flags: bv8
    const value1: int
    const value2: int
    const value3: int
    const value4: int

    constructor (r: Row)
      ensures AsRow() == r
    {
      entry, condition, flags := r.entry, r.condition, r.flags;
      value1, value2, value3, value4 := r.value1, r.value2, r.value3, r.value4;
    }

    function AsRow(): Row
      reads this
    {
      Row(entry, condition, value1, value2, value3, value4, flags)
    }

    method DisableCondition()
      modifies this
      ensures AsRow() == Disabled(old(AsRow()))
    {
      condition := NONE;
      flags := flags ^ REVERSE_RESULT;
    }

    /** IsValid: may disable the entry, and then the answer is true. */
    method IsValid(keys: set<nat>, leafCheck: LeafCheck) returns (ok: bool)
      modifies this
      ensures var verdict := Check(keys, leafCheck, old(AsRow()));
              && ok == !verdict.Invalid?
              && AsRow() == if verdict.Disable? then Disabled(old(AsRow())) else old(AsRow())
    {
      if condition == NOT {
        return RowId(value1) < entry && RowId(value1) in keys;
      }
      if condition == OR || condition == AND {
        if RowId(value1) >= entry || RowId(value2) >= entry { return false; }
        if RowId(value1) !in keys || RowId(value2) !in keys { return false; }
        if value3 != 0 {
          if RowId(value3) >= entry || RowId(value3) !in keys { return false; }
        }
        if value4 != 0 {
          if RowId(value4) >= entry || RowId(value4) !in keys { return false; }
        }
        return true;
      }
      if condition == NONE { return true; }
      if condition < NOT || condition > LUNATIC { return false; }
      match leafCheck(AsRow())
      case Valid => return true;
      case Invalid => return false;
      case Disable => DisableCondition(); return true;
    }
  }

  /** The storage rows are looked up in. */
  class ConditionStorage {
    var entries: map<nat, ConditionEntry>
    var maxEntry: nat

    ghost predicate Valid()
      reads this, entries.Values
    {
      forall k | k in entries :: k < maxEntry && entries[k].entry == k
    }

    function View(): Table
      reads this, entries.Values
    {
      map k | k in entries :: entries[k].AsRow()
    }

    constructor ()
      ensures Valid() && entries == map[] && maxEntry == 0
    {
      entries := map[];
      maxEntry := 0;
    }

    /** The loop of ObjectMgr::LoadConditions: check each row in turn and erase the invalid ones. */
    method Load(leafCheck: LeafCheck)
      requires Valid()
      modifies this, entries.Values
      ensures Valid() && maxEntry == old(maxEntry)
      ensures entries.Values <= old(entries.Values)
      ensures View() == Loaded(old(View()), leafCheck, maxEntry)
    {
      var i := 0;
      while i < maxEntry
        invariant 0 <= i <= maxEntry == old(maxEntry)
        invariant Valid() && entries.Values <= old(entries.Values)
        invariant View() == Loaded(old(View()), leafCheck, i)
      {
        LoadOne(i, leafCheck);
        i := i + 1;
      }
    }

    method LoadOne(i: nat, leafCheck: LeafCheck)
      requires Valid()
      modifies this`entries, entries.Values
      ensures Valid()
      ensures entries.Values <= old(entries.Values)
      ensures View() == Settle(old(View()), leafCheck, i)
    {
      hide Check;
      if i in entries {
        var condition := entries[i];
        assert condition in entries.Values;
        var ok := condition.IsValid(entries.Keys, leafCheck);
        assert old(View()).Keys == entries.Keys;
        if !ok {
          entries := entries - {i};
        }
      }
    }
  }
}
