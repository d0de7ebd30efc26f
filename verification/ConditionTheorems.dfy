/** What the condition evaluator comes to on a loaded table. */
module ConditionTheorems {
  import opened Bytes
  import opened Conditions

  // ---------------------------------------------------------------- loading

  ghost predicate Keyed(t: Table)
  {
    forall k | k in t :: t[k].entry == k
  }

  /** Every reference IsValid checks, on the rows below n, leads to an earlier row that is there. */
  ghost predicate ClosedBelow(t: Table, n: nat)
  {
    forall k | k in t && k < n :: RefsChecked(t.Keys, t[k])
  }

  predicate RefsChecked(keys: set<nat>, r: Row)
  {
    && (IsJunction(r) ==> RefersBack(keys, r, r.value1))
    && (r.condition == OR || r.condition == AND ==>
          && RefersBack(keys, r, r.value2)
          && ExtrasReferBack(keys, r))
  }

  predicate ExtrasReferBack(keys: set<nat>, r: Row)
  {
    ExtraRefersBack(keys, r, r.value3) && ExtraRefersBack(keys, r, r.value4)
  }

  /** After the load the table is closed, although rows were erased on the way. */
  lemma {:induction false} LoadCloses(t: Table, leafCheck: LeafCheck, n: nat)
    requires Keyed(t)
    ensures var l := Loaded(t, leafCheck, n);
            && Keyed(l) && ClosedBelow(l, n) && l.Keys <= t.Keys
            && (forall k | k >= n :: (k in l <==> k in t) && (k in t ==> l[k] == t[k]))
  {
    if n > 0 {
      LoadCloses(t, leafCheck, n - 1);
      SettleCloses(Loaded(t, leafCheck, n - 1), leafCheck, n - 1);
    }
  }

  lemma SettleCloses(t: Table, leafCheck: LeafCheck, i: nat)
    requires Keyed(t) && ClosedBelow(t, i)
    ensures var s := Settle(t, leafCheck, i);
            && Keyed(s) && ClosedBelow(s, i + 1) && s.Keys <= t.Keys
            && (forall k | k != i :: (k in s <==> k in t) && (k in t ==> s[k] == t[k]))
  {
  }

  /** A row survives the load exactly when it passes against the rows before it that did. */
  lemma {:induction false} KeptExactly(t: Table, leafCheck: LeafCheck, n: nat, k: nat)
    requires Keyed(t) && k < n && k in t
    ensures var verdict := Check(Loaded(t, leafCheck, k).Keys, leafCheck, t[k]);
            var l := Loaded(t, leafCheck, n);
            && (k in l <==> !verdict.Invalid?)
            && (k in l ==> l[k] == if verdict.Disable? then Disabled(t[k]) else t[k])
  {
    hide Check;
    LoadCloses(t, leafCheck, n - 1);
    SettleCloses(Loaded(t, leafCheck, n - 1), leafCheck, n - 1);
    if k < n - 1 {
      KeptExactly(t, leafCheck, n - 1, k);
    }
  }

  /** Every reference Meets follows leads back, so no call nests deeper than the number of its row. */
  ghost predicate Sound(t: Table)
  {
    Keyed(t) && forall k | k in t :: RefsBack(t.Keys, t[k])
  }

  predicate RefsBack(keys: set<nat>, r: Row)
  {
    RefsChecked(keys, r) && (IsJunction(r) ==> ExtrasReferBack(keys, r))
  }

  /** What the load leaves open is the third and fourth value of NOT. */
  lemma LoadedIsSoundExactly(t: Table, leafCheck: LeafCheck, max: nat)
    requires Keyed(t) && forall k | k in t :: k < max
    ensures var l := Loaded(t, leafCheck, max);
            Sound(l) <==> forall k | k in l && l[k].condition == NOT :: ExtrasReferBack(l.Keys, l[k])
  {
    hide Loaded;
    LoadCloses(t, leafCheck, max);
  }

  /** Any NOT whose third value is its own row passes the check and never comes back, whatever else it holds. */
  lemma {:induction false} NotOfItselfDoesNotReturn(t: Table, leaf: Leaf, leafCheck: LeafCheck,
                                                    id: nat, p: Params, depth: nat)
    requires id in t && t[id].entry == id && t[id].condition == NOT
    requires RefersBack(t.Keys, t[id], t[id].value1) && RowId(t[id].value3) == id
    ensures Check(t.Keys, leafCheck, t[id]).Valid?
    ensures Meets(t, leaf, id, p, depth).None?
    decreases depth
  {
    if depth > 0 {
      var r := t[id];
      var seen := Seen(r, p);
      NotOfItselfDoesNotReturn(t, leaf, leafCheck, id, seen, depth - 1);
      assert r.value3 != 0;
      assert Extra(t, leaf, r.value3, seen, depth - 1, false).None?;
      assert Evaluate(t, leaf, r, seen, depth).None?;
      assert MeetsRow(t, leaf, r, p, depth).None?;
    }
  }

  // --------------------------------------------------------------- formulas

  datatype Formula =
    | Atom(asked: Predicate)
    | Not(f: Formula)
    | All(fs: seq<Formula>)
    | Any(fs: seq<Formula>)
    | Swap(f: Formula)
    | Guard(row: Row, f: Formula)

  ghost predicate Holds(f: Formula, leaf: Leaf, p: Params)
  {
    match f
    case Atom(a) => leaf(a, p)
    case Not(g) => !Holds(g, leaf, p)
    case All(fs) => forall g | g in fs :: Holds(g, leaf, p)
    case Any(fs) => exists g | g in fs :: Holds(g, leaf, p)
    case Swap(g) => Holds(g, leaf, Swapped(p))
    case Guard(r, g) => ParamsFit(r, p) && Holds(g, leaf, p)
  }

  /** The formula a row stands for, its references replaced by what they stand for. */
  ghost function Unfold(t: Table, id: nat): Formula
    requires Sound(t) && id in t
    decreases id, 2
  {
    var r := t[id];
    var guarded := Guard(r, if Reversed(r) then Not(Body(t, id)) else Body(t, id));
    if SwapsTargets(r) then Swap(guarded) else guarded
  }

  ghost function Body(t: Table, id: nat): Formula
    requires Sound(t) && id in t
    decreases id, 1
  {
    var r := t[id];
    assert RefsBack(t.Keys, r);
    if r.condition == NOT then
      Any(Extras(t, id) + [Not(Unfold(t, RowId(r.value1)))])
    else if r.condition == OR then
      Any(Extras(t, id) + [Unfold(t, RowId(r.value1)), Unfold(t, RowId(r.value2))])
    else if r.condition == AND then
      All(Extras(t, id) + [Unfold(t, RowId(r.value1)), Unfold(t, RowId(r.value2))])
    else if r.condition == NONE then All([])
    else Atom(PredicateOf(r))
  }

  ghost function Extras(t: Table, id: nat): seq<Formula>
    requires Sound(t) && id in t && IsJunction(t[id])
    decreases id, 0
  {
    var r := t[id];
    assert RefsBack(t.Keys, r);
    (if r.value3 == 0 then [] else [Unfold(t, RowId(r.value3))])
    + (if r.value4 == 0 then [] else [Unfold(t, RowId(r.value4))])
  }

  /** The whole of a junction from its optional parts and the rest. */
  lemma PartsHold(t: Table, leaf: Leaf, id: nat, p: Params, rest: seq<Formula>)
    requires Sound(t) && id in t && IsJunction(t[id]) && RefsBack(t.Keys, t[id])
    ensures var r, e := t[id], Extras(t, id);
            && (Holds(Any(e + rest), leaf, p) <==>
                || (r.value3 != 0 && Holds(Unfold(t, RowId(r.value3)), leaf, p))
                || (r.value4 != 0 && Holds(Unfold(t, RowId(r.value4)), leaf, p))
                || exists g | g in rest :: Holds(g, leaf, p))
            && (Holds(All(e + rest), leaf, p) <==>
                && (r.value3 != 0 ==> Holds(Unfold(t, RowId(r.value3)), leaf, p))
                && (r.value4 != 0 ==> Holds(Unfold(t, RowId(r.value4)), leaf, p))
                && forall g | g in rest :: Holds(g, leaf, p))
  {
    hide Unfold;
    var r, e := t[id], Extras(t, id);
    if r.value3 != 0 { assert e[0] == Unfold(t, RowId(r.value3)) && e[0] in e + rest; }
    if r.value4 != 0 {
      var last := |e| - 1;
      assert e[last] == Unfold(t, RowId(r.value4)) && e[last] in e + rest;
    }
    forall g | g in rest ensures g in e + rest {}
  }

  /** On a sound table Meets comes back for every row, and says what the row's formula says. */
  lemma {:induction false} MeetsIsTheFormula(t: Table, leaf: Leaf, id: nat, p: Params, depth: nat)
    requires Sound(t) && id in t && depth > id
    ensures Meets(t, leaf, id, p, depth) == Some(Holds(Unfold(t, id), leaf, p))
    decreases id, 1
  {
    hide Body, Evaluate, ParamsFit;
    var r, seen, body := t[id], Seen(t[id], p), Body(t, id);
    EvaluateIsTheBody(t, leaf, id, seen, depth);
    var signed := if Reversed(r) then Not(body) else body;
    assert Holds(signed, leaf, seen) == if Reversed(r) then !Holds(body, leaf, seen) else Holds(body, leaf, seen);
    assert MeetsRow(t, leaf, r, p, depth) == Some(Holds(Guard(r, signed), leaf, seen));
  }

  lemma {:induction false} EvaluateIsTheBody(t: Table, leaf: Leaf, id: nat, p: Params, depth: nat)
    requires Sound(t) && id in t && depth > id
    ensures Evaluate(t, leaf, t[id], p, depth) == Some(Holds(Body(t, id), leaf, p))
    decreases id, 0
  {
    var r := t[id];
    assert RefsBack(t.Keys, r);
    if IsJunction(r) {
      if r.value3 != 0 { MeetsIsTheFormula(t, leaf, RowId(r.value3), p, depth - 1); }
      if r.value4 != 0 { MeetsIsTheFormula(t, leaf, RowId(r.value4), p, depth - 1); }
      MeetsIsTheFormula(t, leaf, RowId(r.value1), p, depth - 1);
      if r.condition == NOT {
        NotIsTheBody(t, leaf, id, p, depth);
      } else {
        MeetsIsTheFormula(t, leaf, RowId(r.value2), p, depth - 1);
        PairIsTheBody(t, leaf, id, p, depth);
      }
    }
  }

  /** The references of a junction come to what they stand for. */
  ghost predicate PartsAgree(t: Table, leaf: Leaf, id: nat, p: Params, depth: nat)
    requires Sound(t) && id in t && IsJunction(t[id]) && RefsBack(t.Keys, t[id])
  {
    var r := t[id];
    && Meets(t, leaf, RowId(r.value1), p, depth) == Some(Holds(Unfold(t, RowId(r.value1)), leaf, p))
    && (r.condition != NOT ==>
          Meets(t, leaf, RowId(r.value2), p, depth) == Some(Holds(Unfold(t, RowId(r.value2)), leaf, p)))
    && (r.value3 != 0 ==>
          Meets(t, leaf, RowId(r.value3), p, depth) == Some(Holds(Unfold(t, RowId(r.value3)), leaf, p)))
    && (r.value4 != 0 ==>
          Meets(t, leaf, RowId(r.value4), p, depth) == Some(Holds(Unfold(t, RowId(r.value4)), leaf, p)))
  }

  lemma NotIsTheBody(t: Table, leaf: Leaf, id: nat, p: Params, depth: nat)
    requires depth > 0
    requires Sound(t) && id in t && t[id].condition == NOT && RefsBack(t.Keys, t[id])
    requires PartsAgree(t, leaf, id, p, depth - 1)
    ensures Evaluate(t, leaf, t[id], p, depth) == Some(Holds(Body(t, id), leaf, p))
  {
    hide Unfold, Extras, Meets;
    var first := Unfold(t, RowId(t[id].value1));
    var rest := [Not(first)];
    PartsHold(t, leaf, id, p, rest);
    assert rest[0] in rest && Holds(rest[0], leaf, p) == !Holds(first, leaf, p);
  }

  lemma PairIsTheBody(t: Table, leaf: Leaf, id: nat, p: Params, depth: nat)
    requires depth > 0
    requires Sound(t) && id in t && (t[id].condition == OR || t[id].condition == AND) && RefsBack(t.Keys, t[id])
    requires PartsAgree(t, leaf, id, p, depth - 1)
    ensures Evaluate(t, leaf, t[id], p, depth) == Some(Holds(Body(t, id), leaf, p))
  {
    hide Unfold, Extras, Meets, Holds;
    var rest := [Unfold(t, RowId(t[id].value1)), Unfold(t, RowId(t[id].value2))];
    PartsHold(t, leaf, id, p, rest);
    assert rest[0] in rest && rest[1] in rest;
  }

  /**
   * From the database to the answer: when the NOT rows leave their third and
   * fourth value zero, every row the load keeps can be evaluated, whatever the
   * params, and means its formula.
   */
  lemma LoadedTableEvaluates(t: Table, leafCheck: LeafCheck, leaf: Leaf, max: nat, id: nat, p: Params)
    requires Keyed(t) && forall k | k in t :: k < max
    requires forall k | k in t && t[k].condition == NOT :: t[k].value3 == 0 && t[k].value4 == 0
    requires id in Loaded(t, leafCheck, max)
    ensures var l := Loaded(t, leafCheck, max);
            Sound(l) && Meets(l, leaf, id, p, id + 1) == Some(Holds(Unfold(l, id), leaf, p))
  {
    hide Loaded, Check, Meets, Holds;
    var l := Loaded(t, leafCheck, max);
    LoadCloses(t, leafCheck, max);
    forall k | k in l && l[k].condition == NOT ensures ExtrasReferBack(l.Keys, l[k]) {
      KeptExactly(t, leafCheck, max, k);
    }
    LoadedIsSoundExactly(t, leafCheck, max);
    MeetsIsTheFormula(l, leaf, id, p, id + 1);
  }

  // ------------------------------------------------------- rows by number

  /** What the conditions ask of their params, in the order of their numbers. */
  lemma RequirementsByNumber(c: int)
    ensures -3 <= c <= 0 ==> RequirementOf(c) == [
              Nothing, Nothing, Nothing, Nothing][c + 3]
    ensures 1 <= c <= 10 ==> RequirementOf(c) == [
              TargetUnit, TargetPlayer, TargetPlayer, AnyWorldObject, TargetPlayer, TargetUnit,
              TargetPlayer, TargetPlayer, TargetPlayer, TargetPlayer][c - 1]
    ensures 11 <= c <= 20 ==> RequirementOf(c) == [
              Nothing, Nothing, SourceUnit, TargetPlayer, TargetUnit, SourceWorldObject,
              TargetPlayer, MapOrWorldObject, TargetPlayer, TargetWorldObject][c - 11]
    ensures 21 <= c <= 30 ==> RequirementOf(c) == [
              TargetWorldObject, TargetPlayer, TargetPlayer, Nothing, Nothing, Nothing,
              TargetWorldObject, TargetWorldObject, TargetPlayer, TargetPlayer][c - 21]
    ensures 31 <= c <= 40 ==> RequirementOf(c) == [
              SourceWorldObject, SourceUnit, MapOrWorldObject, MapOrWorldObject, MapOrWorldObject,
              MapOrWorldObject, BothWorldObjects, BothWorldObjects, TargetWorldObject, TargetUnit][c - 31]
    ensures 41 <= c <= 50 ==> RequirementOf(c) == [
              TargetUnit, TargetUnit, TargetUnit, BothWorldObjects, TargetPlayer, TargetUnit,
              MapOrWorldObject, TargetGameObject, TargetGameObject, MapOrWorldObject][c - 41]
    ensures 51 <= c <= 60 ==> RequirementOf(c) == [
              TargetPlayer, SourceWorldObject, Nothing, TargetWorldObject, TargetGameObject,
              TargetWorldObject, SourceCreature, SourceCreature, MapOrWorldObject, TargetUnit][c - 51]
    ensures RequirementOf(61) == TargetPlayer
  {
  }

  predicate Is(o: Option<WorldObject>, kinds: set<Kind>)
  {
    o.Some? && o.value.kind in kinds
  }

  /** Which params fit a row, by what its condition asks. */
  lemma FitsExactly(r: Row, p: Params)
    ensures ParamsFit(r, p) <==>
              var q := RequirementOf(r.condition);
              && (q == TargetPlayer ==> Is(p.target, {Player}))
              && (q == TargetUnit ==> Is(p.target, {Player, Creature}))
              && (q == TargetGameObject ==> Is(p.target, {GameObject}))
              && (q == TargetWorldObject ==> p.target != None)
              && (q == SourceCreature ==> Is(p.source, {Creature}))
              && (q == SourceUnit ==> Is(p.source, {Player, Creature}))
              && (q == SourceWorldObject ==> p.source != None)
              && (q == BothWorldObjects ==> p.source != None && p.target != None)
              && (q == AnyWorldObject ==> p.source != None || p.target != None)
              && (q == MapOrWorldObject ==> p.mapId != None || p.source != None || p.target != None)
  {
    hide RequirementOf;
  }

  /** Does the row that a value names hold? */
  ghost predicate True(t: Table, leaf: Leaf, value: int, p: Params, depth: nat)
  {
    var answer := Meets(t, leaf, value % 0x1_0000_0000, p, depth);
    answer.Some? && answer.value
  }

  /** What a row comes to, by the number of its condition, from what the rows it names say. */
  ghost predicate Result(t: Table, leaf: Leaf, r: Row, p: Params, depth: nat)
  {
    var three := r.value3 != 0 && True(t, leaf, r.value3, p, depth);
    var four := r.value4 != 0 && True(t, leaf, r.value4, p, depth);
    var one, two := True(t, leaf, r.value1, p, depth), True(t, leaf, r.value2, p, depth);
    if r.condition == -3 then three || four || !one
    else if r.condition == -2 then three || four || one || two
    else if r.condition == -1 then (r.value3 == 0 || three) && (r.value4 == 0 || four) && one && two
    else r.condition == 0 || leaf(Predicate(r.condition, r.value1, r.value2, r.value3, r.value4), p)
  }

  lemma ReferenceByNumber(t: Table, leaf: Leaf, value: int, p: Params, depth: nat)
    ensures var answer := Meets(t, leaf, RowId(value), p, depth);
            True(t, leaf, value, p, depth) <==> answer.Some? && answer.value
    ensures forall absent :: Extra(t, leaf, value, p, depth, absent) ==
              if value == 0 then Some(absent) else Meets(t, leaf, RowId(value), p, depth)
  {
  }

  lemma EvaluateByNumber(t: Table, leaf: Leaf, r: Row, p: Params, depth: nat)
    requires depth > 0
    requires forall x :: x in Refs(r) ==> Meets(t, leaf, x, p, depth - 1).Some?
    ensures Evaluate(t, leaf, r, p, depth) == Some(Result(t, leaf, r, p, depth - 1))
  {
    hide Meets, True;
    if IsJunction(r) {
      ReferenceByNumber(t, leaf, r.value1, p, depth - 1);
      ReferenceByNumber(t, leaf, r.value2, p, depth - 1);
      ReferenceByNumber(t, leaf, r.value3, p, depth - 1);
      ReferenceByNumber(t, leaf, r.value4, p, depth - 1);
      var one, two := Meets(t, leaf, RowId(r.value1), p, depth - 1), Meets(t, leaf, RowId(r.value2), p, depth - 1);
      var absent := r.condition == AND;
      var three := Extra(t, leaf, r.value3, p, depth - 1, absent);
      var four := Extra(t, leaf, r.value4, p, depth - 1, absent);
      assert RowId(r.value1) in Refs(r);
      assert r.value3 != 0 ==> RowId(r.value3) in Refs(r);
      assert r.value4 != 0 ==> RowId(r.value4) in Refs(r);
      assert r.condition != NOT ==> RowId(r.value2) in Refs(r);
      assert Evaluate(t, leaf, r, p, depth) ==
             if r.condition == NOT then OrElse(three, OrElse(four, Negate(one)))
             else if r.condition == OR then OrElse(three, OrElse(four, OrElse(one, two)))
             else AndAlso(three, AndAlso(four, AndAlso(one, two)));
    }
  }

  /**
   * One row of a sound table, in the numbers of the database: what it says from
   * what the rows it names say, its flags, and whether its params fit.
   */
  lemma MeetsByNumber(t: Table, leaf: Leaf, id: nat, p: Params)
    requires Sound(t) && id in t
    ensures var r := t[id];
            var seen := if r.flags & 2 != 0 then Params(p.source, p.mapId, p.target) else p;
            Meets(t, leaf, id, p, id + 1)
            == Some(ParamsFit(r, seen) && (Result(t, leaf, r, seen, id) <==> r.flags & 1 == 0))
  {
    hide ParamsFit, Meets, Result, Evaluate;
    assert RefsBack(t.Keys, t[id]);
    MeetsUnfolds(t, leaf, id, p);
    var r, seen := t[id], Seen(t[id], p);
    forall x | x in Refs(r) ensures Meets(t, leaf, x, seen, id).Some? {
      ComesBack(t, leaf, x, seen, id);
    }
    EvaluateByNumber(t, leaf, r, seen, id + 1);
  }

  /** The first answer that is not the given one, which is the last word if there is none: how || and && read in order. */
  function FirstOther(answers: seq<Option<bool>>, given: bool): Option<bool>
  {
    if answers == [] then Some(given)
    else if answers[0].Some? && answers[0].value == given then FirstOther(answers[1..], given)
    else answers[0]
  }

  /**
   * On any table, sound or not, a junction asks for its third, fourth, first and
   * second value in that order, as far as it must; it does not come back when
   * the one that decides does not, nor does a call on a row that is missing.
   */
  lemma AskedInOrder(t: Table, leaf: Leaf, r: Row, p: Params, depth: nat)
    requires depth > 0
    ensures var d := depth - 1;
            var one := Meets(t, leaf, r.value1 % 0x1_0000_0000, p, d);
            var two := Meets(t, leaf, r.value2 % 0x1_0000_0000, p, d);
            var extras := (if r.value3 == 0 then [] else [Meets(t, leaf, r.value3 % 0x1_0000_0000, p, d)])
                          + (if r.value4 == 0 then [] else [Meets(t, leaf, r.value4 % 0x1_0000_0000, p, d)]);
            && (r.condition == -3 ==>
                  Evaluate(t, leaf, r, p, depth)
                  == FirstOther(extras + [if one.Some? then Some(!one.value) else None], false))
            && (r.condition == -2 ==> Evaluate(t, leaf, r, p, depth) == FirstOther(extras + [one, two], false))
            && (r.condition == -1 ==> Evaluate(t, leaf, r, p, depth) == FirstOther(extras + [one, two], true))
    ensures forall id: nat :: id !in t ==> Meets(t, leaf, id, p, depth).None?
  {
    hide MeetsRow, True, FirstOther;
    ReferenceByNumber(t, leaf, r.value3, p, depth - 1);
    ReferenceByNumber(t, leaf, r.value4, p, depth - 1);
    var one, two := Meets(t, leaf, RowId(r.value1), p, depth - 1), Meets(t, leaf, RowId(r.value2), p, depth - 1);
    var three, four := Meets(t, leaf, RowId(r.value3), p, depth - 1), Meets(t, leaf, RowId(r.value4), p, depth - 1);
    InOrderOf(three, four, [Negate(one)], r, false);
    InOrderOf(three, four, [one, two], r, r.condition == AND);
    FirstOfTwo(Negate(one), two, false);
    FirstOfTwo(one, two, r.condition == AND);
  }

  lemma FirstOfTwo(a: Option<bool>, b: Option<bool>, given: bool)
    ensures FirstOther([a], given) == if a.Some? && a.value == given then Some(given) else a
    ensures FirstOther([a, b], given) == if !(a.Some? && a.value == given) then a
                                         else if b.Some? && b.value == given then Some(given) else b
  {
    assert [a, b][1..] == [b] && [b][1..] == [] && [a][1..] == [];
  }

  lemma InOrderOf(three: Option<bool>, four: Option<bool>, rest: seq<Option<bool>>, r: Row, given: bool)
    ensures var extras := (if r.value3 == 0 then [] else [three]) + (if r.value4 == 0 then [] else [four]);
            FirstOther(extras + rest, given)
            == if r.value3 != 0 && !(three.Some? && three.value == given) then three
               else if r.value4 != 0 && !(four.Some? && four.value == given) then four
               else FirstOther(rest, given)
  {
    var extras := (if r.value3 == 0 then [] else [three]) + (if r.value4 == 0 then [] else [four]);
    var tail := (if r.value4 == 0 then [] else [four]) + rest;
    if r.value3 == 0 { assert extras + rest == tail; } else { assert extras + rest == [three] + tail; }
    if r.value4 == 0 { assert tail == rest; } else { assert tail[1..] == rest; }
  }

  lemma MeetsUnfolds(t: Table, leaf: Leaf, id: nat, p: Params)
    requires id in t
    ensures Meets(t, leaf, id, p, id + 1) == MeetsRow(t, leaf, t[id], p, id + 1)
  {
  }

  lemma ComesBack(t: Table, leaf: Leaf, id: nat, p: Params, depth: nat)
    requires Sound(t) && id in t && id < depth
    ensures Meets(t, leaf, id, p, depth).Some?
  {
    MeetsIsTheFormula(t, leaf, id, p, depth);
  }

  /** Does a value name an earlier row of the table? */
  predicate Earlier(keys: set<nat>, r: Row, value: int)
  {
    value % 0x1_0000_0000 < r.entry && value % 0x1_0000_0000 in keys
  }

  /** What becomes of a row when the table is loaded, in the numbers of the database. */
  lemma CheckByNumber(keys: set<nat>, leafCheck: LeafCheck, r: Row)
    ensures Check(keys, leafCheck, r) ==
            if r.condition < -3 || r.condition > 61 then Invalid
            else if r.condition > 0 then leafCheck(r)
            else if || r.condition == 0
                    || (r.condition == -3 && Earlier(keys, r, r.value1))
                    || (&& r.condition in {-2, -1}
                        && Earlier(keys, r, r.value1) && Earlier(keys, r, r.value2)
                        && (r.value3 == 0 || Earlier(keys, r, r.value3))
                        && (r.value4 == 0 || Earlier(keys, r, r.value4)))
            then Valid else Invalid
    ensures Disabled(r) == r.(condition := 0, flags := r.flags ^ 1)
  {
  }

  // ---------------------------------------------------- what the leaves see

  /** One predicate asked on the way: the rows from the top down to it, and what it is given. */
  datatype Call = Call(path: seq<nat>, params: Params)

  function Refs(r: Row): set<nat>
  {
    (if IsJunction(r) then {RowId(r.value1)} else {})
    + (if r.condition == OR || r.condition == AND then {RowId(r.value2)} else {})
    + (if IsJunction(r) && r.value3 != 0 then {RowId(r.value3)} else {})
    + (if IsJunction(r) && r.value4 != 0 then {RowId(r.value4)} else {})
  }

  /** Every predicate Meets may ask for row id, short cuts aside. */
  ghost function Calls(t: Table, id: nat, p: Params): set<Call>
    requires Sound(t) && id in t
    decreases id
  {
    var r := t[id];
    assert RefsBack(t.Keys, r);
    var seen := Seen(r, p);
    if !ParamsFit(r, seen) || r.condition == NONE then {}
    else if IsJunction(r) then
      set x, c | x in Refs(r) && c in Calls(t, x, seen) :: Call([id] + c.path, c.params)
    else {Call([id], seen)}
  }

  /** How many rows on a path swap source and target. */
  function Swaps(t: Table, path: seq<nat>): nat
  {
    if path == [] then 0
    else (if path[0] in t && SwapsTargets(t[path[0]]) then 1 else 0) + Swaps(t, path[1..])
  }

  function Turned(times: nat, p: Params): Params
  {
    if times % 2 == 1 then Swapped(p) else p
  }

  lemma TurnedOnce(t: Table, id: nat, path: seq<nat>, p: Params)
    requires id in t
    ensures Turned(Swaps(t, path), Seen(t[id], p)) == Turned(Swaps(t, [id] + path), p)
  {
  }

  /** A predicate sees source and target swapped exactly when an odd number of rows above swap them. */
  lemma {:induction false} LeafSeesTheParity(t: Table, id: nat, p: Params, c: Call)
    requires Sound(t) && id in t && c in Calls(t, id, p)
    ensures c.params == Turned(Swaps(t, c.path), p)
    decreases id
  {
    hide Turned, Swaps, Seen, ParamsFit;
    var r, seen := t[id], Seen(t[id], p);
    assert RefsBack(t.Keys, r);
    if IsJunction(r) {
      var x, d :| x in Refs(r) && d in Calls(t, x, seen) && c == Call([id] + d.path, d.params);
      LeafSeesTheParity(t, x, seen, d);
      TurnedOnce(t, id, d.path, p);
    } else {
      TurnedOnce(t, id, [], p);
      NoTurn(t, seen);
      assert [id] + [] == [id];
    }
  }

  lemma NoTurn(t: Table, p: Params)
    ensures Turned(Swaps(t, []), p) == p
  {
  }

  /** A junction depends on its references alone. */
  lemma EvaluateByRefs(t: Table, u: Table, leaf: Leaf, other: Leaf, r: Row, p: Params, depth: nat)
    requires IsJunction(r) && depth > 0
    requires forall x | x in Refs(r) :: Meets(t, leaf, x, p, depth - 1) == Meets(u, other, x, p, depth - 1)
    ensures Evaluate(t, leaf, r, p, depth) == Evaluate(u, other, r, p, depth)
  {
    hide Meets;
    assert RowId(r.value1) in Refs(r);
    assert r.value3 != 0 ==> RowId(r.value3) in Refs(r);
    assert r.value4 != 0 ==> RowId(r.value4) in Refs(r);
    assert Extra(t, leaf, r.value3, p, depth - 1, r.condition == AND)
           == Extra(u, other, r.value3, p, depth - 1, r.condition == AND);
    assert Extra(t, leaf, r.value4, p, depth - 1, r.condition == AND)
           == Extra(u, other, r.value4, p, depth - 1, r.condition == AND);
    if r.condition != NOT {
      assert RowId(r.value2) in Refs(r);
    }
  }

  ghost predicate AgreeOn(t: Table, leaf: Leaf, other: Leaf, c: Call)
  {
    && c.path != [] && c.path[|c.path| - 1] in t
    && var a := PredicateOf(t[c.path[|c.path| - 1]]);
       leaf(a, c.params) == other(a, c.params)
  }

  /** Whatever the predicates say elsewhere, only those calls count. */
  lemma {:induction false} OnlyTheCallsCount(t: Table, leaf: Leaf, other: Leaf, id: nat, p: Params, depth: nat)
    requires Sound(t) && id in t
    requires forall c | c in Calls(t, id, p) :: AgreeOn(t, leaf, other, c)
    ensures Meets(t, leaf, id, p, depth) == Meets(t, other, id, p, depth)
    decreases id
  {
    hide AgreeOn, Calls, ParamsFit, Evaluate, Seen;
    var r, seen := t[id], Seen(t[id], p);
    assert RefsBack(t.Keys, r);
    if depth > 0 && ParamsFit(r, seen) {
      if IsJunction(r) {
        forall x | x in Refs(r)
          ensures Meets(t, leaf, x, seen, depth - 1) == Meets(t, other, x, seen, depth - 1)
        {
          AgreeBelow(t, leaf, other, id, p, x);
          OnlyTheCallsCount(t, leaf, other, x, seen, depth - 1);
        }
        EvaluateByRefs(t, t, leaf, other, r, seen, depth);
      } else {
        AgreeHere(t, leaf, other, id, p, depth);
      }
    }
  }

  lemma AgreeBelow(t: Table, leaf: Leaf, other: Leaf, id: nat, p: Params, x: nat)
    requires Sound(t) && id in t && IsJunction(t[id]) && ParamsFit(t[id], Seen(t[id], p)) && x in Refs(t[id])
    requires forall c | c in Calls(t, id, p) :: AgreeOn(t, leaf, other, c)
    ensures x in t && x < id
    ensures forall c | c in Calls(t, x, Seen(t[id], p)) :: AgreeOn(t, leaf, other, c)
  {
    hide ParamsFit, Seen, AgreeOn;
    assert RefsBack(t.Keys, t[id]);
    forall c | c in Calls(t, x, Seen(t[id], p)) ensures AgreeOn(t, leaf, other, c) {
      PathEnds(t, x, Seen(t[id], p), c);
      var up := Call([id] + c.path, c.params);
      assert up in Calls(t, id, p);
      assert AgreeOn(t, leaf, other, up);
      AgreeUp(t, leaf, other, id, c);
    }
  }

  lemma AgreeUp(t: Table, leaf: Leaf, other: Leaf, id: nat, c: Call)
    requires c.path != []
    ensures AgreeOn(t, leaf, other, Call([id] + c.path, c.params)) <==> AgreeOn(t, leaf, other, c)
  {
  }

  lemma AgreeHere(t: Table, leaf: Leaf, other: Leaf, id: nat, p: Params, depth: nat)
    requires Sound(t) && id in t && !IsJunction(t[id]) && ParamsFit(t[id], Seen(t[id], p)) && depth > 0
    requires forall c | c in Calls(t, id, p) :: AgreeOn(t, leaf, other, c)
    ensures Evaluate(t, leaf, t[id], Seen(t[id], p), depth) == Evaluate(t, other, t[id], Seen(t[id], p), depth)
  {
    hide ParamsFit, Seen;
    if t[id].condition != NONE {
      assert AgreeOn(t, leaf, other, Call([id], Seen(t[id], p)));
    }
  }

  lemma PathEnds(t: Table, id: nat, p: Params, c: Call)
    requires Sound(t) && id in t && c in Calls(t, id, p)
    ensures c.path != []
  {
  }

  // ------------------------------------------------------ flags and disabling

  lemma {:induction false} EarlierRowsDecide(t: Table, u: Table, leaf: Leaf, id: nat, p: Params, depth: nat)
    requires Sound(t) && id in t
    requires forall k | k <= id :: (k in t <==> k in u) && (k in t ==> t[k] == u[k])
    ensures Meets(t, leaf, id, p, depth) == Meets(u, leaf, id, p, depth)
    decreases id, 1
  {
    if depth > 0 {
      assert RefsBack(t.Keys, t[id]) && t[id].entry == id;
      EarlierRowsDecideThis(t, u, leaf, t[id], Seen(t[id], p), depth);
    }
  }

  lemma {:induction false} EarlierRowsDecideThis(t: Table, u: Table, leaf: Leaf, r: Row, p: Params, depth: nat)
    requires depth > 0
    requires Sound(t) && RefsBack(t.Keys, r)
    requires forall k | k < r.entry :: (k in t <==> k in u) && (k in t ==> t[k] == u[k])
    ensures Evaluate(t, leaf, r, p, depth) == Evaluate(u, leaf, r, p, depth)
    decreases r.entry, 0
  {
    forall x | x in Refs(r) ensures Meets(t, leaf, x, p, depth - 1) == Meets(u, leaf, x, p, depth - 1) {
      EarlierRowsDecide(t, u, leaf, x, p, depth - 1);
    }
    if IsJunction(r) {
      EvaluateByRefs(t, u, leaf, leaf, r, p, depth);
    }
  }

  lemma FlagBits(flags: bv8)
    ensures (flags ^ REVERSE_RESULT) & REVERSE_RESULT != 0 <==> flags & REVERSE_RESULT == 0
    ensures (flags ^ REVERSE_RESULT) & SWAP_TARGETS == flags & SWAP_TARGETS
  {
  }

  function WithReverseFlipped(r: Row): Row
  {
    r.(flags := r.flags ^ REVERSE_RESULT)
  }

  lemma WrapperNegates(t: Table, leaf: Leaf, w: Row, p: Params, depth: nat)
    requires w.condition == NOT && w.flags == 0 && w.value3 == 0 && w.value4 == 0 && depth > 0
    ensures MeetsRow(t, leaf, w, p, depth) == Negate(Meets(t, leaf, RowId(w.value1), p, depth - 1))
  {
    assert !Reversed(w) && !SwapsTargets(w) && ParamsFit(w, p);
    assert Evaluate(t, leaf, w, p, depth) == Negate(Meets(t, leaf, RowId(w.value1), p, depth - 1));
  }

  lemma FlippedEvaluates(t: Table, leaf: Leaf, r: Row, p: Params, depth: nat)
    requires depth > 0
    ensures Evaluate(t, leaf, WithReverseFlipped(r), p, depth) == Evaluate(t, leaf, r, p, depth)
  {
  }

  /** Flipping the reverse flag does what a NOT row around the condition does exactly when the params fit. */
  lemma ReverseIsNotExactly(t: Table, leaf: Leaf, id: nat, wrapper: nat, p: Params, depth: nat)
    requires Sound(t) && id in t && wrapper in t && depth > wrapper > id
    requires var w := t[wrapper];
             w.condition == NOT && w.flags == 0 && RowId(w.value1) == id && w.value3 == 0 && w.value4 == 0
    ensures var flipped := t[id := WithReverseFlipped(t[id])];
            Meets(flipped, leaf, id, p, depth) == Meets(t, leaf, wrapper, p, depth)
            <==> ParamsFit(t[id], Seen(t[id], p))
  {
    var r := t[id];
    var flipped := t[id := WithReverseFlipped(r)];
    assert RefsBack(t.Keys, t[wrapper]) && RefsBack(t.Keys, r);
    FlagBits(r.flags);
    EarlierRowsDecideThis(t, flipped, leaf, r, Seen(r, p), depth);
    MeetsIsTheFormula(t, leaf, id, p, depth);
    MeetsIsTheFormula(t, leaf, id, p, depth - 1);
    EvaluateIsTheBody(t, leaf, id, Seen(r, p), depth);
    WrapperNegates(t, leaf, t[wrapper], p, depth);
    var f, seen := WithReverseFlipped(r), Seen(r, p);
    assert RefsBack(t.Keys, t[wrapper]) && flipped[id] == f && Seen(f, p) == seen;
    assert ParamsFit(f, seen) == ParamsFit(r, seen);
    FlippedEvaluates(flipped, leaf, r, seen, depth);
    assert Meets(flipped, leaf, id, p, depth) == MeetsRow(flipped, leaf, f, p, depth);
    assert Meets(t, leaf, id, p, depth) == MeetsRow(t, leaf, r, p, depth);
  }

  /**
   * A disabled condition does what it would do with a predicate that is never
   * true, except that it asks nothing of its params: the two agree exactly when
   * the params fit, or the flag is not set.
   */
  lemma DisabledIsNeverTrueExactly(t: Table, leaf: Leaf, id: nat, p: Params, depth: nat)
    requires id in t && !IsJunction(t[id]) && t[id].condition != NONE && depth > 0
    ensures var r := t[id];
            && Meets(t[id := Disabled(r)], leaf, id, p, depth) == Some(Reversed(r))
            && (Meets(t, (_, _) => false, id, p, depth) == Some(Reversed(r))
                <==> ParamsFit(r, Seen(r, p)) || !Reversed(r))
  {
    FlagBits(t[id].flags);
    var u := t[id := Disabled(t[id])];
    assert MeetsRow(u, leaf, u[id], p, depth) == Some(Reversed(t[id]));
    var never: Leaf := (_, _) => false;
    assert MeetsRow(t, never, t[id], p, depth) ==
           if ParamsFit(t[id], Seen(t[id], p)) then Some(Reversed(t[id])) else Some(false);
  }
}
