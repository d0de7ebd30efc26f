/** Sets of keys as an ordered map walks them. */
module Ordered {
  predicate IsGreatest(s: set<nat>, g: nat)
  {
    g in s && forall h | h in s :: h <= g
  }

  predicate IsLeast(s: set<nat>, g: nat)
  {
    g in s && forall h | h in s :: g <= h
  }

  lemma {:induction false} GreatestExists(s: set<nat>)
    requires s != {}
    ensures exists g :: IsGreatest(s, g)
  {
    var g :| g in s;
    var rest := s - {g};
    if rest == {} {
      assert s == {g};
      assert IsGreatest(s, g);
    } else {
      GreatestExists(rest);
      var m :| IsGreatest(rest, m);
      assert forall h | h in s :: h == g || h in rest;
      assert IsGreatest(s, if g < m then m else g);
    }
  }

  lemma {:induction false} LeastExists(s: set<nat>)
    requires s != {}
    ensures exists g :: IsLeast(s, g)
  {
    var g :| g in s;
    var rest := s - {g};
    if rest == {} {
      assert s == {g};
      assert IsLeast(s, g);
    } else {
      LeastExists(rest);
      var m :| IsLeast(rest, m);
      assert forall h | h in s :: h == g || h in rest;
      assert IsLeast(s, if g < m then g else m);
    }
  }

  /** The order in which a std::map keyed by guid is walked. */
  ghost function InOrder(s: set<nat>): seq<nat>
  {
    if s == {} then []
    else
      GreatestExists(s);
      var g :| IsGreatest(s, g);
      InOrder(s - {g}) + [g]
  }

  lemma {:induction false} InOrderIsSorted(s: set<nat>)
    ensures |InOrder(s)| == |s| && forall g :: g in InOrder(s) <==> g in s
    ensures forall i, j | 0 <= i < j < |InOrder(s)| :: InOrder(s)[i] < InOrder(s)[j]
  {
    if s != {} {
      GreatestExists(s);
      var g :| IsGreatest(s, g);
      InOrderIsSorted(s - {g});
      InOrderGrows(s - {g}, g);
      assert s - {g} + {g} == s;
      Extended(InOrder(s - {g}), s - {g}, g);
    }
  }

  lemma Extended(front: seq<nat>, s: set<nat>, g: nat)
    requires forall h :: h in front <==> h in s
    requires forall h | h in s :: h < g
    requires forall i, j | 0 <= i < j < |front| :: front[i] < front[j]
    ensures forall h :: h in front + [g] <==> h in s + {g}
    ensures forall i, j | 0 <= i < j < |front + [g]| :: (front + [g])[i] < (front + [g])[j]
  {
    assert forall k | 0 <= k < |front| :: front[k] in front;
  }

  lemma InOrderGrows(s: set<nat>, g: nat)
    requires forall h | h in s :: h < g
    ensures InOrder(s + {g}) == InOrder(s) + [g]
  {
  }
}
