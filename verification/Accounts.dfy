/**
 * The hourly caps of src/game/AccountMgr.cpp: how many instances an account may
 * enter in an hour, and how many accounts it may write to for the first time.
 * The clock is a parameter.
 */
module Accounts {
  import opened Bytes
  import opened Ordered

  const HOUR := 3600

  /** When each instance was last entered. */
  type EnterTimes = map<nat, int>

  function Expired(times: EnterTimes, now: int): set<nat>
  {
    set id | id in times && times[id] + HOUR < now
  }

  /** What CheckInstanceCount answers. None is an account that has entered nothing yet. */
  predicate MayEnter(times: Option<EnterTimes>, id: nat, maxCount: nat, now: int)
  {
    times.None? || id in times.value || |times.value| < maxCount || Expired(times.value, now) != {}
  }

  /** What it leaves behind: one expired entry goes when there was no room, the first in order. */
  ghost function AfterCheck(times: Option<EnterTimes>, id: nat, maxCount: nat, now: int): Option<EnterTimes>
  {
    if times.None? || id in times.value || |times.value| < maxCount || Expired(times.value, now) == {} then times
    else
      LeastExists(Expired(times.value, now));
      var gone :| IsLeast(Expired(times.value, now), gone);
      Some(times.value - {gone})
  }

  function Entered(times: Option<EnterTimes>, id: nat, now: int): Option<EnterTimes>
  {
    Some((if times.None? then map[] else times.value)[id := now])
  }

  function Lookup(all: map<nat, EnterTimes>, account: nat): Option<EnterTimes>
  {
    if account in all then Some(all[account]) else None
  }

  class AccountMgr {
    var enterTimes: map<nat, EnterTimes>

    constructor ()
      ensures enterTimes == map[]
    {
      enterTimes := map[];
    }

    method CheckInstanceCount(account: nat, id: nat, maxCount: nat, now: int) returns (ok: bool)
      modifies this
      ensures ok == MayEnter(Lookup(old(enterTimes), account), id, maxCount, now)
      ensures Lookup(enterTimes, account) == AfterCheck(Lookup(old(enterTimes), account), id, maxCount, now)
      ensures enterTimes - {account} == old(enterTimes) - {account}
    {
      if account !in enterTimes { return true; }
      var times := enterTimes[account];
      if id in times { return true; }
      if |times| < maxCount { return true; }
      var rest := times.Keys;
      while rest != {}
        invariant rest <= times.Keys && Expired(times, now) <= rest
        invariant enterTimes == old(enterTimes)
      {
        LeastExists(rest);
        var next :| next in rest && IsLeast(rest, next);
        if times[next] + HOUR < now {
          assert next in Expired(times, now);
          OneLeast(Expired(times, now), next);
          enterTimes := enterTimes[account := times - {next}];
          return true;
        }
        rest := rest - {next};
      }
      return false;
    }

    method AddInstanceEnterTime(account: nat, id: nat, enterTime: int)
      modifies this
      ensures Lookup(enterTimes, account) == Entered(Lookup(old(enterTimes), account), id, enterTime)
      ensures enterTimes - {account} == old(enterTimes) - {account}
    {
      if account !in enterTimes {
        var resetTimes: EnterTimes := map[];
        resetTimes := resetTimes[id := enterTime];
        enterTimes := enterTimes[account := resetTimes];
        return;
      }
      var times: EnterTimes := enterTimes[account];
      times := times[id := enterTime];
      enterTimes := enterTimes[account := times];
    }
  }

  lemma OneLeast(s: set<nat>, g: nat)
    requires IsLeast(s, g)
    ensures forall h | IsLeast(s, h) :: h == g
  {
  }

  // ------------------------------------------------------------- whole runs

  /** One account's history: what the map holds, every entry let in with its time, and the clock. */
  datatype Visits = Visits(times: Option<EnterTimes>, log: seq<(nat, int)>, clock: int)

  /**
   * Check is a check alone. Enter is a check followed by the entry if it may:
   * the id checked is the instance entered, or 0 when the player is not bound
   * to one yet.
   */
  datatype Visit = Check(id: nat, now: int) | Enter(checked: nat, id: nat, now: int)

  predicate Possible(s: Visits, e: Visit)
  {
    s.clock <= e.now && (e.Enter? ==> e.id != 0 && (e.checked == e.id || e.checked == 0))
  }

  ghost function NextVisit(s: Visits, e: Visit, maxCount: nat): Visits
  {
    match e
    case Check(id, now) => Visits(AfterCheck(s.times, id, maxCount, now), s.log, now)
    case Enter(checked, id, now) =>
      var times := AfterCheck(s.times, checked, maxCount, now);
      if MayEnter(s.times, checked, maxCount, now) then Visits(Entered(times, id, now), s.log + [(id, now)], now)
      else Visits(times, s.log, now)
  }

  /** The instances entered in the last hour. */
  function InLastHour(log: seq<(nat, int)>, now: int): set<nat>
  {
    set i | 0 <= i < |log| && log[i].1 + 3600 >= now :: log[i].0
  }

  function Cap(maxCount: nat): nat
  {
    if maxCount == 0 then 1 else maxCount
  }

  ghost predicate VisitInv(s: Visits, maxCount: nat)
  {
    && (s.times.None? ==> s.log == [])
    && (s.times.Some? ==> |s.times.value| <= Cap(maxCount) && 0 !in s.times.value)
    && (forall i | 0 <= i < |s.log| :: Covered(s, s.log[i]))
    && (forall i | 0 <= i < |s.log| :: s.log[i].1 <= s.clock)
  }

  /** An entry is in the map, at its time or a later one, or more than an hour old. */
  predicate Covered(s: Visits, entry: (nat, int))
  {
    || entry.1 + HOUR < s.clock
    || (s.times.Some? && entry.0 in s.times.value && entry.1 <= s.times.value[entry.0])
  }

  lemma CheckKeepsInv(s: Visits, id: nat, now: int, maxCount: nat)
    requires VisitInv(s, maxCount) && s.clock <= now
    ensures VisitInv(Visits(AfterCheck(s.times, id, maxCount, now), s.log, now), maxCount)
  {
  }

  /** There is room for the entry once the check has passed: a new id was checked as 0, which is never in the map. */
  lemma EntryFits(s: Visits, e: Visit, maxCount: nat)
    requires VisitInv(s, maxCount) && Possible(s, e) && e.Enter? && MayEnter(s.times, e.checked, maxCount, e.now)
    ensures |Entered(AfterCheck(s.times, e.checked, maxCount, e.now), e.id, e.now).value| <= Cap(maxCount)
  {
  }

  lemma VisitInvStep(s: Visits, e: Visit, maxCount: nat)
    requires VisitInv(s, maxCount) && Possible(s, e)
    ensures VisitInv(NextVisit(s, e, maxCount), maxCount)
  {
    hide MayEnter, AfterCheck;
    var checked := if e.Check? then e.id else e.checked;
    CheckKeepsInv(s, checked, e.now, maxCount);
    if e.Enter? && MayEnter(s.times, checked, maxCount, e.now) {
      EntryFits(s, e, maxCount);
      var mid := Visits(AfterCheck(s.times, checked, maxCount, e.now), s.log, e.now);
      var t := NextVisit(s, e, maxCount);
      forall i | 0 <= i < |t.log| ensures Covered(t, t.log[i]) {
        if i < |s.log| {
          assert Covered(mid, mid.log[i]);
        }
      }
    }
  }

  ghost predicate VisitRun(states: seq<Visits>, events: seq<Visit>, maxCount: nat)
  {
    && |states| == |events| + 1
    && states[0] == Visits(None, [], states[0].clock)
    && forall i | 0 <= i < |events| ::
         Possible(states[i], events[i]) && states[i + 1] == NextVisit(states[i], events[i], maxCount)
  }

  lemma {:induction false} VisitRunKeepsInv(states: seq<Visits>, events: seq<Visit>, maxCount: nat, i: nat)
    requires VisitRun(states, events, maxCount) && i < |states|
    ensures VisitInv(states[i], maxCount)
  {
    hide NextVisit, Possible;
    if i > 0 {
      VisitRunKeepsInv(states, events, maxCount, i - 1);
      VisitInvStep(states[i - 1], events[i - 1], maxCount);
    }
  }

  lemma SubsetSize(a: set<nat>, b: set<nat>)
    requires a <= b
    ensures |a| <= |b|
  {
    if a != b {
      assert b == a + (b - a);
    }
  }

  /**
   * In every history, at every moment from its last event on, no more than
   * maxCount instances have been entered in the last hour, however many
   * expired entries are still in the map; a cap of 0 counts as 1.
   */
  lemma InstancesPerHourAreCapped(states: seq<Visits>, events: seq<Visit>, maxCount: nat, i: nat, now: int)
    requires VisitRun(states, events, maxCount) && i < |states| && states[i].clock <= now
    ensures |InLastHour(states[i].log, now)| <= Cap(maxCount)
  {
    VisitRunKeepsInv(states, events, maxCount, i);
    var s := states[i];
    var recent := InLastHour(s.log, now);
    if s.times.None? {
      assert recent == {};
    } else {
      forall id | id in recent ensures id in s.times.value {
        var k :| 0 <= k < |s.log| && s.log[k].1 + 3600 >= now && s.log[k].0 == id;
        assert Covered(s, s.log[k]);
      }
      SubsetSize(recent, s.times.value.Keys);
    }
  }

  /** The cap of 0 is not kept: an account that has entered nothing is let in without looking at it. */
  lemma ZeroCapLetsOneIn(id: nat, now: int)
    requires id != 0
    ensures var s := Visits(None, [], now);
            var t := NextVisit(s, Enter(id, id, now), 0);
            VisitRun([s, t], [Enter(id, id, now)], 0) && InLastHour(t.log, now) == {id}
  {
    var t := NextVisit(Visits(None, [], now), Enter(id, id, now), 0);
    assert t.log == [(id, now)];
    assert t.log[0] == (id, now);
  }

  ghost predicate KeepsCap(states: seq<Visits>, events: seq<Visit>, maxCount: nat, i: nat, now: int)
  {
    VisitRun(states, events, maxCount) && i < |states| && states[i].clock <= now ==>
      |InLastHour(states[i].log, now)| <= maxCount
  }

  /** Every history keeps the configured cap itself exactly when it is not 0. */
  lemma CapIsKeptExactly(maxCount: nat)
    ensures (forall states: seq<Visits>, events: seq<Visit>, i: nat, now: int ::
               KeepsCap(states, events, maxCount, i, now))
            <==> maxCount > 0
  {
    if maxCount > 0 {
      forall states: seq<Visits>, events: seq<Visit>, i: nat, now: int
        ensures KeepsCap(states, events, maxCount, i, now)
      {
        if VisitRun(states, events, maxCount) && i < |states| && states[i].clock <= now {
          InstancesPerHourAreCapped(states, events, maxCount, i, now);
        }
      }
    } else {
      var s := Visits(None, [], 0);
      var t := NextVisit(s, Enter(1, 1, 0), 0);
      ZeroCapLetsOneIn(1, 0);
      assert !KeepsCap([s, t], [Enter(1, 1, 0)], 0, 1, 0);
    }
  }

  /** What the map holds is what was entered. */
  ghost predicate Backed(s: Visits)
  {
    && (s.times.None? <==> s.log == [])
    && (s.times.Some? ==> forall id | id in s.times.value :: (id, s.times.value[id]) in s.log)
  }

  lemma {:induction false} VisitRunIsBacked(states: seq<Visits>, events: seq<Visit>, maxCount: nat, i: nat)
    requires VisitRun(states, events, maxCount) && i < |states|
    ensures Backed(states[i])
  {
    hide Possible, MayEnter;
    if i > 0 {
      VisitRunIsBacked(states, events, maxCount, i - 1);
    }
  }

  /**
   * Over whole histories the check decides on the last hour alone, whatever
   * expired entries the map still holds: it lets in who comes back to an
   * instance entered in that hour, and anyone else exactly when fewer than
   * maxCount were.
   */
  lemma CheckIsExact(states: seq<Visits>, events: seq<Visit>, maxCount: nat, i: nat, id: nat, now: int)
    requires VisitRun(states, events, maxCount) && i < |states| && states[i].clock <= now && maxCount > 0
    ensures var recent := InLastHour(states[i].log, now);
            MayEnter(states[i].times, id, maxCount, now) <==> id in recent || |recent| < maxCount
  {
    VisitRunKeepsInv(states, events, maxCount, i);
    VisitRunIsBacked(states, events, maxCount, i);
    var s := states[i];
    var recent := InLastHour(s.log, now);
    if s.times.None? {
      assert recent == {};
    } else {
      var times := s.times.value;
      forall x ensures x in recent <==> x in times && x !in Expired(times, now) {
        if x in recent {
          var k :| 0 <= k < |s.log| && s.log[k].1 + 3600 >= now && s.log[k].0 == x;
          assert Covered(s, s.log[k]);
        }
        if x in times && x !in Expired(times, now) {
          var k :| 0 <= k < |s.log| && s.log[k] == (x, times[x]);
          assert s.log[k].0 in recent;
        }
      }
      assert recent == times.Keys - Expired(times, now);
      SizeOfRest(times.Keys, Expired(times, now));
    }
  }

  lemma SizeOfRest(a: set<nat>, b: set<nat>)
    requires b <= a
    ensures |a - b| == |a| - |b| && (b == {} <==> |b| == 0)
  {
    assert a == (a - b) + b;
  }

  // -------------------------------------------------------------------- mail

  type MailsSent = map<nat, int>

  /** The accounts written to since a moment. */
  function Since(sent: MailsSent, moment: int): set<nat>
  {
    set to | to in sent && sent[to] >= moment
  }

  predicate MayMail(sent: MailsSent, to: nat, expire: nat, allowed: nat, now: int)
  {
    to in sent || |Since(sent, now - expire)| < allowed
  }

  class AccountPersistentData {
    var mailsSent: MailsSent

    constructor ()
      ensures mailsSent == map[]
    {
      mailsSent := map[];
    }

    method JustMailed(toAccount: nat, now: int)
      modifies this
      ensures mailsSent == old(mailsSent)[toAccount := now]
    {
      mailsSent := mailsSent[toAccount := now];
    }

    method CanMail(targetAccount: nat, expire: nat, allowed: nat, now: int) returns (ok: bool)
      ensures ok == MayMail(mailsSent, targetAccount, expire, allowed, now)
    {
      if targetAccount in mailsSent { return true; }
      var totalScore := 0;
      var lastNonExpired := now - expire;
      var rest := mailsSent.Keys;
      while rest != {}
        invariant rest <= mailsSent.Keys
        invariant totalScore == |Since(mailsSent, lastNonExpired) - rest|
      {
        var to :| to in rest;
        CountOne(Since(mailsSent, lastNonExpired), rest, to);
        if mailsSent[to] >= lastNonExpired {
          totalScore := totalScore + 1;
        }
        rest := rest - {to};
      }
      assert Since(mailsSent, lastNonExpired) - {} == Since(mailsSent, lastNonExpired);
      ok := totalScore < allowed;
    }
  }

  lemma CountOne(s: set<nat>, rest: set<nat>, to: nat)
    requires to in rest
    ensures |s - (rest - {to})| == |s - rest| + if to in s then 1 else 0
  {
    assert s - (rest - {to}) == (s - rest) + if to in s then {to} else {};
  }

  /** What the map holds, when each account was first written to, every mail sent with its time, and the clock. */
  datatype Mails = Mails(sent: MailsSent, firsts: MailsSent, log: seq<(nat, int)>, clock: int)

  /** A mail to an account at a moment: refused, or sent and noted. */
  function NextMail(s: Mails, to: nat, now: int, expire: nat, allowed: nat): Mails
  {
    if !MayMail(s.sent, to, expire, allowed, now) then s.(clock := now)
    else Mails(s.sent[to := now], if to in s.sent then s.firsts else s.firsts[to := now], s.log + [(to, now)], now)
  }

  /** The accounts first written to between two moments. */
  function FirstsIn(firsts: MailsSent, from: int, until: int): set<nat>
  {
    set to | to in firsts && from <= firsts[to] <= until
  }

  /** At most the allowed number of accounts were first written to in the stretch from a moment on. */
  predicate WindowCapped(firsts: MailsSent, from: int, expire: nat, allowed: nat)
  {
    |FirstsIn(firsts, from, from + expire)| <= allowed
  }

  ghost predicate MailInv(s: Mails, expire: nat, allowed: nat)
  {
    && s.sent.Keys == s.firsts.Keys
    && (forall to | to in s.firsts :: s.firsts[to] <= s.sent[to] && s.firsts[to] <= s.clock)
    && (forall from: int :: WindowCapped(s.firsts, from, expire, allowed))
  }

  lemma MailInvStep(s: Mails, to: nat, now: int, expire: nat, allowed: nat)
    requires MailInv(s, expire, allowed) && s.clock <= now
    ensures MailInv(NextMail(s, to, now, expire, allowed), expire, allowed)
  {
    var t := NextMail(s, to, now, expire, allowed);
    forall from: int ensures WindowCapped(t.firsts, from, expire, allowed) {
      if t.firsts == s.firsts {
        assert WindowCapped(s.firsts, from, expire, allowed);
      } else {
        OneMoreFirst(s, to, now, expire, allowed, from);
      }
    }
  }

  lemma OneMoreFirst(s: Mails, to: nat, now: int, expire: nat, allowed: nat, from: int)
    requires MailInv(s, expire, allowed) && s.clock <= now
    requires to !in s.sent && |Since(s.sent, now - expire)| < allowed
    ensures WindowCapped(s.firsts[to := now], from, expire, allowed)
  {
    hide Since;
    var before, after := FirstsIn(s.firsts, from, from + expire), FirstsIn(s.firsts[to := now], from, from + expire);
    if from <= now <= from + expire {
      assert after == before + {to};
      FirstsAreRecent(s, now, expire, allowed, from);
      SubsetSize(before, Since(s.sent, now - expire));
    } else {
      assert after == before;
      assert WindowCapped(s.firsts, from, expire, allowed);
    }
  }

  lemma FirstsAreRecent(s: Mails, now: int, expire: nat, allowed: nat, from: int)
    requires MailInv(s, expire, allowed) && from <= now <= from + expire
    ensures FirstsIn(s.firsts, from, from + expire) <= Since(s.sent, now - expire)
  {
  }

  ghost predicate MailRun(states: seq<Mails>, mails: seq<(nat, int)>, expire: nat, allowed: nat)
  {
    && |states| == |mails| + 1
    && states[0] == Mails(map[], map[], [], states[0].clock)
    && forall i | 0 <= i < |mails| ::
         states[i].clock <= mails[i].1 && states[i + 1] == NextMail(states[i], mails[i].0, mails[i].1, expire, allowed)
  }

  /** In every history, any stretch of time as long as the expiry holds at most the allowed number of first mails. */
  lemma {:induction false} FirstMailsAreCapped(states: seq<Mails>, mails: seq<(nat, int)>,
                                               expire: nat, allowed: nat, i: nat)
    requires MailRun(states, mails, expire, allowed) && i < |states|
    ensures MailInv(states[i], expire, allowed)
    ensures forall from: int :: WindowCapped(states[i].firsts, from, expire, allowed)
  {
    hide NextMail, WindowCapped;
    if i == 0 {
      NoMails(states[0], expire, allowed);
    } else {
      FirstMailsAreCapped(states, mails, expire, allowed, i - 1);
      MailInvStep(states[i - 1], mails[i - 1].0, mails[i - 1].1, expire, allowed);
    }
  }

  lemma NoMails(s: Mails, expire: nat, allowed: nat)
    requires s.sent == map[] && s.firsts == map[]
    ensures MailInv(s, expire, allowed)
  {
  }

  /** The accounts written to from a moment on. */
  function WrittenTo(log: seq<(nat, int)>, from: int): set<nat>
  {
    set i | 0 <= i < |log| && log[i].1 >= from :: log[i].0
  }

  /** The map holds when each account was last written to. */
  ghost predicate LastTimes(s: Mails)
  {
    && (forall i :: 0 <= i < |s.log| ==> s.log[i].0 in s.sent && s.log[i].1 <= s.sent[s.log[i].0])
    && (forall to :: to in s.sent ==> (to, s.sent[to]) in s.log && s.sent[to] <= s.clock)
  }

  lemma LastTimesStep(s: Mails, to: nat, now: int, expire: nat, allowed: nat)
    requires LastTimes(s) && s.clock <= now
    ensures LastTimes(NextMail(s, to, now, expire, allowed))
  {
    hide MayMail;
    var t := NextMail(s, to, now, expire, allowed);
    if MayMail(s.sent, to, expire, allowed, now) {
      assert t.log[|s.log|] == (to, now);
    }
  }

  lemma {:induction false} LastTimesAlways(states: seq<Mails>, mails: seq<(nat, int)>, expire: nat, allowed: nat, i: nat)
    requires MailRun(states, mails, expire, allowed) && i < |states|
    ensures LastTimes(states[i])
  {
    hide NextMail;
    if i > 0 {
      LastTimesAlways(states, mails, expire, allowed, i - 1);
      LastTimesStep(states[i - 1], mails[i - 1].0, mails[i - 1].1, expire, allowed);
    }
  }

  /**
   * Over whole histories a mail is let through exactly when its account has
   * been written to before, or fewer accounts than allowed have been written to
   * within the expiry.
   */
  lemma MailCheckIsExact(states: seq<Mails>, mails: seq<(nat, int)>, expire: nat, allowed: nat, i: nat,
                         to: nat, now: int)
    requires MailRun(states, mails, expire, allowed) && i < |states|
    ensures var log := states[i].log;
            MayMail(states[i].sent, to, expire, allowed, now) <==>
              (exists k :: 0 <= k < |log| && log[k].0 == to) || |WrittenTo(log, now - expire)| < allowed
  {
    LastTimesAlways(states, mails, expire, allowed, i);
    var s := states[i];
    var noted, written := Since(s.sent, now - expire), WrittenTo(s.log, now - expire);
    forall x | x in noted ensures x in written {
      var k :| 0 <= k < |s.log| && s.log[k] == (x, s.sent[x]);
      assert s.log[k].0 in written;
    }
    assert noted == written;
    if to in s.sent {
      var k :| 0 <= k < |s.log| && s.log[k] == (to, s.sent[to]);
      assert s.log[k].0 == to;
    }
  }
}
