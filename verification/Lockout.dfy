/** The A2A login guard: consecutive failures lock every login out for five minutes. */
module Lockout {
  import opened Division

  const LOCKOUT_SECONDS: nat := 300

  datatype Guard = Guard(failed: nat, until: nat)
  datatype Attempt = Attempt(now: nat, credentialOk: bool)
  datatype Verdict = LockedOut | Denied | Granted

  const FRESH: Guard := Guard(0, 0)

  predicate Locked(g: Guard, now: nat) { g.until > 0 && now < g.until }

  function VerdictOf(g: Guard, a: Attempt): Verdict {
    if Locked(g, a.now) then LockedOut else if a.credentialOk then Granted else Denied
  }

  /** The guard after one attempt, for a limit of `max` failures. */
  function GuardAfter(g: Guard, max: nat, a: Attempt): Guard {
    match VerdictOf(g, a)
    case LockedOut => g
    case Granted => Guard(0, g.until)
    case Denied => if g.failed + 1 >= max then Guard(0, a.now + LOCKOUT_SECONDS) else Guard(g.failed + 1, g.until)
  }

  function RunGuard(g: Guard, max: nat, attempts: seq<Attempt>): Guard {
    if attempts == [] then g
    else GuardAfter(RunGuard(g, max, attempts[..|attempts| - 1]), max, attempts[|attempts| - 1])
  }

  /** The verdict on the i-th attempt of a run. */
  function VerdictAt(g: Guard, max: nat, attempts: seq<Attempt>, i: nat): Verdict
    requires i < |attempts|
  {
    VerdictOf(RunGuard(g, max, attempts[..i]), attempts[i])
  }

  /** The failure count stays below the limit in every run. */
  lemma {:induction false} FailuresStayBelow(g: Guard, max: nat, attempts: seq<Attempt>)
    requires 0 < max && g.failed < max
    ensures RunGuard(g, max, attempts).failed < max
  {
    if attempts != [] {
      FailuresStayBelow(g, max, attempts[..|attempts| - 1]);
    }
  }

  /** The end of the lockout never moves back. */
  lemma {:induction false} LockoutOnlyExtends(g: Guard, max: nat, attempts: seq<Attempt>, i: nat)
    requires i <= |attempts|
    ensures RunGuard(g, max, attempts[..i]).until <= RunGuard(g, max, attempts).until
    decreases |attempts|
  {
    if i < |attempts| {
      var init := attempts[..|attempts| - 1];
      LockoutOnlyExtends(g, max, init, i);
      assert init[..i] == attempts[..i];
    } else {
      assert attempts[..i] == attempts;
    }
  }

  /** Once a lockout is in force, no attempt before its end is even evaluated. */
  lemma NothingGrantedWhileLocked(g: Guard, max: nat, attempts: seq<Attempt>, i: nat, j: nat)
    requires i <= j < |attempts|
    requires Locked(RunGuard(g, max, attempts[..i]), attempts[j].now)
    ensures VerdictAt(g, max, attempts, j) == LockedOut
  {
    LockoutOnlyExtends(g, max, attempts[..j], i);
    assert attempts[..j][..i] == attempts[..i];
  }

  // ---------------------------------------------------------------- what the verdicts say

  /** The verdicts of a run of logins from the start. */
  function Verdicts(max: nat, attempts: seq<Attempt>): (vs: seq<Verdict>)
    ensures |vs| == |attempts|
  {
    seq(|attempts|, i requires 0 <= i < |attempts| => VerdictAt(FRESH, max, attempts, i))
  }

  /** How many verdicts from place `from` on are failures. */
  function DeniedFrom(vs: seq<Verdict>, from: nat): nat {
    if |vs| <= from then 0
    else DeniedFrom(vs[..|vs| - 1], from) + if vs[|vs| - 1] == Denied then 1 else 0
  }

  /** Where the failures that count begin: after the last success and the last full series. */
  function SeriesStart(max: nat, vs: seq<Verdict>): (i: nat)
    ensures i <= |vs|
  {
    if vs == [] then 0
    else
      var n := |vs| - 1;
      var start := SeriesStart(max, vs[..n]);
      if vs[n] == Granted || (vs[n] == Denied && DeniedFrom(vs, start) == max) then n + 1 else start
  }

  /** The i-th verdict is the failure that completes a series of `max`. */
  predicate CompletesSeries(max: nat, vs: seq<Verdict>, i: nat)
    requires i < |vs|
  {
    vs[i] == Denied && DeniedFrom(vs[..i + 1], SeriesStart(max, vs[..i])) == max
  }

  /** A series was completed less than five minutes before the attempt after those given. */
  ghost predicate LockedBySeries(max: nat, attempts: seq<Attempt>, vs: seq<Verdict>, now: nat)
    requires |vs| == |attempts|
  {
    exists j :: 0 <= j < |vs| && CompletesSeries(max, vs, j) && now < attempts[j].now + 300
  }

  /** What the guard remembers of the verdicts. */
  ghost predicate Remembers(g: Guard, max: nat, attempts: seq<Attempt>, vs: seq<Verdict>)
    requires |vs| == |attempts|
  {
    && g.failed == DeniedFrom(vs, SeriesStart(max, vs)) < max
    && forall now: nat :: Locked(g, now) <==> LockedBySeries(max, attempts, vs, now)
  }

  lemma VerdictsSnoc(max: nat, attempts: seq<Attempt>)
    requires attempts != []
    ensures var n := |attempts| - 1;
            Verdicts(max, attempts)
            == Verdicts(max, attempts[..n]) + [VerdictOf(RunGuard(FRESH, max, attempts[..n]), attempts[n])]
  {
    hide RunGuard, VerdictOf;
    var n := |attempts| - 1;
    assert forall i :: 0 <= i < n ==> attempts[..n][..i] == attempts[..i];
  }

  lemma NoneDenied(vs: seq<Verdict>)
    ensures DeniedFrom(vs, |vs|) == 0
  {
  }

  /** Earlier series stay what they were. */
  lemma SeriesKept(max: nat, attempts: seq<Attempt>, vs: seq<Verdict>, a: Attempt, v: Verdict, now: nat)
    requires |vs| == |attempts|
    ensures LockedBySeries(max, attempts + [a], vs + [v], now) <==>
              LockedBySeries(max, attempts, vs, now)
              || (CompletesSeries(max, vs + [v], |vs|) && now < a.now + 300)
  {
    hide DeniedFrom, SeriesStart;
    var vs', attempts' := vs + [v], attempts + [a];
    forall j | 0 <= j < |vs|
      ensures CompletesSeries(max, vs', j) <==> CompletesSeries(max, vs, j)
    {
      assert vs'[..j] == vs[..j] && vs'[..j + 1] == vs[..j + 1];
    }
    if LockedBySeries(max, attempts, vs, now) {
      var j :| 0 <= j < |vs| && CompletesSeries(max, vs, j) && now < attempts[j].now + 300;
      assert CompletesSeries(max, vs', j) && attempts'[j] == attempts[j];
    }
  }

  lemma SeriesAfter(max: nat, vs: seq<Verdict>, v: Verdict)
    requires DeniedFrom(vs, SeriesStart(max, vs)) < max
    ensures var vs', before := vs + [v], DeniedFrom(vs, SeriesStart(max, vs));
            && (CompletesSeries(max, vs', |vs|) <==> v == Denied && before + 1 == max)
            && DeniedFrom(vs', SeriesStart(max, vs')) ==
               match v
               case Granted => 0
               case LockedOut => before
               case Denied => if before + 1 == max then 0 else before + 1
  {
    var vs' := vs + [v];
    assert vs'[..|vs|] == vs && vs'[..|vs| + 1] == vs';
    NoneDenied(vs');
  }

  lemma GuardRemembers(g: Guard, max: nat, attempts: seq<Attempt>, vs: seq<Verdict>, a: Attempt)
    requires 0 < max && |vs| == |attempts| && Remembers(g, max, attempts, vs)
    ensures Remembers(GuardAfter(g, max, a), max, attempts + [a], vs + [VerdictOf(g, a)])
  {
    hide DeniedFrom, SeriesStart, CompletesSeries, LockedBySeries;
    var v, g' := VerdictOf(g, a), GuardAfter(g, max, a);
    SeriesAfter(max, vs, v);
    forall now: nat
      ensures Locked(g', now) <==> LockedBySeries(max, attempts + [a], vs + [v], now)
    {
      SeriesKept(max, attempts, vs, a, v, now);
      assert Locked(g, now) <==> LockedBySeries(max, attempts, vs, now);
    }
  }

  lemma NothingRemembered(max: nat)
    requires 0 < max
    ensures Remembers(FRESH, max, [], [])
  {
  }

  /**
   After every run the failure count is the number of failures since the last success or the last
   full series, and the guard is closed exactly for five minutes from a failure that completed one.
   */
  lemma {:induction false} GuardMeans(max: nat, attempts: seq<Attempt>)
    requires 0 < max
    ensures Remembers(RunGuard(FRESH, max, attempts), max, attempts, Verdicts(max, attempts))
  {
    if attempts == [] {
      NothingRemembered(max);
    } else {
      hide Remembers, Verdicts, GuardAfter, VerdictOf;
      var n := |attempts| - 1;
      GuardMeans(max, attempts[..n]);
      VerdictsSnoc(max, attempts);
      var init := attempts[..n];
      GuardRemembers(RunGuard(FRESH, max, init), max, init, Verdicts(max, init), attempts[n]);
      assert attempts[..n] + [attempts[n]] == attempts;
    }
  }

  /**
   Every verdict of every run, from the verdicts and times before it: refused unevaluated if and only
   if a series of `max` failures, uninterrupted by a success, was completed less than 300 seconds
   earlier; otherwise decided by the credential.
   */
  lemma VerdictMeans(max: nat, attempts: seq<Attempt>, i: nat)
    requires 0 < max && i < |attempts|
    ensures var vs := Verdicts(max, attempts);
            && (vs[i] == LockedOut <==>
                  exists j :: 0 <= j < i && CompletesSeries(max, vs, j) && attempts[i].now < attempts[j].now + 300)
            && (vs[i] != LockedOut ==> (vs[i] == Granted <==> attempts[i].credentialOk))
  {
    hide RunGuard, DeniedFrom, SeriesStart;
    var vs, init := Verdicts(max, attempts), attempts[..i];
    var before := Verdicts(max, init);
    GuardMeans(max, init);
    forall j | 0 <= j < i
      ensures before[j] == vs[j]
    {
      assert init[..j] == attempts[..j];
    }
    forall j | 0 <= j < i
      ensures CompletesSeries(max, before, j) <==> CompletesSeries(max, vs, j)
    {
      assert before[..j] == vs[..j] && before[..j + 1] == vs[..j + 1];
    }
    assert Locked(RunGuard(FRESH, max, init), attempts[i].now) <==> LockedBySeries(max, init, before, attempts[i].now);
    if exists j :: 0 <= j < i && CompletesSeries(max, vs, j) && attempts[i].now < attempts[j].now + 300 {
      var j :| 0 <= j < i && CompletesSeries(max, vs, j) && attempts[i].now < attempts[j].now + 300;
      assert CompletesSeries(max, before, j) && init[j] == attempts[j];
    }
  }

  // ---------------------------------------------------------------- failures take time

  ghost predicate ClockRuns(attempts: seq<Attempt>) {
    forall i, j :: 0 <= i < j < |attempts| ==> attempts[i].now <= attempts[j].now
  }

  ghost predicate NoneGranted(g: Guard, max: nat, attempts: seq<Attempt>) {
    forall i :: 0 <= i < |attempts| ==> VerdictAt(g, max, attempts, i) != Granted
  }

  /** The times of the attempts that were evaluated and refused. */
  function DeniedTimes(g: Guard, max: nat, attempts: seq<Attempt>): seq<nat> {
    if attempts == [] then []
    else
      var n := |attempts| - 1;
      DeniedTimes(g, max, attempts[..n])
      + if VerdictAt(g, max, attempts, n) == Denied then [attempts[n].now] else []
  }

  /** The times of the attempts that were granted. */
  function GrantedTimes(g: Guard, max: nat, attempts: seq<Attempt>): seq<nat> {
    if attempts == [] then []
    else
      var n := |attempts| - 1;
      GrantedTimes(g, max, attempts[..n])
      + if VerdictAt(g, max, attempts, n) == Granted then [attempts[n].now] else []
  }

  /**
   How the failures, the guard and the clock are related after a run without a success, when
   `lockouts` is the number of lockouts it caused.
   */
  ghost predicate Paced(f0: nat, max: nat, times: seq<nat>, g: Guard, lockouts: nat) {
    && f0 + |times| == max * lockouts + g.failed && g.failed < max
    && (times != [] ==>
          var first, last := times[0], times[|times| - 1];
          if g.failed == 0
          then lockouts > 0 && g.until == last + LOCKOUT_SECONDS
               && last >= first + LOCKOUT_SECONDS * (lockouts - 1)
          else last >= first + LOCKOUT_SECONDS * lockouts)
  }

  lemma DeniedKeepsPace(f0: nat, max: nat, times: seq<nat>, g: Guard, lockouts: nat, now: nat) returns (lockouts': nat)
    requires 0 < max && Paced(f0, max, times, g, lockouts)
    requires times == [] ==> lockouts == 0
    requires times != [] ==> times[|times| - 1] <= now
    requires !Locked(g, now)
    ensures Paced(f0, max, times + [now], GuardAfter(g, max, Attempt(now, false)), lockouts')
  {
    var times' := times + [now];
    assert times != [] ==> times'[0] == times[0];
    assert now >= times'[0] + LOCKOUT_SECONDS * lockouts;
    lockouts' := if g.failed + 1 >= max then lockouts + 1 else lockouts;
    Distribute(max, lockouts, 1);
  }

  lemma EarlierAttempts(g: Guard, max: nat, attempts: seq<Attempt>)
    requires attempts != [] && NoneGranted(g, max, attempts) && ClockRuns(attempts)
    ensures var n := |attempts| - 1;
            && NoneGranted(g, max, attempts[..n]) && ClockRuns(attempts[..n])
            && VerdictOf(RunGuard(g, max, attempts[..n]), attempts[n]) != Granted
            && (n > 0 ==> attempts[..n][n - 1].now <= attempts[n].now)
  {
    hide RunGuard, VerdictOf;
    var n := |attempts| - 1;
    var init := attempts[..n];
    forall i | 0 <= i < n
      ensures VerdictAt(g, max, init, i) == VerdictAt(g, max, attempts, i)
    {
      assert init[..i] == attempts[..i];
    }
    assert VerdictAt(g, max, attempts, n) != Granted;
  }

  lemma SameRefusal(g: Guard, max: nat, a: Attempt)
    requires VerdictOf(g, a) == Denied
    ensures GuardAfter(g, max, a) == GuardAfter(g, max, Attempt(a.now, false))
  {
  }

  lemma SameGuard(g: Guard, max: nat, a: Attempt)
    requires VerdictOf(g, a) == LockedOut
    ensures GuardAfter(g, max, a) == g
  {
  }

  lemma {:induction false} RunKeepsPace(g: Guard, max: nat, attempts: seq<Attempt>) returns (lockouts: nat)
    requires 0 < max && g.failed < max
    requires ClockRuns(attempts) && NoneGranted(g, max, attempts)
    ensures Paced(g.failed, max, DeniedTimes(g, max, attempts), RunGuard(g, max, attempts), lockouts)
    ensures DeniedTimes(g, max, attempts) == [] ==> lockouts == 0
    ensures forall t :: t in DeniedTimes(g, max, attempts) ==> t <= attempts[|attempts| - 1].now
    decreases |attempts|
  {
    if attempts == [] {
      lockouts := 0;
    } else {
      hide Paced, NoneGranted, GuardAfter;
      var n := |attempts| - 1;
      var init := attempts[..n];
      EarlierAttempts(g, max, attempts);
      lockouts := RunKeepsPace(g, max, init);
      var times, before := DeniedTimes(g, max, init), RunGuard(g, max, init);
      assert times != [] ==> times[|times| - 1] in times;
      if VerdictOf(before, attempts[n]) == Denied {
        lockouts := DeniedKeepsPace(g.failed, max, times, before, lockouts, attempts[n].now);
        SameRefusal(before, max, attempts[n]);
      } else {
        assert times + [] == times;
        SameGuard(before, max, attempts[n]);
      }
    }
  }

  /**
   N evaluated failures with no success among them take at least 300 seconds for every full `max`
   of the failures that precede the last one, counting those already on record at the start.
   */
  lemma FailuresTakeTime(g: Guard, max: nat, attempts: seq<Attempt>)
    requires 0 < max && g.failed < max
    requires ClockRuns(attempts) && NoneGranted(g, max, attempts)
    requires DeniedTimes(g, max, attempts) != []
    ensures var times := DeniedTimes(g, max, attempts);
            times[|times| - 1] >= times[0] + LOCKOUT_SECONDS * ((g.failed + |times| - 1) / max)
  {
    var lockouts := RunKeepsPace(g, max, attempts);
    var times, end := DeniedTimes(g, max, attempts), RunGuard(g, max, attempts);
    var m := g.failed + |times| - 1;
    if end.failed == 0 {
      Distribute(max, lockouts - 1, 1);
      Euclid(m, max, lockouts - 1, max - 1);
    } else {
      Euclid(m, max, lockouts, end.failed - 1);
    }
  }
}
