/**
 * The meaning of one pulse of the shared tick timer, stated on values: the
 * registrations as they stand before the pulse, and what each registration's
 * callback returns when it is called.
 */
module TickSchedule {
  import opened Wrappers
  import opened Primitives
  import opened Events

  /** The state of one registration: its interval, its service, its countdown and its removal flag. */
  datatype Reg = Reg(tickTime: int32, service: string, nextTick: int32, removeRequested: bool)

  /**
   * A registration fires in a pulse when its decremented countdown is zero or
   * below: a countdown of at most 1, except `int.MinValue`, which wraps.
   */
  predicate Due(r: Reg): (b: bool)
    ensures b <==> r.nextTick <= 1 && r.nextTick != -0x8000_0000
  {
    Dec32(r.nextTick) <= 0
  }

  /** The registration after a pulse that did not abort on it: a due one restarts its countdown at its interval. */
  function Advance(r: Reg): (a: Reg)
    ensures a.tickTime == r.tickTime && a.service == r.service && a.removeRequested == r.removeRequested
    ensures Due(r) ==> a.nextTick == r.tickTime
    ensures !Due(r) ==> a.nextTick >= 1
    ensures !Due(r) && r.nextTick != -0x8000_0000 ==> a.nextTick as int == r.nextTick as int - 1
  {
    r.(nextTick := if Due(r) then r.tickTime else Dec32(r.nextTick))
  }

  /** The event a firing registration contributes: its service, the callback's values and `ttl = TickTime`. */
  function TickToEvent(r: Reg, t: TickEvent): (e: Result<Event, ClientError>)
    ensures e.Success? <==> Utf16Length(t.state) <= MaxStateLength
    ensures e.Success? ==> e.value == FiredEvent(r, t)
    ensures e.Failure? ==> e.error == StateTooLong
  {
    NewEvent(r.service, t.state, t.description, t.metricValue, r.tickTime)
  }

  /** What sweeping one registration does: its new state, the event it fired, the error that aborts the sweep. */
  datatype Step = Step(reg: Reg, fired: Option<Event>, error: Option<ClientError>)

  /**
   * One registration in the sweep. It is decremented; a due one calls its
   * callback, builds its event and restarts. Building the event throws when
   * the callback's state is too long, and then the registration stays
   * decremented and not restarted.
   */
  function StepReg(r: Reg, t: TickEvent): (st: Step)
    ensures st.error.Some? <==> Due(r) && Utf16Length(t.state) > MaxStateLength
    ensures st.fired.Some? <==> Due(r) && st.error.None?
    ensures st.fired.Some? ==> st.fired.value == FiredEvent(r, t)
    ensures st.error.None? ==> st.reg == Advance(r)
    ensures st.error.Some? ==> st.reg == r.(nextTick := Dec32(r.nextTick))
  {
    if !Due(r) then Step(Advance(r), None, None)
    else match TickToEvent(r, t)
      case Success(e) => Step(Advance(r), Some(e), None)
      case Failure(err) => Step(r.(nextTick := Dec32(r.nextTick)), None, Some(err))
  }

  /** Where a sweep over a prefix of the registrations stands. */
  datatype SweepState = SweepState(regs: seq<Reg>, events: seq<Event>, error: Option<ClientError>)

  /** A sweep that has not failed taking one more registration; a failed one leaves it as it is. */
  function Extend(p: SweepState, r: Reg, t: TickEvent): (e: SweepState)
  {
    if p.error.Some? then SweepState(p.regs + [r], p.events, p.error)
    else
      var st := StepReg(r, t);
      SweepState(p.regs + [st.reg], p.events + (if st.fired.Some? then [st.fired.value] else []), st.error)
  }

  /**
   * The sweep of the first `n` registrations, in list order. The first
   * registration whose event cannot be built stops it: the later ones are
   * untouched.
   */
  function SweepUpTo(regs: seq<Reg>, outs: seq<TickEvent>, n: nat): (s: SweepState)
    requires |outs| == |regs| && n <= |regs|
    ensures |s.regs| == n
    decreases n
  {
    if n == 0 then SweepState([], [], None)
    else Extend(SweepUpTo(regs, outs, n - 1), regs[n - 1], outs[n - 1])
  }

  /** The sweep of a whole pulse. */
  function Sweep(regs: seq<Reg>, outs: seq<TickEvent>): (s: SweepState)
    requires |outs| == |regs|
    ensures |s.regs| == |regs|
  {
    SweepUpTo(regs, outs, |regs|)
  }

  /** The positions below `n` of the due registrations, in registration order. */
  function DueUpTo(regs: seq<Reg>, n: nat): (d: seq<nat>)
    requires n <= |regs|
    ensures forall k :: 0 <= k < |d| ==> d[k] < n && Due(regs[d[k]])
    ensures forall k, l :: 0 <= k < l < |d| ==> d[k] < d[l]
    ensures forall i :: 0 <= i < n && Due(regs[i]) ==> i in d
    decreases n
  {
    if n == 0 then []
    else
      var p := DueUpTo(regs, n - 1);
      if Due(regs[n - 1]) then p + [n - 1] else p
  }

  /** The positions of the due registrations, in registration order. */
  function DueIndices(regs: seq<Reg>): (d: seq<nat>)
    ensures forall k :: 0 <= k < |d| ==> d[k] < |regs| && Due(regs[d[k]])
    ensures forall k, l :: 0 <= k < l < |d| ==> d[k] < d[l]
    ensures forall i :: 0 <= i < |regs| && Due(regs[i]) ==> i in d
  {
    DueUpTo(regs, |regs|)
  }

  /** The event a due registration sends, with the fields a successful `TickToEvent` has. */
  function FiredEvent(r: Reg, t: TickEvent): Event {
    Event(r.service, t.state, t.description, t.metricValue, r.tickTime)
  }

  /** A partial sweep fails exactly when some due registration in it got a state longer than 255 UTF-16 code units. */
  lemma {:induction false} SweepUpToFails(regs: seq<Reg>, outs: seq<TickEvent>, n: nat)
    requires |outs| == |regs| && n <= |regs|
    ensures SweepUpTo(regs, outs, n).error.Some? <==>
            exists i :: 0 <= i < n && Due(regs[i]) && Utf16Length(outs[i].state) > 255
    ensures SweepUpTo(regs, outs, n).error.Some? ==> SweepUpTo(regs, outs, n).error == Some(StateTooLong)
    decreases n
  {
    if n > 0 {
      SweepUpToFails(regs, outs, n - 1);
    }
  }

  /** A sweep fails exactly when some due registration's callback returned a state longer than 255 UTF-16 code units. */
  lemma SweepFailsIffLongState(regs: seq<Reg>, outs: seq<TickEvent>)
    requires |outs| == |regs|
    ensures Sweep(regs, outs).error.Some? <==>
            exists i :: 0 <= i < |regs| && Due(regs[i]) && Utf16Length(outs[i].state) > 255
    ensures Sweep(regs, outs).error.Some? ==> Sweep(regs, outs).error == Some(StateTooLong)
  {
    SweepUpToFails(regs, outs, |regs|);
  }

  /** One registration swept without error: advanced, and firing exactly when due. */
  lemma StepWithoutError(r: Reg, t: TickEvent)
    requires StepReg(r, t).error.None?
    ensures StepReg(r, t).reg == Advance(r)
    ensures StepReg(r, t).fired == if Due(r) then Some(FiredEvent(r, t)) else None
  {
  }

  /** The sweep of a prefix without error keeps it failure-free at every shorter prefix. */
  lemma {:induction false} EarlierWithoutError(regs: seq<Reg>, outs: seq<TickEvent>, n: nat)
    requires |outs| == |regs| && 0 < n <= |regs|
    requires SweepUpTo(regs, outs, n).error.None?
    ensures SweepUpTo(regs, outs, n - 1).error.None?
    ensures StepReg(regs[n - 1], outs[n - 1]).error.None?
  {
  }

  /** The registrations after a partial sweep without error. */
  lemma {:induction false} SweptRegsWithoutError(regs: seq<Reg>, outs: seq<TickEvent>, n: nat)
    requires |outs| == |regs| && n <= |regs|
    requires SweepUpTo(regs, outs, n).error.None?
    ensures forall i :: 0 <= i < n ==> SweepUpTo(regs, outs, n).regs[i] == Advance(regs[i])
    decreases n
  {
    if n > 0 {
      EarlierWithoutError(regs, outs, n);
      SweptRegsWithoutError(regs, outs, n - 1);
      StepWithoutError(regs[n - 1], outs[n - 1]);
      SweepAdvance(regs, outs, n - 1, StepReg(regs[n - 1], outs[n - 1]));
    }
  }

  /** The events of a partial sweep without error. */
  lemma {:induction false} SweptEventsWithoutError(regs: seq<Reg>, outs: seq<TickEvent>, n: nat)
    requires |outs| == |regs| && n <= |regs|
    requires SweepUpTo(regs, outs, n).error.None?
    ensures var d := DueUpTo(regs, n);
            && |SweepUpTo(regs, outs, n).events| == |d|
            && forall k :: 0 <= k < |d| ==> SweepUpTo(regs, outs, n).events[k] == FiredEvent(regs[d[k]], outs[d[k]])
    decreases n
  {
    if n > 0 {
      EarlierWithoutError(regs, outs, n);
      SweptEventsWithoutError(regs, outs, n - 1);
      StepWithoutError(regs[n - 1], outs[n - 1]);
      SweepAdvance(regs, outs, n - 1, StepReg(regs[n - 1], outs[n - 1]));
    }
  }

  /**
   * A sweep that does not fail decrements every registration, restarts
   * exactly the due ones at their interval, keeps every interval, service and
   * flag, and collects one event per due registration, in registration order,
   * each with the registration's service and `ttl = TickTime`.
   */
  lemma SweepWithoutError(regs: seq<Reg>, outs: seq<TickEvent>)
    requires |outs| == |regs|
    requires Sweep(regs, outs).error.None?
    ensures forall i :: 0 <= i < |regs| ==> Sweep(regs, outs).regs[i] == Advance(regs[i])
    ensures var d := DueIndices(regs);
            && |Sweep(regs, outs).events| == |d|
            && forall k :: 0 <= k < |d| ==> Sweep(regs, outs).events[k] == FiredEvent(regs[d[k]], outs[d[k]])
  {
    SweptRegsWithoutError(regs, outs, |regs|);
    SweptEventsWithoutError(regs, outs, |regs|);
  }

  /**
   * Once the sweep of a prefix has failed, the rest of the registrations are
   * left as they were and nothing more is collected.
   */
  lemma {:induction false} SweepStopsAtError(regs: seq<Reg>, outs: seq<TickEvent>, i: nat, n: nat)
    requires |outs| == |regs| && i <= n <= |regs|
    requires SweepUpTo(regs, outs, i).error.Some?
    ensures var p, q := SweepUpTo(regs, outs, i), SweepUpTo(regs, outs, n);
            q == SweepState(p.regs + regs[i..n], p.events, p.error)
    decreases n
  {
    if n > i {
      SweepStopsAtError(regs, outs, i, n - 1);
      assert regs[i..n] == regs[i..n - 1] + [regs[n - 1]];
    } else {
      assert regs[i..n] == [];
    }
  }

  /** One more registration swept, while the sweep has not failed. */
  lemma SweepAdvance(regs: seq<Reg>, outs: seq<TickEvent>, i: nat, step: Step)
    requires |outs| == |regs| && i < |regs| && SweepUpTo(regs, outs, i).error.None?
    requires step == StepReg(regs[i], outs[i])
    ensures SweepUpTo(regs, outs, i + 1).error == step.error
    ensures SweepUpTo(regs, outs, i + 1).regs == SweepUpTo(regs, outs, i).regs + [step.reg]
    ensures SweepUpTo(regs, outs, i + 1).events ==
            SweepUpTo(regs, outs, i).events + (if step.fired.Some? then [step.fired.value] else [])
  {
  }

  /** The fire pattern of one registration over `m` consecutive pulses, sweeps assumed not to fail. */
  function Pulses(r: Reg, m: nat): (p: seq<bool>)
    ensures |p| == m
    decreases m
  {
    if m == 0 then [] else [Due(r)] + Pulses(Advance(r), m - 1)
  }

  /** Pulse `i` (counting from 0) is the first firing `d` or `d` plus a multiple of the interval `k`. */
  predicate FiresAt(k: int, d: int, i: int)
    requires k >= 1
  {
    i >= d && (i - d) % k == 0
  }

  /** The pulse on which a registration with countdown `n` fires first. */
  function FirstFiring(n: int): int {
    if n == 0 then 0 else n - 1
  }

  /**
   * Periodicity: a registration with interval `k >= 1` and countdown `n` in
   * `0..k` fires first in pulse `FirstFiring(n)` and then every `k` pulses;
   * in particular a new registration (countdown 0) fires on its first pulse,
   * and it fires at most once per pulse whatever the lag.
   */
  lemma {:induction false} FiresEveryInterval(r: Reg, m: nat, i: nat)
    requires 1 <= r.tickTime && 0 <= r.nextTick <= r.tickTime
    requires i < m
    ensures Pulses(r, m)[i] <==> FiresAt(r.tickTime as int, FirstFiring(r.nextTick as int), i)
    decreases m
  {
    var k, n := r.tickTime as int, r.nextTick as int;
    assert Pulses(r, m) == [Due(r)] + Pulses(Advance(r), m - 1);
    if i == 0 {
      FiresAtZero(k, FirstFiring(n));
    } else {
      var r' := Advance(r);
      FiresEveryInterval(r', m - 1, i - 1);
      assert Pulses(r, m)[i] == Pulses(r', m - 1)[i - 1];
      if n <= 1 {
        FiresAtRestart(k, i);
      } else {
        assert r'.nextTick as int == n - 1;
      }
    }
  }

  lemma FiresAtZero(k: int, d: int)
    requires k >= 1 && 0 <= d < k
    ensures FiresAt(k, d, 0) <==> d == 0
  {
    if d > 0 {
      ModUnique(0 - d, k, -1, k - d);
    }
  }

  lemma FiresAtRestart(k: int, i: int)
    requires k >= 1 && i >= 1
    ensures FiresAt(k, k - 1, i - 1) <==> FiresAt(k, 0, i)
  {
    ModMinusDivisor(i, k);
    if i % k == 0 {
      MultipleAtLeastDivisor(i, k);
    }
  }

  lemma ModMinusDivisor(i: int, k: int)
    requires k >= 1
    ensures (i - k) % k == i % k
  {
    var q := i / k;
    assert i - k == (q - 1) * k + i % k;
    ModUnique(i - k, k, q - 1, i % k);
  }

  lemma MultipleAtLeastDivisor(i: int, k: int)
    requires k >= 1 && i >= 1 && i % k == 0
    ensures i >= k
  {
    var q := i / k;
    assert i == q * k;
  }

  /** Euclidean division has one quotient and one remainder. */
  lemma ModUnique(a: int, k: int, q: int, r: int)
    requires k >= 1 && 0 <= r < k && a == q * k + r
    ensures a % k == r
  {
    var d := q - a / k;
    assert d * k == a % k - r;
  }

  /** The elements of `s` that are not in `gone`, in their original order. */
  function Keep<T(==)>(s: seq<T>, gone: seq<T>): (r: seq<T>)
    ensures forall i :: 0 <= i < |r| ==> r[i] in s && r[i] !in gone
    ensures forall i :: 0 <= i < |s| && s[i] !in gone ==> s[i] in r
    ensures |r| <= |s|
    decreases |s|
  {
    if s == [] then []
    else (if s[0] in gone then [] else [s[0]]) + Keep(s[1..], gone)
  }

  /** Filtering out nothing keeps everything. */
  lemma {:induction false} KeepNothing<T>(s: seq<T>)
    ensures Keep(s, []) == s
    decreases |s|
  {
    if s != [] {
      KeepNothing(s[1..]);
    }
  }

  /** Filtering is split-compatible: the kept elements of a concatenation keep their relative order. */
  lemma {:induction false} KeepConcat<T>(a: seq<T>, b: seq<T>, gone: seq<T>)
    ensures Keep(a + b, gone) == Keep(a, gone) + Keep(b, gone)
    decreases |a|
  {
    if a != [] {
      assert (a + b)[1..] == a[1..] + b;
      KeepConcat(a[1..], b, gone);
    } else {
      assert a + b == b;
    }
  }

  /** `List.Remove`: drop the first occurrence of `x`, if any. */
  function RemoveFirst<T(==)>(s: seq<T>, x: T): (r: seq<T>)
    ensures x !in s ==> r == s
    ensures x in s ==> |r| == |s| - 1
    decreases |s|
  {
    if s == [] then []
    else if s[0] == x then s[1..]
    else [s[0]] + RemoveFirst(s[1..], x)
  }

  /** `List.Remove` takes out exactly one occurrence of an element present, and nothing else. */
  lemma {:induction false} RemoveFirstOccurrence<T>(s: seq<T>, x: T)
    ensures x in s ==> multiset(RemoveFirst(s, x)) == multiset(s) - multiset{x}
    ensures x !in s ==> multiset(RemoveFirst(s, x)) == multiset(s)
    decreases |s|
  {
    if s != [] {
      assert s == [s[0]] + s[1..];
      RemoveFirstOccurrence(s[1..], x);
    }
  }

  predicate Distinct<T(==)>(s: seq<T>) {
    forall i, j :: 0 <= i < j < |s| ==> s[i] != s[j]
  }

  /** On a list without repeats, removing elements one by one is filtering out the set removed so far. */
  lemma {:induction false} RemoveFirstIsKeep<T>(s: seq<T>, gone: seq<T>, x: T)
    requires Distinct(s)
    ensures RemoveFirst(Keep(s, gone), x) == Keep(s, gone + [x])
    decreases |s|
  {
    if s != [] {
      RemoveFirstIsKeep(s[1..], gone, x);
      var k := Keep(s[1..], gone);
      if s[0] in gone {
        assert Keep(s, gone) == k;
      } else {
        assert Keep(s, gone) == [s[0]] + k;
        assert ([s[0]] + k)[1..] == k;
        if s[0] == x {
          assert x !in s[1..];
          KeepWithoutAbsent(s[1..], gone, x);
        }
      }
    }
  }

  /** Filtering a list without repeats gives a list without repeats. */
  lemma {:induction false} KeepDistinct<T>(s: seq<T>, gone: seq<T>)
    requires Distinct(s)
    ensures Distinct(Keep(s, gone))
    decreases |s|
  {
    if s != [] {
      KeepDistinct(s[1..], gone);
      var k := Keep(s[1..], gone);
      assert s[0] !in s[1..];
      assert s[0] !in k;
    }
  }

  lemma {:induction false} KeepWithoutAbsent<T>(s: seq<T>, gone: seq<T>, x: T)
    requires x !in s
    ensures Keep(s, gone + [x]) == Keep(s, gone)
    decreases |s|
  {
    if s != [] {
      KeepWithoutAbsent(s[1..], gone, x);
    }
  }

  /** The registrations among the first `n` whose removal flag is set, in order. */
  function FlaggedUpTo<T>(ts: seq<T>, regs: seq<Reg>, n: nat): (r: seq<T>)
    requires |ts| == |regs| && n <= |ts|
    decreases n
  {
    if n == 0 then []
    else FlaggedUpTo(ts, regs, n - 1) + (if regs[n - 1].removeRequested then [ts[n - 1]] else [])
  }

  /** The registrations whose removal flag is set, in order. */
  function Flagged<T>(ts: seq<T>, regs: seq<Reg>): (r: seq<T>)
    requires |ts| == |regs|
    ensures |r| <= |ts|
  {
    FlaggedUpToCount(ts, regs, |ts|);
    FlaggedUpTo(ts, regs, |ts|)
  }

  /**
   * After the sweep: nothing happens unless some registration is flagged;
   * when every registration is flagged the list is dropped (`None`) and the
   * timer goes with it; otherwise the flagged ones are taken out and the
   * others stay in their order.
   */
  function Prune<T(==)>(ts: seq<T>, regs: seq<Reg>): (r: Option<seq<T>>)
    requires |ts| == |regs|
    ensures r.None? ==> |ts| > 0
    ensures r.Some? ==> |r.value| <= |ts| && forall x :: x in r.value ==> x in ts
    ensures Flagged(ts, regs) == [] ==> r == Some(ts)
  {
    var removals := Flagged(ts, regs);
    if |removals| == 0 then Some(ts)
    else if |removals| == |ts| then None
    else Some(Keep(ts, removals))
  }

  /** Only registrations among the first `n` are taken among the removals. */
  lemma {:induction false} FlaggedUpToMembers<T>(ts: seq<T>, regs: seq<Reg>, n: nat)
    requires |ts| == |regs| && n <= |ts|
    ensures forall x :: x in FlaggedUpTo(ts, regs, n) ==> x in ts[..n]
    decreases n
  {
    if n > 0 {
      FlaggedUpToMembers(ts, regs, n - 1);
      assert ts[..n] == ts[..n - 1] + [ts[n - 1]];
    }
  }

  /** What a flag means: among the first `n`, a registration is a removal exactly when its flag is set. */
  lemma {:induction false} FlaggedUpToIffRequested<T>(ts: seq<T>, regs: seq<Reg>, n: nat)
    requires |ts| == |regs| && n <= |ts| && Distinct(ts)
    ensures forall i :: 0 <= i < n ==> (ts[i] in FlaggedUpTo(ts, regs, n) <==> regs[i].removeRequested)
    decreases n
  {
    if n > 0 {
      FlaggedUpToIffRequested(ts, regs, n - 1);
      FlaggedUpToMembers(ts, regs, n - 1);
      assert ts[n - 1] !in ts[..n - 1];
    }
  }

  /** Every one of the first `n` is a removal exactly when the removals number `n`. */
  lemma {:induction false} FlaggedUpToCount<T>(ts: seq<T>, regs: seq<Reg>, n: nat)
    requires |ts| == |regs| && n <= |ts|
    ensures |FlaggedUpTo(ts, regs, n)| <= n
    ensures |FlaggedUpTo(ts, regs, n)| == n <==> forall i :: 0 <= i < n ==> regs[i].removeRequested
    decreases n
  {
    if n > 0 {
      FlaggedUpToCount(ts, regs, n - 1);
    }
  }

  /** What a flag means: a registration is among the removals exactly when its flag is set. */
  lemma FlaggedIffRequested<T>(ts: seq<T>, regs: seq<Reg>)
    requires |ts| == |regs| && Distinct(ts)
    ensures forall i :: 0 <= i < |ts| ==> (ts[i] in Flagged(ts, regs) <==> regs[i].removeRequested)
    ensures forall x :: x in Flagged(ts, regs) ==> x in ts
    ensures |Flagged(ts, regs)| == |ts| <==> forall i :: 0 <= i < |ts| ==> regs[i].removeRequested
    ensures |Flagged(ts, regs)| <= |ts|
  {
    FlaggedUpToIffRequested(ts, regs, |ts|);
    FlaggedUpToMembers(ts, regs, |ts|);
    FlaggedUpToCount(ts, regs, |ts|);
    assert ts[..|ts|] == ts;
  }

  /**
   * Removal: the registrations kept are exactly the unflagged ones, in their
   * original order, and the list is dropped exactly when every registration
   * was flagged.
   */
  lemma PruneKeepsUnflagged<T>(ts: seq<T>, regs: seq<Reg>)
    requires |ts| == |regs| && |ts| > 0 && Distinct(ts)
    ensures Prune(ts, regs).None? <==> forall i :: 0 <= i < |ts| ==> regs[i].removeRequested
    ensures Prune(ts, regs).Some? ==>
            forall i :: 0 <= i < |ts| ==> (ts[i] in Prune(ts, regs).value <==> !regs[i].removeRequested)
  {
    FlaggedIffRequested(ts, regs);
    var removals := Flagged(ts, regs);
    if |removals| == 0 {
      assert forall i :: 0 <= i < |ts| ==> ts[i] !in removals;
    }
  }

  /**
   * A registration whose removal was asked for before the pulse still takes
   * part in it: when due, its event is among the pulse's events, and only
   * afterwards is it removed.
   */
  lemma FlaggedStillFires<T>(ts: seq<T>, regs: seq<Reg>, outs: seq<TickEvent>, i: nat)
    requires |ts| == |regs| && |outs| == |regs| && Distinct(ts) && i < |ts|
    requires Sweep(regs, outs).error.None?
    requires regs[i].removeRequested && Due(regs[i])
    ensures FiredEvent(regs[i], outs[i]) in Sweep(regs, outs).events
    ensures Prune(ts, regs).Some? ==> ts[i] !in Prune(ts, regs).value
  {
    SweepWithoutError(regs, outs);
    var d := DueIndices(regs);
    var k :| 0 <= k < |d| && d[k] == i;
    assert Sweep(regs, outs).events[k] == FiredEvent(regs[i], outs[i]);
    PruneKeepsUnflagged(ts, regs);
  }
}
