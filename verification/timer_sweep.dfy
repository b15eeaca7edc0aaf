// The arithmetic of an expiry sweep: which firings a timer owes up to an instant, and why taking them
// one at a time, earliest first, pays each timer exactly what it is owed.
module TimerSweeps {
  import opened Wrappers
  import opened Cabinets
  import opened TimerHeaps

  // The steady clock counts milliseconds in a signed 64-bit integer.
  const CLOCK_END: nat := 0x8000_0000_0000_0000
  const WORD: nat := 0x1_0000_0000_0000_0000

  datatype Firing = Firing(token: Token, due: nat, cb: nat)

  // A timer that has fired and is due again.
  function Next(tm: Timer): Timer {
    tm.(expired := (tm.expired + tm.interval) % WORD, repeat := if tm.repeat == 0 then 0 else tm.repeat - 1)
  }

  // The timer that a sweep may fire next: due, and due no later than any other.
  ghost predicate IsNext(m: map<Token, Timer>, t: Token, now: nat) {
    t in m && m[t].expired <= now && forall u :: u in m ==> m[t].expired <= m[u].expired
  }

  ghost function Fire(m: map<Token, Timer>, t: Token): map<Token, Timer>
    requires t in m
  {
    if m[t].repeat == 1 then m - {t} else m[t := Next(m[t])]
  }

  // A timer that does not fire for ever at one instant.
  predicate Tame(tm: Timer) {
    tm.interval < CLOCK_END && (tm.repeat == 0 ==> tm.interval > 0)
  }

  /** How often a timer fires in a sweep at `now`: once per interval begun, at most `repeat` times if positive. */
  function Fires(tm: Timer, now: nat): nat
    requires Tame(tm)
  {
    if tm.expired > now then 0
    else if tm.interval == 0 then tm.repeat
    else if tm.repeat == 0 then (now - tm.expired) / tm.interval + 1
    else Min((now - tm.expired) / tm.interval + 1, tm.repeat)
  }

  // The instants of those firings.
  function Dues(tm: Timer, now: nat): (s: seq<nat>)
    requires Tame(tm)
    ensures |s| == Fires(tm, now)
  {
    seq(Fires(tm, now), k requires k >= 0 => tm.expired + k * tm.interval)
  }

  /** What is left of the timer after the sweep. */
  function Swept(tm: Timer, now: nat): Option<Timer>
    requires Tame(tm)
  {
    var k := Fires(tm, now);
    if tm.repeat > 0 && k == tm.repeat then None
    else Some(tm.(expired := tm.expired + k * tm.interval, repeat := if tm.repeat == 0 then 0 else tm.repeat - k))
  }

  lemma MulAtLeast(x: int, d: int)
    requires x >= 1 && d > 0
    ensures x * d >= d
  {
  }

  lemma StepDiv(a: nat, d: nat)
    requires d > 0 && a >= d
    ensures a / d == (a - d) / d + 1
  {
    var q, p := a / d, (a - d) / d + 1;
    var r, s := a % d, (a - d) % d;
    assert a == q * d + r;
    assert a - d == (p - 1) * d + s;
    assert (p - 1) * d == p * d - d;
    assert (q - p) * d == q * d - p * d == s - r;
    if q > p { MulAtLeast(q - p, d); }
    if q < p { MulAtLeast(p - q, d); }
  }

  lemma SmallDiv(a: nat, d: nat)
    requires a < d
    ensures a / d == 0
  {
  }

  // The quotient that counts intervals goes down by one when the timer moves on by one interval.
  lemma TicksStep(e: nat, d: nat, now: nat)
    requires d > 0 && e <= now
    ensures (now - e) / d + 1 == if e + d > now then 1 else (now - (e + d)) / d + 2
  {
    if e + d > now {
      SmallDiv(now - e, d);
    } else {
      StepDiv(now - e, d);
      assert now - (e + d) == now - e - d;
    }
  }

  lemma FiresStep(tm: Timer, now: nat)
    requires Tame(tm) && tm.expired <= now < CLOCK_END && tm.repeat != 1
    ensures Tame(Next(tm)) && Fires(tm, now) == Fires(Next(tm), now) + 1
  {
    var e, d := tm.expired, tm.interval;
    assert Next(tm).expired == e + d by { SmallMod(e + d); }
    if d > 0 {
      TicksStep(e, d, now);
    }
  }

  lemma SmallMod(a: nat)
    requires a < WORD
    ensures a % WORD == a
  {
  }

  lemma LastFire(tm: Timer, now: nat)
    requires Tame(tm) && tm.expired <= now && tm.repeat == 1
    ensures Dues(tm, now) == [tm.expired] && Swept(tm, now) == None
  {
  }

  lemma DuesStep(tm: Timer, now: nat)
    requires Tame(tm) && tm.expired <= now < CLOCK_END && tm.repeat != 1
    ensures Tame(Next(tm)) && Dues(tm, now) == [tm.expired] + Dues(Next(tm), now)
    ensures Swept(tm, now) == Swept(Next(tm), now)
  {
    FiresStep(tm, now);
    var e, d := tm.expired, tm.interval;
    assert Next(tm).expired == e + d by { SmallMod(e + d); }
    var a, b := Dues(tm, now), [e] + Dues(Next(tm), now);
    assert |a| == |b|;
    forall k | 0 <= k < |a| ensures a[k] == b[k] {
      if k > 0 { assert e + d + (k - 1) * d == e + k * d; }
    }
    var n := Fires(Next(tm), now);
    assert e + d + n * d == e + (n + 1) * d;
  }

  /** A timer is left due after `now`. */
  lemma SweptIsLater(tm: Timer, now: nat)
    requires Tame(tm)
    ensures Swept(tm, now).Some? ==> Swept(tm, now).value.expired > now
  {
    if tm.expired <= now && tm.interval > 0 && Swept(tm, now).Some? {
      var d, a := tm.interval, now - tm.expired;
      assert Fires(tm, now) == a / d + 1;
      assert (a / d + 1) * d == (a / d) * d + d;
    }
  }

  // The due instants of one timer in a log.
  ghost function DuesIn(log: seq<Firing>, t: Token): seq<nat> {
    if log == [] then []
    else DuesIn(log[..|log| - 1], t) + if log[|log| - 1].token == t then [log[|log| - 1].due] else []
  }

  lemma DuesInSnoc(log: seq<Firing>, f: Firing, t: Token)
    ensures DuesIn(log + [f], t) == DuesIn(log, t) + if f.token == t then [f.due] else []
  {
    assert (log + [f])[..|log|] == log;
  }

  ghost predicate Ordered(log: seq<Firing>, now: nat) {
    && (forall i, j :: 0 <= i < j < |log| ==> log[i].due <= log[j].due)
    && (forall i :: 0 <= i < |log| ==> log[i].due <= now)
  }

  // Midway from m0 to m: what timer t has fired so far plus what it still owes is what it owed.
  ghost predicate Paid(m0: map<Token, Timer>, m: map<Token, Timer>, log: seq<Firing>, now: nat, t: Token) {
    && (t in m ==>
          && t in m0 && Tame(m0[t]) && Tame(m[t]) && m[t].cb == m0[t].cb
          && DuesIn(log, t) + Dues(m[t], now) == Dues(m0[t], now)
          && Swept(m[t], now) == Swept(m0[t], now))
    && (t !in m && t in m0 ==> Tame(m0[t]) && DuesIn(log, t) == Dues(m0[t], now) && Swept(m0[t], now) == None)
    && (t !in m0 ==> DuesIn(log, t) == [])
  }

  ghost predicate Midway(m0: map<Token, Timer>, m: map<Token, Timer>, log: seq<Firing>, now: nat) {
    && (forall t :: Paid(m0, m, log, now, t))
    && Ordered(log, now)
    && (forall t :: t in m && log != [] ==> log[|log| - 1].due <= m[t].expired)
  }

  lemma MidwayStart(m: map<Token, Timer>, now: nat)
    requires forall t :: t in m ==> Tame(m[t])
    ensures Midway(m, m, [], now)
  {
    forall t ensures Paid(m, m, [], now, t) {
      if t in m { assert [] + Dues(m[t], now) == Dues(m[t], now); }
    }
  }

  lemma PaidLast(m0: map<Token, Timer>, m: map<Token, Timer>, log: seq<Firing>, now: nat, t: Token)
    requires now < CLOCK_END && Paid(m0, m, log, now, t) && t in m && m[t].expired <= now && m[t].repeat == 1
    ensures Paid(m0, Fire(m, t), log + [Firing(t, m[t].expired, m[t].cb)], now, t)
  {
    DuesInSnoc(log, Firing(t, m[t].expired, m[t].cb), t);
    LastFire(m[t], now);
  }

  lemma PaidAgain(m0: map<Token, Timer>, m: map<Token, Timer>, log: seq<Firing>, now: nat, t: Token)
    requires now < CLOCK_END && Paid(m0, m, log, now, t) && t in m && m[t].expired <= now && m[t].repeat != 1
    ensures Paid(m0, Fire(m, t), log + [Firing(t, m[t].expired, m[t].cb)], now, t)
  {
    DuesInSnoc(log, Firing(t, m[t].expired, m[t].cb), t);
    DuesStep(m[t], now);
    Assoc(DuesIn(log, t), [m[t].expired], Dues(Next(m[t]), now));
  }

  lemma PaidStep(m0: map<Token, Timer>, m: map<Token, Timer>, log: seq<Firing>, now: nat, t: Token, u: Token)
    requires now < CLOCK_END && Paid(m0, m, log, now, u) && t in m && m[t].expired <= now
    ensures Paid(m0, Fire(m, t), log + [Firing(t, m[t].expired, m[t].cb)], now, u)
  {
    if u != t {
      DuesInSnoc(log, Firing(t, m[t].expired, m[t].cb), u);
    } else if m[t].repeat == 1 {
      PaidLast(m0, m, log, now, t);
    } else {
      PaidAgain(m0, m, log, now, t);
    }
  }

  lemma MidwayStep(m0: map<Token, Timer>, m: map<Token, Timer>, log: seq<Firing>, now: nat, t: Token)
    requires now < CLOCK_END && Midway(m0, m, log, now) && IsNext(m, t, now)
    ensures Midway(m0, Fire(m, t), log + [Firing(t, m[t].expired, m[t].cb)], now)
  {
    forall u ensures Paid(m0, Fire(m, t), log + [Firing(t, m[t].expired, m[t].cb)], now, u) {
      assert Paid(m0, m, log, now, u);
      PaidStep(m0, m, log, now, t, u);
    }
    assert Paid(m0, m, log, now, t);
  }

  // ---- the sweep ends: the firings still owed run out ----

  ghost function Owed(m: map<Token, Timer>, now: nat): nat
    requires forall t :: t in m ==> Tame(m[t])
  {
    if m == map[] then 0 else var t :| t in m; Fires(m[t], now) + Owed(m - {t}, now)
  }

  lemma {:induction false} OwedTakeOut(m: map<Token, Timer>, now: nat, t: Token)
    requires (forall u :: u in m ==> Tame(m[u])) && t in m
    ensures Owed(m, now) == Fires(m[t], now) + Owed(m - {t}, now)
  {
    var u :| u in m && Owed(m, now) == Fires(m[u], now) + Owed(m - {u}, now);
    if u != t {
      OwedTakeOut(m - {u}, now, t);
      OwedTakeOut(m - {t}, now, u);
      assert m - {u} - {t} == m - {t} - {u};
    }
  }

  lemma OwedStep(m: map<Token, Timer>, now: nat, t: Token)
    requires now < CLOCK_END && (forall u :: u in m ==> Tame(m[u])) && t in m && m[t].expired <= now
    ensures forall u :: u in Fire(m, t) ==> Tame(Fire(m, t)[u])
    ensures Owed(Fire(m, t), now) < Owed(m, now)
  {
    OwedTakeOut(m, now, t);
    if m[t].repeat == 1 {
      LastFire(m[t], now);
    } else {
      FiresStep(m[t], now);
      var m' := Fire(m, t);
      OwedTakeOut(m', now, t);
      assert m' - {t} == m - {t};
    }
  }

  /** A finished sweep: every timer fired exactly at its due instants, and what is left is due later. */
  lemma SweepDone(m0: map<Token, Timer>, m: map<Token, Timer>, log: seq<Firing>, now: nat)
    requires Midway(m0, m, log, now) && forall t :: t in m ==> now < m[t].expired
    ensures forall t :: t in m0 ==> Tame(m0[t])
    ensures forall t :: t in m0 ==> DuesIn(log, t) == Dues(m0[t], now)
    ensures forall t :: t in m <==> t in m0 && Swept(m0[t], now).Some?
    ensures forall t :: t in m ==> m[t] == Swept(m0[t], now).value
  {
    forall t ensures t in m0 ==> Tame(m0[t]) && DuesIn(log, t) == Dues(m0[t], now)
      ensures t in m <==> t in m0 && Tame(m0[t]) && Swept(m0[t], now).Some?
      ensures t in m ==> t in m0 && Some(m[t]) == Swept(m0[t], now)
    {
      assert Paid(m0, m, log, now, t);
    }
  }
}
