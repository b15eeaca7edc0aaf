// The alarm as it is written: it keeps a target, and a timer that runs until then.
module Alarms {
  import opened Wrappers
  import opened AlarmSearch

  datatype AlarmState = Fresh | Inited | Running

  datatype Calendar = Calendar(special: map<int, bool>, mask: seq<bool>)

  // The waiting time in milliseconds, in 32 bits.
  function RemainMs(sec: nat, usec: nat): nat
    requires sec >= 1 && usec < 1_000_000
  {
    (sec * 1000 - usec / 1000) % 0x1_0000_0000
  }

  // It is right for less than about 49.7 days, and too short beyond.
  lemma RemainIff(sec: nat, usec: nat)
    requires sec >= 1 && usec < 1_000_000
    ensures RemainMs(sec, usec) == sec * 1000 - usec / 1000 <==> sec < 4294968 || (sec == 4294968 && usec / 1000 >= 705)
  {
  }

  // Such a wait is real: after a holiday of fifty days the next working day is farther away than that, and the
  // timer runs for about seven hours.
  lemma LongHoliday(day: nat)
    ensures
      var k := Workday(map[day + 50 := true], seq(7, _ => false), true);
      IsNext(k, 0, Instant(day, 0), Instant(day + 50, 0))
    ensures RemainMs(Instant(day + 50, 0) - Instant(day, 0), 0) == 25_032_704 != 50 * DAY * 1000
  {
    var k := Workday(map[day + 50 := true], seq(7, _ => false), true);
    InstantParts(day, 0);
    SearchIsLeast(k, 0, Instant(day, 0), 50);
  }

  // A weekly alarm never waits longer than a week from where its search starts.
  lemma WeeklyWithinWeek(mask: seq<bool>, sod: nat, after: nat, t: nat)
    requires |mask| == 7 && sod < DAY && IsNext(Weekly(mask), sod, after, t)
    ensures t <= after + WEEK
  {
    if t > after + WEEK {
      var d := t / DAY;
      DaySplit(t);
      InstantParts(d - 7, sod);
      assert t - WEEK == Instant(d - 7, sod);
      WeekdayAdds(d - 7, 7);
      assert Due(Weekly(mask), sod, t - WEEK);
    }
  }

  // Nothing is due after one instant and up to another.
  ghost predicate NoneDue(k: Kind, sod: nat, after: nat, upTo: nat)
    requires Formed(k)
  {
    forall u {:trigger Due(k, sod, u)} :: after < u <= upTo ==> !Due(k, sod, u)
  }

  // After disable() and enable(), whatever initialize() has set meanwhile, the old target still counts: the alarm
  // aims at the next instant from now on exactly if nothing of its schedule is due before or at that target.
  lemma ReenableIff(k: Kind, sod: nat, now: nat, target: nat, chosen: nat, next: nat)
    requires Formed(k)
    requires IsNext(k, sod, Max(now, target), chosen) && IsNext(k, sod, now, next)
    ensures chosen == next <==> NoneDue(k, sod, now, target)
    ensures chosen != next ==> next <= target < chosen
  {
    assert Due(k, sod, chosen) && Due(k, sod, next);
    if target <= now || NoneDue(k, sod, now, target) {
      assert !(now < next <= target);
      NextIsUnique(k, sod, Max(now, target), chosen, next);
    }
  }

  lemma AimsAtNextIff(k: Kind, sod: nat, now: nat, target: nat, chosen: nat)
    requires Formed(k) && IsNext(k, sod, Max(now, target), chosen)
    ensures IsNext(k, sod, now, chosen) <==> NoneDue(k, sod, now, target)
  {
    if IsNext(k, sod, now, chosen) {
      ReenableIff(k, sod, now, target, chosen, chosen);
    }
  }

  // With the old schedule kept, so that the target is due, the next instant is missed exactly if the target is ahead.
  lemma SameSchedule(k: Kind, sod: nat, now: nat, target: nat)
    requires Formed(k) && Due(k, sod, target)
    ensures NoneDue(k, sod, now, target) <==> target <= now
  {
  }

  const MONDAYS := [false, true, false, false, false, false, false]
  const DAILY := [true, true, true, true, true, true, true]

  // An alarm for Mondays that is disabled on a Thursday and made a daily one stays silent until Tuesday.
  lemma SkipsDays()
    ensures IsNext(Weekly(MONDAYS), 3600, 0, Instant(4, 3600))
    ensures IsNext(Weekly(DAILY), 3600, 0, Instant(0, 3600))
    ensures IsNext(Weekly(DAILY), 3600, Instant(4, 3600), Instant(5, 3600))
    ensures !NoneDue(Weekly(DAILY), 3600, 0, Instant(4, 3600))
  {
    InstantParts(4, 3600);
    SearchIsLeast(Weekly(MONDAYS), 3600, 0, 4);
    SearchIsLeast(Weekly(DAILY), 3600, 0, 0);
    SearchIsLeast(Weekly(DAILY), 3600, Instant(4, 3600), 1);
    assert Due(Weekly(DAILY), 3600, Instant(0, 3600));
  }

  class Alarm {
    const tz: int
    var state: AlarmState
    var kind: Kind
    var secondsOfDay: nat
    var target: nat
    var timerMs: Option<nat>
    // The targets since the alarm was last enabled or refreshed, and when their timers fired, in local seconds.
    ghost var targets: seq<nat>
    ghost var nows: seq<nat>

    ghost predicate Valid()
      reads this
    {
      && (state != Fresh ==> Formed(kind) && secondsOfDay < DAY)
      && (state == Running <==> timerMs.Some?)
      && (state == Running ==>
            Successive(kind, secondsOfDay, targets, nows) && target + tz == targets[|nows|] && Due(kind, secondsOfDay, target + tz))
    }

    constructor (offsetMinutes: int)
      ensures Valid() && state == Fresh && tz == offsetMinutes * 60
    {
      tz := offsetMinutes * 60;
      state, kind, secondsOfDay, target, timerMs := Fresh, Weekly([]), 0, 0, None;
      targets, nows := [], [];
    }

    method InitializeWeekly(sod: int, weekMask: string) returns (ok: bool)
      requires Valid()
      modifies this`state, this`kind, this`secondsOfDay
      ensures Valid() && ok == (old(state) != Running && 0 <= sod < DAY && |weekMask| == 7)
      ensures ok ==> state == Inited && secondsOfDay == sod && kind == Weekly(seq(7, i requires 0 <= i < 7 => weekMask[i] == '1'))
      ensures !ok ==> unchanged(this)
    {
      if state == Running || sod < 0 || sod >= DAY || |weekMask| != 7 {
        return false;
      }
      var mask: seq<bool> := [];
      for i := 0 to 7
        invariant |mask| == i && forall j :: 0 <= j < i ==> mask[j] == (weekMask[j] == '1')
      {
        mask := mask + [weekMask[i] == '1'];
      }
      assert mask == seq(7, i requires 0 <= i < 7 => weekMask[i] == '1');
      kind, secondsOfDay, state := Weekly(mask), sod, Inited;
      return true;
    }

    method InitializeWorkday(sod: int, calendar: Option<Calendar>, workday: bool) returns (ok: bool)
      requires Valid() && (calendar.Some? ==> |calendar.value.mask| == 7)
      modifies this`state, this`kind, this`secondsOfDay
      ensures Valid() && ok == (old(state) != Running && 0 <= sod < DAY && calendar.Some?)
      ensures ok ==>
        state == Inited && secondsOfDay == sod && kind == Workday(calendar.value.special, calendar.value.mask, workday)
      ensures !ok ==> unchanged(this)
    {
      if state == Running || sod < 0 || sod >= DAY || calendar == None {
        return false;
      }
      kind, secondsOfDay, state := Workday(calendar.value.special, calendar.value.mask, workday), sod, Inited;
      return true;
    }

    method Calculate(curr: nat) returns (r: Option<nat>)
      requires Formed(kind) && secondsOfDay < DAY
      ensures r.Some? ==> IsNext(kind, secondsOfDay, curr, r.value)
      ensures r == None ==> forall u {:trigger Due(kind, secondsOfDay, u)} ::
        curr < u && u / DAY <= curr / DAY + 366 ==> !Due(kind, secondsOfDay, u)
    {
      if kind.Weekly? {
        r := CalculateWeekly(kind.mask, secondsOfDay, curr);
      } else {
        r := CalculateWorkday(kind, secondsOfDay, curr);
      }
    }

    // Sets the target to the least due instant after both now and the old target, and starts the timer.
    method ActiveTimer(now: nat, usec: nat) returns (ok: bool)
      requires state == Inited && timerMs == None && Formed(kind) && secondsOfDay < DAY
      requires now + tz >= 0 && usec < 1_000_000
      modifies this`state, this`target, this`timerMs
      ensures ok ==> target > now && timerMs == Some(RemainMs(target - now, usec))
      ensures ok ==> state == Running && IsNext(kind, secondsOfDay, Max(now, old(target)) + tz, target + tz)
      ensures !ok ==> unchanged(this) && forall u {:trigger Due(kind, secondsOfDay, u)} ::
        Max(now, target) + tz < u && u / DAY <= (Max(now, target) + tz) / DAY + 366 ==> !Due(kind, secondsOfDay, u)
    {
      var start := Max(now, target);
      var next := Calculate(start + tz);
      if next == None {
        return false;
      }
      target := next.value - tz;
      timerMs := Some(RemainMs(target - now, usec));
      state := Running;
      return true;
    }

    method Enable(now: nat, usec: nat) returns (ok: bool)
      requires Valid() && now + tz >= 0 && usec < 1_000_000
      modifies this
      ensures Valid() && kind == old(kind) && secondsOfDay == old(secondsOfDay)
      ensures old(state) != Inited ==> !ok && unchanged(this)
      ensures ok ==> state == Running && IsNext(kind, secondsOfDay, Max(now, old(target)) + tz, target + tz)
      ensures ok && old(target) + tz >= 0 ==>
        (IsNext(kind, secondsOfDay, now + tz, target + tz) <==> NoneDue(kind, secondsOfDay, now + tz, old(target) + tz))
    {
      if state != Inited {
        return false;
      }
      ghost var was := target;
      ok := ActiveTimer(now, usec);
      if ok && was + tz >= 0 {
        AimsAtNextIff(kind, secondsOfDay, now + tz, was + tz, target + tz);
      }
      if ok {
        targets, nows := [target + tz], [];
      }
    }

    // The target is kept.
    method Disable() returns (ok: bool)
      requires Valid()
      modifies this`state, this`timerMs
      ensures Valid() && ok == (old(state) == Running) && state == (if ok then Inited else old(state))
    {
      if state != Running {
        return false;
      }
      state, timerMs := Inited, None;
      return true;
    }

    // What the alarm rings by once its calendar has changed.
    ghost function Changed(calendar: Option<Calendar>): Kind
      reads this
    {
      if kind.Workday? && calendar.Some?
      then Workday(calendar.value.special, calendar.value.mask, kind.workday) else kind
    }

    // The calendar has changed, or somebody asks: the target is forgotten, so the next one is the least due instant
    // after now.
    method Refresh(now: nat, usec: nat, calendar: Option<Calendar>)
      requires Valid() && now + tz >= 0 && usec < 1_000_000
      requires calendar.Some? ==> |calendar.value.mask| == 7
      modifies this
      ensures Valid() && kind == old(Changed(calendar)) && secondsOfDay == old(secondsOfDay)
      ensures old(state) != Running ==> state == old(state) && target == old(target)
      ensures state == Running ==> IsNext(kind, secondsOfDay, now + tz, target + tz)
      ensures old(state) == Running && state != Running ==> forall u {:trigger Due(kind, secondsOfDay, u)} ::
        now + tz < u && u / DAY <= (now + tz) / DAY + 366 ==> !Due(kind, secondsOfDay, u)
    {
      if kind.Workday? && calendar.Some? {
        kind := Workday(calendar.value.special, calendar.value.mask, kind.workday);
      }
      if state == Running {
        state, timerMs, target := Inited, None, 0;
        var ok := ActiveTimer(now, usec);
        if ok {
          targets, nows := [target + tz], [];
        }
      }
    }

    // The timer has fired, early or late; the alarm rings and aims at the next instant.
    method OnTimeExpired(now: nat, usec: nat)
      requires Valid() && state == Running && now + tz >= 0 && usec < 1_000_000
      modifies this
      ensures Valid() && kind == old(kind) && secondsOfDay == old(secondsOfDay)
      ensures state == Running ==> target > old(target) && targets == old(targets) + [target + tz] && nows == old(nows) + [now + tz]
      ensures state == Running ==> IsNext(kind, secondsOfDay, Max(now, old(target)) + tz, target + tz)
    {
      ghost var was := target;
      state, timerMs := Inited, None;
      var ok := ActiveTimer(now, usec);
      if ok {
        Continue(kind, secondsOfDay, targets, nows, now + tz, target + tz);
        targets, nows := targets + [target + tz], nows + [now + tz];
      }
    }
  }

  lemma Continue(k: Kind, sod: nat, targets: seq<nat>, nows: seq<nat>, now: nat, next: nat)
    requires Formed(k) && Successive(k, sod, targets, nows)
    requires IsNext(k, sod, Max(now, targets[|nows|]), next)
    ensures Successive(k, sod, targets + [next], nows + [now])
  {
    var ts, ns := targets + [next], nows + [now];
    forall i | 0 <= i < |ns| ensures IsNext(k, sod, Max(ns[i], ts[i]), ts[i + 1]) {
      if i < |nows| {
        assert IsNext(k, sod, Max(nows[i], targets[i]), targets[i + 1]);
      }
    }
  }
}
