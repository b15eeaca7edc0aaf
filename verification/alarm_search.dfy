// When an alarm is due next: the searches over days, and what successive targets cover.
module AlarmSearch {
  import opened Wrappers

  const DAY := 86400
  const WEEK := 604800

  // Day 0 was a Thursday; weekday 0 is Sunday.
  function Weekday(day: nat): (w: nat)
    ensures w < 7
  {
    (day % 7 + 4) % 7
  }

  // On which days an alarm rings: by weekday, or by a calendar of working days with exceptions.
  datatype Kind =
    | Weekly(mask: seq<bool>)
    | Workday(special: map<int, bool>, mask: seq<bool>, workday: bool)

  predicate Formed(k: Kind) {
    |k.mask| == 7
  }

  function IsWorkday(special: map<int, bool>, mask: seq<bool>, day: nat): bool
    requires |mask| == 7
  {
    if day in special then special[day] else mask[Weekday(day)]
  }

  predicate Rings(k: Kind, day: nat)
    requires Formed(k)
  {
    match k
    case Weekly(mask) => mask[Weekday(day)]
    case Workday(special, mask, workday) => workday == IsWorkday(special, mask, day)
  }

  // The first of January 1970 was a Thursday, and the days of the week follow each other.
  lemma WeekdaysFollow(day: nat)
    ensures Weekday(0) == 4 && Weekday(day + 1) == (Weekday(day) + 1) % 7
  {
  }

  // A special day of the calendar counts as it says there, on any weekday; other days count by their weekday.
  lemma SpecialDays(special: map<int, bool>, mask: seq<bool>, day: nat)
    requires |mask| == 7
    ensures day in special && special[day] ==> Rings(Workday(special, mask, true), day) && !Rings(Workday(special, mask, false), day)
    ensures day in special && !special[day] ==> !Rings(Workday(special, mask, true), day) && Rings(Workday(special, mask, false), day)
    ensures day !in special ==> (Rings(Workday(special, mask, true), day) <==> Rings(Weekly(mask), day))
    ensures Rings(Workday(special, mask, false), day) <==> !Rings(Workday(special, mask, true), day)
  {
  }

  // The instants, in local seconds, at which the alarm is to ring.
  predicate Due(k: Kind, sod: nat, t: nat)
    requires Formed(k)
  {
    t % DAY == sod && Rings(k, t / DAY)
  }

  // The least due instant after another one.
  predicate IsNext(k: Kind, sod: nat, after: nat, t: nat)
    requires Formed(k)
  {
    after < t && Due(k, sod, t) && forall u {:trigger Due(k, sod, u)} :: after < u < t ==> !Due(k, sod, u)
  }

  lemma NextIsUnique(k: Kind, sod: nat, after: nat, t: nat, u: nat)
    requires Formed(k) && IsNext(k, sod, after, t) && IsNext(k, sod, after, u)
    ensures t == u
  {
    assert Due(k, sod, t) && Due(k, sod, u);
  }

  function Instant(day: nat, sod: nat): nat {
    day * DAY + sod
  }

  lemma InstantParts(day: nat, sod: nat)
    requires sod < DAY
    ensures Instant(day, sod) % DAY == sod && Instant(day, sod) / DAY == day
  {
  }

  lemma DaySplit(t: nat)
    ensures t == t / DAY * DAY + t % DAY && t % DAY < DAY
  {
  }

  // No day from `first` on, among the first n, gives an instant after `curr`.
  predicate NoneAmong(k: Kind, sod: nat, curr: nat, first: nat, n: nat)
    requires Formed(k)
  {
    forall d {:trigger Rings(k, d)} :: first <= d < first + n && Rings(k, d) ==> Instant(d, sod) <= curr
  }

  // Looking day by day from today on finds the least instant of all.
  lemma SearchIsLeast(k: Kind, sod: nat, curr: nat, n: nat)
    requires Formed(k) && sod < DAY
    requires var d0 := curr / DAY; NoneAmong(k, sod, curr, d0, n) && Rings(k, d0 + n) && curr < Instant(d0 + n, sod)
    ensures IsNext(k, sod, curr, Instant(curr / DAY + n, sod))
  {
    var d0 := curr / DAY;
    var t := Instant(d0 + n, sod);
    InstantParts(d0 + n, sod);
    forall u | curr < u < t ensures !Due(k, sod, u) {
      NotDueBetween(k, sod, curr, n, u);
    }
  }

  lemma NotDueBetween(k: Kind, sod: nat, curr: nat, n: nat, u: nat)
    requires Formed(k) && sod < DAY && NoneAmong(k, sod, curr, curr / DAY, n)
    requires curr < u && (u / DAY < curr / DAY + n || u < Instant(curr / DAY + n, sod))
    ensures !Due(k, sod, u)
  {
    DaySplit(u);
    DaySplit(curr);
    assert u % DAY == sod ==> u == Instant(u / DAY, sod);
  }

  lemma WeekdayNext(curr: nat, i: nat)
    ensures (i + (curr % WEEK / DAY + 4) % 7) % 7 == Weekday(curr / DAY + i)
  {
    DayOfWeek(curr);
    WeekdayAdds(curr / DAY, i);
  }

  lemma DayOfWeek(curr: nat)
    ensures curr % WEEK / DAY == curr / DAY % 7
  {
    var w, r := curr / WEEK, curr % WEEK;
    DaySplit(curr);
    DaySplit(r);
    assert curr == w * WEEK + r;
    assert curr == (7 * w + r / DAY) * DAY + r % DAY;
    assert curr / DAY == 7 * w + r / DAY;
  }

  lemma WeekdayAdds(d: nat, i: nat)
    ensures (i + (d % 7 + 4) % 7) % 7 == ((d + i) % 7 + 4) % 7
  {
    var q, q1, q2 := d / 7, (d % 7 + 4) / 7, (d + i) / 7;
    assert i + (d % 7 + 4) % 7 == i + d + 4 + 7 * (-q - q1);
    Mod7(i + d + 4, -q - q1);
    assert (d + i) % 7 + 4 == i + d + 4 + 7 * -q2;
    Mod7(i + d + 4, -q2);
  }

  lemma Mod7(a: int, k: int)
    ensures (a + 7 * k) % 7 == a % 7
  {
    var q := a / 7;
    assert a + 7 * k == 7 * (q + k) + a % 7;
  }

  // How many days until a weekday comes; seven days in a row hold every weekday.
  function DaysUntil(day: nat, w: nat): (i: nat)
    requires w < 7
    ensures 1 <= i <= 7
  {
    if w > Weekday(day) then w - Weekday(day) else w + 7 - Weekday(day)
  }

  lemma WeekdayComes(day: nat, w: nat)
    requires w < 7
    ensures Weekday(day + DaysUntil(day, w)) == w
  {
    WeekdayAdds(day, DaysUntil(day, w));
  }

  // The weekly search; it fails exactly when no weekday is enabled.
  method CalculateWeekly(mask: seq<bool>, sod: nat, curr: nat) returns (r: Option<nat>)
    requires |mask| == 7 && sod < DAY
    ensures r.Some? ==> IsNext(Weekly(mask), sod, curr, r.value)
    ensures r == None <==> forall w :: 0 <= w < 7 ==> !mask[w]
  {
    var k := Weekly(mask);
    ghost var d0 := curr / DAY;
    DaySplit(curr);
    var currWeek := (curr % WEEK / DAY + 4) % 7;
    var next := curr - curr % DAY + sod;
    for i := 0 to 8
      invariant next == Instant(d0 + i, sod) && NoneAmong(k, sod, curr, d0, i)
    {
      var week := (i + currWeek) % 7;
      WeekdayNext(curr, i);
      if curr < next && mask[week] {
        SearchIsLeast(k, sod, curr, i);
        return Some(next);
      }
      next := next + DAY;
    }
    WeekFails(mask, sod, curr);
    return None;
  }

  lemma WeekFails(mask: seq<bool>, sod: nat, curr: nat)
    requires |mask| == 7 && sod < DAY && NoneAmong(Weekly(mask), sod, curr, curr / DAY, 8)
    ensures forall w :: 0 <= w < 7 ==> !mask[w]
  {
    DaySplit(curr);
    forall w | 0 <= w < 7 ensures !mask[w] {
      var d := curr / DAY + DaysUntil(curr / DAY, w);
      WeekdayComes(curr / DAY, w);
      assert Rings(Weekly(mask), d) <==> mask[w];
      assert Instant(d, sod) > curr;
    }
  }

  // The search over working days; it looks at today and 366 more days.
  method CalculateWorkday(k: Kind, sod: nat, curr: nat) returns (r: Option<nat>)
    requires k.Workday? && Formed(k) && sod < DAY
    ensures r.Some? ==> IsNext(k, sod, curr, r.value)
    ensures r == None <==> forall u {:trigger Due(k, sod, u)} :: curr < u && u / DAY <= curr / DAY + 366 ==> !Due(k, sod, u)
  {
    ghost var d0 := curr / DAY;
    DaySplit(curr);
    var currDays := curr / DAY;
    var next := curr - curr % DAY + sod;
    for i := 0 to 367
      invariant next == Instant(d0 + i, sod) && NoneAmong(k, sod, curr, d0, i)
    {
      if curr < next && k.workday == IsWorkday(k.special, k.mask, currDays + i) {
        SearchIsLeast(k, sod, curr, i);
        InstantParts(d0 + i, sod);
        assert Due(k, sod, next);
        return Some(next);
      }
      next := next + DAY;
    }
    forall u | curr < u && u / DAY <= d0 + 366 ensures !Due(k, sod, u) {
      NotDueBetween(k, sod, curr, 367, u);
    }
    return None;
  }

  // A run of an alarm: targets[i + 1] was computed when the timer for targets[i] fired at nows[i].
  predicate Successive(k: Kind, sod: nat, targets: seq<nat>, nows: seq<nat>)
    requires Formed(k)
  {
    && |targets| == |nows| + 1
    && forall i :: 0 <= i < |nows| ==> IsNext(k, sod, Max(nows[i], targets[i]), targets[i + 1])
  }

  lemma {:induction false} TargetsIncrease(k: Kind, sod: nat, targets: seq<nat>, nows: seq<nat>, i: nat, j: nat)
    requires Formed(k) && Successive(k, sod, targets, nows) && i < j < |targets|
    ensures targets[i] < targets[j]
    decreases j
  {
    assert IsNext(k, sod, Max(nows[j - 1], targets[j - 1]), targets[j - 1 + 1]);
    if i < j - 1 {
      TargetsIncrease(k, sod, targets, nows, i, j - 1);
    }
  }

  lemma {:induction false} NoneMissed(k: Kind, sod: nat, targets: seq<nat>, nows: seq<nat>, u: nat)
    requires Formed(k) && Successive(k, sod, targets, nows) && Due(k, sod, u)
    requires targets[0] < u <= targets[|nows|]
    ensures u in targets || exists i :: 0 <= i < |nows| && targets[i] < u <= nows[i]
    decreases |nows|
  {
    var n := |nows|;
    if n > 0 {
      assert IsNext(k, sod, Max(nows[n - 1], targets[n - 1]), targets[n - 1 + 1]);
      if u <= targets[n - 1] {
        assert Successive(k, sod, targets[..n], nows[..n - 1]);
        NoneMissed(k, sod, targets[..n], nows[..n - 1], u);
        if u !in targets[..n] {
          var i :| 0 <= i < n - 1 && targets[..n][i] < u <= nows[..n - 1][i];
          assert targets[i] < u <= nows[i];
        }
      } else if u == targets[n] {
        assert targets[n] in targets;
      } else {
        assert targets[n - 1] < u <= nows[n - 1];
      }
    }
  }

  // A due instant between the first and the last target is a target exactly unless the timer for a target before it
  // fired no earlier than that instant. A timer that fires early, even repeatedly, never skips or repeats one; a
  // late one skips all that it is late for.
  lemma SkippedIff(k: Kind, sod: nat, targets: seq<nat>, nows: seq<nat>, u: nat)
    requires Formed(k) && Successive(k, sod, targets, nows) && Due(k, sod, u)
    requires targets[0] < u <= targets[|nows|]
    ensures u in targets <==> !exists i :: 0 <= i < |nows| && targets[i] < u <= nows[i]
  {
    NoneMissed(k, sod, targets, nows, u);
    if i, j :| 0 <= i < |nows| && targets[i] < u <= nows[i] && 0 <= j < |targets| && targets[j] == u {
      assert IsNext(k, sod, Max(nows[i], targets[i]), targets[i + 1]);
      if j <= i {
        if j < i { TargetsIncrease(k, sod, targets, nows, j, i); }
      } else if i + 1 < j {
        TargetsIncrease(k, sod, targets, nows, i + 1, j);
      }
      assert false;
    }
  }
}
