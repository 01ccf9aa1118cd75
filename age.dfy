/** The age calculator (`getDaysUnused`): whole days, rounded up, between a
    secret's last access and the current time. Timestamps are integer
    milliseconds since the epoch and the current time is a parameter. */
module Age {
  import opened Wrappers

  /** 1000 * 60 * 60 * 24 milliseconds. */
  const MillisPerDay: nat := 86400000

  function Abs(x: int): (r: nat)
    ensures r == x || r == -x
  {
    if x < 0 then -x else x
  }

  /** The ceiling of n / d: the least q whose q * d reaches n. */
  function CeilDiv(n: nat, d: nat): (q: nat)
    requires d > 0
    ensures q * d >= n
    ensures q > 0 ==> (q - 1) * d < n
    ensures q == 0 <==> n == 0
  {
    var q := (n + d - 1) / d;
    var r := (n + d - 1) % d;
    assert n + d - 1 == q * d + r && 0 <= r < d;
    assert (q - 1) * d == q * d - d;
    q
  }

  lemma MulMonotone(a: int, b: int, d: nat)
    requires a <= b
    ensures a * d <= b * d
  {
    assert b * d - a * d == (b - a) * d;
  }

  /** The two bounds of CeilDiv's contract single out its value. */
  lemma CeilDivUnique(n: nat, d: nat, q: nat)
    requires d > 0
    requires q * d >= n
    requires q > 0 ==> (q - 1) * d < n
    ensures CeilDiv(n, d) == q
  {
    var c := CeilDiv(n, d);
    if c < q {
      MulMonotone(c, q - 1, d);
    } else if c > q {
      MulMonotone(q, c - 1, d);
    }
  }

  /** A longer gap never gives fewer days. */
  lemma CeilDivMonotone(n1: nat, n2: nat, d: nat)
    requires d > 0
    requires n2 <= n1
    ensures CeilDiv(n2, d) <= CeilDiv(n1, d)
  {
    var q1, q2 := CeilDiv(n1, d), CeilDiv(n2, d);
    if q1 < q2 {
      MulMonotone(q1, q2 - 1, d);
    }
  }

  /** `getDaysUnused`: null exactly when there is no last-access date,
      otherwise the ceiling of |now - lastAccessed| / MillisPerDay. */
  function DaysUnused(lastAccessed: Option<int>, now: int): (days: Option<nat>)
    ensures days.None? <==> lastAccessed.None?
  {
    match lastAccessed
    case None => None
    case Some(t) => Some(CeilDiv(Abs(now - t), MillisPerDay))
  }

  /** The day count is the least number of whole days covering the gap, and
      it is zero only when the access is at `now` itself. */
  lemma DaysUnusedBounds(t: int, now: int)
    ensures DaysUnused(Some(t), now).Some?
    ensures var d := DaysUnused(Some(t), now).value;
      d * MillisPerDay >= Abs(now - t) &&
      (d > 0 ==> (d - 1) * MillisPerDay < Abs(now - t)) &&
      (d == 0 <==> t == now)
  {
  }

  /** The absolute difference makes the age independent of which of the two
      instants is later (clock skew gives no negative age). */
  lemma DaysUnusedSymmetric(t: int, now: int)
    ensures DaysUnused(Some(t), now) == DaysUnused(Some(now), t)
  {
    assert Abs(now - t) == Abs(t - now);
  }

  /** A gap of exactly k days, in either direction, is reported as k days. */
  lemma DaysUnusedWholeDays(t: int, now: int, k: nat)
    requires now - t == k * MillisPerDay || t - now == k * MillisPerDay
    ensures DaysUnused(Some(t), now) == Some(k)
  {
    var n := Abs(now - t);
    assert n == k * MillisPerDay;
    if k > 0 {
      assert (k - 1) * MillisPerDay == k * MillisPerDay - MillisPerDay;
    }
    CeilDivUnique(n, MillisPerDay, k);
  }

  /** An earlier last access never yields a smaller age. */
  lemma DaysUnusedMonotone(t1: int, t2: int, now: int)
    requires t1 <= t2 <= now
    ensures DaysUnused(Some(t1), now).value >= DaysUnused(Some(t2), now).value
  {
    CeilDivMonotone(now - t1, now - t2, MillisPerDay);
  }
}
