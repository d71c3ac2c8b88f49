/**
 The bound that every fixed-window budget in the forum relies on: windows of one
 subject do not overlap and each holds at most `limit` grants, so no interval as
 long as the window sees more than twice the limit.
 */
module FixedWindow {

  /** One grant and the start of the window it was charged to. */
  datatype Grant = Grant(at: int, since: int)

  ghost predicate Windowed(grants: seq<Grant>, window: int, limit: nat) {
    && (forall i | 0 <= i < |grants| :: grants[i].since <= grants[i].at < grants[i].since + window)
    && (forall i, j | 0 <= i < j < |grants| :: grants[i].at <= grants[j].at)
    && (forall i, j | 0 <= i < j < |grants| :: grants[i].since <= grants[j].since)
    && (forall i | limit <= i < |grants| :: grants[i - limit].since + window <= grants[i].since)
  }

  /** The last `count` grants, and no earlier one, belong to the window started at `since`. */
  ghost predicate Ends(grants: seq<Grant>, window: int, since: int, count: nat) {
    && 0 < count <= |grants|
    && (forall i | |grants| - count <= i < |grants| :: grants[i].since == since)
    && (forall i | 0 <= i < |grants| - count :: grants[i].since + window <= since)
  }

  lemma {:induction false} Extend(grants: seq<Grant>, window: int, limit: nat, x: Grant)
    requires Windowed(grants, window, limit) && x.since <= x.at < x.since + window && limit > 0
    requires grants != [] ==> grants[|grants| - 1].at <= x.at && grants[|grants| - 1].since <= x.since
    requires |grants| >= limit ==> grants[|grants| - limit].since + window <= x.since
    ensures Windowed(grants + [x], window, limit)
  {
    var more, n := grants + [x], |grants|;
    forall i | 0 <= i < n
      ensures grants[i].at <= x.at && grants[i].since <= x.since
    {
      assert i < n - 1 ==> grants[i].at <= grants[n - 1].at && grants[i].since <= grants[n - 1].since;
    }
    forall i | limit <= i <= n
      ensures more[i - limit].since + window <= more[i].since
    {
      LaterWindow(grants, window, limit, x, i);
    }
  }

  lemma {:induction false} LaterWindow(grants: seq<Grant>, window: int, limit: nat, x: Grant, i: nat)
    requires Windowed(grants, window, limit) && 0 < limit <= i <= |grants|
    requires grants[|grants| - limit].since + window <= x.since
    ensures grants[i - limit].since + window <= (grants + [x])[i].since
  {
  }

  /** A grant charged to the window the last grants were charged to. */
  lemma {:induction false} Charge(grants: seq<Grant>, window: int, limit: nat, now: int, since: int, count: nat)
    requires Windowed(grants, window, limit) && Ends(grants, window, since, count) && count < limit
    requires since <= now < since + window && grants[|grants| - 1].at <= now
    ensures Windowed(grants + [Grant(now, since)], window, limit)
    ensures Ends(grants + [Grant(now, since)], window, since, count + 1)
  {
    hide Windowed;
    Extend(grants, window, limit, Grant(now, since));
  }

  /** A grant that opens a window after every earlier window is over. */
  lemma {:induction false} Open(grants: seq<Grant>, window: int, limit: nat, now: int)
    requires Windowed(grants, window, limit) && window > 0 && limit > 0
    requires grants != [] ==> grants[|grants| - 1].since + window <= now
    ensures Windowed(grants + [Grant(now, now)], window, limit)
    ensures Ends(grants + [Grant(now, now)], window, now, 1)
  {
    if grants != [] {
      var last := grants[|grants| - 1];
      assert last.since <= last.at < last.since + window;
      assert forall i | 0 <= i < |grants| :: grants[i].since <= last.since;
    }
    hide Windowed;
    Extend(grants, window, limit, Grant(now, now));
  }

  /** How many grants fall in the half-open interval. */
  function Within(grants: seq<Grant>, from: int, to: int): (n: nat)
    ensures n <= |grants|
  {
    if grants == [] then 0
    else Within(grants[..|grants| - 1], from, to) + if from <= grants[|grants| - 1].at < to then 1 else 0
  }

  lemma {:induction false} WithinAfter(grants: seq<Grant>, from: int, to: int, k: nat)
    requires k <= |grants| && forall i | 0 <= i < k :: grants[i].at < from
    ensures Within(grants, from, to) <= |grants| - k
    decreases |grants|
  {
    if |grants| > k {
      WithinAfter(grants[..|grants| - 1], from, to, k);
    } else if k > 0 {
      WithinAfter(grants[..k - 1], from, to, k - 1);
    }
  }

  /**
   Windows with some play: a grant is dated at most `last` after its window's start, and
   whatever comes `limit` grants later belongs to a window that started at least `step`
   later and is dated at least `next` after that start.
   */
  ghost predicate Spaced(grants: seq<Grant>, limit: nat, last: int, next: int, step: int) {
    && (forall i | 0 <= i < |grants| :: grants[i].at <= grants[i].since + last)
    && (forall i, j | 0 <= i && i + limit <= j < |grants| ::
          grants[i].since + step <= grants[j].since && grants[i].since + next <= grants[j].at)
  }

  lemma {:induction false} FarApart(grants: seq<Grant>, limit: nat, last: int, next: int, step: int, i: nat, j: nat,
        m: nat)
    requires Spaced(grants, limit, last, next, step) && limit > 0 && m > 0 && i + m * limit <= j < |grants|
    ensures grants[i].since + (m - 1) * step + next <= grants[j].at
    decreases m
  {
    if m == 1 {
      assert i + limit <= j;
    } else {
      var k := i + limit;
      Times(m, limit);
      FarApart(grants, limit, last, next, step, k, j, m - 1);
      assert (m - 1) * step == (m - 1 - 1) * step + step;
    }
  }

  lemma {:induction false} Times(m: nat, limit: nat)
    requires m > 1
    ensures m * limit == (m - 1) * limit + limit && (m - 1) * limit >= limit
  {
  }

  /** No interval of the given length holds more than `m` times the limit. */
  lemma {:induction false} AtMostTimesTheLimit(grants: seq<Grant>, limit: nat, last: int, next: int, step: int,
        m: nat, from: int, length: int)
    requires Spaced(grants, limit, last, next, step) && limit > 0 && m > 0
    requires (m - 1) * step + next >= last + length
    ensures Within(grants, from, from + length) <= m * limit
    decreases |grants|
  {
    if |grants| > m * limit {
      var n := |grants| - 1;
      if grants[n].at < from + length {
        forall i: nat | i < |grants| - m * limit
          ensures grants[i].at < from
        {
          FarApart(grants, limit, last, next, step, i, n, m);
        }
        WithinAfter(grants, from, from + length, |grants| - m * limit);
      } else {
        AtMostTimesTheLimit(grants[..n], limit, last, next, step, m, from, length);
      }
    }
  }

  /** The sliding bound, for every interval one window long. */
  lemma {:induction false} AtMostTwiceTheLimit(grants: seq<Grant>, window: int, limit: nat, from: int)
    requires Windowed(grants, window, limit) && limit > 0
    ensures Within(grants, from, from + window) <= 2 * limit
  {
    forall i, j | 0 <= i && i + limit <= j < |grants|
      ensures grants[i].since + window <= grants[j].since <= grants[j].at
    {
      assert grants[j - limit].since + window <= grants[j].since && grants[i].since <= grants[j - limit].since;
    }
    AtMostTimesTheLimit(grants, limit, window, window, window, 2, from, window);
  }

  lemma {:induction false} WithinAppend(a: seq<Grant>, b: seq<Grant>, from: int, to: int)
    ensures Within(a + b, from, to) == Within(a, from, to) + Within(b, from, to)
    decreases |b|
  {
    if b == [] {
      assert a + b == a;
    } else {
      var n := |b| - 1;
      assert (a + b)[..|a + b| - 1] == a + b[..n];
      WithinAppend(a, b[..n], from, to);
    }
  }
}
