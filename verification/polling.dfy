/** The two loops that wait for the appliance or the node to catch up. */
module Polling {

  /* ---- NodeStageVolume: doubling sleeps until the device shows up ---- */

  /** Nanoseconds in Go's time.Second. */
  const SECOND := 1_000_000_000

  /** 64-bit signed arithmetic, as time.Duration has it. */
  function Wrap(n: int): int {
    (n + 0x8000_0000_0000_0000) % 0x1_0000_0000_0000_0000 - 0x8000_0000_0000_0000
  }

  lemma WrapExact(n: int)
    requires -0x8000_0000_0000_0000 <= n < 0x8000_0000_0000_0000
    ensures Wrap(n) == n
  {
  }

  /** What one pass of the loop meets: the rescan fails, the path is missing, or it is not reported missing. */
  datatype Poll = LoginFailed | Missing | Present

  datatype End = Deadline | LoginError | Found | Pending   // Pending: no more polls are known

  datatype Waited = Waited(end: End, polls: nat, slept: int)

  /** The loop from a given sleep time on, for a device that behaves as listed. */
  function Waiting(limit: int, sleepTime: int, device: seq<Poll>): Waited
    decreases |device|
  {
    if sleepTime > limit then Waited(Deadline, 0, 0)
    else if device == [] then Waited(Pending, 0, 0)
    else
      match device[0]
      case LoginFailed => Waited(LoginError, 1, 0)
      case Present => Waited(Found, 1, 0)
      case Missing =>
        var rest := Waiting(limit, Wrap(sleepTime * 2), device[1..]);
        Waited(rest.end, rest.polls + 1, rest.slept + if sleepTime > 0 then sleepTime else 0)
  }

  method WaitForDevice(timeout: int, device: seq<Poll>) returns (r: Waited)
    ensures r == Waiting(Wrap(timeout * SECOND), SECOND, device)
  {
    var found, sleepTime, polls, slept := false, SECOND, 0, 0;
    var limit := Wrap(timeout * SECOND);
    while !found
      invariant polls <= |device|
      invariant found ==> Waiting(limit, SECOND, device) == Waited(Found, polls, slept)
      invariant !found ==> var rest := Waiting(limit, sleepTime, device[polls..]);
        Waiting(limit, SECOND, device) == Waited(rest.end, rest.polls + polls, rest.slept + slept)
      decreases !found, |device| - polls
    {
      if sleepTime > limit { return Waited(Deadline, polls, slept); }
      if polls == |device| { return Waited(Pending, polls, slept); }
      var poll := device[polls];
      assert device[polls..][0] == poll && device[polls..][1..] == device[polls + 1..];
      polls := polls + 1;
      if poll == LoginFailed { return Waited(LoginError, polls, slept); }
      if poll == Missing {
        slept := slept + if sleepTime > 0 then sleepTime else 0;
        sleepTime := Wrap(sleepTime * 2);
      } else {
        found := true;
      }
    }
    return Waited(Found, polls, slept);
  }

  function Pow2(n: nat): nat {
    if n == 0 then 1 else 2 * Pow2(n - 1)
  }

  function Log2(n: int): (l: nat)
    requires 1 <= n
    ensures Pow2(l) <= n < Pow2(l + 1)
  {
    if n == 1 then 0 else 1 + Log2(n / 2)
  }

  lemma {:induction false} Pow2Grows(i: nat, j: nat)
    requires i <= j
    ensures Pow2(i) <= Pow2(j)
  {
    if i < j {
      Pow2Grows(i, j - 1);
    }
  }

  lemma Pow2PlusEight(n: nat)
    ensures Pow2(n + 8) == 256 * Pow2(n)
  {
    assert Pow2(n + 4) == 2 * Pow2(n + 3) == 4 * Pow2(n + 2) == 8 * Pow2(n + 1) == 16 * Pow2(n);
    assert Pow2(n + 8) == 2 * Pow2(n + 7) == 4 * Pow2(n + 6) == 8 * Pow2(n + 5) == 16 * Pow2(n + 4);
  }

  lemma Pow2Of33()
    ensures Pow2(32) == 0x1_0000_0000 && Pow2(33) == 0x2_0000_0000 && Pow2(34) == 0x4_0000_0000
  {
    assert Pow2(0) == 1;
    Pow2PlusEight(0);
    Pow2PlusEight(8);
    Pow2PlusEight(16);
    Pow2PlusEight(24);
  }

  /** Doubling stays exact while fewer than 2^33 seconds are reached. */
  lemma {:induction false} DoublingExact(i: nat)
    requires Pow2(i) < 0x2_0000_0000
    ensures Wrap(Pow2(i) * SECOND * 2) == Pow2(i + 1) * SECOND
  {
    Pow2Of33();
    if i >= 33 {
      Pow2Grows(33, i);
    } else {
      Pow2Grows(i, 32);
      WrapExact(Pow2(i) * SECOND * 2);
    }
  }

  /** The sleep time at which doubling overflows, and the highest it ever gets. */
  const LONGEST := 0x2_0000_0000 * SECOND

  /** The wait from 2^i seconds on, for a limit of at least a second below LONGEST. */
  lemma {:induction false} WaitingFrom(limit: int, i: nat, device: seq<Poll>)
    requires SECOND <= limit < LONGEST && i <= Log2(limit / SECOND) + 1
    ensures var w, last := Waiting(limit, Pow2(i) * SECOND, device), Log2(limit / SECOND) + 1;
      && i + w.polls <= last
      && (w.end == Deadline ==> i + w.polls == last && w.slept == (Pow2(last) - Pow2(i)) * SECOND)
      && (w.end == Found <==> 0 < w.polls <= |device| && device[w.polls - 1] == Present)
      && (w.end == LoginError ==> 0 < w.polls <= |device| && device[w.polls - 1] == LoginFailed)
      && (w.end == Pending ==> w.polls == |device| && i + w.polls < last)
    decreases |device|
  {
    if Pow2(i) <= limit / SECOND && device != [] && device[0] == Missing {
      DoublingExact(i);
      WaitingFrom(limit, i + 1, device[1..]);
    } else if Pow2(i) > limit / SECOND && i <= Log2(limit / SECOND) {
      Pow2Grows(i, Log2(limit / SECOND));
    }
  }

  /** For a timeout that comes out as T whole seconds, 1 <= T < 2^33: at most floor(log2 T) + 1 polls; a deadline error
      only after a total sleep S with T <= S <= 2T - 1 seconds; success only after a poll that did not report the path
      missing; and a device that stays missing is given up. */
  lemma {:induction false} WaitBounds(limit: int, device: seq<Poll>)
    requires SECOND <= limit < LONGEST
    ensures var w, seconds := Waiting(limit, SECOND, device), limit / SECOND;
      && w.polls <= Log2(seconds) + 1
      && (w.end == Deadline ==> seconds * SECOND <= w.slept <= (2 * seconds - 1) * SECOND)
      && (w.end == Found <==> 0 < w.polls <= |device| && device[w.polls - 1] == Present)
      && (|device| > Log2(seconds) ==> w.end != Pending)
  {
    assert Pow2(0) == 1;
    WaitingFrom(limit, 0, device);
  }

  lemma {:induction false} DeviceWaitBounds(timeout: int, device: seq<Poll>)
    requires 1 <= timeout < 0x2_0000_0000
    ensures var w := Waiting(Wrap(timeout * SECOND), SECOND, device);
      && w.polls <= Log2(timeout) + 1
      && (w.end == Deadline ==> timeout * SECOND <= w.slept <= (2 * timeout - 1) * SECOND)
      && (w.end == Found <==> 0 < w.polls <= |device| && device[w.polls - 1] == Present)
      && (|device| > Log2(timeout) ==> w.end != Pending)
  {
    WrapExact(timeout * SECOND);
    assert timeout * SECOND / SECOND == timeout;
    WaitBounds(timeout * SECOND, device);
  }

  function AllMissing(n: nat): (device: seq<Poll>)
    ensures |device| == n && forall i :: 0 <= i < n ==> device[i] == Missing
  {
    seq(n, _ => Missing)
  }

  /** LONGEST is 1953125 of these, and the sleep times after it are small multiples, too. */
  const UNIT := 0x400_0000_0000

  const MULTIPLES: seq<int> := [
    1953125, -288054, -576108, -1152216, 1889872, -414560, -829120, -1658240, 877824, 1755648,
    -683008, -1366016, 1462272, -1269760, 1654784, -884736, -1769472, 655360,
    1310720, -1572864, 1048576, -2097152, 0]

  lemma MultiplesDouble(j: nat)
    requires j < |MULTIPLES|
    ensures MULTIPLES[j] <= 1953125
    ensures (2 * MULTIPLES[j] + 0x20_0000) % 0x40_0000 - 0x20_0000 ==
            if j + 1 < |MULTIPLES| then MULTIPLES[j + 1] else MULTIPLES[j]
  {
  }

  lemma WrapUnits(n: int)
    ensures Wrap(UNIT * n) == UNIT * ((n + 0x20_0000) % 0x40_0000 - 0x20_0000)
  {
    var q, r := (n + 0x20_0000) / 0x40_0000, (n + 0x20_0000) % 0x40_0000;
    assert UNIT * n + 0x8000_0000_0000_0000 == q * 0x1_0000_0000_0000_0000 + UNIT * r;
  }

  lemma NextMultiple(j: nat)
    requires j < |MULTIPLES|
    ensures UNIT * MULTIPLES[j] <= LONGEST
    ensures Wrap(UNIT * MULTIPLES[j] * 2) == UNIT * MULTIPLES[if j + 1 < |MULTIPLES| then j + 1 else j]
  {
    MultiplesDouble(j);
    WrapUnits(2 * MULTIPLES[j]);
  }

  /** Once doubling overflows, no sleep time is ever above LONGEST, and in the end it is 0. */
  lemma {:induction false} OverflownWait(limit: int, j: nat, n: nat)
    requires LONGEST <= limit && j < |MULTIPLES|
    ensures var w := Waiting(limit, UNIT * MULTIPLES[j], AllMissing(n)); w.end == Pending && w.polls == n
    decreases n
  {
    NextMultiple(j);
    if n > 0 {
      assert AllMissing(n)[1..] == AllMissing(n - 1);
      OverflownWait(limit, if j + 1 < |MULTIPLES| then j + 1 else j, n - 1);
    }
  }

  lemma {:induction false} LongWait(limit: int, i: nat, n: nat)
    requires LONGEST <= limit && i <= 33
    ensures var w := Waiting(limit, Pow2(i) * SECOND, AllMissing(n)); w.end == Pending && w.polls == n
    decreases n
  {
    Pow2Of33();
    if i == 33 {
      OverflownWait(limit, 0, n);
    } else {
      Pow2Grows(i, 32);
      if n > 0 {
        DoublingExact(i);
        assert AllMissing(n)[1..] == AllMissing(n - 1);
        LongWait(limit, i + 1, n - 1);
      }
    }
  }

  /** For every timeout: the wait for a device that stays missing ends with a deadline error, sooner or later, exactly
      when the limit comes out below 2^33 seconds. */
  lemma {:induction false} GivesUpExactly(timeout: int)
    ensures (exists n: nat :: Waiting(Wrap(timeout * SECOND), SECOND, AllMissing(n)).end == Deadline)
            <==> Wrap(timeout * SECOND) < LONGEST
  {
    var limit := Wrap(timeout * SECOND);
    assert Pow2(0) == 1;
    if limit < SECOND {
      assert Waiting(limit, SECOND, AllMissing(0)).end == Deadline;
    } else if limit < LONGEST {
      var n := Log2(limit / SECOND) + 1;
      WaitingFrom(limit, 0, AllMissing(n));
      assert Waiting(limit, SECOND, AllMissing(n)).end == Deadline;
    } else {
      forall n: nat ensures Waiting(limit, SECOND, AllMissing(n)).end != Deadline {
        LongWait(limit, 0, n);
      }
    }
  }

  lemma {:induction false} Log2Grows(m: int, n: int)
    requires 1 <= m <= n
    ensures Log2(m) <= Log2(n)
  {
    if Log2(m) > Log2(n) {
      Pow2Grows(Log2(n) + 1, Log2(m));
    }
  }

  /** For every timeout the poll bound holds, for all devices, exactly when the limit comes out below 2^33 seconds. */
  lemma {:induction false} PollBoundExact(timeout: int)
    requires 1 <= timeout
    ensures (forall device :: Waiting(Wrap(timeout * SECOND), SECOND, device).polls <= Log2(timeout) + 1)
            <==> Wrap(timeout * SECOND) < LONGEST
  {
    var limit := Wrap(timeout * SECOND);
    if limit < LONGEST {
      forall device ensures Waiting(limit, SECOND, device).polls <= Log2(timeout) + 1 {
        if SECOND <= limit {
          WaitBounds(limit, device);
          Log2Grows(limit / SECOND, timeout);
        }
      }
    } else {
      assert Pow2(0) == 1;
      LongWait(limit, 0, Log2(timeout) + 2);
      assert Waiting(limit, SECOND, AllMissing(Log2(timeout) + 2)).polls > Log2(timeout) + 1;
    }
  }

  /** The limit itself may wrap around: ten thousand million seconds time out at once. */
  lemma LongTimeoutAtOnce(device: seq<Poll>)
    ensures Waiting(Wrap(10_000_000_000 * SECOND), SECOND, device) == Waited(Deadline, 0, 0)
  {
  }

  /* ---- ControllerUnpublishVolume: sleeps growing by one second until the mappings are gone ---- */

  datatype Reading = Listed(luns: nat) | ReadFailed

  datatype Outcome = Gone | DeadlineExceeded | ReadError

  /** start + 1 plus ... plus start + n. */
  function Series(start: int, n: nat): int {
    if n == 0 then 0 else Series(start, n - 1) + start + n
  }

  lemma {:induction false} SeriesClosedForm(start: int, n: nat)
    ensures 2 * Series(start, n) == n * (2 * start + n + 1)
  {
    if n > 0 {
      SeriesClosedForm(start, n - 1);
      assert n * (2 * start + n + 1) == (n - 1) * (2 * start + n) + 2 * (start + n) by {
        assert n * (2 * start + n + 1) == (n - 1) * (2 * start + n + 1) + (2 * start + n + 1);
        assert (n - 1) * (2 * start + n + 1) == (n - 1) * (2 * start + n) + (n - 1);
      }
    }
  }

  /** How often the loop may poll: never when it starts past the limit. */
  function MostPolls(start: int, limit: int): nat {
    if start > limit then 0 else limit - start + 1
  }

  predicate Left(r: Reading) {
    r.Listed? && r.luns > 0
  }

  /** `first` is the length of the listing read before the loop, later(i) what the i-th poll reads. */
  method WaitUntilGone(start: int, limit: int, first: nat, later: nat -> Reading)
    returns (r: Outcome, polls: nat, slept: int, sleepTime: int)
    ensures polls <= MostPolls(start, limit)
    ensures slept == Series(start, polls) && sleepTime == start + polls
    ensures polls > 0 ==> first > 0 && forall i :: 0 <= i < polls - 1 ==> Left(later(i))
    ensures r == Gone <==> if polls == 0 then first == 0 else later(polls - 1) == Listed(0)
    ensures r == ReadError <==> polls > 0 && later(polls - 1) == ReadFailed
    ensures r == DeadlineExceeded ==> polls == MostPolls(start, limit) && sleepTime == if start > limit then start else limit + 1
  {
    var luns := first;
    sleepTime := start;
    polls, slept := 0, 0;
    while luns > 0
      invariant sleepTime == start + polls && slept == Series(start, polls) && polls <= MostPolls(start, limit)
      invariant polls == 0 ==> luns == first
      invariant polls > 0 ==> first > 0 && later(polls - 1) == Listed(luns)
      invariant forall i :: 0 <= i < polls - 1 ==> Left(later(i))
      decreases limit + 1 - sleepTime
    {
      if sleepTime > limit { return DeadlineExceeded, polls, slept, sleepTime; }
      sleepTime := sleepTime + 1;
      slept := slept + sleepTime;
      polls := polls + 1;
      match later(polls - 1)
      case ReadFailed => return ReadError, polls, slept, sleepTime;
      case Listed(n) => luns := n;
    }
    return Gone, polls, slept, sleepTime;
  }

  lemma {:induction false} SeriesGrows(start: int, m: nat, n: nat)
    requires m <= n && start >= 0
    ensures Series(start, m) <= Series(start, n)
  {
    if m < n {
      SeriesGrows(start, m, n - 1);
    }
  }

  /** With the driver's start and limit: at most 59 polls and 3 + 4 + ... + 61 = 1888 seconds of sleep. At the
      deadline the last sleep time, which the error message gives as the seconds waited, is 61. */
  lemma UnpublishWaitBounds(polls: nat)
    requires polls <= MostPolls(2, 60)
    ensures polls <= 59 && Series(2, polls) <= 1888
    ensures polls == MostPolls(2, 60) ==> Series(2, polls) == 1888 && 2 + polls == 61
  {
    SeriesClosedForm(2, 59);
    SeriesGrows(2, polls, 59);
  }
}
