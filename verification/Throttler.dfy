/**
 The rate limit kept in Redis: one script counts a hit and applies the block. A key is live
 while the clock is before its expiry.
 */
module Throttling {
  import opened Wrappers

  type Positive = n: nat | n > 0 witness 1

  /** The hits of the current window. */
  datatype Counter = Counter(hits: Positive, expiresAt: int)

  /** What the script returns. */
  datatype Reply = Reply(hits: nat, hitsTtl: int, blocked: bool, blockTtl: int)

  /** What the guard is told, times in seconds. */
  datatype Record = Record(totalHits: nat, timeToExpire: nat, isBlocked: bool, timeToBlockExpire: nat)

  /** The two keys of one client. */
  datatype Keys = Keys(counter: Option<Counter>, blockedUntil: Option<int>)

  /** Redis rejects a duration that is not positive. */
  datatype Settings = Settings(ttl: Positive, limit: nat, block: Positive)

  predicate Blocked(k: Keys, now: int) { k.blockedUntil.Some? && now < k.blockedUntil.value }

  predicate Counting(k: Keys, now: int) { k.counter.Some? && now < k.counter.value.expiresAt }

  /** PTTL of the counter: -2 when there is none. */
  function HitsTtl(k: Keys, now: int): int {
    if Counting(k, now) then k.counter.value.expiresAt - now else -2
  }

  function Incremented(k: Keys, now: int, ttl: int): Counter {
    if Counting(k, now) then Counter(k.counter.value.hits + 1, k.counter.value.expiresAt) else Counter(1, now + ttl)
  }

  /** One run of the script. */
  function Script(o: Settings, k: Keys, now: int): (Keys, Reply) {
    if Blocked(k, now) then
      var hits := if Counting(k, now) then k.counter.value.hits else 0;
      (k, Reply(hits, HitsTtl(k, now), true, k.blockedUntil.value - now))
    else
      var c := Incremented(k, now, o.ttl);
      if c.hits > o.limit then
        (Keys(Some(c), Some(now + o.block)), Reply(c.hits, c.expiresAt - now, true, o.block))
      else
        (Keys(Some(c), k.blockedUntil), Reply(c.hits, c.expiresAt - now, false, 0))
  }

  /** Math.ceil(Math.max(ms, 0) / 1000) */
  function CeilSeconds(ms: int): (s: nat)
    ensures ms <= s * 1000
    ensures ms > 0 ==> s * 1000 < ms + 1000
    ensures ms <= 0 ==> s == 0
  {
    if ms <= 0 then 0 else (ms + 999) / 1000
  }

  /** The script's reply in the guard's terms. */
  function RecordOf(reply: Reply): Record {
    Record(reply.hits, CeilSeconds(reply.hitsTtl), reply.blocked, CeilSeconds(reply.blockTtl))
  }

  class RedisThrottler {
    var hits: Option<Counter>
    var blockedUntil: Option<int>

    constructor ()
      ensures State() == Keys(None, None)
    {
      hits, blockedUntil := None, None;
    }

    function State(): Keys
      reads this
    {
      Keys(hits, blockedUntil)
    }

    method RunScript(o: Settings, now: int) returns (reply: Reply)
      modifies this
      ensures (State(), reply) == Script(o, old(State()), now)
    {
      var live := hits.Some? && now < hits.value.expiresAt;
      var blockTtl := if blockedUntil.Some? && now < blockedUntil.value then blockedUntil.value - now else -2;
      if blockTtl > 0 {
        var hitsTtl := if live then hits.value.expiresAt - now else -2;
        return Reply(if live then hits.value.hits else 0, hitsTtl, true, blockTtl);
      }
      var count := if live then hits.value.hits + 1 else 1;
      var expiresAt := if count == 1 then now + o.ttl else hits.value.expiresAt;
      hits := Some(Counter(count, expiresAt));
      if count > o.limit {
        blockedUntil := Some(now + o.block);
        return Reply(count, expiresAt - now, true, o.block);
      }
      reply := Reply(count, expiresAt - now, false, 0);
    }

    /** Whoever waits as long as announced finds the block over. */
    method Increment(o: Settings, now: int) returns (record: Record)
      modifies this
      ensures State() == Script(o, old(State()), now).0
      ensures record == RecordOf(Script(o, old(State()), now).1)
      ensures record.totalHits == Script(o, old(State()), now).1.hits
      ensures var left := Script(o, old(State()), now).1.hitsTtl;
              left <= record.timeToExpire * 1000 < (if left < 0 then 0 else left) + 1000
      ensures record.isBlocked <==> Blocked(State(), now)
      ensures !Blocked(State(), now + record.timeToBlockExpire * 1000)
      ensures record.timeToBlockExpire > 0 ==> Blocked(State(), now + (record.timeToBlockExpire - 1) * 1000)
    {
      var reply := RunScript(o, now);
      record := RecordOf(reply);
    }
  }

  // ---- Runs ------------------------------------------------------------------------------------

  /** A call let through: when, in which window (by its end), and as which one of it. */
  datatype Pass = Pass(at: int, window: int, rank: nat)

  /** The keys after a run of calls, with the passes and refusals so far. */
  datatype System = System(keys: Keys, now: int, log: seq<Pass>)

  function Start(now: int): System { System(Keys(None, None), now, []) }

  /** A call at time t. */
  function Call(o: Settings, s: System, t: int): System {
    var (keys, reply) := Script(o, s.keys, t);
    System(keys, t,
           if reply.blocked || keys.counter.None? then s.log
           else s.log + [Pass(t, keys.counter.value.expiresAt, keys.counter.value.hits)])
  }

  /** The calls of a run come at these times. */
  ghost predicate Ascending(times: seq<int>, from: int) {
    && (forall i :: 0 <= i < |times| ==> from <= times[i])
    && forall i, j :: 0 <= i < j < |times| ==> times[i] <= times[j]
  }

  ghost function Final(o: Settings, s: System, times: seq<int>): System {
    if times == [] then s else Call(o, Final(o, s, times[..|times| - 1]), times[|times| - 1])
  }

  ghost predicate Ranked(o: Settings, p: Pass) {
    1 <= p.rank <= o.limit && p.at < p.window <= p.at + o.ttl && (p.rank == 1 ==> p.window == p.at + o.ttl)
  }

  /** The next pass of the same window, or the first one of a window that opens after it. */
  ghost predicate Follows(o: Settings, p: Pass, q: Pass) {
    && p.at <= q.at
    && ((q.window == p.window && q.rank == p.rank + 1) || (q.rank == 1 && p.window <= q.at))
  }

  ghost predicate WellLogged(o: Settings, log: seq<Pass>) {
    && (log != [] ==> log[0].rank == 1)
    && (forall i :: 0 <= i < |log| ==> Ranked(o, log[i]))
    && forall i :: 0 < i < |log| ==> Follows(o, log[i - 1], log[i])
  }

  function Min(a: nat, b: nat): nat { if a < b then a else b }

  /** The last pass is the latest one of the counter's window, unless none can pass. */
  ghost predicate Accounted(o: Settings, s: System) {
    match s.keys.counter
    case None => s.log == []
    case Some(c) =>
      && c.expiresAt <= s.now + o.ttl
      && (if o.limit == 0 then s.log == []
          else s.log != [] && var last := s.log[|s.log| - 1];
               last.at <= s.now && last.window == c.expiresAt && last.rank == Min(c.hits, o.limit))
  }

  ghost predicate Inv(o: Settings, s: System) { WellLogged(o, s.log) && Accounted(o, s) }

  lemma CallKeepsInv(o: Settings, s: System, t: int)
    requires Inv(o, s) && s.now <= t
    ensures Inv(o, Call(o, s, t))
  {
  }

  lemma {:induction false} RunKeepsInv(o: Settings, start: int, times: seq<int>)
    requires Ascending(times, start)
    ensures Inv(o, Final(o, Start(start), times))
    ensures Final(o, Start(start), times).now == if times == [] then start else times[|times| - 1]
    decreases |times|
  {
    if times != [] {
      RunKeepsInv(o, start, times[..|times| - 1]);
      CallKeepsInv(o, Final(o, Start(start), times[..|times| - 1]), times[|times| - 1]);
    }
  }

  // ---- At most `limit` in a window, fewer than 2 x `limit` in any interval as long -----------------

  lemma {:induction false} PassesAscend(o: Settings, log: seq<Pass>, i: nat, j: nat)
    requires WellLogged(o, log) && i <= j < |log|
    ensures log[i].at <= log[j].at
    ensures (log[j].window == log[i].window && log[j].rank == log[i].rank + (j - i))
            || (log[i].window <= log[j].at && log[i].window + o.ttl <= log[j].window)
    decreases j
  {
    if i < j {
      PassesAscend(o, log, i, j - 1);
      assert Follows(o, log[j - 1], log[j]) && Ranked(o, log[j]);
    }
  }

  /** Two passes with `limit` - 1 others between them are never in the same window. */
  lemma WindowHoldsLimit(o: Settings, start: int, times: seq<int>, i: nat, j: nat)
    requires Ascending(times, start)
    requires var log := Final(o, Start(start), times).log; i + o.limit <= j < |log|
    ensures var log := Final(o, Start(start), times).log;
            log[i].window != log[j].window && log[i].window <= log[j].at
  {
    RunKeepsInv(o, start, times);
    var log := Final(o, Start(start), times).log;
    PassesAscend(o, log, i, j);
    assert Ranked(o, log[i]) && Ranked(o, log[j]);
  }

  lemma FarPassesAreFarApart(o: Settings, log: seq<Pass>, i: nat, j: nat)
    requires WellLogged(o, log) && i < |log| && o.limit > 0 && i + 2 * o.limit - 1 <= j < |log|
    ensures log[i].at + o.ttl <= log[j].at
  {
    var mid := i + o.limit - 1;
    PassesAscend(o, log, i, mid);
    PassesAscend(o, log, mid, j);
    PassesAscend(o, log, i, j);
    assert Ranked(o, log[i]) && Ranked(o, log[mid]) && Ranked(o, log[j]);
  }

  /** How many passes fall between two times. */
  ghost function Within(log: seq<Pass>, from: int, to: int): nat {
    if log == [] then 0
    else Within(log[..|log| - 1], from, to) + if from <= log[|log| - 1].at < to then 1 else 0
  }

  /** The passes of an interval stand next to each other: its first one is at least their number back. */
  lemma {:induction false} WithinIsSpan(o: Settings, log: seq<Pass>, from: int, to: int) returns (i: nat)
    requires WellLogged(o, log) && Within(log, from, to) > 0
    ensures i + Within(log, from, to) <= |log| && from <= log[i].at
    ensures log[i + Within(log, from, to) - 1].at < to
    decreases |log|
  {
    var last := |log| - 1;
    var rest := log[..last];
    if Within(rest, from, to) == 0 {
      i := last;
    } else {
      i := WithinIsSpan(o, rest, from, to);
      PassesAscend(o, log, i, last);
      if from <= log[last].at < to {
        PassesAscend(o, log, i + Within(rest, from, to), last);
      }
    }
  }

  /** At most 2 x limit - 1 calls pass in any half-open interval as long as the window. */
  lemma FewPassesInAnyInterval(o: Settings, start: int, times: seq<int>, from: int)
    requires Ascending(times, start)
    ensures var passes := Within(Final(o, Start(start), times).log, from, from + o.ttl);
            if o.limit == 0 then passes == 0 else passes <= 2 * o.limit - 1
  {
    RunKeepsInv(o, start, times);
    var log := Final(o, Start(start), times).log;
    var passes := Within(log, from, from + o.ttl);
    if passes > 0 && passes > 2 * o.limit - 1 {
      var i := WithinIsSpan(o, log, from, from + o.ttl);
      if o.limit > 0 { FarPassesAreFarApart(o, log, i, i + passes - 1); }
    }
  }

  lemma FinalStep(o: Settings, s: System, times: seq<int>, t: int)
    ensures Final(o, s, times + [t]) == Call(o, Final(o, s, times), t)
  {
    assert (times + [t])[..|times|] == times;
  }

  lemma WithinStep(log: seq<Pass>, p: Pass, from: int, to: int)
    ensures Within(log + [p], from, to) == Within(log, from, to) + if from <= p.at < to then 1 else 0
  {
    assert (log + [p])[..|log|] == log;
  }

  /** n calls at the same time. */
  function Burst(t: int, n: nat): seq<int> { seq(n, _ => t) }

  function CallBurst(o: Settings, s: System, t: int, n: nat): System {
    if n == 0 then s else Call(o, CallBurst(o, s, t, n - 1), t)
  }

  lemma {:induction false} FinalBurst(o: Settings, s: System, times: seq<int>, t: int, n: nat)
    ensures Final(o, s, times + Burst(t, n)) == CallBurst(o, Final(o, s, times), t, n)
    decreases n
  {
    if n == 0 {
      assert times + Burst(t, n) == times;
    } else {
      FinalBurst(o, s, times, t, n - 1);
      assert times + Burst(t, n) == (times + Burst(t, n - 1)) + [t];
      FinalStep(o, s, times + Burst(t, n - 1), t);
    }
  }

  /** A call of an open window with room passes. */
  lemma CallPasses(o: Settings, s: System, t: int, c: Counter, from: int, to: int)
    requires s.keys == Keys(Some(c), None) && t < c.expiresAt && c.hits < o.limit && from <= t < to
    ensures Call(o, s, t).keys == Keys(Some(Counter(c.hits + 1, c.expiresAt)), None)
    ensures Within(Call(o, s, t).log, from, to) == Within(s.log, from, to) + 1
  {
    WithinStep(s.log, Pass(t, c.expiresAt, c.hits + 1), from, to);
  }

  /** As many calls as there is room for all pass. */
  lemma {:induction false} BurstPasses(o: Settings, s: System, t: int, n: nat, c: Counter, from: int, to: int)
    requires s.keys == Keys(Some(c), None) && t < c.expiresAt && c.hits + n <= o.limit && from <= t < to
    ensures CallBurst(o, s, t, n).keys == Keys(Some(Counter(c.hits + n, c.expiresAt)), None)
    ensures Within(CallBurst(o, s, t, n).log, from, to) == Within(s.log, from, to) + n
    decreases n
  {
    if n > 0 {
      BurstPasses(o, s, t, n - 1, c, from, to);
      CallPasses(o, CallBurst(o, s, t, n - 1), t, Counter(c.hits + n - 1, c.expiresAt), from, to);
    }
  }

  /** A call after the window's end opens the next one. */
  lemma CallOpensWindow(o: Settings, s: System, t: int, from: int, to: int)
    requires o.limit > 0 && s.keys.blockedUntil.None?
    requires s.keys.counter.Some? ==> s.keys.counter.value.expiresAt <= t
    ensures Call(o, s, t).keys == Keys(Some(Counter(1, t + o.ttl)), None)
    ensures Within(Call(o, s, t).log, from, to) == Within(s.log, from, to) + if from <= t < to then 1 else 0
  {
    WithinStep(s.log, Pass(t, t + o.ttl, 1), from, to);
  }

  /** One call at 0, and the rest of its window's limit in the window's last millisecond. */
  function LateTimes(o: Settings): seq<int>
    requires o.limit > 0
  {
    [0] + Burst(o.ttl - 1, o.limit - 1)
  }

  /** Then a full window right after it. */
  function TightTimes(o: Settings): seq<int>
    requires o.limit > 0
  {
    (LateTimes(o) + [o.ttl]) + Burst(o.ttl, o.limit - 1)
  }

  lemma TightTimesAscend(o: Settings)
    requires o.limit > 0
    ensures Ascending(TightTimes(o), 0)
  {
  }

  lemma FinalLate(o: Settings)
    requires o.limit > 0
    ensures Final(o, Start(0), LateTimes(o)) == CallBurst(o, Call(o, Start(0), 0), o.ttl - 1, o.limit - 1)
  {
    FinalStep(o, Start(0), [], 0);
    assert [] + [0] == [0];
    FinalBurst(o, Start(0), [0], o.ttl - 1, o.limit - 1);
  }

  lemma LateCallsPass(o: Settings, s: System, from: int, to: int)
    requires o.limit > 0 && o.ttl > 1 && from == o.ttl - 1 && to == from + o.ttl && s == Call(o, Start(0), 0)
    ensures var late := CallBurst(o, s, o.ttl - 1, o.limit - 1);
            late.keys == Keys(Some(Counter(o.limit, o.ttl)), None) && Within(late.log, from, to) == o.limit - 1
  {
    CallOpensWindow(o, Start(0), 0, from, to);
    BurstPasses(o, s, o.ttl - 1, o.limit - 1, Counter(1, o.ttl), from, to);
  }

  lemma LateTimesPass(o: Settings, from: int, to: int)
    requires o.limit > 0 && o.ttl > 1 && from == o.ttl - 1 && to == from + o.ttl
    ensures var s := Final(o, Start(0), LateTimes(o));
            s.keys == Keys(Some(Counter(o.limit, o.ttl)), None) && Within(s.log, from, to) == o.limit - 1
  {
    FinalLate(o);
    LateCallsPass(o, Call(o, Start(0), 0), from, to);
  }

  lemma FullWindowPasses(o: Settings, s: System, from: int, to: int)
    requires o.limit > 0 && s.keys == Keys(Some(Counter(o.limit, o.ttl)), None) && from <= o.ttl < to
    ensures Within(CallBurst(o, Call(o, s, o.ttl), o.ttl, o.limit - 1).log, from, to)
            == Within(s.log, from, to) + o.limit
  {
    CallOpensWindow(o, s, o.ttl, from, to);
    BurstPasses(o, Call(o, s, o.ttl), o.ttl, o.limit - 1, Counter(1, o.ttl + o.ttl), from, to);
  }

  lemma FinalTight(o: Settings)
    requires o.limit > 0
    ensures Final(o, Start(0), TightTimes(o))
            == CallBurst(o, Call(o, Final(o, Start(0), LateTimes(o)), o.ttl), o.ttl, o.limit - 1)
  {
    var late := LateTimes(o);
    FinalStep(o, Start(0), late, o.ttl);
    FinalBurst(o, Start(0), late + [o.ttl], o.ttl, o.limit - 1);
  }

  lemma TightTimesPass(o: Settings, s: System, from: int, to: int)
    requires o.limit > 0 && o.ttl > 1 && from == o.ttl - 1 && to == from + o.ttl
    requires s == Final(o, Start(0), TightTimes(o))
    ensures Within(s.log, from, to) == 2 * o.limit - 1
  {
    FinalTight(o);
    LateTimesPass(o, from, to);
    FullWindowPasses(o, Final(o, Start(0), LateTimes(o)), from, to);
  }

  /** The bound is reached for every limit, as soon as the window is longer than a millisecond. */
  lemma BoundIsReached(o: Settings)
    requires o.limit > 0 && o.ttl > 1
    ensures Ascending(TightTimes(o), 0)
    ensures Within(Final(o, Start(0), TightTimes(o)).log, o.ttl - 1, o.ttl - 1 + o.ttl) == 2 * o.limit - 1
  {
    TightTimesAscend(o);
    TightTimesPass(o, Final(o, Start(0), TightTimes(o)), o.ttl - 1, o.ttl - 1 + o.ttl);
  }

  // ---- Blocks ------------------------------------------------------------------------------------

  ghost function ReplyAt(o: Settings, start: int, times: seq<int>, i: nat): Reply
    requires i < |times|
  {
    Script(o, Final(o, Start(start), times[..i]).keys, times[i]).1
  }

  /** A call that ran into the limit itself, not into a block already set. */
  ghost predicate Exceeds(o: Settings, start: int, times: seq<int>, i: nat)
    requires i < |times|
  {
    ReplyAt(o, start, times, i).blocked && !Blocked(Final(o, Start(start), times[..i]).keys, times[i])
  }

  lemma {:induction false} BlockStays(o: Settings, start: int, times: seq<int>, i: nat, j: nat)
    requires Ascending(times, start) && i < j <= |times| && Exceeds(o, start, times, i)
    requires forall k :: i < k < j ==> times[k] < times[i] + o.block
    ensures Final(o, Start(start), times[..j]).keys.blockedUntil == Some(times[i] + o.block)
    decreases j
  {
    assert times[..j][..j - 1] == times[..j - 1];
    if j > i + 1 { BlockStays(o, start, times, i, j - 1); }
  }

  /** After a call exceeds the limit, none passes until the block duration has gone by. */
  lemma NonePassesWhileBlocked(o: Settings, start: int, times: seq<int>, i: nat, j: nat)
    requires Ascending(times, start) && i < j < |times| && Exceeds(o, start, times, i)
    requires times[j] < times[i] + o.block
    ensures ReplyAt(o, start, times, j).blocked
    ensures ReplyAt(o, start, times, j).blockTtl == times[i] + o.block - times[j]
  {
    BlockStays(o, start, times, i, j);
  }

  /** A call exceeds the limit only after `limit` calls passed in a window that is still open. */
  lemma {:induction false} LastPassesShareWindow(o: Settings, log: seq<Pass>, k: nat)
    requires WellLogged(o, log) && log != [] && k < log[|log| - 1].rank
    ensures k < |log|
    ensures var p, q := log[|log| - 1 - k], log[|log| - 1]; p.window == q.window && p.rank == q.rank - k
    decreases k
  {
    if k > 0 {
      LastPassesShareWindow(o, log, k - 1);
      assert Ranked(o, log[0]);
      assert k < |log| ==> Follows(o, log[|log| - 1 - k], log[|log| - k]);
    }
  }

  lemma ExceedsOnlyPastLimit(o: Settings, start: int, times: seq<int>, i: nat, k: nat)
    requires Ascending(times, start) && i < |times| && Exceeds(o, start, times, i) && k < o.limit
    ensures var log := Final(o, Start(start), times[..i]).log;
            k < |log| && times[i] - o.ttl <= log[|log| - 1 - k].at <= times[i] < log[|log| - 1 - k].window
  {
    RunKeepsInv(o, start, times[..i]);
    var s := Final(o, Start(start), times[..i]);
    LastPassesShareWindow(o, s.log, k);
    PassesAscend(o, s.log, |s.log| - 1 - k, |s.log| - 1);
    assert Ranked(o, s.log[|s.log| - 1 - k]);
  }

  // ---- The replies, told from the times of the calls alone --------------------------------------------

  /** Call i found no block: none that exceeded the limit came less than the block duration earlier. */
  ghost predicate Counted(o: Settings, times: seq<int>, i: nat)
    requires i < |times|
    decreases i, 1
  {
    forall e :: 0 <= e < i && Exceeded(o, times, e) ==> times[e] + o.block <= times[i]
  }

  /** It opens a window: it is counted, and no window opened less than the window length earlier. */
  ghost predicate Opened(o: Settings, times: seq<int>, i: nat)
    requires i < |times|
    decreases i, 2
  {
    Counted(o, times, i) && forall w :: 0 <= w < i && Opened(o, times, w) ==> times[w] + o.ttl <= times[i]
  }

  /** How many calls are counted from w up to i. */
  ghost function CountedFrom(o: Settings, times: seq<int>, w: nat, i: nat): nat
    requires i < |times|
    decreases i, 2
  {
    if i < w then 0
    else (if i == 0 then 0 else CountedFrom(o, times, w, i - 1)) + if Counted(o, times, i) then 1 else 0
  }

  /** The window opened at w is the one open at call i. */
  ghost predicate OpenAt(o: Settings, times: seq<int>, w: nat, i: nat)
    requires i < |times|
    decreases i, 3
  {
    w <= i && Opened(o, times, w) && times[i] < times[w] + o.ttl
  }

  /** It is counted past the limit of its window. */
  ghost predicate Exceeded(o: Settings, times: seq<int>, i: nat)
    requires i < |times|
    decreases i, 4
  {
    Counted(o, times, i) && exists w :: OpenAt(o, times, w, i) && CountedFrom(o, times, w, i) > o.limit
  }

  ghost predicate InTimeOrder(times: seq<int>) { forall i, j :: 0 <= i < j < |times| ==> times[i] <= times[j] }

  /** The block the keys hold before call i is that of the call that exceeded the limit last. */
  ghost predicate BlockTracks(o: Settings, times: seq<int>, i: nat, k: Keys)
    requires i <= |times|
  {
    && (k.blockedUntil.Some? ==>
          exists e :: 0 <= e < i && Exceeded(o, times, e) && k.blockedUntil.value == times[e] + o.block)
    && forall e :: 0 <= e < i && Exceeded(o, times, e) ==>
         k.blockedUntil.Some? && times[e] + o.block <= k.blockedUntil.value
  }

  /** The counter is that of the window opened last, at w. */
  ghost predicate CounterIs(o: Settings, times: seq<int>, i: nat, c: Counter, w: nat)
    requires i <= |times|
  {
    w < i && Opened(o, times, w) && c.expiresAt == times[w] + o.ttl && c.hits == CountedFrom(o, times, w, i - 1)
  }

  ghost predicate CounterTracks(o: Settings, times: seq<int>, i: nat, k: Keys)
    requires i <= |times|
  {
    && (k.counter.Some? ==> exists w :: CounterIs(o, times, i, k.counter.value, w))
    && forall w :: 0 <= w < i && Opened(o, times, w) ==>
         k.counter.Some? && times[w] + o.ttl <= k.counter.value.expiresAt
  }

  lemma OneWindowIsOpen(o: Settings, times: seq<int>, v: nat, w: nat, i: nat)
    requires i < |times| && InTimeOrder(times) && OpenAt(o, times, v, i) && OpenAt(o, times, w, i)
    ensures v == w
  {
    assert v < i ==> times[v] <= times[i];
    assert w < i ==> times[w] <= times[i];
  }

  lemma BlockedAsTold(o: Settings, times: seq<int>, i: nat, k: Keys)
    requires i < |times| && BlockTracks(o, times, i, k)
    ensures Blocked(k, times[i]) <==> !Counted(o, times, i)
  {
  }

  /** Before call i, the counter's window is the one that is open then, unless it is over. */
  lemma CountingAsTold(o: Settings, times: seq<int>, i: nat, k: Keys) returns (w: nat)
    requires i < |times| && CounterTracks(o, times, i, k) && InTimeOrder(times)
    ensures Counting(k, times[i]) ==> OpenAt(o, times, w, i) && CounterIs(o, times, i, k.counter.value, w)
    ensures !Counting(k, times[i]) ==> forall v :: 0 <= v < i ==> !OpenAt(o, times, v, i)
    ensures Opened(o, times, i) <==> Counted(o, times, i) && !Counting(k, times[i])
  {
    if Counting(k, times[i]) {
      w :| CounterIs(o, times, i, k.counter.value, w);
    } else {
      w := 0;
    }
  }

  /** What the script counts at call i is what is counted from the opening of its window. */
  lemma CountAsTold(o: Settings, times: seq<int>, i: nat, k: Keys) returns (w: nat)
    requires i < |times| && CounterTracks(o, times, i, k) && InTimeOrder(times) && Counted(o, times, i)
    ensures OpenAt(o, times, w, i)
    ensures CounterIs(o, times, i + 1, Incremented(k, times[i], o.ttl), w)
    ensures Exceeded(o, times, i) <==> Incremented(k, times[i], o.ttl).hits > o.limit
  {
    w := CountingAsTold(o, times, i, k);
    if !Counting(k, times[i]) { w := i; }
    forall v: nat | OpenAt(o, times, v, i) ensures v == w { OneWindowIsOpen(o, times, v, w, i); }
  }

  lemma CounterTracksOn(o: Settings, times: seq<int>, i: nat, k: Keys)
    requires i < |times| && CounterTracks(o, times, i, k) && BlockTracks(o, times, i, k) && InTimeOrder(times)
    ensures CounterTracks(o, times, i + 1, Script(o, k, times[i]).0)
  {
    var k' := Script(o, k, times[i]).0;
    BlockedAsTold(o, times, i, k);
    if Counted(o, times, i) {
      var w := CountAsTold(o, times, i, k);
      var seen := CountingAsTold(o, times, i, k);
      assert k'.counter == Some(Incremented(k, times[i], o.ttl));
      forall v | 0 <= v < i + 1 && Opened(o, times, v) ensures times[v] + o.ttl <= k'.counter.value.expiresAt {
        assert v < i ==> times[v] <= times[i];
      }
    } else if k.counter.Some? {
      var w :| CounterIs(o, times, i, k.counter.value, w);
      assert CounterIs(o, times, i + 1, k.counter.value, w);
    }
  }

  lemma BlockTracksOn(o: Settings, times: seq<int>, i: nat, k: Keys)
    requires i < |times| && CounterTracks(o, times, i, k) && BlockTracks(o, times, i, k) && InTimeOrder(times)
    ensures BlockTracks(o, times, i + 1, Script(o, k, times[i]).0)
  {
    BlockedAsTold(o, times, i, k);
    if Counted(o, times, i) { var w := CountAsTold(o, times, i, k); }
    assert forall e :: 0 <= e < i ==> times[e] <= times[i];
  }

  lemma {:induction false} KeysTrackHistory(o: Settings, start: int, times: seq<int>, i: nat)
    requires InTimeOrder(times) && i <= |times|
    ensures CounterTracks(o, times, i, Final(o, Start(start), times[..i]).keys)
    ensures BlockTracks(o, times, i, Final(o, Start(start), times[..i]).keys)
    decreases i
  {
    if i > 0 {
      KeysTrackHistory(o, start, times, i - 1);
      assert times[..i][..i - 1] == times[..i - 1] && times[..i][i - 1] == times[i - 1];
      var k := Final(o, Start(start), times[..i - 1]).keys;
      CounterTracksOn(o, times, i - 1, k);
      BlockTracksOn(o, times, i - 1, k);
    }
  }

  /**
   A call is refused while a block lasts or when it is counted past the limit of its window; it is told
   how many were counted in the window open then (w, if any), when that ends, and when the block does.
   */
  ghost predicate AsTold(o: Settings, times: seq<int>, i: nat, w: nat, reply: Reply)
    requires i < |times|
  {
    && (reply.blocked <==> !Counted(o, times, i) || Exceeded(o, times, i))
    && (OpenAt(o, times, w, i) ==>
          reply.hits == CountedFrom(o, times, w, i) && reply.hitsTtl == times[w] + o.ttl - times[i])
    && ((forall v :: 0 <= v <= i ==> !OpenAt(o, times, v, i)) ==> reply.hits == 0 && reply.hitsTtl == -2)
    && (Exceeded(o, times, i) ==> reply.blockTtl == o.block)
    && (!reply.blocked ==> reply.blockTtl == 0)
    && (!Counted(o, times, i) ==>
          exists e :: 0 <= e < i && Exceeded(o, times, e) && reply.blockTtl == times[e] + o.block - times[i] > 0)
  }

  lemma ScriptAsTold(o: Settings, times: seq<int>, i: nat, w: nat, k: Keys)
    requires i < |times| && InTimeOrder(times) && CounterTracks(o, times, i, k) && BlockTracks(o, times, i, k)
    ensures AsTold(o, times, i, w, Script(o, k, times[i]).1)
  {
    BlockedAsTold(o, times, i, k);
    var seen := CountingAsTold(o, times, i, k);
    if Counted(o, times, i) {
      var v := CountAsTold(o, times, i, k);
      if OpenAt(o, times, w, i) { OneWindowIsOpen(o, times, v, w, i); }
    } else if OpenAt(o, times, w, i) {
      assert w < i;
      OneWindowIsOpen(o, times, seen, w, i);
    }
  }

  /** Each reply of a run is what the times of its calls say, without a look at the keys. */
  lemma RepliesFollowHistory(o: Settings, start: int, times: seq<int>, i: nat, w: nat)
    requires Ascending(times, start) && i < |times|
    ensures AsTold(o, times, i, w, ReplyAt(o, start, times, i))
  {
    KeysTrackHistory(o, start, times, i);
    ScriptAsTold(o, times, i, w, Final(o, Start(start), times[..i]).keys);
  }
}
