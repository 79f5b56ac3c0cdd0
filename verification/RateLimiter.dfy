/**
 Pre-dispatch limits: a sliding window of sixty seconds over an in-place deque.

 `Limiter.CheckLimits` pops and appends the deque under the lock. Its contract gives the
 verdict in terms of the whole admission history; the lemmas then bound every window of
 every run, also when the limits are changed between requests.
 */
module RateLimiter {
  import opened Text
  import opened Wrappers

  const WINDOW: real := 60.0

  datatype Entry = Entry(time: real, ip: string)

  /** An admission together with the limits that were in force when it was made. */
  datatype Admission = Admission(entry: Entry, total: int, perIp: int)

  /** Settings and usage as read from the environment; None is an unreadable value. */
  datatype Request = Request(forwardedFor: string, combined: bool, daily: Option<real>,
                             perIp: Option<int>, total: Option<int>, usage: Option<real>)

  datatype Verdict = Passed | RateLimited | DailyLimit | Unavailable

  // ---------------------------------------------------------------- the client address

  function BeforeComma(s: string): (r: string)
    ensures ',' !in r && r <= s
    ensures r == s || (|r| < |s| && s[|r|] == ',')
  {
    if s == "" || s[0] == ',' then "" else [s[0]] + BeforeComma(s[1..])
  }

  function ClientIp(forwardedFor: string): (ip: string)
    ensures ip != "" && ',' !in ip
    ensures !IsBlank(ip[0]) && !IsBlank(ip[|ip|-1])
  {
    var first := Strip(BeforeComma(forwardedFor));
    if first == "" then "unknown" else first
  }

  /** The bucket depends on the first hop only, whatever proxies append. */
  lemma {:induction false} ProxiesDoNotChangeTheBucket(hop: string, proxies: string)
    requires ',' !in hop
    ensures ClientIp(hop + "," + proxies) == ClientIp(hop)
  {
    BeforeFirstComma(hop, proxies);
    NoComma(hop);
  }

  lemma {:induction false} NoComma(hop: string)
    requires ',' !in hop
    ensures BeforeComma(hop) == hop
  {
    if hop != "" {
      assert hop[0] in hop;
      NoComma(hop[1..]);
    }
  }

  lemma {:induction false} BeforeFirstComma(hop: string, rest: string)
    requires ',' !in hop
    ensures BeforeComma(hop + "," + rest) == hop
  {
    if hop != "" {
      assert hop[0] in hop;
      assert (hop + "," + rest)[1..] == hop[1..] + "," + rest;
      BeforeFirstComma(hop[1..], rest);
    }
  }

  // ---------------------------------------------------------------- windows over a history

  function InWindow(h: seq<Admission>, lo: real, hi: real): nat {
    if h == [] then 0
    else
      var n := |h| - 1;
      InWindow(h[..n], lo, hi) + (if lo < h[n].entry.time <= hi then 1 else 0)
  }

  function InWindowOf(h: seq<Admission>, ip: string, lo: real, hi: real): nat {
    if h == [] then 0
    else
      var n := |h| - 1;
      InWindowOf(h[..n], ip, lo, hi) + (if lo < h[n].entry.time <= hi && h[n].entry.ip == ip then 1 else 0)
  }

  /** The admissions in a window, and those of one client. */
  function Within(h: seq<Admission>, lo: real, hi: real): set<nat> {
    set i | 0 <= i < |h| && lo < h[i].entry.time <= hi
  }

  function WithinOf(h: seq<Admission>, ip: string, lo: real, hi: real): set<nat> {
    set i | 0 <= i < |h| && lo < h[i].entry.time <= hi && h[i].entry.ip == ip
  }

  lemma WithinSnoc(h: seq<Admission>, a: Admission, ip: string, lo: real, hi: real)
    ensures Within(h + [a], lo, hi) == Within(h, lo, hi) + if lo < a.entry.time <= hi then {|h|} else {}
    ensures WithinOf(h + [a], ip, lo, hi) ==
            WithinOf(h, ip, lo, hi) + if lo < a.entry.time <= hi && a.entry.ip == ip then {|h|} else {}
  {
  }

  lemma InWindowSnoc(h: seq<Admission>, a: Admission, ip: string, lo: real, hi: real)
    ensures InWindow(h + [a], lo, hi) == InWindow(h, lo, hi) + if lo < a.entry.time <= hi then 1 else 0
    ensures InWindowOf(h + [a], ip, lo, hi) ==
            InWindowOf(h, ip, lo, hi) + if lo < a.entry.time <= hi && a.entry.ip == ip then 1 else 0
  {
    assert (h + [a])[..|h|] == h;
  }

  /** The counts of a window are the sizes of the sets of its admissions. */
  lemma {:induction false} WindowCounts(h: seq<Admission>, ip: string, lo: real, hi: real)
    ensures InWindow(h, lo, hi) == |Within(h, lo, hi)|
    ensures InWindowOf(h, ip, lo, hi) == |WithinOf(h, ip, lo, hi)|
    decreases |h|
  {
    if h != [] {
      var before, last := Unsnoc(h);
      WindowCounts(before, ip, lo, hi);
      WithinSnoc(before, last, ip, lo, hi);
      InWindowSnoc(before, last, ip, lo, hi);
    }
  }

  /** The history filtered to the window that ends now. */
  function Live(h: seq<Admission>, now: real): seq<Entry> {
    if h == [] then []
    else
      var n := |h| - 1;
      Live(h[..n], now) + (if h[n].entry.time > now - WINDOW then [h[n].entry] else [])
  }

  function CountIp(entries: seq<Entry>, ip: string): nat {
    if entries == [] then 0
    else
      var n := |entries| - 1;
      CountIp(entries[..n], ip) + (if entries[n].ip == ip then 1 else 0)
  }

  predicate Ordered(h: seq<Admission>) {
    forall i, j :: 0 <= i < j < |h| ==> h[i].entry.time <= h[j].entry.time
  }

  /** Every admission found its own window below the limits then in force. */
  predicate Admissible(h: seq<Admission>) {
    forall i {:trigger Fits(h[..i], h[i])} :: 0 <= i < |h| ==> Fits(h[..i], h[i])
  }

  predicate Fits(h: seq<Admission>, a: Admission) {
    var t := a.entry.time;
    && InWindow(h, t - WINDOW, t) < a.total
    && InWindowOf(h, a.entry.ip, t - WINDOW, t) < a.perIp
  }

  /** The deque is a suffix of the history and has lost only entries that have expired. */
  predicate Tail(recent: seq<Entry>, h: seq<Admission>, clock: real) {
    && |recent| <= |h|
    && (forall i :: 0 <= i < |recent| ==> recent[i] == h[|h| - |recent| + i].entry)
    && (forall i :: 0 <= i < |h| - |recent| ==> h[i].entry.time <= clock - WINDOW)
    && (forall i :: 0 <= i < |h| ==> h[i].entry.time <= clock)
  }

  lemma CountIpSnoc(entries: seq<Entry>, e: Entry, ip: string)
    ensures CountIp(entries + [e], ip) == CountIp(entries, ip) + (if e.ip == ip then 1 else 0)
  {
    assert (entries + [e])[..|entries|] == entries;
  }

  lemma {:induction false} LiveCounts(h: seq<Admission>, ip: string, now: real)
    requires forall i :: 0 <= i < |h| ==> h[i].entry.time <= now
    ensures |Live(h, now)| == InWindow(h, now - WINDOW, now)
    ensures CountIp(Live(h, now), ip) == InWindowOf(h, ip, now - WINDOW, now)
  {
    if h != [] {
      var n := |h| - 1;
      var g, e := h[..n], h[n].entry;
      LiveCounts(g, ip, now);
      CountIpSnoc(Live(g, now), e, ip);
      assert Live(g, now) + [] == Live(g, now);
    }
  }

  /** When a prefix has expired and the rest has not, the live part is the rest. */
  lemma {:induction false} LiveFrom(h: seq<Admission>, k: nat, now: real)
    requires k <= |h|
    requires forall i :: 0 <= i < k ==> h[i].entry.time <= now - WINDOW
    requires forall i :: k <= i < |h| ==> h[i].entry.time > now - WINDOW
    ensures |Live(h, now)| == |h| - k
    ensures forall i :: 0 <= i < |h| - k ==> Live(h, now)[i] == h[k + i].entry
  {
    if h != [] {
      var n := |h| - 1;
      LiveFrom(h[..n], if k == |h| then n else k, now);
    }
  }

  /** A fully evicted deque is exactly the live part of the history. */
  lemma EvictedIsLive(recent: seq<Entry>, h: seq<Admission>, now: real)
    requires Ordered(h) && Tail(recent, h, now)
    requires recent != [] ==> recent[0].time > now - WINDOW
    ensures recent == Live(h, now)
  {
    var k := |h| - |recent|;
    if k < |h| {
      assert recent[0] == h[k].entry;
    }
    LiveFrom(h, k, now);
  }

  lemma TailPop(recent: seq<Entry>, h: seq<Admission>, now: real)
    requires Tail(recent, h, now) && recent != [] && recent[0].time <= now - WINDOW
    ensures Tail(recent[1..], h, now)
  {
    var k := |h| - |recent|;
    assert recent[0] == h[k + 0].entry;
    forall i | 0 <= i < |recent| - 1 ensures recent[1..][i] == h[k + 1 + i].entry {
      assert recent[i + 1] == h[k + (i + 1)].entry;
    }
  }

  lemma LivePush(h: seq<Admission>, a: Admission)
    ensures Live(h + [a], a.entry.time) == Live(h, a.entry.time) + [a.entry]
  {
    assert (h + [a])[..|h|] == h;
  }

  lemma TailPush(recent: seq<Entry>, h: seq<Admission>, a: Admission)
    requires Tail(recent, h, a.entry.time)
    ensures Tail(recent + [a.entry], h + [a], a.entry.time)
  {
  }

  // ---------------------------------------------------------------- the limiter

  predicate ValidSettings(r: Request) {
    && r.daily.Some? && r.daily.value > 0.0
    && r.perIp.Some? && r.perIp.value > 0
    && r.total.Some? && r.total.value > 0
  }

  function DailyCap(r: Request): real
    requires r.daily.Some?
  {
    if r.combined && r.daily.value > 7.0 then 7.0 else r.daily.value
  }

  /** What the last sixty seconds of the history say about a request. */
  predicate Crowded(h: seq<Admission>, r: Request, now: real)
    requires ValidSettings(r)
  {
    || InWindow(h, now - WINDOW, now) >= r.total.value
    || InWindowOf(h, ClientIp(r.forwardedFor), now - WINDOW, now) >= r.perIp.value
  }

  function Decide(h: seq<Admission>, r: Request, now: real): Verdict {
    if !ValidSettings(r) then Unavailable
    else if Crowded(h, r, now) then RateLimited
    else if r.usage.None? || r.usage.value < 0.0 then Unavailable
    else if r.usage.value >= DailyCap(r) then DailyLimit
    else Passed
  }

  /** A request takes a slot unless it is rate limited or its settings are unreadable; the
      daily check comes after the slot is taken. */
  function After(h: seq<Admission>, r: Request, now: real): seq<Admission> {
    if ValidSettings(r) && !Crowded(h, r, now)
    then h + [Admission(Entry(now, ClientIp(r.forwardedFor)), r.total.value, r.perIp.value)]
    else h
  }

  /** A request with valid settings is rate limited exactly when the last sixty seconds hold
      `total` admissions, or `perIp` of its client. Any other with valid settings takes a slot,
      and passes exactly when usage is readable and below the daily cap, which is at most 7 with
      the combined budget. */
  predicate Answers(h: seq<Admission>, r: Request, now: real, v: Verdict, after: seq<Admission>) {
    var ip := ClientIp(r.forwardedFor);
    if r.daily.None? || r.perIp.None? || r.total.None?
       || r.daily.value <= 0.0 || r.perIp.value <= 0 || r.total.value <= 0 then v == Unavailable && after == h
    else if InWindow(h, now - 60.0, now) >= r.total.value || InWindowOf(h, ip, now - 60.0, now) >= r.perIp.value
      then v == RateLimited && after == h
    else
      && after == h + [Admission(Entry(now, ip), r.total.value, r.perIp.value)]
      && (v == Passed <==> r.usage.Some? && 0.0 <= r.usage.value < r.daily.value && (r.combined ==> r.usage.value < 7.0))
      && (v == DailyLimit <==> r.usage.Some? && (r.usage.value >= r.daily.value || (r.combined && r.usage.value >= 7.0)))
      && (v == Unavailable <==> r.usage.None? || r.usage.value < 0.0)
  }

  lemma DecideIff(h: seq<Admission>, r: Request, now: real)
    ensures Answers(h, r, now, Decide(h, r, now), After(h, r, now))
  {
  }

  class Limiter {
    var recent: seq<Entry>
    ghost var history: seq<Admission>
    ghost var clock: real

    ghost predicate Valid()
      reads this
    {
      Ordered(history) && Admissible(history) && Tail(recent, history, clock)
    }

    constructor (ghost clock: real)
      ensures Valid() && history == [] && recent == [] && this.clock == clock
    {
      recent, history, this.clock := [], [], clock;
    }

    /** The eviction loop. */
    method Evict(now: real)
      requires Ordered(history) && Tail(recent, history, clock) && now >= clock
      modifies `recent
      ensures Tail(recent, history, now) && recent == Live(history, now)
    {
      while recent != [] && recent[0].time <= now - WINDOW
        invariant Tail(recent, history, now)
        decreases |recent|
      {
        TailPop(recent, history, now);
        recent := recent[1..];
      }
      EvictedIsLive(recent, history, now);
    }

    /** The per-client sum over the deque. */
    method Mine(ip: string) returns (mine: nat)
      ensures mine == CountIp(recent, ip)
    {
      mine := 0;
      for i := 0 to |recent|
        invariant mine == CountIp(recent[..i], ip)
      {
        assert recent[..i+1][..i] == recent[..i];
        if recent[i].ip == ip {
          mine := mine + 1;
        }
      }
      assert recent[..|recent|] == recent;
    }

    /** `now` is the monotonic clock, read inside the lock. */
    method CheckLimits(r: Request, now: real) returns (v: Verdict)
      requires Valid() && now >= clock
      modifies this
      ensures Valid()
      ensures Answers(old(history), r, now, v, history)
      ensures v == Decide(old(history), r, now)
      ensures history == After(old(history), r, now)
      ensures ValidSettings(r) ==> clock == now && recent == Live(history, now)
      ensures !ValidSettings(r) ==> clock == old(clock) && recent == old(recent)
    {
      DecideIff(history, r, now);
      if r.daily.None? || r.daily.value <= 0.0
         || r.perIp.None? || r.perIp.value <= 0 || r.total.None? || r.total.value <= 0 {
        return Unavailable;
      }
      var ip := ClientIp(r.forwardedFor);
      Evict(now);
      clock := now;
      var mine := Mine(ip);
      LiveCounts(history, ip, now);
      if |recent| >= r.total.value || mine >= r.perIp.value {
        return RateLimited;
      }
      ghost var added := Admission(Entry(now, ip), r.total.value, r.perIp.value);
      Admitted(recent, history, r, now);
      recent := recent + [Entry(now, ip)];
      history := history + [added];
      if r.usage.None? || r.usage.value < 0.0 {
        return Unavailable;
      }
      v := if r.usage.value >= DailyCap(r) then DailyLimit else Passed;
    }
  }

  /** What the deque and the history are after an admission. */
  lemma Admitted(recent: seq<Entry>, h: seq<Admission>, r: Request, now: real)
    requires ValidSettings(r) && !Crowded(h, r, now) && Ordered(h) && Admissible(h)
    requires Tail(recent, h, now) && recent == Live(h, now)
    ensures var added := Admission(Entry(now, ClientIp(r.forwardedFor)), r.total.value, r.perIp.value);
            && After(h, r, now) == h + [added] && Ordered(h + [added]) && Admissible(h + [added])
            && Tail(recent + [added.entry], h + [added], now)
            && recent + [added.entry] == Live(h + [added], now)
  {
    var added := Admission(Entry(now, ClientIp(r.forwardedFor)), r.total.value, r.perIp.value);
    AfterKeeps(h, r, now);
    TailPush(recent, h, added);
    LivePush(h, added);
  }

  lemma AppendKeeps(h: seq<Admission>, a: Admission)
    requires Ordered(h) && Admissible(h) && Fits(h, a)
    requires forall i :: 0 <= i < |h| ==> h[i].entry.time <= a.entry.time
    ensures Ordered(h + [a]) && Admissible(h + [a])
  {
    var g := h + [a];
    forall i | 0 <= i < |g| ensures Fits(g[..i], g[i]) {
      if i < |h| {
        assert g[..i] == h[..i] && Fits(h[..i], h[i]);
      } else {
        assert g[..i] == h;
      }
    }
  }

  predicate Upto(h: seq<Admission>, now: real) {
    forall i :: 0 <= i < |h| ==> h[i].entry.time <= now
  }

  lemma AfterKeeps(h: seq<Admission>, r: Request, now: real)
    requires Ordered(h) && Admissible(h) && Upto(h, now)
    ensures Ordered(After(h, r, now)) && Admissible(After(h, r, now)) && Upto(After(h, r, now), now)
  {
    if ValidSettings(r) && !Crowded(h, r, now) {
      AppendKeeps(h, Admission(Entry(now, ClientIp(r.forwardedFor)), r.total.value, r.perIp.value));
    }
  }

  // ---------------------------------------------------------------- whole runs

  datatype Call = Call(request: Request, now: real)

  function History(calls: seq<Call>): seq<Admission> {
    if calls == [] then []
    else
      var n := |calls| - 1;
      After(History(calls[..n]), calls[n].request, calls[n].now)
  }

  predicate Monotonic(calls: seq<Call>) {
    forall i, j :: 0 <= i < j < |calls| ==> calls[i].now <= calls[j].now
  }

  lemma HistorySnoc(calls: seq<Call>, i: nat)
    requires i < |calls|
    ensures History(calls[..i+1]) == After(History(calls[..i]), calls[i].request, calls[i].now)
  {
    assert calls[..i+1][..i] == calls[..i];
  }

  /** A sequence of calls on one limiter ends in the history of the run. */
  method Replay(calls: seq<Call>) returns (limiter: Limiter)
    requires Monotonic(calls)
    ensures limiter.Valid() && limiter.history == History(calls)
  {
    limiter := new Limiter(if calls == [] then 0.0 else calls[0].now);
    for i := 0 to |calls|
      invariant fresh(limiter) && limiter.Valid() && limiter.history == History(calls[..i])
      invariant i < |calls| ==> limiter.clock <= calls[i].now
    {
      HistorySnoc(calls, i);
      var v := limiter.CheckLimits(calls[i].request, calls[i].now);
    }
    assert calls[..|calls|] == calls;
  }

  lemma {:induction false} HistoryInv(calls: seq<Call>)
    requires Monotonic(calls)
    ensures Ordered(History(calls)) && Admissible(History(calls))
    ensures calls != [] ==> Upto(History(calls), calls[|calls|-1].now)
  {
    if calls != [] {
      var n := |calls| - 1;
      HistoryInv(calls[..n]);
      AfterKeeps(History(calls[..n]), calls[n].request, calls[n].now);
    }
  }

  lemma {:induction false} Narrow(h: seq<Admission>, ip: string, lo: real, hi: real, lo': real, hi': real)
    requires lo' <= lo
    requires forall i :: 0 <= i < |h| ==> h[i].entry.time <= hi'
    ensures InWindow(h, lo, hi) <= InWindow(h, lo', hi')
    ensures InWindowOf(h, ip, lo, hi) <= InWindowOf(h, ip, lo', hi')
  {
    if h != [] {
      Narrow(h[..|h|-1], ip, lo, hi, lo', hi');
    }
  }

  /** The window (t-60, t] holds no more admissions than the total in force at its last one. */
  lemma {:induction false} WindowCap(h: seq<Admission>, t: real, last: nat)
    requires Ordered(h) && Admissible(h) && last < |h|
    requires t - WINDOW < h[last].entry.time <= t
    requires forall i :: last < i < |h| ==> h[i].entry.time > t
    ensures InWindow(h, t - WINDOW, t) <= h[last].total
    decreases |h|
  {
    var n := |h| - 1;
    if last < n {
      assert Admissible(h[..n]) by { PrefixAdmissible(h, n); }
      WindowCap(h[..n], t, last);
    } else {
      var u := h[n].entry.time;
      assert Fits(h[..n], h[n]);
      Narrow(h[..n], "", t - WINDOW, t, u - WINDOW, u);
    }
  }

  /** The same for one client: its count is within the per-client limit at its last admission. */
  lemma {:induction false} ClientCap(h: seq<Admission>, t: real, last: nat)
    requires Ordered(h) && Admissible(h) && last < |h|
    requires t - WINDOW < h[last].entry.time <= t
    requires forall i :: last < i < |h| ==> h[i].entry.time > t || h[i].entry.ip != h[last].entry.ip
    ensures InWindowOf(h, h[last].entry.ip, t - WINDOW, t) <= h[last].perIp
    decreases |h|
  {
    var n := |h| - 1;
    if last < n {
      assert Admissible(h[..n]) by { PrefixAdmissible(h, n); }
      ClientCap(h[..n], t, last);
    } else {
      var u := h[n].entry.time;
      assert Fits(h[..n], h[n]);
      Narrow(h[..n], h[n].entry.ip, t - WINDOW, t, u - WINDOW, u);
    }
  }

  lemma PrefixAdmissible(h: seq<Admission>, n: nat)
    requires Admissible(h) && n <= |h|
    ensures Admissible(h[..n])
  {
    forall i | 0 <= i < n ensures Fits(h[..n][..i], h[..n][i]) {
      assert h[..n][..i] == h[..i] && Fits(h[..i], h[i]);
    }
  }

  /** With fixed limits every window of every run, at any real time, respects both. */
  lemma {:induction false} FixedLimits(calls: seq<Call>, t: real, ip: string, total: int, perIp: int)
    requires Monotonic(calls) && total > 0 && perIp > 0
    requires forall i :: 0 <= i < |calls| ==>
               calls[i].request.total == Some(total) && calls[i].request.perIp == Some(perIp)
    ensures InWindow(History(calls), t - WINDOW, t) <= total
    ensures InWindowOf(History(calls), ip, t - WINDOW, t) <= perIp
  {
    HistoryInv(calls);
    FixedInHistory(calls, total, perIp);
    FixedWindow(History(calls), t, ip, total, perIp);
  }

  lemma {:induction false} FixedInHistory(calls: seq<Call>, total: int, perIp: int)
    requires forall i :: 0 <= i < |calls| ==>
               calls[i].request.total == Some(total) && calls[i].request.perIp == Some(perIp)
    ensures forall i :: 0 <= i < |History(calls)| ==>
              History(calls)[i].total == total && History(calls)[i].perIp == perIp
  {
    if calls != [] {
      FixedInHistory(calls[..|calls|-1], total, perIp);
    }
  }

  lemma {:induction false} FixedWindow(h: seq<Admission>, t: real, ip: string, total: int, perIp: int)
    requires Ordered(h) && Admissible(h) && total > 0 && perIp > 0
    requires forall i :: 0 <= i < |h| ==> h[i].total == total && h[i].perIp == perIp
    ensures InWindow(h, t - WINDOW, t) <= total
    ensures InWindowOf(h, ip, t - WINDOW, t) <= perIp
  {
    if h != [] {
      var n := |h| - 1;
      PrefixAdmissible(h, n);
      FixedWindow(h[..n], t, ip, total, perIp);
      if t - WINDOW < h[n].entry.time <= t {
        WindowCap(h, t, n);
        if h[n].entry.ip == ip {
          ClientCap(h, t, n);
        }
      }
    }
  }

}
