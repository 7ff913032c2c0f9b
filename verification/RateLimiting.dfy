/** The per-IP sliding-window rate limiter. */
module RateLimiting {

  /** The timestamps left after dropping the old ones at the front. */
  function Pruned(ts: seq<real>, cutoff: real): seq<real> {
    if ts != [] && ts[0] <= cutoff then Pruned(ts[1..], cutoff) else ts
  }

  datatype Check = Check(timestamps: seq<real>, accepted: bool)

  /** One request at `now`, as the limiter decides it from the timestamps it still holds. */
  function Decide(ts: seq<real>, limit: int, window: real, now: real): Check {
    var kept := Pruned(ts, now - window);
    if |kept| >= limit then Check(kept, false) else Check(kept + [now], true)
  }

  // ---- The limiter as it runs --------------------------------------------------------------------

  class RateLimitStore {
    var apiRequests: map<string, seq<real>>

    constructor ()
      ensures apiRequests == map[]
    {
      apiRequests := map[];
    }

    function Timestamps(ip: string): seq<real>
      reads this
    {
      if ip in apiRequests then apiRequests[ip] else []
    }

    method CheckApiRate(ip: string, limit: int, window: real, now: real) returns (accepted: bool)
      modifies this
      ensures Check(Timestamps(ip), accepted) == Decide(old(Timestamps(ip)), limit, window, now)
      ensures forall other :: other != ip ==> Timestamps(other) == old(Timestamps(other))
    {
      var timestamps := if ip in apiRequests then apiRequests[ip] else [];
      timestamps := Prune(timestamps, window, now);
      accepted := |timestamps| < limit;
      if accepted {
        timestamps := timestamps + [now];
      }
      apiRequests := apiRequests[ip := timestamps];
    }
  }

  method Prune(ts: seq<real>, window: real, now: real) returns (kept: seq<real>)
    ensures kept == Pruned(ts, now - window)
  {
    var cutoff := now - window;
    kept := ts;
    while kept != [] && kept[0] <= cutoff
      invariant Pruned(kept, cutoff) == Pruned(ts, cutoff)
      decreases |kept|
    {
      kept := kept[1..];
    }
  }

  // ---- The full history --------------------------------------------------------------------------

  predicate Sorted(h: seq<real>) {
    forall i, j :: 0 <= i < j < |h| ==> h[i] <= h[j]
  }

  /** The accepted requests in the half-open window (lo, hi]. */
  function InWindow(h: seq<real>, lo: real, hi: real): seq<real> {
    if h == [] then []
    else (if lo < h[0] <= hi then [h[0]] else []) + InWindow(h[1..], lo, hi)
  }

  /** All requests of one IP: the timestamps held by the limiter and every request accepted so far. */
  datatype Client = Client(held: seq<real>, history: seq<real>)

  function Request(c: Client, limit: int, window: real, now: real): Client {
    var d := Decide(c.held, limit, window, now);
    Client(d.timestamps, if d.accepted then c.history + [now] else c.history)
  }

  function Requests(c: Client, limit: int, window: real, times: seq<real>): Client {
    if times == [] then c
    else var m := |times| - 1; Request(Requests(c, limit, window, times[..m]), limit, window, times[m])
  }

  lemma {:induction false} PrunedTwice(h: seq<real>, c: real, d: real)
    requires c <= d
    ensures Pruned(Pruned(h, c), d) == Pruned(h, d)
  {
    if h != [] && h[0] <= c {
      PrunedTwice(h[1..], c, d);
    }
  }

  lemma {:induction false} PrunedAppend(h: seq<real>, x: real, c: real)
    requires c < x
    ensures Pruned(h + [x], c) == Pruned(h, c) + [x]
  {
    if h != [] && h[0] <= c {
      assert (h + [x])[1..] == h[1..] + [x];
      PrunedAppend(h[1..], x, c);
    }
  }

  /** On an ordered history that ends by `hi`, pruning leaves exactly the window. */
  lemma {:induction false} PrunedIsWindow(h: seq<real>, lo: real, hi: real)
    requires Sorted(h) && forall i :: 0 <= i < |h| ==> h[i] <= hi
    ensures Pruned(h, lo) == InWindow(h, lo, hi)
  {
    if h != [] {
      PrunedIsWindow(h[1..], lo, hi);
      if h[0] > lo {
        WholeWindow(h, lo, hi);
      }
    }
  }

  lemma {:induction false} WholeWindow(h: seq<real>, lo: real, hi: real)
    requires forall i :: 0 <= i < |h| ==> lo < h[i] <= hi
    ensures InWindow(h, lo, hi) == h
  {
    if h != [] {
      WholeWindow(h[1..], lo, hi);
    }
  }

  // ---- Refinement over a run ---------------------------------------------------------------------

  /** The limiter's memory is the part of the history that the last prune left. */
  ghost predicate Remembers(c: Client, window: real, last: real) {
    && Sorted(c.history) && (forall i :: 0 <= i < |c.history| ==> c.history[i] <= last)
    && exists cutoff :: cutoff <= last - window && c.held == Pruned(c.history, cutoff)
  }

  lemma RequestStep(c: Client, limit: int, window: real, last: real, now: real)
    requires Remembers(c, window, last) && last <= now && window > 0.0
    ensures Remembers(Request(c, limit, window, now), window, now)
    ensures Decide(c.held, limit, window, now).accepted <==> |InWindow(c.history, now - window, now)| < limit
    ensures Decide(c.held, limit, window, now).accepted ==>
      |InWindow(c.history + [now], now - window, now)| <= limit
  {
    var cutoff :| cutoff <= last - window && c.held == Pruned(c.history, cutoff);
    var lo := now - window;
    PrunedTwice(c.history, cutoff, lo);
    PrunedIsWindow(c.history, lo, now);
    PrunedAppend(c.history, now, lo);
    PrunedIsWindow(c.history + [now], lo, now);
    var d := Request(c, limit, window, now);
    assert d.held == Pruned(d.history, lo);
  }

  /** In time order, no window that ends at an accepted request holds more than `limit` of them. */
  ghost predicate NeverOverfull(h: seq<real>, limit: int, window: real) {
    forall i :: 0 <= i < |h| ==> |InWindow(h[..i + 1], h[i] - window, h[i])| <= limit
  }

  lemma NewClientRemembers(window: real, now: real)
    ensures Remembers(Client([], []), window, now)
  {
    assert [] == Pruned([], now - window);
  }

  lemma StaysUnderfull(h: seq<real>, limit: int, window: real, now: real)
    requires NeverOverfull(h, limit, window) && |InWindow(h + [now], now - window, now)| <= limit
    ensures NeverOverfull(h + [now], limit, window)
  {
    var g := h + [now];
    forall i | 0 <= i < |g| ensures |InWindow(g[..i + 1], g[i] - window, g[i])| <= limit {
      assert g[..i + 1] == if i < |h| then h[..i + 1] else g;
    }
  }

  lemma StepKeeps(c: Client, limit: int, window: real, last: real, now: real)
    requires Remembers(c, window, last) && last <= now && window > 0.0 && NeverOverfull(c.history, limit, window)
    ensures Remembers(Request(c, limit, window, now), window, now)
    ensures NeverOverfull(Request(c, limit, window, now).history, limit, window)
  {
    RequestStep(c, limit, window, last, now);
    if Decide(c.held, limit, window, now).accepted {
      StaysUnderfull(c.history, limit, window, now);
    }
  }

  lemma {:induction false} RunKeeps(limit: int, window: real, times: seq<real>)
    requires Sorted(times) && window > 0.0 && times != []
    ensures var c := Requests(Client([], []), limit, window, times);
      Remembers(c, window, times[|times| - 1]) && NeverOverfull(c.history, limit, window)
    decreases |times|
  {
    var m := |times| - 1;
    var before := Requests(Client([], []), limit, window, times[..m]);
    if m > 0 {
      RunKeeps(limit, window, times[..m]);
      StepKeeps(before, limit, window, times[m - 1], times[m]);
    } else {
      NewClientRemembers(window, times[m]);
      StepKeeps(before, limit, window, times[m], times[m]);
    }
  }

  /**
   * The limiter refines the full history: over requests in time order, the next one is accepted
   * exactly when fewer than `limit` requests were accepted in the window that ends now.
   */
  lemma AcceptsExactly(limit: int, window: real, times: seq<real>, now: real)
    requires Sorted(times + [now]) && window > 0.0
    ensures var c := Requests(Client([], []), limit, window, times);
      Decide(c.held, limit, window, now).accepted <==> |InWindow(c.history, now - window, now)| < limit
  {
    var c := Requests(Client([], []), limit, window, times);
    if times != [] {
      assert forall i :: 0 <= i < |times| ==> times[i] == (times + [now])[i];
      RunKeeps(limit, window, times);
      assert times[|times| - 1] <= (times + [now])[|times|];
      RequestStep(c, limit, window, times[|times| - 1], now);
    } else {
      NewClientRemembers(window, now);
      RequestStep(c, limit, window, now, now);
    }
  }

  lemma {:induction false} WindowSplit(a: seq<real>, b: seq<real>, lo: real, hi: real)
    ensures InWindow(a + b, lo, hi) == InWindow(a, lo, hi) + InWindow(b, lo, hi)
  {
    if a == [] {
      assert a + b == b;
    } else {
      assert (a + b)[1..] == a[1..] + b;
      WindowSplit(a[1..], b, lo, hi);
    }
  }

  lemma {:induction false} EmptyWindow(h: seq<real>, lo: real, hi: real)
    requires forall i :: 0 <= i < |h| ==> h[i] > hi
    ensures InWindow(h, lo, hi) == []
  {
    if h != [] {
      EmptyWindow(h[1..], lo, hi);
    }
  }

  lemma {:induction false} NarrowerWindow(h: seq<real>, lo: real, lo': real, hi: real, hi': real)
    requires lo' <= lo && forall i :: 0 <= i < |h| ==> h[i] <= hi'
    ensures |InWindow(h, lo, hi)| <= |InWindow(h, lo', hi')|
  {
    if h != [] {
      NarrowerWindow(h[1..], lo, lo', hi, hi');
    }
  }

  /** How many requests of an ordered history lie at or before `t`. */
  function CountUpTo(h: seq<real>, t: real): (n: nat)
    requires Sorted(h)
    ensures n <= |h|
    ensures forall i :: 0 <= i < |h| ==> (i < n <==> h[i] <= t)
  {
    if h == [] || h[0] > t then 0 else 1 + CountUpTo(h[1..], t)
  }

  /** A window that ends at or after the last request of a history holds no more than the one that ends at it. */
  lemma EndAtLast(h: seq<real>, window: real, t: real)
    requires Sorted(h) && h != [] && h[|h| - 1] <= t
    ensures var last := h[|h| - 1]; |InWindow(h, t - window, t)| <= |InWindow(h, last - window, last)|
  {
    NarrowerWindow(h, t - window, h[|h| - 1] - window, t, h[|h| - 1]);
  }

  lemma LatestWindow(h: seq<real>, limit: int, window: real, t: real)
    requires Sorted(h) && NeverOverfull(h, limit, window) && limit >= 0
    ensures |InWindow(h, t - window, t)| <= limit
  {
    var n := CountUpTo(h, t);
    var past, future := h[..n], h[n..];
    assert h == past + future;
    WindowSplit(past, future, t - window, t);
    EmptyWindow(future, t - window, t);
    if n > 0 {
      assert h[..n - 1 + 1] == past;
      EndAtLast(past, window, t);
    }
  }

  /** No window of that length, wherever it ends, ever holds more than `limit` accepted requests. */
  lemma NoWindowOverfull(limit: int, window: real, times: seq<real>, t: real)
    requires Sorted(times) && window > 0.0 && limit >= 0
    ensures |InWindow(Requests(Client([], []), limit, window, times).history, t - window, t)| <= limit
  {
    if times != [] {
      RunKeeps(limit, window, times);
      LatestWindow(Requests(Client([], []), limit, window, times).history, limit, window, t);
    }
  }
}
