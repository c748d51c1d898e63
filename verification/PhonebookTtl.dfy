/**
 The phonebook's time-to-live cache. A call reads the clock, and if the stored text has outlived its time it asks the
 provider for a new one and reads the clock again; what the clock and the provider say are the call's parameters.
 */
module PhonebookTtl {

  const MINUTE: int := 60_000_000_000
  const SHORTEST_TTL: int := 120

  /** `now` and `later` are the two clock readings, `rendered` is what the provider would render. */
  datatype Call = Call(now: int, later: int, rendered: string)

  datatype Cache = Cache(timestamp: int, text: string)

  const EMPTY := Cache(0, "")

  predicate Refreshes(c: Cache, call: Call) {
    c.timestamp < call.now
  }

  function Step(expiry: int, c: Cache, call: Call): Cache {
    if Refreshes(c, call) then Cache(call.later + expiry, call.rendered) else c
  }

  class Phonebook {
    const expiry: int
    var timestamp: int
    var cachedPhonebook: string

    function View(): Cache
      reads this
    {
      Cache(timestamp, cachedPhonebook)
    }

    /** The configured time to live, in minutes, is never taken shorter than two hours. */
    constructor (ttl: nat)
      ensures View() == EMPTY
      ensures expiry == (if ttl < 120 then 120 else ttl) * 60_000_000_000
    {
      expiry := (if ttl < SHORTEST_TTL then SHORTEST_TTL else ttl) * MINUTE;
      timestamp := 0;
      cachedPhonebook := "";
    }

    method GetPhonebook(call: Call) returns (text: string)
      modifies this
      ensures View() == Step(expiry, old(View()), call)
      ensures text == View().text
    {
      if timestamp < call.now {
        cachedPhonebook := call.rendered;
        timestamp := call.later + expiry;
      }
      text := cachedPhonebook;
    }
  }

  // ---------- Runs ----------

  /** The cache after a sequence of calls; the lock makes them one at a time. */
  function After(expiry: int, calls: seq<Call>): Cache {
    if calls == [] then EMPTY else Step(expiry, After(expiry, calls[..|calls| - 1]), calls[|calls| - 1])
  }

  /** What call `k` returns. */
  function Answer(expiry: int, calls: seq<Call>, k: nat): string
    requires k < |calls|
  {
    After(expiry, calls[..k + 1]).text
  }

  predicate RefreshAt(expiry: int, calls: seq<Call>, k: int)
    requires 0 <= k < |calls|
  {
    Refreshes(After(expiry, calls[..k]), calls[k])
  }

  /** A monotone and positive clock. */
  predicate Clocked(calls: seq<Call>) {
    && (forall k :: 0 <= k < |calls| ==> 0 < calls[k].now <= calls[k].later)
    && (forall j, k :: 0 <= j < k < |calls| ==> calls[j].later <= calls[k].now)
  }

  /** Call `j` is the last refresh up to call `k`. */
  ghost predicate LastRefresh(expiry: int, calls: seq<Call>, j: int, k: int)
    requires k < |calls|
  {
    && 0 <= j <= k && RefreshAt(expiry, calls, j)
    && forall i :: j < i <= k ==> !RefreshAt(expiry, calls, i)
  }

  lemma {:induction false} LastRefreshExists(expiry: int, calls: seq<Call>, k: nat) returns (j: nat)
    requires k < |calls| && Clocked(calls)
    ensures LastRefresh(expiry, calls, j, k)
    ensures After(expiry, calls[..k + 1]) == Cache(calls[j].later + expiry, calls[j].rendered)
  {
    assert calls[..k + 1][..k] == calls[..k];
    if RefreshAt(expiry, calls, k) {
      j := k;
    } else {
      assert k != 0;
      j := LastRefreshExists(expiry, calls, k - 1);
    }
  }

  /**
   Every answer is the provider's text from the latest refresh, which was completed no longer than the time to live
   before the clock was read for the answer.
   */
  lemma AnswersAreFresh(expiry: int, calls: seq<Call>, k: nat) returns (j: nat)
    requires k < |calls| && Clocked(calls) && 0 < expiry
    ensures LastRefresh(expiry, calls, j, k)
    ensures Answer(expiry, calls, k) == calls[j].rendered
    ensures calls[k].now <= calls[j].later + expiry
  {
    j := LastRefreshExists(expiry, calls, k);
    if j < k {
      var before := LastRefreshExists(expiry, calls, k - 1);
    }
  }

  /** Two refreshes are further apart than the time to live. */
  lemma RefreshesAreApart(expiry: int, calls: seq<Call>, i: nat, k: nat)
    requires i < k < |calls| && Clocked(calls) && 0 < expiry
    requires RefreshAt(expiry, calls, i) && RefreshAt(expiry, calls, k)
    ensures calls[i].later + expiry < calls[k].now
  {
    var j := LastRefreshExists(expiry, calls, k - 1);
    assert i <= j;
  }

  // ---------- How often the provider is asked ----------

  /** The refreshes among the first `n` calls whose clock reading lies in the window. */
  function RefreshesIn(expiry: int, calls: seq<Call>, n: nat, from: int, to: int): set<int>
    requires n <= |calls|
  {
    set k | 0 <= k < n && RefreshAt(expiry, calls, k) && from <= calls[k].now <= to
  }

  lemma {:induction false} WindowBound(expiry: int, calls: seq<Call>, n: nat, from: int, to: int)
    requires n <= |calls| && Clocked(calls) && 0 < expiry && from <= to + expiry
    ensures |RefreshesIn(expiry, calls, n, from, to)| * expiry <= to - from + expiry
  {
    hide RefreshesIn, Clocked;
    var all := RefreshesIn(expiry, calls, n, from, to);
    if n == 0 {
      NoRefreshes(expiry, calls, from, to);
    } else {
      var k := n - 1;
      var until := if k in all then calls[k].now - expiry else to;
      LastInWindow(expiry, calls, n, from, to);
      WindowBound(expiry, calls, k, from, until);
    }
  }

  lemma NoRefreshes(expiry: int, calls: seq<Call>, from: int, to: int)
    ensures RefreshesIn(expiry, calls, 0, from, to) == {}
  {
  }

  /** The last refresh of a window leaves the others a window that is shorter by the time to live. */
  lemma LastInWindow(expiry: int, calls: seq<Call>, n: nat, from: int, to: int)
    requires 0 < n <= |calls| && Clocked(calls) && 0 < expiry
    ensures var all, k := RefreshesIn(expiry, calls, n, from, to), n - 1;
            && (k in all ==> from <= calls[k].now <= to)
            && k !in RefreshesIn(expiry, calls, k, from, calls[k].now - expiry)
            && (k in all ==> all == RefreshesIn(expiry, calls, k, from, calls[k].now - expiry) + {k})
            && (k !in all ==> all == RefreshesIn(expiry, calls, k, from, to))
  {
    hide RefreshAt, Clocked;
    var all, k := RefreshesIn(expiry, calls, n, from, to), n - 1;
    if k in all {
      forall i: int | i in all && i != k ensures calls[i].now <= calls[k].now - expiry {
        RefreshesAreApart(expiry, calls, i, k);
        Ordered(calls, i);
      }
    }
  }

  lemma Ordered(calls: seq<Call>, k: nat)
    requires k < |calls| && Clocked(calls)
    ensures calls[k].now <= calls[k].later
  {
  }

  lemma Monotone(a: int, b: int, factor: int)
    requires a <= b && 0 < factor
    ensures a * factor <= b * factor
  {
  }

  lemma Cancel(a: int, b: int, factor: int)
    requires 0 < factor
    ensures a * factor < b * factor ==> a < b
  {
    if b <= a {
      Monotone(b, a, factor);
    }
  }

  lemma AtMost(count: nat, width: nat, expiry: int)
    requires 0 < expiry && count * expiry <= width + expiry
    ensures count <= width / expiry + 1
  {
    var q := width / expiry;
    assert (q + 2) * expiry == q * expiry + 2 * expiry;
    Cancel(count, q + 2, expiry);
  }

  /** A window of the given width holds at most one refresh more than the times to live that fit in it. */
  lemma RefreshRate(expiry: int, calls: seq<Call>, from: int, width: nat)
    requires Clocked(calls) && 0 < expiry
    ensures |RefreshesIn(expiry, calls, |calls|, from, from + width)| <= width / expiry + 1
  {
    WindowBound(expiry, calls, |calls|, from, from + width);
    AtMost(|RefreshesIn(expiry, calls, |calls|, from, from + width)|, width, expiry);
  }
}
