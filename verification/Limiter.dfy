/** The fixed-window rate limiter, one window per client address. */
module Limiter {
  import opened Prelude

  // ----- The middleware -----

  datatype Window = Window(count: nat, resetAt: Time)

  type Clients = map<string, Window>

  /** Served: not limited at all. Admitted and Refused carry the three rate-limit headers. */
  datatype Response =
    | Served
    | Admitted(limit: int, remaining: nat, resetIn: int)
    | Refused(limit: int, remaining: nat, resetIn: int)

  predicate IsPublicPath(path: string) {
    path == "/" || path == "/health" || path == "/favicon.ico"
  }

  /** The client's window once this request is counted. */
  function Hit(clients: Clients, ip: string, now: Time): Window {
    if ip !in clients || now > clients[ip].resetAt then Window(1, now + MINUTE)
    else clients[ip].(count := clients[ip].count + 1)
  }

  /** Whole seconds, dropping the fraction. */
  function WholeSeconds(d: Time): int {
    if d >= 0 then d / SECOND else -((-d) / SECOND)
  }

  /** The duration in seconds, its fraction dropped. */
  predicate IsWholeSeconds(seconds: int, d: Time) {
    if d >= 0 then seconds * 1_000_000 <= d < (seconds + 1) * 1_000_000
    else (seconds - 1) * 1_000_000 < d <= seconds * 1_000_000
  }

  class RateLimiter {
    const limit: int
    var clients: Clients

    constructor (limit: int)
      ensures this.limit == limit && clients == map[]
    {
      this.limit := limit;
      clients := map[];
    }

    /** now is read before the lock and later under it, for the reset header. */
    method Handle(path: string, ip: string, now: Time, later: Time) returns (r: Response)
      modifies this
      ensures limit <= 0 || path in {"/", "/health", "/favicon.ico"} ==> r == Served && clients == old(clients)
      ensures limit > 0 && path !in {"/", "/health", "/favicon.ico"} ==>
        && clients.Keys == old(clients).Keys + {ip}
        && (forall c | c in old(clients) && c != ip :: clients[c] == old(clients)[c])
        && (if ip in old(clients) && now <= old(clients)[ip].resetAt
            then clients[ip].count == old(clients)[ip].count + 1 && clients[ip].resetAt == old(clients)[ip].resetAt
            else clients[ip].count == 1 && clients[ip].resetAt == now + 60_000_000)
        && !r.Served? && r.limit == limit
        && (if clients[ip].count <= limit then r.Admitted? && r.remaining == limit - clients[ip].count
            else r.Refused? && r.remaining == 0)
        && IsWholeSeconds(r.resetIn, clients[ip].resetAt - later)
      ensures limit > 0 && !IsPublicPath(path) ==> clients == old(clients)[ip := Hit(old(clients), ip, now)]
    {
      if limit <= 0 || IsPublicPath(path) { return Served; }
      if ip !in clients || now > clients[ip].resetAt {
        clients := clients[ip := Window(0, now + MINUTE)];
      }
      var window := clients[ip].(count := clients[ip].count + 1);
      clients := clients[ip := window];
      var remaining := limit - window.count;
      var resetIn := WholeSeconds(window.resetAt - later);
      var allowed := window.count <= limit;
      if remaining < 0 { remaining := 0; }
      r := if allowed then Admitted(limit, remaining, resetIn) else Refused(limit, remaining, resetIn);
    }
  }

  // ----- Traces -----

  /** A limited request, in lock order. */
  datatype Request = Request(ip: string, at: Time)

  ghost predicate InOrder(reqs: seq<Request>) {
    forall i, j | 0 <= i < j < |reqs| :: reqs[i].at <= reqs[j].at
  }

  /** The windows after the first k requests. */
  ghost function After(reqs: seq<Request>, k: nat): Clients
    requires k <= |reqs|
  {
    if k == 0 then map[]
    else
      var r := reqs[k - 1];
      After(reqs, k - 1)[r.ip := Hit(After(reqs, k - 1), r.ip, r.at)]
  }

  ghost predicate IsAdmitted(reqs: seq<Request>, limit: nat, i: nat)
    requires i < |reqs|
  {
    Hit(After(reqs, i), reqs[i].ip, reqs[i].at).count <= limit
  }

  // ----- Windows, read off the request times alone -----

  /** The client's last request among the first k. */
  ghost function LastOf(reqs: seq<Request>, ip: string, k: nat): (last: Option<nat>)
    requires k <= |reqs|
    ensures last.Some? ==> last.value < k && reqs[last.value].ip == ip
    ensures forall j | 0 <= j < k && reqs[j].ip == ip :: last.Some? && j <= last.value
  {
    if k == 0 then None else if reqs[k - 1].ip == ip then Some(k - 1) else LastOf(reqs, ip, k - 1)
  }

  /** The request that opened request i's window: the client's first one later than a minute after
      the previous opener. */
  ghost function Opener(reqs: seq<Request>, i: nat): (o: nat)
    requires i < |reqs|
    ensures o <= i && reqs[o].ip == reqs[i].ip
    decreases i
  {
    var last := LastOf(reqs, reqs[i].ip, i);
    if last.None? then i
    else if reqs[i].at > reqs[Opener(reqs, last.value)].at + MINUTE then i
    else Opener(reqs, last.value)
  }

  /** How many of requests lo up to hi are the client's. */
  ghost function CountOf(reqs: seq<Request>, ip: string, lo: nat, hi: nat): nat
    requires lo <= hi <= |reqs|
    decreases hi
  {
    if lo == hi then 0 else CountOf(reqs, ip, lo, hi - 1) + (if reqs[hi - 1].ip == ip then 1 else 0)
  }

  /** The stored window is the one its opener defines, and counts its requests. */
  lemma {:induction false} WindowIsOpeners(reqs: seq<Request>, ip: string, k: nat)
    requires k <= |reqs|
    ensures ip in After(reqs, k) <==> LastOf(reqs, ip, k).Some?
    ensures ip in After(reqs, k) ==>
      var o := Opener(reqs, LastOf(reqs, ip, k).value);
      After(reqs, k)[ip] == Window(CountOf(reqs, ip, o, k), reqs[o].at + MINUTE)
  {
    if k > 0 {
      WindowIsOpeners(reqs, ip, k - 1);
      if reqs[k - 1].ip == ip && Opener(reqs, k - 1) == k - 1 {
        assert CountOf(reqs, ip, k - 1, k) == CountOf(reqs, ip, k - 1, k - 1) + 1;
      }
    }
  }

  /** Each client window admits exactly its first `limit` requests: a request is admitted if and only
      if at most `limit` of its client's requests lie between its window's opener and itself. */
  lemma WindowAdmitsFirst(reqs: seq<Request>, limit: nat, i: nat)
    requires i < |reqs|
    ensures IsAdmitted(reqs, limit, i) <==> CountOf(reqs, reqs[i].ip, Opener(reqs, i), i + 1) <= limit
  {
    WindowIsOpeners(reqs, reqs[i].ip, i + 1);
  }

  // ----- Any minute -----

  ghost predicate Within(t: Time, at: Time) { t <= at <= t + MINUTE }

  /** The client's requests admitted in the minute from t on, among the first k requests. */
  ghost function AdmittedIn(reqs: seq<Request>, limit: nat, ip: string, t: Time, k: nat): nat
    requires k <= |reqs|
  {
    if k == 0 then 0
    else
      var counts := reqs[k - 1].ip == ip && Within(t, reqs[k - 1].at) && IsAdmitted(reqs, limit, k - 1);
      AdmittedIn(reqs, limit, ip, t, k - 1) + (if counts then 1 else 0)
  }

  /** What the client's current window says about the minute from t on. */
  ghost predicate Bounded(w: Window, limit: nat, t: Time, admitted: nat, now: Time) {
    && w.count >= 1
    && w.resetAt - MINUTE <= now
    && (now < t ==> admitted == 0)
    && (w.resetAt - MINUTE < t ==> admitted <= Min(w.count, limit) - 1)
    && (Within(t, w.resetAt - MINUTE) ==> admitted <= limit - 1 + Min(w.count, limit))
    && admitted <= 2 * limit - 1
  }

  lemma HitKeepsBound(clients: Clients, limit: nat, r: Request, t: Time, admitted: nat, before: Time)
    requires limit > 0 && before <= r.at
    requires if r.ip in clients then Bounded(clients[r.ip], limit, t, admitted, before) else admitted == 0
    ensures var w := Hit(clients, r.ip, r.at);
      Bounded(w, limit, t, admitted + if Within(t, r.at) && w.count <= limit then 1 else 0, r.at)
  {
  }

  lemma {:induction false} MinuteInvariant(reqs: seq<Request>, limit: nat, ip: string, t: Time, k: nat)
    requires InOrder(reqs) && 0 < limit && k <= |reqs|
    ensures var last := LastOf(reqs, ip, k);
      && (ip in After(reqs, k) <==> last.Some?)
      && if last.Some?
         then Bounded(After(reqs, k)[ip], limit, t, AdmittedIn(reqs, limit, ip, t, k), reqs[last.value].at)
         else AdmittedIn(reqs, limit, ip, t, k) == 0
  {
    if k > 0 {
      MinuteInvariant(reqs, limit, ip, t, k - 1);
      var r := reqs[k - 1];
      if r.ip == ip {
        var last := LastOf(reqs, ip, k - 1);
        HitKeepsBound(After(reqs, k - 1), limit, r, t, AdmittedIn(reqs, limit, ip, t, k - 1),
                      if last.Some? then reqs[last.value].at else r.at);
      }
    }
  }

  /** Any closed one-minute interval admits at most 2 * limit - 1 requests per client: a window
      opened inside it shuts out the next one, and a window open before it has spent its opener. */
  lemma MinuteBound(reqs: seq<Request>, limit: nat, ip: string, t: Time)
    requires InOrder(reqs) && 0 < limit
    ensures AdmittedIn(reqs, limit, ip, t, |reqs|) <= 2 * limit - 1
  {
    MinuteInvariant(reqs, limit, ip, t, |reqs|);
  }

  /** Request i is the client's, falls in the minute from t on, and its window has not spent its limit. */
  ghost predicate AdmittedAt(reqs: seq<Request>, limit: nat, ip: string, t: Time, i: nat)
    requires i < |reqs|
  {
    reqs[i].ip == ip && t <= reqs[i].at <= t + 60_000_000 && CountOf(reqs, ip, Opener(reqs, i), i + 1) <= limit
  }

  ghost function AdmittedOnes(reqs: seq<Request>, limit: nat, ip: string, t: Time, k: nat): set<nat>
    requires k <= |reqs|
  {
    set i: nat | i < k && AdmittedAt(reqs, limit, ip, t, i)
  }

  lemma AdmittedNext(reqs: seq<Request>, limit: nat, ip: string, t: Time, k: nat)
    requires k < |reqs|
    ensures AdmittedOnes(reqs, limit, ip, t, k + 1) ==
      AdmittedOnes(reqs, limit, ip, t, k) + if AdmittedAt(reqs, limit, ip, t, k) then {k} else {}
  {
  }

  lemma AdmittedHere(reqs: seq<Request>, limit: nat, ip: string, t: Time, k: nat)
    requires k < |reqs|
    ensures AdmittedAt(reqs, limit, ip, t, k) <==>
      reqs[k].ip == ip && Within(t, reqs[k].at) && IsAdmitted(reqs, limit, k)
  {
    WindowAdmitsFirst(reqs, limit, k);
  }

  lemma AdmittedOnce(reqs: seq<Request>, limit: nat, ip: string, t: Time, k: nat)
    requires k < |reqs|
    ensures AdmittedIn(reqs, limit, ip, t, k + 1) - AdmittedIn(reqs, limit, ip, t, k) ==
      |AdmittedOnes(reqs, limit, ip, t, k + 1)| - |AdmittedOnes(reqs, limit, ip, t, k)|
  {
    AdmittedNext(reqs, limit, ip, t, k);
    AdmittedHere(reqs, limit, ip, t, k);
    assert k !in AdmittedOnes(reqs, limit, ip, t, k);
  }

  /** The count is that of the requests admitted, told from the request times alone. */
  lemma {:induction false} AdmittedCount(reqs: seq<Request>, limit: nat, ip: string, t: Time, k: nat)
    requires k <= |reqs|
    ensures AdmittedIn(reqs, limit, ip, t, k) == |AdmittedOnes(reqs, limit, ip, t, k)|
  {
    if k == 0 {
      assert AdmittedOnes(reqs, limit, ip, t, 0) == {};
    } else {
      AdmittedCount(reqs, limit, ip, t, k - 1);
      AdmittedOnce(reqs, limit, ip, t, k - 1);
    }
  }

  /** A window opens at the client's first request. */
  lemma OpensFirst(reqs: seq<Request>, i: nat)
    requires i < |reqs| && forall j | 0 <= j < i :: reqs[j].ip != reqs[i].ip
    ensures Opener(reqs, i) == i
  {
  }

  /** And at a request more than a minute after the opening of the window of the one before. */
  lemma OpensNext(reqs: seq<Request>, j: nat, i: nat)
    requires j < i < |reqs| && reqs[j].ip == reqs[i].ip && forall m | j < m < i :: reqs[m].ip != reqs[i].ip
    ensures Opener(reqs, i) == if reqs[i].at - reqs[Opener(reqs, j)].at > 60_000_000 then i else Opener(reqs, j)
  {
    assert LastOf(reqs, reqs[i].ip, i) == Some(j);
  }

  // ----- The bound is reached -----

  /** One request, then limit - 1 a minute later, then limit just after. */
  ghost function Burst(ip: string, limit: nat): seq<Request>
    requires limit > 0
  {
    seq(2 * limit, i requires 0 <= i < 2 * limit =>
      Request(ip, if i == 0 then 0 else if i < limit then MINUTE else MINUTE + 1))
  }

  lemma {:induction false} BurstAdmitted(ip: string, limit: nat, k: nat)
    requires 0 < limit && 0 < k <= 2 * limit
    ensures ip in After(Burst(ip, limit), k)
    ensures After(Burst(ip, limit), k)[ip] ==
      if k <= limit then Window(k, MINUTE) else Window(k - limit, 2 * MINUTE + 1)
    ensures AdmittedIn(Burst(ip, limit), limit, ip, MINUTE, k) == k - 1
  {
    var reqs := Burst(ip, limit);
    if k == 1 {
      assert After(reqs, 0) == map[] && AdmittedIn(reqs, limit, ip, MINUTE, 0) == 0;
    } else {
      BurstAdmitted(ip, limit, k - 1);
    }
  }

  /** For every limit some minute admits exactly 2 * limit - 1 requests of one client. */
  lemma MinuteBoundReached(ip: string, limit: nat)
    requires limit > 0
    ensures InOrder(Burst(ip, limit))
    ensures AdmittedIn(Burst(ip, limit), limit, ip, MINUTE, |Burst(ip, limit)|) == 2 * limit - 1
  {
    BurstAdmitted(ip, limit, 2 * limit);
  }

  /** So only a limit of one is a limit per minute. */
  lemma PerMinuteIff(limit: nat)
    requires limit > 0
    ensures (forall reqs, ip, t | InOrder(reqs) :: AdmittedIn(reqs, limit, ip, t, |reqs|) <= limit) <==> limit == 1
  {
    if limit == 1 {
      forall reqs, ip, t | InOrder(reqs) ensures AdmittedIn(reqs, limit, ip, t, |reqs|) <= limit {
        MinuteBound(reqs, limit, ip, t);
      }
    } else {
      MinuteBoundReached("", limit);
    }
  }

  // ----- When a minute is exceeded -----

  /** How many of requests lo up to hi are the client's and fall in the minute from t on. */
  ghost function CountIn(reqs: seq<Request>, ip: string, t: Time, lo: nat, hi: nat): nat
    requires lo <= hi <= |reqs|
    decreases hi
  {
    if lo == hi then 0
    else CountIn(reqs, ip, t, lo, hi - 1) + (if reqs[hi - 1].ip == ip && Within(t, reqs[hi - 1].at) then 1 else 0)
  }

  /** Request o opens a window of the client inside the minute. */
  ghost predicate OpensIn(reqs: seq<Request>, ip: string, t: Time, o: nat)
    requires o < |reqs|
  {
    reqs[o].ip == ip && Within(t, reqs[o].at) && Opener(reqs, o) == o
  }

  /** The client's window before request o admits its first `limit` requests, the ones before the minute
      among them; these are the others. */
  ghost function LeftOver(reqs: seq<Request>, limit: nat, ip: string, t: Time, o: nat): int
    requires o <= |reqs|
  {
    var last := LastOf(reqs, ip, o);
    if last.None? then 0
    else
      var p := Opener(reqs, last.value);
      var count := CountOf(reqs, ip, p, o);
      Min(limit, count) - Min(limit, count - CountIn(reqs, ip, t, p, o))
  }

  /** A window opens inside the minute, and what the one before it admits inside the minute, together
      with the first `limit` requests of the minute from there on, is more than the limit. */
  ghost predicate Straddles(reqs: seq<Request>, limit: nat, ip: string, t: Time, o: nat)
    requires o < |reqs|
  {
    && OpensIn(reqs, ip, t, o)
    && LeftOver(reqs, limit, ip, t, o) + Min(limit, CountIn(reqs, ip, t, o, |reqs|)) > limit
  }

  /** What the client's window says about a minute in which none of its windows opened so far. */
  ghost predicate OneWindow(w: Window, limit: nat, t: Time, admitted: nat, now: Time) {
    && w.count >= 1 && w.resetAt - MINUTE <= now && admitted <= limit
    && (w.resetAt - MINUTE < t ==> admitted <= w.count)
    && !Within(t, w.resetAt - MINUTE)
    && (now < t ==> admitted == 0)
  }

  ghost predicate OneWindowAt(reqs: seq<Request>, limit: nat, ip: string, t: Time, k: nat)
    requires k <= |reqs|
  {
    var last := LastOf(reqs, ip, k);
    && (ip in After(reqs, k) <==> last.Some?)
    && if last.Some?
       then OneWindow(After(reqs, k)[ip], limit, t, AdmittedIn(reqs, limit, ip, t, k), reqs[last.value].at)
       else AdmittedIn(reqs, limit, ip, t, k) == 0
  }

  lemma OneWindowStep(reqs: seq<Request>, limit: nat, ip: string, t: Time, k: nat)
    requires InOrder(reqs) && k < |reqs| && OneWindowAt(reqs, limit, ip, t, k) && !OpensIn(reqs, ip, t, k)
    ensures OneWindowAt(reqs, limit, ip, t, k + 1)
  {
    if reqs[k].ip == ip {
      WindowIsOpeners(reqs, ip, k);
    } else {
      assert After(reqs, k + 1)[reqs[k].ip := Hit(After(reqs, k), reqs[k].ip, reqs[k].at)] == After(reqs, k + 1);
    }
  }

  lemma {:induction false} OneWindowHolds(reqs: seq<Request>, limit: nat, ip: string, t: Time, k: nat)
    requires InOrder(reqs) && k <= |reqs| && forall o | 0 <= o < k :: !OpensIn(reqs, ip, t, o)
    ensures OneWindowAt(reqs, limit, ip, t, k)
  {
    if k > 0 {
      OneWindowHolds(reqs, limit, ip, t, k - 1);
      OneWindowStep(reqs, limit, ip, t, k - 1);
    }
  }

  /** From a window that opens inside the minute on, its first `limit` requests in the minute are admitted. */
  lemma {:induction false} OpenedInside(reqs: seq<Request>, limit: nat, ip: string, t: Time, o: nat, k: nat)
    requires InOrder(reqs) && 0 < limit && o < k <= |reqs| && OpensIn(reqs, ip, t, o)
    ensures reqs[k - 1].at <= t + MINUTE ==>
      ip in After(reqs, k) && After(reqs, k)[ip] == Window(CountIn(reqs, ip, t, o, k), reqs[o].at + MINUTE)
    ensures AdmittedIn(reqs, limit, ip, t, k) ==
      AdmittedIn(reqs, limit, ip, t, o) + Min(limit, CountIn(reqs, ip, t, o, k))
  {
    if k == o + 1 {
      WindowIsOpeners(reqs, ip, k);
      assert CountIn(reqs, ip, t, o, o) == 0 && CountOf(reqs, ip, o, o) == 0;
    } else {
      OpenedInside(reqs, limit, ip, t, o, k - 1);
    }
  }

  /** All of the client's requests from its window's opener on are of that window. */
  lemma {:induction false} SameOpener(reqs: seq<Request>, ip: string, last: nat, i: nat)
    requires last < |reqs| && reqs[last].ip == ip && Opener(reqs, last) <= i <= last && reqs[i].ip == ip
    ensures Opener(reqs, i) == Opener(reqs, last)
    decreases last
  {
    if i < last { SameOpener(reqs, ip, LastOf(reqs, ip, last).value, i); }
  }

  /** A window that opened before the minute has admitted in it what was left of its first `limit` requests. */
  ghost predicate Leaves(reqs: seq<Request>, limit: nat, ip: string, t: Time, p: nat, k: nat)
    requires p <= k <= |reqs|
  {
    var count, inside := CountOf(reqs, ip, p, k), CountIn(reqs, ip, t, p, k);
    && inside <= count && (k > 0 && reqs[k - 1].at < t ==> inside == 0)
    && AdmittedIn(reqs, limit, ip, t, k) == Min(limit, count) - Min(limit, count - inside)
  }

  lemma LeavesNext(reqs: seq<Request>, limit: nat, ip: string, t: Time, p: nat, k: nat)
    requires InOrder(reqs) && p < k < |reqs| && Leaves(reqs, limit, ip, t, p, k)
    requires reqs[k].ip == ip && Opener(reqs, k) == p && reqs[k].at <= t + MINUTE
    ensures Leaves(reqs, limit, ip, t, p, k + 1)
  {
    WindowAdmitsFirst(reqs, limit, k);
    assert CountOf(reqs, ip, p, k + 1) == CountOf(reqs, ip, p, k) + 1;
    assert reqs[k - 1].at <= reqs[k].at;
  }

  lemma LeavesOther(reqs: seq<Request>, limit: nat, ip: string, t: Time, p: nat, k: nat)
    requires InOrder(reqs) && p < k < |reqs| && Leaves(reqs, limit, ip, t, p, k) && reqs[k].ip != ip
    ensures Leaves(reqs, limit, ip, t, p, k + 1)
  {
    OthersOnly(reqs, limit, ip, t, p, k, k + 1);
    assert reqs[k - 1].at <= reqs[k].at;
  }

  lemma LeavesFirst(reqs: seq<Request>, limit: nat, ip: string, t: Time, p: nat)
    requires InOrder(reqs) && p < |reqs| && reqs[p].at < t && reqs[p].ip == ip
    ensures Leaves(reqs, limit, ip, t, p, p + 1)
  {
    NoneBefore(reqs, limit, ip, t, p);
    assert CountIn(reqs, ip, t, p, p) == 0 && CountOf(reqs, ip, p, p) == 0;
  }

  lemma LeavesStep(reqs: seq<Request>, limit: nat, ip: string, t: Time, p: nat, last: nat, k: nat)
    requires InOrder(reqs) && p < k <= last < |reqs| && reqs[last].ip == ip && Opener(reqs, last) == p
    requires reqs[last].at <= t + MINUTE && Leaves(reqs, limit, ip, t, p, k)
    ensures Leaves(reqs, limit, ip, t, p, k + 1)
  {
    if reqs[k].ip == ip {
      SameOpener(reqs, ip, last, k);
      assert reqs[k].at <= reqs[last].at;
      LeavesNext(reqs, limit, ip, t, p, k);
    } else {
      LeavesOther(reqs, limit, ip, t, p, k);
    }
  }

  lemma {:induction false} OpenedBefore(
    reqs: seq<Request>, limit: nat, ip: string, t: Time, p: nat, last: nat, k: nat)
    requires InOrder(reqs) && p < k <= last + 1 <= |reqs| && reqs[last].ip == ip && Opener(reqs, last) == p
    requires reqs[p].at < t && reqs[last].at <= t + MINUTE
    ensures Leaves(reqs, limit, ip, t, p, k)
  {
    if k == p + 1 {
      LeavesFirst(reqs, limit, ip, t, p);
    } else {
      OpenedBefore(reqs, limit, ip, t, p, last, k - 1);
      LeavesStep(reqs, limit, ip, t, p, last, k - 1);
    }
  }

  lemma {:induction false} NoneBefore(reqs: seq<Request>, limit: nat, ip: string, t: Time, k: nat)
    requires InOrder(reqs) && k < |reqs| && reqs[k].at < t
    ensures AdmittedIn(reqs, limit, ip, t, k) == 0
  {
    if k > 0 { NoneBefore(reqs, limit, ip, t, k - 1); }
  }

  lemma {:induction false} OthersOnly(reqs: seq<Request>, limit: nat, ip: string, t: Time, p: nat, lo: nat, hi: nat)
    requires p <= lo <= hi <= |reqs| && forall i | lo <= i < hi :: reqs[i].ip != ip
    ensures AdmittedIn(reqs, limit, ip, t, hi) == AdmittedIn(reqs, limit, ip, t, lo)
    ensures CountOf(reqs, ip, p, hi) == CountOf(reqs, ip, p, lo)
    ensures CountIn(reqs, ip, t, p, hi) == CountIn(reqs, ip, t, p, lo)
    decreases hi
  {
    if lo < hi { OthersOnly(reqs, limit, ip, t, p, lo, hi - 1); }
  }

  /** What was admitted in the minute before a window opens inside it. */
  lemma AdmittedBefore(reqs: seq<Request>, limit: nat, ip: string, t: Time, o: nat)
    requires InOrder(reqs) && o < |reqs| && OpensIn(reqs, ip, t, o)
    ensures AdmittedIn(reqs, limit, ip, t, o) == LeftOver(reqs, limit, ip, t, o)
  {
    var last := LastOf(reqs, ip, o);
    if last.None? {
      OthersOnly(reqs, limit, ip, t, 0, 0, o);
    } else {
      var p := Opener(reqs, last.value);
      OpenedBefore(reqs, limit, ip, t, p, last.value, last.value + 1);
      OthersOnly(reqs, limit, ip, t, p, last.value + 1, o);
    }
  }

  lemma TwoWindows(reqs: seq<Request>, limit: nat, ip: string, t: Time, o: nat)
    requires InOrder(reqs) && 0 < limit && o < |reqs| && OpensIn(reqs, ip, t, o)
    ensures Straddles(reqs, limit, ip, t, o) <==> AdmittedIn(reqs, limit, ip, t, |reqs|) > limit
  {
    AdmittedBefore(reqs, limit, ip, t, o);
    OpenedInside(reqs, limit, ip, t, o, |reqs|);
  }

  /** Trace by trace: a client gets more than `limit` requests through in a minute if and only if one of
      its windows opens inside that minute and, together with the rest of the one before, lets them. */
  lemma ExceededIff(reqs: seq<Request>, limit: nat, ip: string, t: Time)
    requires InOrder(reqs) && 0 < limit
    ensures AdmittedIn(reqs, limit, ip, t, |reqs|) > limit <==>
      exists o | 0 <= o < |reqs| :: Straddles(reqs, limit, ip, t, o)
  {
    if forall o | 0 <= o < |reqs| :: !OpensIn(reqs, ip, t, o) {
      OneWindowHolds(reqs, limit, ip, t, |reqs|);
    } else {
      var o :| 0 <= o < |reqs| && OpensIn(reqs, ip, t, o);
      TwoWindows(reqs, limit, ip, t, o);
    }
    forall o | 0 <= o < |reqs| && Straddles(reqs, limit, ip, t, o)
      ensures AdmittedIn(reqs, limit, ip, t, |reqs|) > limit
    {
      TwoWindows(reqs, limit, ip, t, o);
    }
  }
}
