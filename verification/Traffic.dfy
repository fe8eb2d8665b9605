/** The windowed rate limiter (src/traffic.c). Times are in milliseconds, the resolution of `gettimems`. */
module Traffic {
  const WINDOW: nat := 1000

  /** Start of the current window, 0 before the first one, and the bytes admitted in it. */
  datatype Window = Window(start: nat, total: nat)

  /** A request for `bytes` at time `now`; `later` is when the clock is read again to open a window. */
  datatype Request = Request(bytes: nat, now: nat, later: nat)

  function LimitBytes(limit: nat): nat { limit * 1024 }

  predicate Opens(w: Window, r: Request) {
    w.start == 0 || r.now - WINDOW >= w.start
  }

  predicate Admits(limit: nat, w: Window, r: Request) {
    Opens(w, r) || w.total + r.bytes < LimitBytes(limit)
  }

  function Next(limit: nat, w: Window, r: Request): Window {
    if Opens(w, r) then Window(r.later, r.bytes)
    else if Admits(limit, w, r) then w.(total := w.total + r.bytes)
    else w
  }

  /** The limiter's fields for one direction. */
  class Meter {
    var start: nat
    var total: nat

    method Update(bytes: int, limit: nat, now: nat, later: nat) returns (ok: bool, suspend: bool)
      modifies this
      ensures ok <==> bytes >= 0
      ensures !ok ==> start == old(start) && total == old(total)
      ensures ok ==>
        var r := Request(bytes, now, later);
        && Window(start, total) == Next(limit, Window(old(start), old(total)), r)
        && suspend == !Admits(limit, Window(old(start), old(total)), r)
    {
      suspend := false;
      if bytes < 0 {
        return false, false;
      }
      ok := true;
      if start == 0 || now - WINDOW >= start {
        total := bytes;
        start := later;
        return;
      }
      if total + bytes >= limit * 1024 {
        suspend := true;
        return;
      }
      total := total + bytes;
    }
  }

  // ----- Runs

  /** The clock does not run backwards. */
  ghost predicate Timely(rs: seq<Request>) {
    && (forall i :: 0 <= i < |rs| ==> 0 < rs[i].now <= rs[i].later)
    && (forall i, j :: 0 <= i < j < |rs| ==> rs[i].later <= rs[j].now)
  }

  /** And every packet is smaller than the limit. */
  ghost predicate Orderly(limit: nat, rs: seq<Request>) {
    Timely(rs) && forall i :: 0 <= i < |rs| ==> rs[i].bytes < LimitBytes(limit)
  }

  function After(limit: nat, w: Window, rs: seq<Request>): Window {
    if rs == [] then w else Next(limit, After(limit, w, rs[..|rs| - 1]), rs[|rs| - 1])
  }

  /** Bytes admitted by the requests `rs`, made one after the other from window `w` on. */
  function Admitted(limit: nat, w: Window, rs: seq<Request>): nat
    decreases |rs|
  {
    if rs == [] then 0
    else (if Admits(limit, w, rs[0]) then rs[0].bytes else 0) + Admitted(limit, Next(limit, w, rs[0]), rs[1..])
  }

  /** The requests come after the window opened. */
  ghost predicate Follows(w: Window, rs: seq<Request>) {
    forall i :: 0 <= i < |rs| ==> w.start <= rs[i].now
  }

  /** A window never admits as much as the limit, and a new one opens at least a second after the last. */
  lemma {:induction false} WindowsStayBelowLimit(limit: nat, rs: seq<Request>)
    requires Orderly(limit, rs) && limit > 0
    ensures After(limit, Window(0, 0), rs).total < LimitBytes(limit)
    ensures rs != [] ==>
      var w, r := After(limit, Window(0, 0), rs[..|rs| - 1]), rs[|rs| - 1];
      w.start != 0 && Opens(w, r) ==> Next(limit, w, r).start >= w.start + WINDOW
    ensures rs != [] ==> After(limit, Window(0, 0), rs).start <= rs[|rs| - 1].later
  {
    if rs != [] {
      var n := |rs| - 1;
      WindowsStayBelowLimit(limit, rs[..n]);
      if n > 0 {
        assert rs[n - 1].later <= rs[n].now;
      }
    }
  }

  /** `n` windows' worth of at most `most` bytes each. */
  function Worth(n: nat, most: nat): nat {
    if n == 0 then 0 else most + Worth(n - 1, most)
  }

  lemma {:induction false} WorthGrows(m: nat, n: nat, most: nat)
    requires m <= n
    ensures Worth(m, most) <= Worth(n, most)
  {
    if m < n {
      WorthGrows(m, n - 1, most);
    }
  }

  lemma {:induction false} WorthIsProduct(n: nat, most: nat)
    ensures Worth(n, most) == n * most
  {
    if n > 0 {
      WorthIsProduct(n - 1, most);
    }
  }

  /** From inside a window until `end`: the rest of this window and one limit for each later one. */
  lemma {:induction false} AdmittedFromWindow(limit: nat, w: Window, rs: seq<Request>, end: nat)
    requires Orderly(limit, rs) && limit > 0
    requires w.start > 0 && w.total < LimitBytes(limit) && Follows(w, rs) && w.start <= end
    requires forall i :: 0 <= i < |rs| ==> rs[i].now <= end
    ensures var most := LimitBytes(limit) - 1;
            Admitted(limit, w, rs) <= most - w.total + Worth((end - w.start) / WINDOW, most)
    decreases |rs|, 0
  {
    if rs != [] {
      var r, rest, w' := rs[0], rs[1..], Next(limit, w, rs[0]);
      if Opens(w, r) {
        AdmittedAfterOpening(limit, w', rest, end, (end - w.start) / WINDOW - 1);
      } else {
        AdmittedFromWindow(limit, w', rest, end);
      }
    }
  }

  /** A window just opened, when no more than `n` windows can follow it until `end`. */
  lemma {:induction false} AdmittedAfterOpening(limit: nat, w: Window, rs: seq<Request>, end: nat, n: nat)
    requires Orderly(limit, rs) && limit > 0
    requires w.start > 0 && w.total < LimitBytes(limit) && Follows(w, rs)
    requires forall i :: 0 <= i < |rs| ==> rs[i].now <= end
    requires w.start <= end ==> (end - w.start) / WINDOW <= n
    ensures var most := LimitBytes(limit) - 1; w.total + Admitted(limit, w, rs) <= Worth(n + 1, most)
    decreases |rs|, 1
  {
    if rs != [] {
      assert w.start <= rs[0].now;
      AdmittedFromWindow(limit, w, rs, end);
      WorthGrows((end - w.start) / WINDOW, n, LimitBytes(limit) - 1);
    }
  }

  /** Requests between `begin` and `end`, from any window opened before. */
  lemma {:induction false} AdmittedBetween(limit: nat, w: Window, rs: seq<Request>, begin: nat, end: nat)
    requires Orderly(limit, rs) && limit > 0 && begin <= end
    requires w.total < LimitBytes(limit)
    requires forall i :: 0 <= i < |rs| ==> begin <= rs[i].now <= end
    ensures var most := LimitBytes(limit) - 1;
            Admitted(limit, w, rs) <= most - w.total + Worth((end - begin) / WINDOW + 1, most)
    decreases |rs|
  {
    if rs != [] {
      var r, rest, w' := rs[0], rs[1..], Next(limit, w, rs[0]);
      if Opens(w, r) {
        AdmittedAfterOpening(limit, w', rest, end, (end - begin) / WINDOW);
      } else {
        AdmittedBetween(limit, w', rest, begin, end);
      }
    }
  }

  /** Rate bound: of any run, the requests that fall into an interval of `T` whole seconds and a fraction
      admit fewer than `T + 2` times the limit. */
  lemma RateBound(limit: nat, rs: seq<Request>, i: nat, j: nat, begin: nat, end: nat)
    requires Orderly(limit, rs) && limit > 0
    requires i <= j <= |rs| && begin <= end
    requires forall k :: i <= k < j ==> begin <= rs[k].now <= end
    ensures Admitted(limit, After(limit, Window(0, 0), rs[..i]), rs[i..j])
          < ((end - begin) / WINDOW + 2) * LimitBytes(limit)
  {
    var n, most := (end - begin) / WINDOW + 2, LimitBytes(limit) - 1;
    WindowsStayBelowLimit(limit, rs[..i]);
    AdmittedBetween(limit, After(limit, Window(0, 0), rs[..i]), rs[i..j], begin, end);
    WorthIsProduct(n, most);
    MulStrict(n, most);
  }

  lemma MulStrict(a: nat, b: nat)
    requires a > 0
    ensures a * b < a * (b + 1)
  {
  }

  // ----- Exactly which requests are suspended

  /** Of the first `n` requests, the one that opened the window they leave: the first, and then always the
      next one to come at least a second after the last window opened. Only times matter. */
  function Opener(rs: seq<Request>, n: nat): (o: nat)
    requires 0 < n <= |rs|
    ensures o < n
  {
    if n == 1 then 0 else
    var o := Opener(rs, n - 1);
    if rs[n - 1].now >= rs[o].later + WINDOW then n - 1 else o
  }

  /** Request `k` of a run that starts without a window is suspended. */
  predicate Suspended(limit: nat, rs: seq<Request>, k: nat)
    requires k < |rs|
  {
    !Admits(limit, After(limit, Window(0, 0), rs[..k]), rs[k])
  }

  /** Bytes of the requests from `i` up to `j` that are not suspended. */
  function Passed(limit: nat, rs: seq<Request>, i: nat, j: nat): nat
    requires i <= j <= |rs|
    decreases j - i
  {
    if i == j then 0
    else Passed(limit, rs, i, j - 1) + if Suspended(limit, rs, j - 1) then 0 else rs[j - 1].bytes
  }

  /** The window a run leaves, in terms of its requests. */
  lemma {:induction false} WindowIs(limit: nat, rs: seq<Request>, n: nat)
    requires Timely(rs) && 0 < n <= |rs|
    ensures var o := Opener(rs, n);
            After(limit, Window(0, 0), rs[..n]) == Window(rs[o].later, Passed(limit, rs, o, n))
  {
    var k := n - 1;
    assert rs[..n][..k] == rs[..k];
    if k > 0 {
      WindowIs(limit, rs, k);
    } else {
      assert rs[..k] == [];
    }
    if Opener(rs, n) == k {
      assert Passed(limit, rs, k, n) == Passed(limit, rs, k, k) + rs[k].bytes;
    }
  }

  /** In every run: a request is suspended exactly when it comes less than a second after the current window
      opened and would bring the bytes passed since then to the limit. */
  lemma SuspendedExactly(limit: nat, rs: seq<Request>, k: nat)
    requires Timely(rs) && k < |rs|
    ensures Suspended(limit, rs, k) <==>
      && k > 0
      && var o := Opener(rs, k);
      rs[k].now < rs[o].later + WINDOW && Passed(limit, rs, o, k) + rs[k].bytes >= limit * 1024
  {
    if k > 0 {
      WindowIs(limit, rs, k);
    } else {
      assert rs[..k] == [];
    }
  }

  /** All bytes asked for by the requests from `i` up to `j`. */
  function Asked(rs: seq<Request>, i: nat, j: nat): nat
    requires i <= j <= |rs|
    decreases j - i
  {
    if i == j then 0 else Asked(rs, i, j - 1) + rs[j - 1].bytes
  }

  lemma {:induction false} PassedAtMostAsked(limit: nat, rs: seq<Request>, i: nat, j: nat)
    requires i <= j <= |rs|
    ensures Passed(limit, rs, i, j) <= Asked(rs, i, j)
    decreases j - i
  {
    if i < j {
      PassedAtMostAsked(limit, rs, i, j - 1);
    }
  }

  /** From any request until a second after it, less than the limit is asked for. */
  ghost predicate Modest(limit: nat, rs: seq<Request>) {
    forall i, j :: 0 <= i < j < |rs| && rs[j].now < rs[i].later + WINDOW ==> Asked(rs, i, j + 1) < limit * 1024
  }

  lemma ModestPasses(limit: nat, rs: seq<Request>, k: nat)
    requires Timely(rs) && Modest(limit, rs) && k < |rs|
    ensures !Suspended(limit, rs, k)
  {
    SuspendedExactly(limit, rs, k);
    if k > 0 {
      PassedAtMostAsked(limit, rs, Opener(rs, k), k);
    }
  }

  lemma {:induction false} AdmittedIsPassed(limit: nat, rs: seq<Request>, i: nat)
    requires i <= |rs|
    ensures Passed(limit, rs, 0, i) + Admitted(limit, After(limit, Window(0, 0), rs[..i]), rs[i..])
         == Admitted(limit, Window(0, 0), rs)
  {
    if i == 0 {
      assert rs[0..] == rs && rs[..0] == [];
    } else {
      AdmittedIsPassed(limit, rs, i - 1);
      assert rs[i - 1..][1..] == rs[i..] && rs[..i][..i - 1] == rs[..i - 1];
    }
  }

  lemma {:induction false} AllPassed(limit: nat, rs: seq<Request>, j: nat)
    requires j <= |rs| && forall k :: 0 <= k < j ==> !Suspended(limit, rs, k)
    ensures Passed(limit, rs, 0, j) == Asked(rs, 0, j)
  {
    if j > 0 {
      AllPassed(limit, rs, j - 1);
    }
  }

  /** The limiter does not get in the way of traffic below the limit: if no stretch of a second asks for the
      limit, everything asked for is admitted. */
  lemma BelowLimitNothingIsHeldBack(limit: nat, rs: seq<Request>)
    requires Timely(rs) && Modest(limit, rs)
    ensures forall k :: 0 <= k < |rs| ==> !Suspended(limit, rs, k)
    ensures Admitted(limit, Window(0, 0), rs) == Asked(rs, 0, |rs|)
  {
    forall k | 0 <= k < |rs| ensures !Suspended(limit, rs, k) {
      ModestPasses(limit, rs, k);
    }
    AllPassed(limit, rs, |rs|);
    AdmittedIsPassed(limit, rs, |rs|);
    assert rs[|rs|..] == [];
  }
}
