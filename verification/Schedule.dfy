/** The thinning retransmission schedule: the send table of src/config.c and its use in src/net.c. */
module Schedule {
  import opened Common
  import opened Sender

  function Pow(b: nat, k: nat): nat {
    if k == 0 then 1 else b * Pow(b, k - 1)
  }

  /** `i` is a power of `f` with a positive exponent. */
  ghost predicate IsPower(f: nat, i: nat) {
    exists k :: 1 <= k && Pow(f, k) == i
  }

  lemma PowDoubles(f: nat, k: nat)
    requires f >= 2
    ensures Pow(f, k + 1) >= 2 * Pow(f, k)
  {
    var p := Pow(f, k);
    assert f * p >= 2 * p;
  }

  lemma {:induction false} PowExceeds(f: nat, k: nat)
    requires f >= 2
    ensures k < Pow(f, k)
  {
    if k > 0 {
      PowExceeds(f, k - 1);
      PowDoubles(f, k - 1);
    }
  }

  lemma {:induction false} PowGrows(f: nat, j: nat, k: nat)
    requires f >= 2 && j <= k
    ensures Pow(f, j) <= Pow(f, k)
    ensures j < k ==> Pow(f, j) < Pow(f, k)
  {
    if j < k {
      PowGrows(f, j, k - 1);
      PowExceeds(f, k - 1);
      PowDoubles(f, k - 1);
    }
  }

  /** Between two consecutive powers there is none. */
  lemma NoPowerBetween(f: nat, i: nat, m: nat)
    requires f >= 2 && m >= 1 && i < Pow(f, m) && (m == 1 || Pow(f, m - 1) < i)
    ensures !IsPower(f, i)
  {
    forall k | 1 <= k ensures Pow(f, k) != i {
      if k < m {
        PowGrows(f, k, m - 1);
      } else {
        PowGrows(f, m, k);
      }
    }
  }

  /** The first power of `f`, with a positive exponent, that is not below `n`. */
  ghost predicate FirstPower(f: nat, n: nat, x: nat) {
    exists k: nat :: 1 <= k && x == Pow(f, k) && n <= x && (k == 1 || Pow(f, k - 1) < n)
  }

  /** Fills the table; both settings must be at least 2. The step grows to `largest`, so that the C `int` holding
      it does not overflow exactly when that power is below 2^31. */
  method SendTable(retry: int, factor: int) returns (table: Option<seq<bool>>, ghost largest: nat)
    ensures table.None? <==> retry < 2 || factor < 2
    ensures table.Some? ==>
      && |table.value| == retry
      && (forall i :: 0 <= i < retry ==> (table.value[i] <==> i == 0 || IsPower(factor, i)))
      && FirstPower(factor, retry, largest)
  {
    largest := 0;
    if retry < 2 || factor < 2 {
      return None, largest;
    }
    var t := new bool[retry];
    t[0] := true;
    var step := factor;
    ghost var m := 1;
    assert step == Pow(factor, m) by {
      assert Pow(factor, 0) == 1;
    }
    for i := 1 to retry
      invariant m >= 1 && step == Pow(factor, m)
      invariant i <= step && (m == 1 || Pow(factor, m - 1) < i)
      invariant t[0]
      invariant forall k :: 1 <= k < i ==> (t[k] <==> IsPower(factor, k))
    {
      if i == step {
        t[i] := true;
        step := step * factor;
        m := m + 1;
        PowGrows(factor, m - 1, m);
      } else {
        NoPowerBetween(factor, i, m);
        t[i] := false;
      }
    }
    table, largest := Some(t[..]), step;
  }

  // ----- How often a packet is sent that nobody acknowledges

  /** The configuration's table is the one for this factor. */
  ghost predicate TableFor(cfg: Config, factor: nat) {
    && cfg.Valid() && factor >= 2
    && forall i :: 0 <= i < cfg.sendRetry ==> (cfg.table[i] <==> i == 0 || IsPower(factor, i))
  }

  /** Number of the first `n` passes on which the packet is selected for sending. */
  function Sends(cfg: Config, n: nat): nat
    requires cfg.Valid()
  {
    if n == 0 then 0 else Sends(cfg, n - 1) + if Attempt(cfg, n - 1) == SendNow then 1 else 0
  }

  /** Exponents of the positive powers of `f` below `n`. */
  ghost function Exponents(f: nat, n: nat): set<nat> {
    set k: nat | 1 <= k < n && Pow(f, k) < n
  }

  lemma ExponentsStep(f: nat, n: nat)
    requires f >= 2 && n >= 1
    ensures |Exponents(f, n + 1)| == |Exponents(f, n)| + if IsPower(f, n) then 1 else 0
  {
    if IsPower(f, n) {
      var m :| 1 <= m && Pow(f, m) == n;
      forall k: nat ensures k in Exponents(f, n + 1) <==> k in Exponents(f, n) || k == m {
        PowExceeds(f, k);
        if k < m {
          PowGrows(f, k, m);
        } else if m < k {
          PowGrows(f, m, k);
        }
      }
      assert Exponents(f, n + 1) == Exponents(f, n) + {m};
    } else {
      forall k: nat ensures k in Exponents(f, n + 1) <==> k in Exponents(f, n) {
        PowExceeds(f, k);
      }
      assert Exponents(f, n + 1) == Exponents(f, n);
    }
  }

  /** Below the limit the table is read at the attempt number itself. */
  lemma AttemptReadsTable(cfg: Config, attempt: nat)
    requires cfg.Valid() && attempt < cfg.sendRetry
    ensures Attempt(cfg, attempt) == if cfg.table[attempt] then SendNow else Skip
  {
    SmallMod(attempt, cfg.sendRetry);
  }

  lemma SmallMod(a: nat, n: nat)
    requires a < n
    ensures a % n == a
  {
  }

  lemma {:induction false} SendsSoFar(cfg: Config, f: nat, n: nat)
    requires TableFor(cfg, f) && 1 <= n <= cfg.sendRetry
    ensures Sends(cfg, n) == 1 + |Exponents(f, n)|
  {
    AttemptReadsTable(cfg, n - 1);
    if n == 1 {
      assert Exponents(f, 1) == {};
      assert Sends(cfg, 0) == 0;
    } else {
      SendsSoFar(cfg, f, n - 1);
      ExponentsStep(f, n - 1);
    }
  }

  /** A packet that is never acknowledged stays queued for `sendRetry` passes, is selected on one of them
      for each power below the limit and once more, and is given up on the pass after. */
  lemma UnacknowledgedPacket(cfg: Config, f: nat)
    requires TableFor(cfg, f)
    ensures forall a: nat :: a < cfg.sendRetry ==> Attempt(cfg, a) != Expired
    ensures Attempt(cfg, cfg.sendRetry) == Expired
    ensures Sends(cfg, cfg.sendRetry + 1) == 1 + |Exponents(f, cfg.sendRetry)|
  {
    SendsSoFar(cfg, f, cfg.sendRetry);
  }

  /** Attempts are counted one by one: `n` visits without an acknowledgement leave the count at `n`, and
      the packet in its place, as long as it is not given up. */
  lemma {:induction false} VisitsCount(cfg: Config, s: State, i: nat, n: nat)
    requires cfg.Valid() && i < |s.queue| && s.queue[i].attempt == 0 && n <= cfg.sendRetry
    ensures Visits(cfg, s, i, n) == s.(queue := s.queue[i := Queued(s.queue[i].packet, n)])
  {
    if n > 0 {
      VisitsCount(cfg, s, i, n - 1);
      VisitsNext(cfg, s, i, n - 1);
      VisitCounts(cfg, s, i, n - 1);
    } else {
      assert s.queue[i := Queued(s.queue[i].packet, 0)] == s.queue;
    }
  }

  lemma VisitsNext(cfg: Config, s: State, i: nat, n: nat)
    requires cfg.Valid() && i < |Visits(cfg, s, i, n).queue|
    ensures Visits(cfg, s, i, n + 1) == Visit(cfg, Visits(cfg, s, i, n), i).0
  {
  }

  /** A visit below the limit only counts. */
  lemma VisitCounts(cfg: Config, s: State, i: nat, n: nat)
    requires cfg.Valid() && i < |s.queue| && n < cfg.sendRetry
    ensures var p := s.queue[i].packet;
            Visit(cfg, s.(queue := s.queue[i := Queued(p, n)]), i).0 == s.(queue := s.queue[i := Queued(p, n + 1)])
  {
    var p := s.queue[i].packet;
    assert s.queue[i := Queued(p, n)][i := Queued(p, n + 1)] == s.queue[i := Queued(p, n + 1)];
  }

  /** `n` visits to queue position `i`, as long as the position exists. */
  function Visits(cfg: Config, s: State, i: nat, n: nat): State
    requires cfg.Valid()
  {
    if n == 0 then s else
    var s1 := Visits(cfg, s, i, n - 1);
    if i < |s1.queue| then Visit(cfg, s1, i).0 else s1
  }
}
