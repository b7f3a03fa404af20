/** Which CPUs the datapath threads run on, and which socket each receive thread reads. */
module CpuSpread {
  const CPU_SETSIZE := 1024
  const CPU_SLOW_TIER_NUM := 85
  const CPU_SLOW_TIER_DEN := 100
  const UDP_MAX_RX_THREADS := 16

  /** allowed is the affinity mask, empty when it cannot be read; khz the speed of each core, 0 when
      the kernel does not say. */
  datatype Host = Host(allowed: seq<bool>, khz: seq<nat>)

  predicate Proper(h: Host) {
    |h.allowed| == CPU_SETSIZE == |h.khz|
  }

  function CpusBelow(h: Host, n: nat): seq<int>
    requires Proper(h) && n <= CPU_SETSIZE
  {
    if n == 0 then []
    else if h.allowed[n - 1] then CpusBelow(h, n - 1) + [n - 1]
    else CpusBelow(h, n - 1)
  }

  ghost predicate OnlyAllowed(h: Host, n: nat, s: seq<int>)
    requires Proper(h) && n <= CPU_SETSIZE
  {
    forall i :: 0 <= i < |s| ==> 0 <= s[i] < n && h.allowed[s[i]]
  }

  ghost predicate EveryAllowed(h: Host, n: nat, s: seq<int>)
    requires Proper(h) && n <= CPU_SETSIZE
  {
    forall c :: 0 <= c < n && h.allowed[c] ==> c in s
  }

  ghost predicate Increasing(s: seq<int>) {
    forall i, j :: 0 <= i < j < |s| ==> s[i] < s[j]
  }

  lemma {:induction false} CpusBelowAre(h: Host, n: nat)
    requires Proper(h) && n <= CPU_SETSIZE
    ensures OnlyAllowed(h, n, CpusBelow(h, n)) && EveryAllowed(h, n, CpusBelow(h, n)) && Increasing(CpusBelow(h, n))
  {
    if n > 0 {
      var s := CpusBelow(h, n - 1);
      CpusBelowAre(h, n - 1);
      StillAllowed(h, n, s);
      StillEvery(h, n, s);
    }
  }

  lemma StillAllowed(h: Host, n: nat, s: seq<int>)
    requires Proper(h) && 0 < n <= CPU_SETSIZE && OnlyAllowed(h, n - 1, s) && Increasing(s)
    ensures OnlyAllowed(h, n, s) && Increasing(s + [n - 1]) && (h.allowed[n - 1] ==> OnlyAllowed(h, n, s + [n - 1]))
  {}

  lemma StillEvery(h: Host, n: nat, s: seq<int>)
    requires Proper(h) && 0 < n <= CPU_SETSIZE && EveryAllowed(h, n - 1, s)
    ensures EveryAllowed(h, n, s + [n - 1]) && (!h.allowed[n - 1] ==> EveryAllowed(h, n, s))
  {
    assert (s + [n - 1])[|s|] == n - 1;
    assert forall c :: c in s ==> c in s + [n - 1];
  }

  /** The allowed CPUs in order. */
  function Cpus(h: Host): (s: seq<int>)
    requires Proper(h)
    ensures OnlyAllowed(h, CPU_SETSIZE, s) && EveryAllowed(h, CPU_SETSIZE, s) && Increasing(s)
  {
    CpusBelowAre(h, |h.allowed|);
    CpusBelow(h, |h.allowed|)
  }

  /** A core is slow if it runs below 85 percent of the fastest. */
  predicate Slow(h: Host, fastest: nat, c: int)
    requires Proper(h) && 0 <= c < CPU_SETSIZE
  {
    h.allowed[c] && 0 < h.khz[c] < fastest * CPU_SLOW_TIER_NUM / CPU_SLOW_TIER_DEN
  }

  /** In whole numbers: known to be at most 85 of 100 parts of the fastest, less one kilohertz. */
  lemma SlowIff(h: Host, fastest: nat, c: int)
    requires Proper(h) && 0 <= c < CPU_SETSIZE
    ensures Slow(h, fastest, c) <==> h.allowed[c] && h.khz[c] > 0 && 100 * (h.khz[c] + 1) <= 85 * fastest
  {}

  predicate IsFastest(h: Host, fastest: nat)
    requires Proper(h)
  {
    (forall c :: 0 <= c < CPU_SETSIZE && h.allowed[c] ==> h.khz[c] <= fastest)
    && (fastest > 0 ==> exists c :: 0 <= c < CPU_SETSIZE && h.allowed[c] && h.khz[c] == fastest)
  }

  method CpuCount(h: Host) returns (n: nat)
    requires Proper(h)
    ensures n == |Cpus(h)|
  {
    n := 0;
    for c := 0 to |h.allowed|
      invariant n == |CpusBelow(h, c)|
    {
      if h.allowed[c] { n := n + 1; }
    }
  }

  /** The lowest allowed core, and the speed of the fastest. */
  method Survey(h: Host) returns (lowest: int, fastest: nat)
    requires Proper(h)
    ensures IsFastest(h, fastest)
    ensures if lowest == -1 then forall b :: 0 <= b < CPU_SETSIZE ==> !h.allowed[b] else IsLowest(h, lowest)
  {
    lowest, fastest := -1, 0;
    for c := 0 to CPU_SETSIZE
      invariant lowest == -1 ==> forall b :: 0 <= b < c ==> !h.allowed[b]
      invariant lowest != -1 ==> 0 <= lowest < c && IsLowest(h, lowest)
      invariant forall b :: 0 <= b < c && h.allowed[b] ==> h.khz[b] <= fastest
      invariant fastest > 0 ==> exists b :: 0 <= b < c && h.allowed[b] && h.khz[b] == fastest
    {
      if h.allowed[c] {
        if lowest < 0 { lowest := c; }
        if h.khz[c] > fastest { fastest := h.khz[c]; }
      }
    }
  }

  predicate IsLowest(h: Host, c: int)
    requires Proper(h)
  {
    0 <= c < CPU_SETSIZE && h.allowed[c] && forall b :: 0 <= b < c ==> !h.allowed[b]
  }

  predicate IsLowestSlow(h: Host, fastest: nat, c: int)
    requires Proper(h)
  {
    0 <= c < CPU_SETSIZE && Slow(h, fastest, c) && forall b :: 0 <= b < c ==> !Slow(h, fastest, b)
  }

  /** The lowest slow core if there is one, else the lowest core. */
  ghost predicate IsControl(h: Host, cpu: int)
    requires Proper(h)
  {
    exists fastest: nat :: IsFastest(h, fastest) &&
      (IsLowestSlow(h, fastest, cpu) || (IsLowest(h, cpu) && forall c :: 0 <= c < CPU_SETSIZE ==> !Slow(h, fastest, c)))
  }

  lemma OneControl(h: Host, a: int, b: int)
    requires Proper(h) && IsControl(h, a) && IsControl(h, b)
    ensures a == b
  {
    var f: nat :| IsFastest(h, f) && (IsLowestSlow(h, f, a) || (IsLowest(h, a) && forall c :: 0 <= c < CPU_SETSIZE ==> !Slow(h, f, c)));
    var g: nat :| IsFastest(h, g) && (IsLowestSlow(h, g, b) || (IsLowest(h, b) && forall c :: 0 <= c < CPU_SETSIZE ==> !Slow(h, g, c)));
    assert f == g;
  }

  /** -1 on a host with one CPU. */
  method ControlCpu(h: Host) returns (cpu: int)
    requires Proper(h)
    ensures cpu == -1 <==> |Cpus(h)| < 2
    ensures cpu != -1 ==> cpu in Cpus(h) && IsControl(h, cpu)
  {
    var n := CpuCount(h);
    if n < 2 {
      return -1;
    }
    var lowest, top := Survey(h);
    assert lowest != -1 by { assert Cpus(h)[0] in Cpus(h); }
    if top == 0 {
      return lowest;
    }
    var tier := top * CPU_SLOW_TIER_NUM / CPU_SLOW_TIER_DEN;
    for c := 0 to CPU_SETSIZE
      invariant forall b :: 0 <= b < c ==> !Slow(h, top, b)
    {
      if h.allowed[c] && h.khz[c] > 0 && h.khz[c] < tier {
        return c;
      }
    }
    cpu := lowest;
  }

  /** pool, over and over, n times in all. */
  function Spread(pool: seq<int>, n: nat): (s: seq<int>)
    requires pool != []
    ensures |s| == n
  {
    seq(n, i requires 0 <= i => pool[i % |pool|])
  }

  /** Every allowed CPU but the control plane's, in order. */
  ghost predicate IsPool(h: Host, pool: seq<int>)
    requires Proper(h)
  {
    && Increasing(pool)
    && exists control :: IsControl(h, control) && control !in pool && forall c :: c in Cpus(h) <==> c == control || c in pool
  }

  method Pool(h: Host) returns (pool: seq<int>)
    requires Proper(h) && |Cpus(h)| >= 2
    ensures pool != [] && IsPool(h, pool)
  {
    var control := ControlCpu(h);
    pool := [];
    for c := 0 to CPU_SETSIZE
      invariant forall i, j :: 0 <= i < j < |pool| ==> pool[i] < pool[j]
      invariant forall i :: 0 <= i < |pool| ==> pool[i] < c
      invariant forall b :: b in pool <==> 0 <= b < c && h.allowed[b] && b != control
    {
      if h.allowed[c] && c != control { pool := pool + [c]; }
    }
    PoolNotEmpty(h, control, pool);
  }

  lemma PoolNotEmpty(h: Host, control: int, cpus: seq<int>)
    requires Proper(h) && |Cpus(h)| >= 2 && forall b :: b in cpus <==> 0 <= b < CPU_SETSIZE && h.allowed[b] && b != control
    ensures cpus != []
  {
    var a, b := Cpus(h)[0], Cpus(h)[1];
    assert a != b && (a in cpus || b in cpus);
  }

  /** A host has one pool. */
  lemma OnePool(h: Host, p: seq<int>, q: seq<int>)
    requires Proper(h) && IsPool(h, p) && IsPool(h, q)
    ensures p == q
  {
    hide IsControl, Increasing;
    var a :| IsControl(h, a) && a !in p && forall c :: c in Cpus(h) <==> c == a || c in p;
    var b :| IsControl(h, b) && b !in q && forall c :: c in Cpus(h) <==> c == b || c in q;
    OneControl(h, a, b);
    SameElements(p, q);
  }

  lemma {:induction false} SameElements(a: seq<int>, b: seq<int>)
    requires Increasing(a) && Increasing(b) && forall x :: x in a <==> x in b
    ensures a == b
  {
    if b == [] {
      NoElements(a, b);
    } else if a == [] {
      NoElements(b, a);
    } else {
      Lowest(a);
      Lowest(b);
      assert a[0] in a && b[0] in b && a[0] in b && b[0] in a;
      SameElements(a[1..], b[1..]);
    }
  }

  lemma NoElements(a: seq<int>, b: seq<int>)
    requires forall x :: x in a ==> x in b
    ensures b == [] ==> a == []
  {
    if a != [] {
      var x := a[0];
      assert x in a && x in b;
    }
  }

  lemma Lowest(a: seq<int>)
    requires Increasing(a) && a != []
    ensures Increasing(a[1..]) && forall x :: x in a ==> a[0] <= x
    ensures forall x :: x in a[1..] <==> x in a && x != a[0]
  {
    assert a == [a[0]] + a[1..];
    forall i | 0 <= i < |a[1..]| ensures a[0] < a[1..][i] {}
  }

  lemma ControlNotInPool(h: Host, pool: seq<int>, control: int)
    requires Proper(h) && IsPool(h, pool) && IsControl(h, control)
    ensures control !in pool
  {
    hide IsControl;
    var a :| IsControl(h, a) && a !in pool && forall c :: c in Cpus(h) <==> c == a || c in pool;
    OneControl(h, a, control);
  }

  function Turns(n: int): nat {
    if n < 0 then 0 else n
  }

  /** What one call answers, and the pool it leaves; the pool of the first call that finds CPUs to
      spare stays for good. */
  ghost predicate Answered(pool: seq<int>, h: Host, n: int, pool': seq<int>, out: seq<int>) {
    && Proper(h)
    && (if pool != [] then pool' == pool else if |Cpus(h)| < 2 then pool' == [] else pool' != [] && IsPool(h, pool'))
    && out == (if pool' == [] then [] else Spread(pool', Turns(n)))
  }

  class DatapathPool {
    var pool: seq<int>

    constructor ()
      ensures pool == []
    {
      pool := [];
    }

    method DatapathCpus(h: Host, n: int) returns (out: seq<int>)
      requires Proper(h)
      modifies this
      ensures Answered(old(pool), h, n, pool, out)
    {
      hide IsPool;
      out := [];
      if pool == [] {
        var count := CpuCount(h);
        if count < 2 {
          return;
        }
        pool := Pool(h);
      }
      for i := 0 to Turns(n)
        invariant out == Spread(pool, i)
      {
        out := out + [pool[i % |pool|]];
      }
    }
  }

  datatype Ask = Ask(h: Host, n: int)

  /** Calls one after the other: asks, their answers, and the pool before and after each. */
  ghost predicate Asked(pools: seq<seq<int>>, asks: seq<Ask>, outs: seq<seq<int>>) {
    && |outs| == |asks| && |pools| == |asks| + 1 && pools[0] == []
    && forall i :: 0 <= i < |asks| ==> AskedAt(pools, asks, outs, i)
  }

  ghost predicate AskedAt(pools: seq<seq<int>>, asks: seq<Ask>, outs: seq<seq<int>>, i: nat)
    requires |outs| == |asks| && |pools| == |asks| + 1 && i < |asks|
  {
    Answered(pools[i], asks[i].h, asks[i].n, pools[i + 1], outs[i])
  }

  /** Of two calls, in whatever order and however the mask changes in between, the one that asks for
      no more gets a prefix of the other's answer, unless the other alone came before there was a pool.
      On an unchanged host that cannot be. */
  lemma EveryAnswerIsPrefix(pools: seq<seq<int>>, asks: seq<Ask>, outs: seq<seq<int>>, i: nat, j: nat)
    requires Asked(pools, asks, outs) && i < |asks| && j < |asks| && asks[i].n <= asks[j].n
    ensures outs[i] <= outs[j] <==> outs[i] == [] || outs[j] != []
    ensures i <= j || (forall k :: 0 <= k < |asks| ==> asks[k].h == asks[j].h) ==> outs[i] <= outs[j]
  {
    hide IsPool;
    assert AskedAt(pools, asks, outs, i) && AskedAt(pools, asks, outs, j);
    if pools[i + 1] != [] && pools[j + 1] != [] {
      PoolsAgree(pools, asks, outs, i + 1, j + 1);
    } else if pools[i + 1] != [] && i <= j {
      PoolsAgree(pools, asks, outs, i + 1, j + 1);
    } else if pools[i + 1] != [] && forall k :: 0 <= k < |asks| ==> asks[k].h == asks[j].h {
      NeverAPool(pools, asks, outs, asks[j].h, i + 1);
    }
  }

  /** Once there is a pool it stays. */
  lemma {:induction false} PoolStays(pools: seq<seq<int>>, asks: seq<Ask>, outs: seq<seq<int>>, i: nat, j: nat)
    requires Asked(pools, asks, outs) && i <= j < |pools| && pools[i] != []
    ensures pools[j] == pools[i]
    decreases j
  {
    hide IsPool;
    if i < j {
      PoolStays(pools, asks, outs, i, j - 1);
      assert AskedAt(pools, asks, outs, j - 1);
    }
  }

  lemma PoolsAgree(pools: seq<seq<int>>, asks: seq<Ask>, outs: seq<seq<int>>, i: nat, j: nat)
    requires Asked(pools, asks, outs) && i < |pools| && j < |pools| && pools[i] != []
    ensures i <= j || pools[j] != [] ==> pools[j] == pools[i]
  {
    hide Asked;
    if i <= j {
      PoolStays(pools, asks, outs, i, j);
    } else if pools[j] != [] {
      PoolStays(pools, asks, outs, j, i);
    }
  }

  lemma {:induction false} NeverAPool(pools: seq<seq<int>>, asks: seq<Ask>, outs: seq<seq<int>>, h: Host, i: nat)
    requires Asked(pools, asks, outs) && i < |pools| && Proper(h) && |Cpus(h)| < 2 && forall k :: 0 <= k < |asks| ==> asks[k].h == h
    ensures pools[i] == []
    decreases i
  {
    hide IsPool;
    if i > 0 {
      NeverAPool(pools, asks, outs, h, i - 1);
      assert AskedAt(pools, asks, outs, i - 1);
    }
  }

  /** No answer names the control CPU of the host the pool was taken from. */
  lemma ControlIsSpared(pools: seq<seq<int>>, asks: seq<Ask>, outs: seq<seq<int>>, taken: nat, control: int, i: nat)
    requires Asked(pools, asks, outs) && taken < |asks| && pools[taken] == [] && pools[taken + 1] != []
    requires Proper(asks[taken].h) && IsControl(asks[taken].h, control) && i < |asks|
    ensures control !in outs[i]
  {
    hide IsControl;
    assert AskedAt(pools, asks, outs, taken) && AskedAt(pools, asks, outs, i);
    ControlNotInPool(asks[taken].h, pools[taken + 1], control);
    PoolsAgree(pools, asks, outs, taken + 1, i + 1);
  }

  /** How often the j-th of k is used among the first n turns. */
  function Uses(n: nat, k: nat, j: nat): nat
    requires k > 0
  {
    if n == 0 then 0 else Uses(n - 1, k, j) + if (n - 1) % k == j then 1 else 0
  }

  lemma {:induction false} UsesAre(n: nat, k: nat, j: nat)
    requires j < k
    ensures Uses(n, k, j) == n / k + if j < n % k then 1 else 0
  {
    if n > 0 {
      UsesAre(n - 1, k, j);
      NextTurn(n - 1, k);
    }
  }

  lemma NextTurn(m: nat, k: nat)
    requires k > 0
    ensures if m % k == k - 1 then (m + 1) / k == m / k + 1 && (m + 1) % k == 0 else (m + 1) / k == m / k && (m + 1) % k == m % k + 1
  {
    var q, r := m / k, m % k;
    assert m == k * q + r;
    if r == k - 1 {
      assert m + 1 == k * (q + 1);
      Division(m + 1, k, q + 1, 0);
    } else {
      Division(m + 1, k, q, r + 1);
    }
  }

  lemma Division(x: nat, k: nat, q: nat, r: nat)
    requires k > 0 && x == k * q + r && r < k
    ensures x / k == q && x % k == r
  {
    var q', r' := x / k, x % k;
    assert x == k * q' + r' && k * (q - q') == r' - r && k * (q' - q) == r - r';
    if q > q' { AtLeast(k, q - q'); } else if q < q' { AtLeast(k, q' - q); }
  }

  lemma AtLeast(k: nat, d: nat)
    requires d >= 1
    ensures k * d >= k
  {}

  function Occurrences(s: seq<int>, c: int): nat {
    multiset(s)[c]
  }

  lemma {:induction false} SpreadUses(pool: seq<int>, n: nat, j: nat)
    requires pool != [] && (forall a, b :: 0 <= a < b < |pool| ==> pool[a] != pool[b]) && j < |pool|
    ensures Occurrences(Spread(pool, n), pool[j]) == Uses(n, |pool|, j)
  {
    if n == 0 {
      assert Spread(pool, 0) == [];
    } else {
      SpreadUses(pool, n - 1, j);
      var last := (n - 1) % |pool|;
      assert Spread(pool, n) == Spread(pool, n - 1) + [pool[last]];
      assert last != j ==> pool[last] != pool[j];
    }
  }

  /** The turns are taken evenly, by CPUs and by sockets alike; a longer list only adds turns. */
  lemma SpreadIsEven(pool: seq<int>, n: nat, m: nat, i: nat, j: nat)
    requires pool != [] && (forall a, b :: 0 <= a < b < |pool| ==> pool[a] != pool[b]) && i < |pool| && j < |pool| && n <= m
    ensures -1 <= Occurrences(Spread(pool, n), pool[i]) - Occurrences(Spread(pool, n), pool[j]) <= 1
    ensures n >= |pool| ==> Occurrences(Spread(pool, n), pool[i]) >= 1
    ensures Spread(pool, n) <= Spread(pool, m) && forall k :: 0 <= k < n ==> Spread(pool, n)[k] in pool
  {
    SpreadUses(pool, n, i);
    SpreadUses(pool, n, j);
    UsesAre(n, |pool|, i);
    UsesAre(n, |pool|, j);
    if n >= |pool| { AtLeastOnce(n, |pool|); }
  }

  lemma AtLeastOnce(n: nat, k: nat)
    requires 0 < k <= n
    ensures n / k >= 1
  {
    assert n == k * (n / k) + n % k;
  }

  /** Sockets, and which of them each receive thread reads. clones holds what clone_socket
      returns, call by call; a negative value ends the cloning. */
  method StartReceive(socket: int, nRx: int, clones: seq<int>) returns (sockets: seq<int>, readers: seq<int>)
    requires |clones| >= UDP_MAX_RX_THREADS
    requires forall i, j :: 0 <= i < j < |clones| && clones[i] >= 0 ==> clones[i] != clones[j]
    requires forall i :: 0 <= i < |clones| ==> clones[i] != socket
    ensures sockets != [] && sockets[0] == socket && |sockets| <= |readers| && readers == Spread(sockets, |readers|)
    ensures |readers| == if nRx < 1 then 1 else if nRx > 16 then 16 else nRx
    ensures forall a, b :: 0 <= a < b < |sockets| ==> sockets[a] != sockets[b]
  {
    var n := nRx;
    if n < 1 { n := 1; }
    if n > UDP_MAX_RX_THREADS { n := UDP_MAX_RX_THREADS; }
    sockets := [socket];
    for i := 1 to n
      invariant |sockets| == i && sockets == [socket] + clones[..i - 1]
      invariant forall k :: 0 <= k < i - 1 ==> clones[k] >= 0
    {
      var sd := clones[i - 1];
      if sd < 0 {
        break;
      }
      sockets := sockets + [sd];
    }
    readers := [];
    for i := 0 to n
      invariant readers == Spread(sockets, i)
    {
      readers := readers + [sockets[i % |sockets|]];
    }
  }

  /** Hence every socket has a reader, and the loads differ by at most one. */
  lemma EverySocketIsRead(sockets: seq<int>, readers: seq<int>, i: nat, j: nat)
    requires sockets != [] && |sockets| <= |readers| && readers == Spread(sockets, |readers|)
    requires (forall a, b :: 0 <= a < b < |sockets| ==> sockets[a] != sockets[b]) && i < |sockets| && j < |sockets|
    ensures sockets[i] in readers
    ensures -1 <= Occurrences(readers, sockets[i]) - Occurrences(readers, sockets[j]) <= 1
  {
    SpreadIsEven(sockets, |readers|, |readers|, i, j);
    assert multiset(readers)[sockets[i]] >= 1;
  }
}
