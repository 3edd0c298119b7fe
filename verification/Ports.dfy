/**
 The live-port pool of src/video/ports.rs: a wrapping 16-bit counter walked over
 `[base, base + count)`, and the set of ports handed out.
 */
module Ports {
  import opened Bytes

  /** Outcome of the throwaway bind on a port, by attempt; it may change from one attempt to the next. */
  type Binds = (nat, nat) -> bool

  datatype Pool = Pool(base: nat, count: nat, next: nat, inUse: set<nat>) {
    predicate Inv() {
      base < U16 && 1 <= count < U16 && next < U16
    }

    /** The 16-bit counter after `k` attempts. */
    function Counter(k: nat): nat {
      (next + k) % U16
    }

    /** The port tried at attempt `k` of a call. */
    function Candidate(k: nat): nat
      requires Inv()
    {
      (base + Counter(k) % count) % U16
    }

    predicate Free(binds: Binds, k: nat)
      requires Inv()
    {
      Candidate(k) !in inUse && binds(k, Candidate(k))
    }

    /** The first attempt from `k` on that succeeds, or `count`. */
    function FirstFree(binds: Binds, k: nat): (r: nat)
      requires Inv() && k <= count
      ensures k <= r <= count
      ensures forall i :: k <= i < r ==> !Free(binds, i)
      ensures r < count ==> Free(binds, r)
      decreases count - k
    {
      if k == count || Free(binds, k) then k else FirstFree(binds, k + 1)
    }

    function Alloc(binds: Binds): (Pool, Option<nat>)
      requires Inv()
    {
      var k := FirstFree(binds, 0);
      if k == count then (this.(next := Counter(count)), None)
      else (this.(next := Counter(k + 1), inUse := inUse + {Candidate(k)}), Some(Candidate(k)))
    }

    function Release(port: nat): Pool {
      this.(inUse := inUse - {port})
    }

    /** First and last port, the last one saturating at the end of the port space. */
    function Range(): (nat, nat)
      requires count >= 1
    {
      (base, if base + count - 1 < U16 then base + count - 1 else U16 - 1)
    }

    predicate InRange(port: nat)
      requires count >= 1
    {
      Range().0 <= port <= Range().1
    }

    /** Port `j` of the range, in the 16-bit port space. */
    function RangePort(j: nat): nat {
      (base + j) % U16
    }

    /** Some attempt of the next call tries port `j` of the range. */
    ghost predicate Tries(j: nat)
      requires Inv()
    {
      exists k :: 0 <= k < count && Candidate(k) == RangePort(j)
    }
  }

  class PortPool {
    const base: nat
    const count: nat
    var next: nat
    var inUse: set<nat>

    function State(): Pool
      reads this
    {
      Pool(base, count, next, inUse)
    }

    ghost predicate Valid()
      reads this
    {
      State().Inv()
    }

    /** A count of zero becomes one. */
    constructor (base: nat, count: nat)
      requires base < U16 && count < U16
      ensures Valid() && State() == Pool(base, if count == 0 then 1 else count, 0, {})
    {
      this.base := base;
      this.count := if count == 0 then 1 else count;
      next, inUse := 0, {};
    }

    method Alloc(binds: Binds) returns (port: Option<nat>)
      requires Valid()
      modifies this
      ensures Valid()
      ensures (State(), port) == old(State()).Alloc(binds)
    {
      hide Pool.Candidate, Pool.Counter, Pool.FirstFree;
      ghost var p := State();
      CounterStart(p);
      for k := 0 to count
        invariant next == p.Counter(k) && inUse == p.inUse
        invariant p.FirstFree(binds, 0) == p.FirstFree(binds, k)
      {
        AttemptStep(p, binds, k);
        var start := next;
        next := (next + 1) % U16;
        var candidate := (base + start % count) % U16;
        if candidate in inUse {
          continue;
        }
        if binds(k, candidate) {
          inUse := inUse + {candidate};
          return Some(candidate);
        }
      }
      NoAttemptLeft(p, binds);
      return None;
    }

    method Release(port: nat)
      requires Valid()
      modifies this
      ensures Valid()
      ensures State() == old(State()).Release(port)
    {
      inUse := inUse - {port};
    }

    function Range(): (bounds: (nat, nat))
      requires count >= 1
      reads this
      ensures bounds == State().Range()
    {
      (base, if base + count - 1 < U16 then base + count - 1 else U16 - 1)
    }
  }

  lemma CounterStart(p: Pool)
    requires p.Inv()
    ensures p.Counter(0) == p.next
  {
  }

  lemma AttemptStep(p: Pool, binds: Binds, k: nat)
    requires p.Inv() && k < p.count
    ensures (p.Counter(k) + 1) % U16 == p.Counter(k + 1)
    ensures (p.base + p.Counter(k) % p.count) % U16 == p.Candidate(k)
    ensures p.FirstFree(binds, k) == if p.Free(binds, k) then k else p.FirstFree(binds, k + 1)
  {
    hide Pool.Free;
    CounterStep(p.next + k);
  }

  lemma NoAttemptLeft(p: Pool, binds: Binds)
    requires p.Inv()
    ensures p.FirstFree(binds, p.count) == p.count && p.Counter(p.count) < U16
  {
  }

  lemma CounterStep(x: nat)
    ensures (x % U16 + 1) % U16 == (x + 1) % U16
  {
  }

  // ----- Modular arithmetic with a variable modulus -----

  lemma ModShift(x: nat, m: nat, q: nat)
    requires m > 0
    ensures (x + q * m) % m == x % m
  {
    assert x + q * m == (x / m + q) * m + x % m;
    ModIs(x + q * m, m, x / m + q, x % m);
  }

  /** Adding less than the modulus wraps at most once. */
  lemma ModStep(x: nat, k: nat, m: nat)
    requires k < m
    ensures (x + k) % m == if x % m + k < m then x % m + k else x % m + k - m
  {
    var (a, b) := (x / m, x % m);
    if b + k < m {
      ModIs(x + k, m, a, b + k);
    } else {
      assert x + k == (a + 1) * m + (b + k - m);
      ModIs(x + k, m, a + 1, b + k - m);
    }
  }

  // ----- Which ports one call tries -----

  /** The call does not wrap the counter, or the wrap falls on a multiple of the range. */
  predicate Seamless(p: Pool)
    requires p.Inv()
  {
    p.next + p.count <= U16 || U16 % p.count == 0
  }

  lemma RangePortsDiffer(p: Pool, i: nat, j: nat)
    requires p.Inv() && i < p.count && j < p.count && p.RangePort(i) == p.RangePort(j)
    ensures i == j
  {
  }

  function Index(p: Pool, k: nat): nat
    requires p.Inv()
  {
    p.Counter(k) % p.count
  }

  lemma CandidateIndex(p: Pool, k: nat)
    requires p.Inv()
    ensures Index(p, k) < p.count && p.Candidate(k) == p.RangePort(Index(p, k))
  {
  }

  /** A seamless call only wraps when whole ranges fit the counter. */
  lemma SeamlessWrap(p: Pool, k: nat)
    requires p.Inv() && Seamless(p) && k < p.count && p.next + k >= U16
    ensures U16 == U16 / p.count * p.count && p.Counter(k) == p.next + k - U16
  {
  }

  lemma SeamlessIndex(p: Pool, k: nat)
    requires p.Inv() && Seamless(p) && k < p.count
    ensures Index(p, k) == (p.next + k) % p.count
  {
    hide Seamless;
    if p.next + k >= U16 {
      SeamlessWrap(p, k);
      ModShift(p.next + k - U16, p.count, U16 / p.count);
    }
  }

  /** Then port `j` is tried, at exactly one attempt. */
  lemma SeamlessTries(p: Pool, j: nat) returns (k: nat)
    requires p.Inv() && Seamless(p) && j < p.count
    ensures k < p.count && p.Candidate(k) == p.RangePort(j)
    ensures forall i :: 0 <= i < p.count && p.Candidate(i) == p.RangePort(j) ==> i == k
  {
    hide Pool.Candidate, Pool.RangePort, Seamless, Index;
    var r := p.next % p.count;
    k := if j >= r then j - r else j + p.count - r;
    forall i | 0 <= i < p.count
      ensures p.Candidate(i) == p.RangePort(j) <==> i == k
    {
      SeamlessIndex(p, i);
      ModStep(p.next, i, p.count);
      CandidateIndex(p, i);
      if p.Candidate(i) == p.RangePort(j) {
        RangePortsDiffer(p, Index(p, i), j);
      }
    }
  }

  /** Otherwise this port of the range is not tried at all. */
  function Missed(p: Pool): nat
    requires p.Inv()
  {
    var beforeWrap := U16 - p.next;
    var d := U16 % p.count;
    if p.count - beforeWrap > d then p.count - beforeWrap else d
  }

  lemma MissedByIndex(p: Pool, k: nat)
    requires p.Inv() && !Seamless(p) && k < p.count
    ensures Missed(p) < p.count && Index(p, k) != Missed(p)
  {
    var m := p.count;
    var j0 := U16 - p.next;
    var d := U16 % m;
    assert 1 <= j0 < m && 1 <= d < m;
    if k >= j0 {
      assert p.Counter(k) == k - j0;
      ModIs(k - j0, m, 0, k - j0);
    } else {
      assert p.Counter(k) == p.next + k;
      BeforeWrap(m, j0, k);
    }
  }

  lemma BeforeWrap(m: nat, j0: nat, k: nat)
    requires 1 <= m && k < j0 < m && j0 <= U16
    ensures var d := U16 % m;
            (U16 - j0 + k) % m == if d + k >= j0 then d + k - j0 else d + k + m - j0
  {
    var (q, d) := (U16 / m, U16 % m);
    assert U16 == q * m + d;
    if d + k >= j0 {
      ModIs(U16 - j0 + k, m, q, d + k - j0);
    } else {
      assert q >= 1;
      assert (q - 1) * m == q * m - m;
      ModIs(U16 - j0 + k, m, q - 1, d + k + m - j0);
    }
  }

  lemma WrapMisses(p: Pool, k: nat)
    requires p.Inv() && !Seamless(p) && k < p.count
    ensures Missed(p) < p.count
    ensures p.Candidate(k) != p.RangePort(Missed(p))
  {
    hide Index, Missed, Seamless;
    MissedByIndex(p, k);
    CandidateIndex(p, k);
    if p.Candidate(k) == p.RangePort(Missed(p)) {
      RangePortsDiffer(p, Index(p, k), Missed(p));
    }
  }

  /** One call tries every port of the range exactly when it is seamless. */
  lemma TriesEveryPortIff(p: Pool)
    requires p.Inv()
    ensures (forall j :: 0 <= j < p.count ==> p.Tries(j)) <==> Seamless(p)
  {
    if Seamless(p) {
      forall j | 0 <= j < p.count
        ensures p.Tries(j)
      {
        var k := SeamlessTries(p, j);
      }
    } else {
      assert Missed(p) < p.count by { WrapMisses(p, 0); }
      forall k | 0 <= k < p.count
        ensures p.Candidate(k) != p.RangePort(Missed(p))
      {
        WrapMisses(p, k);
      }
      assert !p.Tries(Missed(p));
    }
  }

  // ----- What `None` means -----

  /** An environment that does not change during a call. */
  function Steady(occupied: set<nat>): Binds {
    (k, port) => port !in occupied
  }

  predicate Exhausted(p: Pool, occupied: set<nat>) {
    forall j :: 0 <= j < p.count ==> p.RangePort(j) in p.inUse + occupied
  }

  /** The pool with other ports handed out. */
  function WithInUse(p: Pool, inUse: set<nat>): Pool {
    p.(inUse := inUse)
  }

  lemma NoneOnlyIfTriedPortsTaken(p: Pool, occupied: set<nat>, j: nat)
    requires p.Inv() && p.Alloc(Steady(occupied)).1.None? && p.Tries(j)
    ensures p.RangePort(j) in p.inUse + occupied
  {
    var k :| 0 <= k < p.count && p.Candidate(k) == p.RangePort(j);
    assert !p.Free(Steady(occupied), k);
  }

  /** Whatever changes during the call: after `None`, each port of the range was refused at its attempt. */
  lemma {:induction false} SeamlessNoneTriedAll(p: Pool, binds: Binds, j: nat) returns (k: nat)
    requires p.Inv() && Seamless(p) && p.Alloc(binds).1.None? && j < p.count
    ensures k < p.count && p.Candidate(k) == p.RangePort(j) && (p.RangePort(j) in p.inUse || !binds(k, p.RangePort(j)))
  {
    k := SeamlessTries(p, j);
    assert !p.Free(binds, k);
  }

  lemma ExhaustedGivesNone(p: Pool, occupied: set<nat>)
    requires p.Inv() && Exhausted(p, occupied)
    ensures p.Alloc(Steady(occupied)).1.None?
  {
    forall k | 0 <= k < p.count
      ensures !p.Free(Steady(occupied), k)
    {
      CandidateIndex(p, k);
      assert p.RangePort(Index(p, k)) in p.inUse + occupied;
    }
  }

  lemma SeamlessNoneIsExhausted(p: Pool, occupied: set<nat>)
    requires p.Inv() && Seamless(p) && p.Alloc(Steady(occupied)).1.None?
    ensures Exhausted(p, occupied)
  {
    hide Seamless, Pool.Alloc;
    TriesEveryPortIff(p);
    forall j | 0 <= j < p.count
      ensures p.RangePort(j) in p.inUse + occupied
    {
      NoneOnlyIfTriedPortsTaken(p, occupied, j);
    }
  }

  lemma SeamlessNoneIff(p: Pool, occupied: set<nat>)
    requires p.Inv() && Seamless(p)
    ensures p.Alloc(Steady(occupied)).1.None? <==> Exhausted(p, occupied)
  {
    hide *;
    if p.Alloc(Steady(occupied)).1.None? {
      SeamlessNoneIsExhausted(p, occupied);
    }
    if Exhausted(p, occupied) {
      ExhaustedGivesNone(p, occupied);
    }
  }

  /** All ports of the range but one. */
  function AllBut(p: Pool, port: nat): (r: set<nat>)
    ensures port !in r
    ensures forall j :: 0 <= j < p.count ==> p.RangePort(j) in r + {port}
  {
    (set j: nat | j < p.count :: p.RangePort(j)) - {port}
  }

  /** With everything handed out but the missed port, the call finds nothing. */
  lemma AllButMissed(p: Pool, inUse: set<nat>)
    requires p.Inv() && !Seamless(p) && p.RangePort(Missed(p)) !in inUse
    requires forall j :: 0 <= j < p.count ==> p.RangePort(j) in inUse + {p.RangePort(Missed(p))}
    ensures var q := WithInUse(p, inUse);
            q.Inv() && q.Alloc(Steady({})).1.None? && !Exhausted(q, {})
  {
    hide Seamless, Missed, Pool.Candidate, Pool.RangePort, Index;
    var missed := p.RangePort(Missed(p));
    var q := WithInUse(p, inUse);
    WrapMisses(p, 0);
    forall k | 0 <= k < q.count
      ensures !q.Free(Steady({}), k)
    {
      WrapMisses(p, k);
      CandidateIndex(p, k);
      SameCandidate(p, q.inUse, k);
      assert p.RangePort(Index(p, k)) in inUse + {missed};
    }
    SameRangePort(p, q.inUse, Missed(p));
  }

  lemma MissedStaysFree(p: Pool)
    requires p.Inv() && !Seamless(p)
    ensures var q := WithInUse(p, AllBut(p, p.RangePort(Missed(p))));
            q.Inv() && q.Alloc(Steady({})).1.None? && !Exhausted(q, {})
  {
    hide Seamless, Missed, Pool.Candidate, Pool.RangePort, AllBut;
    AllButMissed(p, AllBut(p, p.RangePort(Missed(p))));
  }

  lemma SameCandidate(p: Pool, inUse: set<nat>, k: nat)
    requires p.Inv()
    ensures WithInUse(p, inUse).Inv() && WithInUse(p, inUse).Candidate(k) == p.Candidate(k)
  {
  }

  lemma SameRangePort(p: Pool, inUse: set<nat>, j: nat)
    ensures WithInUse(p, inUse).RangePort(j) == p.RangePort(j)
  {
  }

  /**
   A seamless call answers `None` exactly when the range is exhausted, whatever is handed out or
   occupied; from any other counter position there is a set of handed-out ports for which it
   answers `None` with a port of the range free.
   */
  lemma NoneIsConclusiveIff(p: Pool)
    requires p.Inv()
    ensures Seamless(p) <==>
              forall inUse: set<nat>, occupied: set<nat> ::
                WithInUse(p, inUse).Alloc(Steady(occupied)).1.None? <==> Exhausted(WithInUse(p, inUse), occupied)
  {
    hide Pool.Alloc, Exhausted, AllBut;
    if Seamless(p) {
      forall inUse: set<nat>, occupied: set<nat>
        ensures WithInUse(p, inUse).Alloc(Steady(occupied)).1.None? <==> Exhausted(WithInUse(p, inUse), occupied)
      {
        SeamlessNoneIff(WithInUse(p, inUse), occupied);
      }
    } else {
      MissedStaysFree(p);
    }
  }

  // ----- The life of a pool -----

  datatype Op = Allocate(binds: Binds) | GiveBack(port: nat)

  function PoolRun(p: Pool, ops: seq<Op>): (r: Pool)
    requires p.Inv()
    ensures r.Inv() && r.base == p.base && r.count == p.count
    decreases |ops|
  {
    if ops == [] then p
    else
      match ops[0]
      case Allocate(binds) =>
        AllocKeepsInv(p, binds);
        PoolRun(p.Alloc(binds).0, ops[1..])
      case GiveBack(port) => PoolRun(p.Release(port), ops[1..])
  }

  lemma AllocKeepsInv(p: Pool, binds: Binds)
    requires p.Inv()
    ensures p.Alloc(binds).0.Inv() && p.Alloc(binds).0.base == p.base && p.Alloc(binds).0.count == p.count
  {
  }

  lemma {:induction false} PoolRunAppend(p: Pool, a: seq<Op>, b: seq<Op>)
    requires p.Inv()
    ensures PoolRun(p, a + b) == PoolRun(PoolRun(p, a), b)
    decreases |a|
  {
    hide Pool.Alloc;
    if a == [] {
      SliceAll(b);
    } else {
      ConsAppend(a, b);
      match a[0]
      case Allocate(binds) =>
        AllocKeepsInv(p, binds);
        PoolRunAppend(p.Alloc(binds).0, a[1..], b);
      case GiveBack(port) => PoolRunAppend(p.Release(port), a[1..], b);
    }
  }

  /** With everything bindable and the first candidate not in use, it is handed out. */
  lemma TakesFirst(p: Pool)
    requires p.Inv() && p.Candidate(0) !in p.inUse
    ensures p.Alloc(Steady({})) == (p.(next := p.Counter(1), inUse := p.inUse + {p.Candidate(0)}), Some(p.Candidate(0)))
  {
    hide Pool.Candidate, Pool.Counter;
    assert p.Free(Steady({}), 0);
  }

  /** A port taken and given back, `n` times over: only the counter moves. */
  function Turnover(p: Pool, n: nat): seq<Op>
    requires p.Inv() && p.next + n < U16
    decreases n
  {
    if n == 0 then []
    else [Allocate(Steady({})), GiveBack(p.Candidate(0))] + Turnover(p.(next := p.next + 1), n - 1)
  }

  lemma {:induction false} TurnoverMovesCounter(p: Pool, n: nat)
    requires p.Inv() && p.inUse == {} && p.next + n < U16
    ensures PoolRun(p, Turnover(p, n)) == p.(next := p.next + n)
    decreases n
  {
    hide Pool.Candidate, Pool.Alloc;
    if n > 0 {
      var q := p.(next := p.next + 1);
      var port := p.Candidate(0);
      TakesFirst(p);
      TurnoverMovesCounter(q, n - 1);
      PoolRunAppend(p, [Allocate(Steady({})), GiveBack(port)], Turnover(q, n - 1));
      RunTakeGive(p, port);
      assert {} + {port} - {port} == {};
    }
  }

  lemma RunTakeGive(p: Pool, port: nat)
    requires p.Inv()
    ensures p.Alloc(Steady({})).0.Inv()
    ensures PoolRun(p, [Allocate(Steady({})), GiveBack(port)]) == p.Alloc(Steady({})).0.Release(port)
  {
    hide Pool.Alloc;
    AllocKeepsInv(p, Steady({}));
    RunTake(p);
    RunGive(p.Alloc(Steady({})).0, port);
    PoolRunAppend(p, [Allocate(Steady({}))], [GiveBack(port)]);
  }

  function Takes(n: nat): seq<Op> {
    seq(n, i => Allocate(Steady({})))
  }

  /** `n` ports taken in a row, without wrapping the counter: `n` different ones. */
  lemma {:induction false} TakesFill(p: Pool, n: nat)
    requires p.Inv() && p.inUse == {} && n <= p.count && p.next + p.count < U16
    ensures PoolRun(p, Takes(n)) == p.(next := p.next + n, inUse := Candidates(p, n))
    decreases n
  {
    hide Pool.Alloc, Pool.Candidate;
    if n > 0 {
      TakesFill(p, n - 1);
      var q := PoolRun(p, Takes(n - 1));
      assert Takes(n) == Takes(n - 1) + [Allocate(Steady({}))];
      PoolRunAppend(p, Takes(n - 1), [Allocate(Steady({}))]);
      LaterCandidate(p, q, n - 1);
      CandidatesDiffer(p, n - 1);
      TakesFirst(q);
      RunTake(q);
    } else {
      assert Takes(0) == [];
      assert Candidates(p, 0) == {};
    }
  }

  lemma RunTake(p: Pool)
    requires p.Inv()
    ensures PoolRun(p, [Allocate(Steady({}))]) == p.Alloc(Steady({})).0
  {
    hide Pool.Alloc;
    AllocKeepsInv(p, Steady({}));
    assert [Allocate(Steady({}))][1..] == [];
  }

  function Candidates(p: Pool, n: nat): set<nat>
    requires p.Inv()
  {
    set k: nat | k < n :: p.Candidate(k)
  }

  lemma LaterCandidate(p: Pool, q: Pool, k: nat)
    requires p.Inv() && q.Inv() && q.base == p.base && q.count == p.count && q.next == p.next + k
    ensures q.Candidate(0) == p.Candidate(k)
    ensures p.next + k + 1 < U16 ==> q.Counter(1) == p.next + k + 1
    ensures Candidates(p, k + 1) == Candidates(p, k) + {p.Candidate(k)}
  {
    assert q.Candidate(0) == p.Candidate(k);
    hide Pool.Candidate;
  }

  lemma CandidatesDiffer(p: Pool, k: nat)
    requires p.Inv() && p.next + p.count <= U16 && k < p.count
    ensures p.Candidate(k) !in Candidates(p, k)
  {
    CandidateIndex(p, k);
    hide Pool.Candidate, Pool.RangePort, Index;
    var i := SeamlessTries(p, Index(p, k));
  }

  /** Without a wrap the candidates are the whole range. */
  lemma CandidatesAreRange(p: Pool, j: nat)
    requires p.Inv() && p.next + p.count <= U16 && j < p.count
    ensures p.RangePort(j) in Candidates(p, p.count)
  {
    hide Pool.Candidate, Pool.RangePort;
    var k := SeamlessTries(p, j);
  }

  /** A life that ends with the counter at its last value and every port but `missed` in use. */
  function LifeUpToWrap(base: nat, count: nat, missed: nat): seq<Op>
    requires base < U16 && 1 <= count < U16
  {
    Turnover(Pool(base, count, 0, {}), U16 - 1 - count) + Takes(count) + [GiveBack(missed)]
  }

  lemma LifeEndsAtWrap(base: nat, count: nat, missed: nat)
    requires base < U16 && 1 <= count < U16
    ensures var p := Pool(base, count, 0, {});
            var at := p.(next := U16 - 1 - count);
            at.Inv() && PoolRun(p, LifeUpToWrap(base, count, missed))
                        == Pool(base, count, U16 - 1, Candidates(at, count) - {missed})
  {
    hide Pool.Candidate, Candidates;
    var p := Pool(base, count, 0, {});
    var n := U16 - 1 - count;
    var at := p.(next := n);
    TurnoverMovesCounter(p, n);
    TakesFill(at, count);
    hide Turnover, Takes, PoolRun;
    PoolRunAppend(p, Turnover(p, n), Takes(count));
    PoolRunAppend(p, Turnover(p, n) + Takes(count), [GiveBack(missed)]);
    RunGive(Pool(base, count, U16 - 1, Candidates(at, count)), missed);
  }

  lemma RunGive(p: Pool, port: nat)
    requires p.Inv()
    ensures PoolRun(p, [GiveBack(port)]) == p.Release(port)
  {
    assert [GiveBack(port)][1..] == [];
  }

  /** In this state the next call answers `None`, and the missed port is free. */
  lemma WrapFindsNothing(base: nat, count: nat)
    requires base < U16 && 1 <= count < U16 && U16 % count != 0
    ensures var p := Pool(base, count, U16 - 1, {});
            var missed := p.RangePort(Missed(p));
            var q := PoolRun(Pool(base, count, 0, {}), LifeUpToWrap(base, count, missed));
            q.Alloc(Steady({})).1.None? && !Exhausted(q, {}) && missed !in q.inUse && Missed(p) < count
  {
    var p := Pool(base, count, U16 - 1, {});
    var at := p.(next := U16 - 1 - count);
    assert !Seamless(p);
    hide Missed, Pool.Candidate, Pool.RangePort, Index, Pool.Alloc, Seamless, Candidates;
    var missed := p.RangePort(Missed(p));
    LifeEndsAtWrap(base, count, missed);
    var inUse := Candidates(at, count) - {missed};
    WrapMisses(p, 0);
    forall j | 0 <= j < count
      ensures p.RangePort(j) in inUse + {missed}
    {
      CandidatesAreRange(at, j);
      SameBaseSameRange(p, at, j);
    }
    AllButMissed(p, inUse);
  }

  lemma SameBaseSameRange(p: Pool, q: Pool, j: nat)
    requires p.base == q.base
    ensures p.RangePort(j) == q.RangePort(j)
  {
  }

  /**
   Over a pool's whole life, whatever the environment did before: a `None` in a steady
   environment always means exhaustion exactly when the size of the range divides 65536.
   */
  lemma LifelongNoneIsConclusiveIff(base: nat, count: nat)
    requires base < U16 && 1 <= count < U16
    ensures U16 % count == 0 <==>
              forall ops: seq<Op>, occupied: set<nat> ::
                var p := PoolRun(Pool(base, count, 0, {}), ops);
                p.Alloc(Steady(occupied)).1.None? ==> Exhausted(p, occupied)
  {
    var boot := Pool(base, count, 0, {});
    if U16 % count == 0 {
      forall ops: seq<Op>, occupied: set<nat>
        ensures var p := PoolRun(boot, ops);
                p.Alloc(Steady(occupied)).1.None? ==> Exhausted(p, occupied)
      {
        var p := PoolRun(boot, ops);
        hide PoolRun, Pool.Alloc, Exhausted;
        SeamlessNoneIff(p, occupied);
      }
    } else {
      hide PoolRun, Pool.Alloc, Exhausted, LifeUpToWrap, Missed;
      WrapFindsNothing(base, count);
      var p := Pool(base, count, U16 - 1, {});
      var life := LifeUpToWrap(base, count, p.RangePort(Missed(p)));
      var q := PoolRun(boot, life);
      assert q.Alloc(Steady({})).1.None? && !Exhausted(q, {});
    }
  }

  /**
   The default range of 6000 ports: 59535 turnovers, 6000 ports taken, the last of the range given
   back. It is free, and the next call answers `None`.
   */
  lemma DefaultRangeCanMiss(base: nat)
    requires base < U16
    ensures var last := (base + 5999) % U16;
            var boot := Pool(base, 6000, 0, {});
            var p := PoolRun(boot, Turnover(boot, 59535) + Takes(6000) + [GiveBack(last)]);
            last !in p.inUse && p.Alloc(Steady({})).1.None?
  {
    hide Turnover, Takes, PoolRun, Pool.Alloc;
    WrapFindsNothing(base, 6000);
    assert Missed(Pool(base, 6000, U16 - 1, {})) == 5999;
  }

  lemma NextCallIsSeamless(p: Pool)
    requires p.Inv() && p.count <= 32768 && !Seamless(p)
    ensures var q := p.(next := p.Counter(p.count)); q.Inv() && Seamless(q)
  {
  }

  /** Up to 32768 ports, two calls in a row cannot both wrap: a second `None` is conclusive. */
  lemma {:induction false} TwoNonesAreConclusive(p: Pool, occupied: set<nat>)
    requires p.Inv() && p.count <= 32768
    requires var (p1, r1) := p.Alloc(Steady(occupied)); r1.None? && p1.Inv() && p1.Alloc(Steady(occupied)).1.None?
    ensures Exhausted(p, occupied)
  {
    hide Pool.Candidate, Pool.Counter, Seamless, Pool.FirstFree, Pool.Free;
    var p1 := p.Alloc(Steady(occupied)).0;
    assert p1 == p.(next := p.Counter(p.count));
    if Seamless(p) {
      SeamlessNoneIsExhausted(p, occupied);
    } else {
      NextCallIsSeamless(p);
      SeamlessNoneIsExhausted(p1, occupied);
      forall j | 0 <= j < p.count
        ensures p.RangePort(j) in p.inUse + occupied
      {
        assert p1.RangePort(j) == p.RangePort(j);
      }
    }
  }

  /** Every candidate lies in the advertised range exactly when the range ends within the port space. */
  lemma CandidatesInRangeIff(base: nat, count: nat)
    requires base < U16 && 1 <= count < U16
    ensures base + count <= U16 <==>
              forall next: nat, k: nat | next < U16 ::
                var p := Pool(base, count, next, {}); p.InRange(p.Candidate(k))
  {
    hide Pool.Candidate, Pool.InRange;
    if base + count <= U16 {
      forall next: nat, k: nat | next < U16
        ensures var p := Pool(base, count, next, {}); p.InRange(p.Candidate(k))
      {
        CandidateStaysInRange(Pool(base, count, next, {}), k);
      }
    } else {
      CandidateLeavesRange(Pool(base, count, U16 - base, {}));
    }
  }

  /** What it reports is the range: every port of it and no other, up to the end of the port space. */
  lemma RangeIsExact(p: Pool, port: nat)
    requires p.Inv()
    ensures p.InRange(port) <==> p.base <= port < p.base + p.count && port <= 65535
  {
  }

  lemma CandidateStaysInRange(p: Pool, k: nat)
    requires p.Inv() && p.base + p.count <= U16
    ensures p.InRange(p.Candidate(k))
  {
    hide Pool.Counter;
    var j := p.Counter(k) % p.count;
    assert p.Candidate(k) == (p.base + j) % U16 == p.base + j;
  }

  /** Port 0 follows the end of the port space. */
  lemma CandidateLeavesRange(p: Pool)
    requires p.Inv() && p.base + p.count > U16 && p.next == U16 - p.base
    ensures !p.InRange(p.Candidate(0))
  {
    ModIs(p.next, p.count, 0, p.next);
    assert p.Counter(0) == p.next && p.Candidate(0) == 0;
  }
}
