/**
  The risk service's velocity limiter (microservices/risk-service/src/main.c): a direct-mapped table indexed by a
  32-bit hash of the PAN, whose entry is overwritten by any other PAN that lands on it.

  The stored PAN keeps at most 19 characters, while the comparison is with the whole PAN.
 */
module RiskService {

  const MAX_VELOCITY_ENTRIES := 10000
  const STORED := 19
  const TWO_32 := 0x1_0000_0000

  datatype Entry = Entry(pan: string, start: int, count: int)

  const EMPTY := Entry("", 0, 0)

  /** RISK_VELOCITY_LIMIT and RISK_VELOCITY_WINDOW, taken as they come. */
  datatype Config = Config(limit: int, window: int)

  datatype Request = Request(pan: string, now: int)

  // ---------------------------------------------------------------- the hash

  /** A byte of the PAN, read as unsigned char. */
  function Code(c: char): nat {
    c as int % 256
  }

  /** The PAN as a number in base 31, without any machine arithmetic. */
  function Polynomial(pan: string): nat {
    if pan == "" then 0 else Polynomial(pan[..|pan| - 1]) * 31 + Code(pan[|pan| - 1])
  }

  function Hash(pan: string): (h: nat)
    ensures h < MAX_VELOCITY_ENTRIES
  {
    Polynomial(pan) % TWO_32 % MAX_VELOCITY_ENTRIES
  }

  lemma WrapEarly(x: nat, c: nat)
    ensures (x % TWO_32 * 31 + c) % TWO_32 == (x * 31 + c) % TWO_32
  {
    var q := x / TWO_32;
    assert x == TWO_32 * q + x % TWO_32;
    assert x * 31 + c == x % TWO_32 * 31 + c + TWO_32 * (31 * q);
    AddMultiple(x % TWO_32 * 31 + c, 31 * q);
  }

  lemma AddMultiple(a: nat, k: nat)
    ensures (a + TWO_32 * k) % TWO_32 == a % TWO_32
  {
    if k > 0 {
      AddMultiple(a, k - 1);
      assert a + TWO_32 * k == a + TWO_32 * (k - 1) + TWO_32;
    }
  }

  /** hash_pan: wrapping at every step gives the polynomial modulo 2^32. */
  method HashPan(pan: string) returns (index: nat)
    ensures index == Hash(pan)
  {
    var hash := 0;
    for i := 0 to |pan|
      invariant hash == Polynomial(pan[..i]) % TWO_32
    {
      WrapEarly(Polynomial(pan[..i]), Code(pan[i]));
      assert pan[..i + 1][..i] == pan[..i];
      hash := (hash * 31 + Code(pan[i])) % TWO_32;
    }
    assert pan[..|pan|] == pan;
    index := hash % MAX_VELOCITY_ENTRIES;
  }

  // ---------------------------------------------------------------- one check

  /** What strncpy leaves in the 20-byte field. */
  function Stored(pan: string): (r: string)
    ensures r <= pan && (|pan| <= STORED ==> r == pan) && (|pan| > STORED ==> |r| == STORED)
  {
    if |pan| <= STORED then pan else pan[..STORED]
  }

  function Checked(c: Config, e: Entry, r: Request): (Entry, bool) {
    if e.pan == "" || e.pan != r.pan then (Entry(Stored(r.pan), r.now, 1), true)
    else if r.now - e.start >= c.window then (Entry(e.pan, r.now, 1), true)
    else (e.(count := e.count + 1), e.count + 1 <= c.limit)
  }

  function Check(c: Config, t: seq<Entry>, r: Request): (seq<Entry>, bool)
    requires |t| == MAX_VELOCITY_ENTRIES
  {
    var k := Hash(r.pan);
    var (e, ok) := Checked(c, t[k], r);
    (t[k := e], ok)
  }

  class Table {
    const config: Config
    const entries: array<Entry>
    var velocityBlocks: nat

    constructor (config: Config)
      ensures this.config == config && entries[..] == seq(MAX_VELOCITY_ENTRIES, _ => EMPTY) && velocityBlocks == 0
      ensures fresh(entries)
    {
      this.config := config;
      entries := new Entry[MAX_VELOCITY_ENTRIES](_ => EMPTY);
      velocityBlocks := 0;
    }

    /** check_velocity_limit */
    method CheckVelocityLimit(r: Request) returns (rc: int)
      requires entries.Length == MAX_VELOCITY_ENTRIES
      modifies this, entries
      ensures entries[..] == Check(config, old(entries[..]), r).0
      ensures rc == if Check(config, old(entries[..]), r).1 then 0 else -1
      ensures velocityBlocks == old(velocityBlocks) + if rc == 0 then 0 else 1
    {
      var k := HashPan(r.pan);
      if entries[k].pan == "" || entries[k].pan != r.pan {
        entries[k] := Entry(Stored(r.pan), r.now, 1);
        return 0;
      }
      if r.now - entries[k].start >= config.window {
        entries[k] := Entry(entries[k].pan, r.now, 1);
        return 0;
      }
      entries[k] := entries[k].(count := entries[k].count + 1);
      if entries[k].count <= config.limit {
        return 0;
      }
      velocityBlocks := velocityBlocks + 1;
      return -1;
    }
  }

  // ---------------------------------------------------------------- declines are justified

  ghost predicate Timely(h: seq<Request>) {
    forall i, j :: 0 <= i < j < |h| ==> h[i].now <= h[j].now
  }

  function After(c: Config, h: seq<Request>): (t: seq<Entry>)
    ensures |t| == MAX_VELOCITY_ENTRIES
  {
    if h == [] then seq(MAX_VELOCITY_ENTRIES, _ => EMPTY) else Check(c, After(c, h[..|h| - 1]), h[|h| - 1]).0
  }

  predicate Allowed(c: Config, before: seq<Request>, r: Request) {
    Check(c, After(c, before), r).1
  }

  /** How many requests since `from` were by a PAN that is stored as `stored`. */
  function Recent(h: seq<Request>, stored: string, from: int): nat {
    if h == [] then 0
    else Recent(h[..|h| - 1], stored, from)
         + if Stored(h[|h| - 1].pan) == stored && h[|h| - 1].now >= from then 1 else 0
  }

  /** What an entry counts really happened since its window began. */
  ghost predicate Honest(h: seq<Request>, t: seq<Entry>) {
    forall i :: 0 <= i < |t| && t[i].pan != "" ==>
      && |t[i].pan| <= STORED
      && t[i].count <= Recent(h, t[i].pan, t[i].start)
      && (h != [] ==> t[i].start <= h[|h| - 1].now)
  }

  lemma RecentOne(h: seq<Request>, r: Request, stored: string, from: int)
    ensures Recent(h + [r], stored, from)
            == Recent(h, stored, from) + if Stored(r.pan) == stored && r.now >= from then 1 else 0
  {
    assert (h + [r])[..|h|] == h;
  }

  lemma HonestStep(c: Config, h: seq<Request>, t: seq<Entry>, r: Request)
    requires |t| == MAX_VELOCITY_ENTRIES && Honest(h, t) && (h != [] ==> h[|h| - 1].now <= r.now)
    requires h == [] ==> forall i :: 0 <= i < |t| ==> t[i].pan == ""
    ensures Honest(h + [r], Check(c, t, r).0)
    ensures !Check(c, t, r).1 ==>
              var e := Check(c, t, r).0[Hash(r.pan)];
              e.pan == r.pan == Stored(r.pan) && e.pan != "" && r.now - e.start < c.window && e.count > c.limit
  {
    var u := Check(c, t, r).0;
    var k := Hash(r.pan);
    forall i | 0 <= i < |u| && u[i].pan != ""
      ensures |u[i].pan| <= STORED
      ensures u[i].count <= Recent(h + [r], u[i].pan, u[i].start) && u[i].start <= r.now
    {
      RecentOne(h, r, u[i].pan, u[i].start);
      if i != k {
        assert u[i] == t[i];
      }
    }
    assert (h + [r])[|h|] == r;
  }

  lemma {:induction false} HonestAlways(c: Config, h: seq<Request>)
    requires Timely(h)
    ensures Honest(h, After(c, h))
    ensures h == [] ==> forall i :: 0 <= i < |After(c, h)| ==> After(c, h)[i].pan == ""
  {
    if h != [] {
      var before := h[..|h| - 1];
      HonestAlways(c, before);
      HonestStep(c, before, After(c, before), h[|h| - 1]);
      assert before + [h[|h| - 1]] == h;
    }
  }

  lemma RecentMonotone(h: seq<Request>, stored: string, a: int, b: int)
    requires a <= b
    ensures Recent(h, stored, a) >= Recent(h, stored, b)
  {
  }

  /**
    A decline, despite collisions, means more than `limit` requests in the last `window` seconds by PANs that are
    stored alike.
   */
  lemma DeclineIsJustified(c: Config, h: seq<Request>, r: Request)
    requires Timely(h + [r]) && !Allowed(c, h, r)
    ensures |r.pan| <= STORED
    ensures Recent(h + [r], r.pan, r.now - c.window + 1) > c.limit
  {
    var hr := h + [r];
    assert hr[|h|] == r && forall i :: 0 <= i < |h| ==> hr[i] == h[i];
    HonestAlways(c, h);
    HonestStep(c, h, After(c, h), r);
    var e := Check(c, After(c, h), r).0[Hash(r.pan)];
    RecentMonotone(hr, r.pan, r.now - c.window + 1, e.start);
  }

  /** How many requests since `from` were by exactly this PAN. */
  function RecentExact(h: seq<Request>, pan: string, from: int): nat {
    if h == [] then 0
    else RecentExact(h[..|h| - 1], pan, from) + if h[|h| - 1].pan == pan && h[|h| - 1].now >= from then 1 else 0
  }

  lemma ShortPansAreExact(h: seq<Request>, pan: string, from: int)
    requires forall i :: 0 <= i < |h| ==> |h[i].pan| <= STORED
    ensures Recent(h, pan, from) == RecentExact(h, pan, from)
  {
  }

  /** When no PAN is longer than the stored field, a decline is justified by that very PAN's requests. */
  lemma ShortPanDeclineIsJustified(c: Config, h: seq<Request>, r: Request)
    requires Timely(h + [r]) && !Allowed(c, h, r)
    requires forall i :: 0 <= i < |h| ==> |h[i].pan| <= STORED
    ensures RecentExact(h + [r], r.pan, r.now - c.window + 1) > c.limit
  {
    DeclineIsJustified(c, h, r);
    ShortPansAreExact(h + [r], r.pan, r.now - c.window + 1);
  }

  // ---------------------------------------------------------------- a PAN that is too long

  lemma PolynomialOne(pan: string, c: char)
    ensures Polynomial(pan + [c]) == Polynomial(pan) * 31 + Code(c)
  {
    assert (pan + [c])[..|pan|] == pan;
  }

  /** A digit n times over. */
  function Digits(c: char, n: nat): string {
    seq(n, _ => c)
  }

  /** Nine 4s and ten 7s, and the same followed by an 8. */
  const SHORT := Digits('4', 9) + Digits('7', 10)
  const LONG := SHORT + ['8']

  function Horner(v: nat, code: nat, n: nat): nat {
    if n == 0 then v else Horner(v, code, n - 1) * 31 + code
  }

  lemma PolynomialDigits(pan: string, c: char, n: nat)
    ensures Polynomial(pan + Digits(c, n)) == Horner(Polynomial(pan), Code(c), n)
  {
    if n == 0 {
      assert pan + Digits(c, 0) == pan;
    } else {
      PolynomialDigits(pan, c, n - 1);
      PolynomialOne(pan + Digits(c, n - 1), c);
      assert pan + Digits(c, n) == pan + Digits(c, n - 1) + [c];
    }
  }

  lemma HornerShort()
    ensures Horner(Horner(0, 52, 9), 55, 10) == 37562481181282102033666779028
  {
    assert Horner(0, 52, 9) == 45828678411828;
    assert Horner(45828678411828, 55, 10) == 37562481181282102033666779028;
  }

  lemma TwoRuns(a: char, m: nat, b: char, n: nat)
    ensures Polynomial(Digits(a, m) + Digits(b, n)) == Horner(Horner(0, Code(a), m), Code(b), n)
  {
    PolynomialDigits("", a, m);
    assert "" + Digits(a, m) == Digits(a, m);
    PolynomialDigits(Digits(a, m), b, n);
  }

  /** Stated of a variable, so that nothing is computed digit by digit. */
  lemma ShortPolynomial(short: string, m: nat, n: nat)
    requires short == Digits('4', m) + Digits('7', n) && m == 9 && n == 10
    ensures Polynomial(short) == 37562481181282102033666779028
  {
    TwoRuns('4', m, '7', n);
    HornerShort();
  }

  lemma SameSlot(p: nat)
    requires p == 37562481181282102033666779028
    ensures p % TWO_32 % MAX_VELOCITY_ENTRIES == (p * 31 + 56) % TWO_32 % MAX_VELOCITY_ENTRIES
  {
    assert p % TWO_32 == 2977146772;
    assert (p * 31 + 56) % TWO_32 == 2097236772;
  }

  lemma Collision()
    ensures Hash(SHORT) == Hash(LONG) && Stored(LONG) == SHORT
  {
    ShortPolynomial(SHORT, 9, 10);
    SameSlot(Polynomial(SHORT));
    PolynomialOne(SHORT, '8');
    assert LONG[..STORED] == SHORT;
  }

  /** A longer PAN with the same first 19 characters and the same slot is charged to the shorter one. */
  lemma {:induction false} LongPanIsMiscounted()
    ensures var c := Config(1, 60);
            var h := [Request(LONG, 100)];
            var r := Request(SHORT, 100);
            && Timely(h + [r])
            && !Allowed(c, h, r)
            && RecentExact(h + [r], SHORT, 100 - 60 + 1) == 1
  {
    Collision();
    var c := Config(1, 60);
    var h := [Request(LONG, 100)];
    var k := Hash(LONG);
    assert h[..0] == [];
    assert After(c, []) == seq(MAX_VELOCITY_ENTRIES, _ => EMPTY);
    assert After(c, h)[k] == Entry(SHORT, 100, 1);
    var hr := h + [Request(SHORT, 100)];
    assert hr[..1] == h;
    assert RecentExact(h, SHORT, 41) == 0;
  }

  /** Every decline of a PAN is justified by that PAN's own requests, when no PAN is longer than `n`. */
  ghost predicate JustifiedUpTo(n: nat) {
    forall c: Config, h: seq<Request>, r: Request ::
      Timely(h + [r]) && !Allowed(c, h, r) && (forall i :: 0 <= i < |h| ==> |h[i].pan| <= n) ==>
        RecentExact(h + [r], r.pan, r.now - c.window + 1) > c.limit
  }

  /** That holds exactly for PANs that fit the stored field. */
  lemma JustifiedIffPansFit(n: nat)
    ensures JustifiedUpTo(n) <==> n <= STORED
  {
    if n <= STORED {
      forall c: Config, h: seq<Request>, r: Request
        | Timely(h + [r]) && !Allowed(c, h, r) && forall i :: 0 <= i < |h| ==> |h[i].pan| <= n
        ensures RecentExact(h + [r], r.pan, r.now - c.window + 1) > c.limit
      {
        ShortPanDeclineIsJustified(c, h, r);
      }
    } else {
      LongPanIsMiscounted();
      var h := [Request(LONG, 100)];
      assert forall i :: 0 <= i < |h| ==> |h[i].pan| <= n;
      assert !Allowed(Config(1, 60), h, Request(SHORT, 100));
    }
  }

  // ---------------------------------------------------------------- against a plain counter

  /** One PAN's own window, if it has been seen. */
  datatype Counter = Unseen | Counting(start: int, count: int)

  /** A plain per-PAN counter, without a table. */
  function Count(c: Config, k: Counter, now: int): (Counter, bool) {
    if k.Unseen? || now - k.start >= c.window then (Counting(now, 1), true)
    else (Counting(k.start, k.count + 1), k.count + 1 <= c.limit)
  }

  function CounterAfter(c: Config, h: seq<Request>, pan: string): Counter {
    if h == [] then Unseen
    else
      var k := CounterAfter(c, h[..|h| - 1], pan);
      if h[|h| - 1].pan == pan then Count(c, k, h[|h| - 1].now).0 else k
  }

  /** Nobody else has landed on the PAN's slot. */
  ghost predicate Alone(h: seq<Request>, pan: string) {
    forall i :: 0 <= i < |h| && h[i].pan != pan ==> Hash(h[i].pan) != Hash(pan)
  }

  /** The slot holds the PAN's counter. */
  predicate Holds(e: Entry, pan: string, k: Counter) {
    match k
    case Unseen => e == EMPTY
    case Counting(start, count) => e == Entry(pan, start, count)
  }

  lemma HoldsStep(c: Config, t: seq<Entry>, r: Request, pan: string, k: Counter)
    requires |t| == MAX_VELOCITY_ENTRIES && pan != "" && |pan| <= STORED && Holds(t[Hash(pan)], pan, k)
    requires r.pan != pan ==> Hash(r.pan) != Hash(pan)
    ensures Holds(Check(c, t, r).0[Hash(pan)], pan, if r.pan == pan then Count(c, k, r.now).0 else k)
    ensures r.pan == pan ==> Check(c, t, r).1 == Count(c, k, r.now).1
  {
  }

  lemma {:induction false} AloneHolds(c: Config, h: seq<Request>, pan: string)
    requires pan != "" && |pan| <= STORED && Alone(h, pan)
    ensures Holds(After(c, h)[Hash(pan)], pan, CounterAfter(c, h, pan))
  {
    if h != [] {
      var before := h[..|h| - 1];
      AloneHolds(c, before, pan);
      HoldsStep(c, After(c, before), h[|h| - 1], pan, CounterAfter(c, before, pan));
    }
  }

  /** While nobody else lands on its slot, a PAN is treated exactly as its own counter says. */
  lemma AloneIsExact(c: Config, h: seq<Request>, pan: string, now: int)
    requires pan != "" && |pan| <= STORED && Alone(h, pan)
    ensures Allowed(c, h, Request(pan, now)) == Count(c, CounterAfter(c, h, pan), now).1
  {
    AloneHolds(c, h, pan);
    HoldsStep(c, After(c, h), Request(pan, now), pan, CounterAfter(c, h, pan));
  }

  // ---------------------------------------------------------------- two PANs on one slot

  /** The two PANs in turn, n requests at one moment. */
  function InTurn(a: string, b: string, now: int, n: nat): seq<Request> {
    seq(n, i requires 0 <= i => Request(Turn(a, b, i), now))
  }

  /** PANs that land on one slot and are never taken for each other. */
  predicate Rivals(a: string, b: string) {
    a != "" && b != "" && Hash(a) == Hash(b) && Stored(a) != b && Stored(b) != a
  }

  function Turn(a: string, b: string, i: nat): string {
    if i % 2 == 0 then a else b
  }

  lemma InTurnGrows(a: string, b: string, now: int, n: nat)
    ensures InTurn(a, b, now, n + 1) == InTurn(a, b, now, n) + [Request(Turn(a, b, n), now)]
  {
  }

  /** A slot that holds another PAN, or none, is taken over, and the request allowed. */
  lemma TakenOver(c: Config, t: seq<Entry>, r: Request)
    requires |t| == MAX_VELOCITY_ENTRIES && (t[Hash(r.pan)].pan != r.pan || t[Hash(r.pan)].pan == "")
    ensures Check(c, t, r).1 && Check(c, t, r).0[Hash(r.pan)] == Entry(Stored(r.pan), r.now, 1)
  {
  }

  lemma TurnFinds(a: string, b: string, i: nat)
    requires Rivals(a, b)
    ensures Hash(Turn(a, b, i)) == Hash(a) && Turn(a, b, i) != ""
    ensures Stored(Turn(a, b, i)) != Turn(a, b, i + 1)
  {
  }

  /** The entry the next request finds: none, or the other PAN's. */
  ghost predicate LeftBy(e: Entry, a: string, b: string, now: int, n: nat) {
    if n == 0 then e == EMPTY else e == Entry(Stored(Turn(a, b, n - 1)), now, 1)
  }

  lemma NextTakesOver(c: Config, t: seq<Entry>, a: string, b: string, now: int, n: nat)
    requires |t| == MAX_VELOCITY_ENTRIES && Rivals(a, b) && LeftBy(t[Hash(a)], a, b, now, n)
    ensures var (u, ok) := Check(c, t, Request(Turn(a, b, n), now)); ok && LeftBy(u[Hash(a)], a, b, now, n + 1)
  {
    TurnFinds(a, b, n);
    if n > 0 {
      TurnFinds(a, b, n - 1);
    }
    TakenOver(c, t, Request(Turn(a, b, n), now));
  }

  /** The requests are the two PANs in turn. */
  ghost predicate TakesTurns(h: seq<Request>, a: string, b: string, now: int) {
    forall i :: 0 <= i < |h| ==> h[i] == Request(Turn(a, b, i), now)
  }

  /** Each finds the other's entry, so each starts afresh. */
  lemma {:induction false} LastInTurn(c: Config, h: seq<Request>, a: string, b: string, now: int)
    requires Rivals(a, b) && TakesTurns(h, a, b, now)
    ensures LeftBy(After(c, h)[Hash(a)], a, b, now, |h|)
  {
    if h != [] {
      var before := h[..|h| - 1];
      LastInTurn(c, before, a, b, now);
      NextTakesOver(c, After(c, before), a, b, now, |before|);
    }
  }

  /** Whatever the limit, two such PANs in turn are allowed for ever, any number of requests in one second. */
  lemma {:induction false} RivalsAreUnlimited(c: Config, a: string, b: string, now: int, n: nat)
    requires Rivals(a, b)
    ensures Allowed(c, InTurn(a, b, now, n), Request(Turn(a, b, n), now))
  {
    var h := InTurn(a, b, now, n);
    LastInTurn(c, h, a, b, now);
    NextTakesOver(c, After(c, h), a, b, now, n);
  }

  lemma PolynomialOfFour(a: char, b: char, c: char, d: char)
    ensures Polynomial([a, b, c, d]) == ((Code(a) * 31 + Code(b)) * 31 + Code(c)) * 31 + Code(d)
  {
    PolynomialOne([a, b, c], d);
    PolynomialOne([a, b], c);
    PolynomialOne([a], b);
    PolynomialOne("", a);
    assert [a, b, c] + [d] == [a, b, c, d] && [a, b] + [c] == [a, b, c] && [a] + [b] == [a, b] && "" + [a] == [a];
  }

  /** There are such PANs among the shortest digit strings. */
  lemma RivalsExist()
    ensures Rivals("0008", "1070")
  {
    PolynomialOfFour('0', '0', '0', '8');
    PolynomialOfFour('1', '0', '7', '0');
    assert "0008"[0] != "1070"[0];
  }

  // ---------------------------------------------------------------- exactly when the table is a counter per PAN

  /** All requests are by these PANs. */
  ghost predicate Over(h: seq<Request>, pans: set<string>) {
    forall i :: 0 <= i < |h| ==> h[i].pan in pans
  }

  /** The service decides as a counter per PAN would, in every history of requests by these PANs. */
  ghost predicate CountsExactly(c: Config, pans: set<string>) {
    forall h, pan, now :: Over(h, pans) && pan in pans ==>
      Allowed(c, h, Request(pan, now)) == Count(c, CounterAfter(c, h, pan), now).1
  }

  /** No two of them share a slot. */
  ghost predicate OneSlotEach(pans: set<string>) {
    forall p, q :: p in pans && q in pans && p != q ==> Hash(p) != Hash(q)
  }

  lemma {:induction false} CounterAfterOne(c: Config, h: seq<Request>, r: Request, pan: string)
    ensures CounterAfter(c, h + [r], pan)
            == var k := CounterAfter(c, h, pan); if r.pan == pan then Count(c, k, r.now).0 else k
  {
    assert (h + [r])[..|h|] == h;
  }

  lemma OneRound(a: string, b: string, now: int, n: nat)
    ensures InTurn(a, b, now, 2 * n + 2) == InTurn(a, b, now, 2 * n) + [Request(a, now)] + [Request(b, now)]
  {
    InTurnGrows(a, b, now, 2 * n);
    InTurnGrows(a, b, now, 2 * n + 1);
  }

  /** Taking turns at one moment, each PAN's own counter counts every one of its requests. */
  lemma {:induction false} InTurnIsCounted(c: Config, a: string, b: string, now: int, n: nat)
    requires a != b && c.window > 0
    ensures CounterAfter(c, InTurn(a, b, now, 2 * n), a) == if n == 0 then Unseen else Counting(now, n)
    decreases n
  {
    if n == 0 {
      assert InTurn(a, b, now, 0) == [];
    } else {
      var h := InTurn(a, b, now, 2 * (n - 1));
      var x, y := Request(a, now), Request(b, now);
      InTurnIsCounted(c, a, b, now, n - 1);
      OneRound(a, b, now, n - 1);
      CounterAfterOne(c, h, x, a);
      CounterAfterOne(c, h + [x], y, a);
    }
  }

  /** So two PANs on one slot are allowed a request that the counter declines. */
  lemma RivalsAreMiscounted(c: Config, a: string, b: string, n: nat)
    requires Rivals(a, b) && a != b && c.window > 0 && n >= 1 && n >= c.limit
    ensures var h := InTurn(a, b, 0, 2 * n);
            Allowed(c, h, Request(a, 0)) && !Count(c, CounterAfter(c, h, a), 0).1
  {
    RivalsAreUnlimited(c, a, b, 0, 2 * n);
    EvenTurn(a, b, n);
    InTurnIsCounted(c, a, b, 0, n);
    FullIsDeclined(c, n);
  }

  lemma EvenTurn(a: string, b: string, n: nat)
    ensures Turn(a, b, 2 * n) == a
  {
  }

  lemma FullIsDeclined(c: Config, n: nat)
    requires c.window > 0 && n >= c.limit
    ensures !Count(c, Counting(0, n), 0).1
  {
  }

  lemma InTurnIsOver(a: string, b: string, now: int, n: nat, pans: set<string>)
    requires a in pans && b in pans
    ensures Over(InTurn(a, b, now, n), pans)
  {
  }

  /** For PANs that fit the field, the service counts each on its own exactly when no two of them share a slot. */
  lemma CountsExactlyIff(c: Config, pans: set<string>)
    requires c.window > 0 && forall p :: p in pans ==> p != "" && |p| <= STORED
    ensures CountsExactly(c, pans) <==> OneSlotEach(pans)
  {
    if OneSlotEach(pans) {
      forall h, pan, now | Over(h, pans) && pan in pans
        ensures Allowed(c, h, Request(pan, now)) == Count(c, CounterAfter(c, h, pan), now).1
      {
        AloneIsExact(c, h, pan, now);
      }
    } else {
      var a, b :| a in pans && b in pans && a != b && Hash(a) == Hash(b);
      var n := if c.limit > 1 then c.limit else 1;
      InTurnIsOver(a, b, 0, 2 * n, pans);
      RivalsAreMiscounted(c, a, b, n);
      var h := InTurn(a, b, 0, 2 * n);
      assert Allowed(c, h, Request(a, 0)) != Count(c, CounterAfter(c, h, a), 0).1;
    }
  }
}
