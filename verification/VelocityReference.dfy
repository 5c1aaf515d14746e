/** The velocity table against a plain per-PAN window counter, and the rate that counter allows. */
module VelocityReference {
  import opened Velocity

  datatype Window = Window(start: int, count: int)

  /** One window per PAN ever seen; the empty PAN is never remembered. */
  type Windows = map<string, Window>

  function Tick(c: Config, ws: Windows, r: Request): (Windows, bool) {
    var w := if r.pan in ws && r.pan != "" then ws[r.pan] else Window(r.seen, 0);
    var f := if r.now - w.start >= c.window then Window(r.now, 0) else w;
    var n := Window(f.start, f.count + 1);
    (if r.pan == "" then ws else ws[r.pan := n], n.count <= c.limit)
  }

  // ---------------------------------------------------------------- the table holds the map

  /** No PAN has two slots. */
  ghost predicate NoTwins(t: seq<Slot>) {
    forall i, j :: 0 <= i < j < |t| && t[i].pan != "" ==> t[i].pan != t[j].pan
  }

  /** Every slot in use holds its PAN's window. */
  ghost predicate SlotsInMap(t: seq<Slot>, ws: Windows) {
    forall i :: 0 <= i < |t| && t[i].pan != "" ==> t[i].pan in ws && ws[t[i].pan] == Window(t[i].start, t[i].count)
  }

  /** Every PAN of the map has a slot. */
  ghost predicate MapInSlots(t: seq<Slot>, ws: Windows) {
    forall pan :: pan in ws ==> pan != "" && exists i :: 0 <= i < |t| && t[i].pan == pan
  }

  ghost predicate Matches(t: seq<Slot>, ws: Windows) {
    NoTwins(t) && SlotsInMap(t, ws) && MapInSlots(t, ws)
  }

  function Pans(t: seq<Slot>): seq<string> {
    seq(|t|, i requires 0 <= i < |t| => t[i].pan)
  }

  lemma Pigeonhole(ps: seq<string>, s: set<string>)
    requires forall i, j :: 0 <= i < j < |ps| ==> ps[i] != ps[j]
    requires forall i :: 0 <= i < |ps| ==> ps[i] in s
    ensures |ps| <= |s|
  {
    if ps != [] {
      var last := ps[|ps| - 1];
      Pigeonhole(ps[..|ps| - 1], s - {last});
    }
  }

  /** Fewer PANs than slots leave a slot free. */
  lemma FreeSlot(t: seq<Slot>, ws: Windows)
    requires Matches(t, ws) && |ws.Keys| < |t|
    ensures FindPan(t, "", 0) < |t|
  {
    if FindPan(t, "", 0) == |t| {
      Pigeonhole(Pans(t), ws.Keys);
    }
  }

  lemma KnownIff(t: seq<Slot>, ws: Windows, pan: string)
    requires Matches(t, ws)
    ensures Known(t, pan) <==> pan in ws
  {
    if pan in ws {
      var i :| 0 <= i < |t| && t[i].pan == pan;
      assert FindPan(t, pan, 0) <= i;
    }
  }

  function Record(ws: Windows, e: Slot): Windows {
    if e.pan == "" then ws else ws[e.pan := Window(e.start, e.count)]
  }

  /** The slot is the entry's own, or it is free and the entry is new. */
  ghost predicate Fits(t: seq<Slot>, ws: Windows, k: nat, e: Slot) {
    k < |t| && (t[k].pan == e.pan || (t[k].pan == "" && e.pan !in ws))
  }

  lemma NobodyElse(t: seq<Slot>, ws: Windows, k: nat, e: Slot)
    requires Matches(t, ws) && Fits(t, ws, k, e) && e.pan != ""
    ensures forall i :: 0 <= i < |t| && i != k ==> t[i].pan != e.pan
  {
  }

  lemma NoTwinsUpdate(t: seq<Slot>, k: nat, e: Slot)
    requires NoTwins(t) && k < |t| && (e.pan != "" ==> forall i :: 0 <= i < |t| && i != k ==> t[i].pan != e.pan)
    ensures NoTwins(t[k := e])
  {
  }

  lemma SlotsInMapUpdate(t: seq<Slot>, ws: Windows, k: nat, e: Slot)
    requires SlotsInMap(t, ws) && k < |t| && (e.pan != "" ==> forall i :: 0 <= i < |t| && i != k ==> t[i].pan != e.pan)
    ensures SlotsInMap(t[k := e], Record(ws, e))
  {
  }

  lemma MapInSlotsUpdate(t: seq<Slot>, ws: Windows, k: nat, e: Slot)
    requires MapInSlots(t, ws) && Fits(t, ws, k, e)
    ensures MapInSlots(t[k := e], Record(ws, e))
  {
    var u := t[k := e];
    forall pan | pan in Record(ws, e)
      ensures pan != "" && exists i :: 0 <= i < |u| && u[i].pan == pan
    {
      if pan == e.pan {
        assert u[k].pan == pan;
      } else {
        var i :| 0 <= i < |t| && t[i].pan == pan;
        assert u[i].pan == pan;
      }
    }
  }

  /** Writing an entry over its own slot, or over a free one if it is new, matches recording it in the map. */
  lemma MatchesUpdate(t: seq<Slot>, ws: Windows, k: nat, e: Slot)
    requires Matches(t, ws) && Fits(t, ws, k, e)
    ensures Matches(t[k := e], Record(ws, e))
  {
    if e.pan != "" {
      NobodyElse(t, ws, k, e);
    }
    NoTwinsUpdate(t, k, e);
    SlotsInMapUpdate(t, ws, k, e);
    MapInSlotsUpdate(t, ws, k, e);
  }

  /** What one evaluation writes, and where, when the slot is the PAN's own or a free one. */
  lemma EvaluateWrites(c: Config, t: seq<Slot>, ws: Windows, r: Request) returns (k: nat, e: Slot)
    requires c.Valid() && c.enabled && t != [] && Matches(t, ws) && r.now <= r.seen
    requires Known(t, r.pan) || FindPan(t, "", 0) < |t|
    ensures k < |t| && Evaluate(c, t, r) == (t[k := e], e.count <= c.limit)
    ensures e.pan == r.pan && (t[k].pan == r.pan || (t[k].pan == "" && r.pan !in ws))
    ensures Tick(c, ws, r) == (Record(ws, e), e.count <= c.limit)
  {
    KnownIff(t, ws, r.pan);
    var g := Get(t, r.pan, r.seen).0;
    k := Get(t, r.pan, r.seen).1;
    e := Counted(c, g[k], r.now);
    assert g[k := e] == t[k := e];
  }

  lemma {:induction false} MatchesStep(c: Config, t: seq<Slot>, ws: Windows, r: Request)
    requires c.Valid() && c.enabled && t != [] && Matches(t, ws) && r.now <= r.seen
    requires Known(t, r.pan) || FindPan(t, "", 0) < |t|
    ensures Evaluate(c, t, r).1 == Tick(c, ws, r).1
    ensures Matches(Evaluate(c, t, r).0, Tick(c, ws, r).0)
  {
    var k, e := EvaluateWrites(c, t, ws, r);
    MatchesUpdate(t, ws, k, e);
  }

  /** When there is neither an own slot nor a free one, some other PAN loses its slot, and only that one. */
  lemma {:induction false} EvictionForgets(c: Config, t: seq<Slot>, ws: Windows, r: Request) returns (victim: string)
    requires c.Valid() && c.enabled && t != [] && Matches(t, ws)
    requires !Known(t, r.pan) && FindPan(t, "", 0) == |t|
    ensures victim != "" && victim != r.pan && victim in ws
    ensures var u := Evaluate(c, t, r).0; forall i :: 0 <= i < |u| ==> u[i].pan != victim
  {
    var (g, k) := Get(t, r.pan, r.seen);
    victim := t[k].pan;
    var u := Evaluate(c, t, r).0;
    assert forall i :: 0 <= i < |u| && i != k ==> u[i] == t[i];
    assert u[k].pan == r.pan;
  }

  /** One evaluation keeps the table equal to the map exactly when the PAN has a slot or one is free. */
  lemma {:induction false} MatchesStepIff(c: Config, t: seq<Slot>, ws: Windows, r: Request)
    requires c.Valid() && c.enabled && t != [] && Matches(t, ws) && r.now <= r.seen
    ensures Matches(Evaluate(c, t, r).0, Tick(c, ws, r).0) <==> Known(t, r.pan) || FindPan(t, "", 0) < |t|
  {
    if Known(t, r.pan) || FindPan(t, "", 0) < |t| {
      MatchesStep(c, t, ws, r);
    } else {
      var victim := EvictionForgets(c, t, ws, r);
      assert victim in Tick(c, ws, r).0;
    }
  }

  // ---------------------------------------------------------------- whole runs

  /** The non-empty PANs of a stretch of requests. */
  function PansOf(rs: seq<Request>): set<string> {
    set i | 0 <= i < |rs| && rs[i].pan != "" :: rs[i].pan
  }

  /** At most VEL_CAP PANs are seen, and no request with an empty PAN comes once VEL_CAP have been. */
  predicate Roomy(h: seq<Request>) {
    && |PansOf(h)| <= VEL_CAP
    && forall k :: 0 <= k < |h| && h[k].pan == "" ==> |PansOf(h[..k])| < VEL_CAP
  }

  /** How many of the requests the map allows to this PAN. */
  function MapAllows(c: Config, ws: Windows, rs: seq<Request>, pan: string): nat
    decreases |rs|
  {
    if rs == [] then 0
    else
      var (vs, ok) := Tick(c, ws, rs[0]);
      (if ok && rs[0].pan == pan then 1 else 0) + MapAllows(c, vs, rs[1..], pan)
  }

  function MapAfter(c: Config, h: seq<Request>): Windows {
    if h == [] then map[] else Tick(c, MapAfter(c, h[..|h| - 1]), h[|h| - 1]).0
  }

  lemma PansOfOne(h: seq<Request>, r: Request)
    ensures PansOf(h + [r]) == PansOf(h) + if r.pan == "" then {} else {r.pan}
  {
    var hr := h + [r];
    forall pan | pan in PansOf(h) ensures pan in PansOf(hr) {
      var i :| 0 <= i < |h| && h[i].pan != "" && h[i].pan == pan;
      assert hr[i].pan == pan;
    }
    assert hr[|h|] == r;
    assert r.pan != "" ==> r.pan in PansOf(hr);
  }

  lemma {:induction false} KeysOfMap(c: Config, h: seq<Request>)
    ensures MapAfter(c, h).Keys == PansOf(h)
  {
    if h != [] {
      var before := h[..|h| - 1];
      KeysOfMap(c, before);
      PansOfOne(before, h[|h| - 1]);
      assert before + [h[|h| - 1]] == h;
    }
  }

  lemma SmallerSet(a: set<string>, b: set<string>)
    requires a <= b
    ensures |a| <= |b|
  {
    assert b == a + (b - a);
  }

  lemma {:induction false} FewMembers(ps: seq<string>, s: set<string>)
    requires forall x :: x in s ==> x in ps
    ensures |s| <= |ps|
  {
    if ps == [] {
      assert s == {};
    } else {
      var last := ps[|ps| - 1];
      FewMembers(ps[..|ps| - 1], s - {last});
      SmallerSet(s, (s - {last}) + {last});
    }
  }

  /** A table that matches the map has a free slot exactly when there are fewer PANs than slots. */
  lemma FreeSlotIff(t: seq<Slot>, ws: Windows)
    requires Matches(t, ws)
    ensures FindPan(t, "", 0) < |t| <==> |ws.Keys| < |t|
  {
    if |ws.Keys| < |t| {
      FreeSlot(t, ws);
    } else if FindPan(t, "", 0) < |t| {
      var free := FindPan(t, "", 0);
      var ps := Pans(t);
      forall pan | pan in ws.Keys + {""} ensures pan in ps {
        var i :| 0 <= i < |t| && t[i].pan == pan;
        assert ps[i] == pan;
      }
      FewMembers(ps, ws.Keys + {""});
    }
  }

  /** What one more request does to roominess. */
  lemma RoomyOne(before: seq<Request>, r: Request)
    requires Roomy(before)
    ensures Roomy(before + [r])
            <==> |PansOf(before + [r])| <= VEL_CAP && (r.pan == "" ==> |PansOf(before)| < VEL_CAP)
  {
    var hr := before + [r];
    assert hr[..|before|] == before && hr[|before|] == r;
    assert forall k :: 0 <= k < |before| ==> hr[k] == before[k] && hr[..k] == before[..k];
  }

  /** The next request finds a slot exactly when the history with it is still roomy. */
  lemma {:induction false} RoomIff(c: Config, before: seq<Request>, r: Request, t: seq<Slot>)
    requires Matches(t, MapAfter(c, before)) && |t| == VEL_CAP && Roomy(before)
    ensures Known(t, r.pan) || FindPan(t, "", 0) < |t| <==> Roomy(before + [r])
  {
    var ws := MapAfter(c, before);
    KeysOfMap(c, before);
    KnownIff(t, ws, r.pan);
    FreeSlotIff(t, ws);
    RoomyOne(before, r);
    PansOfOne(before, r);
    var seen := PansOf(before);
    if r.pan in seen {
      assert seen + {r.pan} == seen;
    } else if r.pan != "" {
      assert |seen + {r.pan}| == |seen| + 1;
    } else {
      assert seen + {} == seen;
    }
  }

  /** Every prefix of a roomy history is roomy. */
  lemma RoomyPrefix(h: seq<Request>, k: nat)
    requires k <= |h| && Roomy(h)
    ensures Roomy(h[..k])
  {
    forall pan | pan in PansOf(h[..k]) ensures pan in PansOf(h) {
      var i :| 0 <= i < k && h[..k][i].pan != "" && h[..k][i].pan == pan;
      assert h[i].pan == pan;
    }
    SmallerSet(PansOf(h[..k]), PansOf(h));
    assert forall j :: 0 <= j < k ==> h[..k][j] == h[j] && h[..k][..j] == h[..j];
  }

  /** While the history is roomy, the table holds exactly the map ... */
  lemma {:induction false} TableIsMap(c: Config, h: seq<Request>)
    requires c.Valid() && c.enabled && Timely(h) && Roomy(h)
    ensures Matches(After(c, h), MapAfter(c, h))
  {
    if h != [] {
      var before := h[..|h| - 1];
      RoomyPrefix(h, |h| - 1);
      TableIsMap(c, before);
      assert before + [h[|h| - 1]] == h;
      RoomIff(c, before, h[|h| - 1], After(c, before));
      MatchesStep(c, After(c, before), MapAfter(c, before), h[|h| - 1]);
    }
  }

  /** It held the map at every point of the history. */
  ghost predicate AlwaysMatches(c: Config, h: seq<Request>) {
    forall k :: 0 <= k <= |h| ==> Matches(After(c, h[..k]), MapAfter(c, h[..k]))
  }

  /** A history that is not roomy has a point where some PAN was forgotten. */
  lemma {:induction false} CrowdedForgets(c: Config, h: seq<Request>) returns (k: nat)
    requires c.Valid() && c.enabled && Timely(h) && !Roomy(h)
    ensures k <= |h| && !Matches(After(c, h[..k]), MapAfter(c, h[..k]))
  {
    assert h != [] by {
      assert PansOf([]) == {};
    }
    var before, r := h[..|h| - 1], h[|h| - 1];
    assert before + [r] == h;
    TimelyPrefix(before, r);
    if Roomy(before) {
      assert h[..|h|] == h;
      TableIsMap(c, before);
      RoomIff(c, before, r, After(c, before));
      MatchesStepIff(c, After(c, before), MapAfter(c, before), r);
      k := |h|;
    } else {
      k := CrowdedForgets(c, before);
      assert h[..k] == before[..k];
    }
  }

  /** ... and it is the map throughout exactly when the history is roomy. */
  lemma {:induction false} TableIsMapIff(c: Config, h: seq<Request>)
    requires c.Valid() && c.enabled && Timely(h)
    ensures AlwaysMatches(c, h) <==> Roomy(h)
  {
    if Roomy(h) {
      forall k | 0 <= k <= |h| ensures Matches(After(c, h[..k]), MapAfter(c, h[..k])) {
        RoomyPrefix(h, k);
        TableIsMap(c, h[..k]);
      }
    } else {
      var k := CrowdedForgets(c, h);
    }
  }

  lemma TimelyPrefix(h: seq<Request>, r: Request)
    requires Timely(h + [r])
    ensures Timely(h)
  {
    assert forall i :: 0 <= i < |h| ==> (h + [r])[i] == h[i];
  }

  /** ... and, while it is, it decides as the map does. */
  lemma TableDecidesAsMap(c: Config, h: seq<Request>, r: Request)
    requires c.Valid() && c.enabled && Timely(h + [r]) && Roomy(h + [r])
    ensures Allowed(c, h, r) == Tick(c, MapAfter(c, h), r).1
  {
    var hr := h + [r];
    assert hr[..|h|] == h && hr[|h|] == r;
    RoomyPrefix(hr, |h|);
    TimelyPrefix(h, r);
    TableIsMap(c, h);
    RoomIff(c, h, r, After(c, h));
    MatchesStep(c, After(c, h), MapAfter(c, h), r);
  }

  // ---------------------------------------------------------------- a history that is not roomy

  /** A PAN of four digits. */
  function Card(i: nat): (pan: string)
    requires i < 10000
    ensures |pan| == 4
  {
    [Figure(i / 10 / 10 / 10), Figure(i / 10 / 10 % 10), Figure(i / 10 % 10), Figure(i % 10)]
  }

  function Figure(d: nat): char
    requires d < 10
  {
    '0' + d as char
  }

  lemma LastFigure(x: nat, y: nat)
    requires x / 10 == y / 10 && Figure(x % 10) == Figure(y % 10)
    ensures x == y
  {
    assert x == 10 * (x / 10) + x % 10 && y == 10 * (y / 10) + y % 10;
  }

  lemma CardIsInjective(i: nat, j: nat)
    requires i < 10000 && j < 10000 && Card(i) == Card(j)
    ensures i == j
  {
    var a, b := Card(i), Card(j);
    assert a[0] == b[0] && a[1] == b[1] && a[2] == b[2] && a[3] == b[3];
    LastFigure(i / 10 / 10, j / 10 / 10);
    LastFigure(i / 10, j / 10);
    LastFigure(i, j);
  }

  /** One request each by different PANs, all at time 1. */
  predicate AllDifferent(h: seq<Request>) {
    && (forall i :: 0 <= i < |h| ==> h[i].now == h[i].seen == 1 && h[i].pan != "")
    && (forall i, j :: 0 <= i < j < |h| ==> h[i].pan != h[j].pan)
  }

  lemma {:induction false} MapAfterOne(c: Config, h: seq<Request>, r: Request)
    ensures MapAfter(c, h + [r]) == Tick(c, MapAfter(c, h), r).0
  {
    assert (h + [r])[..|h|] == h;
  }

  lemma LastIsNew(h: seq<Request>)
    requires AllDifferent(h) && h != []
    ensures h[|h| - 1].pan !in PansOf(h[..|h| - 1])
  {
  }

  lemma TickNew(c: Config, ws: Windows, r: Request)
    requires r.pan !in ws && r.pan != "" && r.now == r.seen && c.window > 0
    ensures Tick(c, ws, r).0 == ws[r.pan := Window(r.now, 1)]
  {
  }

  lemma DifferentBefore(h: seq<Request>)
    requires AllDifferent(h) && h != []
    ensures AllDifferent(h[..|h| - 1]) && h == h[..|h| - 1] + [h[|h| - 1]]
  {
  }

  lemma {:induction false} DifferentAreMany(h: seq<Request>)
    requires AllDifferent(h)
    ensures |PansOf(h)| == |h|
  {
    if h == [] {
      assert PansOf(h) == {};
    } else {
      DifferentBefore(h);
      DifferentAreMany(h[..|h| - 1]);
      PansOfOne(h[..|h| - 1], h[|h| - 1]);
      LastIsNew(h);
    }
  }

  lemma {:induction false} DifferentAreCounted(c: Config, h: seq<Request>)
    requires AllDifferent(h) && c.window > 0
    ensures forall pan :: pan in MapAfter(c, h) ==> MapAfter(c, h)[pan] == Window(1, 1)
  {
    if h != [] {
      var before := h[..|h| - 1];
      DifferentBefore(h);
      DifferentAreCounted(c, before);
      KeysOfMap(c, before);
      LastIsNew(h);
      TickNew(c, MapAfter(c, before), h[|h| - 1]);
    }
  }

  /** As many cards as there are slots, one request each. */
  function Crowd(): seq<Request> {
    seq(VEL_CAP, i requires 0 <= i < VEL_CAP => Request(Card(i), 1, 1))
  }

  lemma CrowdIsDifferent()
    ensures AllDifferent(Crowd())
  {
    forall i, j | 0 <= i < j < VEL_CAP ensures Crowd()[i].pan != Crowd()[j].pan {
      if Card(i) == Card(j) {
        CardIsInjective(i, j);
      }
    }
  }

  /** The whole crowd just fits. */
  lemma {:induction false} CrowdFits(c: Config, crowd: seq<Request>)
    requires c.Valid() && c.enabled && AllDifferent(crowd) && |crowd| == VEL_CAP
    ensures Timely(crowd) && Roomy(crowd) && |MapAfter(c, crowd).Keys| == VEL_CAP
    ensures Matches(After(c, crowd), MapAfter(c, crowd))
  {
    DifferentAreMany(crowd);
    KeysOfMap(c, crowd);
    TableIsMap(c, crowd);
  }

  const NOBODY := Request("", 2, 2)

  /**
    1024 cards, then a request with an empty PAN: some card is forgotten, and its next request within the window is
    allowed although the limit is one request and the map declines it.
   */
  lemma {:induction false} EmptyPanEvicts() returns (r: Request)
    ensures var c := Config(true, 1, 60);
            var h := Crowd() + [NOBODY];
            && Timely(h + [r])
            && !Roomy(h)
            && r.pan in PansOf(Crowd())
            && Allowed(c, h, r) && !Tick(c, MapAfter(c, h), r).1
  {
    CrowdIsDifferent();
    r := CrowdedOut(Config(true, 1, 60), Crowd());
  }

  lemma {:induction false} CrowdedOut(c: Config, crowd: seq<Request>) returns (r: Request)
    requires c == Config(true, 1, 60) && AllDifferent(crowd) && |crowd| == VEL_CAP
    ensures var h := crowd + [NOBODY];
            && Timely(h + [r])
            && !Roomy(h)
            && r.pan in PansOf(crowd)
            && Allowed(c, h, r) && !Tick(c, MapAfter(c, h), r).1
  {
    var t, ws := After(c, crowd), MapAfter(c, crowd);
    CrowdFits(c, crowd);
    DifferentAreCounted(c, crowd);
    KeysOfMap(c, crowd);
    RoomIff(c, crowd, NOBODY, t);
    FreeSlotIff(t, ws);
    var victim := EvictionForgets(c, t, ws, NOBODY);
    r := Request(victim, 2, 2);
    TimelyThen(crowd, r);
    AfterOne(c, crowd, NOBODY);
    MapAfterOne(c, crowd, NOBODY);
    ForgottenIsAllowed(c, After(c, crowd + [NOBODY]), r);
    SecondIsDeclined(c, ws, r);
  }

  lemma TimelyThen(crowd: seq<Request>, r: Request)
    requires AllDifferent(crowd) && r.now == r.seen == 2
    ensures Timely(crowd + [NOBODY] + [r])
  {
    var all := crowd + [NOBODY] + [r];
    assert forall i :: 0 <= i < |crowd| ==> all[i] == crowd[i];
  }

  lemma {:induction false} AfterOne(c: Config, h: seq<Request>, r: Request)
    ensures After(c, h + [r]) == Evaluate(c, After(c, h), r).0
  {
    assert (h + [r])[..|h|] == h;
  }

  lemma SecondIsDeclined(c: Config, ws: Windows, r: Request)
    requires c == Config(true, 1, 60) && r.pan != "" && r.pan in ws && ws[r.pan] == Window(1, 1) && r.now == 2
    ensures !Tick(c, ws, r).1
  {
  }

  /** A PAN without a slot starts afresh. */
  lemma ForgottenIsAllowed(c: Config, t: seq<Slot>, r: Request)
    requires c.Valid() && t != [] && r.now <= r.seen && r.pan != ""
    requires forall i :: 0 <= i < |t| ==> t[i].pan != r.pan
    ensures Evaluate(c, t, r).1
  {
  }

  // ---------------------------------------------------------------- the rate

  function AtLeast0(n: int): nat {
    if n < 0 then 0 else n
  }

  /** Once a window has started inside the span, it lasts to the span's end and allows what is left of its limit. */
  lemma {:induction false} WithinOneWindow(c: Config, ws: Windows, rs: seq<Request>, pan: string, from: int)
    requires c.Valid() && pan != "" && pan in ws && ws[pan].start >= from && ws[pan].count >= 0
    requires forall r :: r in rs ==> r.now < from + c.window
    ensures MapAllows(c, ws, rs, pan) <= AtLeast0(c.limit - ws[pan].count)
    decreases |rs|
  {
    if rs != [] {
      assert rs[0] in rs && forall r :: r in rs[1..] ==> r in rs;
      WithinOneWindow(c, Tick(c, ws, rs[0]).0, rs[1..], pan, from);
    }
  }

  /** What a PAN can be allowed in any `window` seconds: two windows, the first of them already begun. */
  function Bound(c: Config): int {
    if c.window == 1 then c.limit else 2 * c.limit - 1
  }

  lemma {:induction false} WithinAnySpan(c: Config, ws: Windows, rs: seq<Request>, pan: string, from: int)
    requires c.Valid() && pan != "" && (pan in ws ==> ws[pan].count >= 1)
    requires forall r :: r in rs ==> from <= r.now < from + c.window && r.now <= r.seen
    ensures MapAllows(c, ws, rs, pan) <= Bound(c)
    ensures pan in ws ==> MapAllows(c, ws, rs, pan) <= AtLeast0(c.limit - ws[pan].count) + c.limit
    decreases |rs|
  {
    if rs != [] {
      var r := rs[0];
      assert r in rs && forall x :: x in rs[1..] ==> x in rs;
      var ws' := Tick(c, ws, r).0;
      if r.pan == pan && (pan !in ws || r.now - ws[pan].start >= c.window) {
        WithinOneWindow(c, ws', rs[1..], pan, from);
      } else if r.pan == pan && c.window == 1 {
        WithinOneWindow(c, ws', rs[1..], pan, from);
      } else {
        WithinAnySpan(c, ws', rs[1..], pan, from);
      }
    }
  }

  /** The map counts the request that put a PAN into it. */
  lemma {:induction false} CountsArePositive(c: Config, h: seq<Request>)
    ensures forall pan :: pan in MapAfter(c, h) ==> MapAfter(c, h)[pan].count >= 1
  {
    if h != [] {
      CountsArePositive(c, h[..|h| - 1]);
    }
  }

  /** How many of the requests after `h` the server allows to this PAN. */
  function AllowedOf(c: Config, h: seq<Request>, rs: seq<Request>, pan: string): nat {
    if rs == [] then 0
    else
      AllowedOf(c, h, rs[..|rs| - 1], pan)
      + if rs[|rs| - 1].pan == pan && Allowed(c, h + rs[..|rs| - 1], rs[|rs| - 1]) then 1 else 0
  }

  lemma {:induction false} MapAllowsOne(c: Config, ws: Windows, rs: seq<Request>, r: Request, pan: string)
    ensures MapAllows(c, ws, rs + [r], pan)
            == MapAllows(c, ws, rs, pan) + if r.pan == pan && Tick(c, MapOver(c, ws, rs), r).1 then 1 else 0
    decreases |rs|
  {
    if rs == [] {
      assert rs + [r] == [r] && [r][1..] == [];
    } else {
      assert (rs + [r])[1..] == rs[1..] + [r];
      MapAllowsOne(c, Tick(c, ws, rs[0]).0, rs[1..], r, pan);
    }
  }

  function MapOver(c: Config, ws: Windows, rs: seq<Request>): Windows
    decreases |rs|
  {
    if rs == [] then ws else MapOver(c, Tick(c, ws, rs[0]).0, rs[1..])
  }

  lemma {:induction false} MapOverOne(c: Config, ws: Windows, rs: seq<Request>, r: Request)
    ensures MapOver(c, ws, rs + [r]) == Tick(c, MapOver(c, ws, rs), r).0
    decreases |rs|
  {
    if rs == [] {
      assert rs + [r] == [r] && [r][1..] == [];
    } else {
      assert (rs + [r])[1..] == rs[1..] + [r];
      MapOverOne(c, Tick(c, ws, rs[0]).0, rs[1..], r);
    }
  }

  lemma {:induction false} MapAfterConcat(c: Config, h: seq<Request>, rs: seq<Request>)
    ensures MapAfter(c, h + rs) == MapOver(c, MapAfter(c, h), rs)
    decreases |rs|
  {
    if rs == [] {
      assert h + rs == h;
    } else {
      var init, r := rs[..|rs| - 1], rs[|rs| - 1];
      assert (h + rs)[..|h + rs| - 1] == h + init && rs == init + [r];
      MapAfterConcat(c, h, init);
      MapOverOne(c, MapAfter(c, h), init, r);
    }
  }

  /** Over any stretch of a run the server allows a PAN as often as the map does. */
  lemma {:induction false} ServerAllowsAsMap(c: Config, h: seq<Request>, rs: seq<Request>, pan: string)
    requires c.Valid() && c.enabled && Timely(h + rs) && Roomy(h + rs)
    ensures AllowedOf(c, h, rs, pan) == MapAllows(c, MapAfter(c, h), rs, pan)
    decreases |rs|
  {
    if rs != [] {
      var init, r := rs[..|rs| - 1], rs[|rs| - 1];
      assert h + rs == h + init + [r] && rs == init + [r] && (h + rs)[..|h + init|] == h + init;
      TimelyPrefix(h + init, r);
      RoomyPrefix(h + rs, |h + init|);
      ServerAllowsAsMap(c, h, init, pan);
      TableDecidesAsMap(c, h + init, r);
      MapAfterConcat(c, h, init);
      MapAllowsOne(c, MapAfter(c, h), init, r, pan);
    }
  }

  /** All these requests fall within `window` seconds. */
  ghost predicate WithinSpan(c: Config, rs: seq<Request>, from: int) {
    forall r :: r in rs ==> from <= r.now < from + c.window
  }

  /** In any `window` seconds of a roomy run the server allows a PAN at most 2 * limit - 1 requests. */
  lemma RateLimit(c: Config, h: seq<Request>, rs: seq<Request>, pan: string, from: int)
    requires c.Valid() && c.enabled && pan != "" && Timely(h + rs) && Roomy(h + rs) && WithinSpan(c, rs, from)
    ensures AllowedOf(c, h, rs, pan) <= Bound(c)
  {
    forall r | r in rs ensures r.now <= r.seen {
      var i :| 0 <= i < |rs| && rs[i] == r;
      assert (h + rs)[|h| + i] == r;
    }
    ServerAllowsAsMap(c, h, rs, pan);
    CountsArePositive(c, h);
    WithinAnySpan(c, MapAfter(c, h), rs, pan, from);
  }

  // ---------------------------------------------------------------- the bound is reached

  const BUSY := "4"

  /** The request that opens a window. */
  const OPENING := [Request(BUSY, 1, 1)]

  /** How much of that window's limit can still be used before the window ends. */
  function Spare(c: Config): int {
    Bound(c) - c.limit
  }

  /** The spare part of that limit, then a whole limit as the window ends. */
  function Rush(c: Config): seq<Request>
    requires c.Valid()
  {
    seq(Bound(c), i => if i < Spare(c) then Request(BUSY, 2, 2) else Request(BUSY, c.window + 1, c.window + 1))
  }

  lemma {:induction false} RushState(c: Config, k: nat)
    requires c.Valid() && k <= Bound(c)
    ensures var ws := map[BUSY := Window(1, 1)];
            && MapAllows(c, ws, Rush(c)[..k], BUSY) == k
            && MapOver(c, ws, Rush(c)[..k])
               == map[BUSY := if k <= Spare(c) then Window(1, 1 + k) else Window(c.window + 1, k - Spare(c))]
    decreases k
  {
    var ws := map[BUSY := Window(1, 1)];
    if k > 0 {
      RushState(c, k - 1);
      var before, r := Rush(c)[..k - 1], Rush(c)[k - 1];
      assert Rush(c)[..k] == before + [r];
      MapAllowsOne(c, ws, before, r, BUSY);
      MapOverOne(c, ws, before, r);
    }
  }

  lemma OnePanIsRoomy(h: seq<Request>, pan: string)
    requires pan != "" && forall i :: 0 <= i < |h| ==> h[i].pan == pan
    ensures Roomy(h)
  {
    SmallerSet(PansOf(h), {pan});
  }

  lemma RushIsTimely(c: Config)
    requires c.Valid()
    ensures Timely(OPENING + Rush(c)) && WithinSpan(c, Rush(c), 2)
    ensures forall i :: 0 <= i < |OPENING + Rush(c)| ==> (OPENING + Rush(c))[i].pan == BUSY
  {
    var all := OPENING + Rush(c);
    assert forall i :: 0 <= i < |all| ==>
        all[i].now == all[i].seen == if i == 0 then 1 else if i <= Spare(c) then 2 else c.window + 1;
  }

  /**
    The bound is tight: for every setting there is a run in which the server allows that many within `window` seconds.
   */
  lemma RateLimitIsTight(c: Config)
    requires c.Valid() && c.enabled
    ensures Timely(OPENING + Rush(c)) && Roomy(OPENING + Rush(c)) && WithinSpan(c, Rush(c), 2)
    ensures AllowedOf(c, OPENING, Rush(c), BUSY) == Bound(c)
  {
    RushIsTimely(c);
    OnePanIsRoomy(OPENING + Rush(c), BUSY);
    ServerAllowsAsMap(c, OPENING, Rush(c), BUSY);
    assert OPENING[..0] == [] && MapAfter(c, OPENING) == map[BUSY := Window(1, 1)];
    RushState(c, Bound(c));
    assert Rush(c)[..Bound(c)] == Rush(c);
  }

  /** The sliding-window promise: never more than `limit` in any `window` seconds of any roomy run. */
  ghost predicate Sliding(c: Config) {
    forall h, rs, pan, from ::
      pan != "" && Timely(h + rs) && Roomy(h + rs) && WithinSpan(c, rs, from) ==> AllowedOf(c, h, rs, pan) <= c.limit
  }

  /** The fixed window keeps that promise exactly when the limit is one request or the window one second. */
  lemma SlidingIff(c: Config)
    requires c.Valid() && c.enabled
    ensures Sliding(c) <==> c.limit == 1 || c.window == 1
  {
    if c.limit == 1 || c.window == 1 {
      forall h, rs, pan, from
        | pan != "" && Timely(h + rs) && Roomy(h + rs) && WithinSpan(c, rs, from)
        ensures AllowedOf(c, h, rs, pan) <= c.limit
      {
        RateLimit(c, h, rs, pan, from);
      }
    } else {
      RateLimitIsTight(c);
      assert AllowedOf(c, OPENING, Rush(c), BUSY) > c.limit;
    }
  }
}
