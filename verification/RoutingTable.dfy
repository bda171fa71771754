/** The ten-slot routing table: lookup, replacement with hysteresis, expiry and eviction. */
module RoutingTable {
  import opened Bytes
  import opened Clock

  const MAX_ROUTES := 10
  const ROUTE_TIMEOUT := 300000
  const MAX_HOPS := 7
  const RSSI_UPPER_THRESHOLD := 12
  const RSSI_LOWER_THRESHOLD := 6

  type Int8 = x: int | -128 <= x < 128

  datatype RouteEntry = RouteEntry(destId: Id, nextHopId: Id, hops: nat, rssi: Int8, lastSeen: nat, active: bool)

  /** A packet as the table sees it, with the time it came in counted without wrapping. */
  datatype Reception = Reception(source: Id, lastHop: Id, hops: nat, rssi: Int8, at: nat)

  /** The radio's reading as it is passed to `updateRoute`: an int narrowed to int8_t. */
  function Narrowed(reading: int): Int8 {
    (reading + 128) % 256 - 128
  }

  /** The narrowing keeps a reading exactly if it fits in eight bits; -140 dBm would read as +116. */
  lemma NarrowedIsReadingIffItFits(reading: int)
    ensures Narrowed(reading) == reading <==> -128 <= reading < 128
    ensures Narrowed(-140) == 116
  {
  }

  function EntryOf(r: Reception): RouteEntry {
    RouteEntry(r.source, r.lastHop, r.hops, r.rssi, Millis(r.at), true)
  }

  // ----- the specification on the slots -----

  /** The first slot for `dest`, active or not. */
  function FindRoute(rs: seq<RouteEntry>, dest: Id, from: nat): (i: nat)
    requires from <= |rs|
    ensures from <= i <= |rs| && (i < |rs| ==> rs[i].destId == dest)
    ensures forall k :: from <= k < i ==> rs[k].destId != dest
    decreases |rs| - from
  {
    if from == |rs| || rs[from].destId == dest then from else FindRoute(rs, dest, from + 1)
  }

  predicate IsBetterRoute(new_: RouteEntry, existing: RouteEntry) {
    if new_.rssi > existing.rssi + RSSI_UPPER_THRESHOLD then true
    else if new_.rssi < existing.rssi - RSSI_LOWER_THRESHOLD then false
    else new_.hops < existing.hops
  }

  /** A route is replaced by one with a signal more than 12 dB stronger, or not 6 dB weaker and with fewer hops. */
  lemma BetterIff(a: RouteEntry, b: RouteEntry)
    ensures IsBetterRoute(a, b) <==> a.rssi > b.rssi + 12 || (a.rssi >= b.rssi - 6 && a.hops < b.hops)
  {
  }

  /** The slot a new destination takes. */
  ghost predicate IsVictim(rs: seq<RouteEntry>, clock: nat, slot: nat) {
    && slot < |rs|
    && ((exists i :: 0 <= i < |rs| && !rs[i].active) ==>
          !rs[slot].active && forall i :: 0 <= i < slot ==> rs[i].active)
    && ((forall i :: 0 <= i < |rs| ==> rs[i].active) ==>
          if exists i :: 0 <= i < |rs| && rs[i].lastSeen < clock
          then (forall i :: 0 <= i < |rs| ==> rs[slot].lastSeen <= rs[i].lastSeen)
               && forall i :: 0 <= i < slot ==> rs[slot].lastSeen < rs[i].lastSeen
          else slot == 0)
  }

  /** The first free slot; where none is free, the first of those seen longest ago by the clock's reading. */
  lemma VictimIs(rs: seq<RouteEntry>, clock: nat, slot: nat)
    requires IsVictim(rs, clock, slot)
    ensures (exists i :: 0 <= i < |rs| && !rs[i].active) ==>
              !rs[slot].active && forall i :: 0 <= i < slot ==> rs[i].active
    ensures (forall i :: 0 <= i < |rs| ==> rs[i].active) && (exists i :: 0 <= i < |rs| && rs[i].lastSeen < clock) ==>
              forall i :: 0 <= i < |rs| ==> rs[slot].lastSeen <= rs[i].lastSeen
                                            && (i < slot ==> rs[slot].lastSeen < rs[i].lastSeen)
    ensures (forall i :: 0 <= i < |rs| ==> rs[i].active && clock <= rs[i].lastSeen) ==> slot == 0
  {
  }

  /** Whether slots `rs` become `rs'` when `r` is heard. */
  ghost predicate Updated(rs: seq<RouteEntry>, rs': seq<RouteEntry>, r: Reception) {
    var i := FindRoute(rs, r.source, 0);
    if r.hops >= MAX_HOPS - 1 then rs' == rs
    else if i < |rs| then rs' == if IsBetterRoute(EntryOf(r), rs[i]) then rs[i := EntryOf(r)] else rs
    else exists slot: nat :: IsVictim(rs, Millis(r.at), slot) && rs' == rs[slot := EntryOf(r)]
  }

  predicate IsYoung(r: RouteEntry, now: nat) {
    Elapsed(Millis(now), r.lastSeen) < ROUTE_TIMEOUT
  }

  /** The hop of the active route to `dest`, if it was heard of less than five minutes ago. */
  function NextHop(rs: seq<RouteEntry>, dest: Id, now: nat): Option<Id> {
    var i := FindRoute(rs, dest, 0);
    if i < |rs| && rs[i].active && IsYoung(rs[i], now) then Some(rs[i].nextHopId) else None
  }

  /** From five minutes on, by the wrapping clock, a route is not used. */
  lemma OldRouteIsNotUsed(rs: seq<RouteEntry>, dest: Id, now: nat)
    ensures var i := FindRoute(rs, dest, 0);
      NextHop(rs, dest, now).Some? <==>
        i < |rs| && rs[i].active && (now % 0x1_0000_0000 - rs[i].lastSeen) % 0x1_0000_0000 < 300000
  {
  }

  /** An active route found too old is switched off. */
  function Retired(rs: seq<RouteEntry>, dest: Id, now: nat): seq<RouteEntry> {
    var i := FindRoute(rs, dest, 0);
    if i < |rs| && rs[i].active && !IsYoung(rs[i], now) then rs[i := rs[i].(active := false)] else rs
  }

  /** The lookup that finds a route five minutes old switches it off, and changes nothing else. */
  lemma RetiredIs(rs: seq<RouteEntry>, dest: Id, now: nat)
    ensures var i := FindRoute(rs, dest, 0);
      Retired(rs, dest, now) ==
      if i < |rs| && rs[i].active && (now % 0x1_0000_0000 - rs[i].lastSeen) % 0x1_0000_0000 >= 300000
      then rs[i := rs[i].(active := false)] else rs
  {
  }

  /** No active slot is hidden behind another slot for the same destination. */
  ghost predicate Reachable(rs: seq<RouteEntry>) {
    forall i, j :: 0 <= i < j < |rs| && rs[j].active ==> rs[i].destId != rs[j].destId
  }

  // ----- the code -----

  class RoutingTable {
    const routes: array<RouteEntry>
    ghost var heard: set<Reception>        // every reception so far
    ghost var origins: seq<Reception>      // the reception behind each active slot

    ghost predicate Valid()
      reads this, routes
    {
      && routes.Length == MAX_ROUTES && |origins| == MAX_ROUTES
      && Reachable(routes[..])
      && forall j :: 0 <= j < MAX_ROUTES && routes[j].active ==>
           origins[j] in heard && routes[j] == EntryOf(origins[j])
    }

    /** Only the active flags are set; the rest of the slots is whatever memory held. */
    constructor (memory: seq<RouteEntry>)
      requires |memory| == MAX_ROUTES
      ensures Valid() && heard == {} && fresh(routes)
      ensures routes[..] == seq(MAX_ROUTES, i requires 0 <= i < MAX_ROUTES => memory[i].(active := false))
    {
      routes := new RouteEntry[MAX_ROUTES](i requires 0 <= i < MAX_ROUTES => memory[i]);
      heard := {};
      origins := seq(MAX_ROUTES, _ => Reception([0, 0, 0, 0], [0, 0, 0, 0], 0, 0, 0));
      new;
      var i := 0;
      while i < MAX_ROUTES
        modifies routes
        invariant 0 <= i <= MAX_ROUTES
        invariant forall k :: 0 <= k < MAX_ROUTES ==>
          routes[k] == if k < i then memory[k].(active := false) else memory[k]
      {
        routes[i] := routes[i].(active := false);
        i := i + 1;
      }
    }

    method Find(dest: Id) returns (index: int)
      requires routes.Length == MAX_ROUTES
      ensures var i := FindRoute(routes[..], dest, 0); index == if i < MAX_ROUTES then i else -1
    {
      var i := 0;
      while i < MAX_ROUTES
        invariant 0 <= i <= MAX_ROUTES
        invariant FindRoute(routes[..], dest, 0) == FindRoute(routes[..], dest, i)
      {
        if routes[i].destId == dest {
          return i;
        }
        i := i + 1;
      }
      return -1;
    }

    method FindEmptySlot(now: nat) returns (index: nat)
      requires routes.Length == MAX_ROUTES
      ensures IsVictim(routes[..], Millis(now), index)
    {
      var i := 0;
      while i < MAX_ROUTES
        invariant 0 <= i <= MAX_ROUTES
        invariant forall k :: 0 <= k < i ==> routes[k].active
      {
        if !routes[i].active {
          return i;
        }
        i := i + 1;
      }
      var oldestTime := Millis(now);
      index := 0;
      i := 0;
      while i < MAX_ROUTES
        invariant 0 <= i <= MAX_ROUTES && index < MAX_ROUTES
        invariant forall k :: 0 <= k < i ==> oldestTime <= routes[k].lastSeen
        invariant if exists k :: 0 <= k < i && routes[k].lastSeen < Millis(now)
                  then index < i && oldestTime == routes[index].lastSeen
                       && forall k :: 0 <= k < index ==> oldestTime < routes[k].lastSeen
                  else index == 0 && oldestTime == Millis(now)
      {
        if routes[i].lastSeen < oldestTime {
          oldestTime := routes[i].lastSeen;
          index := i;
        }
        i := i + 1;
      }
    }

    method UpdateRoute(r: Reception)
      requires Valid()
      modifies this, routes
      ensures Valid() && heard == old(heard) + {r}
      ensures Updated(old(routes[..]), routes[..], r)
    {
      ghost var rs := routes[..];
      heard := heard + {r};
      if r.hops >= MAX_HOPS - 1 {
        return;
      }
      var newRoute := EntryOf(r);
      var index := Find(r.source);
      if index != -1 {
        if IsBetterRoute(newRoute, routes[index]) {
          routes[index] := newRoute;
          origins := origins[index := r];
          assert routes[..] == rs[index := newRoute];
        }
      } else {
        var slot := FindEmptySlot(r.at);
        routes[slot] := newRoute;
        origins := origins[slot := r];
        assert routes[..] == rs[slot := newRoute];
      }
    }

    /** The next hop towards `dest`; an entry found too old is retired. */
    method FindNextHop(dest: Id, now: nat) returns (found: bool, nextHop: Id)
      requires Valid()
      modifies routes
      ensures Valid()
      ensures var hop := NextHop(old(routes[..]), dest, now);
        found == hop.Some? && (found ==> nextHop == hop.value)
      ensures routes[..] == Retired(old(routes[..]), dest, now)
      ensures found ==> exists r :: r in heard && FreshHop(r, dest, nextHop, now)
    {
      nextHop := [0, 0, 0, 0];
      var index := Find(dest);
      if index != -1 && routes[index].active {
        if Elapsed(Millis(now), routes[index].lastSeen) < ROUTE_TIMEOUT {
          if origins[index].at <= now < origins[index].at + CLOCK {
            ElapsedIsReal(origins[index].at, now);
          }
          assert FreshHop(origins[index], dest, routes[index].nextHopId, now);
          return true, routes[index].nextHopId;
        }
        ghost var rs := routes[..];
        routes[index] := routes[index].(active := false);
        assert routes[..] == rs[index := rs[index].(active := false)];
      }
      found := false;
    }
  }

  /** `r` came from `dest` through `hop`, less than five minutes ago if it is younger than the clock's period. */
  ghost predicate FreshHop(r: Reception, dest: Id, hop: Id, now: nat) {
    r.source == dest && r.lastHop == hop && (r.at <= now < r.at + CLOCK ==> now - r.at < ROUTE_TIMEOUT)
  }

  // ----- what the invariant gives -----

  /** Active routes have distinct destinations, and looking a destination up finds its active route. */
  lemma ActiveRoutesAreFound(rs: seq<RouteEntry>, j: nat)
    requires Reachable(rs) && j < |rs| && rs[j].active
    ensures FindRoute(rs, rs[j].destId, 0) == j
    ensures forall i :: 0 <= i < |rs| && i != j && rs[i].active ==> rs[i].destId != rs[j].destId
  {
  }

  /** Before the clock wraps, a full table gives up a slot that was seen longest ago. */
  lemma FullTableEvictsOldest(rs: seq<RouteEntry>, rs': seq<RouteEntry>, r: Reception)
    requires |rs| == MAX_ROUTES && Updated(rs, rs', r) && r.hops < MAX_HOPS - 1
    requires forall i :: 0 <= i < |rs| ==> rs[i].active && rs[i].destId != r.source && rs[i].lastSeen <= Millis(r.at)
    ensures exists slot: nat :: slot < |rs| && rs' == rs[slot := EntryOf(r)]
                           && forall i :: 0 <= i < |rs| ==> rs[slot].lastSeen <= rs[i].lastSeen
  {
    var slot: nat :| IsVictim(rs, Millis(r.at), slot) && rs' == rs[slot := EntryOf(r)];
    assert forall i :: 0 <= i < |rs| ==> rs[slot].lastSeen <= rs[i].lastSeen;
  }

  /**
   A reception brings back an expired route exactly if it is better than the expired entry:
   the lookup does not tell retired slots from active ones.
   */
  lemma ExpiredRouteReturnsIffBetter(rs: seq<RouteEntry>, rs': seq<RouteEntry>, r: Reception)
    requires Reachable(rs) && Updated(rs, rs', r)
    requires var i := FindRoute(rs, r.source, 0); i < |rs| && !rs[i].active
    ensures HasRoute(rs', r.source) <==>
            r.hops < MAX_HOPS - 1 && IsBetterRoute(EntryOf(r), rs[FindRoute(rs, r.source, 0)])
  {
    UpdatedInPlace(rs, rs', r);
    NoRouteBehindRetired(rs, r.source);
    hide Updated, IsBetterRoute, FindRoute, Reachable, HasRoute;
    var i := FindRoute(rs, r.source, 0);
    RouteAt(rs[i := EntryOf(r)], i);
  }

  lemma RouteAt(rs: seq<RouteEntry>, i: nat)
    requires i < |rs| && rs[i].active
    ensures HasRoute(rs, rs[i].destId)
  {
  }

  lemma NoRouteBehindRetired(rs: seq<RouteEntry>, dest: Id)
    requires Reachable(rs) && FindRoute(rs, dest, 0) < |rs| && !rs[FindRoute(rs, dest, 0)].active
    ensures !HasRoute(rs, dest)
  {
    var i := FindRoute(rs, dest, 0);
    hide FindRoute;
    forall j | 0 <= j < |rs| && rs[j].active ensures rs[j].destId != dest {
      assert i < j ==> rs[i].destId != rs[j].destId;
    }
  }

  lemma UpdatedInPlace(rs: seq<RouteEntry>, rs': seq<RouteEntry>, r: Reception)
    requires Updated(rs, rs', r) && FindRoute(rs, r.source, 0) < |rs|
    ensures var i := FindRoute(rs, r.source, 0);
      rs' == if r.hops < MAX_HOPS - 1 && IsBetterRoute(EntryOf(r), rs[i]) then rs[i := EntryOf(r)] else rs
  {
  }

  ghost predicate HasRoute(rs: seq<RouteEntry>, dest: Id) {
    exists j :: 0 <= j < |rs| && rs[j].active && rs[j].destId == dest
  }

  // ----- hysteresis -----

  datatype Quality = Quality(rssi: int, hops: nat)

  /** A replacement because the signal is clearly stronger. */
  predicate BySignal(a: Quality, b: Quality) {
    b.rssi > a.rssi + RSSI_UPPER_THRESHOLD
  }

  /** A replacement because the route is shorter at a comparable signal. */
  predicate ByHops(a: Quality, b: Quality) {
    a.rssi - RSSI_LOWER_THRESHOLD <= b.rssi <= a.rssi + RSSI_UPPER_THRESHOLD && b.hops < a.hops
  }

  function QualityOf(e: RouteEntry): Quality {
    Quality(e.rssi, e.hops)
  }

  lemma ReplacementHasReason(a: RouteEntry, b: RouteEntry)
    ensures IsBetterRoute(b, a) <==> BySignal(QualityOf(a), QualityOf(b)) || ByHops(QualityOf(a), QualityOf(b))
    ensures !(BySignal(QualityOf(a), QualityOf(b)) && ByHops(QualityOf(a), QualityOf(b)))
  {
  }

  /** Each quality is the one before or replaces it. */
  predicate Replacements(q: seq<Quality>) {
    forall i :: 0 <= i < |q| - 1 ==> q[i + 1] == q[i] || BySignal(q[i], q[i + 1]) || ByHops(q[i], q[i + 1])
  }

  function CountBySignal(q: seq<Quality>): nat {
    if |q| < 2 then 0
    else CountBySignal(q[..|q| - 1]) + if BySignal(q[|q| - 2], q[|q| - 1]) then 1 else 0
  }

  function CountByHops(q: seq<Quality>): nat {
    if |q| < 2 then 0
    else CountByHops(q[..|q| - 1]) + if ByHops(q[|q| - 2], q[|q| - 1]) then 1 else 0
  }

  /** How far a run of replacements can have moved. */
  lemma {:induction false} RunMoves(q: seq<Quality>)
    requires Replacements(q) && q != []
    ensures q[|q| - 1].rssi >= q[0].rssi + 13 * CountBySignal(q) - 6 * CountByHops(q)
    ensures CountBySignal(q) == 0 ==> q[|q| - 1].hops + CountByHops(q) <= q[0].hops
    ensures CountBySignal(q) + CountByHops(q) == 0 ==> forall i :: 0 <= i < |q| ==> q[i] == q[0]
  {
    if |q| > 1 {
      var p := q[..|q| - 1];
      RunMoves(p);
      assert q[|q| - 2 + 1] == q[|q| - 2] || BySignal(q[|q| - 2], q[|q| - 2 + 1]) || ByHops(q[|q| - 2], q[|q| - 2 + 1]);
    }
  }

  /**
   A run of qualities that leaves one and comes back to it contains a signal-based replacement and at
   least 13 hop-based ones for every 6 signal-based ones; there are four replacements at least.
   */
  lemma CyclesAreLong(q: seq<Quality>, k: nat)
    requires Replacements(q) && k < |q| && q[|q| - 1] == q[0] && q[k] != q[0]
    ensures CountBySignal(q) >= 1 && 6 * CountByHops(q) >= 13 * CountBySignal(q)
    ensures CountBySignal(q) + CountByHops(q) >= 4
  {
    RunMoves(q);
  }

  // ----- hysteresis of the table itself -----

  /** What can happen to the table: a reception, or a lookup that may retire a route. */
  ghost predicate TableStep(rs: seq<RouteEntry>, rs': seq<RouteEntry>) {
    || (exists r :: Updated(rs, rs', r))
    || (exists dest, now :: rs' == Retired(rs, dest, now))
  }

  /** A run of the table throughout which `dest` keeps its slot. */
  ghost predicate TableRun(tables: seq<seq<RouteEntry>>, dest: Id, slot: nat) {
    && tables != []
    && (forall k :: 0 <= k < |tables| ==> slot < |tables[k]| && FindRoute(tables[k], dest, 0) == slot)
    && (forall k :: 0 <= k < |tables| - 1 ==> TableStep(tables[k], tables[k + 1]))
  }

  /** The qualities a slot goes through. */
  function Qualities(tables: seq<seq<RouteEntry>>, slot: nat): (q: seq<Quality>)
    requires forall k :: 0 <= k < |tables| ==> slot < |tables[k]|
    ensures |q| == |tables| && forall k :: 0 <= k < |q| ==> q[k] == QualityOf(tables[k][slot])
  {
    seq(|tables|, k requires 0 <= k < |tables| => QualityOf(tables[k][slot]))
  }

  /** A step that leaves a destination its slot keeps the slot's quality or replaces it by a better route. */
  lemma StepKeepsOrReplaces(rs: seq<RouteEntry>, rs': seq<RouteEntry>, dest: Id, slot: nat)
    requires TableStep(rs, rs') && slot < |rs| && slot < |rs'|
    requires FindRoute(rs, dest, 0) == slot && FindRoute(rs', dest, 0) == slot
    ensures var (a, b) := (QualityOf(rs[slot]), QualityOf(rs'[slot])); b == a || BySignal(a, b) || ByHops(a, b)
  {
    if r :| Updated(rs, rs', r) {
      if r.source == dest {
        UpdatedInPlace(rs, rs', r);
        ReplacementHasReason(rs[slot], EntryOf(r));
      } else {
        OtherSourceKeepsSlot(rs, rs', r, dest, slot);
      }
    }
  }

  lemma OtherSourceKeepsSlot(rs: seq<RouteEntry>, rs': seq<RouteEntry>, r: Reception, dest: Id, slot: nat)
    requires Updated(rs, rs', r) && r.source != dest && slot < |rs| && slot < |rs'|
    requires FindRoute(rs, dest, 0) == slot && FindRoute(rs', dest, 0) == slot
    ensures rs'[slot] == rs[slot]
  {
    hide Updated, FindRoute;
    var j := UpdatedSlot(rs, rs', r);
    assert rs'[slot].destId == dest && EntryOf(r).destId != dest;
  }

  /** A reception changes one slot at most. */
  lemma UpdatedSlot(rs: seq<RouteEntry>, rs': seq<RouteEntry>, r: Reception) returns (j: nat)
    requires Updated(rs, rs', r)
    ensures rs' == rs || (j < |rs| && rs' == rs[j := EntryOf(r)])
  {
    hide IsBetterRoute;
    j := FindRoute(rs, r.source, 0);
    if r.hops < MAX_HOPS - 1 && j == |rs| {
      j :| IsVictim(rs, Millis(r.at), j) && rs' == rs[j := EntryOf(r)];
    }
  }

  /**
   Route flapping is bounded: while a destination keeps its slot, whatever is heard and looked up, its
   route cannot leave a quality and return to it without R >= 1 replacements by signal and H by hops,
   6H >= 13R, so never in fewer than four.
   */
  lemma FlappingIsBounded(tables: seq<seq<RouteEntry>>, dest: Id, slot: nat, k: nat)
    requires TableRun(tables, dest, slot) && k < |tables|
    requires var q := Qualities(tables, slot); q[|q| - 1] == q[0] && q[k] != q[0]
    ensures var q := Qualities(tables, slot);
      && CountBySignal(q) >= 1 && 6 * CountByHops(q) >= 13 * CountBySignal(q)
      && CountBySignal(q) + CountByHops(q) >= 4
  {
    hide FindRoute, TableStep, CountBySignal, CountByHops, BySignal, ByHops, Qualities;
    var q := Qualities(tables, slot);
    forall i | 0 <= i < |q| - 1 ensures q[i + 1] == q[i] || BySignal(q[i], q[i + 1]) || ByHops(q[i], q[i + 1]) {
      StepKeepsOrReplaces(tables[i], tables[i + 1], dest, slot);
    }
    CyclesAreLong(q, k);
  }

  /** Four replacements are enough to come back, whatever the other nine slots hold, so the bound is exact. */
  lemma CycleOfFour(dest: Id, hop: Id, rest: seq<RouteEntry>)
    requires |rest| == MAX_ROUTES - 1
    ensures exists tables ::
      TableRun(tables, dest, 0) && |tables| == 5 && tables[4] == tables[0] && tables[1] != tables[0]
  {
    hide TableStep, FindRoute;
    var e0, e1, e2 := Seen(dest, hop, -80, 0), Seen(dest, hop, -67, 3), Seen(dest, hop, -73, 2);
    var e3 := Seen(dest, hop, -79, 1);
    var tables := [[e0] + rest, [e1] + rest, [e2] + rest, [e3] + rest, [e0] + rest];
    SeenIsStep(e0, dest, hop, -67, 3, rest);
    SeenIsStep(e1, dest, hop, -73, 2, rest);
    SeenIsStep(e2, dest, hop, -79, 1, rest);
    SeenIsStep(e3, dest, hop, -80, 0, rest);
    FirstIsFound(e0, dest, rest);
    FirstIsFound(e1, dest, rest);
    FirstIsFound(e2, dest, rest);
    FirstIsFound(e3, dest, rest);
    assert tables[0][0] != tables[1][0];
    assert TableRun(tables, dest, 0);
  }

  lemma SeenIsStep(e: RouteEntry, dest: Id, hop: Id, rssi: Int8, hops: nat, rest: seq<RouteEntry>)
    requires e.destId == dest && hops < MAX_HOPS - 1 && IsBetterRoute(Seen(dest, hop, rssi, hops), e)
    ensures TableStep([e] + rest, [Seen(dest, hop, rssi, hops)] + rest)
  {
    ImprovementIsStep(e, Reception(dest, hop, hops, rssi, 0), rest);
  }

  lemma FirstIsFound(e: RouteEntry, dest: Id, rest: seq<RouteEntry>)
    requires e.destId == dest
    ensures FindRoute([e] + rest, dest, 0) == 0
  {
  }

  function Seen(dest: Id, hop: Id, rssi: Int8, hops: nat): RouteEntry {
    RouteEntry(dest, hop, hops, rssi, 0, true)
  }

  lemma ImprovementIsStep(e: RouteEntry, r: Reception, rest: seq<RouteEntry>)
    requires e.destId == r.source && r.hops < MAX_HOPS - 1 && IsBetterRoute(EntryOf(r), e)
    ensures TableStep([e] + rest, [EntryOf(r)] + rest)
  {
    assert FindRoute([e] + rest, r.source, 0) == 0;
    assert ([e] + rest)[0 := EntryOf(r)] == [EntryOf(r)] + rest;
    assert Updated([e] + rest, [EntryOf(r)] + rest, r);
  }

  // ----- a route that was learned is the one that is used -----

  /** What happens to the table: a reception, or a lookup. */
  datatype Action = Hear(r: Reception) | Look(dest: Id, now: nat)

  ghost predicate ActionStep(rs: seq<RouteEntry>, rs': seq<RouteEntry>, a: Action) {
    match a
    case Hear(r) => Updated(rs, rs', r)
    case Look(dest, now) => rs' == Retired(rs, dest, now)
  }

  /** Nothing better is heard of its source than `r`, and no lookup comes earlier, or later than `now`. */
  predicate Spares(a: Action, r: Reception, now: nat) {
    match a
    case Hear(other) => other.source == r.source ==> !IsBetterRoute(EntryOf(other), EntryOf(r))
    case Look(_, when) => r.at <= when <= now
  }

  /** Tables before and after each action, throughout which the source of `r` keeps its slot. */
  ghost predicate Sparing(tables: seq<seq<RouteEntry>>, actions: seq<Action>, r: Reception, now: nat) {
    && |tables| == |actions| + 1
    && (forall k :: 0 <= k < |actions| ==>
          ActionStep(tables[k], tables[k + 1], actions[k]) && Spares(actions[k], r, now))
    && (forall k :: 0 <= k < |tables| ==> Holds(tables[k], r.source, FindRoute(tables[0], r.source, 0)))
  }

  predicate Holds(rs: seq<RouteEntry>, dest: Id, slot: nat) {
    slot < |rs| && FindRoute(rs, dest, 0) == slot
  }

  lemma ActionSpares(rs: seq<RouteEntry>, rs': seq<RouteEntry>, a: Action, r: Reception, slot: nat, now: nat)
    requires ActionStep(rs, rs', a) && Spares(a, r, now) && Holds(rs, r.source, slot) && Holds(rs', r.source, slot)
    requires rs[slot] == EntryOf(r) && now - r.at < 300000
    ensures rs'[slot] == EntryOf(r)
  {
    match a
    case Hear(other) =>
      if other.source != r.source {
        OtherSourceKeepsSlot(rs, rs', other, r.source, slot);
      }
    case Look(dest, when) =>
      if FindRoute(rs, dest, 0) == slot {
        ElapsedIsReal(r.at, when);
      }
  }

  lemma {:induction false} RouteLasts(tables: seq<seq<RouteEntry>>, actions: seq<Action>, r: Reception, slot: nat,
                                      now: nat, k: nat)
    requires Sparing(tables, actions, r, now) && slot == FindRoute(tables[0], r.source, 0) && k < |tables|
    requires slot < |tables[0]| && tables[0][slot] == EntryOf(r) && now - r.at < 300000
    ensures Holds(tables[k], r.source, slot) && tables[k][slot] == EntryOf(r)
  {
    hide ActionStep, Spares, Holds, FindRoute;
    assert Holds(tables[k], r.source, slot);
    if k == 0 {
      assert slot < |tables[0]|;
    } else {
      RouteLasts(tables, actions, r, slot, now, k - 1);
      ActionSpares(tables[k - 1], tables[k], actions[k - 1], r, slot, now);
    }
    HeldSlot(tables[k], r.source, slot);
  }

  lemma HeldSlot(rs: seq<RouteEntry>, dest: Id, slot: nat)
    requires Holds(rs, dest, slot)
    ensures slot < |rs|
  {
  }

  /** A source heard for the first time, below the hop limit, gets a slot. */
  lemma NewSourceGetsSlot(rs: seq<RouteEntry>, rs': seq<RouteEntry>, r: Reception)
    requires Updated(rs, rs', r) && FindRoute(rs, r.source, 0) == |rs| && r.hops < 6
    ensures var slot := FindRoute(rs', r.source, 0); slot < |rs'| && rs'[slot] == EntryOf(r)
  {
    var slot: nat :| IsVictim(rs, Millis(r.at), slot) && rs' == rs[slot := EntryOf(r)];
    assert rs'[slot].destId == r.source;
    assert forall k :: 0 <= k < |rs| && k != slot ==> rs'[k] == rs[k];
  }

  /** From hop six on a reception changes nothing. */
  lemma FarSourceIsIgnored(rs: seq<RouteEntry>, rs': seq<RouteEntry>, r: Reception)
    requires Updated(rs, rs', r) && r.hops >= 6
    ensures rs' == rs
  {
  }

  /**
   The hop through which a new source was heard is the one that a lookup within five minutes gives, whatever
   else is heard and looked up in between, as long as the source keeps its slot and no better route to it
   is heard.
   */
  lemma LearnedRouteIsUsed(rs: seq<RouteEntry>, tables: seq<seq<RouteEntry>>, actions: seq<Action>, r: Reception,
                           now: nat)
    requires tables != [] && Updated(rs, tables[0], r) && FindRoute(rs, r.source, 0) == |rs| && r.hops < 6
    requires Sparing(tables, actions, r, now) && r.at <= now < r.at + 300000
    ensures NextHop(tables[|tables| - 1], r.source, now) == Some(r.lastHop)
  {
    NewSourceGetsSlot(rs, tables[0], r);
    var slot := FindRoute(tables[0], r.source, 0);
    RouteLasts(tables, actions, r, slot, now, |tables| - 1);
    ElapsedIsReal(r.at, now);
  }
}
