/** Binary searches of address intervals: symbols, memory maps, source lines. */
module IntervalSearch {
  import opened Basics

  /** The addresses from `start` to `last`, both included. A symbol that ends where the
      address space wraps has `last` below `start` and is empty. */
  datatype Span = Span(start: int, last: int)

  predicate Covers(s: Span, a: Address) {
    s.start <= a <= s.last
  }

  predicate Covered(t: seq<Span>, a: Address) {
    exists i :: 0 <= i < |t| && Covers(t[i], a)
  }

  predicate Monotone(t: seq<Span>) {
    && (forall i, j :: 0 <= i <= j < |t| ==> t[i].start <= t[j].start)
    && (forall i, j :: 0 <= i <= j < |t| ==> t[i].last <= t[j].last)
  }

  function Middle(min: int, max: int): (mid: int)
    requires 0 <= min <= max
    ensures min <= mid <= max && 2 * mid <= min + max <= 2 * mid + 1
  {
    (min + max) / 2
  }

  /** The probes that each of the loops makes between positions `min` and `max`. */
  function Probe(t: seq<Span>, a: Address, min: int, max: int): (k: Option<nat>)
    requires 0 <= min <= max + 1 <= |t|
    ensures k.Some? ==> min <= k.value <= max && Covers(t[k.value], a)
    decreases max - min
  {
    if min > max then None
    else
      var mid := Middle(min, max);
      if a < t[mid].start then Probe(t, a, min, mid - 1)
      else if a > t[mid].last then Probe(t, a, mid + 1, max)
      else Some(mid)
  }

  lemma ProbeStep(t: seq<Span>, a: Address, min: int, max: int)
    requires 0 <= min <= max + 1 <= |t|
    ensures min > max ==> Probe(t, a, min, max) == None
    ensures min <= max ==>
              var mid := Middle(min, max);
              Probe(t, a, min, max) ==
              if a < t[mid].start then Probe(t, a, min, mid - 1)
              else if a > t[mid].last then Probe(t, a, mid + 1, max)
              else Some(mid)
  {
  }

  function Search(t: seq<Span>, a: Address): (k: Option<nat>)
    ensures k.Some? ==> k.value < |t| && Covers(t[k.value], a)
  {
    Probe(t, a, 0, |t| - 1)
  }

  // ----- Exactly when the search is complete

  ghost predicate SortedByStart(t: seq<Span>) {
    && (forall i :: 0 <= i < |t| ==> 0 <= t[i].start < WORD)
    && (forall i, j :: 0 <= i <= j < |t| ==> t[i].start <= t[j].start)
  }

  /** The spans at positions below `h`, and only they, start at `a` or before. */
  ghost predicate StartsBelow(t: seq<Span>, a: Address, h: nat) {
    h <= |t| && forall i :: 0 <= i < |t| ==> (t[i].start <= a <==> i < h)
  }

  /** The positions below `h` at which a search from `min` to `max` compares an address with
      the end of a span, as long as it is behind all of them. */
  function Visited(min: int, max: int, h: nat): (r: set<int>)
    requires 0 <= min <= max + 1
    ensures forall k :: k in r ==> min <= k <= max && k < h
    decreases max - min
  {
    if min > max then {}
    else
      var mid := Middle(min, max);
      if mid >= h then Visited(min, mid - 1, h) else {mid} + Visited(mid + 1, max, h)
  }

  /** The probes find the address in the first visited span that reaches to it. */
  lemma {:induction false} ProbeExact(t: seq<Span>, a: Address, min: int, max: int, h: nat)
    requires StartsBelow(t, a, h) && 0 <= min <= max + 1 <= |t|
    ensures Probe(t, a, min, max).Some? <==> exists k :: k in Visited(min, max, h) && a <= t[k].last
    ensures Probe(t, a, min, max).Some? ==>
              var p := Probe(t, a, min, max).value;
              p in Visited(min, max, h) && forall k :: k in Visited(min, max, h) && k < p ==> t[k].last < a
    decreases max - min
  {
    hide Middle;
    if min <= max {
      var mid := Middle(min, max);
      assert t[mid].start <= a <==> mid < h;
      if mid >= h {
        ProbeExact(t, a, min, mid - 1, h);
      } else if a > t[mid].last {
        ProbeExact(t, a, mid + 1, max, h);
      } else {
        assert mid in Visited(min, max, h);
      }
    }
  }

  /** One search, exactly: it succeeds if and only if a visited span reaches to the
      address, and then it answers the first of them. */
  lemma SearchExact(t: seq<Span>, a: Address, h: nat)
    requires StartsBelow(t, a, h)
    ensures Search(t, a).Some? <==> exists k :: k in Visited(0, |t| - 1, h) && a <= t[k].last
    ensures Search(t, a).Some? ==>
              var p := Search(t, a).value;
              && p < |t| && Covers(t[p], a) && p in Visited(0, |t| - 1, h)
              && forall k :: k in Visited(0, |t| - 1, h) && k < p ==> t[k].last < a
  {
    ProbeExact(t, a, 0, |t| - 1, h);
  }

  /** The last address that span `i` covers before span `h` starts. */
  function Far(t: seq<Span>, h: nat, i: nat): int
    requires i < h <= |t|
  {
    var limit := if h == |t| then WORD - 1 else t[h].start - 1;
    if t[i].last < limit then t[i].last else limit
  }

  /** Wherever a span reaches, between two starts, some visited span reaches as well. */
  ghost predicate Findable(t: seq<Span>) {
    forall h, i :: 0 <= i < h <= |t| && t[h - 1].start <= Far(t, h, i) ==>
      exists k :: k in Visited(0, |t| - 1, h) && Far(t, h, i) <= t[k].last
  }

  lemma {:induction false} CountStarts(t: seq<Span>, a: Address, n: nat) returns (h: nat)
    requires SortedByStart(t) && n <= |t| && forall i :: n <= i < |t| ==> a < t[i].start
    ensures StartsBelow(t, a, h)
  {
    if n == 0 || t[n - 1].start <= a {
      h := n;
    } else {
      h := CountStarts(t, a, n - 1);
    }
  }

  lemma FindableIsComplete(t: seq<Span>, a: Address)
    requires SortedByStart(t) && Findable(t)
    ensures Search(t, a).Some? <==> Covered(t, a)
  {
    hide Visited, Search;
    if i :| 0 <= i < |t| && Covers(t[i], a) {
      var h := CountStarts(t, a, |t|);
      SearchExact(t, a, h);
      assert t[h - 1].start <= a;
      assert h < |t| ==> a < t[h].start;
      assert a <= Far(t, h, i);
      var k :| k in Visited(0, |t| - 1, h) && Far(t, h, i) <= t[k].last;
    } else if Search(t, a).Some? {
      SearchCovers(t, a);
    }
  }

  /** Sorted by start, and no covered address is missed. */
  ghost predicate Searchable(t: seq<Span>) {
    SortedByStart(t) && Findable(t)
  }

  lemma SearchableIsComplete(t: seq<Span>, a: Address)
    ensures Search(t, a).Some? ==> Covered(t, a)
    ensures Searchable(t) ==> (Search(t, a).Some? <==> Covered(t, a))
  {
    hide Search;
    SearchCovers(t, a);
    if Searchable(t) {
      FindableIsComplete(t, a);
    }
  }

  lemma SearchCovers(t: seq<Span>, a: Address)
    ensures Search(t, a).Some? ==> Covered(t, a)
  {
    if Search(t, a).Some? {
      assert Covers(t[Search(t, a).value], a);
    }
  }

  /** An address that is missed, where the condition fails. */
  lemma MissedWithout(t: seq<Span>, h: nat, i: nat) returns (a: Address)
    requires SortedByStart(t) && i < h <= |t| && t[h - 1].start <= Far(t, h, i)
    requires forall k :: k in Visited(0, |t| - 1, h) ==> t[k].last < Far(t, h, i)
    ensures Covered(t, a) && Search(t, a).None?
  {
    hide Visited, Search;
    a := Far(t, h, i);
    assert StartsBelow(t, a, h);
    assert Covers(t[i], a);
    SearchExact(t, a, h);
  }

  /** A table sorted by start is searched correctly for every address if and only if
      `Findable` holds of it. */
  lemma CompleteIffFindable(t: seq<Span>)
    requires SortedByStart(t)
    ensures (forall a: Address :: Search(t, a).Some? <==> Covered(t, a)) <==> Findable(t)
  {
    hide Visited, Search;
    if Findable(t) {
      forall a: Address
        ensures Search(t, a).Some? <==> Covered(t, a)
      {
        FindableIsComplete(t, a);
      }
    } else {
      var h, i :| 0 <= i < h <= |t| && t[h - 1].start <= Far(t, h, i)
                  && !(exists k :: k in Visited(0, |t| - 1, h) && Far(t, h, i) <= t[k].last);
      var a := MissedWithout(t, h, i);
      assert !(Search(t, a).Some? <==> Covered(t, a));
    }
  }

  // ----- When ends are ordered too

  /** The last position below `h` is visited. */
  lemma {:induction false} LastIsVisited(min: int, max: int, h: nat)
    requires 0 <= min < h <= max + 1
    ensures h - 1 in Visited(min, max, h)
    decreases max - min
  {
    hide Middle;
    var mid := Middle(min, max);
    if mid >= h {
      LastIsVisited(min, mid - 1, h);
    } else if mid < h - 1 {
      LastIsVisited(mid + 1, max, h);
    }
  }

  /** Ordered ends are enough, so the search agrees with a scan. */
  lemma MonotoneIsFindable(t: seq<Span>)
    requires Monotone(t) && SortedByStart(t)
    ensures Findable(t)
  {
    hide Visited;
    forall h: nat, i: nat | i < h <= |t| && t[h - 1].start <= Far(t, h, i)
      ensures exists k :: k in Visited(0, |t| - 1, h) && Far(t, h, i) <= t[k].last
    {
      LastIsVisited(0, |t| - 1, h);
      assert t[i].last <= t[h - 1].last;
    }
  }

  lemma SearchIsScan(t: seq<Span>, a: Address)
    requires Monotone(t) && SortedByStart(t)
    ensures Search(t, a).Some? <==> Covered(t, a)
  {
    hide Search;
    MonotoneIsFindable(t);
    FindableIsComplete(t, a);
  }

  /** Intervals that do not overlap and are sorted by start are ordered by end as well. */
  lemma DisjointIsMonotone(t: seq<Span>)
    requires forall i :: 0 <= i < |t| ==> t[i].start <= t[i].last
    requires forall i, j :: 0 <= i < j < |t| ==> t[i].start <= t[j].start
    requires forall i, j :: 0 <= i < j < |t| ==> t[i].last < t[j].start || t[j].last < t[i].start
    ensures Monotone(t)
  {
    forall i, j | 0 <= i <= j < |t|
      ensures t[i].last <= t[j].last
    {
      if i < j {
        assert t[i].last < t[j].start;
      }
    }
  }

  /** Sorting by start alone is not enough: here the interval that reaches over its
      successors is not visited behind them. */
  lemma NestedIsMissed()
    ensures var t := [Span(0, 100), Span(10, 20), Span(30, 40)];
            && (forall i, j :: 0 <= i < j < |t| ==> t[i].start < t[j].start)
            && Covered(t, 50) && !Findable(t)
            && Search(t, 50) == None
  {
    var t := [Span(0, 100), Span(10, 20), Span(30, 40)];
    assert Covers(t[0], 50);
    assert Probe(t, 50, 2, 2) == Probe(t, 50, 3, 2);
    if Findable(t) {
      FindableIsComplete(t, 50);
      assert false;
    }
  }

  /** Nor are ordered ends necessary: here the interval that reaches over its successor is
      visited first. */
  lemma MonotoneIsNotNecessary()
    ensures var t := [Span(0, 100), Span(10, 20)];
            !Monotone(t) && Findable(t)
  {
    hide Visited, Middle;
    var t := [Span(0, 100), Span(10, 20)];
    assert t[0].last > t[1].last;
    forall h: nat, i: nat | i < h <= |t|
      ensures 0 in Visited(0, |t| - 1, h) && Far(t, h, i) <= t[0].last
    {
      FirstOfTwo(h);
    }
  }

  lemma FirstOfTwo(h: nat)
    requires 1 <= h <= 2
    ensures 0 in Visited(0, 1, h)
  {
  }

  // ----- Symbols

  datatype Symbol = Symbol(address: Address, size: Address, name: string)

  /** The first address after a symbol, computed in 64 bits. */
  function SymbolEnd(s: Symbol): Address {
    (s.address + s.size) % WORD
  }

  function SymbolSpan(s: Symbol): Span {
    Span(s.address, SymbolEnd(s) - 1)
  }

  function SymbolSpans(table: seq<Symbol>): seq<Span> {
    seq(|table|, i requires 0 <= i < |table| => SymbolSpan(table[i]))
  }

  /** Conversion of a 64-bit difference to a 32-bit int. */
  function ToInt32(x: Address): (r: int)
    ensures -0x8000_0000 <= r < 0x8000_0000 && (x - r) % 0x1_0000_0000 == 0
  {
    var low := x % 0x1_0000_0000;
    if low < 0x8000_0000 then low else low - 0x1_0000_0000
  }

  datatype Location = Location(name: string, number: int)

  /** The symbol reaches `size` bytes far; one that would reach over the last address is
      cut off at the remainder. */
  predicate InSymbol(s: Symbol, a: Address) {
    s.address <= a && a < if s.address + s.size < WORD then s.address + s.size else s.address + s.size - WORD
  }

  lemma EndOfSymbol(s: Symbol)
    ensures SymbolEnd(s) == if s.address + s.size < WORD then s.address + s.size else s.address + s.size - WORD
  {
  }

  /** symtab_by_address. */
  method SymtabByAddress(table: seq<Symbol>, address: Address) returns (r: Option<Location>)
    ensures r.Some? ==> exists i :: 0 <= i < |table| && InSymbol(table[i], address)
                                    && r.value == Location(table[i].name, ToInt32(address - table[i].address))
    ensures match Search(SymbolSpans(table), address)
            case None => r == None
            case Some(k) => r == Some(Location(table[k].name, ToInt32(address - table[k].address)))
    ensures Searchable(SymbolSpans(table)) ==>
              (r.Some? <==> exists i :: 0 <= i < |table| && InSymbol(table[i], address))
  {
    hide Middle, Searchable, SymbolEnd, ToInt32, Probe;
    ghost var t := SymbolSpans(table);
    SearchableIsComplete(t, address);
    var min, max := 0, |table| - 1;
    while min <= max
      invariant 0 <= min <= max + 1 <= |table|
      invariant Search(t, address) == Probe(t, address, min, max)
      decreases max - min
    {
      ProbeStep(t, address, min, max);
      var mid := Middle(min, max);
      EndOfSymbol(table[mid]);
      var sym := table[mid];
      if address < sym.address {
        max := mid - 1;
      } else if address >= SymbolEnd(sym) {
        min := mid + 1;
      } else {
        assert InSymbol(table[mid], address);
        return Some(Location(sym.name, ToInt32(address - sym.address)));
      }
    }
    ProbeStep(t, address, min, max);
    forall i | 0 <= i < |table| && InSymbol(table[i], address)
      ensures Covers(t[i], address)
    {
      EndOfSymbol(table[i]);
    }
    return None;
  }

  // ----- Memory maps

  datatype MemoryMap = MemoryMap(start: Address, end: Address, name: string)

  /** Unlike in the system's own maps, the upper end is included. */
  predicate InMap(m: MemoryMap, a: Address) {
    m.start <= a <= m.end
  }

  function MapSpans(maps: seq<MemoryMap>): seq<Span> {
    seq(|maps|, i requires 0 <= i < |maps| => Span(maps[i].start, maps[i].end))
  }

  predicate Names(maps: seq<MemoryMap>, a: Address, name: string) {
    exists i :: 0 <= i < |maps| && InMap(maps[i], a) && maps[i].name == name
  }

  /** addr_maps_search. */
  method AddrMapsSearch(maps: seq<MemoryMap>, address: Address) returns (name: string)
    ensures Names(maps, address, name) || name == "??"
    ensures match Search(MapSpans(maps), address)
            case None => name == "??"
            case Some(k) => name == maps[k].name
    ensures Searchable(MapSpans(maps)) && (exists i :: 0 <= i < |maps| && InMap(maps[i], address)) ==>
              Names(maps, address, name)
  {
    hide Middle, Searchable, Probe;
    ghost var t := MapSpans(maps);
    SearchableIsComplete(t, address);
    var min, max := 0, |maps| - 1;
    while min <= max
      invariant 0 <= min <= max + 1 <= |maps|
      invariant Search(t, address) == Probe(t, address, min, max)
      decreases max - min
    {
      ProbeStep(t, address, min, max);
      var mid := Middle(min, max);
      var am := maps[mid];
      if address < am.start {
        max := mid - 1;
      } else if address > am.end {
        min := mid + 1;
      } else {
        assert InMap(maps[mid], address);
        return am.name;
      }
    }
    ProbeStep(t, address, min, max);
    assert forall i :: 0 <= i < |maps| && InMap(maps[i], address) ==> Covers(t[i], address);
    return "??";
  }

  /** Maps as the system reports them: not empty, in order, not overlapping. */
  ghost predicate Tidy(maps: seq<MemoryMap>) {
    && (forall i :: 0 <= i < |maps| ==> maps[i].start < maps[i].end)
    && (forall i, j :: 0 <= i < j < |maps| ==> maps[i].end <= maps[j].start)
  }

  /** Of the map `j` that holds `a`, upper end excluded, the search finds the name unless
      the map before it ends at `a` and is visited first. */
  lemma OwnerIsAnswered(maps: seq<MemoryMap>, a: Address, j: nat)
    requires Tidy(maps) && j < |maps| && maps[j].start <= a < maps[j].end
    ensures var before := j > 0 && maps[j - 1].end == a && j - 1 in Visited(0, |maps| - 1, j + 1);
            Search(MapSpans(maps), a) == Some(if before then j - 1 else j)
  {
    hide Visited, Search;
    var t := MapSpans(maps);
    assert forall i :: 0 <= i < |maps| ==> (t[i].start <= a <==> i < j + 1);
    forall i | 0 <= i < j - 1
      ensures t[i].last < a
    {
      assert maps[i].end <= maps[j - 1].start < maps[j - 1].end <= maps[j].start;
    }
    SearchExact(t, a, j + 1);
    LastIsVisited(0, |t| - 1, j + 1);
    assert a <= t[j].last;
    var p := Search(t, a).value;
    assert t[p].start <= a && p <= j;
    if j > 0 {
      assert maps[j - 1].end <= maps[j].start;
      assert p == j - 1 || p == j;
      assert p == j && j - 1 in Visited(0, |t| - 1, j + 1) ==> t[j - 1].last < a;
    } else {
      assert p == j;
    }
  }

  // ----- Source lines

  datatype Row = Row(address: Address, line: int, source: string)

  /** A compilation unit with its line table. Units without rows are not recorded. */
  datatype Unit = Unit(rows: seq<Row>, offset: Address)

  type LineUnit = u: Unit | |u.rows| > 0 witness Unit([Row(0, 0, "")], 0)

  /** The address of a row in the process, computed in 64 bits. */
  function RowAddress(u: Unit, k: nat): (a: Address)
    requires k < |u.rows|
    ensures a == u.rows[k].address + u.offset || a == u.rows[k].address + u.offset - WORD
  {
    (u.rows[k].address + u.offset) % WORD
  }

  predicate RowsOrdered(u: Unit) {
    forall j, k :: 0 <= j <= k < |u.rows| ==> RowAddress(u, j) <= RowAddress(u, k)
  }

  /** A unit reaches from its first row to its last. */
  function UnitSpan(u: LineUnit): Span {
    Span(RowAddress(u, 0), RowAddress(u, |u.rows| - 1))
  }

  function UnitSpans(units: seq<LineUnit>): seq<Span> {
    seq(|units|, i requires 0 <= i < |units| => UnitSpan(units[i]))
  }

  /** Each row reaches to the next; the last row only ends the table. */
  function RowSpans(u: LineUnit): seq<Span> {
    seq(|u.rows| - 1, k requires 0 <= k < |u.rows| - 1 => Span(RowAddress(u, k), RowAddress(u, k + 1)))
  }

  /** `r` is the source position of a row of `u` that reaches over `a`. */
  predicate IsLineAt(u: LineUnit, a: Address, r: Location) {
    exists k :: 0 <= k < |u.rows| - 1 && RowAddress(u, k) <= a <= RowAddress(u, k + 1)
      && r == Location(u.rows[k].source, u.rows[k].line)
  }

  /** Ordered rows leave no gap between the ends of the unit. */
  lemma {:induction false} RowBefore(u: LineUnit, a: Address, k: nat)
    requires RowsOrdered(u) && k < |u.rows| - 1
    requires RowAddress(u, 0) <= a <= RowAddress(u, k + 1)
    ensures Covered(RowSpans(u), a)
  {
    if RowAddress(u, k) <= a {
      assert Covers(RowSpans(u)[k], a);
    } else {
      RowBefore(u, a, k - 1);
    }
  }

  lemma RowsCoverUnit(u: LineUnit, a: Address)
    requires RowsOrdered(u)
    ensures Covered(RowSpans(u), a) <==> Covers(UnitSpan(u), a) && |u.rows| >= 2
  {
    if |u.rows| >= 2 && Covers(UnitSpan(u), a) {
      RowBefore(u, a, |u.rows| - 2);
    }
  }

  lemma RowsMonotone(u: LineUnit)
    requires RowsOrdered(u)
    ensures Monotone(RowSpans(u)) && SortedByStart(RowSpans(u))
  {
    hide RowAddress;
  }

  lemma RowsAnswer(u: LineUnit, a: Address)
    ensures RowsOrdered(u) ==> (Search(RowSpans(u), a).Some? <==> Covers(UnitSpan(u), a) && |u.rows| >= 2)
  {
    hide RowAddress, RowsOrdered, UnitSpan, RowSpans, Monotone, SortedByStart;
    if RowsOrdered(u) {
      RowsMonotone(u);
      SearchIsScan(RowSpans(u), a);
      RowsCoverUnit(u, a);
    }
  }

  /** debug_line_search_dwdie. */
  method SearchRows(u: LineUnit, address: Address) returns (r: Option<Location>)
    ensures r.Some? ==> IsLineAt(u, address, r.value)
    ensures match Search(RowSpans(u), address)
            case None => r == None
            case Some(k) => r == Some(Location(u.rows[k].source, u.rows[k].line))
    ensures RowsOrdered(u) ==> (r.Some? <==> Covers(UnitSpan(u), address) && |u.rows| >= 2)
  {
    hide Middle, RowAddress, RowsOrdered, UnitSpan, Probe;
    ghost var t := RowSpans(u);
    RowsAnswer(u, address);
    var min, max := 0, |u.rows| - 2;
    while min <= max
      invariant 0 <= min <= max + 1 <= |t|
      invariant Search(t, address) == Probe(t, address, min, max)
      decreases max - min
    {
      ProbeStep(t, address, min, max);
      var mid := Middle(min, max);
      var addr1, addr2 := RowAddress(u, mid), RowAddress(u, mid + 1);
      if address < addr1 {
        max := mid - 1;
      } else if address > addr2 {
        min := mid + 1;
      } else {
        return Some(Location(u.rows[mid].source, u.rows[mid].line));
      }
    }
    ProbeStep(t, address, min, max);
    return None;
  }

  predicate OnlyUnit(units: seq<LineUnit>, a: Address, i: int) {
    && 0 <= i < |units|
    && forall j :: 0 <= j < |units| ==> (Covers(UnitSpan(units[j]), a) <==> j == i)
  }

  ghost predicate Ordered(units: seq<LineUnit>) {
    Searchable(UnitSpans(units)) && forall i :: 0 <= i < |units| ==> RowsOrdered(units[i])
  }

  /** debug_line_search: first the unit, then its rows. */
  method DebugLineSearch(units: seq<LineUnit>, address: Address) returns (r: Option<Location>)
    ensures r.Some? ==> exists i :: 0 <= i < |units| && Covers(UnitSpan(units[i]), address)
                                    && IsLineAt(units[i], address, r.value)
    ensures match Search(UnitSpans(units), address)
            case None => r == None
            case Some(i) =>
              match Search(RowSpans(units[i]), address)
              case None => r == None
              case Some(k) => r == Some(Location(units[i].rows[k].source, units[i].rows[k].line))
    ensures Ordered(units) && Covered(UnitSpans(units), address) && r.None? ==>
              exists i :: 0 <= i < |units| && Covers(UnitSpan(units[i]), address) && |units[i].rows| == 1
    ensures Ordered(units) ==> forall i :: OnlyUnit(units, address, i) ==>
              && (r.Some? <==> |units[i].rows| >= 2)
              && (r.Some? ==> IsLineAt(units[i], address, r.value))
  {
    hide Middle, RowAddress, RowsOrdered, IsLineAt, Searchable, Probe;
    ghost var t := UnitSpans(units);
    SearchableIsComplete(t, address);
    var min, max := 0, |units| - 1;
    var dd := 0;
    while min <= max
      invariant 0 <= min <= max + 1 <= |units|
      invariant Search(t, address) == Probe(t, address, min, max)
      decreases max - min
    {
      ProbeStep(t, address, min, max);
      var mid := Middle(min, max);
      dd := mid;
      if address < RowAddress(units[mid], 0) {
        max := mid - 1;
      } else if address > RowAddress(units[mid], |units[mid].rows| - 1) {
        min := mid + 1;
      } else {
        break;
      }
    }
    if min > max {
      ProbeStep(t, address, min, max);
      assert forall i :: OnlyUnit(units, address, i) ==> Covers(t[i], address);
      return None;
    }
    assert Covers(UnitSpan(units[dd]), address);
    r := SearchRows(units[dd], address);
  }

  /** A unit of one row covers its address, and yet the search finds no line. */
  lemma SingleRowIsNotFound(u: LineUnit)
    requires |u.rows| == 1
    ensures Covers(UnitSpan(u), RowAddress(u, 0)) && RowSpans(u) == []
    ensures Search(RowSpans(u), RowAddress(u, 0)) == None
  {
  }
}
