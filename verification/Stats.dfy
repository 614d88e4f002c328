/** The filter statistics of stats.c: a head that counts everything and one listed entry per id. */
module Stats {
  import opened Words
  import opened Options
  import opened Lists
  import opened Ring

  datatype Stat = Stat(fid: u32, total: u32, forwarded: u32, dropped: u32)

  datatype Kind = Forwarded | Dropped | Failed

  /** The head's own counters and the listed entries. */
  datatype Book = Book(head: Stat, entries: seq<Stat>)

  /** `available` tells whether the allocation in stats_add succeeds. */
  datatype Event =
    | Add(fid: u32, available: bool)
    | Remove(fid: u32)
    | Reset(fid: u32)
    | Clear
    | Traffic(fid: u32, kind: Kind)

  datatype Column = Total | Sent | Lost

  function Pick(s: Stat, c: Column): u32 {
    match c
    case Total => s.total
    case Sent => s.forwarded
    case Lost => s.dropped
  }

  /** How much an event of this kind moves a column. */
  function Weight(k: Kind, c: Column): nat {
    match c
    case Total => 1
    case Sent => if k.Forwarded? then 1 else 0
    case Lost => if k.Dropped? then 1 else 0
  }

  function Bumped(s: Stat, k: Kind): Stat {
    Stat(s.fid, U32(s.total + 1), if k.Forwarded? then U32(s.forwarded + 1) else s.forwarded,
         if k.Dropped? then U32(s.dropped + 1) else s.dropped)
  }

  lemma BumpedColumn(s: Stat, k: Kind, c: Column)
    ensures Pick(Bumped(s, k), c) == U32(Pick(s, c) + Weight(k, c))
  {
  }

  function Zeroed(s: Stat): Stat {
    Stat(s.fid, 0, 0, 0)
  }

  function ByFid(fid: u32): Stat -> bool {
    (s: Stat) => s.fid == fid
  }

  function Bumper(k: Kind): Stat -> Stat {
    (s: Stat) => Bumped(s, k)
  }

  function Next(b: Book, e: Event): Book {
    match e
    case Add(fid, available) =>
      b.(entries := WithoutFirst(b.entries, ByFid(fid)) + if available then [Stat(fid, 0, 0, 0)] else [])
    case Remove(fid) => b.(entries := WithoutFirst(b.entries, ByFid(fid)))
    case Reset(fid) => b.(entries := MapFirst(b.entries, ByFid(fid), Zeroed))
    case Clear => b.(entries := [])
    case Traffic(fid, k) => Book(Bumped(b.head, k), MapFirst(b.entries, ByFid(fid), Bumper(k)))
  }

  const EMPTY := Book(Stat(0, 0, 0, 0), [])

  function After(h: seq<Event>): Book {
    if h == [] then EMPTY else Next(After(h[..|h| - 1]), h[|h| - 1])
  }

  // ---- What the history says, without any book ----

  /** The traffic of a column over a whole history, known id or not. */
  function Everything(h: seq<Event>, c: Column): nat {
    if h == [] then 0
    else
      var last := h[|h| - 1];
      Everything(h[..|h| - 1], c) + if last.Traffic? then Weight(last.kind, c) else 0
  }

  /** The number of an id's events of one kind since its entry was last added or reset. */
  function Since(h: seq<Event>, fid: u32, k: Kind): nat {
    if h == [] then 0
    else
      var before := Since(h[..|h| - 1], fid, k);
      match h[|h| - 1]
      case Add(f, _) => if f == fid then 0 else before
      case Remove(f) => if f == fid then 0 else before
      case Reset(f) => if f == fid then 0 else before
      case Clear => 0
      case Traffic(f, l) => if f == fid && l == k then before + 1 else before
  }

  function SinceStat(h: seq<Event>, fid: u32): Stat {
    StatOf(fid, Since(h, fid, Forwarded), Since(h, fid, Dropped), Since(h, fid, Failed))
  }

  /** An entry that has seen these numbers of events. */
  function StatOf(fid: u32, forwarded: nat, dropped: nat, failed: nat): Stat {
    Stat(fid, U32(forwarded + dropped + failed), U32(forwarded), U32(dropped))
  }

  lemma BumpedStatOf(fid: u32, f: nat, d: nat, e: nat, k: Kind)
    ensures Bumped(StatOf(fid, f, d, e), k) ==
      match k
      case Forwarded => StatOf(fid, f + 1, d, e)
      case Dropped => StatOf(fid, f, d + 1, e)
      case Failed => StatOf(fid, f, d, e + 1)
  {
    WrappedSum(f + d + e, 1);
    WrappedSum(f, 1);
    WrappedSum(d, 1);
  }

  /** The head counts every event ever, and nothing resets it. */
  lemma {:induction false} HeadCountsEverything(h: seq<Event>, c: Column)
    ensures Pick(After(h).head, c) == U32(Everything(h, c))
  {
    if h != [] {
      HeadCountsEverything(h[..|h| - 1], c);
      var last := h[|h| - 1];
      WrappedSum(Everything(h[..|h| - 1], c), if last.Traffic? then Weight(last.kind, c) else 0);
    }
  }

  // ---- Lists of entries ----

  ghost predicate DistinctIds(s: seq<Stat>) {
    forall j, k :: 0 <= j < k < |s| ==> s[j].fid != s[k].fid
  }

  lemma DistinctTail(s: seq<Stat>)
    requires DistinctIds(s) && s != []
    ensures s == [s[0]] + s[1..] && DistinctIds(s[1..])
    ensures forall x :: x in s[1..] ==> x.fid != s[0].fid
  {
  }

  lemma DistinctCons(x: Stat, rest: seq<Stat>)
    requires DistinctIds(rest) && forall y :: y in rest ==> y.fid != x.fid
    ensures DistinctIds([x] + rest)
  {
  }

  lemma {:induction false} RemovedIs(s: seq<Stat>, fid: u32)
    requires DistinctIds(s)
    ensures DistinctIds(WithoutFirst(s, ByFid(fid)))
    ensures forall x :: x in WithoutFirst(s, ByFid(fid)) <==> x in s && x.fid != fid
  {
    if s != [] {
      DistinctTail(s);
      if s[0].fid != fid {
        RemovedIs(s[1..], fid);
        DistinctCons(s[0], WithoutFirst(s[1..], ByFid(fid)));
      }
    }
  }

  lemma {:induction false} MappedIs(s: seq<Stat>, fid: u32, f: Stat -> Stat)
    requires DistinctIds(s) && forall x :: f(x).fid == x.fid
    ensures |MapFirst(s, ByFid(fid), f)| == |s|
    ensures forall i :: 0 <= i < |s| ==> MapFirst(s, ByFid(fid), f)[i] == if s[i].fid == fid then f(s[i]) else s[i]
  {
    if s != [] && s[0].fid != fid {
      MappedIs(s[1..], fid, f);
    }
  }

  /** The entry of an id after one more event about it. */
  lemma SinceStep(h: seq<Event>, fid: u32)
    requires h != []
    ensures var was, last := SinceStat(h[..|h| - 1], fid), h[|h| - 1];
      SinceStat(h, fid) == NextStat(was, last)
  {
    var g, last := h[..|h| - 1], h[|h| - 1];
    if last.Traffic? {
      BumpedStatOf(fid, Since(g, fid, Forwarded), Since(g, fid, Dropped), Since(g, fid, Failed), last.kind);
    }
  }

  ghost predicate EntriesExact(h: seq<Event>) {
    && DistinctIds(After(h).entries)
    && forall x :: x in After(h).entries ==> x == SinceStat(h, x.fid)
  }

  /**
   * Every listed entry shows exactly the events of its id since it was added or reset, and its total
   * is forwarded, dropped and failed events together, modulo 2^32. No id is listed twice.
   */
  lemma {:induction false} EntriesAreExact(h: seq<Event>)
    ensures EntriesExact(h)
  {
    if h != [] {
      EntriesAreExact(h[..|h| - 1]);
      EntriesStep(h);
    }
  }

  /** One event moves every listed entry as it moves the count of that entry's events. */
  lemma EntriesStep(h: seq<Event>)
    requires h != [] && EntriesExact(h[..|h| - 1])
    ensures EntriesExact(h)
  {
    var g, last := h[..|h| - 1], h[|h| - 1];
    var s := After(g).entries;
    EntriesNext(After(g), last);
    forall x | x in After(h).entries ensures x == SinceStat(h, x.fid) {
      SinceStep(h, x.fid);
    }
  }

  /** What an event makes of an id's entry. */
  function NextStat(was: Stat, e: Event): Stat {
    if e.Clear? || (!e.Traffic? && e.fid == was.fid) then Stat(was.fid, 0, 0, 0)
    else if e.Traffic? && e.fid == was.fid then Bumped(was, e.kind)
    else was
  }

  /** The entries after an event are the new one of an add, and earlier ones that it moved. */
  lemma EntriesNext(b: Book, e: Event)
    requires DistinctIds(b.entries)
    ensures DistinctIds(Next(b, e).entries)
    ensures forall x :: x in Next(b, e).entries ==>
      (e.Add? && x == Stat(e.fid, 0, 0, 0)) || exists was :: was in b.entries && x == NextStat(was, e)
  {
    var s := b.entries;
    match e
    case Add(fid, _) => RemovedIs(s, fid);
      assert forall x :: x in WithoutFirst(s, ByFid(fid)) ==> x == NextStat(x, e);
    case Remove(fid) => RemovedIs(s, fid);
      assert forall x :: x in WithoutFirst(s, ByFid(fid)) ==> x == NextStat(x, e);
    case Reset(fid) => MappedNext(s, e, fid, Zeroed);
    case Clear =>
    case Traffic(fid, k) => MappedNext(s, e, fid, Bumper(k));
  }

  lemma MappedNext(s: seq<Stat>, e: Event, fid: u32, f: Stat -> Stat)
    requires DistinctIds(s) && forall x :: f(x).fid == x.fid
    requires forall x :: x in s ==> NextStat(x, e) == if x.fid == fid then f(x) else x
    ensures DistinctIds(MapFirst(s, ByFid(fid), f))
    ensures forall x :: x in MapFirst(s, ByFid(fid), f) ==> exists was :: was in s && x == NextStat(was, e)
  {
    MappedIs(s, fid, f);
    var r := MapFirst(s, ByFid(fid), f);
    forall x | x in r ensures exists was :: was in s && x == NextStat(was, e) {
      var i :| 0 <= i < |r| && r[i] == x;
      assert s[i] in s && x == NextStat(s[i], e);
    }
  }

  /** Whether an id has been added, with success, and not been removed or cleared since. */
  predicate InForce(h: seq<Event>, fid: u32) {
    if h == [] then false
    else
      var before := InForce(h[..|h| - 1], fid);
      match h[|h| - 1]
      case Add(f, available) => if f == fid then available else before
      case Remove(f) => f != fid && before
      case Reset(_) => before
      case Clear => false
      case Traffic(_, _) => before
  }

  ghost predicate HasId(s: seq<Stat>, fid: u32) {
    exists x :: x in s && x.fid == fid
  }

  lemma HasIdStep(b: Book, e: Event, fid: u32)
    requires DistinctIds(b.entries)
    ensures HasId(Next(b, e).entries, fid) <==>
      match e
      case Add(f, available) => if f == fid then available else HasId(b.entries, fid)
      case Remove(f) => f != fid && HasId(b.entries, fid)
      case Reset(_) => HasId(b.entries, fid)
      case Clear => false
      case Traffic(_, _) => HasId(b.entries, fid)
  {
    var s, r := b.entries, Next(b, e).entries;
    match e
    case Add(f, available) =>
      RemovedIs(s, f);
      var rest := WithoutFirst(s, ByFid(f));
      assert forall x :: x in r <==> x in rest || (available && x == Stat(f, 0, 0, 0));
      assert available ==> Stat(f, 0, 0, 0) in r;
      assert HasId(r, fid) <==> HasId(rest, fid) || (available && f == fid);
    case Remove(f) => RemovedIs(s, f);
    case Reset(f) => MappedIds(s, f, Zeroed, fid);
    case Clear =>
    case Traffic(f, k) => MappedIds(s, f, Bumper(k), fid);
  }

  lemma MappedIds(s: seq<Stat>, f: u32, g: Stat -> Stat, fid: u32)
    requires DistinctIds(s) && forall x :: g(x).fid == x.fid
    ensures HasId(MapFirst(s, ByFid(f), g), fid) <==> HasId(s, fid)
  {
    MappedIs(s, f, g);
    var r := MapFirst(s, ByFid(f), g);
    if x :| x in r && x.fid == fid {
      var i :| 0 <= i < |r| && r[i] == x;
      assert s[i] in s && s[i].fid == fid;
    }
    if x :| x in s && x.fid == fid {
      var i :| 0 <= i < |s| && s[i] == x;
      assert r[i] in r && r[i].fid == fid;
    }
  }

  /** An id has an entry if and only if it was added and has not been removed or cleared since. */
  lemma {:induction false} ListedExactly(h: seq<Event>, fid: u32)
    ensures HasId(After(h).entries, fid) <==> InForce(h, fid)
  {
    if h != [] {
      ListedExactly(h[..|h| - 1], fid);
      EntriesAreExact(h[..|h| - 1]);
      HasIdStep(After(h[..|h| - 1]), h[|h| - 1], fid);
    }
  }

  /** A new entry comes last and at zero, in place of the one its id had; the rest keep their order. */
  lemma AddedLast(h: seq<Event>, fid: u32)
    ensures var s := After(h + [Add(fid, true)]).entries;
      && s != [] && s[|s| - 1] == Stat(fid, 0, 0, 0)
      && TakesOut(After(h).entries, s[..|s| - 1], (x: Stat) => x.fid == fid)
  {
    assert (h + [Add(fid, true)])[..|h|] == h;
    var b := After(h).entries;
    WithoutFirstTakesOut(b, ByFid(fid));
    TakesOutSame(b, WithoutFirst(b, ByFid(fid)), ByFid(fid), (x: Stat) => x.fid == fid);
    var s := After(h + [Add(fid, true)]).entries;
    assert s == WithoutFirst(b, ByFid(fid)) + [Stat(fid, 0, 0, 0)];
    assert s[..|s| - 1] == WithoutFirst(b, ByFid(fid));
  }

  // ---- Conservation ----

  function Sum(s: seq<Stat>, c: Column): nat {
    if s == [] then 0 else Pick(s[0], c) + Sum(s[1..], c)
  }

  lemma {:induction false} SumWithout(s: seq<Stat>, p: Stat -> bool, c: Column)
    ensures Sum(s, c) == Sum(WithoutFirst(s, p), c) + if First(s, p).Some? then Pick(First(s, p).value, c) else 0
  {
    if s != [] && !p(s[0]) {
      SumWithout(s[1..], p, c);
    }
  }

  lemma {:induction false} SumMapped(s: seq<Stat>, p: Stat -> bool, f: Stat -> Stat, c: Column)
    ensures var x := First(s, p);
      Sum(MapFirst(s, p, f), c) == Sum(s, c) + if x.Some? then Pick(f(x.value), c) - Pick(x.value, c) else 0
  {
    if s != [] && !p(s[0]) {
      SumMapped(s[1..], p, f, c);
      var r := MapFirst(s[1..], p, f);
      assert ([s[0]] + r)[1..] == r;
    } else if s != [] {
      assert ([f(s[0])] + s[1..])[1..] == s[1..];
    }
  }

  lemma {:induction false} SumAppend(s: seq<Stat>, x: Stat, c: Column)
    ensures Sum(s + [x], c) == Sum(s, c) + Pick(x, c)
  {
    if s == [] {
      assert s + [x] == [x];
    } else {
      assert (s + [x])[1..] == s[1..] + [x];
      SumAppend(s[1..], x, c);
    }
  }

  /** What an event takes out of the listed entries, or adds for an id that is not listed. */
  function Off(b: Book, e: Event, c: Column): int {
    match e
    case Add(fid, _) => Held(b, fid, c)
    case Remove(fid) => Held(b, fid, c)
    case Reset(fid) => Held(b, fid, c)
    case Clear => Sum(b.entries, c)
    case Traffic(fid, k) => if First(b.entries, ByFid(fid)).None? then Weight(k, c) else 0
  }

  function Held(b: Book, fid: u32, c: Column): nat {
    var x := First(b.entries, ByFid(fid));
    if x.Some? then Pick(x.value, c) else 0
  }

  /** Everything that left the entries or never reached one, over a history. */
  function OffTheBooks(h: seq<Event>, c: Column): int {
    if h == [] then 0
    else OffTheBooks(h[..|h| - 1], c) + Off(After(h[..|h| - 1]), h[|h| - 1], c)
  }

  /** Head and entries drift apart by what an event takes off the books. */
  lemma OneEvent(b: Book, e: Event, c: Column)
    ensures var n := Next(b, e);
      U32(Pick(n.head, c) - Sum(n.entries, c)) == U32(Pick(b.head, c) - Sum(b.entries, c) + Off(b, e, c))
  {
    match e
    case Add(fid, available) =>
      SumWithout(b.entries, ByFid(fid), c);
      if available {
        SumAppend(WithoutFirst(b.entries, ByFid(fid)), Stat(fid, 0, 0, 0), c);
      } else {
        assert WithoutFirst(b.entries, ByFid(fid)) + [] == WithoutFirst(b.entries, ByFid(fid));
      }
    case Remove(fid) => SumWithout(b.entries, ByFid(fid), c);
    case Reset(fid) => SumMapped(b.entries, ByFid(fid), Zeroed, c);
    case Clear =>
    case Traffic(fid, k) => OneTraffic(b, fid, k, c);
  }

  lemma OneTraffic(b: Book, fid: u32, k: Kind, c: Column)
    ensures var n := Next(b, Traffic(fid, k));
      U32(Pick(n.head, c) - Sum(n.entries, c))
      == U32(Pick(b.head, c) - Sum(b.entries, c) + Off(b, Traffic(fid, k), c))
  {
    SumMapped(b.entries, ByFid(fid), Bumper(k), c);
    var x := First(b.entries, ByFid(fid));
    var before, after := Sum(b.entries, c), Sum(MapFirst(b.entries, ByFid(fid), Bumper(k)), c);
    TrafficDrift(b.head, x, k, c, before, after);
  }

  lemma TrafficDrift(head: Stat, x: Option<Stat>, k: Kind, c: Column, before: int, after: int)
    requires after == before + if x.Some? then Pick(Bumped(x.value, k), c) - Pick(x.value, c) else 0
    ensures U32(Pick(Bumped(head, k), c) - after)
         == U32(Pick(head, c) - before + if x.None? then Weight(k, c) else 0)
  {
    BumpedColumn(head, k, c);
    if x.Some? {
      BumpedColumn(x.value, k, c);
      SameDrift(Pick(head, c), Pick(x.value, c), before, Weight(k, c), after);
    } else {
      HeadOnly(Pick(head, c), before, Weight(k, c));
    }
  }

  lemma SameDrift(head: int, x: int, sum: int, w: int, after: int)
    requires after == sum + (U32(x + w) - x)
    ensures U32(U32(head + w) - after) == U32(head - sum)
  {
    var (p, q) := ((head + w) / 0x1_0000_0000, (x + w) / 0x1_0000_0000);
    assert U32(head + w) == head + w - p * 0x1_0000_0000;
    assert U32(x + w) == x + w - q * 0x1_0000_0000;
    Multiple(head - sum, q - p);
  }

  lemma HeadOnly(head: int, sum: int, w: int)
    ensures U32(U32(head + w) - sum) == U32(head - sum + w)
  {
    var p := (head + w) / 0x1_0000_0000;
    assert U32(head + w) == head + w - p * 0x1_0000_0000;
    Multiple(head - sum + w, 0 - p);
  }

  lemma Multiple(a: int, p: int)
    ensures U32(a + p * 0x1_0000_0000) == U32(a)
  {
  }

  /**
   * Conservation over every history: in each column the head equals the listed entries plus what was
   * retired by removal, reset or clearing plus the events of unknown ids, modulo 2^32.
   */
  lemma {:induction false} Conservation(h: seq<Event>, c: Column)
    ensures U32(Pick(After(h).head, c)) == U32(Sum(After(h).entries, c) + OffTheBooks(h, c))
  {
    Drift(h, c);
    var head, sum, off := Pick(After(h).head, c), Sum(After(h).entries, c), OffTheBooks(h, c);
    WrappedSums(head - sum, sum);
    WrappedSums(off, sum);
  }

  lemma {:induction false} Drift(h: seq<Event>, c: Column)
    ensures U32(Pick(After(h).head, c) - Sum(After(h).entries, c)) == U32(OffTheBooks(h, c))
  {
    if h != [] {
      var g, last := h[..|h| - 1], h[|h| - 1];
      Drift(g, c);
      OneEvent(After(g), last, c);
      SameOffset(Pick(After(g).head, c) - Sum(After(g).entries, c), OffTheBooks(g, c), Off(After(g), last, c));
    }
  }

  lemma SameOffset(d: int, o: int, off: int)
    requires U32(d) == U32(o)
    ensures U32(d + off) == U32(o + off)
  {
    WrappedSums(d, off);
    WrappedSums(o, off);
  }

  // ---- The table itself ----

  class Table {
    var head: Stat
    const ring: Ring<Stat>

    ghost predicate Valid()
      reads this, ring, ring.head, ring.nodes
    {
      ring.Valid()
    }

    ghost function View(): Book
      requires Valid()
      reads this, ring, ring.head, ring.nodes
    {
      Book(head, ring.Items())
    }

    /** stats_init. */
    constructor ()
      ensures Valid() && View() == EMPTY
    {
      head := Stat(0, 0, 0, 0);
      ring := new Ring();
    }

    /** stats_add: 1 on success; the old entry goes even when the new one cannot be made. */
    method AddEntry(fid: u32, available: bool) returns (ret: int)
      requires Valid()
      modifies ring`nodes, ring.head, ring.nodes
      ensures Valid() && View() == Next(old(View()), Add(fid, available))
      ensures ret == if available then 1 else 0
    {
      var _ := ring.RemoveFirst(ByFid(fid));
      if !available {
        assert ring.Items() + [] == ring.Items();
        return 0;
      }
      var n := new Node(Some(Stat(fid, 0, 0, 0)));
      ring.AddTail(n);
      return 1;
    }

    /** stats_remove. */
    method RemoveEntry(fid: u32) returns (ret: int)
      requires Valid()
      modifies ring`nodes, ring.head, ring.nodes
      ensures Valid() && View() == Next(old(View()), Remove(fid))
      ensures ret == if First(old(View()).entries, ByFid(fid)).Some? then 0 else -1
    {
      var found := ring.RemoveFirst(ByFid(fid));
      ret := if found then 0 else -1;
    }

    /** stats_clear. */
    method ClearEntries()
      requires Valid()
      modifies ring`nodes, ring.head, ring.nodes
      ensures Valid() && View() == Next(old(View()), Clear)
    {
      ring.Clear();
    }

    /** stats_reset. */
    method ResetEntry(fid: u32)
      requires Valid()
      modifies ring.nodes`item
      ensures Valid() && View() == Next(old(View()), Reset(fid))
    {
      var _ := ring.UpdateFirst(ByFid(fid), Zeroed);
    }

    method CountHead(k: Kind)
      modifies this`head
      ensures head == Bumped(old(head), k)
    {
      head := head.(total := U32(head.total + 1));
      match k {
        case Forwarded => head := head.(forwarded := U32(head.forwarded + 1));
        case Dropped => head := head.(dropped := U32(head.dropped + 1));
        case Failed =>
      }
    }

    /** stats_forwarded, stats_dropped, stats_error: head first, then the entry if there is one. */
    method Count(fid: u32, k: Kind)
      requires Valid()
      modifies this`head, ring.nodes`item
      ensures Valid() && View() == Next(old(View()), Traffic(fid, k))
    {
      CountHead(k);
      var _ := ring.UpdateFirst(ByFid(fid), Bumper(k));
    }
  }
}
