/**
 * What dispatching a frame over the filter chains means: which filters match, which datagrams
 * go out and which counters move. The loops of filter.c are proved against this in Engine.
 */
module Dispatch {
  import opened Words
  import opened Options

  // Filter types and subtypes, rule actions: filter.h and rule.h.
  const TYPE_ALL := 1
  const TYPE_RADIOTAP := 2
  const TYPE_80211 := 3
  const TYPE_IP := 4
  const SUBTYPE_ALL_ALL := 1
  const SUBTYPE_SIZE_EQ := 2
  const SUBTYPE_SIZE_GE := 3
  const SUBTYPE_SIZE_LE := 4
  const ACTION_NONE := 0
  const ACTION_DROP := 1
  const ACTION_FWRD := 2
  const ACTION_CNT := 3

  /** A listener: its id, the address as text, and the socket address as it lies in memory. */
  datatype Listener = Listener(lid: u32, ipaddr: string, port: u16, sinAddr: u32, sinPort: u16)

  /** The function pointer a rule carries; FnUnset is NULL. */
  datatype ActionFn = FnUnset | FnNone | FnDrop | FnForward | FnCount

  /** A rule; `L` is how it refers to its listener. */
  datatype Rule<L> = Rule(rid: u32, aid: int, func: ActionFn, arg: Option<L>)

  /**
   * A filter; `R` is how it refers to its rule. `size` is what `%d` reads from its argument text,
   * which is fixed when the filter is created; None when no number can be read.
   */
  datatype Filter<R> = Filter(fid: u32, ftype: int, subtype: int, rule: Option<R>, count: u32, size: Option<int>)

  datatype Chain<R> = Chain(name: string, filters: seq<Filter<R>>)

  /** A configuration with every reference followed to the object it points to. */
  type ResolvedRule = Rule<Listener>
  type ResolvedFilter = Filter<ResolvedRule>
  type Chains = seq<Chain<ResolvedRule>>

  datatype Datagram = Datagram(to: Listener, payload: seq<byte>)

  /** The filter types whose slot in the handler table is not NULL. */
  predicate Handled(ftype: int) {
    TYPE_ALL <= ftype <= TYPE_IP
  }

  ghost predicate AllHandled<R>(chains: seq<Chain<R>>) {
    forall c, f :: 0 <= c < |chains| && 0 <= f < |chains[c].filters| ==> Handled(chains[c].filters[f].ftype)
  }

  /**
   * Whether a filter takes a frame of `len` bytes, header included. `skb->len` is unsigned, so the
   * comparison converts the signed argument modulo 2^32.
   */
  predicate Matches<R>(f: Filter<R>, len: u32) {
    && f.ftype == TYPE_ALL
    && (|| f.subtype == SUBTYPE_ALL_ALL
        || (f.subtype == SUBTYPE_SIZE_EQ && f.size.Some? && len == U32(f.size.value))
        || (f.subtype == SUBTYPE_SIZE_GE && f.size.Some? && len >= U32(f.size.value))
        || (f.subtype == SUBTYPE_SIZE_LE && f.size.Some? && len <= U32(f.size.value)))
  }

  /** Whether invoking a rule sends the frame to its listener. */
  predicate Forwards(r: ResolvedRule) {
    r.func.FnForward? && r.aid == ACTION_FWRD && r.arg.Some?
  }

  /** The datagrams one filter is responsible for. */
  function Contribution(f: ResolvedFilter, skb: seq<byte>): seq<Datagram> {
    if Matches(f, U32(|skb|)) && f.rule.Some? && Forwards(f.rule.value)
    then [Datagram(f.rule.value.arg.value, skb)]
    else []
  }

  /** The datagrams of a list of filters, in order. */
  function FilterOutput(fs: seq<ResolvedFilter>, skb: seq<byte>): seq<Datagram> {
    if fs == [] then []
    else FilterOutput(fs[..|fs| - 1], skb) + Contribution(fs[|fs| - 1], skb)
  }

  /** All filters, chain after chain. */
  function Flat<R>(chains: seq<Chain<R>>): seq<Filter<R>> {
    if chains == [] then []
    else Flat(chains[..|chains| - 1]) + chains[|chains| - 1].filters
  }

  /** The datagrams one frame gives rise to. */
  function Output(chains: Chains, skb: seq<byte>): seq<Datagram> {
    FilterOutput(Flat(chains), skb)
  }

  /** A filter after a frame of `len` bytes has passed it. */
  function Bump<R>(f: Filter<R>, len: u32): Filter<R> {
    if Matches(f, len) then f.(count := U32(f.count + 1)) else f
  }

  function BumpFilters<R>(fs: seq<Filter<R>>, len: u32): (r: seq<Filter<R>>)
    ensures |r| == |fs| && forall i :: 0 <= i < |fs| ==> r[i] == Bump(fs[i], len)
  {
    seq(|fs|, i requires 0 <= i < |fs| => Bump(fs[i], len))
  }

  function BumpChain<R>(c: Chain<R>, len: u32): Chain<R> {
    c.(filters := BumpFilters(c.filters, len))
  }

  /** The configuration after a frame of `len` bytes was dispatched. */
  function BumpAll<R>(chains: seq<Chain<R>>, len: u32): (r: seq<Chain<R>>)
    ensures |r| == |chains| && forall c :: 0 <= c < |chains| ==> r[c] == BumpChain(chains[c], len)
  {
    seq(|chains|, c requires 0 <= c < |chains| => BumpChain(chains[c], len))
  }

  // ---- Histories of frames ----

  /** The configuration after frames of the given lengths, in order. */
  function BumpHistory<R>(chains: seq<Chain<R>>, lens: seq<u32>): (r: seq<Chain<R>>)
    ensures |r| == |chains|
    ensures forall c :: 0 <= c < |chains| ==> |r[c].filters| == |chains[c].filters|
  {
    if lens == [] then chains
    else BumpAll(BumpHistory(chains, lens[..|lens| - 1]), lens[|lens| - 1])
  }

  /** How many of the frames a filter matches. */
  function MatchCount<R>(f: Filter<R>, lens: seq<u32>): nat {
    if lens == [] then 0
    else MatchCount(f, lens[..|lens| - 1]) + if Matches(f, lens[|lens| - 1]) then 1 else 0
  }

  /** A filter whose counter has grown by the number of frames it matched, modulo 2^32. */
  function Advanced<R>(f: Filter<R>, lens: seq<u32>): Filter<R> {
    f.(count := U32(f.count + MatchCount(f, lens)))
  }

  /**
   * Over any history every filter's counter grows by exactly the number of frames it matched,
   * modulo 2^32, and nothing else about it changes.
   */
  lemma {:induction false} CountsOverHistory<R>(chains: seq<Chain<R>>, lens: seq<u32>, c: nat, f: nat)
    requires c < |chains| && f < |chains[c].filters|
    ensures BumpHistory(chains, lens)[c].filters[f] == Advanced(chains[c].filters[f], lens)
  {
    if lens != [] {
      var n := |lens| - 1;
      CountsOverHistory(chains, lens[..n], c, f);
      AdvanceOnce(chains[c].filters[f], lens);
    }
  }

  lemma AdvanceOnce<R>(f: Filter<R>, lens: seq<u32>)
    requires lens != []
    ensures Bump(Advanced(f, lens[..|lens| - 1]), lens[|lens| - 1]) == Advanced(f, lens)
  {
    BumpMore(f, MatchCount(f, lens[..|lens| - 1]), MatchCount(f, lens), lens[|lens| - 1]);
  }

  lemma BumpMore<R>(was: Filter<R>, m: nat, n: nat, len: u32)
    requires n == m + if Matches(was, len) then 1 else 0
    ensures Bump(was.(count := U32(was.count + m)), len) == was.(count := U32(was.count + n))
  {
    MatchesIgnoresCount(was, U32(was.count + m), len);
    WrappedSum(was.count + m, 1);
  }

  lemma MatchesIgnoresCount<R>(f: Filter<R>, count: u32, len: u32)
    ensures Matches(f.(count := count), len) == Matches(f, len)
  {
  }

  /** A negative argument is compared as the unsigned number with the same 32 bits. */
  function Unsigned(n: int): int {
    if n < 0 then n + 0x1_0000_0000 else n
  }

  /** The frame is counted once and goes where the filter's rule sends it if `taken`, else neither. */
  ghost predicate Handles(f: ResolvedFilter, skb: seq<byte>, taken: bool) {
    && MatchCount(f, [|skb| % 0x1_0000_0000]) == (if taken then 1 else 0)
    && Contribution(f, skb) == if taken && f.rule.Some? then SentBy(f.rule.value, skb) else []
  }

  /** A FORWARD rule, action 2, sends to its listener if it has one; no other rule sends. */
  function SentBy(r: ResolvedRule, skb: seq<byte>): seq<Datagram> {
    if r.func.FnForward? && r.aid == 2 && r.arg.Some? then [Datagram(r.arg.value, skb)] else []
  }

  /**
   * The size tests, by the numbers written to the configuration: for a filter of type 1, subtype 1
   * takes every frame, subtypes 2, 3 and 4 those whose length with header is equal to, at least and
   * at most the argument; no other subtype takes any, nor does a size test whose argument is no number.
   */
  lemma SizeTests(f: ResolvedFilter, skb: seq<byte>)
    requires f.ftype == 1 && (f.size.Some? ==> -0x8000_0000 <= f.size.value < 0x8000_0000)
    ensures f.subtype == 1 ==> Handles(f, skb, true)
    ensures f.subtype in {2, 3, 4} && f.size.None? ==> Handles(f, skb, false)
    ensures f.subtype == 2 && f.size.Some? ==> Handles(f, skb, |skb| % 0x1_0000_0000 == Unsigned(f.size.value))
    ensures f.subtype == 3 && f.size.Some? ==> Handles(f, skb, |skb| % 0x1_0000_0000 >= Unsigned(f.size.value))
    ensures f.subtype == 4 && f.size.Some? ==> Handles(f, skb, |skb| % 0x1_0000_0000 <= Unsigned(f.size.value))
    ensures f.subtype !in {1, 2, 3, 4} ==> Handles(f, skb, false)
  {
    var len := |skb| % 0x1_0000_0000;
    assert [len][..0] == [];
    assert MatchCount(f, [len]) == if Matches(f, len) then 1 else 0;
    if f.size.Some? {
      assert U32(f.size.value) == Unsigned(f.size.value);
    }
  }

  /** The same as one condition on a filter and a length. */
  ghost predicate Takes<R>(f: Filter<R>, len: int) {
    && f.ftype == 1
    && (|| f.subtype == 1
        || (f.subtype == 2 && f.size.Some? && len == f.size.value % 0x1_0000_0000)
        || (f.subtype == 3 && f.size.Some? && len >= f.size.value % 0x1_0000_0000)
        || (f.subtype == 4 && f.size.Some? && len <= f.size.value % 0x1_0000_0000))
  }

  /** Radiotap, 802.11 and IP filters never count a frame and never send one. */
  lemma OtherTypesAreInert(f: ResolvedFilter, skb: seq<byte>, lens: seq<u32>)
    requires f.ftype != 1
    ensures MatchCount(f, lens) == 0 && Contribution(f, skb) == []
  {
  }

  // ---- Additivity ----

  lemma {:induction false} FilterOutputConcat(a: seq<ResolvedFilter>, b: seq<ResolvedFilter>, skb: seq<byte>)
    ensures FilterOutput(a + b, skb) == FilterOutput(a, skb) + FilterOutput(b, skb)
  {
    if b == [] {
      assert a + b == a;
    } else {
      var n := |b| - 1;
      assert (a + b)[..|a + b| - 1] == a + b[..n];
      FilterOutputConcat(a, b[..n], skb);
    }
  }

  /** The output of one chain more. */
  lemma {:induction false} OutputAppend(chains: Chains, x: Chain<ResolvedRule>, skb: seq<byte>)
    ensures Output(chains + [x], skb) == Output(chains, skb) + FilterOutput(x.filters, skb)
  {
    FlatAppend(chains, x);
    FilterOutputConcat(Flat(chains), x.filters, skb);
  }

  lemma {:induction false} FlatConcat<R>(a: seq<Chain<R>>, b: seq<Chain<R>>)
    ensures Flat(a + b) == Flat(a) + Flat(b)
  {
    if b == [] {
      assert a + b == a;
    } else {
      var n := |b| - 1;
      assert (a + b)[..|a + b| - 1] == a + b[..n];
      FlatConcat(a, b[..n]);
    }
  }

  /** A configuration with a filter inserted at position `p` of chain `c`. */
  function InsertFilter<R>(chains: seq<Chain<R>>, c: nat, p: nat, f: Filter<R>): seq<Chain<R>>
    requires c < |chains| && p <= |chains[c].filters|
  {
    var fs := chains[c].filters;
    chains[c := chains[c].(filters := fs[..p] + [f] + fs[p..])]
  }

  /** The filters ahead of position `p` of chain `c`, and those from there on. */
  function Before<R>(chains: seq<Chain<R>>, c: nat, p: nat): seq<Filter<R>>
    requires c < |chains| && p <= |chains[c].filters|
  {
    Flat(chains[..c]) + chains[c].filters[..p]
  }

  function After<R>(chains: seq<Chain<R>>, c: nat, p: nat): seq<Filter<R>>
    requires c < |chains| && p <= |chains[c].filters|
  {
    chains[c].filters[p..] + Flat(chains[c + 1..])
  }

  lemma {:induction false} FlatSplit<R>(chains: seq<Chain<R>>, c: nat)
    requires c < |chains|
    ensures Flat(chains) == Flat(chains[..c]) + chains[c].filters + Flat(chains[c + 1..])
  {
    var a, x, b := chains[..c], chains[c], chains[c + 1..];
    assert chains == a + [x] + b;
    FlatAround(a, x, b);
  }

  lemma {:induction false} FlatAround<R>(a: seq<Chain<R>>, x: Chain<R>, b: seq<Chain<R>>)
    ensures Flat(a + [x] + b) == Flat(a) + x.filters + Flat(b)
  {
    FlatAppend(a, x);
    FlatConcat(a + [x], b);
  }

  lemma {:induction false} FlatAppend<R>(chains: seq<Chain<R>>, x: Chain<R>)
    ensures Flat(chains + [x]) == Flat(chains) + x.filters
  {
    assert (chains + [x])[..|chains|] == chains;
  }

  lemma {:induction false} FlatInsert<R>(chains: seq<Chain<R>>, c: nat, p: nat, f: Filter<R>)
    requires c < |chains| && p <= |chains[c].filters|
    ensures Flat(chains) == Before(chains, c, p) + After(chains, c, p)
    ensures Flat(InsertFilter(chains, c, p, f)) == Before(chains, c, p) + [f] + After(chains, c, p)
  {
    var fs := chains[c].filters;
    FlatSplit(chains, c);
    Regroup(Flat(chains[..c]), fs[..p], [], fs[p..], Flat(chains[c + 1..]));
    assert fs[..p] + [] + fs[p..] == fs && Before(chains, c, p) + [] == Before(chains, c, p);
    var inserted := InsertFilter(chains, c, p, f);
    FlatSplit(inserted, c);
    assert inserted[..c] == chains[..c] && inserted[c + 1..] == chains[c + 1..];
    Regroup(Flat(chains[..c]), fs[..p], [f], fs[p..], Flat(chains[c + 1..]));
  }

  lemma Regroup<T>(a: seq<T>, x: seq<T>, m: seq<T>, y: seq<T>, b: seq<T>)
    ensures a + (x + m + y) + b == a + x + m + (y + b)
  {
  }

  /** An inserted filter adds exactly its own datagrams, between those before it and those after. */
  lemma InsertionIsAdditive(chains: Chains, c: nat, p: nat, f: ResolvedFilter, skb: seq<byte>)
    requires c < |chains| && p <= |chains[c].filters|
    ensures Output(chains, skb)
         == FilterOutput(Before(chains, c, p), skb) + FilterOutput(After(chains, c, p), skb)
    ensures Output(InsertFilter(chains, c, p, f), skb)
         == FilterOutput(Before(chains, c, p), skb) + Contribution(f, skb) + FilterOutput(After(chains, c, p), skb)
  {
    FlatInsert(chains, c, p, f);
    OutputAround(Before(chains, c, p), f, After(chains, c, p), skb);
  }

  lemma OutputAround(a: seq<ResolvedFilter>, f: ResolvedFilter, b: seq<ResolvedFilter>, skb: seq<byte>)
    ensures FilterOutput(a + b, skb) == FilterOutput(a, skb) + FilterOutput(b, skb)
    ensures FilterOutput(a + [f] + b, skb) == FilterOutput(a, skb) + Contribution(f, skb) + FilterOutput(b, skb)
  {
    FilterOutputConcat(a, b, skb);
    FilterOutputConcat(a + [f], b, skb);
    assert (a + [f])[..|a|] == a;
  }

  /** The datagrams of a history of frames. */
  function OutputHistory(chains: Chains, skbs: seq<seq<byte>>): seq<Datagram> {
    if skbs == [] then []
    else OutputHistory(chains, skbs[..|skbs| - 1]) + Output(chains, skbs[|skbs| - 1])
  }

  lemma SilentOnce(chains: Chains, c: nat, p: nat, f: ResolvedFilter, skb: seq<byte>)
    requires c < |chains| && p <= |chains[c].filters|
    requires f.rule.Some? ==> !Forwards(f.rule.value)
    ensures Output(InsertFilter(chains, c, p, f), skb) == Output(chains, skb)
  {
    InsertionIsAdditive(chains, c, p, f, skb);
  }

  /**
   * A filter whose rule does not forward (a DROP or COUNT rule, or none) can be inserted or deleted
   * without changing a datagram of any history.
   */
  lemma {:induction false} SilentFilter(chains: Chains, c: nat, p: nat, f: ResolvedFilter, skbs: seq<seq<byte>>)
    requires c < |chains| && p <= |chains[c].filters|
    requires f.rule.Some? ==> !Forwards(f.rule.value)
    ensures OutputHistory(InsertFilter(chains, c, p, f), skbs) == OutputHistory(chains, skbs)
  {
    if skbs != [] {
      var n := |skbs| - 1;
      SilentFilter(chains, c, p, f, skbs[..n]);
      SilentOnce(chains, c, p, f, skbs[n]);
    }
  }

  /** Whatever is inserted, over any history it leaves every other filter's counter as it would have been. */
  lemma {:induction false} InsertionKeepsCounters<R>(
    chains: seq<Chain<R>>, c: nat, p: nat, f: Filter<R>, lens: seq<u32>)
    requires c < |chains| && p <= |chains[c].filters|
    ensures BumpHistory(InsertFilter(chains, c, p, f), lens)
         == InsertFilter(BumpHistory(chains, lens), c, p, Advanced(f, lens))
  {
    if lens != [] {
      var n := |lens| - 1;
      InsertionKeepsCounters(chains, c, p, f, lens[..n]);
      InsertBump(BumpHistory(chains, lens[..n]), c, p, Advanced(f, lens[..n]), lens[n]);
      AdvanceOnce(f, lens);
    }
  }

  lemma InsertBump<R>(chains: seq<Chain<R>>, c: nat, p: nat, f: Filter<R>, len: u32)
    requires c < |chains| && p <= |chains[c].filters|
    ensures BumpAll(InsertFilter(chains, c, p, f), len) == InsertFilter(BumpAll(chains, len), c, p, Bump(f, len))
  {
    var fs := chains[c].filters;
    assert BumpFilters(fs[..p] + [f] + fs[p..], len)
        == BumpFilters(fs, len)[..p] + [Bump(f, len)] + BumpFilters(fs, len)[p..];
  }

  /** Counting never changes what is sent: the datagrams of a frame do not depend on the counters. */
  lemma OutputIgnoresCounts(chains: Chains, len: u32, skb: seq<byte>)
    ensures Output(BumpAll(chains, len), skb) == Output(chains, skb)
  {
    FlatBump(chains, len);
    FilterOutputBump(Flat(chains), len, skb);
  }

  lemma {:induction false} FlatBump<R>(chains: seq<Chain<R>>, len: u32)
    ensures Flat(BumpAll(chains, len)) == BumpFilters(Flat(chains), len)
  {
    if chains != [] {
      var n := |chains| - 1;
      FlatBump(chains[..n], len);
      assert BumpAll(chains, len)[..n] == BumpAll(chains[..n], len);
    }
  }

  lemma {:induction false} FilterOutputBump(fs: seq<ResolvedFilter>, len: u32, skb: seq<byte>)
    ensures FilterOutput(BumpFilters(fs, len), skb) == FilterOutput(fs, skb)
  {
    if fs != [] {
      var n := |fs| - 1;
      FilterOutputBump(fs[..n], len, skb);
      assert BumpFilters(fs, len)[..n] == BumpFilters(fs[..n], len);
    }
  }
}
