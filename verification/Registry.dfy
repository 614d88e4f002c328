/**
 * The keyed registries (listeners, rules, devices) as ordered maps: adding replaces an entry of the
 * same key and appends at the tail. Over any history the list holds exactly the surviving adds.
 */
module Registry {
  import opened Options
  import opened Lists
  import opened Ring

  /** A listed entry; `key` decides replacement, `id` is what removal by number goes by. */
  datatype Entry<K, V> = Entry(key: K, id: int, val: V)

  datatype Op<K, V> = Put(entry: Entry<K, V>) | DropKey(key: K) | DropId(id: int) | Wipe

  function ByKey<K(==), V>(key: K): Entry<K, V> -> bool {
    (e: Entry<K, V>) => e.key == key
  }

  function ById<K, V>(id: int): Entry<K, V> -> bool {
    (e: Entry<K, V>) => e.id == id
  }

  /** listener_add, rtap_rule_add: the old entry goes, the new one comes last. */
  function Added<K(==), V>(s: seq<Entry<K, V>>, e: Entry<K, V>): seq<Entry<K, V>> {
    WithoutFirst(s, ByKey(e.key)) + [e]
  }

  function Applied<K(==), V>(s: seq<Entry<K, V>>, op: Op<K, V>): seq<Entry<K, V>> {
    match op
    case Put(e) => Added(s, e)
    case DropKey(k) => WithoutFirst(s, ByKey(k))
    case DropId(id) => WithoutFirst(s, ById(id))
    case Wipe => []
  }

  /** The list after a history of commands. */
  function Listed<K(==), V>(h: seq<Op<K, V>>): seq<Entry<K, V>> {
    if h == [] then [] else Applied(Listed(h[..|h| - 1]), h[|h| - 1])
  }

  // ---- Survival, without any list ----

  /** The add at index `i` is still in force after the first `n` commands. */
  ghost predicate Alive<K, V>(h: seq<Op<K, V>>, i: nat, n: nat)
    requires n <= |h|
    decreases n, 0
  {
    && i < n && h[i].Put?
    && (n == i + 1 || (Alive(h, i, n - 1) && !Kills(h, n - 1, i)))
  }

  /** Command `j` ends the add at index `i`: by number only if no earlier survivor has it. */
  ghost predicate Kills<K, V>(h: seq<Op<K, V>>, j: nat, i: nat)
    requires i < j < |h| && h[i].Put?
    decreases j, 1
  {
    match h[j]
    case Put(e) => e.key == h[i].entry.key
    case DropKey(k) => k == h[i].entry.key
    case DropId(id) =>
      id == h[i].entry.id && forall i' :: 0 <= i' < i && Alive(h, i', j) ==> h[i'].entry.id != id
    case Wipe => true
  }

  /** The adds among the first `m` commands that are in force after `n`, in order. */
  ghost function Survivors<K, V>(h: seq<Op<K, V>>, m: nat, n: nat): seq<Entry<K, V>>
    requires m <= n <= |h|
  {
    if m == 0 then []
    else Survivors(h, m - 1, n) + if Alive(h, m - 1, n) then [h[m - 1].entry] else []
  }

  ghost predicate DistinctKeys<K, V>(s: seq<Entry<K, V>>) {
    forall j, k :: 0 <= j < k < |s| ==> s[j].key != s[k].key
  }

  lemma {:induction false} WithoutFirstIs<K, V>(s: seq<Entry<K, V>>, p: Entry<K, V> -> bool)
    requires DistinctKeys(s)
    ensures DistinctKeys(WithoutFirst(s, p))
    ensures forall e :: e in WithoutFirst(s, p) ==> e in s
  {
    if s != [] && !p(s[0]) {
      WithoutFirstIs(s[1..], p);
      assert forall e :: e in s[1..] ==> e.key != s[0].key;
    }
  }

  lemma {:induction false} KeyIsGone<K, V>(s: seq<Entry<K, V>>, key: K)
    requires DistinctKeys(s)
    ensures forall e :: e in WithoutFirst(s, ByKey(key)) ==> e.key != key
  {
    if s != [] {
      if s[0].key != key {
        KeyIsGone(s[1..], key);
      }
    }
  }

  /** No history ever lists two entries of one key. */
  lemma {:induction false} KeysStayDistinct<K, V>(h: seq<Op<K, V>>)
    ensures DistinctKeys(Listed(h))
  {
    if h != [] {
      var s := Listed(h[..|h| - 1]);
      KeysStayDistinct(h[..|h| - 1]);
      match h[|h| - 1]
      case Put(e) =>
        WithoutFirstIs(s, ByKey(e.key));
        KeyIsGone(s, e.key);
      case DropKey(k) => WithoutFirstIs(s, ByKey(k));
      case DropId(id) => WithoutFirstIs(s, ById(id));
      case Wipe =>
    }
  }

  // ---- One more command, seen by the survivors ----

  lemma {:induction false} AppendOne<K, V>(s: seq<Entry<K, V>>, e: Entry<K, V>, p: Entry<K, V> -> bool)
    ensures WithoutFirst(s + [e], p) ==
      WithoutFirst(s, p) + if First(s, p).None? && p(e) then [] else [e]
    ensures First(s + [e], p) == if First(s, p).Some? then First(s, p) else if p(e) then Some(e) else None
  {
    if s == [] {
      assert s + [e] == [e];
    } else {
      assert (s + [e])[1..] == s[1..] + [e];
      AppendOne(s[1..], e, p);
    }
  }

  lemma {:induction false} FirstNone<T>(s: seq<T>, p: T -> bool)
    ensures First(s, p).None? <==> forall x :: x in s ==> !p(x)
  {
    if s != [] {
      FirstNone(s[1..], p);
      assert s == [s[0]] + s[1..];
    }
  }

  lemma {:induction false} SurvivorsAre<K, V>(h: seq<Op<K, V>>, m: nat, n: nat)
    requires m <= n <= |h|
    ensures forall e :: e in Survivors(h, m, n) ==> exists i :: 0 <= i < m && Alive(h, i, n) && h[i].entry == e
    ensures forall i :: 0 <= i < m && Alive(h, i, n) ==> h[i].entry in Survivors(h, m, n)
  {
    if m > 0 {
      SurvivorsAre(h, m - 1, n);
    }
  }

  /** What matches after one more command: for a key, a number, or everything. */
  ghost predicate Target<K, V>(op: Op<K, V>, p: Entry<K, V> -> bool) {
    match op
    case Put(e) => p == ByKey(e.key)
    case DropKey(k) => p == ByKey(k)
    case DropId(id) => p == ById(id)
    case Wipe => false
  }

  /** An add is ended by command `n` exactly if it is the first survivor that matches. */
  lemma KillsIsFirst<K, V>(h: seq<Op<K, V>>, m: nat, n: nat, p: Entry<K, V> -> bool)
    requires m < n < |h| && Alive(h, m, n) && Target(h[n], p)
    requires DistinctKeys(Survivors(h, m + 1, n))
    ensures Kills(h, n, m) <==> First(Survivors(h, m, n), p).None? && p(h[m].entry)
  {
    var s := Survivors(h, m, n);
    FirstNone(s, p);
    SurvivorsAre(h, m, n);
    if h[n].DropId? {
      NoneOfThatNumber(h, m, n, h[n].id);
    } else {
      assert Survivors(h, m + 1, n) == s + [h[m].entry];
      forall e | e in s ensures e.key != h[m].entry.key {
        var j :| 0 <= j < |s| && s[j] == e;
        assert (s + [h[m].entry])[j].key != (s + [h[m].entry])[|s|].key;
      }
    }
  }

  /** No survivor has the number if and only if no add that is in force had it. */
  lemma NoneOfThatNumber<K, V>(h: seq<Op<K, V>>, m: nat, n: nat, id: int)
    requires m <= n <= |h|
    ensures (forall x :: x in Survivors(h, m, n) ==> x.id != id) <==>
      forall i :: 0 <= i < m && Alive(h, i, n) ==> h[i].entry.id != id
  {
    SurvivorsAre(h, m, n);
    if x :| x in Survivors(h, m, n) && x.id == id {
      var i :| 0 <= i < m && Alive(h, i, n) && h[i].entry == x;
    } else {
      forall i | 0 <= i < m && Alive(h, i, n) ensures h[i].entry.id != id {
        assert h[i].entry in Survivors(h, m, n);
      }
    }
  }

  lemma AliveStep<K, V>(h: seq<Op<K, V>>, i: nat, n: nat)
    requires i < n < |h|
    ensures Alive(h, i, n + 1) <==> Alive(h, i, n) && !Kills(h, n, i)
  {
  }

  lemma {:induction false} NextSurvivors<K, V>(h: seq<Op<K, V>>, m: nat, n: nat, p: Entry<K, V> -> bool)
    requires m <= n < |h| && Target(h[n], p) && DistinctKeys(Survivors(h, m, n))
    ensures Survivors(h, m, n + 1) == WithoutFirst(Survivors(h, m, n), p)
  {
    if m > 0 {
      var s := Survivors(h, m - 1, n);
      var more := if Alive(h, m - 1, n) then [h[m - 1].entry] else [];
      assert Survivors(h, m, n) == s + more;
      assert DistinctKeys(s) by {
        assert forall j :: 0 <= j < |s| ==> s[j] == (s + more)[j];
      }
      NextSurvivors(h, m - 1, n, p);
      AliveStep(h, m - 1, n);
      if Alive(h, m - 1, n) {
        KillsIsFirst(h, m - 1, n, p);
        AppendOne(s, h[m - 1].entry, p);
        assert WithoutFirst(s, p) + [] == WithoutFirst(s, p);
      } else {
        assert s + [] == s && WithoutFirst(s, p) + [] == WithoutFirst(s, p);
      }
    }
  }

  lemma {:induction false} NoSurvivors<K, V>(h: seq<Op<K, V>>, m: nat, n: nat)
    requires m <= n < |h| && h[n].Wipe?
    ensures Survivors(h, m, n + 1) == []
  {
    if m > 0 {
      NoSurvivors(h, m - 1, n);
      AliveStep(h, m - 1, n);
    }
  }

  /**
   * Last write wins: the list is the surviving adds in the order of each key's most recent add,
   * where survival is defined from the history alone.
   */
  lemma {:induction false} LastWriteWins<K, V>(h: seq<Op<K, V>>, n: nat)
    requires n <= |h|
    ensures Listed(h[..n]) == Survivors(h, n, n)
  {
    if n > 0 {
      LastWriteWins(h, n - 1);
      assert h[..n][..n - 1] == h[..n - 1];
      KeysStayDistinct(h[..n - 1]);
      match h[n - 1]
      case Put(e) => NextSurvivors(h, n - 1, n - 1, ByKey(e.key));
      case DropKey(k) => NextSurvivors(h, n - 1, n - 1, ByKey(k));
      case DropId(id) => NextSurvivors(h, n - 1, n - 1, ById(id));
      case Wipe => NoSurvivors(h, n - 1, n - 1);
    }
  }

  // ---- The same on the kernel's list ----

  /** listener_add and rtap_rule_add. */
  method Add<K(==), V>(ring: Ring<Entry<K, V>>, e: Entry<K, V>)
    requires ring.Valid()
    modifies ring`nodes, ring.head, ring.NodeSet()
    ensures ring.Valid() && ring.Items() == Added(old(ring.Items()), e)
    ensures fresh(ring.NodeSet() - old(ring.NodeSet()))
  {
    var _ := ring.RemoveFirst(ByKey(e.key));
    var n := new Node(Some(e));
    ring.AddTail(n);
  }

  /** rtap_device_add: the old entry goes even when the new one cannot be made. */
  method AddIfPossible<K(==), V>(ring: Ring<Entry<K, V>>, e: Entry<K, V>, available: bool) returns (ok: bool)
    requires ring.Valid()
    modifies ring`nodes, ring.head, ring.NodeSet()
    ensures ring.Valid() && ok == available
    ensures ring.Items() == Applied(old(ring.Items()), if available then Put(e) else DropKey(e.key))
  {
    var _ := ring.RemoveFirst(ByKey(e.key));
    if !available {
      return false;
    }
    var n := new Node(Some(e));
    ring.AddTail(n);
    return true;
  }

  /** rtap_device_remove: 0 when an entry was found, -1 otherwise. */
  method RemoveByKey<K(==), V>(ring: Ring<Entry<K, V>>, key: K) returns (ret: int)
    requires ring.Valid()
    modifies ring`nodes, ring.head, ring.NodeSet()
    ensures ring.Valid() && ring.Items() == Applied(old(ring.Items()), DropKey(key))
    ensures fresh(ring.NodeSet() - old(ring.NodeSet()))
    ensures ret == if First(old(ring.Items()), ByKey(key)).Some? then 0 else -1
  {
    var found := ring.RemoveFirst(ByKey(key));
    ret := if found then 0 else -1;
  }

  /** listener_remove(listener_findbyid(id)) and the like. */
  method RemoveById<K(==), V>(ring: Ring<Entry<K, V>>, id: int)
    requires ring.Valid()
    modifies ring`nodes, ring.head, ring.NodeSet()
    ensures ring.Valid() && ring.Items() == Applied(old(ring.Items()), DropId(id))
    ensures fresh(ring.NodeSet() - old(ring.NodeSet()))
  {
    var _ := ring.RemoveFirst(ById(id));
  }

  /** A whole history on the kernel's list ends with the surviving adds. */
  method Replay<K(==), V>(ring: Ring<Entry<K, V>>, h: seq<Op<K, V>>)
    requires ring.Valid() && ring.Items() == []
    modifies ring`nodes, ring.head, ring.NodeSet()
    ensures ring.Valid() && ring.Items() == Survivors(h, |h|, |h|)
  {
    for n := 0 to |h|
      invariant ring.Valid() && ring.Items() == Listed(h[..n])
      invariant fresh(ring.NodeSet() - old(ring.NodeSet()))
    {
      assert h[..n + 1][..n] == h[..n];
      match h[n]
      case Put(e) => Add(ring, e);
      case DropKey(k) => var _ := RemoveByKey(ring, k);
      case DropId(id) => RemoveById(ring, id);
      case Wipe => ring.Clear();
    }
    LastWriteWins(h, |h|);
  }
}
