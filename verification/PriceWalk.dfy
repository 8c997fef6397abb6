/** The crank's price extraction: a search of a JSON tree for a positive number. */
module PriceWalk {
  import opened Results

  /** JSON numbers; a literal too large for a double reads as infinite. */
  datatype Number = Finite(value: real) | Infinite

  datatype Json =
    | Null
    | Bool(b: bool)
    | Num(n: Number)
    | Str(s: string)
    | Arr(items: seq<Json>)
    | Obj(fields: seq<Field>)

  /** An object's own entries in enumeration order. */
  datatype Field = Field(key: string, value: Json)

  /** The keys tried first, in this order. */
  const PRIORITY: seq<string> := ["value", "lastPrice", "price", "last", "close", "intradaySnapshot"]

  predicate IsPrice(n: Number) {
    n.Finite? && n.value > 0.0
  }

  /** Object keys are distinct, everywhere in the tree. */
  predicate WellFormed(node: Json) {
    match node
    case Arr(items) => forall i | 0 <= i < |items| :: WellFormed(items[i])
    case Obj(fields) =>
      && (forall i, j | 0 <= i < j < |fields| :: fields[i].key != fields[j].key)
      && (forall i | 0 <= i < |fields| :: WellFormed(fields[i].value))
    case _ => true
  }

  // ---------------------------------------------------------------- reference: all prices, in order of preference

  /** Index of the entry with key `k`, or -1. */
  function IndexOf(fields: seq<Field>, k: string): (i: int)
    ensures -1 <= i < |fields|
    ensures i >= 0 ==> fields[i].key == k
    ensures i < 0 ==> forall j | 0 <= j < |fields| :: fields[j].key != k
  {
    if fields == [] then -1
    else if fields[0].key == k then 0
    else
      var i := IndexOf(fields[1..], k);
      assert forall j | 1 <= j < |fields| :: fields[j] == fields[1..][j - 1];
      if i < 0 then -1 else i + 1
  }

  /** Indices of the entries under the keys of `ks`, in the order of `ks`. */
  function Preferred(fields: seq<Field>, ks: seq<string>): (order: seq<nat>)
    ensures forall j | 0 <= j < |order| :: order[j] < |fields| && fields[order[j]].key in ks
  {
    if ks == [] then [] else
    var i := IndexOf(fields, ks[0]);
    (if i < 0 then [] else [i]) + Preferred(fields, ks[1..])
  }

  /** Indices from `from` on of the entries under no priority key, in enumeration order. */
  function Remaining(fields: seq<Field>, from: nat): (order: seq<nat>)
    requires from <= |fields|
    ensures forall j | 0 <= j < |order| :: from <= order[j] < |fields| && fields[order[j]].key !in PRIORITY
    decreases |fields| - from
  {
    if from == |fields| then [] else
    (if fields[from].key in PRIORITY then [] else [from]) + Remaining(fields, from + 1)
  }

  predicate InRange(order: seq<nat>, n: nat) {
    forall j | 0 <= j < |order| :: order[j] < n
  }

  /** The lists picked out of `lists` by `order`, one after the other. */
  function Gather(lists: seq<seq<real>>, order: seq<nat>): seq<real>
    requires InRange(order, |lists|)
  {
    if order == [] then [] else lists[order[0]] + Gather(lists, order[1..])
  }

  function UpTo(n: nat): (order: seq<nat>)
    ensures |order| == n && forall i | 0 <= i < n :: order[i] == i
  {
    seq(n, i => i)
  }

  /** Every price in the tree, most preferred first. */
  function Prices(node: Json): seq<real> {
    match node
    case Num(n) => if IsPrice(n) then [n.value] else []
    case Arr(items) =>
      Gather(seq(|items|, i requires 0 <= i < |items| => Prices(items[i])), UpTo(|items|))
    case Obj(fields) =>
      Gather(seq(|fields|, i requires 0 <= i < |fields| => Prices(fields[i].value)),
             Preferred(fields, PRIORITY) + Remaining(fields, 0))
    case _ => []
  }

  /** `p` stands somewhere in the tree as a positive finite number. */
  predicate Occurs(p: real, node: Json) {
    match node
    case Num(n) => IsPrice(n) && n.value == p
    case Arr(items) => exists i | 0 <= i < |items| :: Occurs(p, items[i])
    case Obj(fields) => exists i | 0 <= i < |fields| :: Occurs(p, fields[i].value)
    case _ => false
  }

  lemma {:induction false} GatherMembers(lists: seq<seq<real>>, order: seq<nat>, p: real)
    requires InRange(order, |lists|)
    ensures p in Gather(lists, order) <==> exists j | 0 <= j < |order| :: p in lists[order[j]]
  {
    if order != [] {
      GatherMembers(lists, order[1..], p);
      if j :| 0 < j < |order| && p in lists[order[j]] {
        assert order[1..][j - 1] == order[j];
      }
    }
  }

  lemma GatherAll(lists: seq<seq<real>>, order: seq<nat>, p: real)
    requires InRange(order, |lists|) && forall i | 0 <= i < |lists| :: i in order
    ensures p in Gather(lists, order) <==> exists i | 0 <= i < |lists| :: p in lists[i]
  {
    GatherMembers(lists, order, p);
    if i :| 0 <= i < |lists| && p in lists[i] {
      assert i in order;
      var j :| 0 <= j < |order| && order[j] == i;
      assert p in lists[order[j]];
    }
  }

  lemma {:induction false} PreferredComplete(fields: seq<Field>, ks: seq<string>, i: nat)
    requires i < |fields| && fields[i].key in ks
    requires forall a, b | 0 <= a < b < |fields| :: fields[a].key != fields[b].key
    ensures i in Preferred(fields, ks)
  {
    if fields[i].key == ks[0] {
      assert IndexOf(fields, ks[0]) == i;
    } else {
      PreferredComplete(fields, ks[1..], i);
    }
  }

  lemma {:induction false} RemainingComplete(fields: seq<Field>, from: nat, i: nat)
    requires from <= i < |fields| && fields[i].key !in PRIORITY
    ensures i in Remaining(fields, from)
    decreases |fields| - from
  {
    if from < i { RemainingComplete(fields, from + 1, i); }
  }

  /** The search order visits every entry of an object. */
  lemma OrderComplete(fields: seq<Field>, i: nat)
    requires i < |fields|
    requires forall a, b | 0 <= a < b < |fields| :: fields[a].key != fields[b].key
    ensures i in Preferred(fields, PRIORITY) + Remaining(fields, 0)
  {
    if fields[i].key in PRIORITY { PreferredComplete(fields, PRIORITY, i); } else { RemainingComplete(fields, 0, i); }
  }

  /** A price is listed for an array or object exactly when it is listed for one of its parts. */
  lemma ArrayMembers(items: seq<Json>, p: real)
    ensures p in Prices(Arr(items)) <==> exists i | 0 <= i < |items| :: p in Prices(items[i])
  {
    var lists := seq(|items|, i requires 0 <= i < |items| => Prices(items[i]));
    forall i | 0 <= i < |items| ensures i in UpTo(|items|) {
      assert UpTo(|items|)[i] == i;
    }
    GatherAll(lists, UpTo(|items|), p);
    assert forall i | 0 <= i < |items| :: lists[i] == Prices(items[i]);
  }

  lemma ObjectMembers(fields: seq<Field>, p: real)
    requires forall i, j | 0 <= i < j < |fields| :: fields[i].key != fields[j].key
    ensures p in Prices(Obj(fields)) <==> exists i | 0 <= i < |fields| :: p in Prices(fields[i].value)
  {
    var lists := seq(|fields|, i requires 0 <= i < |fields| => Prices(fields[i].value));
    var order := Preferred(fields, PRIORITY) + Remaining(fields, 0);
    forall i | 0 <= i < |fields| ensures i in order {
      OrderComplete(fields, i);
    }
    GatherAll(lists, order, p);
    assert forall i | 0 <= i < |fields| :: lists[i] == Prices(fields[i].value);
  }

  /** The list of prices holds exactly the positive finite numbers of the tree. */
  lemma {:induction false} PricesAreOccurrences(node: Json, p: real)
    requires WellFormed(node)
    ensures p in Prices(node) <==> Occurs(p, node)
    decreases node
  {
    match node
    case Arr(items) =>
      forall i | 0 <= i < |items| ensures p in Prices(items[i]) <==> Occurs(p, items[i]) {
        PricesAreOccurrences(items[i], p);
      }
      ArrayMembers(items, p);
    case Obj(fields) =>
      forall i | 0 <= i < |fields| ensures p in Prices(fields[i].value) <==> Occurs(p, fields[i].value) {
        PricesAreOccurrences(fields[i].value, p);
      }
      ObjectMembers(fields, p);
    case _ =>
  }

  // ---------------------------------------------------------------- the search

  function First(ps: seq<real>): Option<real> {
    if ps == [] then None else Some(ps[0])
  }

  /** A list that yields nothing may be skipped; the first that yields something decides. */
  lemma GatherStep(lists: seq<seq<real>>, head: nat, tail: seq<nat>)
    requires head < |lists| && InRange(tail, |lists|)
    ensures InRange([head] + tail, |lists|)
    ensures lists[head] == [] ==> Gather(lists, [head] + tail) == Gather(lists, tail)
    ensures lists[head] != [] ==> First(Gather(lists, [head] + tail)) == First(lists[head])
  {
    assert ([head] + tail)[1..] == tail;
  }

  lemma UpToSuffix(n: nat, i: nat)
    requires i < n
    ensures UpTo(n)[i..] == [i] + UpTo(n)[i + 1..]
  {}

  method WalkItems(items: seq<Json>) returns (p: Option<real>)
    ensures p == First(Prices(Arr(items)))
    decreases items, 0
  {
    ghost var lists: seq<seq<real>> := seq(|items|, i requires 0 <= i < |items| => Prices(items[i]));
    ghost var order := UpTo(|items|);
    assert order[0..] == order;
    for i := 0 to |items|
      invariant First(Prices(Arr(items))) == First(Gather(lists, order[i..]))
    {
      UpToSuffix(|items|, i);
      GatherStep(lists, i, order[i + 1..]);
      var q := WalkForPrice(items[i]);
      if q.Some? { return q; }
    }
    return None;
  }

  /** The prices under each entry of an object. */
  ghost function Lists(fields: seq<Field>): (lists: seq<seq<real>>)
    ensures |lists| == |fields|
  {
    seq(|fields|, i requires 0 <= i < |fields| => Prices(fields[i].value))
  }

  lemma {:induction false} GatherSplit(lists: seq<seq<real>>, xs: seq<nat>, ys: seq<nat>)
    requires InRange(xs, |lists|) && InRange(ys, |lists|)
    ensures InRange(xs + ys, |lists|)
    ensures Gather(lists, xs + ys) == Gather(lists, xs) + Gather(lists, ys)
  {
    if xs == [] {
      assert xs + ys == ys;
    } else {
      GatherSplit(lists, xs[1..], ys);
      assert (xs + ys)[1..] == xs[1..] + ys;
    }
  }

  lemma ObjectPrices(fields: seq<Field>)
    ensures Prices(Obj(fields)) ==
      Gather(Lists(fields), Preferred(fields, PRIORITY)) + Gather(Lists(fields), Remaining(fields, 0))
  {
    var lists := seq(|fields|, i requires 0 <= i < |fields| => Prices(fields[i].value));
    assert lists == Lists(fields);
    GatherSplit(lists, Preferred(fields, PRIORITY), Remaining(fields, 0));
  }

  /** Looking up one more key: skip it if it is missing or yields nothing, else it decides. */
  lemma KeyStep(fields: seq<Field>, lists: seq<seq<real>>, ks: seq<string>)
    requires ks != [] && |lists| == |fields|
    ensures var i, all, tail := IndexOf(fields, ks[0]), Gather(lists, Preferred(fields, ks)),
      Gather(lists, Preferred(fields, ks[1..]));
      if i < 0 || lists[i] == [] then all == tail else First(all) == First(lists[i])
  {
    var i, rest := IndexOf(fields, ks[0]), Preferred(fields, ks[1..]);
    if i >= 0 {
      assert Preferred(fields, ks) == [i] + rest;
      GatherStep(lists, i, rest);
    } else {
      assert Preferred(fields, ks) == rest;
    }
  }

  /** One more remaining entry, likewise. */
  lemma RestStep(fields: seq<Field>, lists: seq<seq<real>>, i: nat)
    requires i < |fields| && |lists| == |fields|
    ensures var all, tail := Gather(lists, Remaining(fields, i)), Gather(lists, Remaining(fields, i + 1));
      if fields[i].key in PRIORITY || lists[i] == [] then all == tail else First(all) == First(lists[i])
  {
    var rest := Remaining(fields, i + 1);
    if fields[i].key in PRIORITY {
      assert Remaining(fields, i) == rest;
    } else {
      assert Remaining(fields, i) == [i] + rest;
      GatherStep(lists, i, rest);
    }
  }

  method WalkKeys(fields: seq<Field>, ks: seq<string>) returns (p: Option<real>)
    ensures p == First(Gather(Lists(fields), Preferred(fields, ks)))
    decreases fields, 0
  {
    assert ks[0..] == ks;
    for n := 0 to |ks|
      invariant First(Gather(Lists(fields), Preferred(fields, ks))) ==
        First(Gather(Lists(fields), Preferred(fields, ks[n..])))
    {
      KeyStep(fields, Lists(fields), ks[n..]);
      assert ks[n..][1..] == ks[n + 1..];
      var i := IndexOf(fields, ks[n]);
      if i >= 0 {
        var q := WalkForPrice(fields[i].value);
        if q.Some? { return q; }
      }
    }
    return None;
  }

  method WalkRest(fields: seq<Field>) returns (p: Option<real>)
    ensures p == First(Gather(Lists(fields), Remaining(fields, 0)))
    decreases fields, 0
  {
    for i := 0 to |fields|
      invariant First(Gather(Lists(fields), Remaining(fields, 0))) == First(Gather(Lists(fields), Remaining(fields, i)))
    {
      RestStep(fields, Lists(fields), i);
      if fields[i].key in PRIORITY { continue; }
      var q := WalkForPrice(fields[i].value);
      if q.Some? { return q; }
    }
    return None;
  }

  /** The search ends on every tree and returns its most preferred price, if any. */
  method WalkForPrice(node: Json) returns (p: Option<real>)
    ensures p == First(Prices(node))
    decreases node, 1
  {
    match node
    case Num(n) => if IsPrice(n) { return Some(n.value); } else { return None; }
    case Arr(items) => p := WalkItems(items);
    case Obj(fields) =>
      ObjectPrices(fields);
      p := WalkKeys(fields, PRIORITY);
      if p.None? { p := WalkRest(fields); }
    case _ => return None;
  }

  /** What a fetched response contributes: only objects and arrays are searched. */
  function Extracted(raw: Json): Option<real> {
    if raw.Arr? || raw.Obj? then First(Prices(raw)) else None
  }

  /** Nothing is returned exactly when no positive finite number occurs anywhere in the response, and
      what is returned is positive and occurs in it. */
  lemma ExtractionIsSearch(raw: Json)
    requires WellFormed(raw) && (raw.Arr? || raw.Obj?)
    ensures Extracted(raw) == None <==> forall p :: !Occurs(p, raw)
    ensures Extracted(raw).Some? ==> Extracted(raw).value > 0.0 && Occurs(Extracted(raw).value, raw)
  {
    if Extracted(raw).Some? {
      PricesAreOccurrences(raw, Extracted(raw).value);
      OccurrencesPositive(raw, Extracted(raw).value);
    } else {
      forall p
        ensures !Occurs(p, raw)
      {
        PricesAreOccurrences(raw, p);
      }
    }
  }

  method ExtractPrice(raw: Json) returns (p: Option<real>)
    ensures p == Extracted(raw)
  {
    if !(raw.Arr? || raw.Obj?) { return None; }
    p := WalkForPrice(raw);
  }

  lemma {:induction false} OccurrencesPositive(node: Json, p: real)
    requires Occurs(p, node)
    ensures p > 0.0
    decreases node
  {
    match node
    case Arr(items) =>
      var i :| 0 <= i < |items| && Occurs(p, items[i]);
      OccurrencesPositive(items[i], p);
    case Obj(fields) =>
      var i :| 0 <= i < |fields| && Occurs(p, fields[i].value);
      OccurrencesPositive(fields[i].value, p);
    case _ =>
  }

  /** A price under an earlier priority key wins over everything else in the same object. */
  lemma PriorityWins(fields: seq<Field>, n: nat)
    requires n < |PRIORITY| && IndexOf(fields, PRIORITY[n]) >= 0
    requires Prices(fields[IndexOf(fields, PRIORITY[n])].value) != []
    requires forall m | 0 <= m < n ::
      IndexOf(fields, PRIORITY[m]) < 0 || Prices(fields[IndexOf(fields, PRIORITY[m])].value) == []
    ensures First(Prices(Obj(fields))) == First(Prices(fields[IndexOf(fields, PRIORITY[n])].value))
  {
    ObjectPrices(fields);
    KeyWins(fields, Lists(fields), PRIORITY, n);
  }

  lemma {:induction false} KeyWins(fields: seq<Field>, lists: seq<seq<real>>, ks: seq<string>, n: nat)
    requires |lists| == |fields| && n < |ks| && IndexOf(fields, ks[n]) >= 0 && lists[IndexOf(fields, ks[n])] != []
    requires forall m | 0 <= m < n :: IndexOf(fields, ks[m]) < 0 || lists[IndexOf(fields, ks[m])] == []
    ensures First(Gather(lists, Preferred(fields, ks))) == First(lists[IndexOf(fields, ks[n])])
    decreases ks
  {
    KeyStep(fields, lists, ks);
    if n > 0 {
      assert forall m | 0 <= m < n - 1 :: ks[1..][m] == ks[m + 1];
      KeyWins(fields, lists, ks[1..], n - 1);
    }
  }

  /** Of the lists in `order`, the first that holds anything decides. */
  lemma {:induction false} EarliestWins(lists: seq<seq<real>>, order: seq<nat>, n: nat)
    requires InRange(order, |lists|) && n < |order| && lists[order[n]] != []
    requires forall m | 0 <= m < n :: lists[order[m]] == []
    ensures First(Gather(lists, order)) == First(lists[order[n]])
  {
    if n > 0 {
      assert forall m | 0 <= m < n - 1 :: order[1..][m] == order[m + 1];
      EarliestWins(lists, order[1..], n - 1);
    }
  }

  /** In an array, the earliest item that holds a price wins. */
  lemma EarliestItemWins(items: seq<Json>, n: nat)
    requires n < |items| && Prices(items[n]) != []
    requires forall m | 0 <= m < n :: Prices(items[m]) == []
    ensures First(Prices(Arr(items))) == First(Prices(items[n]))
  {
    var lists: seq<seq<real>> := seq(|items|, i requires 0 <= i < |items| => Prices(items[i]));
    EarliestWins(lists, UpTo(|items|), n);
  }

  /** In an object none of whose priority keys holds a price, the earliest other entry with one wins. */
  lemma EarliestEntryWins(fields: seq<Field>, n: nat)
    requires n < |fields| && fields[n].key !in PRIORITY && Prices(fields[n].value) != []
    requires forall m | 0 <= m < |fields| && (m < n || fields[m].key in PRIORITY) :: Prices(fields[m].value) == []
    ensures First(Prices(Obj(fields))) == First(Prices(fields[n].value))
  {
    ObjectPrices(fields);
    GatherEmpty(Lists(fields), Preferred(fields, PRIORITY));
    EntryWins(fields, Lists(fields), 0, n);
  }

  lemma {:induction false} GatherEmpty(lists: seq<seq<real>>, order: seq<nat>)
    requires InRange(order, |lists|)
    requires forall j | 0 <= j < |order| :: lists[order[j]] == []
    ensures Gather(lists, order) == []
  {
    if order != [] { GatherEmpty(lists, order[1..]); }
  }

  lemma RestSkips(fields: seq<Field>, lists: seq<seq<real>>, i: nat)
    requires i < |fields| && |lists| == |fields| && lists[i] == []
    ensures Gather(lists, Remaining(fields, i)) == Gather(lists, Remaining(fields, i + 1))
  {
    RestStep(fields, lists, i);
  }

  lemma RestTakes(fields: seq<Field>, lists: seq<seq<real>>, i: nat)
    requires i < |fields| && |lists| == |fields| && lists[i] != [] && fields[i].key !in PRIORITY
    ensures First(Gather(lists, Remaining(fields, i))) == First(lists[i])
  {
    RestStep(fields, lists, i);
  }

  lemma {:induction false} EntryWins(fields: seq<Field>, lists: seq<seq<real>>, from: nat, n: nat)
    requires |lists| == |fields| && from <= n < |fields| && fields[n].key !in PRIORITY && lists[n] != []
    requires forall m | from <= m < n :: lists[m] == []
    ensures First(Gather(lists, Remaining(fields, from))) == First(lists[n])
    decreases n - from
  {
    if from < n {
      RestSkips(fields, lists, from);
      EntryWins(fields, lists, from + 1, n);
    } else {
      RestTakes(fields, lists, from);
    }
  }

  // ---------------------------------------------------------------- which of two named keys wins

  /** An object with two prices under two keys. */
  function Pair(a: string, x: real, b: string, y: real): Json {
    Obj([Field(a, Num(Finite(x))), Field(b, Num(Finite(y)))])
  }

  lemma {:induction false} FieldPrice(a: string, x: real)
    requires x > 0.0
    ensures Prices(Field(a, Num(Finite(x))).value) == [x]
  {}

  lemma IndexInPair(fields: seq<Field>, k: string)
    requires |fields| == 2
    ensures IndexOf(fields, k) == if fields[0].key == k then 0 else if fields[1].key == k then 1 else -1
  {
    assert fields[1..] == [fields[1]];
    assert fields[1..][1..] == [];
  }

  /** The price under the `n`-th priority key beats one under a key that is not among the first `n`. */
  lemma PairWins(a: string, x: real, b: string, y: real, n: nat)
    requires n < |PRIORITY| && PRIORITY[n] == a && a != b && x > 0.0 && y > 0.0
    requires forall m | 0 <= m < n :: PRIORITY[m] != a && PRIORITY[m] != b
    ensures Extracted(Pair(a, x, b, y)) == Some(x) && Extracted(Pair(b, y, a, x)) == Some(x)
  {
    FieldPrice(a, x);
    var ab := [Field(a, Num(Finite(x))), Field(b, Num(Finite(y)))];
    var ba := [Field(b, Num(Finite(y))), Field(a, Num(Finite(x)))];
    forall m | 0 <= m <= n
      ensures IndexOf(ab, PRIORITY[m]) == if m == n then 0 else -1
      ensures IndexOf(ba, PRIORITY[m]) == if m == n then 1 else -1
    {
      IndexInPair(ab, PRIORITY[m]);
      IndexInPair(ba, PRIORITY[m]);
    }
    PriorityWins(ab, n);
    PriorityWins(ba, n);
  }

  /** The keys by name. */
  lemma KeysByName()
    ensures PRIORITY == ["value", "lastPrice", "price", "last", "close", "intradaySnapshot"]
    ensures forall m, n | 0 <= m < n < |PRIORITY| :: PRIORITY[m] != PRIORITY[n]
  {
    assert |"value"| == 5 && |"lastPrice"| == 9 && |"price"| == 5 && |"last"| == 4 && |"close"| == 5;
    assert "value"[0] != "price"[0] && "value"[0] != "close"[0] && "price"[0] != "close"[0];
  }

  /** In either order of entries, the price under an earlier key of the list beats that under a later one,
      or under any key that is not in it. */
  lemma EarlierKeyWins(n: nat, b: string, x: real, y: real)
    requires n < |PRIORITY| && x > 0.0 && y > 0.0 && b !in PRIORITY[..n + 1]
    ensures Extracted(Pair(PRIORITY[n], x, b, y)) == Extracted(Pair(b, y, PRIORITY[n], x)) == Some(x)
  {
    KeysByName();
    forall m | 0 <= m < n ensures PRIORITY[m] != b {
      assert PRIORITY[m] == PRIORITY[..n + 1][m];
    }
    assert PRIORITY[n] == PRIORITY[..n + 1][n];
    PairWins(PRIORITY[n], x, b, y, n);
  }
}
