/** From DNS records to an ordered list of datacenters. */
module Discovery {
  import opened Wrappers

  datatype SrvRecord = SrvRecord(target: string, port: nat, priority: nat, weight: nat)

  datatype Target = Target(name: string, host: string, port: nat, priority: nat, weight: nat)

  // ----- Names -----

  function TrimDot(s: string): string {
    if |s| > 0 && s[|s| - 1] == '.' then s[..|s| - 1] else s
  }

  /** `l` is the part of `h` before its first dot, or all of it. */
  predicate IsFirstLabel(l: string, h: string) {
    l <= h && '.' !in l && (l == h || h[|l|] == '.')
  }

  function FirstLabel(h: string): (l: string)
    ensures IsFirstLabel(l, h)
    ensures forall l' :: IsFirstLabel(l', h) ==> l' == l
  {
    if h == "" || h[0] == '.' then ""
    else
      assert forall l' :: IsFirstLabel(l', h) ==> l' != "" && IsFirstLabel(l'[1..], h[1..]);
      [h[0]] + FirstLabel(h[1..])
  }

  method Label(host: string) returns (l: string)
    ensures IsFirstLabel(l, TrimDot(host)) && l == FirstLabel(TrimDot(host))
  {
    var h := TrimDot(host);
    for i := 0 to |h|
      invariant '.' !in h[..i]
    {
      if h[i] == '.' {
        assert IsFirstLabel(h[..i], h);
        return h[..i];
      }
    }
    assert h[..|h|] == h && IsFirstLabel(h, h);
    return h;
  }

  // ----- The order -----

  /** Byte-wise string order. */
  predicate LexLess(a: string, b: string) {
    if b == "" then false
    else if a == "" then true
    else a[0] < b[0] || (a[0] == b[0] && LexLess(a[1..], b[1..]))
  }

  lemma {:induction false} LexTrichotomy(a: string, b: string)
    ensures a == b || LexLess(a, b) || LexLess(b, a)
    ensures !(LexLess(a, b) && LexLess(b, a)) && !LexLess(a, a)
  {
    if a != "" {
      LexTrichotomy(a[1..], a[1..]);
      if b != "" {
        LexTrichotomy(a[1..], b[1..]);
        assert a[0] == b[0] && a[1..] == b[1..] ==> a == [a[0]] + a[1..] == b;
      }
    }
  }

  lemma {:induction false} LexTransitive(a: string, b: string, c: string)
    requires LexLess(a, b) && LexLess(b, c)
    ensures LexLess(a, c)
  {
    if a != "" && a[0] == b[0] == c[0] {
      LexTransitive(a[1..], b[1..], c[1..]);
    }
  }

  /** At `k` the strings part: the first has ended or has the smaller byte there. */
  predicate PartsAt(a: string, b: string, k: nat) {
    k <= |a| && k < |b| && a[..k] == b[..k] && (k == |a| || a[k] < b[k])
  }

  /** The order is the dictionary's. */
  lemma {:induction false} LexLessIsDictionary(a: string, b: string)
    ensures LexLess(a, b) <==> exists k: nat :: PartsAt(a, b, k)
  {
    if b == "" || a == "" {
      if b != "" {
        assert PartsAt(a, b, 0);
      }
    } else {
      LexLessIsDictionary(a[1..], b[1..]);
      if a[0] < b[0] {
        assert PartsAt(a, b, 0);
      }
      if k: nat :| PartsAt(a, b, k) && k > 0 {
        assert a[..k][0] == a[0] && b[..k][0] == b[0];
        assert a[1..][..k - 1] == a[..k][1..] && b[1..][..k - 1] == b[..k][1..];
        assert PartsAt(a[1..], b[1..], k - 1);
      }
      if k: nat :| PartsAt(a[1..], b[1..], k) && a[0] == b[0] {
        assert a[..k + 1] == [a[0]] + a[1..][..k] && b[..k + 1] == [b[0]] + b[1..][..k];
        assert PartsAt(a, b, k + 1);
      }
    }
  }

  predicate Less(t: Target, u: Target) {
    if t.priority != u.priority then t.priority < u.priority else LexLess(t.name, u.name)
  }

  /** `t` may stand before `u`. */
  predicate Leq(t: Target, u: Target) {
    !Less(u, t)
  }

  predicate SameKey(t: Target, u: Target) {
    t.priority == u.priority && t.name == u.name
  }

  lemma OrderIsTotal(t: Target, u: Target)
    ensures Leq(t, u) || Leq(u, t)
    ensures Leq(t, u) && Leq(u, t) <==> SameKey(t, u)
  {
    LexTrichotomy(t.name, u.name);
  }

  lemma LeqTransitive(t: Target, u: Target, v: Target)
    requires Leq(t, u) && Leq(u, v)
    ensures Leq(t, v)
  {
    if Less(v, t) {
      LexTrichotomy(u.name, t.name);
      LexTrichotomy(v.name, u.name);
      if v.priority == u.priority == t.priority {
        if u.name == t.name || u.name == v.name {
        } else {
          LexTransitive(t.name, u.name, v.name);
          LexTrichotomy(v.name, t.name);
        }
      }
    }
  }

  predicate Sorted(ts: seq<Target>) {
    forall i, j :: 0 <= i < j < |ts| ==> Leq(ts[i], ts[j])
  }

  /** The members of a list that share a key with `k`, in their order. */
  function OfKey(ts: seq<Target>, k: Target): seq<Target> {
    if ts == [] then []
    else
      var last := ts[|ts| - 1];
      OfKey(ts[..|ts| - 1], k) + (if SameKey(last, k) then [last] else [])
  }

  /** `out` is `ts` in order, with equal keys left as they stood. */
  ghost predicate StablySorted(ts: seq<Target>, out: seq<Target>) {
    Sorted(out) && SameKeys(out, ts)
  }

  // ----- Insertion -----

  function Insert(ts: seq<Target>, t: Target): (r: seq<Target>)
    ensures |r| == |ts| + 1
  {
    if ts == [] || !Less(t, ts[|ts| - 1]) then ts + [t]
    else Insert(ts[..|ts| - 1], t) + [ts[|ts| - 1]]
  }

  function Sort(ts: seq<Target>): seq<Target> {
    if ts == [] then [] else Insert(Sort(ts[..|ts| - 1]), ts[|ts| - 1])
  }

  lemma OfKeyAppend(ts: seq<Target>, t: Target, k: Target)
    ensures OfKey(ts + [t], k) == OfKey(ts, k) + (if SameKey(t, k) then [t] else [])
  {
    assert (ts + [t])[..|ts|] == ts;
  }

  lemma {:induction false} InsertElements(ts: seq<Target>, t: Target)
    ensures multiset(Insert(ts, t)) == multiset(ts) + multiset{t}
  {
    if ts != [] && Less(t, ts[|ts| - 1]) {
      InsertElements(ts[..|ts| - 1], t);
      assert ts == ts[..|ts| - 1] + [ts[|ts| - 1]];
    }
  }

  lemma {:induction false} InsertKeys(ts: seq<Target>, t: Target, k: Target)
    ensures OfKey(Insert(ts, t), k) == OfKey(ts, k) + (if SameKey(t, k) then [t] else [])
  {
    OfKeyAppend(ts, t, k);
    if ts != [] && Less(t, ts[|ts| - 1]) {
      var before, last := ts[..|ts| - 1], ts[|ts| - 1];
      InsertKeys(before, t, k);
      OfKeyAppend(Insert(before, t), last, k);
      LexTrichotomy(t.name, last.name);
    }
  }

  /** What is below everything in a list and below `t` is below everything after inserting `t`. */
  lemma {:induction false} InsertSorted(ts: seq<Target>, t: Target)
    requires Sorted(ts)
    ensures Sorted(Insert(ts, t))
    ensures forall v :: Leq(t, v) && (ts != [] ==> Leq(ts[|ts| - 1], v)) ==> Leq(Insert(ts, t)[|ts|], v)
  {
    InsertElements(ts, t);
    if ts == [] {
    } else if !Less(t, ts[|ts| - 1]) {
      forall i | 0 <= i < |ts| ensures Leq(ts[i], t) {
        if i < |ts| - 1 {
          LeqTransitive(ts[i], ts[|ts| - 1], t);
        }
      }
    } else {
      var before, last := ts[..|ts| - 1], ts[|ts| - 1];
      InsertSorted(before, t);
      InsertElements(before, t);
      var ins := Insert(before, t);
      OrderIsTotal(t, last);
      assert Leq(ins[|ins| - 1], last);
      forall i | 0 <= i < |ins| ensures Leq(ins[i], last) {
        if i < |ins| - 1 {
          LeqTransitive(ins[i], ins[|ins| - 1], last);
        }
      }
    }
  }

  /** The sort is a stable sort, and a permutation. */
  lemma {:induction false} SortIsStable(ts: seq<Target>)
    ensures StablySorted(ts, Sort(ts)) && multiset(Sort(ts)) == multiset(ts) && |Sort(ts)| == |ts|
  {
    hide Leq, OfKey, Insert;
    if ts == [] {
      assert SameKeys(Sort(ts), ts);
    } else {
      var before, last := ts[..|ts| - 1], ts[|ts| - 1];
      SortIsStable(before);
      InsertSorted(Sort(before), last);
      InsertElements(Sort(before), last);
      assert ts == before + [last];
      forall k ensures OfKey(Sort(ts), k) == OfKey(ts, k) {
        InsertKeys(Sort(before), last, k);
        OfKeyAppend(before, last, k);
        assert OfKey(Sort(before), k) == OfKey(before, k);
      }
    }
  }

  lemma {:induction false} KeyPresent(ts: seq<Target>, i: nat)
    requires i < |ts|
    ensures OfKey(ts, ts[i]) != []
  {
    if i < |ts| - 1 {
      KeyPresent(ts[..|ts| - 1], i);
    }
  }

  lemma {:induction false} KeyMember(ts: seq<Target>, k: Target) returns (i: nat)
    requires OfKey(ts, k) != []
    ensures i < |ts| && SameKey(ts[i], k)
  {
    if SameKey(ts[|ts| - 1], k) {
      i := |ts| - 1;
    } else {
      i := KeyMember(ts[..|ts| - 1], k);
    }
  }

  /** In two sorted lists with the same keys the greatest key is the same. */
  lemma LastKeyBelow(xs: seq<Target>, ys: seq<Target>)
    requires xs != [] && ys != [] && Sorted(ys) && OfKey(ys, xs[|xs| - 1]) != []
    ensures Leq(xs[|xs| - 1], ys[|ys| - 1])
  {
    var x, y := xs[|xs| - 1], ys[|ys| - 1];
    var i := KeyMember(ys, x);
    OrderIsTotal(x, ys[i]);
    OrderIsTotal(y, y);
    if i < |ys| - 1 {
      LeqTransitive(x, ys[i], y);
    }
  }

  ghost predicate SameKeys(xs: seq<Target>, ys: seq<Target>) {
    forall k :: OfKey(xs, k) == OfKey(ys, k)
  }

  lemma LastIsSame(xs: seq<Target>, ys: seq<Target>)
    requires Sorted(xs) && Sorted(ys) && SameKeys(xs, ys) && xs != [] && ys != []
    ensures xs[|xs| - 1] == ys[|ys| - 1]
  {
    hide Sorted, Leq, OfKey;
    var xs', ys', x, y := xs[..|xs| - 1], ys[..|ys| - 1], xs[|xs| - 1], ys[|ys| - 1];
    assert xs == xs' + [x] && ys == ys' + [y];
    KeyPresent(xs, |xs| - 1);
    KeyPresent(ys, |ys| - 1);
    LastKeyBelow(xs, ys);
    LastKeyBelow(ys, xs);
    OrderIsTotal(x, y);
    OfKeyAppend(xs', x, x);
    OfKeyAppend(ys', y, x);
    assert (OfKey(xs', x) + [x])[|OfKey(xs', x)|] == (OfKey(ys', x) + [y])[|OfKey(ys', x)|];
  }

  lemma DropLast(xs: seq<Target>, ys: seq<Target>, x: Target)
    requires SameKeys(xs + [x], ys + [x])
    ensures SameKeys(xs, ys)
  {
    hide OfKey;
    forall k ensures OfKey(xs, k) == OfKey(ys, k) {
      OfKeyAppend(xs, x, k);
      OfKeyAppend(ys, x, k);
      assert OfKey(xs + [x], k) == OfKey(ys + [x], k);
      var tail := if SameKey(x, k) then [x] else [];
      assert OfKey(xs, k) == (OfKey(xs, k) + tail)[..|OfKey(xs + [x], k)| - |tail|];
      assert OfKey(ys, k) == (OfKey(ys, k) + tail)[..|OfKey(ys + [x], k)| - |tail|];
    }
  }

  /** A list has only one stable sorting, so any stable sort gives this one. */
  lemma {:induction false} StableSortIsUnique(xs: seq<Target>, ys: seq<Target>)
    requires Sorted(xs) && Sorted(ys) && SameKeys(xs, ys)
    ensures xs == ys
  {
    hide Leq, SameKeys;
    if xs == [] || ys == [] {
      EmptyHasNoKeys(xs, ys);
    } else {
      var xs', ys', x := xs[..|xs| - 1], ys[..|ys| - 1], xs[|xs| - 1];
      LastIsSame(xs, ys);
      assert xs == xs' + [x] && ys == ys' + [x];
      DropLast(xs', ys', x);
      StableSortIsUnique(xs', ys');
    }
  }

  lemma EmptyHasNoKeys(xs: seq<Target>, ys: seq<Target>)
    requires SameKeys(xs, ys)
    ensures xs == [] <==> ys == []
  {
    if xs != [] {
      KeyPresent(xs, 0);
      assert OfKey(xs, xs[0]) == OfKey(ys, xs[0]);
    }
    if ys != [] {
      KeyPresent(ys, 0);
      assert OfKey(xs, ys[0]) == OfKey(ys, ys[0]);
    }
  }

  /** `out` is a stable sorting of `ts` exactly when it is what this model's sort returns. */
  lemma StablySortedIsSort(ts: seq<Target>, out: seq<Target>)
    ensures StablySorted(ts, out) <==> out == Sort(ts)
  {
    SortIsStable(ts);
    if StablySorted(ts, out) {
      StableSortIsUnique(out, Sort(ts));
    }
  }

  // ----- In place -----

  /** Moving `t` down past everything greater is inserting it. */
  lemma {:induction false} InsertAt(ts: seq<Target>, t: Target, j: nat)
    requires j <= |ts| && (forall i :: j <= i < |ts| ==> Less(t, ts[i])) && (j > 0 ==> !Less(t, ts[j - 1]))
    ensures Insert(ts, t) == ts[..j] + [t] + ts[j..]
  {
    hide Less;
    if j < |ts| {
      InsertAt(ts[..|ts| - 1], t, j);
      assert ts[..|ts| - 1][..j] == ts[..j];
      assert ts[j..] == ts[..|ts| - 1][j..] + [ts[|ts| - 1]];
    } else {
      assert ts[..j] == ts && ts[j..] == [];
    }
  }

  /** `t` on its way down through the sorted part `s`. */
  function Sunk(s: seq<Target>, t: Target, j: nat): (r: seq<Target>)
    requires j <= |s|
    ensures |r| == |s| + 1
  {
    s[..j] + [t] + s[j..]
  }

  lemma SunkAt(s: seq<Target>, t: Target, j: nat, rest: seq<Target>)
    requires j <= |s|
    ensures (Sunk(s, t, j) + rest)[j] == t && (j > 0 ==> (Sunk(s, t, j) + rest)[j - 1] == s[j - 1])
    ensures Sunk(s, t, j) == s[..j] + [t] + s[j..]
    ensures (Sunk(s, t, j) + rest)[..|s| + 1] == Sunk(s, t, j) && (Sunk(s, t, j) + rest)[|s| + 1..] == rest
    ensures j == |s| ==> Sunk(s, t, j) == s + [t]
  {
  }

  lemma SunkSwap(s: seq<Target>, t: Target, j: nat, rest: seq<Target>)
    requires 0 < j <= |s|
    ensures (Sunk(s, t, j) + rest)[j := s[j - 1]][j - 1 := t] == Sunk(s, t, j - 1) + rest
  {
  }

  method SortTargets(a: array<Target>)
    modifies a
    ensures a[..] == Sort(old(a[..]))
  {
    ghost var was := a[..];
    for i := 0 to a.Length
      invariant a[..i] == Sort(was[..i]) && a[i..] == was[i..]
    {
      SinkInto(a, i);
      assert was[..i + 1][..i] == was[..i];
      assert was[i..][1..] == was[i + 1..];
    }
    assert was[..a.Length] == was && a[..a.Length] == a[..];
  }

  /** The inner loop: element `i` sinks into the sorted part below it. */
  method SinkInto(a: array<Target>, i: nat)
    requires i < a.Length
    modifies a
    ensures a[..i + 1] == Insert(old(a[..i]), old(a[i])) && a[i + 1..] == old(a[i + 1..])
  {
    hide Less, Insert, Sunk;
    ghost var s, t, rest := a[..i], a[i], a[i + 1..];
    var j := i;
    SunkAt(s, t, i, rest);
    assert a[..] == s + [t] + rest;
    while j > 0 && Less(a[j], a[j - 1])
      invariant 0 <= j <= i && a[..] == Sunk(s, t, j) + rest
      invariant forall k :: j <= k < i ==> Less(t, s[k])
    {
      SunkAt(s, t, j, rest);
      SunkSwap(s, t, j, rest);
      assert a[..][j] == t && a[..][j - 1] == s[j - 1];
      a[j], a[j - 1] := a[j - 1], a[j];
      j := j - 1;
    }
    SunkAt(s, t, j, rest);
    if j > 0 {
      assert a[..][j] == t && a[..][j - 1] == s[j - 1];
    }
    InsertAt(s, t, j);
    assert a[..i + 1] == a[..][..i + 1] && a[i + 1..] == a[..][i + 1..];
  }

  // ----- SRV -----

  function TargetOf(rec: SrvRecord): Target {
    Target(FirstLabel(TrimDot(rec.target)), TrimDot(rec.target), rec.port, rec.priority, rec.weight)
  }

  function TargetsOf(recs: seq<SrvRecord>): seq<Target> {
    seq(|recs|, i requires 0 <= i < |recs| => TargetOf(recs[i]))
  }

  /** `t` is the record as a target: its numbers, its host without a trailing dot, its first label. */
  predicate Describes(rec: SrvRecord, t: Target) {
    && t.port == rec.port && t.priority == rec.priority && t.weight == rec.weight
    && (t.host + "." == rec.target || (t.host == rec.target && (rec.target == "" || rec.target[|rec.target| - 1] != '.')))
    && IsFirstLabel(t.name, t.host)
  }

  lemma TargetDescribes(rec: SrvRecord)
    ensures Describes(rec, TargetOf(rec))
  {
  }

  /** `order` lists the positions of `recs`, each once. */
  predicate Arrangement(order: seq<nat>, n: nat) {
    && |order| == n
    && (forall j :: 0 <= j < n ==> order[j] < n)
    && (forall j, k :: 0 <= j < k < n ==> order[j] != order[k])
  }

  /**
   `out` is the records rearranged: least priority first, and among equal priorities first
   labels in dictionary order.
   */
  ghost predicate InPriorityOrder(recs: seq<SrvRecord>, out: seq<Target>, order: seq<nat>) {
    && |out| == |recs| && Arrangement(order, |recs|)
    && (forall j :: 0 <= j < |recs| ==> Describes(recs[order[j]], out[j]))
    && forall j, k :: 0 <= j < |recs| && 0 <= k < |recs| && Ahead(recs[order[j]], out[j].name, recs[order[k]], out[k].name)
         ==> j < k
  }

  /** The record comes before the other one: a smaller priority, or the same and an earlier name. */
  ghost predicate Ahead(rec: SrvRecord, name: string, rec': SrvRecord, name': string) {
    rec.priority < rec'.priority || (rec.priority == rec'.priority && exists k: nat :: PartsAt(name, name', k))
  }

  /** Positions in a list without member `i`, as positions in the whole list; then `i` itself. */
  function Restored(rest: seq<nat>, i: nat): (order: seq<nat>)
    ensures |order| == |rest| + 1
  {
    seq(|rest|, j requires 0 <= j < |rest| => if rest[j] < i then rest[j] else rest[j] + 1) + [i]
  }

  lemma RestoredArranges(rest: seq<nat>, i: nat, n: nat)
    requires Arrangement(rest, n) && i <= n
    ensures Arrangement(Restored(rest, i), n + 1)
  {
  }

  lemma RestoredSelects<T>(xs: seq<T>, rest: seq<nat>, i: nat, j: nat)
    requires i < |xs| && j < |rest| && rest[j] < |xs| - 1
    ensures Restored(rest, i)[j] < |xs| && xs[Restored(rest, i)[j]] == (xs[..i] + xs[i + 1..])[rest[j]]
  {
  }

  /** `order` picks `ys` out of `xs`. */
  ghost predicate Selects<T>(xs: seq<T>, ys: seq<T>, order: seq<nat>) {
    && |xs| == |ys| && Arrangement(order, |xs|)
    && forall j :: 0 <= j < |ys| ==> ys[j] == xs[order[j]]
  }

  lemma SelectsOneMore<T>(xs: seq<T>, ys: seq<T>, i: nat, rest: seq<nat>)
    requires |xs| == |ys| > 0 && i < |xs| && xs[i] == ys[|ys| - 1]
    requires Selects(xs[..i] + xs[i + 1..], ys[..|ys| - 1], rest)
    ensures Selects(xs, ys, Restored(rest, i))
  {
    hide Restored, Arrangement;
    var last := |ys| - 1;
    var order := Restored(rest, i);
    RestoredArranges(rest, i, last);
    RestoredLast(rest, i);
    ArrangementInRange(rest, last);
    ArrangementInRange(order, |xs|);
    forall j | 0 <= j < last ensures ys[j] == xs[order[j]] {
      RestoredSelects(xs, rest, i, j);
      assert ys[j] == ys[..last][j];
    }
  }

  lemma {:induction false} Matching<T>(xs: seq<T>, ys: seq<T>) returns (order: seq<nat>)
    requires multiset(xs) == multiset(ys)
    ensures Selects(xs, ys, order)
    decreases |ys|
  {
    SameLength(xs, ys);
    if ys == [] {
      order := [];
    } else {
      hide Selects;
      var last := |ys| - 1;
      var i := SameMember(ys, xs, last);
      SameWithout(xs, ys, i, last);
      assert ys[..last] + ys[last + 1..] == ys[..last];
      var rest := Matching(xs[..i] + xs[i + 1..], ys[..last]);
      SelectsOneMore(xs, ys, i, rest);
      order := Restored(rest, i);
    }
  }

  lemma RestoredLast(rest: seq<nat>, i: nat)
    ensures Restored(rest, i)[|rest|] == i
  {
  }

  /** The discovered list is the records, least priority first. */
  lemma SortedByPriority(recs: seq<SrvRecord>) returns (order: seq<nat>)
    ensures InPriorityOrder(recs, Sort(TargetsOf(recs)), order)
  {
    hide Sort, TargetOf, Arrangement, Describes;
    var ts := TargetsOf(recs);
    var out := Sort(ts);
    SortIsStable(ts);
    order := Matching(ts, out);
    ArrangementInRange(order, |recs|);
    forall j | 0 <= j < |recs| ensures Describes(recs[order[j]], out[j]) {
      TargetDescribes(recs[order[j]]);
    }
    forall j, k | 0 <= j < |recs| && 0 <= k < |recs| && Ahead(recs[order[j]], out[j].name, recs[order[k]], out[k].name)
      ensures j < k
    {
      DescribesPriority(recs[order[j]], out[j]);
      DescribesPriority(recs[order[k]], out[k]);
      LexLessIsDictionary(out[j].name, out[k].name);
      LexTrichotomy(out[j].name, out[k].name);
      assert !Leq(out[k], out[j]);
    }
  }

  lemma ArrangementInRange(order: seq<nat>, n: nat)
    requires Arrangement(order, n)
    ensures |order| == n && forall j :: 0 <= j < n ==> order[j] < n
  {
  }

  lemma DescribesPriority(rec: SrvRecord, t: Target)
    requires Describes(rec, t)
    ensures t.priority == rec.priority
  {
  }

  /** Given the outcome of the lookup: the records as targets, in priority-then-name order. */
  method Srv<E>(lookup: Result<seq<SrvRecord>, E>) returns (r: Result<seq<Target>, E>)
    ensures match lookup
            case Err(e) => r == Err(e)
            case Ok(recs) => r == Ok(Sort(TargetsOf(recs)))
    ensures lookup.Ok? ==> exists order :: InPriorityOrder(lookup.value, r.value, order)
  {
    if lookup.Err? {
      return Err(lookup.error);
    }
    var recs := lookup.value;
    var out: seq<Target> := [];
    for i := 0 to |recs|
      invariant |out| == i && forall k :: 0 <= k < i ==> out[k] == TargetOf(recs[k])
    {
      var name := Label(recs[i].target);
      out := out + [Target(name, TrimDot(recs[i].target), recs[i].port, recs[i].priority, recs[i].weight)];
    }
    assert out == TargetsOf(recs);
    var a := new Target[|out|](i requires 0 <= i < |out| => out[i]);
    assert a[..] == out;
    SortTargets(a);
    ghost var order := SortedByPriority(recs);
    return Ok(a[..]);
  }

  // ----- The order is a function of the record set -----

  /** Targets that share a priority and a name are the same target. */
  predicate KeysIdentify(ts: seq<Target>) {
    forall t, u :: t in ts && u in ts && SameKey(t, u) ==> t == u
  }

  lemma CountLast(ts: seq<Target>, k: Target)
    requires ts != []
    ensures multiset(ts)[k] == multiset(ts[..|ts| - 1])[k] + if ts[|ts| - 1] == k then 1 else 0
  {
    assert ts == ts[..|ts| - 1] + [ts[|ts| - 1]];
  }

  lemma {:induction false} OneKeyOneValue(ts: seq<Target>, k: Target)
    requires forall i :: 0 <= i < |ts| && SameKey(ts[i], k) ==> ts[i] == k
    ensures |OfKey(ts, k)| == multiset(ts)[k]
    ensures forall j :: 0 <= j < |OfKey(ts, k)| ==> OfKey(ts, k)[j] == k
  {
    if ts != [] {
      OneKeyOneValue(ts[..|ts| - 1], k);
      CountLast(ts, k);
    }
  }

  lemma {:induction false} NoKeyNoValue(ts: seq<Target>, k: Target)
    requires forall t :: t in ts ==> !SameKey(t, k)
    ensures OfKey(ts, k) == []
  {
    if ts != [] {
      assert ts[|ts| - 1] in ts;
      NoKeyNoValue(ts[..|ts| - 1], k);
    }
  }

  lemma SameBagSameKeys(xs: seq<Target>, ys: seq<Target>, k: Target)
    requires multiset(xs) == multiset(ys) && KeysIdentify(xs)
    ensures OfKey(xs, k) == OfKey(ys, k)
  {
    assert forall t :: t in xs <==> t in multiset(xs);
    assert forall t :: t in ys <==> t in multiset(ys);
    if t :| t in xs && SameKey(t, k) {
      OneKeyOneValue(xs, t);
      OneKeyOneValue(ys, t);
      SameKeySameMembers(xs, k, t);
      SameKeySameMembers(ys, k, t);
    } else {
      NoKeyNoValue(xs, k);
      NoKeyNoValue(ys, k);
    }
  }

  lemma {:induction false} SameKeySameMembers(ts: seq<Target>, k: Target, k': Target)
    requires SameKey(k, k')
    ensures OfKey(ts, k) == OfKey(ts, k')
  {
    if ts != [] {
      SameKeySameMembers(ts[..|ts| - 1], k, k');
    }
  }

  /** When keys identify targets, any two orderings of the same records give the same list. */
  lemma SortIgnoresOrder(xs: seq<Target>, ys: seq<Target>)
    requires multiset(xs) == multiset(ys) && KeysIdentify(xs)
    ensures Sort(xs) == Sort(ys)
  {
    forall k ensures OfKey(Sort(xs), k) == OfKey(Sort(ys), k) {
      SortIsStable(xs);
      SortIsStable(ys);
      SameBagSameKeys(xs, ys, k);
    }
    SortIsStable(xs);
    SortIsStable(ys);
    StableSortIsUnique(Sort(xs), Sort(ys));
  }

  lemma {:induction false} FirstOfKey(t: Target, rest: seq<Target>)
    ensures OfKey([t] + rest, t) != [] && OfKey([t] + rest, t)[0] == t
  {
    if rest == [] {
      assert [t] + rest == [t] && [t][..0] == [];
      OfKeyAppend([], t, t);
      assert [] + [t] == [t];
    } else {
      FirstOfKey(t, rest[..|rest| - 1]);
      assert [t] + rest == ([t] + rest[..|rest| - 1]) + [rest[|rest| - 1]];
      OfKeyAppend([t] + rest[..|rest| - 1], rest[|rest| - 1], t);
    }
  }

  /** `ts` with the member at `i` moved to the front. */
  function Fronted<T>(ts: seq<T>, i: nat): seq<T>
    requires i < |ts|
  {
    [ts[i]] + (ts[..i] + ts[i + 1..])
  }

  lemma FrontedIsPermutation<T>(ts: seq<T>, i: nat)
    requires i < |ts|
    ensures multiset(Fronted(ts, i)) == multiset(ts)
  {
    assert ts == ts[..i] + [ts[i]] + ts[i + 1..];
  }

  /** Of two different targets with one key, whichever comes first stays first. */
  lemma CollisionShows(ts: seq<Target>, i: nat, j: nat)
    requires i < |ts| && j < |ts| && SameKey(ts[i], ts[j]) && ts[i] != ts[j]
    ensures Sort(Fronted(ts, i)) != Sort(Fronted(ts, j))
  {
    hide Sort, OfKey;
    var xs, ys := Fronted(ts, i), Fronted(ts, j);
    FirstOfKey(ts[i], ts[..i] + ts[i + 1..]);
    FirstOfKey(ts[j], ts[..j] + ts[j + 1..]);
    SameKeySameMembers(ys, ts[i], ts[j]);
    SortIsStable(xs);
    SortIsStable(ys);
    assert OfKey(Sort(xs), ts[i]) == OfKey(xs, ts[i]) && OfKey(Sort(ys), ts[i]) == OfKey(ys, ts[i]);
  }

  lemma TargetsWithout(recs: seq<SrvRecord>, j: nat)
    requires j < |recs|
    ensures multiset(TargetsOf(recs)) == multiset(TargetsOf(recs[..j] + recs[j + 1..])) + multiset{TargetOf(recs[j])}
  {
    hide TargetOf;
    var ts := TargetsOf(recs);
    assert TargetsOf(recs[..j] + recs[j + 1..]) == ts[..j] + ts[j + 1..];
    assert ts == ts[..j] + [ts[j]] + ts[j + 1..];
  }

  lemma BagWithout<T>(xs: seq<T>, j: nat)
    requires j < |xs|
    ensures multiset(xs[..j] + xs[j + 1..]) == multiset(xs) - multiset{xs[j]}
  {
    assert xs == xs[..j] + [xs[j]] + xs[j + 1..];
  }

  /** Of two lists with the same members, each loses one occurrence of the same one. */
  lemma SameWithout<T>(xs: seq<T>, ys: seq<T>, i: nat, j: nat)
    requires multiset(xs) == multiset(ys) && i < |xs| && j < |ys| && xs[i] == ys[j]
    ensures multiset(xs[..i] + xs[i + 1..]) == multiset(ys[..j] + ys[j + 1..])
  {
    BagWithout(xs, i);
    BagWithout(ys, j);
  }

  lemma SameMember<T>(xs: seq<T>, ys: seq<T>, i: nat) returns (j: nat)
    requires multiset(xs) == multiset(ys) && i < |xs|
    ensures j < |ys| && ys[j] == xs[i]
  {
    assert xs[i] in multiset(ys);
    j :| 0 <= j < |ys| && ys[j] == xs[i];
  }

  lemma SameLength<T>(xs: seq<T>, ys: seq<T>)
    requires multiset(xs) == multiset(ys)
    ensures |xs| == |ys|
  {
    assert |xs| == |multiset(xs)| && |ys| == |multiset(ys)|;
  }

  /** Mapping records to targets respects which records there are. */
  lemma {:induction false} SameRecordsSameTargets(xs: seq<SrvRecord>, ys: seq<SrvRecord>)
    requires multiset(xs) == multiset(ys)
    ensures multiset(TargetsOf(xs)) == multiset(TargetsOf(ys))
    decreases |xs|
  {
    hide TargetOf, TargetsOf;
    SameLength(xs, ys);
    if xs == [] {
      assert xs == ys;
    } else {
      var j := SameMember(xs, ys, 0);
      SameWithout(xs, ys, 0, j);
      SameRecordsSameTargets(xs[..0] + xs[1..], ys[..j] + ys[j + 1..]);
      TargetsWithout(xs, 0);
      TargetsWithout(ys, j);
    }
  }

  /** A list of targets sorts to a function of its members exactly when their keys identify them. */
  lemma SortIsOrderFree(ts: seq<Target>)
    ensures KeysIdentify(ts) <==>
            forall xs, ys :: multiset(xs) == multiset(ys) == multiset(ts) ==> Sort(xs) == Sort(ys)
  {
    if KeysIdentify(ts) {
      forall xs: seq<Target>, ys: seq<Target> | multiset(xs) == multiset(ys) == multiset(ts)
        ensures Sort(xs) == Sort(ys)
      {
        assert forall t :: t in xs <==> t in multiset(xs);
        assert forall t :: t in ts <==> t in multiset(ts);
        SortIgnoresOrder(xs, ys);
      }
    } else {
      var t, u :| t in ts && u in ts && SameKey(t, u) && t != u;
      var i :| 0 <= i < |ts| && ts[i] == t;
      var j :| 0 <= j < |ts| && ts[j] == u;
      FrontedIsPermutation(ts, i);
      FrontedIsPermutation(ts, j);
      CollisionShows(ts, i, j);
    }
  }

  lemma Collision(recs: seq<SrvRecord>) returns (i: nat, j: nat)
    requires !KeysIdentify(TargetsOf(recs))
    ensures i < |recs| && j < |recs| && Sort(TargetsOf(Fronted(recs, i))) != Sort(TargetsOf(Fronted(recs, j)))
  {
    hide Sort, TargetOf;
    var ts := TargetsOf(recs);
    var t, u :| t in ts && u in ts && SameKey(t, u) && t != u;
    i :| 0 <= i < |ts| && ts[i] == t;
    j :| 0 <= j < |ts| && ts[j] == u;
    CollisionShows(ts, i, j);
    assert TargetsOf(Fronted(recs, i)) == Fronted(ts, i) && TargetsOf(Fronted(recs, j)) == Fronted(ts, j);
  }

  /**
   The discovered list is a function of the record set exactly when no two records that make
   different targets share a priority and a first label.
   */
  lemma OrderIndependence(recs: seq<SrvRecord>)
    ensures KeysIdentify(TargetsOf(recs)) <==>
            forall xs, ys :: multiset(xs) == multiset(ys) == multiset(recs) ==> Sort(TargetsOf(xs)) == Sort(TargetsOf(ys))
  {
    hide Sort, TargetsOf, KeysIdentify;
    if KeysIdentify(TargetsOf(recs)) {
      forall xs: seq<SrvRecord>, ys: seq<SrvRecord> | multiset(xs) == multiset(ys) == multiset(recs)
        ensures Sort(TargetsOf(xs)) == Sort(TargetsOf(ys))
      {
        SameRecordsSameTargets(recs, xs);
        SameRecordsSameTargets(recs, ys);
        SortIgnoresOrder(TargetsOf(recs), TargetsOf(xs));
        SortIgnoresOrder(TargetsOf(recs), TargetsOf(ys));
      }
    } else {
      var i, j := Collision(recs);
      FrontedIsPermutation(recs, i);
      FrontedIsPermutation(recs, j);
    }
  }

  lemma NamedByLabel(name: string, zone: string)
    requires '.' !in name
    ensures TrimDot(name + "." + zone + ".") == name + "." + zone
    ensures FirstLabel(name + "." + zone) == name
  {
    hide FirstLabel;
    assert IsFirstLabel(name, name + "." + zone);
  }

  /** Hosts with one label in two zones, at one priority, come out in whatever order they came in. */
  lemma ZonesCollide(name: string, zone: string, zone': string, port: nat, priority: nat, weight: nat)
    requires '.' !in name && zone != zone'
    ensures var r, r' := SrvRecord(name + "." + zone + ".", port, priority, weight),
                         SrvRecord(name + "." + zone' + ".", port, priority, weight);
            Sort(TargetsOf([r, r'])) != Sort(TargetsOf([r', r]))
  {
    hide Sort, TrimDot, FirstLabel;
    NamedByLabel(name, zone);
    NamedByLabel(name, zone');
    assert (name + "." + zone)[|name| + 1..] == zone && (name + "." + zone')[|name| + 1..] == zone';
    var r, r' := SrvRecord(name + "." + zone + ".", port, priority, weight),
                 SrvRecord(name + "." + zone' + ".", port, priority, weight);
    var ts := [TargetOf(r), TargetOf(r')];
    assert TargetsOf([r, r']) == ts && TargetsOf([r', r]) == [ts[1], ts[0]];
    assert Fronted(ts, 0) == ts && Fronted(ts, 1) == [ts[1], ts[0]];
    CollisionShows(ts, 0, 1);
  }

  lemma TwoZones()
    ensures var r, r' := SrvRecord("weft-a.z1.", 443, 10, 0), SrvRecord("weft-a.z2.", 443, 10, 0);
            Sort(TargetsOf([r, r'])) != Sort(TargetsOf([r', r]))
  {
    hide Sort, TargetsOf;
    assert "weft-a" + "." + "z1" + "." == "weft-a.z1.";
    assert "weft-a" + "." + "z2" + "." == "weft-a.z2.";
    ZonesCollide("weft-a", "z1", "z2", 443, 10, 0);
  }
}
