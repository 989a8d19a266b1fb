/** Cluster chains (fs/src/fat32/mod.rs:135-156, 300-304, 365-366, 520): the table read as a forest of
    disjoint, acyclic, end-marked chains, and what allocation, extension and unlink do to it. */
module FatForest {
  import opened Arith
  import opened Bytes
  import opened Sequences
  import opened FatTable

  /** The low 28 bits of every entry, indexed by cluster. */
  type Fat = seq<nat>

  /** cluster_chain, at most `fuel` clusters long; outside the table the walk stops. */
  function ChainFrom(fat: Fat, cur: nat, fuel: nat): seq<nat>
    decreases fuel
  {
    if fuel == 0 || cur < 2 || cur >= Eoc || cur >= |fat| then []
    else if fat[cur] >= Eoc || fat[cur] < 2 then [cur]
    else [cur] + ChainFrom(fat, fat[cur], fuel - 1)
  }

  /** The chains by first cluster, and the chain (if any) of every cluster. */
  datatype Forest = Forest(chains: map<nat, seq<nat>>, home: seq<Option<nat>>)

  ghost predicate IsChain(fat: Fat, c: seq<nat>) {
    && c != [] && NoDup(c)
    && (forall i :: 0 <= i < |c| ==> 2 <= c[i] < |fat|)
    && (forall i, j :: 0 <= i < j < |c| && j == i + 1 ==> fat[c[i]] == c[j])
    && fat[c[|c| - 1]] >= Eoc
  }

  /** Chains are in range, acyclic, end-marked and pairwise disjoint. */
  ghost predicate ForestOk(fat: Fat, f: Forest) {
    && |fat| <= Eoc && |f.home| == |fat|
    && (forall h :: h in f.chains ==> f.chains[h] != [] && f.chains[h][0] == h && IsChain(fat, f.chains[h]))
    && (forall h, d {:trigger d in f.chains[h]} :: h in f.chains && d in f.chains[h] ==>
       d < |fat| && f.home[d] == Some(h))
    && (forall d :: 0 <= d < |fat| && f.home[d].Some? ==> f.home[d].value in f.chains && d in f.chains[f.home[d].value])
  }

  lemma {:induction false} ChainFromAt(fat: Fat, c: seq<nat>, i: nat, fuel: nat)
    requires |fat| <= Eoc && IsChain(fat, c) && i < |c| && fuel >= |c| - i
    ensures ChainFrom(fat, c[i], fuel) == c[i..]
    decreases |c| - i
  {
    if i + 1 < |c| {
      assert fat[c[i]] == c[i + 1];
      ChainFromAt(fat, c, i + 1, fuel - 1);
    }
  }

  /** cluster_chain ends, and lists exactly the chain. */
  lemma ChainIs(fat: Fat, f: Forest, h: nat)
    requires ForestOk(fat, f) && h in f.chains
    ensures ChainFrom(fat, h, |fat|) == f.chains[h]
  {
    var c := f.chains[h];
    DistinctBound(c, |fat|);
    ChainFromAt(fat, c, 0, |fat|);
  }

  /** Clusters of a chain are not free. */
  lemma ChainUsed(fat: Fat, c: seq<nat>, i: nat)
    requires IsChain(fat, c) && i < |c|
    ensures fat[c[i]] != 0
  {
    if i + 1 < |c| { assert fat[c[i]] == c[i + 1]; }
  }

  lemma FreeIsHomeless(fat: Fat, f: Forest, c: nat)
    requires ForestOk(fat, f) && c < |fat| && fat[c] == 0
    ensures f.home[c] == None && c !in f.chains
    ensures forall h :: h in f.chains ==> c !in f.chains[h]
  {
    forall h | h in f.chains ensures c !in f.chains[h] {
      var x := f.chains[h];
      if c in x {
        var i :| 0 <= i < |x| && x[i] == c;
        ChainUsed(fat, x, i);
      }
    }
    forall h | h in f.chains ensures h != c { assert f.chains[h][0] in f.chains[h]; }
  }

  // ---------------------------------------------------------------- allocation

  /** fat_alloc_cluster: the first free cluster from `c` on. */
  function FirstFree(fat: Fat, c: nat): (r: Option<nat>)
    requires c <= |fat|
    ensures r.Some? ==> c <= r.value < |fat| && fat[r.value] == 0 && forall i :: c <= i < r.value ==> fat[i] != 0
    ensures r.None? ==> forall i :: c <= i < |fat| ==> fat[i] != 0
    decreases |fat| - c
  {
    if c == |fat| then None else if fat[c] == 0 then Some(c) else FirstFree(fat, c + 1)
  }

  ghost function AllocForest(f: Forest, c: nat): Forest
    requires c < |f.home|
  {
    Forest(f.chains[c := [c]], f.home[c := Some(c)])
  }

  lemma SameChain(fat: Fat, fat2: Fat, x: seq<nat>)
    requires IsChain(fat, x) && |fat2| == |fat| && forall d :: d in x ==> d < |fat| && fat2[d] == fat[d]
    ensures IsChain(fat2, x)
  {
    forall i | 0 <= i < |x| ensures fat2[x[i]] == fat[x[i]] { assert x[i] in x; }
  }

  lemma AllocKeeps(fat: Fat, f: Forest, c: nat)
    requires ForestOk(fat, f) && 2 <= c < |fat| && fat[c] == 0
    ensures ForestOk(fat[c := Eoc], AllocForest(f, c))
  {
    hide IsChain;
    FreeIsHomeless(fat, f, c);
    var fat2, g := fat[c := Eoc], AllocForest(f, c);
    forall h | h in g.chains ensures g.chains[h] != [] && g.chains[h][0] == h && IsChain(fat2, g.chains[h]) {
      if h == c { Single(fat2, c); } else { SameChain(fat, fat2, f.chains[h]); }
    }
  }

  lemma Single(fat: Fat, c: nat)
    requires 2 <= c < |fat| && fat[c] >= Eoc
    ensures IsChain(fat, [c])
  {
  }

  // ---------------------------------------------------------------- extension

  function Last(c: seq<nat>): nat
    requires c != []
  {
    c[|c| - 1]
  }

  /** The new cluster `c`, a chain by itself, becomes the last of chain `h`. */
  ghost function LinkForest(f: Forest, h: nat, c: nat): Forest
    requires h in f.chains && c < |f.home|
  {
    Forest((f.chains - {c})[h := f.chains[h] + [c]], f.home[c := Some(h)])
  }

  lemma LinkKeeps(fat: Fat, f: Forest, h: nat, c: nat)
    requires ForestOk(fat, f) && h in f.chains && c in f.chains && f.chains[c] == [c] && h != c
    ensures f.chains[h] != [] && Last(f.chains[h]) < |fat| && c < |fat|
    ensures ForestOk(fat[Last(f.chains[h]) := c], LinkForest(f, h, c))
  {
    hide IsChain;
    var x := f.chains[h];
    assert c in f.chains[c];
    Facts(fat, x);
    Facts(fat, [c]);
    assert Last(x) in x;
    var fat2, g := fat[Last(x) := c], LinkForest(f, h, c);
    assert c !in x by { assert f.home[c] == Some(c); }
    Appended(fat, x, c);
    forall k | k in g.chains ensures g.chains[k] != [] && g.chains[k][0] == k && IsChain(fat2, g.chains[k]) {
      if k != h {
        var y := f.chains[k];
        assert Last(x) !in y by { assert f.home[Last(x)] == Some(h); }
        SameChain(fat, fat2, y);
      }
    }
    forall k, d | k in g.chains && d in g.chains[k] ensures d < |fat2| && g.home[d] == Some(k) {
      if k == h && d in x { assert d != c; }
    }
    forall d | 0 <= d < |fat2| && g.home[d].Some?
        ensures g.home[d].value in g.chains && d in g.chains[g.home[d].value] {
      if d == c { assert (x + [c])[|x|] == c; } else { assert f.home[d].value != c by { OnlyItself(fat, f, c, d); } }
    }
  }

  lemma OnlyItself(fat: Fat, f: Forest, c: nat, d: nat)
    requires ForestOk(fat, f) && c in f.chains && f.chains[c] == [c] && d != c && d < |fat| && f.home[d].Some?
    ensures f.home[d].value != c
  {
  }

  lemma Facts(fat: Fat, c: seq<nat>)
    requires IsChain(fat, c)
    ensures c != [] && (forall d :: d in c ==> 2 <= d < |fat|) && fat[Last(c)] >= Eoc
  {
  }

  lemma Appended(fat: Fat, x: seq<nat>, c: nat)
    requires IsChain(fat, x) && 2 <= c < |fat| && c !in x && fat[c] >= Eoc
    ensures IsChain(fat[Last(x) := c], x + [c])
  {
    var fat2, y := fat[Last(x) := c], x + [c];
    forall i, j | 0 <= i < j < |y| && j == i + 1 ensures fat2[y[i]] == y[j] {
      if j < |x| { assert fat[x[i]] == x[j] && x[i] != Last(x); }
    }
    assert c != Last(x);
  }

  // ---------------------------------------------------------------- unlink

  /** The loop of unlink: the first `k` clusters of the chain freed. */
  function FreeAll(fat: Fat, c: seq<nat>, k: nat): (r: Fat)
    requires k <= |c|
    ensures |r| == |fat|
    ensures forall d :: 0 <= d < |fat| ==> r[d] == if d in c[..k] then 0 else fat[d]
  {
    if k == 0 then fat
    else
      var r := FreeAll(fat, c, k - 1);
      assert c[..k] == c[..k - 1] + [c[k - 1]];
      if c[k - 1] < |r| then r[c[k - 1] := 0] else r
  }

  ghost function FreeForest(f: Forest, h: nat): Forest
    requires h in f.chains
  {
    Forest(f.chains - {h}, seq(|f.home|, d requires 0 <= d < |f.home| => if d in f.chains[h] then None else f.home[d]))
  }

  lemma FreeKeeps(fat: Fat, f: Forest, h: nat)
    requires ForestOk(fat, f) && h in f.chains
    ensures ForestOk(FreeAll(fat, f.chains[h], |f.chains[h]|), FreeForest(f, h))
  {
    hide IsChain;
    var x := f.chains[h];
    assert x[..|x|] == x;
    var fat2, g := FreeAll(fat, x, |x|), FreeForest(f, h);
    forall k | k in g.chains ensures g.chains[k] != [] && g.chains[k][0] == k && IsChain(fat2, g.chains[k]) {
      var y := f.chains[k];
      forall d | d in y ensures d < |fat| && fat2[d] == fat[d] { assert f.home[d] == Some(k); }
      SameChain(fat, fat2, y);
    }
  }

  // ---------------------------------------------------------------- growing a file

  function CountFree(fat: Fat, c: nat): nat
    requires c <= |fat|
    decreases |fat| - c
  {
    if c == |fat| then 0 else (if fat[c] == 0 then 1 else 0) + CountFree(fat, c + 1)
  }

  lemma {:induction false} CountFreeTaken(fat: Fat, i: nat, c: nat, v: nat)
    requires i <= |fat| && c < |fat| && fat[c] == 0 && v != 0
    ensures CountFree(fat[c := v], i) == CountFree(fat, i) - if i <= c then 1 else 0
    decreases |fat| - i
  {
    if i < |fat| { CountFreeTaken(fat, i + 1, c, v); }
  }

  lemma {:induction false} CountFreeSame(fat: Fat, i: nat, c: nat, v: nat)
    requires i <= |fat| && c < |fat| && fat[c] != 0 && v != 0
    ensures CountFree(fat[c := v], i) == CountFree(fat, i)
    decreases |fat| - i
  {
    if i < |fat| { CountFreeSame(fat, i + 1, c, v); }
  }

  lemma {:induction false} CountFreeNone(fat: Fat, i: nat)
    requires i <= |fat| && forall j :: i <= j < |fat| ==> fat[j] != 0
    ensures CountFree(fat, i) == 0
    decreases |fat| - i
  {
    if i < |fat| { CountFreeNone(fat, i + 1); }
  }

  /** The growing loop of file_write on chain `h`: until it has `needed` clusters or none is free. */
  ghost function Grow(fat: Fat, f: Forest, h: nat, needed: nat): (r: (Fat, Forest))
    requires ForestOk(fat, f) && h in f.chains && |fat| >= 2
    ensures ForestOk(r.0, r.1) && |r.0| == |fat| && h in r.1.chains
    decreases needed - |f.chains[h]|
  {
    if |f.chains[h]| >= needed then (fat, f)
    else
      match FirstFree(fat, 2)
      case None => (fat, f)
      case Some(c) =>
        GrowOnce(fat, f, h, c);
        Grow(fat[c := Eoc][Last(f.chains[h]) := c], LinkForest(AllocForest(f, c), h, c), h, needed)
  }

  lemma GrowOnce(fat: Fat, f: Forest, h: nat, c: nat)
    requires ForestOk(fat, f) && h in f.chains && 2 <= c < |fat| && fat[c] == 0
    ensures c < |f.home| && f.chains[h] != [] && Last(f.chains[h]) < |fat| && Last(f.chains[h]) != c && c !in f.chains
    ensures fat[Last(f.chains[h])] != 0
    ensures ForestOk(fat[c := Eoc][Last(f.chains[h]) := c], LinkForest(AllocForest(f, c), h, c))
    ensures LinkForest(AllocForest(f, c), h, c).chains == f.chains[h := f.chains[h] + [c]]
  {
    hide ForestOk, IsChain;
    Alone(fat, f, c);
    FreeIsHomeless(fat, f, c);
    AllocKeeps(fat, f, c);
    var g := AllocForest(f, c);
    Alone(fat[c := Eoc], g, c);
    LinkKeeps(fat[c := Eoc], g, h, c);
    LastUsed(fat, f, h);
    assert g.chains - {c} == f.chains;
  }

  lemma Alone(fat: Fat, f: Forest, c: nat)
    requires ForestOk(fat, f)
    ensures forall h :: h in f.chains ==> f.chains[h] != []
    ensures |f.home| == |fat|
  {
  }

  lemma LastUsed(fat: Fat, f: Forest, h: nat)
    requires ForestOk(fat, f) && h in f.chains
    ensures f.chains[h] != [] && Last(f.chains[h]) in f.chains[h] && Last(f.chains[h]) < |fat|
            && fat[Last(f.chains[h])] != 0
  {
    ChainUsed(fat, f.chains[h], |f.chains[h]| - 1);
  }

  /** Growing only appends clusters that were free, and reaches the wanted length exactly when enough are. */
  ghost predicate Grown(fat: Fat, f: Forest, h: nat, needed: nat, g: Forest)
    requires h in f.chains && |fat| >= 2
  {
    && g.chains.Keys == f.chains.Keys
    && (forall k :: k in f.chains && k != h ==> g.chains[k] == f.chains[k])
    && f.chains[h] <= g.chains[h]
    && (forall c :: c in g.chains[h][|f.chains[h]|..] ==> 2 <= c < |fat| && fat[c] == 0)
    && |g.chains[h]| == Max(|f.chains[h]|, Min(needed, |f.chains[h]| + CountFree(fat, 2)))
  }

  lemma {:induction false} GrowSpec(fat: Fat, f: Forest, h: nat, needed: nat)
    requires ForestOk(fat, f) && h in f.chains && |fat| >= 2
    ensures Grown(fat, f, h, needed, Grow(fat, f, h, needed).1)
    decreases needed - |f.chains[h]|
  {
    hide ForestOk, IsChain, Grown;
    if |f.chains[h]| >= needed {
      GrownSame(fat, f, h, needed);
    } else {
      match FirstFree(fat, 2)
      case None =>
        CountFreeNone(fat, 2);
        GrownSame(fat, f, h, needed);
      case Some(c) =>
        GrowOnce(fat, f, h, c);
        var last := Last(f.chains[h]);
        var fat1, f1 := fat[c := Eoc][last := c], LinkForest(AllocForest(f, c), h, c);
        CountFreeTaken(fat, 2, c, Eoc);
        CountFreeSame(fat[c := Eoc], 2, last, c);
        GrowSpec(fat1, f1, h, needed);
        GrownMore(fat, f, h, needed, c, fat1, f1, Grow(fat1, f1, h, needed).1);
    }
  }

  lemma GrownSame(fat: Fat, f: Forest, h: nat, needed: nat)
    requires h in f.chains && |fat| >= 2 && (|f.chains[h]| >= needed || CountFree(fat, 2) == 0)
    ensures Grown(fat, f, h, needed, f)
  {
    hide CountFree;
  }

  lemma GrownMore(fat: Fat, f: Forest, h: nat, needed: nat, c: nat, fat1: Fat, f1: Forest, g: Forest)
    requires h in f.chains && 2 <= c < |fat| == |fat1| && fat[c] == 0 && |f.chains[h]| < needed
    requires f1.chains == f.chains[h := f.chains[h] + [c]] && CountFree(fat1, 2) == CountFree(fat, 2) - 1
    requires forall d :: 0 <= d < |fat| && fat1[d] == 0 ==> fat[d] == 0
    requires Grown(fat1, f1, h, needed, g)
    ensures Grown(fat, f, h, needed, g)
  {
    hide CountFree;
    assert g.chains[h][|f.chains[h]|] == f1.chains[h][|f.chains[h]|] == c;
    assert g.chains[h][|f.chains[h]|..] == [c] + g.chains[h][|f1.chains[h]|..];
  }

  // ---------------------------------------------------------------- runs

  datatype Op = NewChain | Extend(h: nat) | Release(h: nat)

  /** One allocation, one turn of the growing loop of file_write, or one unlink. */
  ghost predicate Step(fat: Fat, f: Forest, op: Op, fat2: Fat, g: Forest) {
    && |f.home| == |fat| >= 2
    && match op
       case NewChain =>
         (match FirstFree(fat, 2)
          case None => fat2 == fat && g == f
          case Some(c) => fat2 == fat[c := Eoc] && g == AllocForest(f, c))
       case Extend(h) =>
         (match FirstFree(fat, 2)
          case None => fat2 == fat && g == f
          case Some(c) =>
            var x := ChainFrom(fat, h, |fat|);
            h in f.chains && x != [] && Last(x) < |fat| && fat2 == fat[c := Eoc][Last(x) := c]
                && g == LinkForest(AllocForest(f, c), h, c))
       case Release(h) =>
         var x := ChainFrom(fat, h, |fat|);
         h in f.chains && fat2 == FreeAll(fat, x, |x|) && g == FreeForest(f, h)
  }

  lemma StepKeeps(fat: Fat, f: Forest, op: Op, fat2: Fat, g: Forest)
    requires ForestOk(fat, f) && Step(fat, f, op, fat2, g)
    ensures ForestOk(fat2, g)
  {
    hide ForestOk, FreeAll, ChainFrom;
    match op
    case NewChain =>
      match FirstFree(fat, 2) {
        case None =>
        case Some(c) => AllocKeeps(fat, f, c);
      }
    case Extend(h) =>
      match FirstFree(fat, 2) {
        case None =>
        case Some(c) =>
          ChainIs(fat, f, h);
          FreeIsHomeless(fat, f, c);
          AllocKeeps(fat, f, c);
          LinkKeeps(fat[c := Eoc], AllocForest(f, c), h, c);
      }
    case Release(h) =>
      ChainIs(fat, f, h);
      FreeKeeps(fat, f, h);
  }

  ghost predicate IsRun(fats: seq<Fat>, forests: seq<Forest>, ops: seq<Op>) {
    && |fats| == |forests| == |ops| + 1 && ForestOk(fats[0], forests[0])
    && forall i :: 0 <= i < |ops| ==> Step(fats[i], forests[i], ops[i], fats[i + 1], forests[i + 1])
  }

  /** After any run the chains are in range, acyclic, end-marked and disjoint, and cluster_chain lists each. */
  lemma {:induction false} RunForest(fats: seq<Fat>, forests: seq<Forest>, ops: seq<Op>, k: nat)
    requires IsRun(fats, forests, ops) && k <= |ops|
    ensures ForestOk(fats[k], forests[k])
    ensures forall h :: h in forests[k].chains ==> ChainFrom(fats[k], h, |fats[k]|) == forests[k].chains[h]
  {
    hide Step, ForestOk;
    if k > 0 {
      RunForest(fats, forests, ops, k - 1);
      StepKeeps(fats[k - 1], forests[k - 1], ops[k - 1], fats[k], forests[k]);
    }
    forall h | h in forests[k].chains ensures ChainFrom(fats[k], h, |fats[k]|) == forests[k].chains[h] {
      ChainIs(fats[k], forests[k], h);
    }
  }
}
