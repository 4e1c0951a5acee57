/**
  Embedding vectors: the placement of a provider's reply in Embed (internal/adapters/ai/openai.go), and
  validateEmbeddingVectors and embedMessagesBatch of internal/application/semantic.go.
 */
module Embedding {
  datatype Option<T> = None | Some(value: T)

  datatype Number = Finite(value: real) | NaN | Infinite
  type Vector = seq<Number>

  /** One element of the reply; the index may be left out. */
  datatype Item = Item(index: Option<int>, embedding: Vector)

  predicate AllFinite(v: Vector) { forall i :: 0 <= i < |v| ==> v[i].Finite? }

  /** Where item i belongs: where it says, or where it stands. */
  function Slot(data: seq<Item>, i: nat): int
    requires i < |data|
  {
    if data[i].index.Some? then data[i].index.value else i
  }

  /** Indexes given for all or for none, in range and each once; vectors finite, not empty, of one length. */
  ghost predicate Wellformed(data: seq<Item>, n: nat) {
    && |data| == n
    && (forall i :: 0 <= i < n ==> data[i].index.None? == data[0].index.None?)
    && (forall i :: 0 <= i < n ==> 0 <= Slot(data, i) < n)
    && (forall i, j :: 0 <= i < j < n ==> Slot(data, i) != Slot(data, j))
    && (forall i :: 0 <= i < n ==> FitsFirst(data, i))
  }

  predicate FitsFirst(data: seq<Item>, i: nat)
    requires i < |data|
  {
    data[i].embedding != [] && |data[i].embedding| == |data[0].embedding| && AllFinite(data[i].embedding)
  }

  method IsFinite(v: Vector) returns (finite: bool)
    ensures finite == AllFinite(v)
  {
    for i := 0 to |v|
      invariant forall j :: 0 <= j < i ==> v[j].Finite?
    {
      if !v[i].Finite? { return false; }
    }
    return true;
  }

  /** The checks of one item, with the slots filled so far; an empty slot is nil. */
  predicate Rejects(data: seq<Item>, slots: seq<Vector>, i: nat)
    requires i < |data| == |slots|
  {
    || data[i].index.None? != data[0].index.None?
    || Slot(data, i) < 0 || Slot(data, i) >= |slots| || slots[Slot(data, i)] != []
    || !FitsFirst(data, i)
  }

  /** After k items: those are in their slots, and nothing else is. */
  ghost predicate Placed(data: seq<Item>, k: nat, slots: seq<Vector>) {
    && k <= |data| == |slots|
    && (forall i :: 0 <= i < k ==> !OutOfPlace(data, i) && slots[Slot(data, i)] == data[i].embedding)
    && (forall j :: 0 <= j < |slots| && slots[j] != [] ==> exists i :: 0 <= i < k && Slot(data, i) == j)
  }

  ghost predicate OutOfPlace(data: seq<Item>, i: nat)
    requires i < |data|
  {
    data[i].index.None? != data[0].index.None? || !(0 <= Slot(data, i) < |data|) || !FitsFirst(data, i)
  }

  /** A rejected item is why the reply is malformed. */
  lemma RejectedMeansMalformed(data: seq<Item>, slots: seq<Vector>, k: nat)
    requires k < |data| && Placed(data, k, slots) && Rejects(data, slots, k)
    ensures !Wellformed(data, |data|)
  {
    var j := Slot(data, k);
    if 0 <= j < |slots| && slots[j] != [] {
      var i :| 0 <= i < k && Slot(data, i) == j;
    }
  }

  lemma PlacedNext(data: seq<Item>, slots: seq<Vector>, k: nat)
    requires k < |data| && Placed(data, k, slots) && !Rejects(data, slots, k)
    ensures Placed(data, k + 1, slots[Slot(data, k) := data[k].embedding])
    ensures forall i :: 0 <= i < k ==> Slot(data, i) != Slot(data, k)
  {
    var t := slots[Slot(data, k) := data[k].embedding];
    forall i | 0 <= i < k ensures Slot(data, i) != Slot(data, k) {
      assert slots[Slot(data, i)] == data[i].embedding && FitsFirst(data, i);
    }
    forall j | 0 <= j < |t| && t[j] != [] ensures exists i :: 0 <= i < k + 1 && Slot(data, i) == j {
      if j != Slot(data, k) {
        var i :| 0 <= i < k && Slot(data, i) == j;
        assert 0 <= i < k + 1;
      } else {
        assert 0 <= k < k + 1 && Slot(data, k) == j;
      }
    }
  }

  /** One turn of the loop: the checks of item i, then its vector into its slot. */
  method PlaceItem(data: seq<Item>, i: nat, out: array<Vector>, dimensions: nat) returns (ok: bool)
    requires i < |data| == out.Length && (i > 0 ==> dimensions > 0)
    requires dimensions == if i == 0 then 0 else |data[0].embedding|
    modifies out
    ensures ok == !Rejects(data, old(out[..]), i)
    ensures out[..] == if ok then old(out[..])[Slot(data, i) := data[i].embedding] else old(out[..])
  {
    var d := data[i];
    var index := i;
    if d.index.Some? { index := d.index.value; }
    if d.index.None? != data[0].index.None? || index < 0 || index >= out.Length || out[index] != []
        || |d.embedding| == 0 {
      return false;
    }
    var expected := if dimensions == 0 then |d.embedding| else dimensions;
    if expected != |d.embedding| { return false; }
    ok := IsFinite(d.embedding);
    if ok { out[index] := d.embedding; }
  }

  ghost predicate Apart(data: seq<Item>, k: nat) {
    k <= |data| && forall i, j :: 0 <= i < j < k ==> Slot(data, i) != Slot(data, j)
  }

  /** The reply is accepted exactly when it is well formed, and then vector i is where item i says. */
  method Embed(inputs: nat, data: seq<Item>) returns (ok: bool, vectors: seq<Vector>)
    ensures ok <==> Wellformed(data, inputs)
    ensures ok ==> Placed(data, inputs, vectors)
    ensures !ok ==> vectors == []
  {
    if |data| != inputs { return false, []; }
    var out := new Vector[inputs](_ => []);
    var dimensions := 0;
    for i := 0 to inputs
      invariant Placed(data, i, out[..]) && Apart(data, i)
      invariant dimensions == if i == 0 then 0 else |data[0].embedding|
    {
      ghost var before := out[..];
      assert i > 0 ==> FitsFirst(data, 0);
      var placed := PlaceItem(data, i, out, dimensions);
      if !placed {
        RejectedMeansMalformed(data, before, i);
        return false, [];
      }
      PlacedNext(data, before, i);
      dimensions := |data[0].embedding|;
    }
    AllPlaced(data, out[..]);
    return true, out[..];
  }

  lemma AllPlaced(data: seq<Item>, slots: seq<Vector>)
    requires Placed(data, |data|, slots) && Apart(data, |data|)
    ensures Wellformed(data, |data|)
  {
  }

  // ----- every slot is filled -----

  /** n different numbers below n are all the numbers below n. */
  lemma {:induction false} Pigeonhole(s: seq<int>, j: int)
    requires forall i :: 0 <= i < |s| ==> 0 <= s[i] < |s|
    requires forall i, k :: 0 <= i < k < |s| ==> s[i] != s[k]
    requires 0 <= j < |s|
    ensures j in s
  {
    var image := set x | x in s;
    var all := Below(|s|);
    ImageSize(s);
    SubsetSize(image, all);
    assert j in all;
  }

  lemma SubsetSize(a: set<int>, b: set<int>)
    requires a <= b && |a| == |b|
    ensures a == b
  {
    assert |b - a| == |b| - |a|;
    assert a != b ==> b - a != {};
  }

  lemma {:induction false} ImageSize(s: seq<int>)
    requires forall i, k :: 0 <= i < k < |s| ==> s[i] != s[k]
    ensures |set x | x in s| == |s|
  {
    if s != [] {
      var n := |s| - 1;
      ImageSize(s[..n]);
      assert s == s[..n] + [s[n]];
      assert (set x | x in s) == (set x | x in s[..n]) + {s[n]};
    }
  }

  function Below(n: nat): (all: set<int>)
    ensures |all| == n && forall x :: x in all <==> 0 <= x < n
  {
    if n == 0 then {} else Below(n - 1) + {n - 1}
  }

  /** In an accepted reply every input has exactly one item, of the one length: the indexes are a permutation. */
  lemma EverySlotFilled(data: seq<Item>, n: nat, j: nat)
    requires Wellformed(data, n) && j < n
    ensures exists i :: 0 <= i < n && Slot(data, i) == j && data[i].embedding != []
    ensures forall i, k :: 0 <= i < n && 0 <= k < n && Slot(data, i) == j && Slot(data, k) == j ==> i == k
  {
    var slots := seq(n, i requires 0 <= i < n => Slot(data, i));
    Pigeonhole(slots, j);
    var i :| 0 <= i < n && slots[i] == j;
    assert FitsFirst(data, i);
  }

  // ----- the check before anything is written -----

  ghost predicate Usable(vectors: seq<Vector>, expected: nat) {
    && |vectors| == expected > 0 && vectors[0] != []
    && forall i :: 0 <= i < expected ==> |vectors[i]| == |vectors[0]| && AllFinite(vectors[i])
  }

  method ValidateEmbeddingVectors(vectors: seq<Vector>, expected: nat) returns (ok: bool)
    ensures ok <==> Usable(vectors, expected)
  {
    if |vectors| != expected || expected == 0 { return false; }
    var dimension := |vectors[0]|;
    if dimension == 0 { return false; }
    for i := 0 to |vectors|
      invariant forall j :: 0 <= j < i ==> |vectors[j]| == dimension && AllFinite(vectors[j])
    {
      if |vectors[i]| != dimension { return false; }
      var finite := IsFinite(vectors[i]);
      if !finite { return false; }
    }
    return true;
  }

  /** What Embed accepts for at least one input also passes the check. */
  lemma PlacedIsUsable(data: seq<Item>, n: nat, vectors: seq<Vector>)
    requires Wellformed(data, n) && n > 0 && |vectors| == n
    requires Placed(data, n, vectors)
    ensures Usable(vectors, n)
  {
    forall j | 0 <= j < n ensures vectors[j] != [] && |vectors[j]| == |data[0].embedding| && AllFinite(vectors[j]) {
      EverySlotFilled(data, n, j);
      var i :| 0 <= i < n && Slot(data, i) == j && data[i].embedding != [];
      assert FitsFirst(data, i);
    }
  }

  /** p names each slot once. */
  predicate Permutation(p: seq<int>) {
    (forall i :: 0 <= i < |p| ==> 0 <= p[i] < |p|) && forall i, j :: 0 <= i < j < |p| ==> p[i] != p[j]
  }

  /**
    The other way round: vectors that pass the check, sent in any order with their indexes or in order without,
    are accepted and end up in their slots.
   */
  lemma UsableIsPlaced(vectors: seq<Vector>, p: seq<int>, indexed: bool, slots: seq<Vector>)
    requires Usable(vectors, |vectors|) && Permutation(p) && |p| == |vectors|
    requires !indexed ==> forall i :: 0 <= i < |p| ==> p[i] == i
    ensures var data := Sent(vectors, p, indexed);
            Wellformed(data, |vectors|) && (Placed(data, |data|, slots) ==> slots == vectors)
  {
    var data := Sent(vectors, p, indexed);
    assert forall i :: 0 <= i < |data| ==> Slot(data, i) == p[i];
    assert forall i :: 0 <= i < |data| ==> FitsFirst(data, i);
    if Placed(data, |data|, slots) {
      forall j | 0 <= j < |vectors| ensures slots[j] == vectors[j] {
        Pigeonhole(p, j);
        var i :| 0 <= i < |p| && p[i] == j;
        assert slots[Slot(data, i)] == data[i].embedding;
      }
    }
  }

  /** The reply that sends them in the order p. */
  function Sent(vectors: seq<Vector>, p: seq<int>, indexed: bool): (data: seq<Item>)
    requires Permutation(p) && |p| == |vectors|
    ensures |data| == |p|
  {
    seq(|p|, i requires 0 <= i < |p| => Item(if indexed then Some(p[i]) else None, vectors[p[i]]))
  }
}
