/**
 * Preparing the activations of a batch in tools/fused_gemv_batch.c: matrices that share an activation
 * share one permuted copy, and different activations get disjoint slots of a growing arena.
 */
module BatchActivations {
  import opened Mxfp4Avx2

  /** Where an activation lies: in the buffer that the outputs are written to, or elsewhere. */
  datatype Place = InBuffer(from: nat) | Elsewhere(address: nat)

  /** An activation as the batch names it: an address and a length. */
  datatype Activation = Activation(place: Place, cols: nat)

  /** The first matrix with the same activation as matrix m. */
  predicate FirstUse(xs: seq<Activation>, m: nat)
    requires m < |xs|
  {
    forall k :: 0 <= k < m ==> xs[k] != xs[m]
  }

  /** How many different activations the first n matrices have. */
  function Different(xs: seq<Activation>, n: nat): nat
    requires n <= |xs|
  {
    if n == 0 then 0 else Different(xs, n - 1) + if FirstUse(xs, n - 1) then 1 else 0
  }

  /** The width of all different activations of the first n matrices. */
  function TotalWidth(xs: seq<Activation>, n: nat): nat
    requires n <= |xs|
  {
    if n == 0 then 0 else TotalWidth(xs, n - 1) + if FirstUse(xs, n - 1) then xs[n - 1].cols else 0
  }

  /** The search for an earlier matrix with the same entry; `m` when there is none. */
  method FindPrior<T(==)>(list: seq<T>, m: nat) returns (prior: nat)
    requires m < |list|
    ensures prior <= m && (prior < m ==> list[prior] == list[m])
    ensures forall k :: 0 <= k < prior ==> list[k] != list[m]
  {
    prior := 0;
    while prior < m && list[prior] != list[m]
      invariant prior <= m && forall k :: 0 <= k < prior ==> list[k] != list[m]
    {
      prior := prior + 1;
    }
  }

  /** Shared activations share an offset; the slots of different ones are disjoint, below `need`. */
  ghost predicate SlotsOk(xs: seq<Activation>, offsets: seq<nat>, need: nat) {
    && |offsets| <= |xs|
    && (forall m :: 0 <= m < |offsets| ==> offsets[m] + xs[m].cols <= need)
    && forall a, b :: 0 <= a < b < |offsets| ==>
      if xs[a] == xs[b] then offsets[a] == offsets[b] else Apart(offsets[a], xs[a].cols, offsets[b], xs[b].cols)
  }

  predicate Apart(a: nat, width: nat, b: nat, width': nat) { a + width <= b || b + width' <= a }

  predicate Usable(x: Activation) { x.cols > 0 && x.cols % 32 == 0 }

  lemma NoSlots(xs: seq<Activation>)
    ensures SlotsOk(xs, [], 0)
  {
  }

  lemma SharesSlot(xs: seq<Activation>, offsets: seq<nat>, need: nat, prior: nat)
    requires SlotsOk(xs, offsets, need) && prior < |offsets| < |xs| && xs[prior] == xs[|offsets|]
    ensures SlotsOk(xs, offsets + [offsets[prior]], need)
  {
  }

  lemma TakesNewSlot(xs: seq<Activation>, offsets: seq<nat>, need: nat)
    requires SlotsOk(xs, offsets, need) && |offsets| < |xs| && FirstUse(xs, |offsets|)
    ensures SlotsOk(xs, offsets + [need], need + xs[|offsets|].cols)
  {
  }

  /** The first loop: an offset for every matrix, the arena size and the number of different activations. */
  method AssignSlots(xs: seq<Activation>) returns (ok: bool, offsets: seq<nat>, need: nat, unique: nat)
    ensures ok <==> forall m :: 0 <= m < |xs| ==> Usable(xs[m])
    ensures ok ==> |offsets| == |xs| && SlotsOk(xs, offsets, need)
    ensures ok ==> unique == Different(xs, |xs|) && need == TotalWidth(xs, |xs|)
  {
    hide SlotsOk, Usable;
    offsets, need, unique := [], 0, 0;
    assert SlotsOk(xs, [], 0) by { NoSlots(xs); }
    for m := 0 to |xs|
      invariant |offsets| == m && SlotsOk(xs, offsets, need)
      invariant forall k :: 0 <= k < m ==> Usable(xs[k])
      invariant unique == Different(xs, m) && need == TotalWidth(xs, m)
    {
      if !Usable(xs[m]) { return false, [], 0, 0; }
      var prior := FindPrior(xs, m);
      if prior < m {
        SharesSlot(xs, offsets, need, prior);
        offsets := offsets + [offsets[prior]];
      } else {
        TakesNewSlot(xs, offsets, need);
        offsets := offsets + [need];
        need := need + xs[m].cols;
        unique := unique + 1;
      }
    }
    ok := true;
  }

  /** What every matrix finds at its activation: one address holds one activation. */
  ghost predicate Loaded<F>(xs: seq<Activation>, loaded: seq<seq<F>>) {
    && |loaded| == |xs| && (forall m :: 0 <= m < |xs| ==> |loaded[m]| == xs[m].cols)
    && forall a, b :: 0 <= a < b < |xs| && xs[a] == xs[b] ==> loaded[a] == loaded[b]
  }

  /** Every slot holds the permuted activation of its matrix. */
  ghost predicate Filled<F>(xs: seq<Activation>, loaded: seq<seq<F>>, offsets: seq<nat>, arena: seq<F>, n: nat)
    requires n <= |xs| == |offsets| == |loaded|
  {
    forall m :: 0 <= m < n ==> SlotHolds(xs[m].cols, loaded[m], offsets[m], arena)
  }

  ghost predicate SlotHolds<F>(cols: nat, x: seq<F>, at: nat, arena: seq<F>) {
    && |x| == cols && cols % 32 == 0 && at + cols <= |arena|
    && arena[at..at + cols] == PermutedX(x)
  }

  /** Two matrices have one slot exactly when they have one activation. */
  lemma SlotTellsUse(xs: seq<Activation>, offsets: seq<nat>, need: nat, m: nat, prior: nat)
    requires prior <= m < |xs| == |offsets| && SlotsOk(xs, offsets, need) && forall k :: 0 <= k <= m ==> Usable(xs[k])
    requires (forall k :: 0 <= k < prior ==> offsets[k] != offsets[m]) && (prior < m ==> offsets[prior] == offsets[m])
    ensures prior == m <==> FirstUse(xs, m)
    ensures prior < m ==> xs[prior] == xs[m]
    ensures offsets[m] + xs[m].cols <= need && xs[m].cols % 32 == 0
  {
    forall k | 0 <= k < m ensures offsets[k] == offsets[m] <==> xs[k] == xs[m] {
      assert Usable(xs[k]) && Usable(xs[m]);
    }
  }

  lemma OtherSlotsStay<F>(xs: seq<Activation>, loaded: seq<seq<F>>, offsets: seq<nat>, need: nat, before: seq<F>,
                          after: seq<F>, m: nat)
    requires m < |xs| == |offsets| == |loaded| && SlotsOk(xs, offsets, need) && |before| == |after| && FirstUse(xs, m)
    requires Filled(xs, loaded, offsets, before, m) && SlotHolds(xs[m].cols, loaded[m], offsets[m], after)
    requires forall k :: 0 <= k < |after| && !(offsets[m] <= k < offsets[m] + xs[m].cols) ==> after[k] == before[k]
    ensures Filled(xs, loaded, offsets, after, m + 1)
  {
    hide PermutedX;
    forall k | 0 <= k < m ensures SlotHolds(xs[k].cols, loaded[k], offsets[k], after) {
      assert SlotHolds(xs[k].cols, loaded[k], offsets[k], before);
      assert Apart(offsets[k], xs[k].cols, offsets[m], xs[m].cols);
      var from := offsets[k];
      assert forall i :: from <= i < from + xs[k].cols ==> after[i] == before[i];
      assert after[from..from + xs[k].cols] == before[from..from + xs[k].cols];
    }
  }

  /** The second loop: permute at each first use of a slot. */
  method FillSlots<F>(xs: seq<Activation>, loaded: seq<seq<F>>, offsets: seq<nat>, ghost need: nat, arena: array<F>)
    returns (ghost permuted: nat)
    requires |xs| == |offsets| && SlotsOk(xs, offsets, need) && need <= arena.Length
    requires Loaded(xs, loaded) && forall m :: 0 <= m < |xs| ==> Usable(xs[m])
    modifies arena
    ensures Filled(xs, loaded, offsets, arena[..], |xs|) && permuted == Different(xs, |xs|)
  {
    hide PermutedX, SlotsOk, Usable, FirstUse;
    permuted := 0;
    for m := 0 to |xs|
      invariant Filled(xs, loaded, offsets, arena[..], m) && permuted == Different(xs, m)
    {
      var prior := FindPrior(offsets, m);
      SlotTellsUse(xs, offsets, need, m, prior);
      if prior == m {
        ghost var before := arena[..];
        PermuteX(loaded[m], arena, offsets[m]);
        OtherSlotsStay(xs, loaded, offsets, need, before, arena[..], m);
        permuted := permuted + 1;
      } else {
        assert SlotHolds(xs[prior].cols, loaded[prior], offsets[prior], arena[..]);
      }
    }
  }

  /** Capacity of a new arena: whole 64-byte lines of floats. */
  function ArenaSize(need: nat): (size: nat)
    ensures need <= size && size % 16 == 0
  {
    (need + 15) / 16 * 16
  }

  /**
   * The whole preparation: every matrix finds its permuted activation at its offset, and each
   * different activation is permuted once.  It fails when some activation cannot be permuted, or when
   * the arena has to grow and cannot.
   */
  method PrepareBatch<F(0)>(xs: seq<Activation>, loaded: seq<seq<F>>, scratch: array<F>, memory: bool)
    returns (ok: bool, arena: array<F>, offsets: seq<nat>, unique: nat, ghost permuted: nat)
    requires Loaded(xs, loaded)
    modifies scratch
    ensures ok <==> (forall m :: 0 <= m < |xs| ==> Usable(xs[m])) && (memory || TotalWidth(xs, |xs|) <= scratch.Length)
    ensures ok ==> |offsets| == |xs| && Filled(xs, loaded, offsets, arena[..], |xs|)
    ensures ok ==> unique == permuted == Different(xs, |xs|)
    ensures arena == scratch || fresh(arena)
  {
    hide PermutedX, SlotsOk, ArenaSize;
    var need;
    arena, permuted := scratch, 0;
    ok, offsets, need, unique := AssignSlots(xs);
    if !ok { return; }
    if scratch.Length < need {
      if !memory {
        ok := false;
        return;
      }
      arena := new F[ArenaSize(need)];
    }
    permuted := FillSlots(xs, loaded, offsets, need, arena);
  }
}
