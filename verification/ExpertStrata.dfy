/**
 * The per-layer recency lists of native/provider_gate/provider_cuda_moe.cpp as the object the source
 * updates in place.  `lru` is the single list whose strata they are.
 */
module ExpertStrata {
  import opened ExpertLru

  const STRATA: nat := 92

  datatype Lookup = Absent | Found(tensor: nat)

  class Strata {
    var layers: seq<seq<Entry>>
    var useClock: nat
    var residentEntries: nat
    ghost var lru: seq<Resident>

    ghost predicate Valid()
      reads this
    {
      |layers| == STRATA && Tracks(layers, useClock, lru) && residentEntries == |lru|
    }

    /** The running count is the sum of the stratum sizes. */
    lemma Accounting()
      requires Valid()
      ensures residentEntries == Total(layers)
    {
      TotalIsLength(layers, lru);
    }

    constructor ()
      ensures Valid() && lru == []
    {
      layers, useClock, residentEntries, lru := seq(STRATA, _ => []), 0, 0, [];
    }

    /** Drop every resident expert; the use clock runs on. */
    method Clear()
      requires Valid()
      modifies this
      ensures Valid() && lru == []
    {
      layers := seq(STRATA, _ => []);
      residentEntries := 0;
      lru := [];
    }

    /** The linear search of `hit` for one expert of a stratum. */
    method Find(slot: nat, expert: nat) returns (k: nat)
      requires Valid() && slot < STRATA
      ensures k <= |layers[slot]|
      ensures k < |layers[slot]| ==> layers[slot][k].expert == expert
      ensures k < |layers[slot]| <==> Key(slot, expert) in Keys(lru)
    {
      k := 0;
      while k < |layers[slot]| && layers[slot][k].expert != expert
        invariant k <= |layers[slot]|
        invariant forall j :: 0 <= j < k ==> layers[slot][j].expert != expert
      {
        k := k + 1;
      }
      if k < |layers[slot]| {
        ghost var i := StratumOrigin(lru, slot, k);
        assert Keys(lru)[i] == Key(slot, expert);
      } else if Key(slot, expert) in Keys(lru) {
        ghost var i :| 0 <= i < |lru| && Keys(lru)[i] == Key(slot, expert);
        ghost var j := StratumHas(lru, i);
      }
    }

    /** Promote a resident expert to the recent end, in its stratum and so on the single list. */
    method Hit(slot: nat, expert: nat) returns (found: Lookup)
      requires Valid() && slot < STRATA
      modifies this
      ensures Valid() && |lru| == old(|lru|) && Bindings(lru) == old(Bindings(lru))
      ensures found.Found? <==> Key(slot, expert) in old(Keys(lru))
      ensures found.Found? ==> Binding(slot, expert, found.tensor) in Bindings(lru)
      ensures found.Found? ==> Keys(lru) == Without(old(Keys(lru)), Key(slot, expert)) + [Key(slot, expert)]
      ensures found.Absent? ==> lru == old(lru)
      ensures forall key :: key in Keys(lru) <==> key in old(Keys(lru))
    {
      var k := Find(slot, expert);
      if k == |layers[slot]| { return Absent; }
      found := Found(layers[slot][k].tensor);
      ghost var hit, after := HitPromotes(layers, useClock, lru, slot, k);
      layers := layers[slot := MoveToBack(layers[slot], k, useClock + 1)];
      useClock := useClock + 1;
      PromoteKeepsKeys(Keys(lru), Key(slot, expert));
      lru := after;
      assert Tracks(layers, useClock, lru);
    }

    /** The search over stratum fronts in `evict_global_lru`; STRATA stands for "no victim". */
    method OldestFront() returns (victim: nat)
      requires |layers| == STRATA
      ensures victim <= STRATA
      ensures victim == STRATA ==> forall s :: 0 <= s < STRATA ==> layers[s] == []
      ensures victim < STRATA ==> layers[victim] != []
      ensures victim < STRATA ==> forall s :: 0 <= s < STRATA && layers[s] != [] ==>
        layers[victim][0].lastUse <= layers[s][0].lastUse
    {
      victim := STRATA;
      var victimUse := 0;
      var slot := 0;
      while slot < STRATA
        invariant 0 <= slot <= STRATA && victim <= STRATA
        invariant victim == STRATA ==> forall s :: 0 <= s < slot ==> layers[s] == []
        invariant victim < STRATA ==> layers[victim] != [] && layers[victim][0].lastUse == victimUse
        invariant victim < STRATA ==> forall s :: 0 <= s < slot && layers[s] != [] ==> victimUse <= layers[s][0].lastUse
      {
        var entries := layers[slot];
        if entries != [] && (victim == STRATA || entries[0].lastUse < victimUse) {
          victimUse := entries[0].lastUse;
          victim := slot;
        }
        slot := slot + 1;
      }
    }

    /** Removes the oldest entry of all strata; the accounting never loses the resident entries. */
    method EvictGlobalLru() returns (accountingLost: bool)
      requires Valid() && residentEntries > 0
      modifies this
      ensures Valid() && !accountingLost
      ensures lru == old(lru)[1..] && Bindings(lru) <= old(Bindings(lru))
    {
      assert lru[0] in lru;
      SomeStratum(layers, lru);
      var victim := OldestFront();
      if victim == STRATA { return true; }
      EvictDropsOldest(layers, useClock, lru, victim);
      layers := layers[victim := layers[victim][1..]];
      residentEntries := residentEntries - 1;
      lru := lru[1..];
      assert Tracks(layers, useClock, lru);
      return false;
    }

    /** Evict until one more entry fits: the list keeps its most recent capacity - 1. */
    method MakeRoom(capacity: nat)
      requires Valid() && capacity > 0
      modifies this
      ensures Valid() && |lru| < capacity
      ensures Keys(lru) == Recent(old(Keys(lru)), capacity - 1) && Bindings(lru) <= old(Bindings(lru))
    {
      ghost var was := lru;
      while residentEntries >= capacity
        invariant Valid() && Bindings(lru) <= old(Bindings(lru))
        invariant |lru| <= |was| && lru == was[|was| - |lru|..]
        invariant |lru| >= capacity || |lru| == |was| || |lru| == capacity - 1
        decreases residentEntries
      {
        var _ := EvictGlobalLru();
      }
    }

    /** Push a freshly uploaded expert at the recent end. */
    method Admit(slot: nat, expert: nat, tensor: nat)
      requires Valid() && slot < STRATA && Key(slot, expert) !in Keys(lru)
      modifies this
      ensures Valid() && Keys(lru) == old(Keys(lru)) + [Key(slot, expert)]
      ensures Bindings(lru) == old(Bindings(lru)) + {Binding(slot, expert, tensor)}
    {
      ghost var after := AdmitAppends(layers, useClock, lru, slot, expert, tensor);
      layers := layers[slot := layers[slot] + [Entry(expert, tensor, useClock + 1)]];
      useClock := useClock + 1;
      residentEntries := residentEntries + 1;
      lru := after;
      assert Tracks(layers, useClock, lru);
    }
  }
}
