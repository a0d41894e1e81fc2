/**
 * Recency order of the CUDA expert cache of native/provider_gate/provider_cuda_moe.cpp.  The cache
 * keeps one list per layer stratum; this module says what it means for those lists to be the strata
 * of a single least-recently-used list, and proves that the minimum over stratum fronts is that
 * list's true oldest entry.
 */
module ExpertLru {

  /** A resident expert on the single list; the list is ordered by `lastUse`, oldest first. */
  datatype Resident = Resident(slot: nat, expert: nat, tensor: nat, lastUse: nat)

  /** The same expert as the entry of its stratum. */
  datatype Entry = Entry(expert: nat, tensor: nat, lastUse: nat)

  /** The entries of one stratum, in recency order. */
  function Stratum(lru: seq<Resident>, slot: nat): seq<Entry> {
    if lru == [] then [] else
      var last := lru[|lru| - 1];
      Stratum(lru[..|lru| - 1], slot) + if last.slot == slot then [Entry(last.expert, last.tensor, last.lastUse)]
        else []
  }

  ghost predicate Ordered(lru: seq<Resident>) {
    forall i, j :: 0 <= i < j < |lru| ==> lru[i].lastUse < lru[j].lastUse
  }

  ghost predicate NoDuplicates(lru: seq<Resident>) {
    forall i, j :: 0 <= i < j < |lru| ==> lru[i].slot != lru[j].slot || lru[i].expert != lru[j].expert
  }

  lemma {:induction false} StratumConcat(a: seq<Resident>, b: seq<Resident>, slot: nat)
    ensures Stratum(a + b, slot) == Stratum(a, slot) + Stratum(b, slot)
  {
    if b == [] {
      assert a + b == a;
    } else {
      var n := |b| - 1;
      StratumConcat(a, b[..n], slot);
      assert (a + b)[..|a| + n] == a + b[..n];
    }
  }

  lemma ConcatSlices<T>(a: seq<T>, b: seq<T>, k: nat)
    requires k < |a|
    ensures (a + b)[..k] == a[..k] && (a + b)[k] == a[k] && (a + b)[k + 1..] == a[k + 1..] + b
  {
  }

  lemma StratumSnoc(lru: seq<Resident>, e: Resident, slot: nat)
    ensures Stratum(lru + [e], slot) == Stratum(lru, slot) + if e.slot == slot
      then [Entry(e.expert, e.tensor, e.lastUse)] else []
  {
    assert (lru + [e])[..|lru|] == lru;
  }

  /** Every entry of a stratum comes from the list, and keeps its order there. */
  lemma {:induction false} StratumOrigin(lru: seq<Resident>, slot: nat, k: nat) returns (i: nat)
    requires k < |Stratum(lru, slot)|
    ensures i < |lru| && lru[i].slot == slot
    ensures Stratum(lru, slot)[k] == Entry(lru[i].expert, lru[i].tensor, lru[i].lastUse)
    ensures Stratum(lru[..i], slot) == Stratum(lru, slot)[..k]
    ensures Stratum(lru[i + 1..], slot) == Stratum(lru, slot)[k + 1..]
  {
    var n := |lru| - 1;
    var head := Stratum(lru[..n], slot);
    StratumConcat(lru[..n], [lru[n]], slot);
    assert lru[..n] + [lru[n]] == lru;
    if k < |head| {
      hide Stratum;
      i := StratumOrigin(lru[..n], slot, k);
      ConcatSlices(lru[..n], [lru[n]], i);
      ConcatSlices(head, Stratum([lru[n]], slot), k);
      StratumConcat(lru[..n][i + 1..], [lru[n]], slot);
    } else {
      i := n;
      assert lru[i + 1..] == [] && [lru[n]][..0] == [];
    }
  }

  /** Every entry of the list is in its stratum. */
  lemma {:induction false} StratumHas(lru: seq<Resident>, i: nat) returns (k: nat)
    requires i < |lru|
    ensures k < |Stratum(lru, lru[i].slot)|
    ensures Stratum(lru, lru[i].slot)[k] == Entry(lru[i].expert, lru[i].tensor, lru[i].lastUse)
  {
    var n := |lru| - 1;
    if i == n {
      k := |Stratum(lru[..n], lru[i].slot)|;
    } else {
      k := StratumHas(lru[..n], i);
    }
  }

  /** The oldest entry heads its stratum, and taking it off the list takes it off that stratum alone. */
  lemma OldestHeadsItsStratum(lru: seq<Resident>, slot: nat)
    requires lru != []
    ensures Stratum(lru, slot) ==
      (if lru[0].slot == slot then [Entry(lru[0].expert, lru[0].tensor, lru[0].lastUse)] else [])
        + Stratum(lru[1..], slot)
  {
    assert lru == lru[..1] + lru[1..];
    StratumConcat(lru[..1], lru[1..], slot);
    assert lru[..1][..0] == [];
  }

  /** Any other stratum's front was used later than the oldest entry of the list. */
  lemma FrontsAreNewer(lru: seq<Resident>, slot: nat)
    requires Ordered(lru) && lru != [] && Stratum(lru, slot) != []
    ensures lru[0].lastUse <= Stratum(lru, slot)[0].lastUse
    ensures slot != lru[0].slot ==> lru[0].lastUse < Stratum(lru, slot)[0].lastUse
  {
    var i := StratumOrigin(lru, slot, 0);
  }

  /** Move the entry at i to the recent end under a new stamp. */
  function Promote(lru: seq<Resident>, i: nat, stamp: nat): seq<Resident>
    requires i < |lru|
  {
    lru[..i] + lru[i + 1..] + [lru[i].(lastUse := stamp)]
  }

  /** Promoting on the list erases and re-appends in the stratum of that entry, and nothing else. */
  lemma PromoteInStratum(lru: seq<Resident>, i: nat, k: nat, stamp: nat, slot: nat)
    requires i < |lru| && k < |Stratum(lru, lru[i].slot)|
    requires Stratum(lru[..i], lru[i].slot) == Stratum(lru, lru[i].slot)[..k]
    requires Stratum(lru[i + 1..], lru[i].slot) == Stratum(lru, lru[i].slot)[k + 1..]
    ensures Stratum(Promote(lru, i, stamp), slot) ==
      if slot == lru[i].slot
      then Stratum(lru, slot)[..k] + Stratum(lru, slot)[k + 1..] + [Entry(lru[i].expert, lru[i].tensor, stamp)]
      else Stratum(lru, slot)
  {
    hide Stratum;
    StratumConcat(lru[..i], lru[i + 1..], slot);
    StratumSnoc(lru[..i] + lru[i + 1..], lru[i].(lastUse := stamp), slot);
    if slot != lru[i].slot {
      StratumSkips(lru, i, slot);
    }
  }

  lemma StratumSkips(lru: seq<Resident>, i: nat, slot: nat)
    requires i < |lru| && slot != lru[i].slot
    ensures Stratum(lru, slot) == Stratum(lru[..i], slot) + Stratum(lru[i + 1..], slot)
  {
    assert lru == lru[..i] + [lru[i]] + lru[i + 1..];
    hide Stratum;
    StratumConcat(lru[..i] + [lru[i]], lru[i + 1..], slot);
    StratumSnoc(lru[..i], lru[i], slot);
  }

  /** The lists, one for each stratum, are the strata of the single list. */
  ghost predicate StrataOf(layers: seq<seq<Entry>>, lru: seq<Resident>) {
    forall s :: 0 <= s < |layers| ==> layers[s] == Stratum(lru, s)
  }

  /** Erase entry k and push it back under a new stamp. */
  function MoveToBack(entries: seq<Entry>, k: nat, stamp: nat): seq<Entry>
    requires k < |entries|
  {
    entries[..k] + entries[k + 1..] + [entries[k].(lastUse := stamp)]
  }

  /** Erasing entry k of a stratum and re-appending it under a new stamp promotes one entry of the list. */
  lemma PromoteKeepsStrata(layers: seq<seq<Entry>>, lru: seq<Resident>, slot: nat, k: nat, stamp: nat) returns (i: nat)
    requires StrataOf(layers, lru) && slot < |layers| && k < |layers[slot]|
    ensures i < |lru| && lru[i].slot == slot && lru[i].expert == layers[slot][k].expert
    ensures lru[i].tensor == layers[slot][k].tensor
    ensures StrataOf(layers[slot := MoveToBack(layers[slot], k, stamp)],
                     Promote(lru, i, stamp))
  {
    i := StratumOrigin(lru, slot, k);
    forall s | 0 <= s < |layers| {
      PromoteInStratum(lru, i, k, stamp, s);
    }
  }

  lemma PromoteKeepsOrder(lru: seq<Resident>, i: nat, stamp: nat)
    requires Ordered(lru) && NoDuplicates(lru) && i < |lru|
    requires forall j :: 0 <= j < |lru| ==> lru[j].lastUse < stamp
    ensures Ordered(Promote(lru, i, stamp)) && NoDuplicates(Promote(lru, i, stamp))
  {
    var t := Promote(lru, i, stamp);
    forall j | 0 <= j < |t|
      ensures t[j] == if j < i then lru[j] else if j < |lru| - 1 then lru[j + 1] else lru[i].(lastUse := stamp) {
    }
  }

  /** The nonempty stratum whose front was used earliest is the one that holds the oldest entry of all. */
  lemma VictimIsOldest(layers: seq<seq<Entry>>, lru: seq<Resident>, victim: nat)
    requires StrataOf(layers, lru) && Ordered(lru) && lru != [] && lru[0].slot < |layers|
    requires victim < |layers| && layers[victim] != []
    requires forall s :: 0 <= s < |layers| && layers[s] != [] ==> layers[victim][0].lastUse <= layers[s][0].lastUse
    ensures victim == lru[0].slot
    ensures StrataOf(layers[victim := layers[victim][1..]], lru[1..])
  {
    OldestHeadsItsStratum(lru, lru[0].slot);
    FrontsAreNewer(lru, victim);
    assert layers[victim][0].lastUse <= layers[lru[0].slot][0].lastUse;
    forall s | 0 <= s < |layers| ensures Stratum(lru[1..], s) == if s == victim then layers[s][1..] else layers[s] {
      OldestHeadsItsStratum(lru, s);
    }
  }

  /** A list with entries has a nonempty stratum. */
  lemma SomeStratum(layers: seq<seq<Entry>>, lru: seq<Resident>)
    requires StrataOf(layers, lru) && lru != [] && lru[0].slot < |layers|
    ensures layers[lru[0].slot] != []
  {
    OldestHeadsItsStratum(lru, lru[0].slot);
  }

  lemma AdmitKeepsStrata(layers: seq<seq<Entry>>, lru: seq<Resident>, e: Resident)
    requires StrataOf(layers, lru) && e.slot < |layers|
    ensures StrataOf(layers[e.slot := layers[e.slot] + [Entry(e.expert, e.tensor, e.lastUse)]], lru + [e])
  {
    assert (lru + [e])[..|lru|] == lru;
  }

  /** All entries of all strata. */
  function Total(layers: seq<seq<Entry>>): nat {
    if layers == [] then 0 else Total(layers[..|layers| - 1]) + |layers[|layers| - 1]|
  }

  lemma {:induction false} TotalGrows(layers: seq<seq<Entry>>, s: nat, e: Entry)
    requires s < |layers|
    ensures Total(layers[s := layers[s] + [e]]) == Total(layers) + 1
  {
    var n := |layers| - 1;
    if s < n {
      TotalGrows(layers[..n], s, e);
      assert layers[s := layers[s] + [e]][..n] == layers[..n][s := layers[s] + [e]];
    } else {
      assert layers[s := layers[s] + [e]][..n] == layers[..n];
    }
  }

  lemma {:induction false} TotalOfEmpty(layers: seq<seq<Entry>>)
    requires forall s :: 0 <= s < |layers| ==> layers[s] == []
    ensures Total(layers) == 0
  {
    if layers != [] {
      TotalOfEmpty(layers[..|layers| - 1]);
    }
  }

  /** The sizes of the strata add up to the number of residents. */
  lemma {:induction false} TotalIsLength(layers: seq<seq<Entry>>, lru: seq<Resident>)
    requires StrataOf(layers, lru) && forall e :: e in lru ==> e.slot < |layers|
    ensures Total(layers) == |lru|
    decreases |lru|
  {
    if lru == [] {
      TotalOfEmpty(layers);
    } else {
      var n := |lru| - 1;
      var last := lru[n];
      assert last in lru && lru == lru[..n] + [last];
      var e := Entry(last.expert, last.tensor, last.lastUse);
      var before := seq(|layers|, s requires 0 <= s < |layers| => Stratum(lru[..n], s));
      TotalIsLength(before, lru[..n]);
      TotalGrows(before, last.slot, e);
      forall s | 0 <= s < |layers| ensures layers[s] == before[last.slot := before[last.slot] + [e]][s] {
        StratumSnoc(lru[..n], last, s);
      }
      assert layers == before[last.slot := before[last.slot] + [e]];
    }
  }

  // ---------------------------------------------------------------- the textbook list

  datatype Key = Key(slot: nat, expert: nat)

  function Keys(lru: seq<Resident>): (keys: seq<Key>)
    ensures |keys| == |lru|
    ensures forall i :: 0 <= i < |lru| ==> keys[i] == Key(lru[i].slot, lru[i].expert)
  {
    seq(|lru|, i requires 0 <= i < |lru| => Key(lru[i].slot, lru[i].expert))
  }

  function Without(keys: seq<Key>, key: Key): seq<Key> {
    if keys == [] then [] else
      Without(keys[..|keys| - 1], key) + if keys[|keys| - 1] == key then [] else [keys[|keys| - 1]]
  }

  /** The most recent n keys. */
  function Recent(keys: seq<Key>, n: nat): seq<Key> {
    if |keys| <= n then keys else keys[|keys| - n..]
  }

  /** One request to a least-recently-used list of fixed capacity. */
  function Touch(keys: seq<Key>, capacity: nat, key: Key): seq<Key> {
    if key in keys then Without(keys, key) + [key]
    else if capacity == 0 then keys
    else Recent(keys, capacity - 1) + [key]
  }

  /** The list after a trace of requests, oldest request first. */
  function TouchAll(capacity: nat, trace: seq<Key>): seq<Key> {
    if trace == [] then [] else Touch(TouchAll(capacity, trace[..|trace| - 1]), capacity, trace[|trace| - 1])
  }

  /** For each request of a trace, whether it hits. */
  function Hits(capacity: nat, trace: seq<Key>): seq<bool> {
    if trace == [] then [] else
      var n := |trace| - 1;
      Hits(capacity, trace[..n]) + [trace[n] in TouchAll(capacity, trace[..n])]
  }

  lemma TraceStep(capacity: nat, trace: seq<Key>, n: nat)
    requires n < |trace|
    ensures TouchAll(capacity, trace[..n + 1]) == Touch(TouchAll(capacity, trace[..n]), capacity, trace[n])
    ensures Hits(capacity, trace[..n + 1]) == Hits(capacity, trace[..n]) + [trace[n] in TouchAll(capacity, trace[..n])]
  {
    assert trace[..n + 1][..n] == trace[..n];
  }

  lemma {:induction false} WithoutAbsent(keys: seq<Key>, key: Key)
    requires key !in keys
    ensures Without(keys, key) == keys
  {
    if keys != [] {
      WithoutAbsent(keys[..|keys| - 1], key);
    }
  }

  /** Moving a key to the recent end keeps the set of keys. */
  lemma PromoteKeepsKeys(keys: seq<Key>, key: Key)
    requires key in keys
    ensures forall k :: k in Without(keys, key) + [key] <==> k in keys
  {
    WithoutMembers(keys, key);
  }

  lemma {:induction false} WithoutMembers(keys: seq<Key>, key: Key)
    ensures forall k :: k in Without(keys, key) <==> k in keys && k != key
  {
    if keys != [] {
      WithoutMembers(keys[..|keys| - 1], key);
    }
  }

  lemma {:induction false} WithoutAt(keys: seq<Key>, i: nat)
    requires i < |keys| && forall j :: 0 <= j < |keys| && j != i ==> keys[j] != keys[i]
    ensures Without(keys, keys[i]) == keys[..i] + keys[i + 1..]
  {
    var n := |keys| - 1;
    if i == n {
      WithoutAbsent(keys[..n], keys[i]);
    } else {
      WithoutAt(keys[..n], i);
      assert keys[..n][i + 1..] + [keys[n]] == keys[i + 1..];
      assert keys[..n][..i] == keys[..i];
    }
  }

  ghost predicate Distinct(keys: seq<Key>) {
    forall i, j :: 0 <= i < j < |keys| ==> keys[i] != keys[j]
  }

  /** Promoting an entry of the list is what the textbook list does on a hit. */
  lemma PromoteTouches(lru: seq<Resident>, i: nat, stamp: nat)
    requires NoDuplicates(lru) && i < |lru|
    ensures |Promote(lru, i, stamp)| == |lru|
    ensures Keys(Promote(lru, i, stamp)) == Without(Keys(lru), Keys(lru)[i]) + [Keys(lru)[i]]
    ensures forall e :: e in Promote(lru, i, stamp) ==> e in lru || e == lru[i].(lastUse := stamp)
  {
    WithoutAt(Keys(lru), i);
  }

  /** The stratified lists with their clock are the strata of a well-formed single list. */
  ghost predicate Tracks(layers: seq<seq<Entry>>, clock: nat, lru: seq<Resident>) {
    && StrataOf(layers, lru) && Ordered(lru) && NoDuplicates(lru)
    && forall e :: e in lru ==> e.slot < |layers| && e.lastUse <= clock
  }

  /** Which expert of which stratum is on which tensor. */
  datatype Binding = Binding(slot: nat, expert: nat, tensor: nat)

  function Bindings(lru: seq<Resident>): set<Binding> {
    set e | e in lru :: Binding(e.slot, e.expert, e.tensor)
  }

  /** Erasing and re-appending a stratum's entry is a hit on the single list. */
  lemma HitPromotes(layers: seq<seq<Entry>>, clock: nat, lru: seq<Resident>, slot: nat, k: nat)
    returns (hit: Binding, after: seq<Resident>)
    requires Tracks(layers, clock, lru) && slot < |layers| && k < |layers[slot]|
    ensures hit == Binding(slot, layers[slot][k].expert, layers[slot][k].tensor) && hit in Bindings(lru)
    ensures Tracks(layers[slot := MoveToBack(layers[slot], k, clock + 1)], clock + 1, after)
    ensures |after| == |lru| && Bindings(after) == Bindings(lru)
    ensures Keys(after) == Without(Keys(lru), Key(slot, hit.expert)) + [Key(slot, hit.expert)]
  {
    var i := PromoteKeepsStrata(layers, lru, slot, k, clock + 1);
    assert forall j :: 0 <= j < |lru| ==> lru[j] in lru;
    PromoteKeepsOrder(lru, i, clock + 1);
    PromoteTouches(lru, i, clock + 1);
    after := Promote(lru, i, clock + 1);
    hit := Binding(lru[i].slot, lru[i].expert, lru[i].tensor);
    PromoteKeepsBindings(lru, i, clock + 1);
  }

  lemma PromoteKeepsBindings(lru: seq<Resident>, i: nat, stamp: nat)
    requires i < |lru|
    ensures Bindings(Promote(lru, i, stamp)) == Bindings(lru)
    ensures Binding(lru[i].slot, lru[i].expert, lru[i].tensor) in Bindings(lru)
  {
    var after := Promote(lru, i, stamp);
    forall e | e in lru ensures Binding(e.slot, e.expert, e.tensor) in Bindings(after) {
      var j :| 0 <= j < |lru| && lru[j] == e;
      assert after[if j < i then j else if j == i then |lru| - 1 else j - 1].(lastUse := e.lastUse) == e;
    }
    forall e | e in after ensures Binding(e.slot, e.expert, e.tensor) in Bindings(lru) {
      var j :| 0 <= j < |after| && after[j] == e;
      assert lru[if j < i then j else if j == |lru| - 1 then i else j + 1].(lastUse := e.lastUse) == e;
    }
  }

  /** Dropping the front of the victim's stratum drops the oldest entry of the single list. */
  lemma EvictDropsOldest(layers: seq<seq<Entry>>, clock: nat, lru: seq<Resident>, victim: nat)
    requires Tracks(layers, clock, lru) && lru != [] && victim < |layers| && layers[victim] != []
    requires forall s :: 0 <= s < |layers| && layers[s] != [] ==> layers[victim][0].lastUse <= layers[s][0].lastUse
    ensures Tracks(layers[victim := layers[victim][1..]], clock, lru[1..])
    ensures Bindings(lru[1..]) <= Bindings(lru)
  {
    assert lru[0] in lru;
    VictimIsOldest(layers, lru, victim);
    assert forall e :: e in lru[1..] ==> e in lru;
  }

  /** Pushing a new expert on its stratum appends it to the single list. */
  lemma AdmitAppends(layers: seq<seq<Entry>>, clock: nat, lru: seq<Resident>, slot: nat, expert: nat, tensor: nat)
    returns (after: seq<Resident>)
    requires Tracks(layers, clock, lru) && slot < |layers| && Key(slot, expert) !in Keys(lru)
    ensures Tracks(layers[slot := layers[slot] + [Entry(expert, tensor, clock + 1)]], clock + 1, after)
    ensures after == lru + [Resident(slot, expert, tensor, clock + 1)]
    ensures Keys(after) == Keys(lru) + [Key(slot, expert)]
    ensures Bindings(after) == Bindings(lru) + {Binding(slot, expert, tensor)}
  {
    var e := Resident(slot, expert, tensor, clock + 1);
    after := lru + [e];
    AdmitKeepsStrata(layers, lru, e);
    AdmitBinds(lru, e);
    hide StrataOf, Bindings;
    forall i | 0 <= i < |lru| ensures Key(lru[i].slot, lru[i].expert) != Key(slot, expert) && lru[i] in lru {
      assert Keys(lru)[i] in Keys(lru);
    }
  }

  lemma AdmitBinds(lru: seq<Resident>, e: Resident)
    ensures Bindings(lru + [e]) == Bindings(lru) + {Binding(e.slot, e.expert, e.tensor)}
  {
    assert forall r :: r in lru + [e] <==> r in lru || r == e;
  }

  /** A trace never overfills the list or repeats a key on it. */
  lemma {:induction false} TraceWellFormed(capacity: nat, trace: seq<Key>)
    ensures |TouchAll(capacity, trace)| <= capacity
    ensures Distinct(TouchAll(capacity, trace))
  {
    if trace != [] {
      var n := |trace| - 1;
      TraceWellFormed(capacity, trace[..n]);
      TouchWellFormed(TouchAll(capacity, trace[..n]), capacity, trace[n]);
    }
  }

  lemma TouchWellFormed(keys: seq<Key>, capacity: nat, key: Key)
    requires |keys| <= capacity && Distinct(keys)
    ensures |Touch(keys, capacity, key)| <= capacity && Distinct(Touch(keys, capacity, key))
  {
    if key in keys {
      var i :| 0 <= i < |keys| && keys[i] == key;
      WithoutAt(keys, i);
      PromotedIsDistinct(keys, i);
      hide Without, Distinct;
    }
  }

  lemma PromotedIsDistinct(keys: seq<Key>, i: nat)
    requires Distinct(keys) && i < |keys|
    ensures Distinct(keys[..i] + keys[i + 1..] + [keys[i]])
  {
    var after := keys[..i] + keys[i + 1..] + [keys[i]];
    forall a | 0 <= a < |after| ensures after[a] == keys[if a < i then a else if a < |keys| - 1 then a + 1 else i] {
    }
  }

  lemma RecentAppend(keys: seq<Key>, n: nat, key: Key)
    ensures Recent(keys + [key], n + 1) == Recent(keys, n) + [key]
  {
  }

  lemma RecentRecent(keys: seq<Key>, a: nat, b: nat)
    requires a <= b
    ensures Recent(Recent(keys, b), a) == Recent(keys, a)
  {
  }

  lemma MissOnRecent(keys: seq<Key>, small: nat, key: Key)
    requires 0 < small && key !in keys
    ensures Touch(Recent(keys, small), small, key) == Recent(keys, small - 1) + [key]
  {
    hide Without;
    RecentRecent(keys, small - 1, small);
    assert key !in Recent(keys, small);
  }

  lemma MissAppends(keys: seq<Key>, capacity: nat, key: Key)
    requires 0 < capacity && key !in keys
    ensures Touch(keys, capacity, key) == Recent(keys, capacity - 1) + [key]
  {
    hide Without;
  }

  lemma MissKeepsInclusion(keys: seq<Key>, small: nat, large: nat, key: Key)
    requires 0 < small <= large && key !in keys
    ensures Touch(Recent(keys, small), small, key) == Recent(Touch(keys, large, key), small)
  {
    hide *;
    MissAppends(keys, large, key);
    MissOnRecent(keys, small, key);
    RecentRecent(keys, small - 1, large - 1);
    RecentAppend(Recent(keys, large - 1), small - 1, key);
  }

  lemma DropCommutes(keys: seq<Key>, i: nat, d: nat)
    requires i < |keys| && d < |keys|
    ensures (keys[..i] + keys[i + 1..])[d..] ==
      if d <= i then keys[d..][..i - d] + keys[d..][i - d + 1..] else keys[d..][1..]
  {
  }

  lemma MemberOfTail(keys: seq<Key>, i: nat, d: nat)
    requires Distinct(keys) && i < |keys| && d <= |keys|
    ensures keys[i] in keys[d..] <==> d <= i
  {
    if d <= i {
      assert keys[d..][i - d] == keys[i];
    }
  }

  lemma TailIsDistinct(keys: seq<Key>, d: nat)
    requires Distinct(keys) && d <= |keys|
    ensures Distinct(keys[d..])
  {
  }

  lemma HitOnRecent(keys: seq<Key>, small: nat, i: nat)
    requires 0 < small < |keys| && Distinct(keys) && i < |keys|
    ensures Touch(Recent(keys, small), small, keys[i]) == Recent(keys[..i] + keys[i + 1..], small - 1) + [keys[i]]
  {
    var d := |keys| - small;
    var tail := keys[d..];
    assert Recent(keys, small) == tail;
    assert Recent(keys[..i] + keys[i + 1..], small - 1) == (keys[..i] + keys[i + 1..])[d..];
    assert Recent(tail, small - 1) == tail[1..];
    hide Without, Recent;
    DropCommutes(keys, i, d);
    MemberOfTail(keys, i, d);
    TailIsDistinct(keys, d);
    hide Distinct;
    if d <= i {
      TailWithout(keys, i, d);
    }
  }

  lemma TailWithout(keys: seq<Key>, i: nat, d: nat)
    requires d <= i < |keys| && Distinct(keys[d..])
    ensures Without(keys[d..], keys[i]) == keys[d..][..i - d] + keys[d..][i - d + 1..]
  {
    WithoutAt(keys[d..], i - d);
  }

  lemma HitKeepsInclusion(keys: seq<Key>, small: nat, large: nat, i: nat)
    requires 0 < small < |keys| && small <= large && Distinct(keys) && i < |keys|
    ensures Touch(Recent(keys, small), small, keys[i]) == Recent(Touch(keys, large, keys[i]), small)
  {
    HitOnRecent(keys, small, i);
    WithoutAt(keys, i);
    hide Without, Recent;
    RecentAppend(keys[..i] + keys[i + 1..], small - 1, keys[i]);
  }

  lemma TouchKeepsInclusion(keys: seq<Key>, small: nat, large: nat, key: Key)
    requires small <= large && |keys| <= large && Distinct(keys)
    ensures Touch(Recent(keys, small), small, key) == Recent(Touch(keys, large, key), small)
  {
    if small > 0 {
      if key in keys {
        var i :| 0 <= i < |keys| && keys[i] == key;
        if small < |keys| {
          HitKeepsInclusion(keys, small, large, i);
        } else {
          WithoutAt(keys, i);
        }
      } else {
        MissKeepsInclusion(keys, small, large, key);
      }
    }
  }

  /** After any trace a smaller cache holds exactly the most recent keys of a larger one. */
  lemma {:induction false} LargerCacheIncludesSmaller(small: nat, large: nat, trace: seq<Key>)
    requires small <= large
    ensures TouchAll(small, trace) == Recent(TouchAll(large, trace), small)
  {
    if trace != [] {
      var n := |trace| - 1;
      LargerCacheIncludesSmaller(small, large, trace[..n]);
      TraceWellFormed(large, trace[..n]);
      TouchKeepsInclusion(TouchAll(large, trace[..n]), small, large, trace[n]);
    }
  }

  /** So raising the capacity never turns a hit of any trace into a miss. */
  lemma {:induction false} CapacityOnlyAddsHits(small: nat, large: nat, trace: seq<Key>, k: nat)
    requires small <= large && k < |trace|
    ensures |Hits(small, trace)| == |Hits(large, trace)| == |trace|
    ensures Hits(small, trace)[k] ==> Hits(large, trace)[k]
  {
    var n := |trace| - 1;
    LargerCacheIncludesSmaller(small, large, trace[..n]);
    if n > 0 {
      CapacityOnlyAddsHits(small, large, trace[..n], if k < n then k else 0);
    }
  }
}
