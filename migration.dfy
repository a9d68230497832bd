/**
 * The one-time namespace migration run when the vault provider mounts
 * (src/context/AuthContext.jsx): each old `sphinx-*` slot is moved to its
 * `tamga-*` name when the old item is truthy and the new one is not.
 */
module Migration {
  import opened Wrappers

  /** `localStorage`: slot name to stored text. */
  type Store = map<string, string>

  /** `localStorage.getItem(slot)`, `None` for `null`. */
  function Slot(store: Store, slot: string): Option<string>
  {
    if slot in store then Some(store[slot]) else None
  }

  /** `localStorage.getItem(slot)` is truthy: present and not the empty string. */
  predicate Filled(store: Store, slot: string)
  {
    Slot(store, slot).Some? && Slot(store, slot).value != ""
  }

  const MigrationPairs: seq<(string, string)> := [
    ("sphinx-salt", "tamga-salt"),
    ("sphinx-validator", "tamga-validator"),
    ("otp-auth-uris", "tamga-otp-uris"),
    ("sphinx-passwords", "tamga-passwords"),
    ("sphinx-passkeys", "tamga-passkeys"),
    ("sphinx-envs", "tamga-envs")
  ]

  /** `data && !localStorage.getItem(newKey)` */
  predicate Moves(store: Store, pair: (string, string))
  {
    Filled(store, pair.0) && !Filled(store, pair.1)
  }

  function MigrateOne(store: Store, pair: (string, string)): Store
  {
    if Moves(store, pair) then store[pair.1 := store[pair.0]] - {pair.0} else store
  }

  /** The `forEach` over the pairs, in order. */
  function MigrateAll(store: Store, pairs: seq<(string, string)>): Store
    decreases |pairs|
  {
    if pairs == [] then store else MigrateAll(MigrateOne(store, pairs[0]), pairs[1..])
  }

  /** No slot name occurs twice among the pairs, and no old name is a new name. */
  predicate DistinctSlots(pairs: seq<(string, string)>)
  {
    forall i, j :: 0 <= i < |pairs| && 0 <= j < |pairs| ==>
      pairs[i].0 != pairs[j].1 && (i != j ==> pairs[i].0 != pairs[j].0 && pairs[i].1 != pairs[j].1)
  }

  predicate Mentions(pairs: seq<(string, string)>, slot: string)
  {
    exists i :: 0 <= i < |pairs| && (pairs[i].0 == slot || pairs[i].1 == slot)
  }

  /** The slot after migration, read off the original store and the pair naming the slot. */
  function Expected(store: Store, pairs: seq<(string, string)>, slot: string): Option<string>
    decreases |pairs|
  {
    if pairs == [] then Slot(store, slot)
    else if slot == pairs[0].1 && Moves(store, pairs[0]) then Slot(store, pairs[0].0)
    else if slot == pairs[0].0 && Moves(store, pairs[0]) then None
    else if slot == pairs[0].0 || slot == pairs[0].1 then Slot(store, slot)
    else Expected(store, pairs[1..], slot)
  }

  lemma {:induction false} ExpectedUnmentioned(store: Store, pairs: seq<(string, string)>, slot: string)
    requires !Mentions(pairs, slot)
    ensures Expected(store, pairs, slot) == Slot(store, slot)
    decreases |pairs|
  {
    if pairs != [] {
      assert !Mentions(pairs[1..], slot) by {
        forall i | 0 <= i < |pairs[1..]|
          ensures pairs[1..][i].0 != slot && pairs[1..][i].1 != slot
        {
          assert pairs[1..][i] == pairs[i + 1];
        }
      }
      ExpectedUnmentioned(store, pairs[1..], slot);
    }
  }

  /** Expected only looks at the slot itself and at the slots the pairs name. */
  lemma {:induction false} ExpectedFrame(a: Store, b: Store, pairs: seq<(string, string)>, slot: string)
    requires Slot(a, slot) == Slot(b, slot)
    requires forall i :: 0 <= i < |pairs| ==>
      Slot(a, pairs[i].0) == Slot(b, pairs[i].0) && Slot(a, pairs[i].1) == Slot(b, pairs[i].1)
    ensures Expected(a, pairs, slot) == Expected(b, pairs, slot)
    decreases |pairs|
  {
    if pairs != [] {
      assert Moves(a, pairs[0]) == Moves(b, pairs[0]);
      forall i | 0 <= i < |pairs[1..]|
        ensures Slot(a, pairs[1..][i].0) == Slot(b, pairs[1..][i].0) && Slot(a, pairs[1..][i].1) == Slot(b, pairs[1..][i].1)
      {
        assert pairs[1..][i] == pairs[i + 1];
      }
      ExpectedFrame(a, b, pairs[1..], slot);
    }
  }

  lemma DistinctTail(pairs: seq<(string, string)>)
    requires pairs != [] && DistinctSlots(pairs)
    ensures DistinctSlots(pairs[1..])
    ensures !Mentions(pairs[1..], pairs[0].0) && !Mentions(pairs[1..], pairs[0].1)
  {
    forall i, j | 0 <= i < |pairs[1..]| && 0 <= j < |pairs[1..]|
      ensures pairs[1..][i].0 != pairs[1..][j].1
      ensures i != j ==> pairs[1..][i].0 != pairs[1..][j].0 && pairs[1..][i].1 != pairs[1..][j].1
    {
      assert pairs[1..][i] == pairs[i + 1] && pairs[1..][j] == pairs[j + 1];
    }
    forall i | 0 <= i < |pairs[1..]|
      ensures pairs[1..][i].0 != pairs[0].0 && pairs[1..][i].1 != pairs[0].0
      ensures pairs[1..][i].0 != pairs[0].1 && pairs[1..][i].1 != pairs[0].1
    {
      assert pairs[1..][i] == pairs[i + 1];
      assert pairs[i + 1].0 != pairs[0].1 && pairs[0].0 != pairs[i + 1].1;
    }
  }

  /** Every slot after the migration is what `Expected` says. */
  lemma {:induction false} MigrateAllSlot(store: Store, pairs: seq<(string, string)>, slot: string)
    requires DistinctSlots(pairs)
    ensures Slot(MigrateAll(store, pairs), slot) == Expected(store, pairs, slot)
    decreases |pairs|
  {
    if pairs != [] {
      var p := pairs[0];
      var next := MigrateOne(store, p);
      DistinctTail(pairs);
      MigrateAllSlot(next, pairs[1..], slot);
      assert p.0 != p.1;
      if slot == p.0 || slot == p.1 {
        ExpectedUnmentioned(next, pairs[1..], slot);
      } else {
        forall i | 0 <= i < |pairs[1..]|
          ensures Slot(next, pairs[1..][i].0) == Slot(store, pairs[1..][i].0)
          ensures Slot(next, pairs[1..][i].1) == Slot(store, pairs[1..][i].1)
        {
          assert pairs[1..][i].0 != p.0 && pairs[1..][i].0 != p.1;
          assert pairs[1..][i].1 != p.0 && pairs[1..][i].1 != p.1;
        }
        ExpectedFrame(next, store, pairs[1..], slot);
      }
    }
  }

  /** The closed form of `Expected` at a slot the `i`-th pair names. */
  lemma {:induction false} ExpectedAtPair(store: Store, pairs: seq<(string, string)>, i: nat, slot: string)
    requires DistinctSlots(pairs) && i < |pairs|
    requires slot == pairs[i].0 || slot == pairs[i].1
    ensures Expected(store, pairs, slot) ==
      if slot == pairs[i].1 && Moves(store, pairs[i]) then Slot(store, pairs[i].0)
      else if slot == pairs[i].0 && Moves(store, pairs[i]) then None
      else Slot(store, slot)
    decreases i
  {
    assert pairs[i].0 != pairs[i].1;
    if i > 0 {
      DistinctTail(pairs);
      assert pairs[1..][i - 1] == pairs[i];
      assert slot != pairs[0].0 && slot != pairs[0].1 by {
        assert pairs[i].0 != pairs[0].0 && pairs[i].1 != pairs[0].1;
        assert pairs[i].0 != pairs[0].1 && pairs[0].0 != pairs[i].1;
      }
      ExpectedAtPair(store, pairs[1..], i - 1, slot);
    }
  }

  lemma OldSlotsAreNotNew()
    ensures forall i, j :: 0 <= i < |MigrationPairs| && 0 <= j < |MigrationPairs| ==> MigrationPairs[i].0 != MigrationPairs[j].1
  {
  }

  lemma OldSlotsDistinct()
    ensures forall i, j :: 0 <= i < j < |MigrationPairs| ==> MigrationPairs[i].0 != MigrationPairs[j].0
  {
  }

  lemma NewSlotsDistinct()
    ensures forall i, j :: 0 <= i < j < |MigrationPairs| ==> MigrationPairs[i].1 != MigrationPairs[j].1
  {
  }

  lemma MigrationPairsDistinct()
    ensures DistinctSlots(MigrationPairs)
  {
    OldSlotsAreNotNew();
    OldSlotsDistinct();
    NewSlotsDistinct();
  }

  /**
   * For each pair: when the old item is truthy and the new one is not, the
   * new slot takes the old text and the old slot is removed; otherwise both
   * slots are untouched.
   */
  lemma MigrationMoves(store: Store, i: nat)
    requires i < |MigrationPairs|
    ensures var r := MigrateAll(store, MigrationPairs); var (src, dst) := MigrationPairs[i];
      if Moves(store, MigrationPairs[i]) then Slot(r, dst) == Slot(store, src) && Slot(r, src) == None
      else Slot(r, dst) == Slot(store, dst) && Slot(r, src) == Slot(store, src)
  {
    MigrationPairsDistinct();
    var (src, dst) := MigrationPairs[i];
    MigrateAllSlot(store, MigrationPairs, src);
    MigrateAllSlot(store, MigrationPairs, dst);
    ExpectedAtPair(store, MigrationPairs, i, src);
    ExpectedAtPair(store, MigrationPairs, i, dst);
  }

  /** Slots no pair names are untouched. */
  lemma MigrationUntouched(store: Store, slot: string)
    requires !Mentions(MigrationPairs, slot)
    ensures Slot(MigrateAll(store, MigrationPairs), slot) == Slot(store, slot)
  {
    MigrationPairsDistinct();
    MigrateAllSlot(store, MigrationPairs, slot);
    ExpectedUnmentioned(store, MigrationPairs, slot);
  }

  lemma SameStore(a: Store, b: Store)
    requires forall slot :: Slot(a, slot) == Slot(b, slot)
    ensures a == b
  {
    assert forall slot :: slot in a <==> slot in b by {
      forall slot
        ensures slot in a <==> slot in b
      {
        assert Slot(a, slot) == Slot(b, slot);
      }
    }
    forall slot | slot in a
      ensures a[slot] == b[slot]
    {
      assert Slot(a, slot) == Slot(b, slot);
    }
  }

  /** Running the migration a second time changes nothing. */
  lemma MigrationIdempotent(store: Store)
    ensures MigrateAll(MigrateAll(store, MigrationPairs), MigrationPairs) == MigrateAll(store, MigrationPairs)
  {
    var once := MigrateAll(store, MigrationPairs);
    var twice := MigrateAll(once, MigrationPairs);
    MigrationPairsDistinct();
    forall slot
      ensures Slot(twice, slot) == Slot(once, slot)
    {
      MigrateAllSlot(once, MigrationPairs, slot);
      MigrateAllSlot(store, MigrationPairs, slot);
      if i :| 0 <= i < |MigrationPairs| && (MigrationPairs[i].0 == slot || MigrationPairs[i].1 == slot) {
        var pair := MigrationPairs[i];
        MigrationMoves(store, i);
        ExpectedAtPair(once, MigrationPairs, i, slot);
        ExpectedAtPair(store, MigrationPairs, i, slot);
        assert !Moves(once, pair);
      } else {
        ExpectedUnmentioned(once, MigrationPairs, slot);
        ExpectedUnmentioned(store, MigrationPairs, slot);
      }
    }
    SameStore(twice, once);
  }

  /** The migration `forEach` of the mount effect. */
  method Migrate(store: Store) returns (r: Store)
    ensures r == MigrateAll(store, MigrationPairs)
  {
    r := store;
    for i := 0 to |MigrationPairs|
      invariant MigrateAll(r, MigrationPairs[i..]) == MigrateAll(store, MigrationPairs)
    {
      assert MigrationPairs[i..][1..] == MigrationPairs[i + 1..];
      var (oldKey, newKey) := MigrationPairs[i];
      var data := Slot(r, oldKey);
      if data.Some? && data.value != "" && !Filled(r, newKey) {
        r := r[newKey := data.value];
        r := r - {oldKey};
      }
    }
  }
}
