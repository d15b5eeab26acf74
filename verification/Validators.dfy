/**
 The validators after a block (gserver/internal/gsi/driver.go, handleFinalization): powers assigned in
 place on a clone, zero powers compacted away, new validators appended in key order.
 */
module Validators {
  import opened Basics

  type Key = bytes
  type int64 = p: int | -0x8000_0000_0000_0000 <= p < 0x8000_0000_0000_0000

  datatype Validator = Validator(pubKey: Key, power: uint64)
  datatype ValidatorUpdate = ValidatorUpdate(pubKey: Key, power: int64)

  const ED25519_KEY_SIZE := 32

  /** The unchecked conversion from int64: a negative power becomes a huge one. */
  function CastPower(p: int64): uint64 {
    if p >= 0 then p else p + TWO_64
  }

  // ----- keys in order

  /** Go's string order on key bytes. */
  predicate Less(a: Key, b: Key) {
    b != [] && (a == [] || a[0] < b[0] || (a[0] == b[0] && Less(a[1..], b[1..])))
  }

  predicate StrictlySorted(ks: seq<Key>) {
    forall i, j :: 0 <= i < j < |ks| ==> Less(ks[i], ks[j])
  }

  function Elements<T>(s: seq<T>): set<T> {
    set x | x in s
  }

  function Insert(k: Key, ks: seq<Key>): seq<Key> {
    if ks == [] || Less(k, ks[0]) then [k] + ks else [ks[0]] + Insert(k, ks[1..])
  }

  /** The keys of a set in order: any order of taking them out gives the same. */
  ghost function Sorted(keys: set<Key>): seq<Key> {
    if keys == {} then [] else var k :| k in keys; Insert(k, Sorted(keys - {k}))
  }

  lemma {:induction false} LessTrichotomy(a: Key, b: Key)
    ensures Less(a, b) || a == b || Less(b, a)
    ensures Less(a, b) ==> a != b && !Less(b, a)
  {
    if a != [] && b != [] {
      LessTrichotomy(a[1..], b[1..]);
      assert a == [a[0]] + a[1..] && b == [b[0]] + b[1..];
    }
  }

  lemma {:induction false} LessTransitive(a: Key, b: Key, c: Key)
    requires Less(a, b) && Less(b, c)
    ensures Less(a, c)
  {
    if a != [] && a[0] == b[0] == c[0] {
      LessTransitive(a[1..], b[1..], c[1..]);
    }
  }

  lemma {:induction false} InsertSorted(k: Key, ks: seq<Key>)
    requires StrictlySorted(ks) && k !in ks
    ensures StrictlySorted(Insert(k, ks))
    ensures Elements(Insert(k, ks)) == Elements(ks) + {k}
  {
    if ks == [] {
    } else if Less(k, ks[0]) {
      forall j | 0 < j < |ks| ensures Less(k, ks[j]) {
        LessTransitive(k, ks[0], ks[j]);
      }
    } else {
      InsertSorted(k, ks[1..]);
      LessTrichotomy(k, ks[0]);
      var tail := Insert(k, ks[1..]);
      forall j | 0 <= j < |tail| ensures Less(ks[0], tail[j]) {
        assert tail[j] in Elements(tail);
      }
      assert ks == [ks[0]] + ks[1..];
    }
  }

  lemma {:induction false} SortedIsSorted(keys: set<Key>)
    ensures StrictlySorted(Sorted(keys)) && Elements(Sorted(keys)) == keys
  {
    if keys != {} {
      var k :| k in keys && Sorted(keys) == Insert(k, Sorted(keys - {k}));
      SortedIsSorted(keys - {k});
      assert k !in Elements(Sorted(keys - {k}));
      InsertSorted(k, Sorted(keys - {k}));
    }
  }

  /** There is one way to write a set in order. */
  lemma {:induction false} SortedUnique(ks: seq<Key>, ls: seq<Key>)
    requires StrictlySorted(ks) && StrictlySorted(ls) && Elements(ks) == Elements(ls)
    ensures ks == ls
  {
    if ks == [] {
      assert forall j :: 0 <= j < |ls| ==> ls[j] in Elements(ls);
    } else {
      assert ks[0] in Elements(ls);
      SameFirst(ks, ls);
      TailElements(ks);
      TailElements(ls);
      SortedUnique(ks[1..], ls[1..]);
      assert ks == [ks[0]] + ks[1..] && ls == [ls[0]] + ls[1..];
    }
  }

  lemma SameFirst(ks: seq<Key>, ls: seq<Key>)
    requires StrictlySorted(ks) && StrictlySorted(ls) && Elements(ks) == Elements(ls)
    requires ks != [] && ls != []
    ensures ks[0] == ls[0]
  {
    assert ks[0] in Elements(ls) && ls[0] in Elements(ks);
    LessTrichotomy(ks[0], ls[0]);
  }

  lemma TailElements(ks: seq<Key>)
    requires StrictlySorted(ks) && ks != []
    ensures Elements(ks[1..]) == Elements(ks) - {ks[0]}
  {
    forall j | 0 < j < |ks| ensures ks[j] != ks[0] {
      LessTrichotomy(ks[0], ks[j]);
    }
    forall k | k in Elements(ks) - {ks[0]} ensures k in Elements(ks[1..]) {
      var j :| 0 <= j < |ks| && ks[j] == k;
      assert ks[1..][j - 1] == k;
    }
  }

  method SortKeys(m: map<Key, uint64>) returns (ks: seq<Key>)
    ensures ks == Sorted(m.Keys)
  {
    ks := [];
    var todo := m.Keys;
    while todo != {}
      invariant todo <= m.Keys
      invariant StrictlySorted(ks) && Elements(ks) == m.Keys - todo
      decreases todo
    {
      var k :| k in todo; // Map iteration order is arbitrary.
      assert k !in Elements(ks);
      InsertSorted(k, ks);
      ks := Insert(k, ks);
      todo := todo - {k};
    }
    SortedIsSorted(m.Keys);
    SortedUnique(ks, Sorted(m.Keys));
  }

  // ----- what the code computes

  /** The last update of each key. */
  function Changes(us: seq<ValidatorUpdate>): map<Key, uint64> {
    if us == [] then map[]
    else Changes(us[..|us| - 1])[us[|us| - 1].pubKey := CastPower(us[|us| - 1].power)]
  }

  predicate HasDelete(us: seq<ValidatorUpdate>) {
    exists i :: 0 <= i < |us| && us[i].power == 0
  }

  /** Each change goes to the first validator with its key. */
  function Assign(vals: seq<Validator>, changes: map<Key, uint64>): (r: seq<Validator>)
    ensures |r| == |vals|
  {
    if vals == [] then [] else [AssignOne(vals[0], changes)] + Assign(vals[1..], changes - {vals[0].pubKey})
  }

  function AssignOne(v: Validator, changes: map<Key, uint64>): Validator {
    if v.pubKey in changes then Validator(v.pubKey, changes[v.pubKey]) else v
  }

  /** The changes that found no validator. */
  function Unassigned(vals: seq<Validator>, changes: map<Key, uint64>): map<Key, uint64> {
    if vals == [] then changes else Unassigned(vals[1..], changes - {vals[0].pubKey})
  }

  function DropZero(vals: seq<Validator>): seq<Validator> {
    if vals == [] then [] else Kept(vals[0]) + DropZero(vals[1..])
  }

  function Kept(v: Validator): seq<Validator> {
    if v.power == 0 then [] else [v]
  }

  /** Keys that are no ed25519 keys are skipped. */
  function NewValidators(ks: seq<Key>, changes: map<Key, uint64>): seq<Validator>
    requires forall k :: k in ks ==> k in changes
  {
    if ks == [] then [] else Fresh(ks[0], changes[ks[0]]) + NewValidators(ks[1..], changes)
  }

  function Fresh(k: Key, power: uint64): seq<Validator> {
    if |k| == ED25519_KEY_SIZE then [Validator(k, power)] else []
  }

  ghost function Appended(added: map<Key, uint64>): seq<Validator> {
    SortedIsSorted(added.Keys);
    assert forall k :: k in Sorted(added.Keys) ==> k in Elements(Sorted(added.Keys));
    NewValidators(Sorted(added.Keys), added)
  }

  ghost function ApplyUpdates(vals: seq<Validator>, us: seq<ValidatorUpdate>): seq<Validator> {
    if us == [] then vals
    else
      var afterAssign := Assign(vals, Changes(us));
      (if HasDelete(us) then DropZero(afterAssign) else afterAssign) + Appended(Unassigned(vals, Changes(us)))
  }

  lemma {:induction false} AssignNothing(vals: seq<Validator>)
    ensures Assign(vals, map[]) == vals && Unassigned(vals, map[]) == map[]
  {
    if vals != [] {
      var none: map<Key, uint64> := map[];
      assert none - {vals[0].pubKey} == none;
      AssignNothing(vals[1..]);
      assert vals == [vals[0]] + vals[1..];
    }
  }

  /** What is kept from validator j on is the rest of the whole result from n on. */
  predicate KeptFrom(all: seq<Validator>, j: nat, kept: seq<Validator>, n: nat) {
    j <= |all| && n <= |kept| && DropZero(all[j..]) == kept[n..]
  }

  lemma KeptFromStart(all: seq<Validator>)
    ensures KeptFrom(all, 0, DropZero(all), 0)
  {
    assert all[0..] == all;
  }

  lemma KeptFromNext(all: seq<Validator>, j: nat, kept: seq<Validator>, n: nat)
    requires j < |all| && KeptFrom(all, j, kept, n)
    ensures all[j].power == 0 ==> KeptFrom(all, j + 1, kept, n)
    ensures all[j].power != 0 ==> n < |kept| && kept[n] == all[j] && KeptFrom(all, j + 1, kept, n + 1)
  {
    assert all[j..][0] == all[j] && all[j..][1..] == all[j + 1..];
    var rest := DropZero(all[j + 1..]);
    if all[j].power == 0 {
      assert [] + rest == rest;
    } else {
      assert ([all[j]] + rest)[0] == kept[n..][0];
      assert ([all[j]] + rest)[1..] == kept[n..][1..];
    }
  }

  lemma KeptFromEnd(all: seq<Validator>, kept: seq<Validator>, n: nat)
    requires KeptFrom(all, |all|, kept, n)
    ensures n == |kept|
  {
    assert |kept[n..]| == |kept| - n;
  }

  /** Moves what is kept to the front, in order. */
  method MoveKept(a: array<Validator>, ghost all: seq<Validator>, ghost kept: seq<Validator>) returns (n: nat)
    requires a[..] == all && kept == DropZero(all)
    modifies a
    ensures n == |kept| <= a.Length && a[..n] == kept
  {
    n := 0;
    KeptFromStart(all);
    for j := 0 to a.Length
      invariant n <= j && n <= |kept|
      invariant a[j..] == all[j..]
      invariant a[..n] == kept[..n]
      invariant KeptFrom(all, j, kept, n)
    {
      assert a[j] == a[j..][0] == all[j];
      KeptFromNext(all, j, kept, n);
      if a[j].power != 0 {
        a[n] := a[j];
        n := n + 1;
      }
    }
    KeptFromEnd(all, kept, n);
  }

  /** slices.DeleteFunc for zero powers: compacts in place, and clears what is left over. */
  method Compact(a: array<Validator>) returns (n: nat)
    modifies a
    ensures n <= a.Length
    ensures a[..n] == DropZero(old(a[..]))
    ensures forall i :: n <= i < a.Length ==> a[i] == Validator([], 0)
  {
    ghost var kept := DropZero(a[..]);
    n := MoveKept(a, a[..], kept);
    for j := n to a.Length
      invariant a[..n] == kept
      invariant forall i :: n <= i < j ==> a[i] == Validator([], 0)
    {
      a[j] := Validator([], 0);
    }
  }

  /** From validator i on the assigned ones are the rest of the whole result, one validator at a time. */
  lemma AssignNext(all: seq<Validator>, i: nat, left: map<Key, uint64>, result: seq<Validator>)
    requires i < |all| == |result| && Assign(all[i..], left) == result[i..]
    ensures result[i] == AssignOne(all[i], left)
    ensures Assign(all[i + 1..], left - {all[i].pubKey}) == result[i + 1..]
    ensures Unassigned(all[i + 1..], left - {all[i].pubKey}) == Unassigned(all[i..], left)
  {
    assert all[i..][0] == all[i] && all[i..][1..] == all[i + 1..];
    var rest := Assign(all[i + 1..], left - {all[i].pubKey});
    assert ([AssignOne(all[i], left)] + rest)[0] == result[i..][0];
    assert ([AssignOne(all[i], left)] + rest)[1..] == result[i..][1..];
  }

  lemma NothingLeft(all: seq<Validator>, i: nat, result: seq<Validator>)
    requires i <= |all| == |result| && Assign(all[i..], map[]) == result[i..]
    ensures Unassigned(all[i..], map[]) == map[]
    ensures forall j :: i <= j < |all| ==> result[j] == all[j]
  {
    AssignNothing(all[i..]);
    forall j | i <= j < |all| ensures result[j] == all[j] {
      assert result[i..][j - i] == all[i..][j - i];
    }
  }

  /** Assigns the new powers in place and returns the changes left over, stopping as soon as none are. */
  method AssignInPlace(a: array<Validator>, changes: map<Key, uint64>) returns (left: map<Key, uint64>)
    requires changes != map[]
    modifies a
    ensures a[..] == Assign(old(a[..]), changes)
    ensures left == Unassigned(old(a[..]), changes)
  {
    ghost var all, result := a[..], Assign(a[..], changes);
    left := changes;
    assert all[0..] == all && result[0..] == result;
    for i := 0 to a.Length
      invariant forall j :: 0 <= j < i ==> a[j] == result[j]
      invariant forall j :: i <= j < a.Length ==> a[j] == all[j]
      invariant Assign(all[i..], left) == result[i..]
      invariant Unassigned(all[i..], left) == Unassigned(all, changes)
    {
      AssignNext(all, i, left, result);
      var k := a[i].pubKey;
      if k in left {
        a[i] := Validator(k, left[k]);
        left := left - {k};
        if |left| == 0 {
          NothingLeft(all, i + 1, result);
          return;
        }
      } else {
        assert left - {k} == left;
      }
    }
    assert all[a.Length..] == [];
  }

  /** The last power of each key, and whether any update asks for a removal. */
  method CollectChanges(updates: seq<ValidatorUpdate>) returns (valsToUpdate: map<Key, uint64>, hasDelete: bool)
    ensures valsToUpdate == Changes(updates) && hasDelete == HasDelete(updates)
  {
    valsToUpdate, hasDelete := map[], false;
    for i := 0 to |updates|
      invariant valsToUpdate == Changes(updates[..i]) && hasDelete == HasDelete(updates[..i])
    {
      assert updates[..i + 1][..i] == updates[..i];
      HasDeleteStep(updates, i);
      valsToUpdate := valsToUpdate[updates[i].pubKey := CastPower(updates[i].power)];
      if updates[i].power == 0 {
        hasDelete := true;
      }
    }
    assert updates[..|updates|] == updates;
  }

  /** The same appended one by one. */
  function AppendEach(vals: seq<Validator>, ks: seq<Key>, changes: map<Key, uint64>): seq<Validator>
    requires forall k :: k in ks ==> k in changes
    decreases ks
  {
    if ks == [] then vals else AppendEach(vals + Fresh(ks[0], changes[ks[0]]), ks[1..], changes)
  }

  lemma Associative(a: seq<Validator>, b: seq<Validator>, c: seq<Validator>)
    ensures (a + b) + c == a + (b + c)
  {
  }

  lemma {:induction false} AppendEachIs(vals: seq<Validator>, ks: seq<Key>, changes: map<Key, uint64>)
    requires forall k :: k in ks ==> k in changes
    ensures AppendEach(vals, ks, changes) == vals + NewValidators(ks, changes)
    decreases ks
  {
    if ks != [] {
      var one := Fresh(ks[0], changes[ks[0]]);
      AppendEachIs(vals + one, ks[1..], changes);
      Associative(vals, one, NewValidators(ks[1..], changes));
    }
  }

  method AppendKeys(vals: seq<Validator>, ks: seq<Key>, added: map<Key, uint64>) returns (updatedVals: seq<Validator>)
    requires forall k :: k in ks ==> k in added
    ensures updatedVals == vals + NewValidators(ks, added)
  {
    updatedVals := vals;
    for i := 0 to |ks|
      invariant AppendEach(updatedVals, ks[i..], added) == AppendEach(vals, ks, added)
    {
      assert ks[i..][0] == ks[i] && ks[i..][1..] == ks[i + 1..];
      if |ks[i]| == ED25519_KEY_SIZE {
        updatedVals := updatedVals + [Validator(ks[i], added[ks[i]])];
      } else {
        assert updatedVals + [] == updatedVals;
      }
    }
    AppendEachIs(vals, ks, added);
  }

  /** Appends the validators that are new, in key order. */
  method AppendNew(vals: seq<Validator>, added: map<Key, uint64>) returns (updatedVals: seq<Validator>)
    ensures updatedVals == vals + Appended(added)
  {
    var ks := SortKeys(added);
    SortedIsSorted(added.Keys);
    assert forall k :: k in ks ==> k in Elements(ks);
    updatedVals := AppendKeys(vals, ks, added);
  }

  method Clone(vals: array<Validator>) returns (a: array<Validator>)
    ensures fresh(a) && a[..] == vals[..]
  {
    a := new Validator[vals.Length](i requires 0 <= i < vals.Length reads vals => vals[i]);
  }

  /** The header's own validators are cloned before anything is changed. */
  method UpdatedValidators(next: array<Validator>, updates: seq<ValidatorUpdate>) returns (updatedVals: seq<Validator>)
    ensures updatedVals == ApplyUpdates(next[..], updates)
  {
    if |updates| == 0 {
      return next[..];
    }
    var a := Clone(next);
    var valsToUpdate, hasDelete := CollectChanges(updates);
    assert updates[|updates| - 1].pubKey in valsToUpdate;
    valsToUpdate := AssignInPlace(a, valsToUpdate);
    ghost var afterAssign := a[..];
    assert afterAssign == Assign(next[..], Changes(updates));
    var n := a.Length;
    if hasDelete {
      n := Compact(a);
    }
    assert a[..n] == if HasDelete(updates) then DropZero(afterAssign) else afterAssign;
    updatedVals := AppendNew(a[..n], valsToUpdate);
  }

  lemma HasDeleteStep(us: seq<ValidatorUpdate>, i: nat)
    requires i < |us|
    ensures HasDelete(us[..i + 1]) == (HasDelete(us[..i]) || us[i].power == 0)
  {
    assert forall j :: 0 <= j < i ==> us[..i][j] == us[..i + 1][j];
    assert us[..i + 1][i] == us[i];
  }

  // ----- the simple specification

  ghost predicate DistinctKeys(vals: seq<Validator>) {
    forall i, j :: 0 <= i < j < |vals| ==> vals[i].pubKey != vals[j].pubKey
  }

  ghost predicate Positive(vals: seq<Validator>) {
    forall i :: 0 <= i < |vals| ==> vals[i].power > 0
  }

  ghost function Keys(vals: seq<Validator>): set<Key> {
    set i | 0 <= i < |vals| :: vals[i].pubKey
  }

  /** The old validators in their order with the last power asked for, unless that is zero. */
  function Survivors(vals: seq<Validator>, changes: map<Key, uint64>): seq<Validator> {
    if vals == [] then [] else Kept(AssignOne(vals[0], changes)) + Survivors(vals[1..], changes)
  }

  /** The survivors, and then the new keys in order with their powers, unless zero. */
  ghost function Specification(vals: seq<Validator>, us: seq<ValidatorUpdate>): seq<Validator> {
    var changes := Changes(us);
    Survivors(vals, changes) + DropZero(Appended(changes - Keys(vals)))
  }

  /** Some key nobody has is asked to be removed. */
  ghost predicate RemovesUnknown(vals: seq<Validator>, us: seq<ValidatorUpdate>) {
    exists k :: k in Changes(us) && Changes(us)[k] == 0 && |k| == ED25519_KEY_SIZE && k !in Keys(vals)
  }

  lemma DistinctTail(vals: seq<Validator>)
    requires DistinctKeys(vals) && vals != []
    ensures DistinctKeys(vals[1..]) && vals[0].pubKey !in Keys(vals[1..])
    ensures Keys(vals) == {vals[0].pubKey} + Keys(vals[1..])
  {
    forall k | k in Keys(vals) ensures k in {vals[0].pubKey} + Keys(vals[1..]) {
      var i :| 0 <= i < |vals| && vals[i].pubKey == k;
      assert i > 0 ==> vals[1..][i - 1].pubKey == k;
    }
    forall k | k in Keys(vals[1..]) ensures k in Keys(vals) {
      var i :| 0 <= i < |vals[1..]| && vals[1..][i].pubKey == k;
      assert vals[i + 1].pubKey == k;
    }
  }

  /** Taking a change out of the map once used makes no difference when keys are distinct. */
  lemma {:induction false} AssignOthers(vals: seq<Validator>, changes: map<Key, uint64>, k: Key)
    requires DistinctKeys(vals) && k !in Keys(vals)
    ensures Assign(vals, changes - {k}) == Assign(vals, changes)
    ensures Survivors(vals, changes - {k}) == Survivors(vals, changes)
  {
    if vals != [] {
      DistinctTail(vals);
      var l := vals[0].pubKey;
      assert l != k;
      assert changes - {k} - {l} == changes - {l} - {k};
      AssignOthers(vals[1..], changes - {l}, k);
      AssignOthers(vals[1..], changes, k);
    }
  }

  lemma {:induction false} DropZeroOfAssign(vals: seq<Validator>, changes: map<Key, uint64>)
    requires DistinctKeys(vals)
    ensures DropZero(Assign(vals, changes)) == Survivors(vals, changes)
    ensures Unassigned(vals, changes) == changes - Keys(vals)
  {
    if vals != [] {
      DistinctTail(vals);
      var k := vals[0].pubKey;
      DropZeroOfAssign(vals[1..], changes - {k});
      AssignOthers(vals[1..], changes, k);
      assert Assign(vals, changes)[1..] == Assign(vals[1..], changes - {k});
      assert changes - {k} - Keys(vals[1..]) == changes - Keys(vals);
    } else {
      assert changes - Keys(vals) == changes;
    }
  }

  /** Compaction only ever shortens, and does nothing exactly when no power is zero. */
  lemma {:induction false} DropZeroShortens(vals: seq<Validator>)
    ensures |DropZero(vals)| <= |vals| && (|DropZero(vals)| == |vals| <==> Positive(vals))
    ensures Positive(DropZero(vals)) && (Positive(vals) ==> DropZero(vals) == vals)
  {
    if vals != [] {
      DropZeroShortens(vals[1..]);
      assert vals == [vals[0]] + vals[1..];
      assert Positive(vals) <==> vals[0].power > 0 && Positive(vals[1..]) by {
        if Positive(vals) {
          assert forall i :: 0 <= i < |vals[1..]| ==> vals[1..][i] == vals[i + 1];
        }
      }
    }
  }

  lemma {:induction false} ChangesFromUpdates(us: seq<ValidatorUpdate>, k: Key)
    ensures k in Changes(us) ==>
              exists i :: 0 <= i < |us| && us[i].pubKey == k && CastPower(us[i].power) == Changes(us)[k]
  {
    if us != [] {
      var last := |us| - 1;
      ChangesFromUpdates(us[..last], k);
      if k in Changes(us) {
        if k == us[last].pubKey {
          assert CastPower(us[last].power) == Changes(us)[k];
        } else {
          var i :| 0 <= i < last && us[..last][i].pubKey == k && CastPower(us[..last][i].power) == Changes(us)[k];
          assert us[i].pubKey == k;
        }
      }
    }
  }

  /** Without a removal among the updates, compaction would have had nothing to do. */
  lemma AssignKeepsPositive(vals: seq<Validator>, us: seq<ValidatorUpdate>)
    requires Positive(vals) && !HasDelete(us)
    ensures Positive(Assign(vals, Changes(us)))
  {
    forall k | k in Changes(us) ensures Changes(us)[k] > 0 {
      ChangesFromUpdates(us, k);
    }
    AssignPositive(vals, Changes(us));
  }

  lemma {:induction false} AssignPositive(vals: seq<Validator>, changes: map<Key, uint64>)
    requires Positive(vals) && forall k :: k in changes ==> changes[k] > 0
    ensures Positive(Assign(vals, changes))
  {
    if vals != [] {
      assert forall i :: 0 <= i < |vals[1..]| ==> vals[1..][i] == vals[i + 1];
      AssignPositive(vals[1..], changes - {vals[0].pubKey});
    }
  }

  /** What the code computes, for validators with distinct keys and positive powers. */
  lemma AppliedAsParts(vals: seq<Validator>, us: seq<ValidatorUpdate>)
    requires DistinctKeys(vals) && Positive(vals)
    ensures ApplyUpdates(vals, us) == Survivors(vals, Changes(us)) + Appended(Changes(us) - Keys(vals))
  {
    var changes := Changes(us);
    DropZeroOfAssign(vals, changes);
    if us == [] {
      AssignNothing(vals);
      DropZeroShortens(vals);
      assert Appended(changes - Keys(vals)) == [];
    } else if !HasDelete(us) {
      AssignKeepsPositive(vals, us);
      DropZeroShortens(Assign(vals, changes));
    }
  }

  lemma {:induction false} NewValidatorsContents(ks: seq<Key>, added: map<Key, uint64>)
    requires StrictlySorted(ks) && forall k :: k in ks ==> k in added
    ensures forall v :: v in NewValidators(ks, added) <==>
                        v.pubKey in ks && |v.pubKey| == ED25519_KEY_SIZE && v.power == added[v.pubKey]
    ensures DistinctKeys(NewValidators(ks, added))
  {
    if ks != [] {
      var rest, tail := ks[1..], NewValidators(ks[1..], added);
      assert forall i, j :: 0 <= i < j < |rest| ==> Less(rest[i], rest[j]);
      NewValidatorsContents(rest, added);
      assert ks == [ks[0]] + rest;
      TailElements(ks);
      assert ks[0] !in rest by {
        assert ks[0] !in Elements(rest);
      }
      forall i | 0 <= i < |tail| ensures tail[i].pubKey != ks[0] {
        assert tail[i] in tail;
      }
    }
  }

  lemma AppendedContents(added: map<Key, uint64>)
    ensures forall v :: v in Appended(added) <==>
                        v.pubKey in added && |v.pubKey| == ED25519_KEY_SIZE && v.power == added[v.pubKey]
    ensures DistinctKeys(Appended(added))
  {
    SortedIsSorted(added.Keys);
    assert forall k :: k in Sorted(added.Keys) <==> k in Elements(Sorted(added.Keys));
    NewValidatorsContents(Sorted(added.Keys), added);
  }

  lemma {:induction false} SurvivorsContents(vals: seq<Validator>, changes: map<Key, uint64>)
    requires DistinctKeys(vals)
    ensures DistinctKeys(Survivors(vals, changes)) && Positive(Survivors(vals, changes))
    ensures forall v :: v in Survivors(vals, changes) ==> v.pubKey in Keys(vals)
  {
    if vals != [] {
      DistinctTail(vals);
      SurvivorsContents(vals[1..], changes);
      DistinctConcat(Kept(AssignOne(vals[0], changes)), Survivors(vals[1..], changes));
      PositiveConcat(Kept(AssignOne(vals[0], changes)), Survivors(vals[1..], changes));
    }
  }

  // ----- main results

  /**
   The in-place computation meets the simple specification exactly when no update removes an unknown key:
   such an update appends a validator of power zero instead.
   */
  lemma MeetsSpecification(vals: seq<Validator>, us: seq<ValidatorUpdate>)
    requires DistinctKeys(vals) && Positive(vals)
    ensures ApplyUpdates(vals, us) == Specification(vals, us) <==> !RemovesUnknown(vals, us)
  {
    var added := Changes(us) - Keys(vals);
    AppliedAsParts(vals, us);
    DropZeroShortens(Appended(added));
    PositiveIffNoneUnknown(vals, us);
    var s := Survivors(vals, Changes(us));
    if s + Appended(added) == s + DropZero(Appended(added)) {
      assert |DropZero(Appended(added))| == |Appended(added)|;
    }
  }

  lemma PositiveIffNoneUnknown(vals: seq<Validator>, us: seq<ValidatorUpdate>)
    ensures Positive(Appended(Changes(us) - Keys(vals))) <==> !RemovesUnknown(vals, us)
  {
    var added := Changes(us) - Keys(vals);
    AppendedContents(added);
    if RemovesUnknown(vals, us) {
      var k :| k in Changes(us) && Changes(us)[k] == 0 && |k| == ED25519_KEY_SIZE && k !in Keys(vals);
      assert Validator(k, 0) in Appended(added);
    } else {
      forall i | 0 <= i < |Appended(added)| ensures Appended(added)[i].power > 0 {
        assert Appended(added)[i] in Appended(added);
      }
    }
  }

  lemma DistinctConcat(s: seq<Validator>, a: seq<Validator>)
    requires DistinctKeys(s) && DistinctKeys(a)
    requires forall v, w :: v in s && w in a ==> v.pubKey != w.pubKey
    ensures DistinctKeys(s + a)
  {
    forall i, j | 0 <= i < j < |s + a| ensures (s + a)[i].pubKey != (s + a)[j].pubKey {
      if i < |s| <= j {
        assert s[i] in s && a[j - |s|] in a;
      }
    }
  }

  lemma PositiveConcat(s: seq<Validator>, a: seq<Validator>)
    ensures Positive(s + a) <==> Positive(s) && Positive(a)
  {
    assert forall j :: 0 <= j < |a| ==> (s + a)[|s| + j] == a[j];
    assert forall i :: 0 <= i < |s| ==> (s + a)[i] == s[i];
  }

  /** Keys stay distinct, and powers stay positive exactly when no update removes an unknown key. */
  lemma StaysWellFormed(vals: seq<Validator>, us: seq<ValidatorUpdate>)
    requires DistinctKeys(vals) && Positive(vals)
    ensures DistinctKeys(ApplyUpdates(vals, us))
    ensures Positive(ApplyUpdates(vals, us)) <==> !RemovesUnknown(vals, us)
  {
    var s, a := Survivors(vals, Changes(us)), Appended(Changes(us) - Keys(vals));
    AppliedAsParts(vals, us);
    SurvivorsContents(vals, Changes(us));
    AppendedContents(Changes(us) - Keys(vals));
    PositiveIffNoneUnknown(vals, us);
    DistinctConcat(s, a);
    PositiveConcat(s, a);
  }

  // ----- the result, update by update

  /** Update i is the last to name its key. */
  predicate LastUpdate(us: seq<ValidatorUpdate>, i: nat) {
    i < |us| && forall j :: i < j < |us| ==> us[j].pubKey != us[i].pubKey
  }

  predicate Unnamed(us: seq<ValidatorUpdate>, k: Key) {
    forall j :: 0 <= j < |us| ==> us[j].pubKey != k
  }

  lemma {:induction false} ChangesOfLast(us: seq<ValidatorUpdate>, i: nat)
    requires LastUpdate(us, i)
    ensures us[i].pubKey in Changes(us)
    ensures Changes(us)[us[i].pubKey] == if us[i].power >= 0 then us[i].power else us[i].power + TWO_64
  {
    var last := |us| - 1;
    if i < last {
      assert us[..last][i] == us[i];
      ChangesOfLast(us[..last], i);
    }
  }

  lemma {:induction false} ChangesOfUnnamed(us: seq<ValidatorUpdate>, k: Key)
    requires Unnamed(us, k)
    ensures k !in Changes(us)
  {
    if us != [] {
      ChangesOfUnnamed(us[..|us| - 1], k);
    }
  }

  lemma {:induction false} SurvivorsMember(vals: seq<Validator>, changes: map<Key, uint64>, w: Validator)
    requires DistinctKeys(vals)
    ensures w in Survivors(vals, changes) <==>
            (w.power > 0 && w.pubKey in Keys(vals) &&
             if w.pubKey in changes then w.power == changes[w.pubKey] else w in vals)
  {
    if vals != [] {
      DistinctTail(vals);
      SurvivorsMember(vals[1..], changes, w);
      assert vals == [vals[0]] + vals[1..];
    }
  }

  lemma ResultMember(vals: seq<Validator>, us: seq<ValidatorUpdate>, w: Validator)
    requires DistinctKeys(vals) && Positive(vals)
    ensures w in ApplyUpdates(vals, us) <==>
            if w.pubKey in Keys(vals) then
              w.power > 0 && if w.pubKey in Changes(us) then w.power == Changes(us)[w.pubKey] else w in vals
            else
              w.pubKey in Changes(us) && |w.pubKey| == 32 && w.power == Changes(us)[w.pubKey]
  {
    AppliedAsParts(vals, us);
    SurvivorsMember(vals, Changes(us), w);
    AppendedContents(Changes(us) - Keys(vals));
  }

  lemma KeysMember(vals: seq<Validator>, k: Key)
    ensures k in Keys(vals) <==> exists w :: w in vals && w.pubKey == k
  {
    if k in Keys(vals) {
      var i :| 0 <= i < |vals| && vals[i].pubKey == k;
      assert vals[i] in vals;
    }
  }

  /**
   The last update of a key decides: a positive power is what its validator has, old or new; zero removes an old
   validator, but makes a new one without power; a negative power wraps around; and keys that are no ed25519 keys
   make no new validators.
   */
  lemma LastUpdateWins(vals: seq<Validator>, us: seq<ValidatorUpdate>, i: nat)
    requires DistinctKeys(vals) && Positive(vals) && LastUpdate(us, i)
    ensures var u, r := us[i], ApplyUpdates(vals, us);
            var old? := u.pubKey in Keys(vals);
            && (u.power > 0 && (old? || |u.pubKey| == 32) ==> Validator(u.pubKey, u.power) in r)
            && (u.power == 0 && old? ==> u.pubKey !in Keys(r))
            && (u.power == 0 && !old? && |u.pubKey| == 32 ==> Validator(u.pubKey, 0) in r)
            && (u.power < 0 && (old? || |u.pubKey| == 32) ==>
                  Validator(u.pubKey, 0x1_0000_0000_0000_0000 + u.power) in r)
            && (!old? && |u.pubKey| != 32 ==> u.pubKey !in Keys(r))
  {
    var u, r := us[i], ApplyUpdates(vals, us);
    ChangesOfLast(us, i);
    ResultMember(vals, us, Validator(u.pubKey, Changes(us)[u.pubKey]));
    KeysMember(r, u.pubKey);
    forall w | w in r && w.pubKey == u.pubKey ensures w == Validator(u.pubKey, Changes(us)[u.pubKey]) {
      ResultMember(vals, us, w);
    }
  }

  /** A validator that no update names stays as it is, and no other appears under its key. */
  lemma UnnamedStay(vals: seq<Validator>, us: seq<ValidatorUpdate>, w: Validator)
    requires DistinctKeys(vals) && Positive(vals) && Unnamed(us, w.pubKey)
    ensures w in ApplyUpdates(vals, us) <==> w in vals
  {
    ChangesOfUnnamed(us, w.pubKey);
    ResultMember(vals, us, w);
    KeysMember(vals, w.pubKey);
    if w in vals {
      var j :| 0 <= j < |vals| && vals[j] == w;
      assert w.power > 0;
    }
  }

  /** Both keys are there, the first before the second. */
  predicate InOrder(vals: seq<Validator>, k: Key, l: Key) {
    exists p, q :: 0 <= p < q < |vals| && vals[p].pubKey == k && vals[q].pubKey == l
  }

  predicate AllInOrder(vals: seq<Validator>, s: seq<Validator>) {
    forall i, j :: 0 <= i < j < |s| ==> InOrder(vals, s[i].pubKey, s[j].pubKey)
  }

  lemma InOrderLater(vals: seq<Validator>, k: Key, l: Key)
    requires vals != [] && InOrder(vals[1..], k, l)
    ensures InOrder(vals, k, l)
  {
    var p, q :| 0 <= p < q < |vals[1..]| && vals[1..][p].pubKey == k && vals[1..][q].pubKey == l;
    assert vals[p + 1].pubKey == k && vals[q + 1].pubKey == l;
  }

  lemma {:induction false} SurvivorsInOrder(vals: seq<Validator>, changes: map<Key, uint64>)
    ensures forall v :: v in Survivors(vals, changes) ==> v.pubKey in Keys(vals)
    ensures AllInOrder(vals, Survivors(vals, changes))
  {
    if vals != [] {
      var s, rest := Survivors(vals, changes), Survivors(vals[1..], changes);
      SurvivorsInOrder(vals[1..], changes);
      var k := |s| - |rest|;
      assert forall i :: k <= i < |s| ==> s[i] == rest[i - k];
      forall v | v in s ensures v.pubKey in Keys(vals) {
        if v in rest {
          var q :| 0 <= q < |vals[1..]| && vals[1..][q].pubKey == v.pubKey;
          assert vals[q + 1].pubKey == v.pubKey;
        } else {
          assert vals[0].pubKey == v.pubKey;
        }
      }
      forall i, j | 0 <= i < j < |s| ensures InOrder(vals, s[i].pubKey, s[j].pubKey) {
        assert rest[j - k] in rest;
        if i < k {
          var q :| 0 <= q < |vals[1..]| && vals[1..][q].pubKey == s[j].pubKey;
          assert vals[0].pubKey == s[i].pubKey && vals[q + 1].pubKey == s[j].pubKey;
        } else {
          var a, b := i - k, j - k;
          assert InOrder(vals[1..], rest[a].pubKey, rest[b].pubKey);
          InOrderLater(vals, s[i].pubKey, s[j].pubKey);
        }
      }
    }
  }

  predicate InKeyOrder(s: seq<Validator>) {
    forall i, j :: 0 <= i < j < |s| ==> Less(s[i].pubKey, s[j].pubKey)
  }

  lemma {:induction false} NewValidatorsSorted(ks: seq<Key>, added: map<Key, uint64>)
    requires StrictlySorted(ks) && forall k :: k in ks ==> k in added
    ensures forall v :: v in NewValidators(ks, added) ==> v.pubKey in ks
    ensures InKeyOrder(NewValidators(ks, added))
  {
    if ks != [] {
      var r, tail := NewValidators(ks, added), NewValidators(ks[1..], added);
      assert forall i, j :: 0 <= i < j < |ks[1..]| ==> Less(ks[1..][i], ks[1..][j]);
      NewValidatorsSorted(ks[1..], added);
      var k := |r| - |tail|;
      assert forall i :: k <= i < |r| ==> r[i] == tail[i - k];
      forall i | 0 <= i < |tail| ensures tail[i].pubKey in ks && Less(ks[0], tail[i].pubKey) {
        assert tail[i] in tail;
        var q :| 0 <= q < |ks[1..]| && ks[1..][q] == tail[i].pubKey;
        assert ks[q + 1] == tail[i].pubKey;
      }
      forall i, j | 0 <= i < j < |r| ensures Less(r[i].pubKey, r[j].pubKey) {
        assert r[j] == tail[j - k];
        if i >= k {
          assert r[i] == tail[i - k];
        } else {
          assert r[i].pubKey == ks[0];
        }
      }
    }
  }

  /** Bytewise, from the left, and a prefix comes first. */
  lemma {:induction false} LessIsLexicographic(a: Key, b: Key)
    ensures Less(a, b) <==> exists n: nat :: LessAt(a, b, n)
  {
    if a != [] && b != [] && a[0] == b[0] {
      LessIsLexicographic(a[1..], b[1..]);
      if Less(a, b) {
        var n: nat :| LessAt(a[1..], b[1..], n);
        assert a[..n + 1] == [a[0]] + a[1..][..n] && b[..n + 1] == [b[0]] + b[1..][..n];
        assert LessAt(a, b, n + 1);
      }
      if exists n: nat :: LessAt(a, b, n) {
        var n: nat :| LessAt(a, b, n);
        assert n > 0;
        assert a[1..][..n - 1] == a[..n][1..] && b[1..][..n - 1] == b[..n][1..];
        assert LessAt(a[1..], b[1..], n - 1);
      }
    } else {
      if Less(a, b) {
        assert LessAt(a, b, 0);
      }
      if exists n: nat :: LessAt(a, b, n) {
        var n: nat :| LessAt(a, b, n);
        if n > 0 {
          SameStart(a, b, n);
        }
      }
    }
  }

  lemma SameStart(a: Key, b: Key, n: nat)
    requires 0 < n <= |a| && n <= |b| && a[..n] == b[..n]
    ensures a[0] == b[0]
  {
    assert a[0] == a[..n][0] == b[..n][0];
  }

  predicate LessAt(a: Key, b: Key, n: nat) {
    n <= |a| && n < |b| && a[..n] == b[..n] && (n == |a| || a[n] < b[n])
  }

  /** The old validators come first, in their order, and then the new ones in the order of their keys. */
  lemma OrderOfResult(vals: seq<Validator>, us: seq<ValidatorUpdate>) returns (n: nat)
    requires DistinctKeys(vals) && Positive(vals)
    ensures var r := ApplyUpdates(vals, us);
            && n <= |r|
            && (forall i :: 0 <= i < |r| ==> (r[i].pubKey in Keys(vals) <==> i < n))
            && AllInOrder(vals, r[..n]) && InKeyOrder(r[n..])
  {
    var s, added := Survivors(vals, Changes(us)), Changes(us) - Keys(vals);
    AppliedAsParts(vals, us);
    SurvivorsInOrder(vals, Changes(us));
    SortedIsSorted(added.Keys);
    assert forall k :: k in Sorted(added.Keys) <==> k in Elements(Sorted(added.Keys));
    NewValidatorsSorted(Sorted(added.Keys), added);
    n := |s|;
    var r, t := ApplyUpdates(vals, us), Appended(added);
    assert r[..n] == s && r[n..] == t;
    forall i | 0 <= i < |r| ensures r[i].pubKey in Keys(vals) <==> i < n {
      if i < n {
        assert s[i] in s;
      } else {
        assert t[i - n] in t;
      }
    }
  }

  ghost predicate DistinctUpdates(us: seq<ValidatorUpdate>) {
    forall i, j :: 0 <= i < j < |us| ==> us[i].pubKey != us[j].pubKey
  }

  lemma {:induction false} ChangesOfDistinct(us: seq<ValidatorUpdate>)
    requires DistinctUpdates(us)
    ensures forall i :: 0 <= i < |us| ==>
              us[i].pubKey in Changes(us) && Changes(us)[us[i].pubKey] == CastPower(us[i].power)
  {
    if us != [] {
      ChangesOfDistinct(us[..|us| - 1]);
    }
  }

  /** The order in which a block reports its updates does not matter. */
  lemma OrderOfUpdates(vals: seq<Validator>, us: seq<ValidatorUpdate>, us': seq<ValidatorUpdate>)
    requires multiset(us) == multiset(us') && DistinctUpdates(us)
    ensures ApplyUpdates(vals, us) == ApplyUpdates(vals, us')
  {
    PermutedDistinct(us, us');
    ChangesWithin(us, us');
    ChangesWithin(us', us);
    assert Changes(us) == Changes(us');
    DeletesWithin(us, us');
    DeletesWithin(us', us);
    if us == [] || us' == [] {
      assert |multiset(us)| == |us| && |multiset(us')| == |us'|;
    }
  }

  lemma PermutedDistinct(us: seq<ValidatorUpdate>, us': seq<ValidatorUpdate>)
    requires multiset(us) == multiset(us') && DistinctUpdates(us)
    ensures DistinctUpdates(us')
  {
    forall i, j | 0 <= i < j < |us'| ensures us'[i].pubKey != us'[j].pubKey {
      var u, v := us'[i], us'[j];
      assert u in multiset(us) && v in multiset(us);
      if u == v {
        assert us' == us'[..i] + [u] + us'[i + 1..j] + [u] + us'[j + 1..];
        assert multiset(us')[u] >= 2;
        OnceIfDistinct(us, u);
        assert false;
      }
    }
  }

  lemma {:induction false} OnceIfDistinct(us: seq<ValidatorUpdate>, u: ValidatorUpdate)
    requires DistinctUpdates(us)
    ensures multiset(us)[u] <= 1
  {
    if us != [] {
      var last := |us| - 1;
      assert us == us[..last] + [us[last]];
      OnceIfDistinct(us[..last], u);
      if us[last] == u {
        assert u !in us[..last];
      }
    }
  }

  lemma ChangesWithin(us: seq<ValidatorUpdate>, us': seq<ValidatorUpdate>)
    requires multiset(us) == multiset(us') && DistinctUpdates(us')
    ensures forall k :: k in Changes(us) ==> k in Changes(us') && Changes(us')[k] == Changes(us)[k]
  {
    ChangesOfDistinct(us');
    forall k | k in Changes(us) ensures k in Changes(us') && Changes(us')[k] == Changes(us)[k] {
      ChangesFromUpdates(us, k);
      var i :| 0 <= i < |us| && us[i].pubKey == k && CastPower(us[i].power) == Changes(us)[k];
      assert us[i] in multiset(us');
      var j :| 0 <= j < |us'| && us'[j] == us[i];
    }
  }

  lemma DeletesWithin(us: seq<ValidatorUpdate>, us': seq<ValidatorUpdate>)
    requires multiset(us) == multiset(us')
    ensures HasDelete(us) ==> HasDelete(us')
  {
    if HasDelete(us) {
      var i :| 0 <= i < |us| && us[i].power == 0;
      assert us[i] in multiset(us');
      var j :| 0 <= j < |us'| && us'[j] == us[i];
    }
  }

  ghost function AfterBlocks(vals: seq<Validator>, blocks: seq<seq<ValidatorUpdate>>): seq<Validator>
    decreases |blocks|
  {
    if blocks == [] then vals else AfterBlocks(ApplyUpdates(vals, blocks[0]), blocks[1..])
  }

  /** Over any chain of blocks, nodes that see each block's updates in different orders keep the same validators. */
  lemma {:induction false} ChainDeterminism(vals: seq<Validator>, blocks: seq<seq<ValidatorUpdate>>,
                                            blocks': seq<seq<ValidatorUpdate>>)
    requires |blocks| == |blocks'|
    requires forall i :: 0 <= i < |blocks| ==> multiset(blocks[i]) == multiset(blocks'[i]) && DistinctUpdates(blocks[i])
    ensures AfterBlocks(vals, blocks) == AfterBlocks(vals, blocks')
    decreases |blocks|
  {
    if blocks != [] {
      OrderOfUpdates(vals, blocks[0], blocks'[0]);
      ChainDeterminism(ApplyUpdates(vals, blocks[0]), blocks[1..], blocks'[1..]);
    }
  }
}
