/**
 * The loop that Supervisor.Run and Config.Validate share: walk the tunnels, remember who claimed each
 * port key, and stop at the first key claimed twice.
 */
module Claiming {
  import opened Basics
  import opened Proto
  import opened Traversal
  import opened Planning
  import opened Ports

  ghost predicate Shares<T(!new)>(a: seq<T>, b: seq<T>) {
    exists k :: k in a && k in b
  }

  ghost predicate KeysClash(a: TunnelSpec, b: TunnelSpec) {
    Shares(KeysOf(a), KeysOf(b))
  }

  ghost predicate DisjointClaims(specs: Specs) {
    forall m, n :: m in specs && n in specs && m != n ==> !KeysClash(specs[m], specs[n])
  }

  /** No key is claimed twice, neither by two tunnels nor by two forwards of one. */
  ghost predicate NoDoubleClaim(specs: Specs) {
    (forall n :: n in specs ==> Distinct(KeysOf(specs[n]))) && DisjointClaims(specs)
  }

  // ---- What the claims say about addresses and ports ----

  /** Both forwards listen on a configured port, and on the same address and port. */
  ghost predicate SameListener(f: Forward, g: Forward) {
    f.port != 0 && f.port == g.port && DefaultedAddress(f.address) == DefaultedAddress(g.address)
  }

  ghost predicate ShareListener(fs: seq<Forward>, gs: seq<Forward>) {
    exists i, j :: 0 <= i < |fs| && 0 <= j < |gs| && SameListener(fs[i], gs[j])
  }

  ghost predicate RepeatsListener(fs: seq<Forward>) {
    exists i, j :: 0 <= i < j < |fs| && SameListener(fs[i], fs[j])
  }

  lemma SharedKeyIsListener(fs: seq<Forward>, gs: seq<Forward>, key: string)
    requires key in KeysOfForwards(fs) && key in KeysOfForwards(gs)
    ensures ShareListener(fs, gs)
  {
    KeysOfForwardsHas(fs, key);
    KeysOfForwardsHas(gs, key);
    var i :| 0 <= i < |fs| && Claims(fs[i], key);
    var j :| 0 <= j < |gs| && Claims(gs[j], key);
    ClaimKeyFaithful(fs[i].address, fs[i].port, gs[j].address, gs[j].port);
    assert SameListener(fs[i], gs[j]);
  }

  lemma SharedListenerIsKey(fs: seq<Forward>, gs: seq<Forward>, i: nat, j: nat)
    requires i < |fs| && j < |gs| && SameListener(fs[i], gs[j])
    ensures Shares(KeysOfForwards(fs), KeysOfForwards(gs))
  {
    var key := ClaimKey(fs[i].address, fs[i].port);
    ClaimKeyFaithful(fs[i].address, fs[i].port, gs[j].address, gs[j].port);
    assert Claims(fs[i], key) && Claims(gs[j], key);
    KeysOfForwardsHas(fs, key);
    KeysOfForwardsHas(gs, key);
  }

  /** Two lists of forwards share a key exactly when they share a listener. */
  lemma SharedKey(fs: seq<Forward>, gs: seq<Forward>)
    ensures Shares(KeysOfForwards(fs), KeysOfForwards(gs)) <==> ShareListener(fs, gs)
  {
    if key :| key in KeysOfForwards(fs) && key in KeysOfForwards(gs) { SharedKeyIsListener(fs, gs, key); }
    if i: nat, j: nat :| i < |fs| && j < |gs| && SameListener(fs[i], gs[j]) { SharedListenerIsKey(fs, gs, i, j); }
  }

  lemma RepeatsLast(fs: seq<Forward>)
    requires fs != []
    ensures RepeatsListener(fs) <==> RepeatsListener(fs[..|fs| - 1]) || ShareListener(fs[..|fs| - 1], [fs[|fs| - 1]])
  {
    var init, last := fs[..|fs| - 1], fs[|fs| - 1];
    if i, j :| 0 <= i < j < |fs| && SameListener(fs[i], fs[j]) {
      assert if j < |init| then SameListener(init[i], init[j]) else SameListener(init[i], [last][0]);
    }
    if i, j :| 0 <= i < j < |init| && SameListener(init[i], init[j]) { assert SameListener(fs[i], fs[j]); }
    if i, j :| 0 <= i < |init| && 0 <= j < |[last]| && SameListener(init[i], [last][j]) {
      assert SameListener(fs[i], fs[|fs| - 1]);
    }
  }

  /** The keys of one spec repeat exactly when two of its forwards are the same listener. */
  lemma {:induction false} RepeatedKey(fs: seq<Forward>)
    ensures Distinct(KeysOfForwards(fs)) <==> !RepeatsListener(fs)
    decreases |fs|
  {
    if fs != [] {
      var init, last := fs[..|fs| - 1], fs[|fs| - 1];
      RepeatedKey(init);
      RepeatsLast(fs);
      SharedKey(init, [last]);
      assert [last][..0] == [] && KeysOfForwards([last]) == if last.port == 0 then [] else [ClaimKey(last.address, last.port)];
      AppendDistinct(KeysOfForwards(init), KeysOfForwards([last]));
    }
  }

  lemma AppendDistinct(a: seq<string>, b: seq<string>)
    requires |b| <= 1
    ensures Distinct(a + b) <==> Distinct(a) && !Shares(a, b)
  {
    if Distinct(a + b) {
      forall i, j | 0 <= i < j < |a| ensures a[i] != a[j] { assert (a + b)[i] != (a + b)[j]; }
      forall k | k in a ensures k !in b {
        var i :| 0 <= i < |a| && a[i] == k;
        assert |b| > 0 ==> (a + b)[i] != (a + b)[|a|];
      }
    }
    if Distinct(a) && !Shares(a, b) {
      forall i, j | 0 <= i < j < |a + b| ensures (a + b)[i] != (a + b)[j] {
        if j >= |a| { assert a[i] in a && b[0] in b; }
      }
    }
  }

  /**
   * The port check in terms of listeners: it passes exactly when no two forwards, of one tunnel or of two,
   * listen on the same defaulted address and the same configured port.
   */
  lemma NoDoubleClaimExactly(specs: Specs)
    ensures NoDoubleClaim(specs) <==>
      && (forall n :: n in specs ==> !RepeatsListener(ForwardsOf(specs[n].kind)))
      && (forall m, n :: m in specs && n in specs && m != n ==>
            !ShareListener(ForwardsOf(specs[m].kind), ForwardsOf(specs[n].kind)))
  {
    forall n | n in specs ensures Distinct(KeysOf(specs[n])) <==> !RepeatsListener(ForwardsOf(specs[n].kind)) {
      RepeatedKey(ForwardsOf(specs[n].kind));
    }
    forall m, n | m in specs && n in specs
      ensures KeysClash(specs[m], specs[n]) <==> ShareListener(ForwardsOf(specs[m].kind), ForwardsOf(specs[n].kind))
    {
      SharedKey(ForwardsOf(specs[m].kind), ForwardsOf(specs[n].kind));
    }
  }

  // ---- Along a walk, one list of keys per tunnel ----

  /** The i-th list repeats no key of its own and none of an earlier list. */
  ghost predicate NewKeys(lists: seq<seq<string>>, i: nat)
    requires i < |lists|
  {
    Distinct(lists[i]) && forall a :: 0 <= a < i ==> !Shares(lists[a], lists[i])
  }

  ghost predicate NoRepeats(lists: seq<seq<string>>) {
    forall i :: 0 <= i < |lists| ==> NewKeys(lists, i)
  }

  ghost predicate Claimed(lists: seq<seq<string>>, key: string) {
    exists i :: 0 <= i < |lists| && key in lists[i]
  }

  lemma NewKeysOfPrefix(lists: seq<seq<string>>, k: nat, i: nat)
    requires i < k <= |lists|
    ensures NewKeys(lists[..k], i) <==> NewKeys(lists, i)
  {
    assert forall a :: 0 <= a <= i ==> lists[..k][a] == lists[a];
  }

  /** What the next list adds: the walk stays free of repetitions exactly when its keys are new. */
  lemma NextList(lists: seq<seq<string>>, i: nat)
    requires i < |lists| && NoRepeats(lists[..i])
    ensures NewKeys(lists, i) <==> Distinct(lists[i]) && forall k :: k in lists[i] ==> !Claimed(lists[..i], k)
    ensures NewKeys(lists, i) ==> NoRepeats(lists[..i + 1])
    ensures forall k :: Claimed(lists[..i + 1], k) <==> Claimed(lists[..i], k) || k in lists[i]
  {
    var init, next := lists[..i], lists[..i + 1];
    assert next[i] == lists[i];
    forall k ensures Claimed(next, k) <==> Claimed(init, k) || k in lists[i] {
      if a :| 0 <= a < |init| && k in init[a] { assert k in next[a]; }
      if a :| 0 <= a < |next| && k in next[a] { assert a < i ==> k in init[a]; }
    }
    if forall k :: k in lists[i] ==> !Claimed(init, k) {
      forall a | 0 <= a < i ensures !Shares(lists[a], lists[i]) {
        forall k | k in lists[a] ensures k !in lists[i] { assert k in init[a]; }
      }
    }
    if NewKeys(lists, i) {
      forall a, k | 0 <= a < |init| && k in init[a] ensures k !in lists[i] { assert !Shares(lists[a], lists[i]); }
      forall a: nat | a < |next| ensures NewKeys(next, a) {
        if a < i { assert NewKeys(init, a); NewKeysOfPrefix(lists, i, a); }
        NewKeysOfPrefix(lists, i + 1, a);
      }
    }
  }

  ghost function KeyLists(order: seq<TunnelSpec>): (lists: seq<seq<string>>)
    ensures |lists| == |order| && forall i :: 0 <= i < |order| ==> lists[i] == KeysOf(order[i])
  {
    seq(|order|, i requires 0 <= i < |order| => KeysOf(order[i]))
  }

  ghost function WalkIndex(specs: Specs, order: seq<TunnelSpec>, n: string): (i: nat)
    requires Keyed(specs) && Lists(specs, order) && n in specs
    ensures i < |order| && order[i] == specs[n] && order[i].name == n
  {
    var i :| 0 <= i < |order| && order[i] == specs[n]; i
  }

  lemma ApartLists(lists: seq<seq<string>>, i: nat, j: nat)
    requires NoRepeats(lists) && i < |lists| && j < |lists| && i != j
    ensures !Shares(lists[i], lists[j])
  {
    if i < j {
      assert NewKeys(lists, j);
    } else {
      assert NewKeys(lists, i) && !Shares(lists[j], lists[i]);
    }
  }

  lemma WalkedPair(specs: Specs, order: seq<TunnelSpec>, m: string, n: string)
    requires Keyed(specs) && Lists(specs, order) && NoRepeats(KeyLists(order))
    requires m in specs && n in specs && m != n
    ensures !KeysClash(specs[m], specs[n])
  {
    var i, j, lists := WalkIndex(specs, order, m), WalkIndex(specs, order, n), KeyLists(order);
    ApartLists(lists, i, j);
  }

  /** In whatever order the map is walked, the verdict is the same. */
  lemma NoDoubleAnyOrder(specs: Specs, order: seq<TunnelSpec>)
    requires Keyed(specs) && Lists(specs, order)
    ensures NoRepeats(KeyLists(order)) <==> NoDoubleClaim(specs)
  {
    var lists := KeyLists(order);
    if NoRepeats(lists) {
      forall n | n in specs ensures Distinct(KeysOf(specs[n])) {
        assert NewKeys(lists, WalkIndex(specs, order, n));
      }
      forall m, n | m in specs && n in specs && m != n ensures !KeysClash(specs[m], specs[n]) {
        WalkedPair(specs, order, m, n);
      }
    }
    if NoDoubleClaim(specs) {
      forall i: nat | i < |lists| ensures NewKeys(lists, i) {
        forall a | 0 <= a < i ensures !Shares(lists[a], lists[i]) {
          assert !KeysClash(specs[order[a].name], specs[order[i].name]);
        }
      }
    }
  }

  datatype Conflict = Conflict(name: string, owner: string, key: string)

  ghost predicate ClaimedBy(order: seq<TunnelSpec>, name: string, key: string) {
    exists i :: 0 <= i < |order| && order[i].name == name && key in KeyLists(order)[i]
  }

  /** The inner loop: claims one tunnel's keys, up to the first that is already taken. */
  method ClaimKeys(name: string, keys: seq<string>, seen: map<string, string>)
    returns (seen': map<string, string>, clash: Option<string>)
    ensures clash.None? <==> Distinct(keys) && forall k :: k in keys ==> k !in seen
    ensures clash.None? ==> seen'.Keys == seen.Keys + Members(keys)
    ensures clash.Some? ==> clash.value in keys && clash.value in seen'
    ensures forall k :: k in seen' ==>
      if k in seen then seen'[k] == seen[k] else k in keys && seen'[k] == name
  {
    seen' := seen;
    for j := 0 to |keys|
      invariant Distinct(keys[..j]) && forall k :: k in keys[..j] ==> k !in seen
      invariant seen'.Keys == seen.Keys + Members(keys[..j])
      invariant forall k :: k in seen' ==>
        if k in seen then seen'[k] == seen[k] else k in keys && seen'[k] == name
    {
      var key := keys[j];
      assert key in keys;
      assert keys[..j + 1] == keys[..j] + [key];
      if key in seen' {
        return seen', Some(key);
      }
      seen' := seen'[key := name];
    }
    assert keys[..|keys|] == keys;
    clash := None;
  }

  /** The shared loop: a conflict is reported exactly when some key is claimed twice. */
  method FindDoubleClaim(order: seq<TunnelSpec>) returns (r: Option<Conflict>)
    ensures r.None? <==> NoRepeats(KeyLists(order))
    ensures r.Some? ==> ClaimedBy(order, r.value.name, r.value.key) && ClaimedBy(order, r.value.owner, r.value.key)
  {
    var seen: map<string, string> := map[];
    ghost var lists := KeyLists(order);
    for i := 0 to |order|
      invariant NoRepeats(lists[..i])
      invariant forall k :: k in seen <==> Claimed(lists[..i], k)
      invariant forall k :: k in seen ==> ClaimedBy(order, seen[k], k)
    {
      var keys := LocalPortKeys(order[i]);
      assert keys == lists[i];
      NextList(lists, i);
      var seen', clash := ClaimKeys(order[i].name, keys, seen);
      if clash.Some? {
        assert !NewKeys(lists, i);
        return Some(Conflict(order[i].name, seen'[clash.value], clash.value));
      }
      seen := seen';
    }
    assert lists[..|lists|] == lists;
    r := None;
  }
}
