/** k8s/controllers/scheduler.go and the controller's re-check of a scheduled node. */
module Scheduling {
  import opened Basics
  import opened Traversal

  datatype NodeCondition = NodeCondition(kind: string, status: string)

  datatype NodeAddress = NodeAddress(kind: string, address: string)

  datatype Node = Node(name: string, labels: map<string, string>, conditions: seq<NodeCondition>, addresses: seq<NodeAddress>)

  /** The first Ready condition decides. */
  ghost predicate Ready(conditions: seq<NodeCondition>) {
    conditions != [] && if conditions[0].kind == "Ready" then conditions[0].status == "True" else Ready(conditions[1..])
  }

  /** Ready exactly when the first condition of that type is True. */
  lemma {:induction false} ReadyExactly(cs: seq<NodeCondition>)
    ensures Ready(cs) <==> exists k :: 0 <= k < |cs| && FirstReady(cs, k) && cs[k].status == "True"
    decreases |cs|
  {
    if cs != [] {
      ReadyExactly(cs[1..]);
      forall k: nat | k < |cs| - 1 ensures cs[0].kind != "Ready" ==> (FirstReady(cs, k + 1) <==> FirstReady(cs[1..], k)) {
        assert forall j :: 0 <= j < |cs| - 1 ==> cs[1..][j] == cs[j + 1];
        assert forall j :: 0 < j < |cs| ==> cs[j] == cs[1..][j - 1];
      }
      if cs[0].kind == "Ready" {
        assert FirstReady(cs, 0);
        assert forall k :: 0 < k < |cs| ==> !FirstReady(cs, k);
      } else {
        if k :| 0 <= k < |cs[1..]| && FirstReady(cs[1..], k) && cs[1..][k].status == "True" { assert FirstReady(cs, k + 1); }
        if k :| 0 <= k < |cs| && FirstReady(cs, k) && cs[k].status == "True" {
          assert k > 0 && FirstReady(cs[1..], k - 1) && cs[1..][k - 1] == cs[k];
        }
      }
    }
  }

  ghost predicate FirstReady(cs: seq<NodeCondition>, k: int)
    requires 0 <= k < |cs|
  {
    cs[k].kind == "Ready" && forall j :: 0 <= j < k ==> cs[j].kind != "Ready"
  }

  method IsNodeReady(n: Node) returns (r: bool)
    ensures r <==> Ready(n.conditions)
  {
    for i := 0 to |n.conditions|
      invariant Ready(n.conditions) <==> Ready(n.conditions[i..])
    {
      if n.conditions[i].kind == "Ready" {
        return n.conditions[i].status == "True";
      }
    }
    r := false;
  }

  /** labels.SelectorFromSet(sel).Matches: every key has to be present. */
  predicate Matches(sel: map<string, string>, labels: map<string, string>) {
    forall k :: k in sel ==> k in labels && labels[k] == sel[k]
  }

  /** nodeStillValid's test: Go reads a missing label as the empty string. */
  predicate StillMatches(sel: map<string, string>, labels: map<string, string>) {
    forall k :: k in sel ==> (if k in labels then labels[k] else "") == sel[k]
  }

  /** The two tests differ exactly where the selector asks for an empty value of an absent label. */
  lemma LabelTestsDiffer(sel: map<string, string>, labels: map<string, string>)
    ensures Matches(sel, labels) <==> StillMatches(sel, labels) && forall k :: k in sel && sel[k] == "" ==> k in labels
  {
  }

  ghost predicate Eligible(n: Node, sel: map<string, string>) {
    Matches(sel, n.labels) && Ready(n.conditions)
  }

  /** A node may be picked when it carries every selected label and its first Ready condition is True. */
  lemma EligibleExactly(n: Node, sel: map<string, string>)
    ensures Eligible(n, sel) <==>
      && (forall k :: k in sel ==> k in n.labels && n.labels[k] == sel[k])
      && exists k :: 0 <= k < |n.conditions| && FirstReady(n.conditions, k) && n.conditions[k].status == "True"
  {
    ReadyExactly(n.conditions);
  }

  /** Node names are unique in a cluster. */
  ghost predicate UniqueNames(nodes: seq<Node>) {
    forall m, n :: m in nodes && n in nodes && m.name == n.name ==> m == n
  }

  /** The lexicographically least Ready node that matches. */
  ghost predicate Picked(nodes: seq<Node>, sel: map<string, string>, n: Node) {
    && n in nodes && Eligible(n, sel)
    && forall m :: m in nodes && Eligible(m, sel) ==> m.name == n.name || StrLess(n.name, m.name)
  }

  method PickNode(nodes: seq<Node>, sel: map<string, string>) returns (r: Option<Node>)
    ensures r.None? <==> forall n :: n in nodes ==> !Eligible(n, sel)
    ensures r.Some? ==> Picked(nodes, sel, r.value)
  {
    r := None;
    for i := 0 to |nodes|
      invariant r.None? ==> forall n :: n in nodes[..i] ==> !Eligible(n, sel)
      invariant r.Some? ==> Picked(nodes[..i], sel, r.value)
    {
      var n := nodes[i];
      assert nodes[..i + 1] == nodes[..i] + [n];
      if !Matches(sel, n.labels) { continue; }
      var ready := IsNodeReady(n);
      if !ready { continue; }
      if r.None? {
        r := Some(n);
      } else {
        StrLessTrichotomy(n.name, r.value.name);
        if StrLess(n.name, r.value.name) {
          forall m | m in nodes[..i] && Eligible(m, sel) ensures StrLess(n.name, m.name) {
            if m.name != r.value.name { StrLessTransitive(n.name, r.value.name, m.name); }
          }
          r := Some(n);
        }
      }
    }
    assert nodes[..|nodes|] == nodes;
  }

  lemma PickedIsUnique(nodes: seq<Node>, sel: map<string, string>, m: Node, n: Node)
    requires Picked(nodes, sel, m) && Picked(nodes, sel, n)
    ensures m.name == n.name
  {
    StrLessTrichotomy(m.name, n.name);
  }

  /** The scheduler's choice as a value: a name, which does not depend on the order of the list. */
  ghost function Choice(nodes: seq<Node>, sel: map<string, string>): Option<string> {
    if n :| n in nodes && Picked(nodes, sel, n) then Some(n.name) else None
  }

  lemma ChoiceIsPicked(nodes: seq<Node>, sel: map<string, string>, n: Node)
    requires Picked(nodes, sel, n)
    ensures Choice(nodes, sel) == Some(n.name)
  {
    var m :| m in nodes && Picked(nodes, sel, m) && Choice(nodes, sel) == Some(m.name);
    PickedIsUnique(nodes, sel, m, n);
  }

  lemma ChoiceIgnoresOrder(nodes: seq<Node>, nodes': seq<Node>, sel: map<string, string>)
    requires Members(nodes) == Members(nodes')
    ensures Choice(nodes, sel) == Choice(nodes', sel)
  {
    assert forall n :: n in nodes <==> n in Members(nodes);
    assert forall n :: n in nodes' <==> n in Members(nodes');
    if n :| n in nodes && Picked(nodes, sel, n) {
      assert Picked(nodes', sel, n);
      ChoiceIsPicked(nodes, sel, n);
      ChoiceIsPicked(nodes', sel, n);
    } else {
      forall n | n in nodes' ensures !Picked(nodes', sel, n) {
        assert Picked(nodes', sel, n) ==> Picked(nodes, sel, n);
      }
    }
  }

  // ---- Addresses ----

  ghost function FirstInternal(addresses: seq<NodeAddress>): Option<string> {
    if addresses == [] then None
    else if addresses[0].kind == "InternalIP" then Some(addresses[0].address)
    else FirstInternal(addresses[1..])
  }

  ghost function FirstExternal(addresses: seq<NodeAddress>): string {
    if addresses == [] then ""
    else if addresses[0].kind == "ExternalIP" && addresses[0].address != "" then addresses[0].address
    else FirstExternal(addresses[1..])
  }

  /** The first internal address, else the first non-empty external one, else nothing. */
  ghost function NodeIP(n: Node): string {
    match FirstInternal(n.addresses)
    case Some(a) => a
    case None => FirstExternal(n.addresses)
  }

  ghost predicate FirstAddress(addresses: seq<NodeAddress>, kind: string, k: int)
    requires 0 <= k < |addresses|
  {
    addresses[k].kind == kind && forall j :: 0 <= j < k ==> addresses[j].kind != kind
  }

  ghost predicate FirstNonEmpty(addresses: seq<NodeAddress>, kind: string, k: int)
    requires 0 <= k < |addresses|
  {
    addresses[k].kind == kind && addresses[k].address != ""
    && forall j :: 0 <= j < k ==> addresses[j].kind != kind || addresses[j].address == ""
  }

  lemma {:induction false} FirstInternalExactly(addresses: seq<NodeAddress>)
    ensures forall k :: 0 <= k < |addresses| && FirstAddress(addresses, "InternalIP", k) ==>
      FirstInternal(addresses) == Some(addresses[k].address)
    ensures (forall k :: 0 <= k < |addresses| ==> addresses[k].kind != "InternalIP") ==> FirstInternal(addresses).None?
    decreases |addresses|
  {
    if addresses != [] {
      var rest := addresses[1..];
      FirstInternalExactly(rest);
      forall k | 0 < k < |addresses| && FirstAddress(addresses, "InternalIP", k)
        ensures FirstInternal(addresses) == Some(addresses[k].address)
      {
        assert forall j :: 0 <= j < |rest| ==> rest[j] == addresses[j + 1];
        assert FirstAddress(rest, "InternalIP", k - 1);
      }
    }
  }

  lemma {:induction false} FirstExternalExactly(addresses: seq<NodeAddress>)
    ensures forall k :: 0 <= k < |addresses| && FirstNonEmpty(addresses, "ExternalIP", k) ==>
      FirstExternal(addresses) == addresses[k].address
    ensures (forall k :: 0 <= k < |addresses| ==> addresses[k].kind != "ExternalIP") ==> FirstExternal(addresses) == ""
    decreases |addresses|
  {
    if addresses != [] {
      var rest := addresses[1..];
      FirstExternalExactly(rest);
      forall k | 0 < k < |addresses| && FirstNonEmpty(addresses, "ExternalIP", k)
        ensures FirstExternal(addresses) == addresses[k].address
      {
        assert forall j :: 0 <= j < |rest| ==> rest[j] == addresses[j + 1];
        assert FirstNonEmpty(rest, "ExternalIP", k - 1);
      }
    }
  }

  /** The address by position: the first internal one, else the first external one that is not empty. */
  lemma NodeIPExactly(n: Node)
    ensures forall k :: 0 <= k < |n.addresses| && FirstAddress(n.addresses, "InternalIP", k) ==> NodeIP(n) == n.addresses[k].address
    ensures (forall k :: 0 <= k < |n.addresses| ==> n.addresses[k].kind != "InternalIP") ==>
      && (forall k :: 0 <= k < |n.addresses| && FirstNonEmpty(n.addresses, "ExternalIP", k) ==> NodeIP(n) == n.addresses[k].address)
      && ((forall k :: 0 <= k < |n.addresses| ==> n.addresses[k].kind != "ExternalIP") ==> NodeIP(n) == "")
  {
    FirstInternalExactly(n.addresses);
    FirstExternalExactly(n.addresses);
  }

  method NodeInternalIP(n: Node) returns (ip: string)
    ensures ip == NodeIP(n)
  {
    var ext := "";
    for i := 0 to |n.addresses|
      invariant FirstInternal(n.addresses) == FirstInternal(n.addresses[i..])
      invariant FirstExternal(n.addresses) == if ext == "" then FirstExternal(n.addresses[i..]) else ext
    {
      var a := n.addresses[i];
      if a.kind == "InternalIP" {
        return a.address;
      }
      if a.kind == "ExternalIP" && ext == "" {
        ext := a.address;
      }
    }
    ip := ext;
  }

  // ---- Re-checking a scheduled node ----

  ghost predicate StillValid(nodes: seq<Node>, name: string, sel: map<string, string>) {
    exists n :: n in nodes && n.name == name && StillMatches(sel, n.labels) && Ready(n.conditions)
  }

  /** client.Get by name. */
  method GetNode(nodes: seq<Node>, name: string) returns (r: Option<Node>)
    ensures r.None? <==> forall n :: n in nodes ==> n.name != name
    ensures r.Some? ==> r.value in nodes && r.value.name == name
  {
    for i := 0 to |nodes|
      invariant forall n :: n in nodes[..i] ==> n.name != name
    {
      if nodes[i].name == name {
        return Some(nodes[i]);
      }
      assert nodes[..i + 1] == nodes[..i] + [nodes[i]];
    }
    assert nodes[..|nodes|] == nodes;
    r := None;
  }

  method NodeStillValid(nodes: seq<Node>, name: string, sel: map<string, string>) returns (r: bool)
    requires UniqueNames(nodes)
    ensures r <==> StillValid(nodes, name, sel)
  {
    var n := GetNode(nodes, name);
    if n.None? {
      return false;
    }
    var todo := sel.Keys;
    while todo != {}
      invariant todo <= sel.Keys
      invariant forall k :: k in sel && k !in todo ==> (if k in n.value.labels then n.value.labels[k] else "") == sel[k]
      decreases todo
    {
      var k :| k in todo;
      todo := todo - {k};
      var v := if k in n.value.labels then n.value.labels[k] else "";
      if v != sel[k] {
        assert !StillMatches(sel, n.value.labels);
        return false;
      }
    }
    r := IsNodeReady(n.value);
  }

  /** The re-check reads an absent label as the empty string. */
  lemma StillValidExactly(nodes: seq<Node>, name: string, sel: map<string, string>)
    ensures StillValid(nodes, name, sel) <==> exists n ::
      && n in nodes && n.name == name
      && (forall k :: k in sel ==> (k in n.labels && n.labels[k] == sel[k]) || (k !in n.labels && sel[k] == ""))
      && exists k :: 0 <= k < |n.conditions| && FirstReady(n.conditions, k) && n.conditions[k].status == "True"
  {
    forall n | n in nodes
      ensures Ready(n.conditions) <==>
        exists k :: 0 <= k < |n.conditions| && FirstReady(n.conditions, k) && n.conditions[k].status == "True"
    {
      ReadyExactly(n.conditions);
    }
  }

  /** Whatever the scheduler picks passes the controller's re-check, empty selector values included. */
  lemma PickedIsStillValid(nodes: seq<Node>, sel: map<string, string>, n: Node)
    requires Picked(nodes, sel, n)
    ensures StillValid(nodes, n.name, sel)
  {
    LabelTestsDiffer(sel, n.labels);
  }
}
