/** What activating, rolling back, removing and restarting a head's nodes does to the containers. */
module ContainerChanges {
  import opened Names
  import opened Docker
  import opened DockerServices
  import opened Readiness
  import opened HeadRows

  predicate SameAt(cs: Containers, cs': Containers, name: string) {
    (name in cs <==> name in cs') && (name in cs ==> cs'[name] == cs[name])
  }

  /** Nothing, something not running, or what was there before. */
  predicate Leftover(cs: Containers, cs': Containers, name: string) {
    name in cs' ==> !cs'[name].running || (name in cs && cs'[name] == cs[name])
  }

  /** The first k nodes have running containers, labelled with head and node, behind the handles. */
  predicate UpTo(cs: Containers, headId: nat, nodes: seq<Node>, handles: seq<Handle>) {
    |handles| <= |nodes| &&
    forall j :: 0 <= j < |handles| ==>
      handles[j].ById? && handles[j].name == NodeName(nodes[j].id) && Resolves(cs, handles[j]) &&
      cs[handles[j].name] == Container(handles[j].id, true, headId, nodes[j].id)
  }

  function NamesOf(nodes: seq<Node>): set<string> {
    set i | 0 <= i < |nodes| :: NodeName(nodes[i].id)
  }

  predicate SameOutside(cs: Containers, cs': Containers, names: set<string>) {
    forall name :: name in cs.Keys + cs'.Keys ==> name in names || SameAt(cs, cs', name)
  }

  /** Containers other than those of the first k nodes are as before, except for the one of node k. */
  predicate RestKept(cs: Containers, cs': Containers, nodes: seq<Node>, k: nat)
    requires k <= |nodes|
  {
    if k == |nodes| then SameOutside(cs, cs', NamesOf(nodes))
    else SameOutside(cs, cs', NamesOf(nodes[..k + 1])) && Leftover(cs, cs', NodeName(nodes[k].id))
  }

  predicate SameLabels(cs: Containers, cs': Containers, name: string) {
    name in cs && name in cs' && cs'[name].headLabel == cs[name].headLabel && cs'[name].nodeLabel == cs[name].nodeLabel
  }

  predicate MadeFor(name: string, c: Container, headId: nat, nodes: seq<Node>) {
    c.headLabel == headId && c.nodeLabel in IdsOf(nodes) && name == NodeName(c.nodeLabel)
  }

  /** Every container is an old one, stopped at most, or labelled for its node of the head. */
  predicate Accounted(cs: Containers, cs': Containers, headId: nat, nodes: seq<Node>) {
    forall name :: name in cs' ==> SameLabels(cs, cs', name) || MadeFor(name, cs'[name], headId, nodes)
  }

  /** The start loop with a turn ahead of it: the handles' containers run, nothing else changed. */
  predicate Progress(cs: Containers, cs': Containers, headId: nat, nodes: seq<Node>, handles: seq<Handle>) {
    && UpTo(cs', headId, nodes, handles)
    && SameOutside(cs, cs', NamesOf(nodes[..|handles|]))
    && Accounted(cs, cs', headId, nodes)
  }

  /** The start loop when it is over, at the end or at a node that failed. */
  predicate StoppedAt(cs: Containers, cs': Containers, headId: nat, nodes: seq<Node>, handles: seq<Handle>) {
    && UpTo(cs', headId, nodes, handles)
    && RestKept(cs, cs', nodes, |handles|)
    && Accounted(cs, cs', headId, nodes)
  }

  /** Every node runs in a container that was not there before, and nothing else changed. */
  ghost predicate AllUp(cs: Containers, cs': Containers, nodes: seq<Node>) {
    SameOutside(cs, cs', NamesOf(nodes)) &&
    forall i :: 0 <= i < |nodes| ==> Runs(cs', nodes[i].id) && cs'[NodeName(nodes[i].id)].id !in IdsIn(cs)
  }

  /** The handles are to containers that are not among the given ones, by id. */
  predicate NewHandles(cs: Containers, handles: seq<Handle>) {
    forall j :: 0 <= j < |handles| ==> handles[j].ById? && handles[j].id !in IdsIn(cs)
  }

  lemma OneMoreNew(cs: Containers, handles: seq<Handle>, h: Handle, bound: nat)
    requires NewHandles(cs, handles) && IdsBelow(cs, bound) && h.ById? && h.id >= bound
    ensures NewHandles(cs, handles + [h])
  {
  }

  lemma AllStarted(cs: Containers, cs': Containers, headId: nat, nodes: seq<Node>, handles: seq<Handle>)
    requires UpTo(cs', headId, nodes, handles) && |handles| == |nodes|
    requires RestKept(cs, cs', nodes, |nodes|) && NewHandles(cs, handles)
    ensures AllUp(cs, cs', nodes)
  {
    forall i | 0 <= i < |nodes|
      ensures Runs(cs', nodes[i].id) && cs'[NodeName(nodes[i].id)].id !in IdsIn(cs)
    {
      assert handles[i].name == NodeName(nodes[i].id);
    }
  }

  /** The containers after a rolled-back activation whose cleanups all went through, when containers had
      been pushed for the first `pushed` nodes: those are gone, the next node's is at most left over and
      was not started, and every other container is as before. */
  predicate RolledBackClean(cs: Containers, cs': Containers, nodes: seq<Node>, pushed: nat) {
    pushed <= |nodes| && RestKept(cs, cs', nodes, pushed) && NamesOf(nodes[..pushed]) !! cs'.Keys
  }

  lemma NamesDiffer(nodes: seq<Node>, i: nat)
    requires DistinctIds(nodes) && i < |nodes|
    ensures forall j :: 0 <= j < |nodes| && j != i ==> NodeName(nodes[j].id) != NodeName(nodes[i].id)
  {
    forall j | 0 <= j < |nodes| && j != i ensures NodeName(nodes[j].id) != NodeName(nodes[i].id) {
      if NodeName(nodes[j].id) == NodeName(nodes[i].id) {
        NodeNameInjective(nodes[j].id, nodes[i].id);
      }
    }
  }

  lemma NamesOfStep(nodes: seq<Node>, i: nat)
    requires i < |nodes|
    ensures NamesOf(nodes[..i + 1]) == NamesOf(nodes[..i]) + {NodeName(nodes[i].id)}
    ensures DistinctIds(nodes) ==> NodeName(nodes[i].id) !in NamesOf(nodes[..i])
    ensures nodes[i].id in IdsOf(nodes)
  {
    assert nodes[..i + 1][i] == nodes[i];
    assert forall j :: 0 <= j < i ==> nodes[..i][j] == nodes[..i + 1][j];
    forall name | name in NamesOf(nodes[..i]) ensures name in NamesOf(nodes[..i + 1]) {
      var j :| 0 <= j < i && name == NodeName(nodes[..i][j].id);
      assert name == NodeName(nodes[..i + 1][j].id);
    }
    if DistinctIds(nodes) {
      NamesDiffer(nodes, i);
    }
  }

  /** One node's container may have been replaced; its labels are the old ones or the node's. */
  predicate Started(cs: Containers, cs': Containers, headId: nat, node: Node) {
    var name := NodeName(node.id);
    && SameOutside(cs, cs', {name})
    && (name in cs' ==> SameLabels(cs, cs', name) || (cs'[name].headLabel == headId && cs'[name].nodeLabel == node.id))
  }

  lemma UpToKept(cs: Containers, cs': Containers, headId: nat, nodes: seq<Node>, handles: seq<Handle>)
    requires |handles| < |nodes| && DistinctIds(nodes)
    requires UpTo(cs, headId, nodes, handles)
    requires Started(cs, cs', headId, nodes[|handles|])
    ensures UpTo(cs', headId, nodes, handles)
  {
    NamesDiffer(nodes, |handles|);
    forall j | 0 <= j < |handles| ensures SameAt(cs, cs', handles[j].name) {
      assert handles[j].name in cs.Keys + cs'.Keys;
    }
  }

  lemma OutsideKept(cs0: Containers, cs: Containers, cs': Containers, headId: nat, nodes: seq<Node>, i: nat)
    requires i < |nodes|
    requires SameOutside(cs0, cs, NamesOf(nodes[..i]))
    requires Started(cs, cs', headId, nodes[i])
    ensures SameOutside(cs0, cs', NamesOf(nodes[..i + 1]))
  {
    NamesOfStep(nodes, i);
    forall other | other in cs0.Keys + cs'.Keys && other !in NamesOf(nodes[..i + 1])
      ensures SameAt(cs0, cs', other)
    {
      assert other in cs.Keys + cs'.Keys ==> SameAt(cs, cs', other);
      assert other in cs0.Keys + cs.Keys ==> SameAt(cs0, cs, other);
    }
  }

  lemma AccountedKept(cs0: Containers, cs: Containers, cs': Containers, headId: nat, nodes: seq<Node>, i: nat)
    requires i < |nodes|
    requires Accounted(cs0, cs, headId, nodes)
    requires Started(cs, cs', headId, nodes[i])
    ensures Accounted(cs0, cs', headId, nodes)
  {
    assert nodes[i].id in IdsOf(nodes);
    forall other | other in cs' ensures SameLabels(cs0, cs', other) || MadeFor(other, cs'[other], headId, nodes) {
      if other != NodeName(nodes[i].id) {
        assert other in cs.Keys + cs'.Keys && SameAt(cs, cs', other);
      }
    }
  }

  /** What the i-th turn of the start loop keeps, given what it did to the i-th node's container. */
  lemma StartStep(cs0: Containers, cs: Containers, cs': Containers, headId: nat, nodes: seq<Node>, handles: seq<Handle>)
    requires |handles| < |nodes| && DistinctIds(nodes)
    requires Progress(cs0, cs, headId, nodes, handles)
    requires Started(cs, cs', headId, nodes[|handles|])
    ensures Leftover(cs, cs', NodeName(nodes[|handles|].id)) ==> StoppedAt(cs0, cs', headId, nodes, handles)
    ensures forall h :: UpTo(cs', headId, nodes, handles + [h]) ==> Progress(cs0, cs', headId, nodes, handles + [h])
    ensures UpTo(cs', headId, nodes, handles)
  {
    var i := |handles|;
    UpToKept(cs, cs', headId, nodes, handles);
    OutsideKept(cs0, cs, cs', headId, nodes, i);
    AccountedKept(cs0, cs, cs', headId, nodes, i);
    NamesOfStep(nodes, i);
    var name := NodeName(nodes[i].id);
    assert name in cs0.Keys + cs.Keys ==> SameAt(cs0, cs, name);
    assert nodes[..|nodes|] == nodes;
  }

  lemma SameImpliesRest(cs: Containers, cs': Containers, nodes: seq<Node>, k: nat)
    requires k <= |nodes| && DistinctIds(nodes)
    requires SameOutside(cs, cs', NamesOf(nodes[..k]))
    ensures RestKept(cs, cs', nodes, k)
  {
    assert nodes[..|nodes|] == nodes;
    if k < |nodes| {
      NamesOfStep(nodes, k);
      var name := NodeName(nodes[k].id);
      assert name in cs || name in cs' ==> SameAt(cs, cs', name);
    }
  }

  lemma ProgressRest(cs: Containers, cs': Containers, headId: nat, nodes: seq<Node>, handles: seq<Handle>)
    requires DistinctIds(nodes) && Progress(cs, cs', headId, nodes, handles)
    ensures StoppedAt(cs, cs', headId, nodes, handles)
  {
    SameImpliesRest(cs, cs', nodes, |handles|);
  }

  function HandleNames(handles: seq<Handle>): set<string> {
    set i | 0 <= i < |handles| :: handles[i].name
  }

  lemma HandleNamesStep(handles: seq<Handle>, i: nat)
    requires i < |handles|
    ensures HandleNames(handles[..i + 1]) == HandleNames(handles[..i]) + {handles[i].name}
  {
    assert handles[..i + 1][i] == handles[i];
    assert forall j :: 0 <= j < i ==> handles[..i][j] == handles[..i + 1][j];
    forall name | name in HandleNames(handles[..i]) ensures name in HandleNames(handles[..i + 1]) {
      var j :| 0 <= j < i && name == handles[..i][j].name;
      assert name == handles[..i + 1][j].name;
    }
  }

  /** Containers under the given names may be stopped or gone; the others are as before. */
  predicate Cleared(cs: Containers, cs': Containers, names: set<string>) {
    && SameOutside(cs, cs', names)
    && forall name :: name in cs' ==> name in cs && (cs'[name] == cs[name] || cs'[name] == cs[name].(running := false))
  }

  lemma StartedContainersOk(cs: Containers, cs': Containers, heads: Heads, nextHeadId: nat, nextNodeId: nat, id: nat)
    requires id in heads && RowsOk(heads, nextHeadId, nextNodeId) && ContainersOk(cs, heads, nextNodeId)
    requires Accounted(cs, cs', id, heads[id].nodes)
    ensures ContainersOk(cs', heads, nextNodeId)
  {
    forall name | name in cs' && !SameLabels(cs, cs', name) ensures Owns(heads, id, cs'[name].nodeLabel) {
      assert MadeFor(name, cs'[name], id, heads[id].nodes);
    }
    ContainersOkKept(cs, cs', heads, nextHeadId, nextNodeId, id);
  }

  /** A handle's container that is still there is one whose cleanup failed, by name. */
  predicate StuckFailed(handles: seq<Handle>, cs: Containers, failed: seq<string>) {
    forall j :: 0 <= j < |handles| && Resolves(cs, handles[j]) ==> handles[j].name in failed
  }

  /** Of the containers of the first `pushed` nodes only those are left whose cleanup failed. */
  predicate OnlyFailedLeft(nodes: seq<Node>, pushed: nat, cs: Containers, failed: seq<string>) {
    pushed <= |nodes| &&
    forall j :: 0 <= j < pushed && NodeName(nodes[j].id) in cs ==> NodeName(nodes[j].id) in failed
  }

  lemma StuckStep(handles: seq<Handle>, i: nat, cs: Containers, cs': Containers, failed: seq<string>,
                  failed': seq<string>)
    requires i < |handles| && StuckFailed(handles[..i], cs, failed) && failed <= failed'
    requires Dismantled(cs, cs', handles[i].name)
    requires Resolves(cs', handles[i]) ==> handles[i].name in failed'
    ensures StuckFailed(handles[..i + 1], cs', failed')
  {
    forall j | 0 <= j < i + 1 && Resolves(cs', handles[j]) ensures handles[j].name in failed' {
      if j < i {
        assert handles[..i][j] == handles[j] && Resolves(cs, handles[j]);
      }
    }
  }

  lemma LeftFailedEarlier(nodes: seq<Node>, pushed: nat, cs: Containers, log: seq<string>, from: nat, later: nat)
    requires from <= later <= |log| && OnlyFailedLeft(nodes, pushed, cs, log[later..])
    ensures OnlyFailedLeft(nodes, pushed, cs, log[from..])
  {
    forall name | name in log[later..] ensures name in log[from..] {
      var k :| 0 <= k < |log| - later && log[later..][k] == name;
      assert log[from..][later - from + k] == name;
    }
  }

  lemma StuckByName(headId: nat, nodes: seq<Node>, handles: seq<Handle>, cs: Containers, cs': Containers,
                    failed: seq<string>)
    requires UpTo(cs, headId, nodes, handles) && Cleared(cs, cs', HandleNames(handles))
    requires StuckFailed(handles, cs', failed)
    ensures OnlyFailedLeft(nodes, |handles|, cs', failed)
    ensures failed == [] ==> forall j :: 0 <= j < |handles| ==> !Resolves(cs', handles[j])
  {
    forall j | 0 <= j < |handles| && NodeName(nodes[j].id) in cs' ensures NodeName(nodes[j].id) in failed {
      assert Resolves(cs', handles[j]);
    }
  }

  lemma {:induction false} EntriesOfNodes(cs: Containers, headId: nat, nodes: seq<Node>, handles: seq<Handle>)
    requires UpTo(cs, headId, nodes, handles) && |handles| == |nodes| && DistinctIds(nodes)
    ensures |EntriesOf(cs, handles)| == |nodes|
    ensures forall i :: 0 <= i < |nodes| ==> EntriesOf(cs, handles)[i] == Entry(nodes[i].id, headId, true)
    ensures DistinctNodes(EntriesOf(cs, handles)) && NodeIds(EntriesOf(cs, handles)) == IdsOf(nodes)
    decreases |nodes|
  {
    if nodes != [] {
      var n := |nodes| - 1;
      assert UpTo(cs, headId, nodes[..n], handles[..n]);
      EntriesOfNodes(cs, headId, nodes[..n], handles[..n]);
    }
    var entries := EntriesOf(cs, handles);
    forall id | id in IdsOf(nodes) ensures id in NodeIds(entries) {
      var i :| 0 <= i < |nodes| && nodes[i].id == id;
      assert entries[i] in entries;
    }
  }

  lemma UpToNames(cs: Containers, headId: nat, nodes: seq<Node>, handles: seq<Handle>)
    requires UpTo(cs, headId, nodes, handles)
    ensures HandleNames(handles) == NamesOf(nodes[..|handles|])
  {
    var k := |handles|;
    forall name | name in NamesOf(nodes[..k]) ensures name in HandleNames(handles) {
      var i :| 0 <= i < k && name == NodeName(nodes[..k][i].id);
      assert handles[i].name == name;
    }
    forall name | name in HandleNames(handles) ensures name in NamesOf(nodes[..k]) {
      var i :| 0 <= i < k && name == handles[i].name;
      assert nodes[..k][i] == nodes[i];
    }
  }

  lemma NamesOfPrefix(nodes: seq<Node>, k: nat)
    requires k <= |nodes|
    ensures NamesOf(nodes[..k]) <= NamesOf(nodes)
  {
    forall name | name in NamesOf(nodes[..k]) ensures name in NamesOf(nodes) {
      var i :| 0 <= i < k && name == NodeName(nodes[..k][i].id);
      assert nodes[..k][i] == nodes[i];
    }
  }

  lemma OutsideThenCleared(cs0: Containers, cs: Containers, cs': Containers, names: set<string>, inner: set<string>)
    requires SameOutside(cs0, cs, names) && Cleared(cs, cs', inner) && inner <= names
    ensures SameOutside(cs0, cs', names)
  {
    forall name | name in cs0.Keys + cs'.Keys && name !in names ensures SameAt(cs0, cs', name) {
      assert name in cs0.Keys + cs.Keys ==> SameAt(cs0, cs, name);
      assert name in cs.Keys + cs'.Keys ==> SameAt(cs, cs', name);
    }
  }

  lemma TakenDown(cs0: Containers, cs: Containers, cs': Containers, headId: nat, nodes: seq<Node>,
                  handles: seq<Handle>, cleaned: bool)
    requires DistinctIds(nodes) && UpTo(cs, headId, nodes, handles)
    requires RestKept(cs0, cs, nodes, |handles|)
    requires Cleared(cs, cs', HandleNames(handles))
    requires cleaned ==> forall j :: 0 <= j < |handles| ==> !Resolves(cs', handles[j])
    ensures SameOutside(cs0, cs', NamesOf(nodes))
    ensures cleaned ==> RolledBackClean(cs0, cs', nodes, |handles|)
  {
    var k := |handles|;
    UpToNames(cs, headId, nodes, handles);
    NamesOfPrefix(nodes, k);
    assert nodes[..|nodes|] == nodes;
    if k == |nodes| {
      OutsideThenCleared(cs0, cs, cs', NamesOf(nodes), HandleNames(handles));
    } else {
      NamesOfStep(nodes, k);
      NamesOfPrefix(nodes, k + 1);
      OutsideThenCleared(cs0, cs, cs', NamesOf(nodes[..k + 1]), HandleNames(handles));
      var name := NodeName(nodes[k].id);
      assert name in cs.Keys + cs'.Keys ==> SameAt(cs, cs', name);
    }
    assert RestKept(cs0, cs', nodes, k);
    if cleaned {
      forall name | name in HandleNames(handles) ensures name !in cs' {
        var j :| 0 <= j < k && handles[j].name == name;
        assert !Resolves(cs', handles[j]);
      }
    }
  }

  lemma ClearedStep(cs0: Containers, cs: Containers, cs': Containers, nodes: seq<Node>, i: nat)
    requires i < |nodes|
    requires Cleared(cs0, cs, NamesOf(nodes[..i])) && Dismantled(cs, cs', NodeName(nodes[i].id))
    ensures Cleared(cs0, cs', NamesOf(nodes[..i + 1]))
  {
    NamesOfStep(nodes, i);
    forall name | name in cs0.Keys + cs'.Keys && name !in NamesOf(nodes[..i + 1]) ensures SameAt(cs0, cs', name) {
      assert name in cs0.Keys + cs.Keys ==> SameAt(cs0, cs, name);
    }
  }

  lemma ClearedContainersOk(cs: Containers, cs': Containers, names: set<string>, heads: Heads, nextHeadId: nat,
                             nextNodeId: nat)
    requires RowsOk(heads, nextHeadId, nextNodeId) && ContainersOk(cs, heads, nextNodeId)
    requires Cleared(cs, cs', names)
    ensures ContainersOk(cs', heads, nextNodeId)
  {
    ContainersOkKept(cs, cs', heads, nextHeadId, nextNodeId, 0);
  }

  /** Containers under the given names may have changed between running and stopped, nothing else. */
  predicate Bounced(cs: Containers, cs': Containers, names: set<string>) {
    && cs.Keys == cs'.Keys
    && SameOutside(cs, cs', names)
    && forall name :: name in cs ==> cs'[name] == cs[name].(running := cs'[name].running)
  }

  lemma BouncedStep(cs0: Containers, cs: Containers, cs': Containers, nodes: seq<Node>, i: nat)
    requires i < |nodes|
    requires Bounced(cs0, cs, NamesOf(nodes[..i]))
    requires cs' == cs ||
             (NodeName(nodes[i].id) in cs && exists running :: cs' == SetRunning(cs, NodeName(nodes[i].id), running))
    ensures Bounced(cs0, cs', NamesOf(nodes[..i + 1]))
  {
    NamesOfStep(nodes, i);
    forall name | name in cs0.Keys + cs'.Keys && name !in NamesOf(nodes[..i + 1]) ensures SameAt(cs0, cs', name) {
      assert name in cs0.Keys + cs.Keys ==> SameAt(cs0, cs, name);
    }
  }

  /** The first i nodes' containers have been restarted, for certain if Docker fails nothing and they exist. */
  ghost predicate BouncedUpTo(cs: Containers, cs': Containers, nodes: seq<Node>, i: nat, healthy: bool)
    requires i <= |nodes|
  {
    Bounced(cs, cs', NamesOf(nodes[..i])) && (healthy && NamesOf(nodes) <= cs.Keys ==> AllRun(cs', nodes[..i]))
  }

  lemma BouncedUpToStep(cs0: Containers, cs: Containers, cs': Containers, nodes: seq<Node>, i: nat, healthy: bool)
    requires i < |nodes| && BouncedUpTo(cs0, cs, nodes, i, healthy)
    requires cs' == cs ||
             (NodeName(nodes[i].id) in cs && exists running :: cs' == SetRunning(cs, NodeName(nodes[i].id), running))
    requires healthy && NodeName(nodes[i].id) in cs ==> cs' == SetRunning(cs, NodeName(nodes[i].id), true)
    ensures BouncedUpTo(cs0, cs', nodes, i + 1, healthy)
  {
    BouncedStep(cs0, cs, cs', nodes, i);
    assert NodeName(nodes[i].id) in NamesOf(nodes);
    assert forall j :: 0 <= j < i ==> nodes[..i][j] == nodes[..i + 1][j];
  }

  lemma BouncedContainersOk(cs: Containers, cs': Containers, names: set<string>, heads: Heads, nextHeadId: nat,
                             nextNodeId: nat)
    requires RowsOk(heads, nextHeadId, nextNodeId) && ContainersOk(cs, heads, nextNodeId)
    requires Bounced(cs, cs', names)
    ensures ContainersOk(cs', heads, nextNodeId)
  {
    ContainersOkKept(cs, cs', heads, nextHeadId, nextNodeId, 0);
  }

  lemma LabelOfNode(cs: Containers, heads: Heads, nextNodeId: nat, nodeId: nat)
    requires ContainersOk(cs, heads, nextNodeId) && NodeName(nodeId) in cs
    ensures cs[NodeName(nodeId)].nodeLabel == nodeId
  {
    var name := NodeName(nodeId);
    NodeNameMatches(nodeId);
    assert ContainerOk(name, cs[name], heads, nextNodeId);
    NodeNameInjective(nodeId, cs[name].nodeLabel);
  }

  lemma {:induction false} EntriesPointwise(cs: Containers, handles: seq<Handle>)
    requires forall j :: 0 <= j < |handles| ==> handles[j].name in cs
    ensures |EntriesOf(cs, handles)| == |handles|
    ensures forall i :: 0 <= i < |handles| ==> EntriesOf(cs, handles)[i].hydraNodeId == cs[handles[i].name].nodeLabel
  {
    if handles != [] {
      var n := |handles| - 1;
      var front := handles[..n];
      assert forall j :: 0 <= j < n ==> front[j] == handles[j];
      EntriesPointwise(cs, front);
    }
  }

  /** The containers of a head's nodes carry distinct node labels, so they cache as distinct nodes. */
  lemma BouncedEntries(cs: Containers, heads: Heads, nextNodeId: nat, nodes: seq<Node>, handles: seq<Handle>)
    requires ContainersOk(cs, heads, nextNodeId) && DistinctIds(nodes)
    requires |handles| == |nodes|
    requires forall j :: 0 <= j < |handles| ==> handles[j] == ByName(NodeName(nodes[j].id)) && handles[j].name in cs
    ensures DistinctNodes(EntriesOf(cs, handles)) && NodeIds(EntriesOf(cs, handles)) == IdsOf(nodes)
  {
    EntriesPointwise(cs, handles);
    var entries := EntriesOf(cs, handles);
    forall i | 0 <= i < |nodes| ensures entries[i] in entries && entries[i].hydraNodeId == nodes[i].id {
      LabelOfNode(cs, heads, nextNodeId, nodes[i].id);
    }
  }
}
