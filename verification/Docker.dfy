/** The containers of a Docker daemon, the cache of running nodes, and what a listing shows of both. */
module Docker {
  import opened Wrappers
  import opened Names
  import opened Seqs

  // ---------- the daemon's state ----------

  /** Labels stand for the decimal texts of the ids they carry. */
  datatype Container = Container(id: nat, running: bool, headLabel: nat, nodeLabel: nat)

  type Containers = map<string, Container>

  /** The handle createContainer returns knows the id; getContainer's knows only the name. */
  datatype Handle = ById(name: string, id: nat) | ByName(name: string)

  predicate Resolves(cs: Containers, h: Handle) {
    h.name in cs && (h.ById? ==> cs[h.name].id == h.id)
  }

  function SetRunning(cs: Containers, name: string, running: bool): Containers
    requires name in cs
  {
    cs[name := cs[name].(running := running)]
  }

  /** What best-effort removal of one name can leave: nothing done, stopped only, or gone. */
  predicate Dismantled(cs: Containers, cs': Containers, name: string) {
    cs' == cs || (name in cs && (cs' == cs - {name} || cs' == SetRunning(cs, name, false)))
  }

  predicate IdsBelow(cs: Containers, bound: nat) {
    forall name :: name in cs ==> cs[name].id < bound
  }

  function IdsIn(cs: Containers): set<nat> {
    set name | name in cs :: cs[name].id
  }

  // ---------- the cache of running nodes ----------

  datatype Entry = Entry(hydraNodeId: nat, hydraHeadId: nat, isActive: bool)

  function NodeIds(entries: seq<Entry>): set<nat> {
    set e | e in entries :: e.hydraNodeId
  }

  predicate DistinctNodes(entries: seq<Entry>) {
    forall i, j :: 0 <= i < j < |entries| ==> entries[i].hydraNodeId != entries[j].hydraNodeId
  }

  datatype Listed = Listed(name: string, container: Container)

  predicate DistinctNames(listing: seq<Listed>) {
    forall i, j :: 0 <= i < j < |listing| ==> listing[i].name != listing[j].name
  }

  /** A listing shows every container once, in any order. */
  ghost predicate IsListing(listing: seq<Listed>, cs: Containers) {
    && DistinctNames(listing)
    && (forall l :: l in listing ==> l.name in cs && cs[l.name] == l.container)
    && (forall name :: name in cs ==> Listed(name, cs[name]) in listing)
  }

  function ShownEntry(l: Listed): Option<Entry> {
    if MatchesNodePattern(l.name) && l.container.running
    then Some(Entry(l.container.nodeLabel, l.container.headLabel, l.container.running)) else None
  }

  /** The filter and map of updateHydraContainerStatus. */
  function ActiveNodes(listing: seq<Listed>): seq<Entry> {
    Pick(listing, ShownEntry)
  }

  function NotIn(newcomers: seq<Entry>, known: set<nat>): seq<Entry> {
    if newcomers == [] then [] else
    var e := newcomers[|newcomers| - 1];
    NotIn(newcomers[..|newcomers| - 1], known) + if e.hydraNodeId in known then [] else [e]
  }

  /** The entries cacheActiveNodes adds are those whose node the cache does not hold yet. */
  function Merge(current: seq<Entry>, newcomers: seq<Entry>): seq<Entry> {
    current + NotIn(newcomers, NodeIds(current))
  }

  // ---------- facts about listings and merges ----------

  /** Hydra containers carry the name of the node in their label. */
  predicate Labelled(cs: Containers) {
    forall name :: name in cs && MatchesNodePattern(name) ==> name == NodeName(cs[name].nodeLabel)
  }

  ghost predicate Runs(cs: Containers, nodeId: nat) {
    NodeName(nodeId) in cs && cs[NodeName(nodeId)].running
  }

  ghost function RunningIds(cs: Containers): set<nat> {
    set name | name in cs && MatchesNodePattern(name) && cs[name].running :: cs[name].nodeLabel
  }

  /** The running Hydra nodes are no more than allowed; a limit below zero still allows none. */
  ghost predicate WithinLimit(cs: Containers, limit: int) {
    RunningIds(cs) == {} || |RunningIds(cs)| <= limit
  }

  lemma RunningIdsExact(cs: Containers, nodeId: nat)
    requires Labelled(cs)
    requires NodeName(nodeId) in cs ==> cs[NodeName(nodeId)].nodeLabel == nodeId
    ensures nodeId in RunningIds(cs) <==> Runs(cs, nodeId)
  {
    NodeNameMatches(nodeId);
  }

  lemma ActiveNodesMembers(listing: seq<Listed>, e: Entry)
    ensures e in ActiveNodes(listing) <==> exists i :: 0 <= i < |listing| && ShownEntry(listing[i]) == Some(e)
  {
    PickMembers(listing, ShownEntry, e);
    assert PickedFrom(listing, ShownEntry, e) <==> exists i :: 0 <= i < |listing| && ShownEntry(listing[i]) == Some(e);
  }

  predicate ProperlyNamed(listing: seq<Listed>) {
    forall i :: 0 <= i < |listing| && ShownEntry(listing[i]).Some? ==>
      listing[i].name == NodeName(listing[i].container.nodeLabel)
  }

  lemma ShownBefore(listing: seq<Listed>, e: Entry)
    requires listing != [] && DistinctNames(listing) && ProperlyNamed(listing)
    requires ShownEntry(listing[|listing| - 1]).Some? && e in ActiveNodes(listing[..|listing| - 1])
    ensures e.hydraNodeId != ShownEntry(listing[|listing| - 1]).value.hydraNodeId
  {
    var n := |listing| - 1;
    ActiveNodesMembers(listing[..n], e);
    var k :| 0 <= k < n && ShownEntry(listing[..n][k]) == Some(e);
    assert ShownEntry(listing[k]) == Some(e) && listing[k].name != listing[n].name;
  }

  lemma DistinctAppend(entries: seq<Entry>, e: Entry)
    requires DistinctNodes(entries) && forall c :: c in entries ==> c.hydraNodeId != e.hydraNodeId
    ensures DistinctNodes(entries + [e])
  {
  }

  lemma {:induction false} ActiveNodesDistinct(listing: seq<Listed>)
    requires DistinctNames(listing) && ProperlyNamed(listing)
    ensures DistinctNodes(ActiveNodes(listing))
  {
    if listing != [] {
      var n := |listing| - 1;
      var front := listing[..n];
      assert forall i :: 0 <= i < n ==> front[i] == listing[i];
      ActiveNodesDistinct(front);
      if ShownEntry(listing[n]).Some? {
        forall c | c in ActiveNodes(front) ensures c.hydraNodeId != ShownEntry(listing[n]).value.hydraNodeId {
          ShownBefore(listing, c);
        }
        DistinctAppend(ActiveNodes(front), ShownEntry(listing[n]).value);
      }
    }
  }

  /** A refresh caches exactly the running Hydra nodes, each once. */
  lemma ActiveNodesOfListing(listing: seq<Listed>, cs: Containers)
    requires IsListing(listing, cs) && Labelled(cs)
    ensures NodeIds(ActiveNodes(listing)) == RunningIds(cs)
    ensures DistinctNodes(ActiveNodes(listing))
    ensures forall e :: e in ActiveNodes(listing) ==> e.isActive
  {
    var entries := ActiveNodes(listing);
    forall e | e in entries ensures e.isActive && e.hydraNodeId in RunningIds(cs) {
      ActiveNodesMembers(listing, e);
      var i :| 0 <= i < |listing| && ShownEntry(listing[i]) == Some(e);
      assert listing[i] in listing;
    }
    forall id | id in RunningIds(cs) ensures id in NodeIds(entries) {
      var name :| name in cs && MatchesNodePattern(name) && cs[name].running && cs[name].nodeLabel == id;
      var i :| 0 <= i < |listing| && listing[i] == Listed(name, cs[name]);
      var e := ShownEntry(listing[i]).value;
      ActiveNodesMembers(listing, e);
      assert e in entries && e.hydraNodeId == id;
    }
    assert forall i :: 0 <= i < |listing| ==> listing[i] in listing;
    ActiveNodesDistinct(listing);
  }

  lemma {:induction false} NotInMembers(newcomers: seq<Entry>, known: set<nat>, e: Entry)
    ensures e in NotIn(newcomers, known) <==> e in newcomers && e.hydraNodeId !in known
  {
    if newcomers != [] {
      var n := |newcomers| - 1;
      NotInMembers(newcomers[..n], known, e);
      assert newcomers == newcomers[..n] + [newcomers[n]];
    }
  }

  lemma {:induction false} NotInDistinct(newcomers: seq<Entry>, known: set<nat>)
    requires DistinctNodes(newcomers)
    ensures DistinctNodes(NotIn(newcomers, known))
  {
    if newcomers != [] {
      var n := |newcomers| - 1;
      NotInDistinct(newcomers[..n], known);
      var front := NotIn(newcomers[..n], known);
      forall i | 0 <= i < |front| ensures front[i].hydraNodeId != newcomers[n].hydraNodeId {
        NotInMembers(newcomers[..n], known, front[i]);
        var k :| 0 <= k < n && newcomers[..n][k] == front[i];
        assert newcomers[k] == front[i];
      }
    }
  }

  /** Merging keeps every cached node, adds every new one, and repeats none. */
  lemma MergeFacts(current: seq<Entry>, newcomers: seq<Entry>)
    requires DistinctNodes(current) && DistinctNodes(newcomers)
    ensures NodeIds(Merge(current, newcomers)) == NodeIds(current) + NodeIds(newcomers)
    ensures DistinctNodes(Merge(current, newcomers))
  {
    var known := NodeIds(current);
    var added := NotIn(newcomers, known);
    NotInDistinct(newcomers, known);
    forall e ensures e in added <==> e in newcomers && e.hydraNodeId !in known {
      NotInMembers(newcomers, known, e);
    }
    forall id | id in NodeIds(newcomers) ensures id in NodeIds(Merge(current, newcomers)) {
      var e :| e in newcomers && e.hydraNodeId == id;
      if id in known {
        var c :| c in current && c.hydraNodeId == id;
        assert c in Merge(current, newcomers);
      } else {
        assert e in Merge(current, newcomers);
      }
    }
    forall id | id in NodeIds(current) ensures id in NodeIds(Merge(current, newcomers)) {
      var c :| c in current && c.hydraNodeId == id;
      assert c in Merge(current, newcomers);
    }
    forall i, j | 0 <= i < |current| && 0 <= j < |added|
      ensures current[i].hydraNodeId != added[j].hydraNodeId
    {
      assert current[i] in current && added[j] in added;
    }
  }

  lemma {:induction false} DistinctCount(entries: seq<Entry>)
    requires DistinctNodes(entries)
    ensures |NodeIds(entries)| == |entries|
  {
    if entries != [] {
      var n := |entries| - 1;
      DistinctCount(entries[..n]);
      assert entries == entries[..n] + [entries[n]];
      assert NodeIds(entries) == NodeIds(entries[..n]) + {entries[n].hydraNodeId};
    }
  }
}
