/** DockerService: the calls it makes, any of which may fail, and its cache of running nodes. */
module DockerServices {
  import opened Wrappers
  import opened Docker

  datatype Inspection = Found(container: Container) | NotFound | InspectFailed

  /** The cache entries read off the labels of the given containers. */
  function EntriesOf(cs: Containers, handles: seq<Handle>): seq<Entry> {
    if handles == [] then [] else
    var h := handles[|handles| - 1];
    EntriesOf(cs, handles[..|handles| - 1]) +
    if h.name in cs then [Entry(cs[h.name].nodeLabel, cs[h.name].headLabel, true)] else []
  }

  /** What the attempts to create a container of that name leave before one succeeds: nothing, or the last
      container they created, not running. New ids start at firstId. */
  predicate Attempted(cs0: Containers, cs: Containers, name: string, headLabel: nat, nodeLabel: nat,
                      container: Option<Handle>, firstId: nat) {
    && (container.Some? ==>
          container.value.ById? && container.value.name == name && name !in cs0 && container.value.id >= firstId)
    && (cs == cs0 ||
        (container.Some? && cs == cs0[name := Container(container.value.id, false, headLabel, nodeLabel)]))
  }

  /** Creates that found the name taken, against cleanups that threw: if the name is still taken before an
      attempt, the cleanup before it threw and no create has clashed over that yet. */
  predicate Paid(clashes: int, failed: int, taken: bool, attempt: nat, retryCount: nat) {
    clashes <= failed <= attempt && (taken && attempt <= retryCount ==> clashes < failed)
  }

  /** Cleaning up between two attempts, with or without success. */
  lemma CleanedBetween(cs0: Containers, cs: Containers, cs': Containers, name: string, headLabel: nat, nodeLabel: nat,
                       container: Option<Handle>, firstId: nat)
    requires Attempted(cs0, cs, name, headLabel, nodeLabel, container, firstId) && container.Some?
    requires Dismantled(cs, cs', name)
    ensures Attempted(cs0, cs', name, headLabel, nodeLabel, container, firstId)
  {
    if cs' == cs - {name} {
      assert cs' == cs0;
    }
  }

  class DockerService {
    var containers: Containers          // the daemon's containers by name
    var nextId: nat
    var creates: nat                    // create calls made so far
    var clashes: nat                    // those of them whose name was taken
    var restarts: seq<string>           // the names restart was called for, in order
    var failedCleanups: seq<string>     // the names whose cleanup threw, in order
    var activeNodes: seq<Entry>         // the cache entry, [] while it is missing
    var refreshes: seq<seq<Entry>>      // refreshes that have listed and not yet written the cache
    var healthy: bool                   // the daemon fails no call its state allows; set from outside

    ghost predicate Valid()
      reads this
    {
      IdsBelow(containers, nextId)
    }

    constructor (healthy: bool)
      ensures Valid() && containers == map[] && activeNodes == [] && refreshes == [] && this.healthy == healthy
    {
      containers, nextId, activeNodes, refreshes := map[], 0, [], [];
      creates, clashes, restarts, failedCleanups := 0, 0, [], [];
      this.healthy := healthy;
    }

    // ---------- daemon calls: a failed one changes nothing ----------

    method ApiCreate(name: string, headLabel: nat, nodeLabel: nat) returns (r: Option<Handle>)
      requires Valid()
      modifies `containers, `nextId, `creates, `clashes
      ensures Valid() && creates == old(creates) + 1
      ensures clashes == old(clashes) + if name in old(containers) then 1 else 0
      ensures healthy && name !in old(containers) ==> r.Some?
      ensures r.None? ==> containers == old(containers)
      ensures nextId >= old(nextId)
      ensures r.Some? ==> name !in old(containers) && r.value == ById(name, old(nextId)) &&
                          containers == old(containers)[name := Container(old(nextId), false, headLabel, nodeLabel)]
    {
      var up: bool := *;
      creates := creates + 1;
      clashes := clashes + if name in containers then 1 else 0;
      if !(up || healthy) || name in containers {
        return None;
      }
      containers := containers[name := Container(nextId, false, headLabel, nodeLabel)];
      nextId := nextId + 1;
      return Some(ById(name, nextId - 1));
    }

    method ApiInspect(h: Handle) returns (r: Inspection)
      ensures r.Found? ==> Resolves(containers, h) && r.container == containers[h.name]
      ensures r.NotFound? ==> !Resolves(containers, h)
      ensures healthy ==> !r.InspectFailed?
    {
      var up: bool := *;
      r := if !(up || healthy) then InspectFailed
           else if Resolves(containers, h) then Found(containers[h.name]) else NotFound;
    }

    method ApiStart(h: Handle) returns (ok: bool)
      requires Valid()
      modifies `containers
      ensures Valid()
      ensures healthy && Resolves(old(containers), h) ==> ok
      ensures !ok ==> containers == old(containers)
      ensures ok ==> Resolves(old(containers), h) && containers == SetRunning(old(containers), h.name, true)
    {
      ok := *;
      ok := (ok || healthy) && Resolves(containers, h);
      if ok {
        containers := SetRunning(containers, h.name, true);
      }
    }

    method ApiStop(h: Handle) returns (ok: bool)
      requires Valid()
      modifies `containers
      ensures Valid()
      ensures healthy && Resolves(old(containers), h) ==> ok
      ensures !ok ==> containers == old(containers)
      ensures ok ==> Resolves(old(containers), h) && containers == SetRunning(old(containers), h.name, false)
    {
      ok := *;
      ok := (ok || healthy) && Resolves(containers, h);
      if ok {
        containers := SetRunning(containers, h.name, false);
      }
    }

    /** Docker refuses to remove a running container. */
    method ApiRemove(h: Handle) returns (ok: bool)
      requires Valid()
      modifies `containers
      ensures Valid()
      ensures healthy && Resolves(old(containers), h) && !old(containers)[h.name].running ==> ok
      ensures !ok ==> containers == old(containers)
      ensures ok ==> Resolves(old(containers), h) && containers == old(containers) - {h.name}
    {
      ok := *;
      ok := (ok || healthy) && Resolves(containers, h) && !containers[h.name].running;
      if ok {
        containers := containers - {h.name};
      }
    }

    /** A restart that fails half-way leaves the container stopped. */
    method ApiRestart(h: Handle) returns (ok: bool)
      requires Valid()
      modifies `containers, `restarts
      ensures Valid() && restarts == old(restarts) + [h.name]
      ensures healthy && Resolves(old(containers), h) ==> ok
      ensures ok ==> Resolves(old(containers), h) && containers == SetRunning(old(containers), h.name, true)
      ensures !ok ==> containers == old(containers) ||
                      (Resolves(old(containers), h) && containers == SetRunning(old(containers), h.name, false))
    {
      ok := *;
      ok := ok || healthy;
      restarts := restarts + [h.name];
      var stopped: bool := *;
      if !Resolves(containers, h) {
        ok := false;
      } else if ok {
        containers := SetRunning(containers, h.name, true);
      } else if stopped {
        containers := SetRunning(containers, h.name, false);
      }
    }

    method ApiList() returns (r: Option<seq<Listed>>)
      ensures healthy ==> r.Some?
      ensures r.Some? ==> IsListing(r.value, containers)
    {
      var up: bool := *;
      if !(up || healthy) {
        return None;
      }
      var listing: seq<Listed> := [];
      var left := containers.Keys;
      while left != {}
        invariant left <= containers.Keys
        invariant IsListing(listing, containers - left)
        decreases left
      {
        var name :| name in left;
        var before, shown := listing, containers - left;
        listing := listing + [Listed(name, containers[name])];
        left := left - {name};
        forall seen | seen in containers - left ensures Listed(seen, containers[seen]) in listing {
          if seen == name {
            assert listing[|before|] == Listed(name, containers[name]);
          } else {
            assert seen in shown && Listed(seen, shown[seen]) in before;
          }
        }
        forall i, j | 0 <= i < j < |listing| ensures listing[i].name != listing[j].name {
          assert listing[i] in before;
        }
      }
      assert containers - {} == containers;
      r := Some(listing);
    }

    // ---------- removal ----------

    /** The try block of cleanupContainer; a 404 counts as cleaned up. */
    method StopAndRemove(h: Handle) returns (ok: bool)
      requires Valid()
      modifies `containers
      ensures Valid()
      ensures healthy ==> ok
      ensures ok ==> containers == if Resolves(old(containers), h) then old(containers) - {h.name} else old(containers)
      ensures !ok ==> containers == old(containers) ||
                      (Resolves(old(containers), h) && containers == SetRunning(old(containers), h.name, false))
    {
      var state := ApiInspect(h);
      match state
      case NotFound => return true;
      case InspectFailed => return false;
      case Found(c) =>
        if c.running {
          var stopped := ApiStop(h);
          if !stopped { return false; }
        }
        ok := ApiRemove(h);
        if ok {
          assert containers == old(containers) - {h.name};
        }
    }

    /** Returns false where the source rethrows. */
    method CleanupContainer(h: Handle) returns (ok: bool)
      requires Valid()
      modifies `containers, `failedCleanups
      ensures Valid()
      ensures healthy ==> ok
      ensures failedCleanups == old(failedCleanups) + if ok then [] else [h.name]
      ensures ok ==> containers == if Resolves(old(containers), h) then old(containers) - {h.name} else old(containers)
      ensures !ok ==> containers == old(containers) ||
                      (Resolves(old(containers), h) && containers == SetRunning(old(containers), h.name, false))
    {
      ok := StopAndRemove(h);
      if !ok {
        failedCleanups := failedCleanups + [h.name];
      }
    }

    method HandleDockerContainerExist(name: string)
      requires Valid()
      modifies `containers
      ensures Valid() && Dismantled(old(containers), containers, name)
      ensures healthy ==> containers == old(containers) - {name}
    {
      var state := ApiInspect(ByName(name));
      if state.Found? {
        if state.container.running {
          var stopped := ApiStop(ByName(name));
          if !stopped { return; }
        }
        var removed := ApiRemove(ByName(name));
        if removed {
          assert containers == old(containers) - {name};
        }
      }
    }

    method RemoveContainerByName(name: string)
      requires Valid()
      modifies `containers
      ensures Valid() && Dismantled(old(containers), containers, name)
      ensures healthy ==> containers == old(containers) - {name}
    {
      var state := ApiInspect(ByName(name));
      if state.Found? {
        if state.container.running {
          var stopped := ApiStop(ByName(name));
          if !stopped { return; }
        }
        var removed := ApiRemove(ByName(name));
        if removed {
          assert containers == old(containers) - {name};
        }
      }
    }

    // ---------- creation with retries ----------

    /** Between two attempts the last container created, if any, is cleaned up; one that stays has its name
        logged. cs0 is Docker before the first attempt. */
    method CleanUpAttempt(container: Option<Handle>, name: string, headLabel: nat, nodeLabel: nat,
                          ghost cs0: Containers, ghost firstId: nat)
      requires Valid() && Attempted(cs0, containers, name, headLabel, nodeLabel, container, firstId)
      modifies `containers, `failedCleanups
      ensures Valid() && Attempted(cs0, containers, name, headLabel, nodeLabel, container, firstId)
      ensures old(failedCleanups) <= failedCleanups && |failedCleanups| <= |old(failedCleanups)| + 1
      ensures healthy ==> failedCleanups == old(failedCleanups)
      ensures name !in cs0 && name in containers ==> |failedCleanups| == |old(failedCleanups)| + 1
    {
      if container.Some? {
        var _ := CleanupContainer(container.value);
        CleanedBetween(cs0, old(containers), containers, name, headLabel, nodeLabel, container, firstId);
      }
    }

    /** Whatever fails: it gives up after retryCount + 1 creates and no sooner, and finds the name taken no
        more often than a cleanup threw. Success is one new running container of that name; failure leaves
        at most one new container of that name, not running; every other name is untouched. A container
        that already had the name is never touched, and makes the call fail. */
    method CreateContainer(name: string, headLabel: nat, nodeLabel: nat, retryCount: nat) returns (r: Option<Handle>)
      requires Valid()
      modifies `containers, `nextId, `creates, `clashes, `failedCleanups
      ensures Valid()
      ensures old(creates) < creates <= old(creates) + retryCount + 1
      ensures r.None? ==> creates == old(creates) + retryCount + 1
      ensures name !in old(containers) ==>
        clashes - old(clashes) <= |failedCleanups| - |old(failedCleanups)| <= creates - old(creates)
      ensures old(failedCleanups) <= failedCleanups && (healthy ==> failedCleanups == old(failedCleanups))
      ensures healthy && name !in old(containers) ==> r.Some? && creates == old(creates) + 1
      ensures name in old(containers) ==> r.None? && containers == old(containers)
      ensures r.Some? ==> r.value.ById? && r.value.name == name && r.value.id >= old(nextId) &&
                          containers == old(containers)[name := Container(r.value.id, true, headLabel, nodeLabel)]
      ensures nextId >= old(nextId)
      ensures r.None? && name !in old(containers) ==>
                containers == old(containers) ||
                (name in containers &&
                 containers == old(containers)[name := Container(containers[name].id, false, headLabel, nodeLabel)])
    {
      var container: Option<Handle> := None;
      var attempt := 0;
      while attempt <= retryCount
        invariant attempt <= retryCount + 1
        invariant Valid() && creates == old(creates) + attempt
        invariant old(failedCleanups) <= failedCleanups && (healthy ==> failedCleanups == old(failedCleanups))
        invariant name !in old(containers) ==>
          Paid(clashes - old(clashes), |failedCleanups| - |old(failedCleanups)|, name in containers, attempt,
               retryCount)
        invariant healthy && name !in old(containers) ==> attempt == 0 && container.None?
        invariant nextId >= old(nextId)
        invariant Attempted(old(containers), containers, name, headLabel, nodeLabel, container, old(nextId))
      {
        var created := ApiCreate(name, headLabel, nodeLabel);
        if created.Some? {
          container := created;
          var started := ApiStart(created.value);
          if started {
            return created;
          }
        }
        if attempt < retryCount {
          CleanUpAttempt(container, name, headLabel, nodeLabel, old(containers), old(nextId));
        }
        attempt := attempt + 1;
      }
      return None;
    }

    // ---------- the cache ----------

    /** updateHydraContainerStatus up to its listing; the cache write follows in a later turn, and a
        failed listing writes an empty cache. */
    method UpdateHydraContainerStatus()
      modifies `refreshes
      ensures |refreshes| == |old(refreshes)| + 1 && refreshes[..|old(refreshes)|] == old(refreshes)
      ensures (!healthy && refreshes[|old(refreshes)|] == []) ||
              exists listing :: IsListing(listing, containers) && refreshes[|old(refreshes)|] == ActiveNodes(listing)
    {
      var listing := ApiList();
      refreshes := refreshes + [if listing.Some? then ActiveNodes(listing.value) else []];
    }

    method FinishRefresh(i: nat)
      requires i < |refreshes|
      modifies `activeNodes, `refreshes
      ensures activeNodes == old(refreshes)[i]
      ensures refreshes == old(refreshes)[..i] + old(refreshes)[i + 1..]
    {
      activeNodes := refreshes[i];
      refreshes := refreshes[..i] + refreshes[i + 1..];
    }

    /** Fails, leaving the cache alone, unless every container is seen running. */
    method CacheActiveNodes(handles: seq<Handle>) returns (ok: bool)
      modifies `activeNodes
      ensures !ok ==> activeNodes == old(activeNodes)
      ensures healthy && (forall h :: h in handles ==> Resolves(containers, h) && containers[h.name].running) ==> ok
      ensures ok ==> (forall h :: h in handles ==> Resolves(containers, h) && containers[h.name].running)
      ensures ok ==> activeNodes == Merge(old(activeNodes), EntriesOf(containers, handles))
    {
      var newcomers: seq<Entry> := [];
      for i := 0 to |handles|
        invariant forall j :: 0 <= j < i ==> Resolves(containers, handles[j]) && containers[handles[j].name].running
        invariant newcomers == EntriesOf(containers, handles[..i])
        invariant activeNodes == old(activeNodes)
      {
        var info := ApiInspect(handles[i]);
        if !info.Found? || !info.container.running {
          return false;
        }
        newcomers := newcomers + [Entry(info.container.nodeLabel, info.container.headLabel, true)];
        assert handles[..i + 1][..i] == handles[..i];
      }
      assert handles[..|handles|] == handles;
      activeNodes := Merge(activeNodes, newcomers);
      ok := true;
    }

    method CheckContainerRunning(name: string) returns (running: bool)
      ensures running ==> name in containers && containers[name].running
      ensures healthy ==> (running <==> name in containers && containers[name].running)
    {
      var state := ApiInspect(ByName(name));
      running := state.Found? && state.container.running;
    }

    /** restart is called, once, whatever the container's state. */
    method RestartContainerByName(name: string)
      requires Valid()
      modifies `containers, `restarts
      ensures Valid() && restarts == old(restarts) + [name]
      ensures containers == old(containers) ||
              (name in old(containers) && exists running :: containers == SetRunning(old(containers), name, running))
      ensures healthy && name in old(containers) ==> containers == SetRunning(old(containers), name, true)
    {
      var _ := ApiRestart(ByName(name));
    }
  }
}
