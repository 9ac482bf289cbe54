/** Container names and head directories (name-resolver.ts, path-resolver.ts), and what removing
    one directory tree leaves of the others. */
module Names {
  import opened Text

  const NODE_PREFIX := "hexcore-hydra-node-"

  function NodeName(nodeId: nat): string {
    NODE_PREFIX + NatToString(nodeId)
  }

  /** A node's container name is the prefix and the canonical numeral of its id. */
  lemma NodeNameText(name: string, nodeId: nat)
    ensures name == NodeName(nodeId) <==>
            NODE_PREFIX <= name && Canonical(name[|NODE_PREFIX|..]) && ParseNat(name[|NODE_PREFIX|..]) == nodeId
  {
    if NODE_PREFIX <= name {
      NatTextExact(name[|NODE_PREFIX|..], nodeId);
      assert name == NODE_PREFIX + name[|NODE_PREFIX|..];
    }
    assert NodeName(nodeId)[|NODE_PREFIX|..] == NatToString(nodeId);
    NatTextExact(NatToString(nodeId), nodeId);
  }

  lemma NodeNameInjective(a: nat, b: nat)
    requires NodeName(a) == NodeName(b)
    ensures a == b
  {
    DropPrefix(NODE_PREFIX, NatToString(a), NatToString(b));
    NatToStringInjective(a, b);
  }

  predicate PatternAt(name: string, i: nat) {
    var rest := if i <= |name| then name[i..] else "";
    NODE_PREFIX < rest && IsDigit(rest[|NODE_PREFIX|])
  }

  /** The unanchored pattern /hexcore-hydra-node-(\d+)/ that picks Hydra containers from a listing. */
  predicate MatchesNodePattern(name: string) {
    exists i: nat | i < |name| :: PatternAt(name, i)
  }

  lemma NodeNameMatches(nodeId: nat)
    ensures MatchesNodePattern(NodeName(nodeId))
  {
    var name := NodeName(nodeId);
    assert name[0..] == name;
    assert PatternAt(name, 0);
  }

  function RemoveTrailingSlash(s: string): string {
    if s != "" && s[|s| - 1] == '/' then RemoveTrailingSlash(s[..|s| - 1]) else s
  }

  /** Exactly the trailing slashes go: the result ends in no slash and only slashes were dropped. */
  lemma {:induction false} RemoveTrailingSlashSpec(s: string)
    ensures RemoveTrailingSlash(s) <= s
    ensures var r := RemoveTrailingSlash(s);
            (r == "" || r[|r| - 1] != '/') && forall i :: |r| <= i < |s| ==> s[i] == '/'
  {
    if s != "" && s[|s| - 1] == '/' {
      RemoveTrailingSlashSpec(s[..|s| - 1]);
    }
  }

  function HeadDir(headId: nat, folder: string): string {
    RemoveTrailingSlash(folder) + "/head-" + NatToString(headId)
  }

  /** A head's directory: the folder without trailing slashes, `/head-` and the canonical numeral of its id. */
  lemma HeadDirText(dir: string, headId: nat, folder: string)
    ensures var base := RemoveTrailingSlash(folder) + "/head-";
            dir == HeadDir(headId, folder) <==>
            base <= dir && Canonical(dir[|base|..]) && ParseNat(dir[|base|..]) == headId
  {
    var base := RemoveTrailingSlash(folder) + "/head-";
    if base <= dir {
      NatTextExact(dir[|base|..], headId);
      assert dir == base + dir[|base|..];
    }
    assert HeadDir(headId, folder)[|base|..] == NatToString(headId);
    NatTextExact(NatToString(headId), headId);
  }

  function PersistenceDir(headId: nat, nodeName: string, folder: string): string {
    HeadDir(headId, folder) + "/persistence-" + nodeName
  }

  /** path is dir itself or lies below it: what `rm(dir, { recursive: true })` takes away. */
  predicate Under(path: string, dir: string) {
    path == dir || dir + "/" <= path
  }

  /** There is something at dir or below it; access on anything else throws. */
  predicate Present(files: set<string>, dir: string) {
    exists p :: p in files && Under(p, dir)
  }

  function RemoveTree(files: set<string>, dir: string): set<string> {
    set p | p in files && !Under(p, dir)
  }

  lemma UnderRest(path: string, dir: string) returns (rest: string)
    requires Under(path, dir)
    ensures path == dir + rest && CutAt(rest, {'/'})
  {
    rest := path[|dir|..];
    if path != dir {
      assert path[..|dir| + 1] == dir + "/";
      assert path[..|dir|] == (dir + "/")[..|dir|] == dir;
      assert rest[0] == path[|dir|] == (dir + "/")[|dir|] == '/';
    }
  }

  /** Behind one prefix, two numerals that are followed by a slash or nothing are the same number. */
  lemma NumeralsApart(base: string, a: nat, restA: string, b: nat, restB: string)
    requires base + (NatToString(a) + restA) == base + (NatToString(b) + restB)
    requires CutAt(restA, {'/'}) && CutAt(restB, {'/'})
    ensures a == b
  {
    DropPrefix(base, NatToString(a) + restA, NatToString(b) + restB);
    NumeralFreeOf(a, {'/'});
    NumeralFreeOf(b, {'/'});
    CutUnique(NatToString(a), restA, NatToString(b), restB, {'/'});
    NatToStringInjective(a, b);
  }

  /** No path lies under the directories of two heads, so head-1 does not own head-10's files. */
  lemma HeadDirsApart(a: nat, b: nat, folder: string, path: string)
    requires Under(path, HeadDir(a, folder)) && Under(path, HeadDir(b, folder))
    ensures a == b
  {
    var base := RemoveTrailingSlash(folder) + "/head-";
    var ra := UnderRest(path, HeadDir(a, folder));
    var rb := UnderRest(path, HeadDir(b, folder));
    assert path == base + (NatToString(a) + ra) == base + (NatToString(b) + rb);
    NumeralsApart(base, a, ra, b, rb);
  }

  lemma PersistenceUnderHead(headId: nat, nodeName: string, folder: string, path: string)
    requires Under(path, PersistenceDir(headId, nodeName, folder))
    ensures Under(path, HeadDir(headId, folder))
  {
    var dir := HeadDir(headId, folder);
    var rest := UnderRest(path, PersistenceDir(headId, nodeName, folder));
    assert path == dir + "/" + ("persistence-" + nodeName + rest);
  }

  lemma Regroup5(a: string, b: string, c: string, d: string, e: string)
    ensures a + b + (c + d) + e == a + (b + c) + (d + e)
  {
  }

  lemma PersistenceText(path: string, headId: nat, nodeId: nat, folder: string) returns (rest: string)
    requires Under(path, PersistenceDir(headId, NodeName(nodeId), folder))
    ensures path == HeadDir(headId, folder) + ("/persistence-" + NODE_PREFIX) + (NatToString(nodeId) + rest)
    ensures CutAt(rest, {'/'})
  {
    rest := UnderRest(path, PersistenceDir(headId, NodeName(nodeId), folder));
    Regroup5(HeadDir(headId, folder), "/persistence-", NODE_PREFIX, NatToString(nodeId), rest);
  }

  /** The persistence directories of two nodes share no path either, in the same head or not. */
  lemma PersistenceDirsApart(headA: nat, nodeA: nat, headB: nat, nodeB: nat, folder: string, path: string)
    requires Under(path, PersistenceDir(headA, NodeName(nodeA), folder))
    requires Under(path, PersistenceDir(headB, NodeName(nodeB), folder))
    ensures headA == headB && nodeA == nodeB
  {
    PersistenceUnderHead(headA, NodeName(nodeA), folder, path);
    PersistenceUnderHead(headB, NodeName(nodeB), folder, path);
    HeadDirsApart(headA, headB, folder, path);
    var ra := PersistenceText(path, headA, nodeA, folder);
    var rb := PersistenceText(path, headB, nodeB, folder);
    NumeralsApart(HeadDir(headA, folder) + ("/persistence-" + NODE_PREFIX), nodeA, ra, nodeB, rb);
  }

  /** Removing one head's tree keeps every path of every other head and clears its own. */
  lemma RemoveHeadTree(files: set<string>, a: nat, b: nat, folder: string, path: string)
    requires path in files && Under(path, HeadDir(b, folder))
    ensures path in RemoveTree(files, HeadDir(a, folder)) <==> a != b
  {
    if path !in RemoveTree(files, HeadDir(a, folder)) {
      HeadDirsApart(a, b, folder, path);
    }
  }
}
