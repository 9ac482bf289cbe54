/** The command line each hydra-node container gets (hydra-heads.service.ts), and what the node that
    reads it learns of the rest of its head. */
module Mesh {
  import opened Wrappers
  import opened Text
  import opened Names
  import opened Readiness
  import HeadRows
  import Seqs

  /** The parts of the command line that depend on neither the node nor its peers. */
  datatype Settings = Settings(scriptsTxId: string, rotateAfter: string, depositPeriod: string,
                               contestationPeriod: string, chain: Chain)

  datatype Chain = CardanoNode(testnet: bool, networkId: string) | Blockfrost

  // ---------- writing the command line ----------

  function DataPath(headId: nat, file: string): string {
    "/data/head-" + NatToString(headId) + "/" + file
  }

  function Endpoint(host: string, port: nat): string {
    host + ":" + NatToString(port)
  }

  function PeersOf(node: Node, nodes: seq<Node>): seq<Node> {
    if nodes == [] then [] else
    (if nodes[0].id != node.id then [nodes[0]] else []) + PeersOf(node, nodes[1..])
  }

  function PeerGroup(headId: nat, peer: Node): seq<string> {
    var name := NodeName(peer.id);
    ["--peer", Endpoint(name, peer.port + 1000),
     "--hydra-verification-key", DataPath(headId, name + ".vk"),
     "--cardano-verification-key", DataPath(headId, name + ".cardano.vk")]
  }

  function PeerParams(headId: nat, peers: seq<Node>): seq<string> {
    if peers == [] then [] else PeerGroup(headId, peers[0]) + PeerParams(headId, peers[1..])
  }

  function OwnParams(headId: nat, node: Node): seq<string> {
    var name := NodeName(node.id);
    ["--node-id", name,
     "--listen", Endpoint("0.0.0.0", node.port + 1000),
     "--advertise", Endpoint(name, node.port + 1000),
     "--hydra-signing-key", DataPath(headId, name + ".sk"),
     "--persistence-dir", "/data" + PersistenceDir(headId, name, ""),
     "--api-host", "0.0.0.0",
     "--api-port", NatToString(node.port)]
  }

  const SOCKET := ["--node-socket", "/cardano-node/node.socket"]

  function ChainParams(headId: nat, chain: Chain): seq<string> {
    match chain
    case CardanoNode(testnet, networkId) =>
      (if testnet then ["--testnet-magic", networkId] else ["--mainnet"]) + SOCKET
    case Blockfrost =>
      ["--blockfrost", DataPath(headId, "blockfrost-project.txt")]
  }

  function ScriptParams(settings: Settings): seq<string> {
    if settings.scriptsTxId != "" then ["--hydra-scripts-tx-id", settings.scriptsTxId] else []
  }

  function PeriodParams(settings: Settings): seq<string> {
    ["--persistence-rotate-after", settings.rotateAfter,
     "--deposit-period", settings.depositPeriod + "s",
     "--contestation-period", settings.contestationPeriod + "s"]
  }

  function LedgerParams(headId: nat): seq<string> {
    ["--ledger-protocol-parameters", DataPath(headId, "protocol-parameters.json")]
  }

  function SigningParams(headId: nat, node: Node): seq<string> {
    ["--cardano-signing-key", DataPath(headId, NodeName(node.id) + ".cardano.sk")]
  }

  function Cmd(headId: nat, node: Node, nodes: seq<Node>, settings: Settings): seq<string> {
    OwnParams(headId, node) + PeerParams(headId, PeersOf(node, nodes)) + SigningParams(headId, node) +
    ScriptParams(settings) + PeriodParams(settings) + ChainParams(headId, settings.chain) + LedgerParams(headId)
  }

  // ---------- reading a command line ----------

  datatype Arg = Flag(name: string) | Opt(name: string, value: string)

  function Prepend(arg: Arg, rest: Option<seq<Arg>>): Option<seq<Arg>> {
    if rest.Some? then Some([arg] + rest.value) else None
  }

  /** Left to right: `--mainnet` stands alone, every other option takes the next token as its value,
      whatever that token looks like. */
  function Parse(tokens: seq<string>): Option<seq<Arg>> {
    if tokens == [] then Some([])
    else if tokens[0] == "--mainnet" then Prepend(Flag(tokens[0]), Parse(tokens[1..]))
    else if "--" <= tokens[0] && |tokens| >= 2 then Prepend(Opt(tokens[0], tokens[1]), Parse(tokens[2..]))
    else None
  }

  /** The values an option is given, in order. */
  function Values(args: seq<Arg>, name: string): seq<string> {
    if args == [] then [] else
    (if args[0].Opt? && args[0].name == name then [args[0].value] else []) + Values(args[1..], name)
  }

  datatype Peer = Peer(endpoint: string, verificationKey: string, cardanoVerificationKey: string)

  /** The peers a command line names: the i-th endpoint goes with the i-th key of each kind. */
  function ReadPeers(args: seq<Arg>): Option<seq<Peer>> {
    var endpoints := Values(args, "--peer");
    var keys := Values(args, "--hydra-verification-key");
    var cardanoKeys := Values(args, "--cardano-verification-key");
    if |endpoints| == |keys| == |cardanoKeys| then
      Some(seq(|endpoints|, i requires 0 <= i < |endpoints| => Peer(endpoints[i], keys[i], cardanoKeys[i])))
    else None
  }

  /** Host and port of an endpoint, the port in its canonical numeral. */
  function ReadEndpoint(s: string): Option<(string, nat)> {
    var parts := Split(s, ':');
    if |parts| == 2 && Canonical(parts[1]) then Some((parts[0], ParseNat(parts[1]))) else None
  }

  /** The file on the host behind a path in the container, through the bind of the node folder to /data. */
  function HostPath(path: string, folder: string): Option<string> {
    if "/data/" <= path then Some(RemoveTrailingSlash(folder) + path[|"/data"|..]) else None
  }

  // ---------- parsing what was written ----------

  predicate IsOption(token: string) {
    "--" <= token && token != "--mainnet"
  }

  /** tokens is a list of options, each followed by its value. */
  predicate Paired(tokens: seq<string>) {
    |tokens| % 2 == 0 && forall i :: 0 <= i < |tokens| / 2 ==> IsOption(tokens[2 * i])
  }

  function PairArgs(tokens: seq<string>): seq<Arg> {
    seq(|tokens| / 2, i requires 0 <= i < |tokens| / 2 => Opt(tokens[2 * i], tokens[2 * i + 1]))
  }

  lemma PairedTail(tokens: seq<string>)
    requires Paired(tokens) && tokens != []
    ensures |tokens| >= 2 && IsOption(tokens[0]) && Paired(tokens[2..])
    ensures PairArgs(tokens) == [Opt(tokens[0], tokens[1])] + PairArgs(tokens[2..])
  {
    var tail := tokens[2..];
    assert tokens[2 * 0] == tokens[0];
    forall i | 0 <= i < |tail| / 2 ensures IsOption(tail[2 * i]) {
      assert tail[2 * i] == tokens[2 * (i + 1)];
    }
  }

  lemma {:induction false} ParsePaired(tokens: seq<string>, rest: seq<string>)
    requires Paired(tokens) && Parse(rest).Some?
    ensures Parse(tokens + rest) == Some(PairArgs(tokens) + Parse(rest).value)
  {
    if tokens == [] {
      assert tokens + rest == rest && PairArgs(tokens) + Parse(rest).value == Parse(rest).value;
    } else {
      PairedTail(tokens);
      ParsePaired(tokens[2..], rest);
      assert (tokens + rest)[2..] == tokens[2..] + rest;
      Seqs.Assoc([Opt(tokens[0], tokens[1])], PairArgs(tokens[2..]), Parse(rest).value);
    }
  }

  lemma {:induction false} ValuesAppend(a: seq<Arg>, b: seq<Arg>, name: string)
    ensures Values(a + b, name) == Values(a, name) + Values(b, name)
  {
    if a == [] {
      assert a + b == b;
    } else {
      var first := if a[0].Opt? && a[0].name == name then [a[0].value] else [];
      ValuesAppend(a[1..], b, name);
      assert (a + b)[1..] == a[1..] + b;
      Seqs.Assoc(first, Values(a[1..], name), Values(b, name));
    }
  }

  lemma {:induction false} ValuesNone(args: seq<Arg>, name: string)
    requires forall i :: 0 <= i < |args| && args[i].Opt? ==> args[i].name != name
    ensures Values(args, name) == []
  {
    if args != [] {
      ValuesNone(args[1..], name);
    }
  }

  lemma ValuesOnce(args: seq<Arg>, name: string, k: nat)
    requires k < |args| && args[k].Opt? && args[k].name == name
    requires forall i :: 0 <= i < |args| && i != k && args[i].Opt? ==> args[i].name != name
    ensures Values(args, name) == [args[k].value]
  {
    ValuesNone(args[..k], name);
    ValuesNone(args[k + 1..], name);
    assert args == args[..k] + ([args[k]] + args[k + 1..]);
    ValuesAppend(args[..k], [args[k]] + args[k + 1..], name);
    assert ([args[k]] + args[k + 1..])[1..] == args[k + 1..];
  }

  // ---------- the arguments of a node ----------

  function PeerArgs(headId: nat, peers: seq<Node>): seq<Arg> {
    if peers == [] then [] else PairArgs(PeerGroup(headId, peers[0])) + PeerArgs(headId, peers[1..])
  }

  lemma OwnPaired(headId: nat, node: Node)
    ensures Paired(OwnParams(headId, node))
  {
  }

  lemma GroupPaired(headId: nat, peer: Node)
    ensures Paired(PeerGroup(headId, peer))
  {
  }

  lemma {:induction false} ParsePeerParams(headId: nat, peers: seq<Node>, rest: seq<string>)
    requires Parse(rest).Some?
    ensures Parse(PeerParams(headId, peers) + rest) == Some(PeerArgs(headId, peers) + Parse(rest).value)
  {
    if peers == [] {
      assert PeerParams(headId, peers) + rest == rest && [] + Parse(rest).value == Parse(rest).value;
    } else {
      var group := PeerGroup(headId, peers[0]);
      ParsePeerParams(headId, peers[1..], rest);
      GroupPaired(headId, peers[0]);
      ParsePaired(group, PeerParams(headId, peers[1..]) + rest);
      Seqs.Assoc(group, PeerParams(headId, peers[1..]), rest);
      Seqs.Assoc(PairArgs(group), PeerArgs(headId, peers[1..]), Parse(rest).value);
    }
  }

  const SHARED_NAMES := {"--hydra-scripts-tx-id", "--persistence-rotate-after", "--deposit-period",
                         "--contestation-period", "--testnet-magic", "--mainnet", "--node-socket", "--blockfrost",
                         "--ledger-protocol-parameters"}

  predicate NamedIn(args: seq<Arg>, names: set<string>) {
    forall i :: 0 <= i < |args| ==> args[i].name in names
  }

  function ChainArgs(headId: nat, chain: Chain): seq<Arg> {
    match chain
    case CardanoNode(testnet, networkId) =>
      [if testnet then Opt("--testnet-magic", networkId) else Flag("--mainnet"),
       Opt(SOCKET[0], SOCKET[1])]
    case Blockfrost => [Opt("--blockfrost", DataPath(headId, "blockfrost-project.txt"))]
  }

  /** What follows the peers and the signing key. */
  function SharedParams(headId: nat, settings: Settings): seq<string> {
    ScriptParams(settings) + (PeriodParams(settings) + (ChainParams(headId, settings.chain) + LedgerParams(headId)))
  }

  function SharedArgs(headId: nat, settings: Settings): seq<Arg> {
    PairArgs(ScriptParams(settings)) +
    (PairArgs(PeriodParams(settings)) + (ChainArgs(headId, settings.chain) + PairArgs(LedgerParams(headId))))
  }

  lemma ParseTestnet(networkId: string, rest: seq<string>)
    requires Parse(rest).Some?
    ensures Parse(["--testnet-magic", networkId] + SOCKET + rest) ==
            Some([Opt("--testnet-magic", networkId), Opt(SOCKET[0], SOCKET[1])] + Parse(rest).value)
  {
    var tokens := ["--testnet-magic", networkId] + SOCKET;
    ParsePaired(tokens, rest);
    assert PairArgs(tokens) == [Opt("--testnet-magic", networkId), Opt(SOCKET[0], SOCKET[1])];
  }

  lemma ParseFlag(rest: seq<string>)
    requires Parse(rest).Some?
    ensures Parse(["--mainnet"] + rest) == Some([Flag("--mainnet")] + Parse(rest).value)
  {
    var tokens := ["--mainnet"] + rest;
    assert tokens[0] == "--mainnet" && tokens[1..] == rest;
  }

  lemma ParseMainnet(rest: seq<string>)
    requires Parse(rest).Some?
    ensures Parse(["--mainnet"] + SOCKET + rest) ==
            Some([Flag("--mainnet"), Opt(SOCKET[0], SOCKET[1])] + Parse(rest).value)
  {
    ParsePaired(SOCKET, rest);
    assert PairArgs(SOCKET) == [Opt(SOCKET[0], SOCKET[1])];
    ParseFlag(SOCKET + rest);
    assert ["--mainnet"] + SOCKET + rest == ["--mainnet"] + (SOCKET + rest);
    assert [Flag("--mainnet")] + (PairArgs(SOCKET) + Parse(rest).value) ==
           [Flag("--mainnet"), Opt(SOCKET[0], SOCKET[1])] + Parse(rest).value;
  }

  lemma ParseChain(headId: nat, chain: Chain, rest: seq<string>)
    requires Parse(rest).Some?
    ensures Parse(ChainParams(headId, chain) + rest) == Some(ChainArgs(headId, chain) + Parse(rest).value)
  {
    match chain
    case CardanoNode(testnet, networkId) =>
      if testnet {
        ParseTestnet(networkId, rest);
      } else {
        ParseMainnet(rest);
      }
    case Blockfrost =>
      ParsePaired(ChainParams(headId, chain), rest);
  }

  lemma ParsePeriods(settings: Settings, rest: seq<string>)
    requires Parse(rest).Some?
    ensures Parse(PeriodParams(settings) + rest) == Some(PairArgs(PeriodParams(settings)) + Parse(rest).value)
  {
    ParsePaired(PeriodParams(settings), rest);
  }

  lemma ParseScript(settings: Settings, rest: seq<string>)
    requires Parse(rest).Some?
    ensures Parse(ScriptParams(settings) + rest) == Some(PairArgs(ScriptParams(settings)) + Parse(rest).value)
  {
    ParsePaired(ScriptParams(settings), rest);
  }

  lemma ParseLedger(headId: nat)
    ensures Parse(LedgerParams(headId)) == Some(PairArgs(LedgerParams(headId)))
  {
    ParsePaired(LedgerParams(headId), []);
    assert LedgerParams(headId) + [] == LedgerParams(headId);
    assert PairArgs(LedgerParams(headId)) + [] == PairArgs(LedgerParams(headId));
  }

  lemma ParseShared(headId: nat, settings: Settings)
    ensures Parse(SharedParams(headId, settings)) == Some(SharedArgs(headId, settings))
  {
    ParseLedger(headId);
    ParseChain(headId, settings.chain, LedgerParams(headId));
    var chain := ChainParams(headId, settings.chain) + LedgerParams(headId);
    ParsePeriods(settings, chain);
    ParseScript(settings, PeriodParams(settings) + chain);
  }

  lemma SharedNamed(headId: nat, settings: Settings)
    ensures NamedIn(SharedArgs(headId, settings), SHARED_NAMES)
  {
  }

  /** The whole line as arguments: the node's own, one group per peer, the signing key, the shared ones. */
  function Args(headId: nat, node: Node, nodes: seq<Node>, shared: seq<Arg>): seq<Arg> {
    PairArgs(OwnParams(headId, node)) +
    (PeerArgs(headId, PeersOf(node, nodes)) + (PairArgs(SigningParams(headId, node)) + shared))
  }

  lemma Regroup(a: seq<string>, b: seq<string>, c: seq<string>, d: seq<string>, e: seq<string>, f: seq<string>,
                g: seq<string>)
    ensures a + b + c + d + e + f + g == a + (b + (c + (d + (e + (f + g)))))
  {
  }

  lemma ParseCmd(headId: nat, node: Node, nodes: seq<Node>, settings: Settings) returns (shared: seq<Arg>)
    ensures NamedIn(shared, SHARED_NAMES) && shared == SharedArgs(headId, settings)
    ensures Parse(Cmd(headId, node, nodes, settings)) == Some(Args(headId, node, nodes, shared))
  {
    var own, peers := OwnParams(headId, node), PeerParams(headId, PeersOf(node, nodes));
    var signing, tail := SigningParams(headId, node), SharedParams(headId, settings);
    ParseShared(headId, settings);
    SharedNamed(headId, settings);
    shared := SharedArgs(headId, settings);
    ParsePaired(signing, tail);
    ParsePeerParams(headId, PeersOf(node, nodes), signing + tail);
    OwnPaired(headId, node);
    ParsePaired(own, peers + (signing + tail));
    Regroup(own, peers, signing, ScriptParams(settings), PeriodParams(settings),
            ChainParams(headId, settings.chain), LedgerParams(headId));
  }

  // ---------- the values of each option ----------

  lemma ArgsValues(headId: nat, node: Node, nodes: seq<Node>, shared: seq<Arg>, name: string)
    ensures Values(Args(headId, node, nodes, shared), name) ==
            Values(PairArgs(OwnParams(headId, node)), name) +
            (Values(PeerArgs(headId, PeersOf(node, nodes)), name) +
             (Values(PairArgs(SigningParams(headId, node)), name) + Values(shared, name)))
  {
    var own, peers := PairArgs(OwnParams(headId, node)), PeerArgs(headId, PeersOf(node, nodes));
    var signing := PairArgs(SigningParams(headId, node));
    ValuesAppend(signing, shared, name);
    ValuesAppend(peers, signing + shared, name);
    ValuesAppend(own, peers + (signing + shared), name);
  }

  const PEER_NAMES := {"--peer", "--hydra-verification-key", "--cardano-verification-key"}

  lemma GroupValues(headId: nat, peer: Node)
    ensures var args := PairArgs(PeerGroup(headId, peer)); var name := NodeName(peer.id);
            && Values(args, "--peer") == [Endpoint(name, peer.port + 1000)]
            && Values(args, "--hydra-verification-key") == [DataPath(headId, name + ".vk")]
            && Values(args, "--cardano-verification-key") == [DataPath(headId, name + ".cardano.vk")]
  {
    var args := PairArgs(PeerGroup(headId, peer));
    ValuesOnce(args, "--peer", 0);
    ValuesOnce(args, "--hydra-verification-key", 1);
    ValuesOnce(args, "--cardano-verification-key", 2);
  }

  /** If every group gives name one value, the line lists these values in the order of the peers. */
  lemma {:induction false} PeerValues(headId: nat, peers: seq<Node>, name: string, f: Node -> string)
    requires forall p :: p in peers ==> Values(PairArgs(PeerGroup(headId, p)), name) == [f(p)]
    ensures Values(PeerArgs(headId, peers), name) == seq(|peers|, i requires 0 <= i < |peers| => f(peers[i]))
  {
    if peers != [] {
      PeerValues(headId, peers[1..], name, f);
      ValuesAppend(PairArgs(PeerGroup(headId, peers[0])), PeerArgs(headId, peers[1..]), name);
    }
  }

  lemma {:induction false} PeersGiveNoOther(headId: nat, peers: seq<Node>, name: string)
    requires name !in PEER_NAMES
    ensures Values(PeerArgs(headId, peers), name) == []
  {
    if peers != [] {
      PeersGiveNoOther(headId, peers[1..], name);
      ValuesNone(PairArgs(PeerGroup(headId, peers[0])), name);
      ValuesAppend(PairArgs(PeerGroup(headId, peers[0])), PeerArgs(headId, peers[1..]), name);
    }
  }

  const OWN_NAMES := ["--node-id", "--listen", "--advertise", "--hydra-signing-key", "--persistence-dir",
                      "--api-host", "--api-port"]

  lemma OwnNames(headId: nat, node: Node)
    ensures var args := PairArgs(OwnParams(headId, node));
            |args| == |OWN_NAMES| && forall i :: 0 <= i < |args| ==> args[i].Opt? && args[i].name == OWN_NAMES[i]
  {
  }

  const SIGNING_NAME := "--cardano-signing-key"

  /** Shared options other than --mainnet have names of other lengths than a node's own ones. */
  lemma OwnNotShared(k: nat)
    requires k < |OWN_NAMES|
    ensures OWN_NAMES[k] !in SHARED_NAMES + {SIGNING_NAME}
  {
    assert |OWN_NAMES[k]| in {8, 9, 10, 11, 17, 19};
    assert OWN_NAMES[k][2] != 'm';
    assert forall n :: n in SHARED_NAMES + {SIGNING_NAME} ==> n[2] == 'm' || |n| in {12, 13, 15, 16, 21, 26, 28};
  }

  lemma OwnNotPeer(k: nat)
    requires k < |OWN_NAMES|
    ensures OWN_NAMES[k] !in PEER_NAMES
  {
    assert |OWN_NAMES[k]| in {8, 9, 10, 11, 17, 19};
    assert forall n :: n in PEER_NAMES ==> |n| in {6, 24, 26};
  }

  lemma PeerNotShared(name: string)
    requires name in PEER_NAMES
    ensures name !in SHARED_NAMES + {SIGNING_NAME}
  {
    assert |name| in {6, 24} || name[2] == 'c';
    assert forall n :: n in SHARED_NAMES + {SIGNING_NAME} ==> |n| !in {6, 24};
    assert forall n :: n in SHARED_NAMES + {SIGNING_NAME} ==> n[2] == 'c' ==> |n| == 21;
  }

  /** The signing key and the shared options give nothing under any other name. */
  lemma TailGivesNoOther(headId: nat, node: Node, shared: seq<Arg>, name: string)
    requires NamedIn(shared, SHARED_NAMES) && name !in SHARED_NAMES + {SIGNING_NAME}
    ensures Values(PairArgs(SigningParams(headId, node)), name) == [] && Values(shared, name) == []
  {
    ValuesNone(PairArgs(SigningParams(headId, node)), name);
    forall i | 0 <= i < |shared| ensures shared[i].name != name {
      assert shared[i].name in SHARED_NAMES;
    }
    ValuesNone(shared, name);
  }

  lemma OwnGivesNoPeer(headId: nat, node: Node, name: string)
    requires name in PEER_NAMES
    ensures Values(PairArgs(OwnParams(headId, node)), name) == []
  {
    OwnNames(headId, node);
    forall k: nat | k < |OWN_NAMES| ensures OWN_NAMES[k] != name {
      OwnNotPeer(k);
    }
    ValuesNone(PairArgs(OwnParams(headId, node)), name);
  }

  /** Outside its own part the line names no peer. */
  lemma OnlyPeersNamePeers(headId: nat, node: Node, nodes: seq<Node>, shared: seq<Arg>, name: string)
    requires NamedIn(shared, SHARED_NAMES) && name in PEER_NAMES
    ensures Values(Args(headId, node, nodes, shared), name) == Values(PeerArgs(headId, PeersOf(node, nodes)), name)
  {
    ArgsValues(headId, node, nodes, shared, name);
    OwnGivesNoPeer(headId, node, name);
    PeerNotShared(name);
    TailGivesNoOther(headId, node, shared, name);
  }

  lemma DistinctOwnNames(i: nat, k: nat)
    requires i < |OWN_NAMES| && k < |OWN_NAMES| && i != k
    ensures OWN_NAMES[i] != OWN_NAMES[k]
  {
  }

  lemma OwnOnce(headId: nat, node: Node, k: nat)
    requires k < |OWN_NAMES|
    ensures Values(PairArgs(OwnParams(headId, node)), OWN_NAMES[k]) == [OwnParams(headId, node)[2 * k + 1]]
  {
    OwnNames(headId, node);
    forall i: nat | i < |OWN_NAMES| && i != k ensures OWN_NAMES[i] != OWN_NAMES[k] {
      DistinctOwnNames(i, k);
    }
    ValuesOnce(PairArgs(OwnParams(headId, node)), OWN_NAMES[k], k);
  }

  /** An own option is given once. */
  lemma OwnValue(headId: nat, node: Node, nodes: seq<Node>, shared: seq<Arg>, k: nat)
    requires NamedIn(shared, SHARED_NAMES) && k < |OWN_NAMES|
    ensures Values(Args(headId, node, nodes, shared), OWN_NAMES[k]) == [OwnParams(headId, node)[2 * k + 1]]
  {
    ArgsValues(headId, node, nodes, shared, OWN_NAMES[k]);
    OwnOnce(headId, node, k);
    OwnNotPeer(k);
    PeersGiveNoOther(headId, PeersOf(node, nodes), OWN_NAMES[k]);
    OwnNotShared(k);
    TailGivesNoOther(headId, node, shared, OWN_NAMES[k]);
  }

  lemma SigningNotShared()
    ensures SIGNING_NAME !in SHARED_NAMES
  {
    assert forall n :: n in SHARED_NAMES ==> |n| == 21 ==> n[3] != SIGNING_NAME[3];
  }

  lemma SigningValue(headId: nat, node: Node, nodes: seq<Node>, shared: seq<Arg>)
    requires NamedIn(shared, SHARED_NAMES)
    ensures Values(Args(headId, node, nodes, shared), SIGNING_NAME) ==
            [DataPath(headId, NodeName(node.id) + ".cardano.sk")]
  {
    ArgsValues(headId, node, nodes, shared, SIGNING_NAME);
    OwnNames(headId, node);
    forall k: nat | k < |OWN_NAMES| ensures OWN_NAMES[k] != SIGNING_NAME {
      OwnNotShared(k);
    }
    ValuesNone(PairArgs(OwnParams(headId, node)), SIGNING_NAME);
    assert forall n :: n in PEER_NAMES ==> |n| != |SIGNING_NAME|;
    PeersGiveNoOther(headId, PeersOf(node, nodes), SIGNING_NAME);
    ValuesOnce(PairArgs(SigningParams(headId, node)), SIGNING_NAME, 0);
    SigningNotShared();
    forall i | 0 <= i < |shared| ensures shared[i].name != SIGNING_NAME {
      assert shared[i].name in SHARED_NAMES;
    }
    ValuesNone(shared, SIGNING_NAME);
  }

  // ---------- the settings ----------

  lemma ValuesOfFour(a: seq<Arg>, b: seq<Arg>, c: seq<Arg>, d: seq<Arg>, name: string)
    ensures Values(a + (b + (c + d)), name) == Values(a, name) + (Values(b, name) + (Values(c, name) + Values(d, name)))
  {
    ValuesAppend(c, d, name);
    ValuesAppend(b, c + d, name);
    ValuesAppend(a, b + (c + d), name);
  }

  /** A shared option is given by the shared part alone. */
  lemma OnlySharedGives(headId: nat, node: Node, nodes: seq<Node>, shared: seq<Arg>, name: string)
    requires name in SHARED_NAMES
    ensures Values(Args(headId, node, nodes, shared), name) == Values(shared, name)
  {
    ArgsValues(headId, node, nodes, shared, name);
    OwnNames(headId, node);
    forall k: nat | k < |OWN_NAMES| ensures OWN_NAMES[k] != name {
      OwnNotShared(k);
    }
    ValuesNone(PairArgs(OwnParams(headId, node)), name);
    forall peer | peer in PEER_NAMES ensures peer != name {
      PeerNotShared(peer);
    }
    PeersGiveNoOther(headId, PeersOf(node, nodes), name);
    SigningNotShared();
    ValuesNone(PairArgs(SigningParams(headId, node)), name);
  }

  /** What each of the shared options is set to. */
  predicate SettingsGiven(args: seq<Arg>, headId: nat, settings: Settings) {
    && Values(args, "--persistence-rotate-after") == [settings.rotateAfter]
    && Values(args, "--deposit-period") == [settings.depositPeriod + "s"]
    && Values(args, "--contestation-period") == [settings.contestationPeriod + "s"]
    && Values(args, "--hydra-scripts-tx-id") == (if settings.scriptsTxId != "" then [settings.scriptsTxId] else [])
    && Values(args, "--ledger-protocol-parameters") == [DataPath(headId, "protocol-parameters.json")]
  }

  /** The network a command line names: the magic number of a test network, or the main network. */
  predicate ChainGiven(args: seq<Arg>, headId: nat, chain: Chain) {
    && Values(args, "--testnet-magic") == (if chain.CardanoNode? && chain.testnet then [chain.networkId] else [])
    && (Flag("--mainnet") in args <==> chain.CardanoNode? && !chain.testnet)
    && Values(args, "--blockfrost") == if chain.Blockfrost? then [DataPath(headId, "blockfrost-project.txt")] else []
  }

  const CHAIN_NAMES := {"--testnet-magic", "--blockfrost", "--node-socket"}

  lemma ChainGives(headId: nat, chain: Chain)
    ensures ChainGiven(ChainArgs(headId, chain), headId, chain)
    ensures forall name :: name !in CHAIN_NAMES ==> Values(ChainArgs(headId, chain), name) == []
  {
    var args := ChainArgs(headId, chain);
    forall name | name !in CHAIN_NAMES ensures Values(args, name) == [] {
      ValuesNone(args, name);
    }
    match chain
    case CardanoNode(testnet, _) =>
      if testnet { ValuesOnce(args, "--testnet-magic", 0); } else { ValuesNone(args, "--testnet-magic"); }
      ValuesNone(args, "--blockfrost");
    case Blockfrost =>
      ValuesOnce(args, "--blockfrost", 0);
      ValuesNone(args, "--testnet-magic");
  }

  const PERIOD_NAMES := ["--persistence-rotate-after", "--deposit-period", "--contestation-period"]

  const SCRIPT_NAME := "--hydra-scripts-tx-id"

  const LEDGER_NAME := "--ledger-protocol-parameters"

  lemma ScriptGives(settings: Settings, name: string)
    ensures Values(PairArgs(ScriptParams(settings)), name) ==
            if name == SCRIPT_NAME && settings.scriptsTxId != "" then [settings.scriptsTxId] else []
  {
  }

  lemma PeriodsGive(settings: Settings, k: nat)
    requires k < |PERIOD_NAMES|
    ensures Values(PairArgs(PeriodParams(settings)), PERIOD_NAMES[k]) == [PeriodParams(settings)[2 * k + 1]]
  {
    ValuesOnce(PairArgs(PeriodParams(settings)), PERIOD_NAMES[k], k);
  }

  lemma PeriodsGiveNoOther(settings: Settings, name: string)
    requires name !in PERIOD_NAMES
    ensures Values(PairArgs(PeriodParams(settings)), name) == []
  {
    assert PERIOD_NAMES[0] in PERIOD_NAMES && PERIOD_NAMES[1] in PERIOD_NAMES && PERIOD_NAMES[2] in PERIOD_NAMES;
    ValuesNone(PairArgs(PeriodParams(settings)), name);
  }

  lemma LedgerGives(headId: nat, name: string)
    ensures Values(PairArgs(LedgerParams(headId)), name) ==
            if name == LEDGER_NAME then [DataPath(headId, "protocol-parameters.json")] else []
  {
  }

  lemma SharedValues(headId: nat, settings: Settings, name: string)
    ensures Values(SharedArgs(headId, settings), name) ==
            Values(PairArgs(ScriptParams(settings)), name) +
            (Values(PairArgs(PeriodParams(settings)), name) +
             (Values(ChainArgs(headId, settings.chain), name) + Values(PairArgs(LedgerParams(headId)), name)))
  {
    ValuesOfFour(PairArgs(ScriptParams(settings)), PairArgs(PeriodParams(settings)),
                 ChainArgs(headId, settings.chain), PairArgs(LedgerParams(headId)), name);
  }

  lemma PeriodLengths()
    ensures |PERIOD_NAMES| == 3 && |PERIOD_NAMES[0]| == 26 && |PERIOD_NAMES[1]| == 16 && |PERIOD_NAMES[2]| == 21
    ensures PERIOD_NAMES[2][2] == 'c'
  {
  }

  /** Setting names are told apart by their lengths, or else by their third characters. */
  lemma NoPeriod(name: string)
    requires |name| !in {26, 16, 21} || (|name| == 21 && name[2] == 'h')
    ensures name !in PERIOD_NAMES
  {
    PeriodLengths();
    assert name !in {PERIOD_NAMES[0], PERIOD_NAMES[1], PERIOD_NAMES[2]};
  }

  lemma ChainNoPeriod(name: string)
    requires name in CHAIN_NAMES
    ensures name !in PERIOD_NAMES && name != SCRIPT_NAME && name != LEDGER_NAME
  {
    assert |name| in {15, 12, 13} && |SCRIPT_NAME| == 21 && |LEDGER_NAME| == 28;
    NoPeriod(name);
  }

  lemma ScriptNoPeriod()
    ensures SCRIPT_NAME !in PERIOD_NAMES && LEDGER_NAME !in PERIOD_NAMES && SCRIPT_NAME != LEDGER_NAME
  {
    assert |SCRIPT_NAME| == 21 && |LEDGER_NAME| == 28 && SCRIPT_NAME[2] == 'h';
    NoPeriod(SCRIPT_NAME);
    NoPeriod(LEDGER_NAME);
  }

  lemma SettingNamesApart(name: string)
    ensures name in CHAIN_NAMES ==> name !in PERIOD_NAMES && name != SCRIPT_NAME && name != LEDGER_NAME
    ensures name in {SCRIPT_NAME, LEDGER_NAME} ==> name !in PERIOD_NAMES
    ensures SCRIPT_NAME != LEDGER_NAME
  {
    ScriptNoPeriod();
    if name in CHAIN_NAMES {
      ChainNoPeriod(name);
    }
  }

  lemma PeriodGiven(headId: nat, settings: Settings, k: nat)
    requires k < |PERIOD_NAMES|
    ensures Values(SharedArgs(headId, settings), PERIOD_NAMES[k]) == [PeriodParams(settings)[2 * k + 1]]
  {
    SettingNamesApart(PERIOD_NAMES[k]);
    assert PERIOD_NAMES[k] in PERIOD_NAMES;
    SharedValues(headId, settings, PERIOD_NAMES[k]);
    ScriptGives(settings, PERIOD_NAMES[k]);
    PeriodsGive(settings, k);
    ChainGives(headId, settings.chain);
    LedgerGives(headId, PERIOD_NAMES[k]);
  }

  lemma OthersGiven(headId: nat, settings: Settings, name: string)
    requires name !in PERIOD_NAMES
    ensures name == SCRIPT_NAME ==>
              Values(SharedArgs(headId, settings), name) ==
              if settings.scriptsTxId != "" then [settings.scriptsTxId] else []
    ensures name == LEDGER_NAME ==>
              Values(SharedArgs(headId, settings), name) == [DataPath(headId, "protocol-parameters.json")]
    ensures name in CHAIN_NAMES ==>
              Values(SharedArgs(headId, settings), name) == Values(ChainArgs(headId, settings.chain), name)
  {
    SettingNamesApart(name);
    SharedValues(headId, settings, name);
    ScriptGives(settings, name);
    PeriodsGiveNoOther(settings, name);
    ChainGives(headId, settings.chain);
    LedgerGives(headId, name);
  }

  lemma SharedGive(headId: nat, settings: Settings)
    ensures SettingsGiven(SharedArgs(headId, settings), headId, settings)
  {
    SettingNamesApart(SCRIPT_NAME);
    SettingNamesApart(LEDGER_NAME);
    PeriodGiven(headId, settings, 0);
    PeriodGiven(headId, settings, 1);
    PeriodGiven(headId, settings, 2);
    OthersGiven(headId, settings, SCRIPT_NAME);
    OthersGiven(headId, settings, LEDGER_NAME);
  }

  lemma ChainAgrees(args: seq<Arg>, args': seq<Arg>, headId: nat, chain: Chain)
    requires ChainGiven(args, headId, chain)
    requires Values(args', "--testnet-magic") == Values(args, "--testnet-magic")
    requires Values(args', "--blockfrost") == Values(args, "--blockfrost")
    requires Flag("--mainnet") in args' <==> Flag("--mainnet") in args
    ensures ChainGiven(args', headId, chain)
  {
  }

  lemma FlagsInChain(headId: nat, settings: Settings, flag: Arg)
    requires flag.Flag?
    ensures flag in SharedArgs(headId, settings) <==> flag in ChainArgs(headId, settings.chain)
  {
  }

  lemma ChainValue(headId: nat, settings: Settings, name: string)
    requires name in CHAIN_NAMES
    ensures Values(SharedArgs(headId, settings), name) == Values(ChainArgs(headId, settings.chain), name)
  {
    SettingNamesApart(name);
    OthersGiven(headId, settings, name);
  }

  lemma SharedChain(headId: nat, settings: Settings)
    ensures ChainGiven(SharedArgs(headId, settings), headId, settings.chain)
  {
    ChainGives(headId, settings.chain);
    ChainValue(headId, settings, "--testnet-magic");
    ChainValue(headId, settings, "--blockfrost");
    FlagsInChain(headId, settings, Flag("--mainnet"));
    ChainAgrees(ChainArgs(headId, settings.chain), SharedArgs(headId, settings), headId, settings.chain);
  }

  lemma {:induction false} PeersAreOptions(headId: nat, peers: seq<Node>)
    ensures forall arg :: arg in PeerArgs(headId, peers) ==> arg.Opt?
  {
    if peers != [] {
      PeersAreOptions(headId, peers[1..]);
    }
  }

  /** Two lines agree on the shared options. */
  predicate SameShared(args: seq<Arg>, shared: seq<Arg>) {
    (forall name :: name in SHARED_NAMES ==> Values(args, name) == Values(shared, name)) &&
    (Flag("--mainnet") in args <==> Flag("--mainnet") in shared)
  }

  lemma SettingsCarry(args: seq<Arg>, shared: seq<Arg>, headId: nat, settings: Settings)
    requires SameShared(args, shared) && SettingsGiven(shared, headId, settings)
    ensures SettingsGiven(args, headId, settings)
  {
  }

  lemma OnlySharedFlags(headId: nat, node: Node, nodes: seq<Node>, shared: seq<Arg>, flag: Arg)
    requires flag.Flag?
    ensures flag in Args(headId, node, nodes, shared) <==> flag in shared
  {
    PeersAreOptions(headId, PeersOf(node, nodes));
  }

  lemma SharedOfLine(headId: nat, node: Node, nodes: seq<Node>, shared: seq<Arg>)
    ensures SameShared(Args(headId, node, nodes, shared), shared)
  {
    forall name | name in SHARED_NAMES
      ensures Values(Args(headId, node, nodes, shared), name) == Values(shared, name)
    {
      OnlySharedGives(headId, node, nodes, shared, name);
    }
    OnlySharedFlags(headId, node, nodes, shared, Flag("--mainnet"));
  }

  // ---------- the mesh ----------

  function PeerOf(headId: nat, node: Node): Peer {
    var name := NodeName(node.id);
    Peer(Endpoint(name, node.port + 1000), DataPath(headId, name + ".vk"), DataPath(headId, name + ".cardano.vk"))
  }

  lemma {:induction false} PeersOfOutside(node: Node, nodes: seq<Node>)
    requires forall i :: 0 <= i < |nodes| ==> nodes[i].id != node.id
    ensures PeersOf(node, nodes) == nodes
  {
    if nodes != [] {
      PeersOfOutside(node, nodes[1..]);
    }
  }

  /** The peers of a node are the other nodes of its head, in order. */
  lemma {:induction false} PeersAreTheOthers(nodes: seq<Node>, i: nat)
    requires i < |nodes| && HeadRows.DistinctIds(nodes)
    ensures PeersOf(nodes[i], nodes) == nodes[..i] + nodes[i + 1..]
  {
    if i == 0 {
      PeersOfOutside(nodes[0], nodes[1..]);
    } else {
      Seqs.BehindFirst(nodes, i);
      PeersAreTheOthers(nodes[1..], i - 1);
      Seqs.Assoc([nodes[0]], nodes[1..][..i - 1], nodes[1..][i..]);
    }
  }

  lemma GroupsValues(headId: nat, peers: seq<Node>)
    ensures var args := PeerArgs(headId, peers);
            && Values(args, "--peer") ==
               seq(|peers|, k requires 0 <= k < |peers| => PeerOf(headId, peers[k]).endpoint)
            && Values(args, "--hydra-verification-key") ==
               seq(|peers|, k requires 0 <= k < |peers| => PeerOf(headId, peers[k]).verificationKey)
            && Values(args, "--cardano-verification-key") ==
               seq(|peers|, k requires 0 <= k < |peers| => PeerOf(headId, peers[k]).cardanoVerificationKey)
  {
    forall p | p in peers ensures
      var args := PairArgs(PeerGroup(headId, p)); var peer := PeerOf(headId, p);
      && Values(args, "--peer") == [peer.endpoint]
      && Values(args, "--hydra-verification-key") == [peer.verificationKey]
      && Values(args, "--cardano-verification-key") == [peer.cardanoVerificationKey]
    {
      GroupValues(headId, p);
    }
    PeerValues(headId, peers, "--peer", p => PeerOf(headId, p).endpoint);
    PeerValues(headId, peers, "--hydra-verification-key", p => PeerOf(headId, p).verificationKey);
    PeerValues(headId, peers, "--cardano-verification-key", p => PeerOf(headId, p).cardanoVerificationKey);
  }

  /** Reading the flat line back finds exactly the other nodes of the head, in order, each with its keys. */
  lemma ReadBack(headId: nat, nodes: seq<Node>, i: nat, settings: Settings) returns (args: seq<Arg>)
    requires i < |nodes| && HeadRows.DistinctIds(nodes)
    ensures Parse(Cmd(headId, nodes[i], nodes, settings)) == Some(args)
    ensures var others := nodes[..i] + nodes[i + 1..];
            ReadPeers(args) == Some(seq(|others|, k requires 0 <= k < |others| => PeerOf(headId, others[k])))
  {
    var node := nodes[i];
    var shared := ParseCmd(headId, node, nodes, settings);
    args := Args(headId, node, nodes, shared);
    PeersAreTheOthers(nodes, i);
    var others := PeersOf(node, nodes);
    GroupsValues(headId, others);
    OnlyPeersNamePeers(headId, node, nodes, shared, "--peer");
    OnlyPeersNamePeers(headId, node, nodes, shared, "--hydra-verification-key");
    OnlyPeersNamePeers(headId, node, nodes, shared, "--cardano-verification-key");
    assert ReadPeers(args).value == seq(|others|, k requires 0 <= k < |others| => PeerOf(headId, others[k]));
  }

  lemma EndpointRead(host: string, port: nat)
    requires FreeOf(host, {':'})
    ensures ReadEndpoint(Endpoint(host, port)) == Some((host, port))
  {
    SplitFirst(host, ':', NatToString(port));
    NumeralFreeOf(port, {':'});
    SplitWhole(NatToString(port), ':');
    NatTextExact(NatToString(port), port);
  }

  lemma NodeNameFree(id: nat)
    ensures FreeOf(NodeName(id), {':'})
  {
    NumeralFreeOf(id, {':'});
  }

  lemma Regroup4(a: string, b: string, c: string, d: string, e: string)
    ensures a + b + c + d + e == a + (b + c + d + e)
  {
  }

  lemma HostFile(headId: nat, file: string, folder: string)
    ensures HostPath(DataPath(headId, file), folder) == Some(HeadDir(headId, folder) + "/" + file)
  {
    var path := DataPath(headId, file);
    var rest := "/head-" + NatToString(headId) + "/" + file;
    assert "/data/head-" == "/data" + "/head-";
    Regroup4("/data", "/head-", NatToString(headId), "/", file);
    assert "/data/" <= path && path[|"/data"|..] == rest;
    Regroup4(RemoveTrailingSlash(folder), "/head-", NatToString(headId), "/", file);
  }

  /** What the reader of args knows of another node: where it answers and which keys it has. */
  predicate Knows(peer: Peer, headId: nat, other: Node, otherArgs: seq<Arg>, folder: string) {
    var base := HeadDir(headId, folder) + "/" + NodeName(other.id);
    && Values(otherArgs, "--advertise") == [peer.endpoint]
    && ReadEndpoint(peer.endpoint).Some? && ReadEndpoint(peer.endpoint).value.0 == NodeName(other.id)
    && Values(otherArgs, "--listen") == [Endpoint("0.0.0.0", ReadEndpoint(peer.endpoint).value.1)]
    && HostPath(peer.verificationKey, folder) == Some(base + ".vk")
    && HostPath(peer.cardanoVerificationKey, folder) == Some(base + ".cardano.vk")
    && base + ".vk" in HeadRows.KeyFiles(headId, other.id, folder)
    && base + ".cardano.vk" in HeadRows.KeyFiles(headId, other.id, folder)
  }

  lemma OwnTexts(headId: nat, node: Node)
    ensures OWN_NAMES[1] == "--listen" && OwnParams(headId, node)[3] == Endpoint("0.0.0.0", node.port + 1000)
    ensures OWN_NAMES[2] == "--advertise" && OwnParams(headId, node)[5] == Endpoint(NodeName(node.id), node.port + 1000)
  {
  }

  lemma OwnEndpoints(headId: nat, node: Node, nodes: seq<Node>, settings: Settings)
    ensures Parse(Cmd(headId, node, nodes, settings)).Some?
    ensures var args := Parse(Cmd(headId, node, nodes, settings)).value;
            && Values(args, "--listen") == [Endpoint("0.0.0.0", node.port + 1000)]
            && Values(args, "--advertise") == [Endpoint(NodeName(node.id), node.port + 1000)]
  {
    var shared := ParseCmd(headId, node, nodes, settings);
    OwnValue(headId, node, nodes, shared, 1);
    OwnValue(headId, node, nodes, shared, 2);
    OwnTexts(headId, node);
  }

  lemma KeyPath(dir: string, name: string, suffix: string)
    ensures dir + "/" + (name + suffix) == dir + "/" + name + suffix
  {
  }

  lemma HostKeys(headId: nat, nodeId: nat, folder: string)
    ensures var base := HeadDir(headId, folder) + "/" + NodeName(nodeId);
            && HostPath(DataPath(headId, NodeName(nodeId) + ".vk"), folder) == Some(base + ".vk")
            && HostPath(DataPath(headId, NodeName(nodeId) + ".cardano.vk"), folder) == Some(base + ".cardano.vk")
  {
    var name := NodeName(nodeId);
    HostFile(headId, name + ".vk", folder);
    HostFile(headId, name + ".cardano.vk", folder);
    KeyPath(HeadDir(headId, folder), name, ".vk");
    KeyPath(HeadDir(headId, folder), name, ".cardano.vk");
  }

  lemma KnowsPeer(headId: nat, nodes: seq<Node>, j: nat, settings: Settings, folder: string)
    requires j < |nodes|
    ensures var cmd := Cmd(headId, nodes[j], nodes, settings);
            Parse(cmd).Some? && Knows(PeerOf(headId, nodes[j]), headId, nodes[j], Parse(cmd).value, folder)
  {
    var other := nodes[j];
    OwnEndpoints(headId, other, nodes, settings);
    NodeNameFree(other.id);
    EndpointRead(NodeName(other.id), other.port + 1000);
    HostKeys(headId, other.id, folder);
  }

  lemma EndpointsApart(a: Node, b: Node)
    requires a.id != b.id
    ensures Endpoint(NodeName(a.id), a.port + 1000) != Endpoint(NodeName(b.id), b.port + 1000)
  {
    NodeNameFree(a.id);
    NodeNameFree(b.id);
    EndpointRead(NodeName(a.id), a.port + 1000);
    EndpointRead(NodeName(b.id), b.port + 1000);
    if NodeName(a.id) == NodeName(b.id) {
      NodeNameInjective(a.id, b.id);
    }
  }

  /** Position of node j among the peers of node i. */
  function PeerIndex(i: nat, j: nat): nat
    requires i != j
  {
    if j < i then j else j - 1
  }

  lemma OthersEndpoints(headId: nat, nodes: seq<Node>, i: nat, j: nat, peers: seq<Peer>)
    requires i < |nodes| && j < |nodes| && i != j && HeadRows.DistinctIds(nodes)
    requires var others := nodes[..i] + nodes[i + 1..];
             peers == seq(|others|, k requires 0 <= k < |others| => PeerOf(headId, others[k]))
    ensures peers[PeerIndex(i, j)] == PeerOf(headId, nodes[j])
    ensures forall k :: 0 <= k < |peers| && k != PeerIndex(i, j) ==>
              peers[k].endpoint != PeerOf(headId, nodes[j]).endpoint
  {
    var others := nodes[..i] + nodes[i + 1..];
    assert others[PeerIndex(i, j)] == nodes[j];
    forall k | 0 <= k < |peers| && k != PeerIndex(i, j) ensures peers[k].endpoint != PeerOf(headId, nodes[j]).endpoint {
      assert others[k] == if k < i then nodes[k] else nodes[k + 1];
      EndpointsApart(others[k], nodes[j]);
    }
  }

  /** For each ordered pair of nodes of a head, the first one's line names the second exactly once, under
      the endpoint it advertises, with the port it listens on and the key files written for it. */
  lemma FullMesh(headId: nat, nodes: seq<Node>, i: nat, j: nat, settings: Settings, folder: string)
      returns (args: seq<Arg>, otherArgs: seq<Arg>, peers: seq<Peer>)
    requires i < |nodes| && j < |nodes| && i != j && HeadRows.DistinctIds(nodes)
    ensures Parse(Cmd(headId, nodes[i], nodes, settings)) == Some(args) && ReadPeers(args) == Some(peers)
    ensures Parse(Cmd(headId, nodes[j], nodes, settings)) == Some(otherArgs)
    ensures |peers| == |nodes| - 1
    ensures Knows(peers[PeerIndex(i, j)], headId, nodes[j], otherArgs, folder)
    ensures forall k :: 0 <= k < |peers| ==>
              (Values(otherArgs, "--advertise") == [peers[k].endpoint] <==> k == PeerIndex(i, j))
  {
    args := ReadBack(headId, nodes, i, settings);
    otherArgs := ReadBack(headId, nodes, j, settings);
    peers := ReadPeers(args).value;
    KnowsPeer(headId, nodes, j, settings, folder);
    OthersEndpoints(headId, nodes, i, j, peers);
  }

  /** No node is told of itself. */
  lemma NoSelfPeer(headId: nat, nodes: seq<Node>, i: nat, settings: Settings) returns (args: seq<Arg>)
    requires i < |nodes| && HeadRows.DistinctIds(nodes)
    ensures Parse(Cmd(headId, nodes[i], nodes, settings)) == Some(args)
    ensures |Values(args, "--advertise")| == 1 && Values(args, "--advertise")[0] !in Values(args, "--peer")
  {
    args := ReadBack(headId, nodes, i, settings);
    OwnEndpoints(headId, nodes[i], nodes, settings);
    var peers := ReadPeers(args).value;
    var others := nodes[..i] + nodes[i + 1..];
    forall k | 0 <= k < |peers| ensures Values(args, "--peer")[k] != Values(args, "--advertise")[0] {
      EndpointsApart(others[k], nodes[i]);
      assert peers[k].endpoint == Values(args, "--peer")[k];
    }
  }

  lemma OwnPaths(headId: nat, node: Node)
    ensures OWN_NAMES[3] == "--hydra-signing-key" && OWN_NAMES[4] == "--persistence-dir"
    ensures OwnParams(headId, node)[7] == DataPath(headId, NodeName(node.id) + ".sk")
    ensures OwnParams(headId, node)[9] == "/data" + PersistenceDir(headId, NodeName(node.id), "")
  {
  }

  lemma HostSigningKeys(headId: nat, nodeId: nat, folder: string)
    ensures var base := HeadDir(headId, folder) + "/" + NodeName(nodeId);
            && HostPath(DataPath(headId, NodeName(nodeId) + ".sk"), folder) == Some(base + ".sk")
            && HostPath(DataPath(headId, NodeName(nodeId) + ".cardano.sk"), folder) == Some(base + ".cardano.sk")
  {
    var name := NodeName(nodeId);
    HostFile(headId, name + ".sk", folder);
    HostFile(headId, name + ".cardano.sk", folder);
    KeyPath(HeadDir(headId, folder), name, ".sk");
    KeyPath(HeadDir(headId, folder), name, ".cardano.sk");
  }

  lemma PersistencePath(headId: nat, name: string, folder: string)
    ensures HostPath("/data" + PersistenceDir(headId, name, ""), folder) == Some(PersistenceDir(headId, name, folder))
  {
    var n := NatToString(headId);
    assert PersistenceDir(headId, name, "") == "/head-" + n + "/persistence-" + name;
    Regroup4(RemoveTrailingSlash(folder), "/head-", n, "/persistence-", name);
    var path := "/data" + PersistenceDir(headId, name, "");
    assert path[..6] == "/data/";
  }

  lemma OwnPort(headId: nat, node: Node)
    ensures OWN_NAMES[0] == "--node-id" && OwnParams(headId, node)[1] == NodeName(node.id)
    ensures OWN_NAMES[5] == "--api-host" && OwnParams(headId, node)[11] == "0.0.0.0"
    ensures OWN_NAMES[6] == "--api-port" && OwnParams(headId, node)[13] == NatToString(node.port)
  {
  }

  /** Name, API port and port listened on, which is 1000 above it, in canonical numerals. */
  predicate NumbersGiven(args: seq<Arg>, node: Node) {
    var apiPorts, listens := Values(args, "--api-port"), Values(args, "--listen");
    && Values(args, "--node-id") == [NodeName(node.id)] && Values(args, "--api-host") == ["0.0.0.0"]
    && |apiPorts| == 1 && Canonical(apiPorts[0]) && ParseNat(apiPorts[0]) == node.port
    && |listens| == 1 && ReadEndpoint(listens[0]) == Some(("0.0.0.0", node.port + 1000))
  }

  lemma OwnNumbers(headId: nat, node: Node, nodes: seq<Node>, shared: seq<Arg>)
    requires NamedIn(shared, SHARED_NAMES)
    ensures NumbersGiven(Args(headId, node, nodes, shared), node)
  {
    OwnPort(headId, node);
    OwnTexts(headId, node);
    OwnValue(headId, node, nodes, shared, 0);
    OwnValue(headId, node, nodes, shared, 1);
    OwnValue(headId, node, nodes, shared, 5);
    OwnValue(headId, node, nodes, shared, 6);
    NatTextExact(NatToString(node.port), node.port);
    EndpointRead("0.0.0.0", node.port + 1000);
  }

  lemma ParametersFile(headId: nat, folder: string)
    ensures HostPath(DataPath(headId, "protocol-parameters.json"), folder) ==
            Some(HeadRows.ProtocolFile(headId, folder))
  {
    HostFile(headId, "protocol-parameters.json", folder);
    assert HeadDir(headId, folder) + "/" + "protocol-parameters.json" == HeadRows.ProtocolFile(headId, folder);
  }

  /** Numbers, settings and network read back as they are configured, and the parameters file is the one
      activation writes. */
  lemma SettingsRead(headId: nat, nodes: seq<Node>, i: nat, settings: Settings, folder: string)
      returns (args: seq<Arg>)
    requires i < |nodes|
    ensures Parse(Cmd(headId, nodes[i], nodes, settings)) == Some(args)
    ensures NumbersGiven(args, nodes[i])
    ensures SettingsGiven(args, headId, settings) && ChainGiven(args, headId, settings.chain)
    ensures HostPath(DataPath(headId, "protocol-parameters.json"), folder) ==
            Some(HeadRows.ProtocolFile(headId, folder))
  {
    var shared := ParseCmd(headId, nodes[i], nodes, settings);
    args := Args(headId, nodes[i], nodes, shared);
    OwnNumbers(headId, nodes[i], nodes, shared);
    SharedOfLine(headId, nodes[i], nodes, shared);
    SharedGive(headId, settings);
    SharedChain(headId, settings);
    SettingsCarry(args, shared, headId, settings);
    ChainAgrees(shared, args, headId, settings.chain);
    ParametersFile(headId, folder);
  }

  /** A node signs with its own keys as create wrote them, and persists where clearing its head looks. */
  lemma OwnFiles(headId: nat, nodes: seq<Node>, i: nat, settings: Settings, folder: string) returns (args: seq<Arg>)
    requires i < |nodes|
    ensures Parse(Cmd(headId, nodes[i], nodes, settings)) == Some(args)
    ensures |Values(args, "--hydra-signing-key")| == |Values(args, SIGNING_NAME)| == 1
    ensures |Values(args, "--persistence-dir")| == 1
    ensures var base := HeadDir(headId, folder) + "/" + NodeName(nodes[i].id);
            && HostPath(Values(args, "--hydra-signing-key")[0], folder) == Some(base + ".sk")
            && HostPath(Values(args, SIGNING_NAME)[0], folder) == Some(base + ".cardano.sk")
            && {base + ".sk", base + ".cardano.sk"} <= HeadRows.KeyFiles(headId, nodes[i].id, folder)
    ensures HostPath(Values(args, "--persistence-dir")[0], folder) ==
            Some(PersistenceDir(headId, NodeName(nodes[i].id), folder))
  {
    var node := nodes[i];
    var shared := ParseCmd(headId, node, nodes, settings);
    args := Args(headId, node, nodes, shared);
    OwnValue(headId, node, nodes, shared, 3);
    OwnValue(headId, node, nodes, shared, 4);
    OwnPaths(headId, node);
    SigningValue(headId, node, nodes, shared);
    HostSigningKeys(headId, node.id, folder);
    PersistencePath(headId, NodeName(node.id), folder);
  }
}
