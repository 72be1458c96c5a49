/**
  One neighbour-reconciliation pass of a hello node, on values.

  A pass walks the directory listing in order, skips the node's own name and
  every name it already holds a client for, and sets up each other peer:
  dial, record the client, greet.  The first dial or greet that fails ends the
  pass (the node's process exits).  Dial and greet outcomes are not computed
  here: a `Network` value says which addresses refuse a connection and which
  accept one but fail the greeting.

  `NeighborPass` follows the node's own loop step by step; `DiffThenConnect`
  is an independent description (compute the unseen peers, then set them up
  in order until the first failure), and `NeighborPassIsDiffThenConnect`
  proves the two equal.  The properties of a pass are proved from the second.
 */
module Mesh {

  /** One record of the directory: a peer's name and its address. */
  datatype KVPair = KVPair(key: string, value: string)

  /** What the directory's List call returns. */
  datatype Listing = Listed(pairs: seq<KVPair>) | ListError

  /** A greeting client over a connection dialled to `addr`. */
  datatype Handle = Client(addr: string)

  /** Which peers misbehave during a pass: dialling an address in
      `unreachable` fails; greeting through a client dialled to an address in
      `unresponsive` fails. */
  datatype Network = Network(unreachable: set<string>, unresponsive: set<string>)

  /** The outcome of setting up one new peer. */
  datatype Status = Greeted | DialRefused | GreetRefused

  datatype Setup = Setup(clients: map<string, Handle>, status: Status)

  /** How a pass ends: it runs to the end of the listing, or it is cut short
      by a failed List call, a failed dial or a failed greeting. */
  datatype Outcome = Done | ListFailed | DialFailed(peer: string) | GreetFailed(peer: string)

  datatype PassResult = PassResult(clients: map<string, Handle>, outcome: Outcome)

  /** One round of the node's main loop: what List returned and how the peers behaved. */
  datatype Round = Round(listing: Listing, net: Network)

  /** Dial and greet both succeed for this address. */
  predicate Answers(addr: string, net: Network)
  {
    addr !in net.unreachable && addr !in net.unresponsive
  }

  /** The names that occur in a listing. */
  function ListedNames(pairs: seq<KVPair>): set<string>
  {
    if pairs == [] then {} else {pairs[0].key} + ListedNames(pairs[1..])
  }

  /** Setting up one peer: the dial either fails, leaving the clients as they
      are, or yields a client that is recorded before the greeting is sent. */
  function SetUp(clients: map<string, Handle>, peerName: string, peerAddr: string, net: Network): Setup
  {
    if peerAddr in net.unreachable then Setup(clients, DialRefused)
    else
      var recorded := clients[peerName := Client(peerAddr)];
      if peerAddr in net.unresponsive then Setup(recorded, GreetRefused)
      else Setup(recorded, Greeted)
  }

  /** The node's loop over the listing, entry by entry. */
  function NeighborPass(self: string, clients: map<string, Handle>, pairs: seq<KVPair>, net: Network): PassResult
    decreases |pairs|
  {
    if pairs == [] then PassResult(clients, Done)
    else
      var entry := pairs[0];
      if entry.key == self || entry.key in clients then NeighborPass(self, clients, pairs[1..], net)
      else
        var s := SetUp(clients, entry.key, entry.value, net);
        match s.status
        case Greeted => NeighborPass(self, s.clients, pairs[1..], net)
        case DialRefused => PassResult(s.clients, DialFailed(entry.key))
        case GreetRefused => PassResult(s.clients, GreetFailed(entry.key))
  }

  /** A whole pass: a failed List call ends it before any peer is looked at. */
  function Reconcile(self: string, clients: map<string, Handle>, listing: Listing, net: Network): PassResult
  {
    match listing
    case ListError => PassResult(clients, ListFailed)
    case Listed(pairs) => NeighborPass(self, clients, pairs, net)
  }

  // ---------------------------------------------------------------------------
  // The reference description: diff, then connect.
  // ---------------------------------------------------------------------------

  /** The unseen peers of a listing, in listing order: neither the node itself
      nor a name in `known` nor a name met earlier in the listing. */
  function Unseen(self: string, known: set<string>, pairs: seq<KVPair>): seq<KVPair>
    decreases |pairs|
  {
    if pairs == [] then []
    else if pairs[0].key == self || pairs[0].key in known then Unseen(self, known, pairs[1..])
    else [pairs[0]] + Unseen(self, known + {pairs[0].key}, pairs[1..])
  }

  /** The clients after recording a client for each peer of `peers`, in order. */
  function Installed(clients: map<string, Handle>, peers: seq<KVPair>): map<string, Handle>
    decreases |peers|
  {
    if peers == [] then clients
    else Installed(clients[peers[0].key := Client(peers[0].value)], peers[1..])
  }

  /** The position of the first occurrence of `name` in the listing, or the
      listing's length when the name does not occur. */
  function FirstIndexOf(pairs: seq<KVPair>, name: string): (i: nat)
    ensures i <= |pairs|
    ensures i < |pairs| <==> name in ListedNames(pairs)
    ensures i < |pairs| ==> pairs[i].key == name
    ensures forall j :: 0 <= j < i ==> pairs[j].key != name
    decreases |pairs|
  {
    if pairs == [] then 0
    else if pairs[0].key == name then 0
    else 1 + FirstIndexOf(pairs[1..], name)
  }

  /** The position of the first peer whose dial or greeting fails, or the
      number of peers when all of them answer. */
  function FirstFailure(peers: seq<KVPair>, net: Network): (j: nat)
    ensures j <= |peers|
    ensures j < |peers| ==> !Answers(peers[j].value, net)
    ensures forall i :: 0 <= i < j ==> Answers(peers[i].value, net)
    decreases |peers|
  {
    if peers == [] then 0
    else if !Answers(peers[0].value, net) then 0
    else 1 + FirstFailure(peers[1..], net)
  }

  /** A pass described as a diff followed by sequential connection attempts. */
  function DiffThenConnect(self: string, clients: map<string, Handle>, pairs: seq<KVPair>, net: Network): PassResult
  {
    var peers := Unseen(self, clients.Keys, pairs);
    var j := FirstFailure(peers, net);
    if j == |peers| then PassResult(Installed(clients, peers), Done)
    else if peers[j].value in net.unreachable then PassResult(Installed(clients, peers[..j]), DialFailed(peers[j].key))
    else PassResult(Installed(clients, peers[..j + 1]), GreetFailed(peers[j].key))
  }

  // ---------------------------------------------------------------------------
  // The unseen peers.
  // ---------------------------------------------------------------------------

  /** Every unseen peer is a listing entry that is neither the node itself nor
      already known. */
  lemma {:induction false} UnseenSound(self: string, known: set<string>, pairs: seq<KVPair>)
    ensures forall p :: p in Unseen(self, known, pairs) ==> p in pairs && p.key != self && p.key !in known
    decreases |pairs|
  {
    if pairs != [] {
      var rest := pairs[1..];
      assert forall p :: p in rest ==> p in pairs;
      if pairs[0].key == self || pairs[0].key in known {
        UnseenSound(self, known, rest);
      } else {
        UnseenSound(self, known + {pairs[0].key}, rest);
      }
    }
  }

  /** The names of the unseen peers are exactly the listed names other than
      the node's own and the known ones. */
  lemma {:induction false} UnseenNames(self: string, known: set<string>, pairs: seq<KVPair>)
    ensures ListedNames(Unseen(self, known, pairs)) == ListedNames(pairs) - known - {self}
    decreases |pairs|
  {
    if pairs != [] {
      var k, rest := pairs[0].key, pairs[1..];
      if k == self || k in known {
        UnseenNames(self, known, rest);
      } else {
        var u' := Unseen(self, known + {k}, rest);
        UnseenNames(self, known + {k}, rest);
        assert ([pairs[0]] + u')[1..] == u';
        assert ListedNames([pairs[0]] + u') == {k} + ListedNames(u');
      }
    }
  }

  /** The `i`-th unseen peer is neither the node itself nor already known. */
  lemma {:induction false} UnseenFresh(self: string, known: set<string>, pairs: seq<KVPair>, i: nat)
    requires i < |Unseen(self, known, pairs)|
    ensures Unseen(self, known, pairs)[i].key != self && Unseen(self, known, pairs)[i].key !in known
    decreases |pairs|
  {
    var p, rest := pairs[0], pairs[1..];
    if p.key == self || p.key in known {
      UnseenFresh(self, known, rest, i);
    } else if i > 0 {
      UnseenFresh(self, known + {p.key}, rest, i - 1);
    }
  }

  /** The `i`-th unseen peer is the first occurrence of its name in the listing. */
  lemma {:induction false} UnseenAt(self: string, known: set<string>, pairs: seq<KVPair>, i: nat)
    requires i < |Unseen(self, known, pairs)|
    ensures var u := Unseen(self, known, pairs);
      FirstIndexOf(pairs, u[i].key) < |pairs| && pairs[FirstIndexOf(pairs, u[i].key)] == u[i]
    decreases |pairs|
  {
    var p, rest := pairs[0], pairs[1..];
    var u := Unseen(self, known, pairs);
    if p.key == self || p.key in known {
      UnseenAt(self, known, rest, i);
      UnseenSound(self, known, rest);
      assert u[i] in Unseen(self, known, rest);
    } else if i > 0 {
      var u' := Unseen(self, known + {p.key}, rest);
      assert u[i] == u'[i - 1];
      UnseenAt(self, known + {p.key}, rest, i - 1);
      UnseenSound(self, known + {p.key}, rest);
      assert u'[i - 1] in u';
    }
  }

  /** Skipping a leading entry with another name shifts a first occurrence by one. */
  lemma FirstIndexOfTail(pairs: seq<KVPair>, name: string)
    requires pairs != [] && pairs[0].key != name
    ensures FirstIndexOf(pairs, name) == 1 + FirstIndexOf(pairs[1..], name)
  {
  }

  /** An earlier unseen peer first occurs earlier in the listing. */
  lemma {:induction false} UnseenOrderAt(self: string, known: set<string>, pairs: seq<KVPair>, i: nat, j: nat)
    requires i < j < |Unseen(self, known, pairs)|
    ensures var u := Unseen(self, known, pairs);
      FirstIndexOf(pairs, u[i].key) < FirstIndexOf(pairs, u[j].key)
    decreases |pairs|
  {
    var p, rest := pairs[0], pairs[1..];
    var u := Unseen(self, known, pairs);
    UnseenFresh(self, known, pairs, i);
    UnseenFresh(self, known, pairs, j);
    if p.key == self || p.key in known {
      UnseenOrderAt(self, known, rest, i, j);
      FirstIndexOfTail(pairs, u[i].key);
      FirstIndexOfTail(pairs, u[j].key);
    } else {
      var t := Unseen(self, known + {p.key}, rest);
      assert u == [p] + t;
      UnseenFresh(self, known + {p.key}, rest, j - 1);
      FirstIndexOfTail(pairs, u[j].key);
      if i > 0 {
        UnseenFresh(self, known + {p.key}, rest, i - 1);
        FirstIndexOfTail(pairs, u[i].key);
        UnseenOrderAt(self, known + {p.key}, rest, i - 1, j - 1);
      }
    }
  }

  /** The unseen peers are the first occurrences of their names, taken in
      listing order; so no name is set up twice in one pass. */
  lemma UnseenInListingOrder(self: string, known: set<string>, pairs: seq<KVPair>)
    ensures var u := Unseen(self, known, pairs);
      && (forall i :: 0 <= i < |u| ==> FirstIndexOf(pairs, u[i].key) < |pairs| && u[i] == pairs[FirstIndexOf(pairs, u[i].key)])
      && (forall i, j :: 0 <= i < j < |u| ==> FirstIndexOf(pairs, u[i].key) < FirstIndexOf(pairs, u[j].key))
      && (forall i, j :: 0 <= i < j < |u| ==> u[i].key != u[j].key)
  {
    var u := Unseen(self, known, pairs);
    forall i | 0 <= i < |u|
      ensures FirstIndexOf(pairs, u[i].key) < |pairs| && u[i] == pairs[FirstIndexOf(pairs, u[i].key)]
    {
      UnseenAt(self, known, pairs, i);
    }
    forall i, j | 0 <= i < j < |u|
      ensures FirstIndexOf(pairs, u[i].key) < FirstIndexOf(pairs, u[j].key)
    {
      UnseenOrderAt(self, known, pairs, i, j);
    }
  }

  /** When every listed name other than the node's own is known, nothing is unseen. */
  lemma {:induction false} UnseenEmpty(self: string, known: set<string>, pairs: seq<KVPair>)
    requires ListedNames(pairs) - {self} <= known
    ensures Unseen(self, known, pairs) == []
    decreases |pairs|
  {
    if pairs != [] {
      UnseenEmpty(self, known, pairs[1..]);
    }
  }

  // ---------------------------------------------------------------------------
  // Recording clients.
  // ---------------------------------------------------------------------------

  /** Recording clients adds exactly the peers' names. */
  lemma {:induction false} InstalledKeys(clients: map<string, Handle>, peers: seq<KVPair>)
    ensures Installed(clients, peers).Keys == clients.Keys + ListedNames(peers)
    decreases |peers|
  {
    if peers != [] {
      InstalledKeys(clients[peers[0].key := Client(peers[0].value)], peers[1..]);
    }
  }

  /** A name none of the peers carries keeps its client. */
  lemma {:induction false} InstalledKeeps(clients: map<string, Handle>, peers: seq<KVPair>, name: string)
    requires name in clients && name !in ListedNames(peers)
    ensures name in Installed(clients, peers) && Installed(clients, peers)[name] == clients[name]
    decreases |peers|
  {
    if peers != [] {
      InstalledKeeps(clients[peers[0].key := Client(peers[0].value)], peers[1..], name);
    }
  }

  /** With distinct names, each peer ends up with the client dialled to its own address. */
  lemma {:induction false} InstalledValues(clients: map<string, Handle>, peers: seq<KVPair>)
    requires forall i, j :: 0 <= i < j < |peers| ==> peers[i].key != peers[j].key
    ensures forall i :: 0 <= i < |peers| ==>
      peers[i].key in Installed(clients, peers) && Installed(clients, peers)[peers[i].key] == Client(peers[i].value)
    decreases |peers|
  {
    if peers != [] {
      var p, rest := peers[0], peers[1..];
      var recorded := clients[p.key := Client(p.value)];
      InstalledValues(recorded, rest);
      assert FirstIndexOf(rest, p.key) == |rest| by {
        assert forall j :: 0 <= j < |rest| ==> rest[j] == peers[j + 1];
      }
      InstalledKeeps(recorded, rest, p.key);
      forall i | 0 < i < |peers|
        ensures peers[i].key in Installed(clients, peers) && Installed(clients, peers)[peers[i].key] == Client(peers[i].value)
      {
        assert peers[i] == rest[i - 1];
      }
    }
  }

  /** Prefixes of a sequence of peers with distinct names have distinct names. */
  lemma DistinctPrefix(peers: seq<KVPair>, n: nat)
    requires n <= |peers|
    requires forall i, j :: 0 <= i < j < |peers| ==> peers[i].key != peers[j].key
    ensures forall i, j :: 0 <= i < j < n ==> peers[..n][i].key != peers[..n][j].key
  {
  }

  /** A name among the first `n` peers is not among the remaining ones. */
  lemma PrefixNames(peers: seq<KVPair>, n: nat)
    requires n <= |peers|
    requires forall i, j :: 0 <= i < j < |peers| ==> peers[i].key != peers[j].key
    ensures forall i :: n <= i < |peers| ==> peers[i].key !in ListedNames(peers[..n])
  {
    forall i | n <= i < |peers|
      ensures peers[i].key !in ListedNames(peers[..n])
    {
      var f := FirstIndexOf(peers[..n], peers[i].key);
      assert forall j :: 0 <= j < n ==> peers[..n][j].key != peers[i].key;
    }
  }

  // ---------------------------------------------------------------------------
  // The loop and the reference description agree.
  // ---------------------------------------------------------------------------

  /** Recording the first of `n` peers, then the rest. */
  lemma InstalledConsPrefix(clients: map<string, Handle>, p: KVPair, peers: seq<KVPair>, n: nat)
    requires n <= |peers|
    ensures Installed(clients, ([p] + peers)[..n + 1]) == Installed(clients[p.key := Client(p.value)], peers[..n])
  {
    var s := ([p] + peers)[..n + 1];
    assert s[0] == p && s[1..] == peers[..n];
  }

  /** The node's loop computes the diff-then-connect pass. */
  lemma {:induction false} NeighborPassIsDiffThenConnect(self: string, clients: map<string, Handle>, pairs: seq<KVPair>, net: Network)
    ensures NeighborPass(self, clients, pairs, net) == DiffThenConnect(self, clients, pairs, net)
    decreases |pairs|
  {
    if pairs != [] {
      var p, rest := pairs[0], pairs[1..];
      if p.key == self || p.key in clients {
        NeighborPassIsDiffThenConnect(self, clients, rest, net);
      } else {
        var recorded := clients[p.key := Client(p.value)];
        assert recorded.Keys == clients.Keys + {p.key};
        var u' := Unseen(self, recorded.Keys, rest);
        var u := [p] + u';
        assert Unseen(self, clients.Keys, pairs) == u;
        assert u[1..] == u';
        if p.value in net.unreachable {
          assert FirstFailure(u, net) == 0;
          assert u[..0] == [];
        } else if p.value in net.unresponsive {
          assert FirstFailure(u, net) == 0;
          InstalledConsPrefix(clients, p, u', 0);
          assert u'[..0] == [];
        } else {
          NeighborPassIsDiffThenConnect(self, recorded, rest, net);
          var j' := FirstFailure(u', net);
          assert FirstFailure(u, net) == j' + 1;
          if j' == |u'| {
            InstalledConsPrefix(clients, p, u', j');
            assert u[..j' + 1] == u && u'[..j'] == u';
          } else {
            assert u[j' + 1] == u'[j'];
            InstalledConsPrefix(clients, p, u', j');
            if j' + 1 < |u'| + 1 {
              InstalledConsPrefix(clients, p, u', j' + 1);
            }
          }
        }
      }
    }
  }

  // ---------------------------------------------------------------------------
  // Properties of one pass.
  // ---------------------------------------------------------------------------

  /** Whatever happens, a listed pass leaves the clients with the first `n`
      unseen peers recorded: all of them when every one answers, those before
      the first failing peer when its dial fails, and that peer too when its
      greeting fails. */
  lemma PassRecordsPrefix(self: string, clients: map<string, Handle>, pairs: seq<KVPair>, net: Network) returns (n: nat)
    ensures n <= |Unseen(self, clients.Keys, pairs)|
    ensures Reconcile(self, clients, Listed(pairs), net).clients == Installed(clients, Unseen(self, clients.Keys, pairs)[..n])
    ensures var u := Unseen(self, clients.Keys, pairs); var j := FirstFailure(u, net);
      && n == (if j == |u| || u[j].value in net.unreachable then j else j + 1)
      && Reconcile(self, clients, Listed(pairs), net).outcome ==
           if j == |u| then Done
           else if u[j].value in net.unreachable then DialFailed(u[j].key)
           else GreetFailed(u[j].key)
  {
    NeighborPassIsDiffThenConnect(self, clients, pairs, net);
    var u := Unseen(self, clients.Keys, pairs);
    var j := FirstFailure(u, net);
    n := if j == |u| || u[j].value in net.unreachable then j else j + 1;
    assert u[..|u|] == u;
  }

  /** No two unseen peers carry the same name. */
  lemma UnseenDistinct(self: string, known: set<string>, pairs: seq<KVPair>)
    ensures var u := Unseen(self, known, pairs);
      forall i, j :: 0 <= i < j < |u| ==> u[i].key != u[j].key
  {
    UnseenInListingOrder(self, known, pairs);
  }

  /** A pass never removes a client and never replaces one. */
  lemma PassKeepsExisting(self: string, clients: map<string, Handle>, listing: Listing, net: Network)
    ensures var r := Reconcile(self, clients, listing, net);
      forall k :: k in clients ==> k in r.clients && r.clients[k] == clients[k]
  {
    if listing.Listed? {
      var pairs := listing.pairs;
      var u := Unseen(self, clients.Keys, pairs);
      var n := PassRecordsPrefix(self, clients, pairs, net);
      UnseenNames(self, clients.Keys, pairs);
      PrefixNamesWithin(u, n);
      forall k | k in clients
        ensures k in Installed(clients, u[..n]) && Installed(clients, u[..n])[k] == clients[k]
      {
        InstalledKeeps(clients, u[..n], k);
      }
    }
  }

  /** A pass adds only listed names, and never the node's own name. */
  lemma PassAddsOnlyListedPeers(self: string, clients: map<string, Handle>, listing: Listing, net: Network)
    ensures var r := Reconcile(self, clients, listing, net);
      && r.clients.Keys >= clients.Keys
      && (listing.ListError? ==> r == PassResult(clients, ListFailed))
      && (listing.Listed? ==> r.clients.Keys <= clients.Keys + (ListedNames(listing.pairs) - {self}))
      && (self !in clients ==> self !in r.clients)
  {
    PassKeepsExisting(self, clients, listing, net);
    if listing.Listed? {
      var pairs := listing.pairs;
      var u := Unseen(self, clients.Keys, pairs);
      var n := PassRecordsPrefix(self, clients, pairs, net);
      UnseenNames(self, clients.Keys, pairs);
      InstalledKeys(clients, u[..n]);
      PrefixNamesWithin(u, n);
    }
  }

  /** The names of a prefix are among the names of the whole. */
  lemma PrefixNamesWithin(peers: seq<KVPair>, n: nat)
    requires n <= |peers|
    ensures ListedNames(peers[..n]) <= ListedNames(peers)
  {
    forall k | k in ListedNames(peers[..n])
      ensures k in ListedNames(peers)
    {
      var f := FirstIndexOf(peers[..n], k);
      assert peers[f].key == k;
      assert FirstIndexOf(peers, k) <= f;
    }
  }

  /** A pass that runs to the end holds a client for exactly the old names
      plus every listed name other than the node's own. */
  lemma PassDoneKeys(self: string, clients: map<string, Handle>, pairs: seq<KVPair>, net: Network)
    ensures var r := Reconcile(self, clients, Listed(pairs), net);
      r.outcome == Done ==> r.clients.Keys == clients.Keys + (ListedNames(pairs) - {self})
  {
    NeighborPassIsDiffThenConnect(self, clients, pairs, net);
    var peers := Unseen(self, clients.Keys, pairs);
    UnseenNames(self, clients.Keys, pairs);
    InstalledKeys(clients, peers);
  }

  /** When every listed address answers, the pass runs to the end. */
  lemma PassAllAnswer(self: string, clients: map<string, Handle>, pairs: seq<KVPair>, net: Network)
    requires forall i :: 0 <= i < |pairs| ==> Answers(pairs[i].value, net)
    ensures Reconcile(self, clients, Listed(pairs), net).outcome == Done
  {
    NeighborPassIsDiffThenConnect(self, clients, pairs, net);
    var peers := Unseen(self, clients.Keys, pairs);
    UnseenSound(self, clients.Keys, pairs);
    forall i | 0 <= i < |peers|
      ensures Answers(peers[i].value, net)
    {
      assert peers[i] in peers;
    }
  }

  /** A name that is new to the node gets the client dialled to the address
      of its first occurrence in the listing; a later entry with the same
      name is skipped. */
  lemma PassFirstOccurrenceWins(self: string, clients: map<string, Handle>, pairs: seq<KVPair>, net: Network, k: string)
    ensures var r := Reconcile(self, clients, Listed(pairs), net);
      k in r.clients && k !in clients ==>
        FirstIndexOf(pairs, k) < |pairs| && r.clients[k] == Client(pairs[FirstIndexOf(pairs, k)].value)
  {
    var u := Unseen(self, clients.Keys, pairs);
    var n := PassRecordsPrefix(self, clients, pairs, net);
    var m := Installed(clients, u[..n]);
    InstalledKeys(clients, u[..n]);
    if k in m && k !in clients {
      UnseenDistinct(self, clients.Keys, pairs);
      DistinctPrefix(u, n);
      InstalledValues(clients, u[..n]);
      var f := FirstIndexOf(u[..n], k);
      assert u[..n][f] == u[f];
      UnseenAt(self, clients.Keys, pairs, f);
    }
  }

  /** Unseen peers are set up in listing order and the first failure ends the
      pass: on a failed dial the failing peer has no client, on a failed
      greeting it already has one; every unseen peer before it has a client
      and none after it does. */
  lemma PassStopsAtFirstFailure(self: string, clients: map<string, Handle>, pairs: seq<KVPair>, net: Network)
    ensures var r := Reconcile(self, clients, Listed(pairs), net);
      var u := Unseen(self, clients.Keys, pairs);
      && r.outcome != ListFailed
      && (r.outcome.DialFailed? ==> r.outcome.peer !in r.clients)
      && (r.outcome.GreetFailed? ==> r.outcome.peer in r.clients)
      && (!r.outcome.Done? ==>
            exists j :: (0 <= j < |u| && u[j].key == r.outcome.peer
              && (forall i :: 0 <= i < j ==> u[i].key in r.clients)
              && (forall i :: j < i < |u| ==> u[i].key !in r.clients)))
  {
    var u := Unseen(self, clients.Keys, pairs);
    var n := PassRecordsPrefix(self, clients, pairs, net);
    var j := FirstFailure(u, net);
    if j < |u| {
      UnseenDistinct(self, clients.Keys, pairs);
      forall i | 0 <= i < |u|
        ensures u[i].key !in clients
      {
        UnseenFresh(self, clients.Keys, pairs, i);
      }
      PrefixSplit(clients, u, n);
      assert 0 <= j < |u| && (forall i :: 0 <= i < j ==> u[i].key in Installed(clients, u[..n]))
        && (forall i :: j < i < |u| ==> u[i].key !in Installed(clients, u[..n]));
    }
  }

  /** After recording the first `n` of the unseen peers, exactly those have
      clients among the unseen peers. */
  lemma PrefixSplit(clients: map<string, Handle>, u: seq<KVPair>, n: nat)
    requires n <= |u|
    requires forall i, j :: 0 <= i < j < |u| ==> u[i].key != u[j].key
    requires forall i :: 0 <= i < |u| ==> u[i].key !in clients
    ensures forall i :: 0 <= i < n ==> u[i].key in Installed(clients, u[..n])
    ensures forall i :: n <= i < |u| ==> u[i].key !in Installed(clients, u[..n])
  {
    InstalledKeys(clients, u[..n]);
    PrefixNames(u, n);
    forall i | 0 <= i < n
      ensures u[i].key in ListedNames(u[..n])
    {
      assert FirstIndexOf(u[..n], u[i].key) <= i;
    }
  }

  /** Once a pass has run to the end, another pass over the same listing
      contacts nobody: it runs to the end and leaves the clients as they are,
      whatever the peers would do. */
  lemma PassConverges(self: string, clients: map<string, Handle>, pairs: seq<KVPair>, net: Network, later: Network)
    ensures var r := Reconcile(self, clients, Listed(pairs), net);
      r.outcome == Done ==> Reconcile(self, r.clients, Listed(pairs), later) == PassResult(r.clients, Done)
  {
    var r := Reconcile(self, clients, Listed(pairs), net);
    if r.outcome == Done {
      PassDoneKeys(self, clients, pairs, net);
      UnseenEmpty(self, r.clients.Keys, pairs);
      NeighborPassIsDiffThenConnect(self, r.clients, pairs, later);
    }
  }

  // ---------------------------------------------------------------------------
  // Successive passes.
  // ---------------------------------------------------------------------------

  /** The node's main loop over a finite run of rounds: passes follow each
      other until one does not run to the end. */
  function Run(self: string, clients: map<string, Handle>, rounds: seq<Round>): PassResult
    decreases |rounds|
  {
    if rounds == [] then PassResult(clients, Done)
    else
      var r := Reconcile(self, clients, rounds[0].listing, rounds[0].net);
      if r.outcome == Done then Run(self, r.clients, rounds[1..]) else r
  }

  /** Successive passes keep every client, add only listed names and never
      the node's own. */
  lemma {:induction false} RunKeepsClients(self: string, clients: map<string, Handle>, rounds: seq<Round>)
    ensures var r := Run(self, clients, rounds);
      && (forall k :: k in clients ==> k in r.clients && r.clients[k] == clients[k])
      && (self !in clients ==> self !in r.clients)
    decreases |rounds|
  {
    if rounds != [] {
      var r := Reconcile(self, clients, rounds[0].listing, rounds[0].net);
      PassKeepsExisting(self, clients, rounds[0].listing, rounds[0].net);
      PassAddsOnlyListedPeers(self, clients, rounds[0].listing, rounds[0].net);
      if r.outcome == Done {
        RunKeepsClients(self, r.clients, rounds[1..]);
      }
    }
  }

  /** With a directory that does not change and peers that all answer in the
      first round, the first pass gives the node a client for every other
      listed name and every later pass leaves that set alone. */
  lemma {:induction false} RunStableDirectory(self: string, clients: map<string, Handle>, pairs: seq<KVPair>, rounds: seq<Round>)
    requires |rounds| > 0
    requires forall i :: 0 <= i < |rounds| ==> rounds[i].listing == Listed(pairs)
    requires forall i :: 0 <= i < |pairs| ==> Answers(pairs[i].value, rounds[0].net)
    ensures Run(self, clients, rounds) == Reconcile(self, clients, Listed(pairs), rounds[0].net)
    ensures Run(self, clients, rounds).outcome == Done
    ensures Run(self, clients, rounds).clients.Keys == clients.Keys + (ListedNames(pairs) - {self})
    decreases |rounds|
  {
    var r := Reconcile(self, clients, Listed(pairs), rounds[0].net);
    PassAllAnswer(self, clients, pairs, rounds[0].net);
    PassDoneKeys(self, clients, pairs, rounds[0].net);
    StableRounds(self, r.clients, pairs, rounds[1..]);
  }

  /** Rounds over a listing the node already covers change nothing. */
  lemma {:induction false} StableRounds(self: string, clients: map<string, Handle>, pairs: seq<KVPair>, rounds: seq<Round>)
    requires forall i :: 0 <= i < |rounds| ==> rounds[i].listing == Listed(pairs)
    requires ListedNames(pairs) - {self} <= clients.Keys
    ensures Run(self, clients, rounds) == PassResult(clients, Done)
    decreases |rounds|
  {
    if rounds != [] {
      UnseenEmpty(self, clients.Keys, pairs);
      NeighborPassIsDiffThenConnect(self, clients, pairs, rounds[0].net);
      assert rounds[0].listing == Listed(pairs);
      StableRounds(self, clients, pairs, rounds[1..]);
    }
  }
}
