/**
  The hello node itself: its identity, its table of neighbour clients, the
  greeting it answers with, the start-up argument check and the main loop.
  Each pass over the directory is proved to do what `Mesh.Reconcile` says.
 */
module HelloNode {
  import opened Mesh

  datatype Option<T> = None | Some(value: T)

  /** A greeting request carries the caller's name. */
  datatype HelloRequest = HelloRequest(name: string)

  /** A greeting reply carries a human-readable message. */
  datatype HelloReply = HelloReply(message: string)

  const GreetingPrefix: string := "Hello from "

  /** The answer a node gives to every inbound greeting: the fixed prefix
      followed by its own name.  The request does not enter into it, and there
      is no error case. */
  function SayHello(self: string, req: HelloRequest): (reply: HelloReply)
    ensures |reply.message| == |GreetingPrefix| + |self|
    ensures reply.message[..|GreetingPrefix|] == GreetingPrefix
    ensures reply.message[|GreetingPrefix|..] == self
  {
    HelloReply(GreetingPrefix + self)
  }

  /** The responder's name read back from a greeting message, if it has the
      greeting's form. */
  function Greeter(message: string): Option<string>
  {
    if |GreetingPrefix| <= |message| && message[..|GreetingPrefix|] == GreetingPrefix
    then Some(message[|GreetingPrefix|..])
    else None
  }

  /** A reply names the node that sent it, whatever the request was. */
  lemma GreeterOfSayHello(self: string, req: HelloRequest)
    ensures Greeter(SayHello(self, req).message) == Some(self)
  {
  }

  /** Every message in the greeting's form is the reply of exactly the node it
      names, so two nodes with different names never send the same reply. */
  lemma SayHelloFromGreeter(message: string, req: HelloRequest)
    requires Greeter(message).Some?
    ensures SayHello(Greeter(message).value, req).message == message
  {
  }

  // ---------------------------------------------------------------------------
  // Start-up arguments.
  // ---------------------------------------------------------------------------

  const UsageMessage: string := "Arguments required: <node name> <listening addr> <consul addr>"

  /** What the start-up check decides: print the usage line and exit with a
      status, or go on with the node's name, listening address and directory
      address. */
  datatype Startup =
    | Usage(message: string, status: int)
    | Config(name: string, addr: string, sdAddress: string)

  /** The argument check of the program's entry point; `args` are the
      arguments after the program name. */
  function ParseArgs(args: seq<string>): (r: Startup)
    ensures r.Usage? <==> |args| < 3
    ensures r.Usage? ==> r.message == UsageMessage && r.status == 1
    ensures r.Config? ==> r.name == args[0] && r.addr == args[1] && r.sdAddress == args[2]
  {
    if |args| < 3 then Usage(UsageMessage, 1)
    else Config(args[0], args[1], args[2])
  }

  /** Arguments past the third are ignored. */
  lemma ParseArgsIgnoresExtra(args: seq<string>, extra: seq<string>)
    requires |args| >= 3
    ensures ParseArgs(args + extra) == ParseArgs(args)
  {
  }

  // ---------------------------------------------------------------------------
  // The node.
  // ---------------------------------------------------------------------------

  /** How the node's process ends: with the usage message, because the
      directory registration failed, because a pass was cut short, or not at
      all within the rounds considered (the real loop never stops). */
  datatype Exit = UsageExit | RegisterFailed | Aborted(cause: Outcome) | Polling

  /** The exit a node named `self` comes to when its registration succeeds or
      fails as `registered` says and its passes meet `rounds`. */
  function Lifetime(self: string, registered: bool, rounds: seq<Round>): Exit
  {
    if !registered then RegisterFailed
    else
      var r := Run(self, map[], rounds);
      if r.outcome == Done then Polling else Aborted(r.outcome)
  }

  class Node {
    const name: string
    const addr: string
    const sdAddress: string
    /** The neighbour clients by peer name; `None` stands for the nil map a
        node holds before it is started. */
    var clients: Option<map<string, Handle>>

    /** A node as the entry point builds it: identity set, no client table yet. */
    constructor (name: string, addr: string, sdAddress: string)
      ensures this.name == name && this.addr == addr && this.sdAddress == sdAddress
      ensures clients == None
    {
      this.name := name;
      this.addr := addr;
      this.sdAddress := sdAddress;
      clients := None;
    }

    /** Sets up a client for a peer not yet known: dial, record the client,
        greet.  A failed dial records nothing; a failed greeting comes after
        the client was recorded. */
    method SetupNewClient(peerName: string, peerAddr: string, net: Network) returns (status: Status)
      requires clients.Some?
      modifies this
      ensures clients.Some?
      ensures status == DialRefused <==> peerAddr in net.unreachable
      ensures status == Greeted <==> Answers(peerAddr, net)
      ensures status == DialRefused ==> clients == old(clients)
      ensures status != DialRefused ==> clients.value == old(clients.value)[peerName := Client(peerAddr)]
      ensures Setup(clients.value, status) == SetUp(old(clients.value), peerName, peerAddr, net)
    {
      if peerAddr in net.unreachable {
        return DialRefused;
      }
      clients := Some(clients.value[peerName := Client(peerAddr)]);
      if peerAddr in net.unresponsive {
        return GreetRefused;
      }
      return Greeted;
    }

    /** One pass over the directory listing.  The new clients and the outcome
        are those of `Reconcile`; in particular no client is removed or
        replaced and the node's own name is never added. */
    method GreetAllNeighbors(listing: Listing, net: Network) returns (outcome: Outcome)
      requires clients.Some?
      modifies this
      ensures clients.Some?
      ensures PassResult(clients.value, outcome) == Reconcile(name, old(clients.value), listing, net)
      ensures forall k :: k in old(clients.value) ==> k in clients.value && clients.value[k] == old(clients.value)[k]
      ensures name !in old(clients.value) ==> name !in clients.value
      ensures listing.ListError? ==> clients == old(clients) && outcome == ListFailed
    {
      PassKeepsExisting(name, clients.value, listing, net);
      PassAddsOnlyListedPeers(name, clients.value, listing, net);
      match listing {
        case ListError =>
          return ListFailed;
        case Listed(pairs) =>
          var i := 0;
          while i < |pairs|
            invariant 0 <= i <= |pairs|
            invariant clients.Some?
            invariant NeighborPass(name, clients.value, pairs[i..], net) == NeighborPass(name, old(clients.value), pairs, net)
          {
            var entry := pairs[i];
            assert pairs[i..][0] == entry && pairs[i..][1..] == pairs[i + 1..];
            if entry.key != name && entry.key !in clients.value {
              var status := SetupNewClient(entry.key, entry.value, net);
              if status == DialRefused {
                return DialFailed(entry.key);
              }
              if status == GreetRefused {
                return GreetFailed(entry.key);
              }
            }
            i := i + 1;
          }
          return Done;
      }
    }

    /** Starts the node: an empty client table, the directory registration,
        then one pass per round until a pass is cut short.  The exit is the
        one `Lifetime` gives, and the node's own name never gets a client. */
    method Start(registered: bool, rounds: seq<Round>) returns (exit: Exit)
      modifies this
      ensures clients.Some?
      ensures exit == Lifetime(name, registered, rounds)
      ensures !registered ==> clients == Some(map[])
      ensures registered ==> clients.value == Run(name, map[], rounds).clients
      ensures name !in clients.value
    {
      clients := Some(map[]);
      if !registered {
        return RegisterFailed;
      }
      RunKeepsClients(name, map[], rounds);
      var i := 0;
      while i < |rounds|
        invariant 0 <= i <= |rounds|
        invariant clients.Some?
        invariant Run(name, clients.value, rounds[i..]) == Run(name, map[], rounds)
      {
        assert rounds[i..][0] == rounds[i] && rounds[i..][1..] == rounds[i + 1..];
        var outcome := GreetAllNeighbors(rounds[i].listing, rounds[i].net);
        if outcome != Done {
          return Aborted(outcome);
        }
        i := i + 1;
      }
      return Polling;
    }
  }

  /** The program's entry point: check the arguments, build the node, start it. */
  method Launch(args: seq<string>, registered: bool, rounds: seq<Round>) returns (exit: Exit)
    ensures exit == UsageExit <==> |args| < 3
    ensures |args| >= 3 ==> exit == Lifetime(args[0], registered, rounds)
  {
    match ParseArgs(args) {
      case Usage(_, _) =>
        return UsageExit;
      case Config(name, addr, sdAddress) =>
        var node := new Node(name, addr, sdAddress);
        exit := node.Start(registered, rounds);
    }
  }
}
