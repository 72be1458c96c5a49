# hellonode: neighbour reconciliation, modelled in Dafny

A hello node registers its name and address in a shared directory (Consul),
then polls it every two seconds. On each poll it walks the listing in order.
It skips its own name. It also skips every name it already holds a greeting
client for. For every other peer it dials the peer's address, records the new
client under the peer's name, and sends a greeting carrying its own name. An
inbound greeting is answered with "Hello from " and the node's name.

The model has two modules:

- `Mesh` (mesh.dfy) is the pass on values.
  - `NeighborPass` follows the node's loop entry by entry. `Reconcile` adds the
    failed List call in front of it.
  - `DiffThenConnect` is an independent description of the same pass. It first
    computes the unseen peers (`Unseen`). It then records them in order
    (`Installed`) up to the first peer whose dial or greeting fails
    (`FirstFailure`).
  - `NeighborPassIsDiffThenConnect` proves the two descriptions equal. The
    properties of a pass are proved from the second one.
  - `Run` chains passes over a finite sequence of rounds and stops at the first
    pass that is cut short.
- `HelloNode` (hellonode.dfy) is the node.
  - Class `Node` has the node's identity as constants. Its `clients` field is
    `None` for the nil map a node has before `Start`, and `Some(m)` after.
  - `SetupNewClient`, `GreetAllNeighbors` and `Start` update that field in
    place. Each is proved against the `Mesh` functions.
  - The module also holds the greeting reply (`SayHello`), the argument check
    of the entry point (`ParseArgs`) and the entry point itself (`Launch`).

External calls are inputs:

- The directory's List call is a `Listing`: either the ordered pairs or
  `ListError`.
- Dial and greet outcomes come from a `Network` value. It names the addresses
  whose dial fails (`unreachable`) and the addresses whose greeting fails
  (`unresponsive`).
- The directory registration is a boolean outcome.
- A stored client is `Client(addr)`, the address it was dialled to.

The code treats every failure as fatal. A failed dial or greeting calls
`log.Fatalf`. A failed List call or registration calls `log.Panicln`, and
nothing recovers the panic. The design description of the system instead
calls failed List calls, dials and greetings recoverable: they are to be
retried on the next cycle. It also says a peer is recorded only after a
successful greeting, whereas the code records the client before it greets.
The model follows the code. A failure ends the pass, and with it the node's
run (`Exit.Aborted`). A failed greeting leaves the peer's client recorded.

## Model

| member | source | states |
|---|---|---|
| `HelloNode.SayHello` | hellonode/main.go:30-32 | the reply is the fixed prefix "Hello from " followed by exactly the node's name; it has no error case and does not depend on the request |
| `HelloNode.GreeterOfSayHello` | hellonode/main.go:30-32 | reading the responder's name back from any reply gives the node that sent it, whatever the request was |
| `HelloNode.SayHelloFromGreeter` | hellonode/main.go:31 | every message of the greeting's form is the reply of exactly the node it names, so different names give different replies |
| `HelloNode.ParseArgs` | hellonode/main.go:121-129 | fewer than three arguments, and only then, gives the usage message with exit status 1; otherwise name, listening address and directory address are the first three arguments |
| `HelloNode.ParseArgsIgnoresExtra` | hellonode/main.go:122-129 | arguments past the third do not change the outcome |
| `HelloNode.Node.constructor` | hellonode/main.go:130-135 | the node gets the given name and addresses and a nil client map |
| `HelloNode.Node.SetupNewClient` | hellonode/main.go:85-97 | a failed dial records nothing; otherwise the peer's client is recorded under its name before the greeting, so a failed greeting leaves it recorded; succeeds exactly when dial and greeting both succeed |
| `HelloNode.Node.GreetAllNeighbors` | hellonode/main.go:100-118 | the new client map and the outcome are those of `Mesh.Reconcile`; existing clients are kept unchanged, the node's own name is never added, and a failed List call changes nothing |
| `HelloNode.Node.Start` | hellonode/main.go:68-82 | the client map starts empty; a failed registration stops before any pass; otherwise passes follow each other until one is cut short, the map is that of `Mesh.Run`, and it never holds the node's own name |
| `HelloNode.Launch` | hellonode/main.go:120-137 | the run ends with the usage exit exactly when fewer than three arguments are given; otherwise it ends as the node named by the first argument does |
| `Mesh.UnseenNames` | hellonode/main.go:107-116 | the unseen peers' names are exactly the listed names minus the node's own name minus the names already known |
| `Mesh.UnseenInListingOrder` | hellonode/main.go:107-116 | each unseen peer is the first entry with its name, the unseen peers keep the listing's order, and no name is unseen twice |
| `Mesh.UnseenDistinct` | hellonode/main.go:91-113 | no two unseen peers carry the same name, so a name listed twice is set up only once |
| `Mesh.NeighborPassIsDiffThenConnect` | hellonode/main.go:85-118 | the node's entry-by-entry loop equals the diff of the listing followed by setting up the unseen peers in order up to the first failure |
| `Mesh.PassRecordsPrefix` | hellonode/main.go:86-116 | whatever the outcome, the clients after a pass are the old ones with the first `n` unseen peers recorded, where `n` stops before a failed dial and just after a failed greeting |
| `Mesh.PassKeepsExisting` | hellonode/main.go:91-113 | a pass never removes a client and never replaces one |
| `Mesh.PassAddsOnlyListedPeers` | hellonode/main.go:101-116 | a pass adds only names from the listing, never the node's own name, and a failed List call leaves the map unchanged |
| `Mesh.PassDoneKeys` | hellonode/main.go:91-116 | a pass that runs to the end holds clients for exactly the old names plus every listed name other than the node's own |
| `Mesh.PassAllAnswer` | hellonode/main.go:86-95 | when every listed address answers the dial and the greeting, the pass runs to the end |
| `Mesh.PassFirstOccurrenceWins` | hellonode/main.go:91-113 | a newly added name holds the client dialled to the address of its first entry in the listing |
| `Mesh.PassStopsAtFirstFailure` | hellonode/main.go:86-116 | the first failure ends the pass; a peer whose dial failed has no client and one whose greeting failed has one; unseen peers before it have clients, those after it do not |
| `Mesh.PassConverges` | hellonode/main.go:107-116 | after a pass that ran to the end, a pass over the same listing contacts nobody, ends normally and changes nothing |
| `Mesh.RunKeepsClients` | hellonode/main.go:78-81 | successive passes keep every client and never add the node's own name |
| `Mesh.RunStableDirectory` | hellonode/main.go:78-116 | with a listing that does not change and peers that all answer in the first round, every listed name other than the node's own has a client after the first pass, and later passes change nothing |

## Left out

- The gRPC server: `StartListening`, `net.Listen`, `grpc.NewServer`, the service and reflection registration, and the goroutine that runs them. They are network plumbing running concurrently with the main loop. A failed listen or serve, which also ends the process, is not modelled.
- The gRPC client. `grpc.Dial` and the `SayHello` call are success or failure outcomes given by `Network`. The greeting reply received from a peer is only logged, so it is not modelled.
- `defer conn.Close()`: the connection under a recorded client is closed when `SetupNewClient` returns. `Handle` does not track this. The code never uses a recorded client again, except to test whether a name is present.
- The Consul client: `api.NewClient`, `kv.Put` and `kv.List`. Registration is a boolean outcome. The listing is an input. The filtering of keys by the `"Node"` prefix happens inside Consul, so it is not modelled, and `Listing` may hold any keys.
- The address is carried as a string; the conversion of Consul's byte value to a string is not modelled.
- `time.Sleep` and the endless loop. The model runs a finite sequence of rounds with no clock. `Exit.Polling` stands for a loop that is still running.
- Logging, and the numeric exit statuses of `log.Fatalf` and of an unrecovered panic. Every such end is an `Exit` value naming its cause.
- `Node.GreetAllNeighbors` and `Node.SetupNewClient` require a non-nil client map. The code only calls them after `Start` has set one. With a nil map, a write would panic.
- A test `Clients[k] == nil` is modelled as `k` being absent. The clients the code stores are never nil.
- Retrying a failed peer on a later cycle, and the three-node end-to-end scenario. The code ends the process at the first failure, so there is no later cycle to retry in. The scenario needs several processes and a shared directory.
