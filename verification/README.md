# natmap, modelled and proved

natmap keeps a hole open in a NAT: it binds a port, asks a STUN server for the public address, reports
changes to a script, keeps the mapping alive and, if asked, forwards what arrives to a target. This project
models its protocol logic and proves what its parts promise, alone and together.

| files | what they model |
|---|---|
| `Keys`, `SessionTree` | client addresses under `memcmp`, and the forwarder's linked search tree in the heap |
| `Forwarder`, `ForwarderFacts`, `IdleEviction` | the UDP forwarder as a transition system over server and client tasks, its runs, and its runs with a clock |
| `SessionHistory` | what the runs of the forwarder do to its sessions, told from the events alone |
| `UfwdService` | the forwarder's statics and heap tree; every atomic block of code is a method that takes one step of `Forwarder` |
| `Words`, `StunCodec`, `StunRfc` | C words in memory on either host, the attribute walk byte for byte, and the attributes as RFC 5389 writes them |
| `ChangeDetector`, `PublicPort`, `StunClient` | the memory of `cmp_addr`, the stored public port, and `stun_bind` over UDP and TCP |
| `Text`, `ExecRun` | `%u`, `%02x` and the IP4P text |
| `Options` | a value or nothing |
| `Conf`, `Remainders` | option normalising, the port iterator and the retry loop of the keepers |
| `TcpKeeper`, `UdpKeeper` | the two keep-alive automata |
| `Getopt` | the option parser with its state between calls |

`dafny verify dfyconfig.toml` checks everything.

## How the forwarder is modelled

A step is what a task does between two yields. Events stand for what the scheduler and the network choose:
which task runs, what arrives, which calls fail. A state holds the parked phases of the server tasks, the
statics `task`, `sfd` and `quit`, the table of sessions and what STUN last reported. Steps emit actions (open,
register, deregister, close, receive, forward, answer). `Forwarder.Apply` states the rules for these actions
without knowing the forwarder, and `RunsAreSafe` proves that no run of any events, kills and restarts included,
breaks one. The table of the transition system is the map that the heap tree means: `UfwdService` proves for
each method, over `SessionTree.Tree`, that it takes exactly the step of its event, emits its actions, breaks no
rule by them and keeps every open descriptor accounted for.

The red-black library is not part of this model. Rebalancing is any list of rotations (the parameter
`turns`), erasing is rotations followed by a splice; both are implemented on the links and proved to keep the
in-order sequence, which is all that lookups can see.

## What the proofs found

- The walk of `stun_unpack` does not add the padding of section 15 of RFC 5389. A skipped attribute is stepped
  over correctly if and only if its length is a nonzero multiple of 4; with zero padding before a last mapped
  address every other length makes the whole reply fail (`StunRfc.FoundIffAligned`).
- On a big-endian host (`README.md` line 202 of the repository lists s390x) the port of every
  XOR-MAPPED-ADDRESS is off by 0x2112 xor 0xA442 (`StunRfc.XorMappedRoundTrip`).
- Over UDP the reply is decoded with the request's transaction id: an IPv6 address is right exactly when the
  reply carries that id, which is not checked (`StunClient.UdpDecodesOwnId`).
- A change of address family can go unnoticed, under an exact condition (`ChangeDetector.FamilyChangeUnnoticedIff`).
- A public port of 0 is never stored; the stored text is the latest port if and only if that port is not 0
  (`PublicPort.StoredIsLatestIff`).
- The bound of two timeouts on idle sessions is not kept in every run: the yielder sleeps a whole timeout again
  after every early wake. It holds if and only if the last event that put the client task to sleep came within one
  timeout of the session's last packet (`IdleEviction.WithinTwiceIffSleptSoon`). In terms of the wakes: with a
  packet at offset g of a sleep, a wake at offset u of the same sleep and one at offset d of the next window, if
  and only if u + d <= g (`IdleEviction.WakesDecideBound`).
- The last kill of the forwarder is forgotten if and only if a server task gets its socket after it
  (`ForwarderFacts.KillForgottenIff`); that happens to a kill between a binding and the first block of the task
  (`ForwarderFacts.KillBeforeSocketIsLost`).
- An argument vector whose last option lacks its argument makes the option loop fail with exactly the options before
  it (`Getopt.MissingArgumentFails`); every vector spells some options followed by operands, and the loop succeeds on
  it if and only if each word is free of undeclared characters and missing arguments (`Getopt.EveryVectorSpells`,
  `Getopt.NoErrorIffClean`).
- A kill of the TCP keeper while a probe is being sent is lost unless the send would have succeeded and blocks
  again, in which case it times out on the cleared timeout and ends the connection
  (`TcpKeeper.KillDuringSendLostIff`).

## Model

| member | source | states |
|---|---|---|
| `Keys.MemcmpIsRank` | src/hev-ufwd.c:64 | on keys of one length the sign of `memcmp` is the order of the big-endian numbers the keys spell, so it is a total order with equality only on equal keys |
| `SessionTree.Tree.Find` | src/hev-ufwd.c:54-75 | returns exactly what the map of the table says, for any shape of the tree |
| `SessionTree.Tree.Descend` | src/hev-ufwd.c:80-94 | for an absent key the descent ends at the one empty link where the order is kept |
| `SessionTree.Tree.Attach` | src/hev-ufwd.c:96 | the new node hangs below its parent and nothing else moves |
| `SessionTree.Tree.Link` | src/hev-ufwd.c:80-96 | linking before rebalancing is map insert; order and uniqueness are kept |
| `SessionTree.Tree.Add` | src/hev-ufwd.c:77-98 | `session_add` is map insert, whatever rotations the library then makes |
| `SessionTree.Tree.RotateLeft` | src/hev-ufwd.c:97 | a left rotation of the links keeps the in-order sequence, hence the table and every lookup |
| `SessionTree.Tree.RotateRight` | src/hev-ufwd.c:97 | the same for a right rotation |
| `SessionTree.Tree.Rebalance` | src/hev-ufwd.c:97 | any list of rotations leaves nodes, order and table unchanged |
| `SessionTree.Tree.Splice` | src/hev-ufwd.c:103 | taking out a node with at most one child removes exactly its key |
| `SessionTree.Tree.Remove` | src/hev-ufwd.c:100-104 | `session_del` is map remove of exactly this session |
| `SessionTree.Steer` | src/hev-ufwd.c:64-69 | below zero the key can only be in the left subtree, above zero only in the right one: larger keys lie left |
| `SessionTree.SpinOrder` | src/hev-ufwd.c:97 | both shapes of a rotation have the same in-order sequence and nodes |
| `SessionTree.AddEndsIffAbsent` | src/hev-ufwd.c:82-94 | the loop of `session_add` ends if and only if the key is absent |
| `SessionTree.Spins` | src/hev-ufwd.c:82-94 | on a key that is there no number of rounds reaches an empty link |
| `Forwarder.RunsAreSafe` | src/hev-ufwd.c:151-264 | no run of any interleaving breaks a rule on descriptors, registration, datagrams or replies; every reachable state satisfies the invariant |
| `Forwarder.StepKeeps` | src/hev-ufwd.c:151-264 | every event keeps the invariant and emits only permitted actions |
| `Forwarder.EvictKeeps` | src/hev-ufwd.c:184-186 | the end of a client task deregisters and closes the session's own descriptor and leaves all others accounted for |
| `Forwarder.ConnectedKeeps` | src/hev-ufwd.c:231-237 | the hand-over from server to client task: never registered with two tasks, the datagram goes to the new descriptor |
| `Forwarder.FailedKeeps` | src/hev-ufwd.c:122-134 | a failed connect or allocation closes the descriptor once and gives the datagram up |
| `Forwarder.ReplyKeeps` | src/hev-ufwd.c:177-181 | a target datagram is sent unchanged to the client of its own descriptor, and goes out or is refused; without a server socket it is lost |
| `Forwarder.BindingKeeps` | src/hev-stun.c:272-278 | starting the forwarder before storing the port keeps the invariant, at most one server task included |
| `ForwarderFacts.TableIsBijection` | src/hev-ufwd.c:164-243 | in every reachable state the table is a bijection between live client addresses and open upstream descriptors; open ones number sessions plus at most one under construction |
| `ForwarderFacts.AddFindsAbsence` | src/hev-ufwd.c:224-231 | when `session_add` runs there is one server task, the key is still absent and all keys have one length |
| `ForwarderFacts.AimIsLatest` | src/hev-ufwd.c:115-126 | the descriptor opened for a client aims at the `-p` port or, with `-p 0`, at the decimal of the port of the last binding before the client's datagram, unless that is 0; there always is such a binding |
| `ForwarderFacts.ParkedAt` | src/hev-ufwd.c:217-226 | a server task that resolves does so for a datagram of this run from a client not in the table, with the target port chosen then |
| `ForwarderFacts.LogBalances` | src/hev-ufwd.c:122-186 | any log that obeys the rules opens and closes in balance and passes each datagram on once |
| `ForwarderFacts.Conservation` | src/hev-ufwd.c:122-243 | over every run each descriptor is closed once per opening, each datagram forwarded once or given up once, each reply delivered once or missed once (refused or lost) |
| `ForwarderFacts.StaticsTellHistory` | src/hev-ufwd.c:200-264 | `task` is set if and only if a binding has come and no server task has ended since, `sfd` is open if and only if one has got its socket and none has ended since, `quit` is set if and only if a kill has come and none has got its socket since |
| `ForwarderFacts.KillForgottenIff` | src/hev-ufwd.c:200-222 | the last kill is forgotten if and only if a server task gets its socket after it, and a receiving server task can stop without an error if and only if it is not forgotten |
| `ForwarderFacts.KillBeforeSocketIsLost` | src/hev-ufwd.c:208-264 | from any reachable state without a server task: binding, kill, socket end with a server that receives and cannot be stopped |
| `ForwarderFacts.GetsThrough` | src/hev-ufwd.c:161-237 | from any reachable state a new client's datagram can get through and be answered: exactly these actions, on these descriptors, and the session tabled |
| `ForwarderFacts.DrainStep` | src/hev-ufwd.c:161-186 | with no server every client start, timeout, target packet or failure strictly lowers the load |
| `ForwarderFacts.Drains` | src/hev-ufwd.c:161-186 | with no server no run of such events is longer than the load, one as long empties the table, and until then one can happen |
| `SessionHistory.SessionsTellHistory` | src/hev-ufwd.c:161-237 | after any run a client is in the table if and only if a connect for it has succeeded and its task has not ended since; a started session is marked active if and only if a datagram has come from its client since its window began |
| `SessionHistory.SessionEnds` | src/hev-ufwd.c:170-186 | from any reachable state: a receive that fails, a timeout of an unused session and an answer that cannot be sent take exactly this session out of the table, and the log grows by the answer, if any, the deregistration and the close of its descriptor |
| `SessionHistory.SessionGoesOn` | src/hev-ufwd.c:164-182 | from any reachable state: a timeout of a used session and an answer that is sent leave the session, unmarked, and everything else as it was; the answer goes out through the server socket |
| `SessionHistory.KnownIsForwarded` | src/hev-ufwd.c:224-237 | from any reachable state: a datagram of a tabled client goes out on its session's descriptor at once, and the session is marked |
| `SessionHistory.NewIsParked` | src/hev-ufwd.c:224-226 | from any reachable state: a datagram of any other client is taken and the server resolves a target for it |
| `SessionHistory.OpensUpstream` | src/hev-ufwd.c:122 | from any reachable state: the upstream socket is opened for the client and aim resolved, and registered with the server task |
| `SessionHistory.ConnectTables` | src/hev-ufwd.c:231-237 | from any reachable state: a connect that succeeds tables exactly the client in hand and passes its datagram on through the descriptor in hand |
| `SessionHistory.GivesUp` | src/hev-ufwd.c:122-134 | from any reachable state: a resolving or connecting that fails gives the datagram up, closes the descriptor in hand and leaves all sessions |
| `SessionHistory.ServerStarts` | src/hev-ufwd.c:200-208 | from any reachable state: a server task that gets its socket registers it, forgets a kill and leaves all sessions |
| `SessionHistory.ServerEnds` | src/hev-ufwd.c:220-243 | from any reachable state: the end of the server closes its socket only, and all sessions stay |
| `SessionHistory.ClientStarts` | src/hev-ufwd.c:161-167 | from any reachable state: a client task takes its own descriptor over and begins an unmarked window |
| `SessionHistory.SilentEvents` | src/hev-ufwd.c:246-264 | from any reachable state: bindings, kills, wakes and failed starts emit nothing and leave descriptors and sessions alone |
| `SessionHistory.DatagramsAreEvents` | src/hev-ufwd.c:168-237 | over every run the datagrams in the log are those that arrived on either side, unchanged and in their order, and as many are given up as clients could not be resolved or connected |
| `SessionHistory.PubIsBindings` | src/hev-stun.c:272-278 | over every run the stored port and the memory are those of the run's bindings alone |
| `IdleEviction.TickKeeps` | src/hev-ufwd.c:167-175 | every event keeps what the `active` flag means for the last packet and the current window |
| `IdleEviction.ArmedIsLastSleep` | src/hev-misc.c:59-78 | the sleep a timer runs on began at the last event of the run that put the client task to sleep |
| `IdleEviction.LastIsLastPacket` | src/hev-ufwd.c:177-237 | the packet the bounds speak of is the last one of the run that passed for the session in either direction |
| `IdleEviction.BeginMoves` | src/hev-ufwd.c:164-182 | the windows the bounds speak of begin when the client task starts, times out or has sent an answer, and at no other event |
| `IdleEviction.EvictionBounds` | src/hev-ufwd.c:162-175 | over any timed run a session evicted at e had its last packet at a with timeout <= e - a <= 2 * timeout plus what its last two windows exceed a timeout by |
| `IdleEviction.EvictedWithinTwice` | src/hev-ufwd.c:162-175 | in a punctual run, client tasks starting within a timeout of being made, timeout <= e - a <= 2 * timeout |
| `IdleEviction.WithinTwiceIffSleptSoon` | src/hev-misc.c:59-78 | over any timed run a session removed by a timer on time was idle for at most two timeouts if and only if its task last went to sleep within one timeout of its last packet |
| `IdleEviction.WakesDecideBound` | src/hev-misc.c:59-78 | from any state in which a client task goes to sleep, for every packet offset g and wake offsets u and d: idle for at most two timeouts if and only if u + d <= g |
| `UfwdService.Service.Next` | src/hev-ufwd.c:151-264 | from a valid service the actions of any event break no rule and leave every open descriptor accounted for |
| `UfwdService.Service.Recv` | src/hev-ufwd.c:217-237 | receive, find in the heap tree, forward and mark, or start a session: the step of the transition system, its actions within the rules |
| `UfwdService.Service.Resolved` | src/hev-ufwd.c:115-126 | the upstream socket is opened, or the datagram is given up |
| `UfwdService.Service.Connected` | src/hev-ufwd.c:128-141 | the session is made, added to the tree, handed over and used, or everything is undone |
| `UfwdService.Service.ClientStart` | src/hev-ufwd.c:154-167 | the client task registers the descriptor and clears the flag |
| `UfwdService.Service.ClientTimeout` | src/hev-ufwd.c:167-186 | one more window for a session that was used, else deletion from the tree |
| `UfwdService.Service.ClientData` | src/hev-ufwd.c:177-186 | the reply through the current server socket, or the end of the session |
| `UfwdService.Service.ClientFail` | src/hev-ufwd.c:170-186 | an empty datagram or an error ends the session, whether or not there is a server socket; `SessionHistory.SessionEnds` says what that is |
| `UfwdService.Service.Run` | src/hev-ufwd.c:246-255 | a second call while a task exists changes nothing |
| `UfwdService.Service.Kill` | src/hev-ufwd.c:257-264 | sets `quit` and nothing else |
| `UfwdService.Service.ServerStart` | src/hev-ufwd.c:196-208 | the server socket and a cleared `quit`, or the end of the task |
| `UfwdService.Service.ServerStop` | src/hev-ufwd.c:220-243 | the socket is deregistered and closed, the sessions stay |
| `UfwdService.Service.Binding` | src/hev-stun.c:272-278 | the forwarder starts first; the port is stored only if `cmp_addr` saw a change |
| `StunCodec.PackIsBindingRequest` | src/hev-stun.c:175-184 | on either host the bytes sent begin as section 6 of RFC 5389 asks |
| `StunCodec.PackCarriesRandomId` | src/hev-stun.c:175-184 | bytes 8 to 20 of the request are the three random words, so the id is sent as drawn |
| `StunCodec.StunUnpack` | src/hev-stun.c:186-238 | family and out parameters are those of the first attribute the walk reaches, untouched if there is none; all indices stay in bounds |
| `StunCodec.WalkIff` | src/hev-stun.c:193-223 | on either host the walk finds a position if and only if the bytes there are a mapped-address type with a nonzero length below `len` and a chain of other attributes of nonzero lengths leads to it |
| `StunCodec.Visits` | src/hev-stun.c:193-223 | the walk visits at most one position in every 5 bytes |
| `StunCodec.ReadsStayInside` | src/hev-stun.c:193-223 | nothing beyond len + 22 is read: buffers that agree up to there decode alike |
| `StunRfc.StepReachesNext` | src/hev-stun.c:222 | the step over an attribute reaches the next one exactly for nonzero multiples of 4, ends the walk on 0 and falls short by the padding otherwise |
| `StunRfc.WalkSkips` | src/hev-stun.c:193-223 | any list of unrelated attributes of such lengths is skipped |
| `StunRfc.WalkFinds` | src/hev-stun.c:193-223 | the first attribute of either kind is the one decoded, whatever follows |
| `StunRfc.DecodeByte` | src/hev-stun.c:204-219 | on either host decoding masks every address byte with the header byte of the same place |
| `StunRfc.MagicOnPort` | src/hev-stun.c:213 | the truncated magic masks the port with 0x2112 on a little-endian host and 0xA442 on a big-endian one |
| `StunRfc.AnyMagicOnPort` | src/hev-stun.c:213 | the same for the magic of any received header |
| `StunRfc.MappedRoundTrip` | src/hev-stun.c:204-211 | MAPPED-ADDRESS of section 15.1 decodes to the encoded family, address and port |
| `StunRfc.XorMappedRoundTrip` | src/hev-stun.c:212-219 | XOR-MAPPED-ADDRESS of section 15.2: family always, port right on little-endian hosts and off by a fixed mask on big-endian ones, address right if and only if IPv4 or ids equal |
| `StunRfc.FoundIffAligned` | src/hev-stun.c:193-235 | the mapped address behind one more unrelated attribute is found if and only if its length is a nonzero multiple of 4; otherwise the reply fails |
| `StunRfc.CodeDecides` | src/hev-stun.c:225-235 | a mapped address is accepted if and only if its family code is 1 or 2; any other code makes the reply fail |
| `StunClient.StunUdp` | src/hev-stun.c:150-173 | sends the one packed message until the first send failure or answer, ten times at most, and returns that answer |
| `StunClient.StunTcp` | src/hev-stun.c:119-148 | succeeds exactly if both parts arrive with a size in 1..2048; the key is then the reply's own header |
| `StunClient.TcpDecodesAnyId` | src/hev-stun.c:132-147 | over TCP, for any transaction id: the walk reaches the attribute, the address is the encoded one, and the port on a little-endian host |
| `StunClient.UdpDecodesOwnId` | src/hev-stun.c:156-169 | over UDP the walk reaches the attribute, the port does not depend on the id, and the address is right if and only if it is IPv4 or the reply carries the request's id |
| `StunClient.SeenIsEncoded` | src/hev-stun.c:266-274 | for a reply that skips any aligned attributes and then holds either mapped attribute: what `cmp_addr` is passed is the encoded family and port, the given bound address and port, and the encoded address exactly under the id condition |
| `StunClient.EndToEnd` | src/hev-stun.c:212-218 | for IPv4 on a little-endian host: encode, decode, print IP4P, read by its layout gives the pair back |
| `StunClient.Client.Report` | src/hev-stun.c:274-278 | a binding is remembered, the script's arguments are those of this binding if it differs from the one before, and untouched otherwise |
| `StunClient.Client.Digest` | src/hev-stun.c:266-280 | one reply: the observation recorded, the script's arguments those of this observation, nothing changed on failure; `SeenIsEncoded` says what the observation is |
| `StunClient.Client.BindUdp` | src/hev-stun.c:240-280 | the round trip of a binding over UDP: if the answer that ends the tries carries an encoded reply the binding succeeds, records the encoded family, port and, exactly under the id condition, address with the given bound address and port, stores the port, and a script call gets the encoded port, the bound port and the IP4P text of both; it fails exactly if no answer comes or none unpacks |
| `StunClient.Client.BindTcp` | src/hev-stun.c:240-280 | the same round trip over TCP for any transaction id in the reply's header; it succeeds exactly if both parts arrive, the size fits and the body unpacks |
| `ChangeDetector.Detector.CmpAddr` | src/hev-stun.c:79-117 | the or-ed comparisons are nonzero if and only if some compared field differs; the memory becomes this binding |
| `ChangeDetector.MemoryIsSignature` | src/hev-stun.c:99-114 | within one family the memory is exactly the compared part of the binding before |
| `ChangeDetector.CallsAreChanges` | src/hev-stun.c:274-278 | over a single-family run the script calls are the observations without consecutive repeats, from the all-zero memory on |
| `ChangeDetector.SqueezeKeepsChanges` | src/hev-stun.c:274-278 | what that means: an observation is kept if and only if it differs from the one before |
| `ChangeDetector.TailIgnored` | src/hev-stun.c:205-217 | for IPv4 the words beyond the first never cause or suppress a call |
| `ChangeDetector.FamilyChangeUnnoticedIff` | src/hev-stun.c:99-114 | exactly when a change of family goes unnoticed |
| `PublicPort.BindAgrees` | src/hev-stun.c:274-277 | a binding keeps the stored text equal to the remembered port, unless that is 0 |
| `PublicPort.RunAgrees` | src/hev-conf.c:294-301 | the same over every run |
| `PublicPort.StoredIsLatestIff` | src/hev-conf.c:294-301 | the stored text is the decimal of the latest port if and only if that port is not 0 |
| `PublicPort.StoredIsLatestNonzero` | src/hev-conf.c:294-301 | a port of 0 stores nothing: the stored text is the decimal of the latest port that is not 0 |
| `PublicPort.NothingStored` | src/hev-conf.c:294-301 | the text is empty as long as every port was 0 |
| `ExecRun.Ip4pRoundTrip` | src/hev-exec.c:114-116 | a text reads back to port and address if and only if it is their IP4P text |
| `ExecRun.Ip4pInjective` | src/hev-exec.c:114-116 | two bindings share an IP4P text only if port and address agree |
| `ExecRun.Ip4p` | src/hev-exec.c:114-116 | the text is always 20 characters |
| `ExecRun.Buffers.Run` | src/hev-exec.c:104-119 | the port texts are the decimal texts of the ports and no others, the IP4P text that of address and port, empty for IPv6, below 32 bytes |
| `Text.Hex2Back` | src/hev-exec.c:115 | two hexadecimal digits spell one byte and only its own two do |
| `Text.DecimalRoundTrip` | src/hev-exec.c:110-112 | a text reads as a number if and only if it is what `%u` prints for it |
| `Text.DecimalInjective` | src/hev-exec.c:110-112 | two numbers print alike only if equal |
| `Conf.Settings.Init` | src/hev-conf.c:141-189 | accepts exactly the documented combinations, on the raw options: a second port below the first is rejected unless it is 0, a nonzero one is kept as the upper end, a missing or zero one is the first; defaults, cursor and mode as the keepers need them |
| `Conf.Settings.Bport` | src/hev-conf.c:246-268 | a new port only on the first call or on request: the cursor and its successor, or the drawn port; always in range |
| `Conf.DrawsAny` | src/hev-conf.c:252-255 | each block of as many values of `rand ()` as the range has ports draws every port exactly once |
| `Conf.Starts` | src/hev-unsk.c:98-109 | over a whole run start k uses lo plus the failures so far modulo the range, changes ports only after a failed start, and with one port both modes agree |
| `Conf.PortStep` | src/hev-tnsk.c:101-112 | a failed start moves to the cyclic successor, any other keeps the port |
| `Conf.EveryPortOnce` | src/hev-conf.c:246-268 | as many consecutive failures as ports try every port exactly once |
| `Conf.Allocate` | src/hev-conf.c:118-268 | from the raw options to the ports used: each is one that `-b` asks for, and without `~` any round of as many consecutive failures as ports uses every port of the raw range in exactly one start |
| `TcpKeeper.Keeper.KeepAlive` | src/hev-tnsk.c:50-72 | on every outcome trace makes exactly the calls of the reference, each with its timeout, and stops exactly at the call that the reference names |
| `TcpKeeper.SendEndsIff` | src/hev-tnsk.c:53-58 | a probe ends the connection if and only if it fails, or blocks again with the timeout cleared by a kill |
| `TcpKeeper.ReceiveEndsIff` | src/hev-tnsk.c:61-71 | without a kill since the probe a receive ends the connection if and only if it returns 0 or an error other than the timeout, or times out right after a probe that was not the first: data clears one missed answer |
| `TcpKeeper.KilledReceiveEndsIff` | src/hev-tnsk.c:61-71 | after a kill any receive that brings no data ends the connection |
| `TcpKeeper.ProbeIff` | src/hev-tnsk.c:50-66 | a call of a lasting connection is a probe if and only if it is the first or the call before is a receive that timed out and was not killed |
| `TcpKeeper.ReceiveWaits` | src/hev-tnsk.c:60-63 | a receive waits for the whole interval if and only if no kill has come since the probe, and for no time at all otherwise |
| `TcpKeeper.ProbesAreTimeouts` | src/hev-tnsk.c:50-72 | probes sent are one more than timeouts tolerated |
| `TcpKeeper.KillEndsProbing` | src/hev-tnsk.c:134-141 | after a kill during the receives no further probe goes out on the connection |
| `TcpKeeper.KillDuringSendLostIff` | src/hev-tnsk.c:53-60 | a kill while a probe is sent leaves all probes and ends as they were without it if and only if the send does not block again or would fail anyway; the connection ends there if and only if it blocks again or fails |
| `TcpKeeper.SilentPeerDropped` | src/hev-tnsk.c:50-72 | a silent peer, every receive lasting the timeout it is made with, is dropped after two intervals plus the time of two sends |
| `UdpKeeper.Keeper.KeepAlive` | src/hev-unsk.c:42-80 | each elapsed interval does one act, check or refresh, by a schedule stated on the acts alone; an interval in which a kill comes, a refresh that fails and the first interval after an earlier kill are the last, a sleep cut short does no act, and otherwise the loop goes on |
| `UdpKeeper.ActDecided` | src/hev-unsk.c:56-61 | every act from the ones before: a check exactly without the forwarder's socket or `cycle` intervals after the latest check |
| `UdpKeeper.WindowHasCheck` | src/hev-unsk.c:56-61 | any `cycle` consecutive intervals contain a check |
| `UdpKeeper.ChecksOnMultiples` | src/hev-unsk.c:56-61 | with the forwarder's socket open throughout the checks are exactly the multiples of `cycle` |
| `Getopt.Parser.Next` | src/hev-compat.c:20-61 | one call on any argument vector: no index out of bounds, result and globals as specified; `AnswerFromCharacters` says what the result means |
| `Getopt.AnswerFromCharacters` | src/hev-compat.c:27-60 | from the characters of vector and `optstring` alone: -1 if and only if no option is ahead; `'?'` if and only if the character is a colon, undeclared or a question mark, or wants an argument and is the last of the last word; else the character |
| `Getopt.Parser.Options` | src/hev-conf.c:86-139 | the option loop succeeds if and only if no call reports an error and then has collected the whole parse, else exactly what precedes the first `'?'` |
| `Getopt.EveryOptionConsumes` | src/hev-compat.c:20-61 | on any vector every call that returns an option shortens the text that remains |
| `Getopt.ParseInvertsSpelling` | src/hev-compat.c:20-61 | from any word on, every spelling of an option list, undeclared characters and a missing last argument included, parses to exactly the items and errors spelled, then -1 at the first operand |
| `Getopt.GetoptInvertsSpelling` | src/hev-compat.h:22-33 | the same from the program's first call; what is left are the operands behind `--` if there is one |
| `Getopt.EveryVectorSpells` | src/hev-compat.c:20-61 | every argument vector is such a spelling followed by operands, so the inversion covers all vectors |
| `Getopt.NoErrorIffClean` | src/hev-conf.c:86-139 | a spelling parses without an error if and only if all its characters are declared and no argument is missing |
| `Getopt.MissingArgumentFails` | src/hev-compat.c:43-51 | clean words and then one whose last option lacks its argument: exactly the items spelled, then the error at which the option loop fails |
| `Getopt.RenderIsLegal` | src/hev-compat.h:22-33 | every list of declared options has a legal spelling |

## Assumptions

- A task runs alone between two yields. The two sends of the forwarder (lines 177 and 236 of `src/hev-ufwd.c`)
  complete without yielding, and so does everything between `handler ()` and the end of `stun_bind`.
- A new descriptor is one that is not open. All client addresses have one length, as the family is configured once.
- The forwarder runs in UDP mode with a target; its target port is read when `session_new` starts.
- `rand ()`, the network's answers, kills and failures are parameters: the theorems hold for all of them.
- In timed runs a receive times out only after a whole timeout of sleep since it was last armed
  (`hev_io_yielder`); the punctual runs add that timers fire on time, nothing wakes early and a client task
  starts within a timeout of being made.

## Left out

- Sockets, DNS, interfaces and marks (`src/hev-sock.c`): system calls; what is used of them is an open registered descriptor or a failure that leaves nothing open.
- Scanning `/proc`, congestion control and daemonising (`src/hev-misc.c`), `src/hev-main.c`, process spawning and `inet_ntop` (`src/hev-exec.c`): foreign calls.
- The TCP forwarder (`src/hev-tfwd.c`): its data path is a library splice, its run and kill have the shape of the UDP one.
- The colours of the red-black tree and with them its height: the library is not part of this model; `turns` stands for any rotations.
- The scheduler: which parked task a wake-up reaches. That a killed forwarder does stop is not proved; that it may stop in every receive is.
- The values that option arguments are parsed into (`sscanf`, `strtoul`), and the getters of `src/hev-conf.c`.
- Conf.Settings.Bport: requires a range within 0..65535, as `-b` documents it; the source does not check that, and beyond it the additions of the port iterator can overflow.
- Conf.Allocate: the same range of port values.
- Conf.Starts: takes the outcome of each start as given and leaves out the pause of 5 seconds between starts.
- UdpKeeper.Keeper.KeepAlive: requires the check cycle to fit a signed int, which the source's counter needs and does not check.
- StunClient.StunTcp: the header is what the message holds after the receive, so that a short header leaves the request's last bytes in it.
- UfwdService.Service.Kill: the wake-up of the server task is the scheduler's; the step is `quit` alone.
