# Verified model of the cluster network allocator

Several daemons share one Consul key/value store. Under `vlanStore` it holds a bitmap of the
virtual network identifiers (VNIs) in use, under `ipStore` one bitmap of addresses for every
network, under `networkStore` the network records. A daemon takes or gives back a bit by reading
the bitmap, flipping the bit in its own copy, and calling `Put`, which reads again, compares by
value and writes with the modify index it saw. On top of this stand the creation and deletion of
networks, the connections of containers, the tunnels between nodes, the reconciler that
completes missing interfaces, and a local replica of the OVSDB tables.

The project proves what this design keeps in every run, and where it does not, the exact
condition under which it does. `dafny verify dfyconfig.toml` checks all of it.

## Layers

| files | what they hold |
|---|---|
| `Words`, `Bitmaps` | 32-bit arithmetic, and byte arrays as sets of naturals |
| `Addresses`, `Keys`, `TextStore` | addresses and subnets as text, store keys, the store keyed by text |
| `Store` | the versioned store, `Get`, `Put` and `Delete` |
| `Allocator`, `AllocatorSafety`, `AllocatorTheorems`, `AllocatorProgress`, `AllocatorFailures` | any number of clients, one request per step, any interleaving, any request or answer lost |
| `Ipam` | the five operations on arrays changed in place and retried among the requests of others, and what their histories look like |
| `Accounts`, `Lifecycle`, `Conservation`, `LifecycleTheorems`, `LifecycleRuns` | CreateNetwork and DeleteNetwork as processes, and runs that lose or share what they take |
| `Connections`, `ConnectionTheorems`, `Daemon` | addConnection, deleteConnection and connHandler |
| `Refinement`, `Attempts`, `Creations` | the allocator calls of every run of the two machines above, what each creation took and gave back, and how whole calls end |
| `Cluster` | creations, deletions and connections together on the same bitmaps |
| `MaskBytes`, `Routes`, `Membership`, `Reconciler`, `Ovsdb` | subnet choice, tunnels, syncNetwork, the table replica |

Networks and connections use a whole allocator operation as one step. `AllocatorTheorems.Linearizable`
says that committed operations behave as if they happened one at a time. `Refinement` names the
operation every step calls, collects the calls of a run in a trace, and proves that the bitmaps are
at all times the replay of that trace, a legal history, and that every connection and every network
has the answers of its own calls.

## Where the code does not keep what a caller would expect

* Only `OUTDATED` is retried. A lost write (`ERROR`) is taken for success, so two clients can be
  given one address or one VNI (`AllocatorFailures.LostCasReturnsSameAddress`,
  `LostCasReturnsSameVNI`). `Put` takes every answer but the word "false" for `OK`, so a client that is
  refused with an error page is told `OK` and owns nothing (`AllocatorFailures.ErrorPageIsOk`). In
  every run a call changed the bitmap exactly when it was told `OK` by anything but an error page, or
  its write was accepted and the answer lost (`AllocatorTheorems.CommitExactly`).
* RequestIP does not test for a full bitmap: without a release between them two committed requests
  return one address exactly when the bitmap was full for both
  (`AllocatorFailures.FullBitmapRepeatsAddress`, `ConnectionTheorems.FullBitmapCollides`).
* The last bits of a small subnet's bitmap, and the last bit of every other, name addresses outside
  the subnet (`Ipam.RequestInsideSubnet` gives the exact condition). deleteConnection parses such an
  address into another subnet, so its bit is not given back (`ConnectionTheorems.LastBitLeaks`); if the
  request fails on the way, it is not given back either (`Daemon.FailedAddLeaksBit`).
* addConnection keeps three characters of the subnet text. With a one-digit prefix length the text of
  address and suffix multiplies the last octet by ten. If that does not fit in an octet, SetInterfaceIp
  cannot parse it: the request fails and leaves its bit set (`Daemon.IllegibleAddFails`). If it does
  fit, the interface gets an address other than the recorded one, exactly when the last octet is not
  zero (`Keys.InterfaceAddrExactly`).
* Two overlapping deletions of one network free its VNI twice, and a single DELETE answered by an error
  page frees the VNI of a network that stays; either way two networks can end up with one VNI
  (`LifecycleRuns.OverlappingDeletionsShareVni`, `ErrorPageSharesVni`). `Conservation.AccountedExactly`
  is the exact condition for the account of the VNIs to balance, and `LifecycleTheorems.DeletionFreesVni`
  says which deletions meet it.
* A creation that loses the race to the write is told ERROR and returns as if all was well: its VNI and
  its gateway stay taken, although no request was lost (`LifecycleRuns.RaceLosesVni`). A failed setup
  leaks both too (`LifecycleRuns.FailedSetupLeaks`). `LifecycleTheorems.LostInRunExactly` is the exact
  condition under which nothing is lost.
* A creation that finds its interface in place, as every retry after a lost name does, stores that
  interface's address and throws RequestIP's answer away (`LifecycleTheorems.ExistingInterface`). Its
  undo then releases an address it did not take, which may be another network's gateway
  (`LifecycleRuns.StrayUndoClearsGateway`).
* DeleteNetwork never gives the gateway address back: its bit is set until a ReleaseIP names exactly it
  (`Attempts.GatewayTakenUntilReleased`, `Refinement.SetUntilReleased`).
* A late failure of addConnection leaves its bit set (`Daemon.FailedAddLeaksBit`). A static address
  is given out a second time, the gateway's own included (`ConnectionTheorems.StaticAddressExact`), and
  deleting that connection then frees the gateway's bit (`StaticGatewayFreed`). A second deletion of one
  connection frees an address that may be someone else's by then (`SecondDeletionExact`), and a second
  request for one container forgets the first address (`OverwritingLeaksBit`). An address is free
  before its entry leaves the connections map (`ReleaseWindow`).
* A connection that is deleted after its network keeps its bit (`Daemon.OrphanKeepsBit`).
* A port that syncNetwork could not complete stays without an address for ever
  (`Reconciler.UnownedForever`), which is the exact obstacle to a complete round
  (`Reconciler.FaultFreeRoundCompletes`). A network list that could not be read counts as an empty one,
  and the round takes away ports of networks that are still stored
  (`Reconciler.StoredKeepPortsExactly`); a port whose deletion did nothing is forgotten and stays
  (`Reconciler.UndeletedForever`).
* A listener registered after the first snapshot never learns of the nodes already there
  (`Membership.TunnelsFollowSnapshots`).
* The comment on TestAndSet promises `len(a)*8+1` for a full slice. From 2^32 bits on the bound
  wraps; for a /0 subnet no bit is ever set (`Bitmaps.WrappedBitmapNeverFills`).

## Model

| member | source | states |
|---|---|---|
| `Bitmaps.BitsAreASet` | util/util.go:213-225 | setting a bit inserts into the set of 1-bits, clearing removes, every other bit and the length stay |
| `Bitmaps.MembersInjective` | util/util.go:213-225 | length and set determine the bytes, so comparing bitmaps by value compares sets |
| `Bitmaps.TakeIsLeastMissing` | util/util.go:230-241 | below 2^32 bits: inserts the least missing natural and returns it plus one; returns 8*len+1 and changes nothing exactly when full |
| `Bitmaps.TakeUnderWrap` | util/util.go:233 | with the 32-bit loop bound, for any length: a bit is taken exactly when one of the first 8*len mod 2^32 bits is clear, and it is the least missing one |
| `Bitmaps.WrappedBitmapNeverFills` | util/util.go:233 | on 2^29 zero bytes the call returns 1 and sets nothing although the bitmap is empty |
| `Bitmaps.Set` | util/util.go:213-215 | in place: the array's set gains k, byte for byte |
| `Bitmaps.Clear` | util/util.go:218-220 | in place: the array's set loses k, byte for byte |
| `Bitmaps.TestAndSet` | util/util.go:230-241 | in place, by its loop: result and array are those of the first clear bit below the 32-bit bound |
| `Store.AfterEvolves` | netAgent/netAgent.go:252-283 | after any writes and deletes of others, an entry with an index not newer than before is the entry that was there before |
| `Store.PutIsAtomicCas` | netAgent/netAgent.go:252-283 | two requests act as one compare-and-swap by value: the write takes effect exactly when it arrives and the key is still absent or still holds the entry compared; then it held oldVal or nothing |
| `Store.NetAgent.Get` | netAgent/netAgent.go:180-210 | value and index of the stored entry; a missing key and a failed request give no value and index 0 |
| `Store.NetAgent.Put` | netAgent/netAgent.go:252-283 | OUTDATED exactly when the value seen differs, store untouched; OK means written over oldVal or an absent key; a "false" answer writes nothing; the exact condition for OK; a lost request or answer is ERROR, and which of those wrote; an error page is OK and writes nothing |
| `Store.NetAgent.Delete` | netAgent/netAgent.go:286-303 | the entry goes exactly when the request reaches the server; OK on any answer, so ERROR leaves it open whether it went |
| `Addresses.DottedRoundTrip` | server/connection.go:300 | parsing the dotted text of an IPv4 address gives the address back |
| `Addresses.MaskedExactly` | server/connection.go:301 | masking an address gives a subnet's base exactly when the address lies in the subnet |
| `Keys.SubnetRoundTrip` | server/connection.go:187 | parsing the text of a subnet gives the subnet back |
| `Keys.IpKeyInjective` | server/network.go:412-424 | the key text VNI-subnet is equal exactly for equal VNI and subnet, and never the VNI bitmap's key |
| `Keys.SlotTextInjective` | server/network.go:323-339 | bitmaps and store keys correspond one to one |
| `Keys.RebuiltText` | server/connection.go:301 | what deleteConnection parses, for every address: the block of that prefix length around the address, or nothing when the prefix has one digit and ten times the last octet does not fit |
| `Keys.RebuiltExactly` | server/connection.go:202-205 | for every address, the subnet parsed is the one addConnection used exactly when the address lies in it and its text is legible |
| `Keys.OneDigitPrefixLosesAddress` | server/connection.go:203 | the text of 10.1.2.30 in 10.0.0.0/8 is no address with a prefix |
| `Keys.InterfaceAddrExactly` | server/connection.go:250 | for every address: SetInterfaceIp parses its text exactly when it is legible, and the interface then gets the recorded address exactly when the prefix has two digits or the last octet is zero |
| `Keys.PositionInverse` | server/network.go:508 | the bit computed from a requested address is the bit that was set for it, for all 2^32 answers of TestAndSet |
| `Keys.AddressInverse` | server/network.go:474 | the address of the bit computed from an address is that address, under 32-bit wrap-around |
| `Keys.AddressInside` | server/network.go:441 | the n-th bit's address lies in the subnet exactly when n < 2^(32-m), and then the addition does not wrap |
| `TextStore.WriteKeepsMirror` | server/network.go:404-424 | a store keyed by text and one keyed by bitmap stay the same store, and a write under one key changes no other network's bitmap |
| `TextStore.RunMirrored` | server/network.go:404-519 | in every run the store keyed by text holds what the store keyed by bitmap holds, entry for entry and index for index |
| `TextStore.RunAnsweredAlike` | netAgent/netAgent.go:180-283 | in every run every read and write is answered alike by both |
| `AllocatorSafety.PlanIsLegal` | server/network.go:403-519 | flip and answer each operation computes on the bytes it read are what its specification allows on the set they stand for |
| `AllocatorSafety.CommitSeesCurrentSet` | netAgent/netAgent.go:252-283 | when a write is accepted, the value the client had flipped is the stored set at that moment |
| `AllocatorSafety.StepKeepsInv` | server/network.go:322-519 | every request of every client keeps the invariant relating store, commits and clients' local copies |
| `AllocatorTheorems.Linearizable` | server/network.go:322-519 | in every run each stored bitmap is the committed operations applied one at a time in commit order, each did what it does on the set it met; no committed update is lost |
| `AllocatorTheorems.LengthsFixed` | server/network.go:404-424 | in every run the VNI bitmap is 125000 bytes long, and an address bitmap has one bit per address of its subnet, in whole bytes |
| `AllocatorTheorems.BitStays` | server/network.go:403-519 | a taken bit stays taken until a commit erases it |
| `AllocatorTheorems.NoDoubleAllocation` | server/network.go:322-451 | two committed allocations of one bit have a committed release of it between them |
| `AllocatorTheorems.OneCommitPerCall` | netAgent/netAgent.go:252-283 | in every run no call commits twice, however often it retried |
| `AllocatorTheorems.CommitHasCall` | netAgent/netAgent.go:266-281 | in every run every commit belongs to a call that returned, told OK unless its own answer was lost |
| `AllocatorTheorems.CommitExactly` | netAgent/netAgent.go:266-281 | in every run a call changed the bitmap if and only if it was told OK by anything but an error page, or its write was accepted and the answer lost |
| `AllocatorTheorems.AddressesDistinct` | server/network.go:403-451 | in every run, whatever happens to other calls: two effective RequestIP calls on one key, on a bitmap that was not full, that return one address have a committed release of it between their commits |
| `AllocatorTheorems.CancelledAllocation` | server/network.go:159-161 | taking a free bit and giving it back leaves every bitmap as if neither had happened, whatever others committed in between on other bits; applied to CreateNetwork by `Attempts.LosingAttemptUndone` |
| `AllocatorTheorems.RetryBound` | server/network.go:426-428 | every attempt after the first is paid for by a commit of another client on the same bitmap since the call began, or by a failed first read of its own (an upper bound; `AllocatorProgress` says that there is a further attempt, and that it ends) |
| `AllocatorProgress.OnlyVnisGiveUp` | server/network.go:339-341 | in every run a call that ended with OUTDATED is one of allocateVNI, and allocateVNI is never on a second attempt |
| `AllocatorProgress.ChangeIsRetried` | server/network.go:424-428 | RequestIP, MarkUsed, ReleaseIP and releaseVNI that meet a changed value are in progress afterwards, on the same operation with one more attempt; allocateVNI has returned; without a change every call goes on to its write |
| `AllocatorProgress.AttemptsPaidFor` | server/network.go:426-428 | with first reads that succeed, at most one attempt more than others have committed to the bitmap since the call began |
| `AllocatorProgress.LeftAloneEnds` | server/network.go:403-519 | in every run a call of these four that is about to read, or to meet whatever Put reads, when left alone ends NotFound without the bitmap it needs, Panic for a position outside it, and in all other cases OK, with the commit of its operation on the bits then stored |
| `AllocatorProgress.VniLeftAlone` | server/network.go:322-341 | allocateVNI left alone gives up exactly when all 1000000 VNIs are live, and otherwise commits |
| `AllocatorTheorems.HoldersExclusive` | server/network.go:489-519 | if only holders release and nobody marks a held address, held bits are set bits and no bit has two holders |
| `AllocatorTheorems.RunHoldersExclusive` | server/network.go:403-519 | the same of the store in every run |
| `AllocatorFailures.LostCasReturnsSameAddress` | server/network.go:424-441 | on every fresh subnet a run of two clients ends with one commit, one OK, one ERROR and one address returned twice |
| `AllocatorFailures.LostCasReturnsSameVNI` | server/network.go:339 | the same run of allocateVNI gives one VNI to two callers |
| `AllocatorFailures.ErrorPageIsOk` | netAgent/netAgent.go:273-281 | a run in which one client is told OK and returns an address or a VNI while nothing was committed |
| `AllocatorFailures.FullBitmapRepeatsAddress` | server/network.go:422-441 | two committed requests with no release of the address between them return one address exactly when every bit was taken for both |
| `Ipam.Allocation.RequestIP` | server/network.go:403-451 | among any requests of others and with its retries: the call takes effect in one step on the store at its last write, as the operation does on the value there, or not at all; however it ends, its answer is the one computed on what its last first read found, and the address is base plus that |
| `Ipam.Allocation.MarkUsed` | server/network.go:454-486 | the same, setting the address's bit; NotFound when its first read finds nothing and Panic when the position is beyond the bitmap found, both without a write, and for no other reason |
| `Ipam.Allocation.ReleaseIP` | server/network.go:489-519 | the same, clearing the address's bit |
| `Ipam.Allocation.AllocateVNI` | server/network.go:322-343 | one attempt: takes effect in one step on the store at its write, or not at all, or gives up without a write |
| `Ipam.Allocation.ReleaseVNI` | server/network.go:345-359 | as ReleaseIP for the VNI's bit, also on an absent key; VNI 0 panics |
| `Ipam.RequestsFillInOrder` | server/network.go:403-451 | requests alone leave exactly the lowest bits of an address or VNI bitmap taken, as many as were committed |
| `Ipam.FreshSubnetInOrder` | server/network.go:403-449 | on a subnet without releases the t-th committed request answers base+t until full; it lies in the subnet exactly when t < 2^(32-m) |
| `Ipam.RequestInsideSubnet` | server/network.go:422-449 | with releases and static addresses too: the answer lies in the subnet exactly when a bit below 2^(32-m)-1 was clear |
| `Ipam.UndoNamesRequestedBit` | server/network.go:135-161 | CreateNetwork's undo names the requested bit exactly when gateway and subnet are still the requested ones, so never when an existing interface replaced them by others |
| `Ipam.VniLeastFree` | server/network.go:333-341 | every committed VNI is in 1..1000000, was free, and every smaller one was live |
| `Ipam.VnisDistinct` | server/network.go:322-359 | two committed allocations of one VNI have a committed releaseVNI of exactly that VNI between them |
| `Ipam.VnisExhausted` | server/network.go:333-337 | a reliable read makes allocateVNI give up exactly when all of 1..1000000 are live, leaving the store as it is |
| `Ipam.VnisInOrder` | server/network.go:322-341 | in a history without a releaseVNI the t-th committed allocateVNI answers t, and t is at most 1000000 |
| `Ipam.NextVni` | server/network.go:322-341 | for every t up to 1000000: in a run with t-1 VNIs taken and none given back, an allocateVNI left alone answers t; after 1000000 it gives up |
| `Lifecycle.GatewayNamesItsBit` | server/network.go:161 | the bit the undo computes from a gateway is the one RequestIP took, if the gateway is its answer |
| `Lifecycle.RunKeepsLog` | server/network.go:157 | in every run the stored names are those whose last committed write is a creation, and no creation overwrites |
| `Lifecycle.OneCreationPerName` | server/network.go:157-163 | between two committed creations of one name lies a committed deletion |
| `Conservation.StepKeepsVnis` | server/network.go:89-247 | every step keeps the account in which each taken VNI has one owner (a stored network, a running creation, a deletion giving it back, or nobody any more), if and only if it is not a releaseVNI of a VNI that a stored network or a creation owns |
| `Conservation.StepKeepsGates` | server/network.go:89-247 | in creations and deletions alone: every step keeps the same account of the gateway addresses, if and only if it is not an undo that clears a gateway bit somebody owns |
| `Conservation.AccountedExactly` | server/network.go:89-247 | over runs of creations and deletions: the account of VNIs balances throughout if and only if every releaseVNI was for a VNI nobody owned, that of gateways if and only if every stray bit an undo cleared was nobody's gateway |
| `LifecycleTheorems.NetworksDistinct` | server/network.go:98-148 | in every run that meets that exact condition stored networks have different VNIs and different address bitmaps |
| `LifecycleTheorems.DeletionFreesVni` | server/network.go:230-240 | after a DELETE told OK nobody owns the VNI found, if and only if the DELETE was served and that VNI was still the stored one's, or nobody owned it before |
| `LifecycleTheorems.SerialRunAdmissible` | server/network.go:230-240 | deletions of a name one at a time, and no error page, are enough for the condition |
| `Attempts.LosingAttemptUndone` | server/network.go:157-162 | when a creator that lost its name has undone its attempt, and its gateway was RequestIP's answer, its four commits (VNI, gateway, and their releases) are in the trace and the bitmaps are the replay of the others' commits alone, as if the attempt had never run |
| `Attempts.RecordsOwnTheirAnswers` | server/network.go:99-157 | in every run, for every network stored or deleted: its VNI is the answer of its creation's allocateVNI, and its record is what the answer of its RequestIP and the interface found then make of it |
| `Attempts.AnswerIsGateway` | server/network.go:105-149 | the gateway is RequestIP's answer, on the same subnet, exactly when there was no interface or it has just that address |
| `Attempts.GatewayTakenUntilReleased` | server/network.go:230-247 | in every run the bit taken for the gateway of a network, stored or deleted, is set until a later release names exactly it |
| `Attempts.CommitSpares` | server/network.go:89-163 | no commit changes a bit that another creation in progress owns |
| `LifecycleTheorems.LostInRunExactly` | server/network.go:89-247 | nothing is lost at any time of such a run if and only if every setup succeeds, every PUT is accepted (a race is enough to fail this), every DELETE that removes a record is answered and meets the VNI found, and every interface that existed has the address RequestIP answers |
| `LifecycleTheorems.VnisConserved` | server/network.go:89-247 | when all calls have returned, the taken VNIs are exactly those of the stored networks, if and only if none is lost |
| `LifecycleTheorems.GatewaysConserved` | server/network.go:89-247 | in creations and deletions alone, when all calls have returned, every taken address that is not lost is the gateway of a stored or of a deleted network, and those of stored networks are taken |
| `LifecycleTheorems.ExistingInterface` | server/network.go:135-148 | a creation on an interface that exists stores its address; the bit RequestIP set is its gateway's if and only if the interface has just that address, and otherwise is lost |
| `LifecycleRuns.OverlappingDeletionsShareVni` | server/network.go:230-240 | a run in which two overlapping deletions leave two stored networks with VNI 1 |
| `LifecycleRuns.ErrorPageSharesVni` | server/network.go:236-240 | a run in which one DELETE answered by an error page does so |
| `LifecycleRuns.RaceLosesVni` | server/network.go:157-169 | a run with every request served that ends with one stored network and two taken VNIs |
| `LifecycleRuns.FailedSetupLeaks` | server/network.go:116-133 | a run in which a failed setup leaves its VNI taken |
| `LifecycleRuns.StrayUndoClearsGateway` | server/network.go:139-161 | a run in which an undo on an existing interface clears the gateway bit of another stored network |
| `Connections.GenerateMacAddr` | server/connection.go:338-357 | the buffer is 02:42 and the four address bytes, or zeros for an address that is not IPv4; for the bytes of an address it is the MAC the connections are told apart by |
| `Connections.MacInjective` | server/connection.go:352-354 | different addresses have different MACs |
| `ConnectionTheorems.StepKeepsInv` | server/connection.go:125-310 | every step of every node keeps: live connections of one VNI have different bits, each set and none the gateway's |
| `ConnectionTheorems.ReleaseKeepsInv` | server/connection.go:295-310 | a release clears no other connection's bit and no gateway's, whatever subnet the text led to |
| `ConnectionTheorems.LiveConnectionsDistinct` | server/connection.go:125-205 | in every admissible run two live connections of one VNI have different IPs and MACs, with their bits set |
| `Connections.TextParsed` | server/connection.go:301 | what a record keeps as parsed is what its texts parse to, for deleteConnection and SetInterfaceIp alike |
| `ConnectionTheorems.RegisteredParses` | server/connection.go:250-301 | in every run every connection that is or was in the map has text that parses, so no deletion crashes on it |
| `ConnectionTheorems.DeletionExactly` | server/connection.go:300-308 | what the deletion of such a connection does to the bitmaps, for every address: nothing without the network or without a bitmap for the block around the address, a crash on the base of the block, or one bit of that bitmap |
| `ConnectionTheorems.ReleaseIsExact` | server/connection.go:300-308 | a deletion clears exactly the bit taken if and only if the address lies in the subnet and is not its base; otherwise that bit stays set |
| `ConnectionTheorems.TakeReleaseRoundTrip` | server/connection.go:187-308 | adding and deleting a connection restores the bitmaps if and only if the answer lies in the subnet and is legible; it is registered exactly when the answer is legible |
| `ConnectionTheorems.LastBitLeaks` | server/connection.go:190-308 | the connection given the last bit of a bitmap is deleted without complaint and its bit stays set, where the next block was never used under the VNI |
| `ConnectionTheorems.StaticAddressExact` | server/connection.go:193-197 | a static request keeps the connections apart and from the gateway exactly when it panics or nobody had the address |
| `ConnectionTheorems.StaticGatewayFreed` | server/connection.go:193-308 | a static request for the gateway's address is granted, and deleting that connection clears the gateway's bit |
| `ConnectionTheorems.SecondDeletionExact` | server/connection.go:148-151 | deleting a connection a second time keeps the invariant exactly when it crashes, clears nothing, or clears a bit that neither a gateway nor a live connection has |
| `ConnectionTheorems.OverwritingLeaksBit` | server/connection.go:144-150 | after a second request for one container, deleting the container leaves the first address taken |
| `ConnectionTheorems.FullBitmapCollides` | server/connection.go:190-192 | on a full bitmap two dynamic requests get one address |
| `ConnectionTheorems.ReleaseWindow` | server/connection.go:149-150 | after ReleaseIP and before the map entry goes, another node can register the same address |
| `Daemon.AddRegisters` | server/connection.go:131-270 | a new request is registered exactly when its network is stored and read, its address step does not panic, its text parses and the other steps succeed, with the bit of its static address or the least free one; otherwise no entry changes |
| `Daemon.AddSetsBit` | server/connection.go:187-205 | of all bits only that one changes, exactly when it was clear and is of a bitmap, whether or not the request succeeds |
| `Daemon.DeletionMeans` | server/connection.go:148-151 | a queue of one deletion, of a connection that is or was in the map, with any address: it panics exactly on the base of a block that has a bitmap; otherwise it clears the connection's own bit if the network is read and the address is in the subnet and not its base, the bit of the block around the address if there is one, nothing if the network is not read; the place has no entry afterwards, and all else is as before |
| `Daemon.QueuedDeletion` | server/connection.go:148-151 | the same at every point of every queue |
| `Daemon.Handler.DeleteConnection` | server/connection.go:295-310 | the same of the method |
| `Daemon.DeletionInRun` | server/connection.go:148-308 | in every admissible run the deletion of a registered connection gives back exactly its own bit, if and only if its network is read and its address lies in the subnet and is not the base |
| `Daemon.OrphanKeepsBit` | server/connection.go:303-306 | a connection deleted after its network is deleted without complaint, and its bit stays set |
| `Daemon.Handler.ConnHandler` | server/connection.go:125-154 | over every queue: the state after the requests in order and one answer to each, up to the first request that panics, which ends the loop; `AddRegisters`, `AddSetsBit` and `QueuedDeletion` say what each request does |
| `Daemon.QueueKeepsInv` | server/connection.go:125-154 | the loop keeps the connection invariant over every queue of proper requests |
| `Daemon.FailedAddLeaksBit` | server/connection.go:207-268 | over every failed request, dynamic or static: no connection and no network changes, and one more bit is set exactly when the request got as far as an address whose bit was clear |
| `Daemon.IllegibleAddFails` | server/connection.go:250 | with a one-digit prefix a dynamic request fails, and leaves its bit set, exactly when ten times the last octet of its address exceeds 255 |
| `Refinement.ConnectionStep` | server/connection.go:187-308 | every step does to the bitmaps what the RequestIP, MarkUsed or ReleaseIP call it makes does, and nothing if it makes none |
| `Refinement.ConnectionsUseAllocator` | server/connection.go:125-310 | in every run the run's own calls are a legal history, and the address bitmaps are its replay |
| `Refinement.ConnectionsOwnTheirAnswers` | server/connection.go:187-205 | in every run a connection's address is the answer of its own RequestIP, or the static address it marked |
| `Refinement.SetUntilReleased` | server/network.go:489-519 | in every run a bit that a call set, a gateway's among them, is set until a later ReleaseIP names exactly it |
| `Cluster.StepKeepsBalance` | server/network.go:89-519 | with creations, deletions and connections on the same bitmaps: every step keeps stored networks, creations and live connections on different VNIs and different addresses with their bits set, if and only if no VNI or bit is given back that another one owns, and a request gets a bit, and nobody's |
| `Cluster.BalancedExactly` | server/network.go:89-519 | the same throughout a run, if and only if every step of the run is so |
| `Cluster.EverybodyApart` | server/connection.go:125-310 | in every such run: VNIs of stored networks differ, and the gateways of stored networks and of creations and the addresses of live connections are pairwise different bits, all set |
| `Cluster.ConnectionsApart` | server/connection.go:338-357 | so two live connections on one bitmap have different addresses and MACs |
| `Cluster.ClusterUsesAllocator` | server/network.go:322-519 | in every run of all of them together the run's own allocator calls are a legal history, and the bitmaps are its replay |
| `Cluster.ConnectionsEmbed` | server/connection.go:125-310 | in every run of all of them together a step of a connection is, seen from the connections, that step on its own, and touches no process, VNI or record |
| `Refinement.TakeVniIsAllocation` | server/network.go:99-103 | a creation's VNI step does to the VNI bitmap what allocateVNI does there, and nothing when no VNI is free |
| `Refinement.NetworkStep` | server/network.go:89-247 | every step of a creation or deletion does to the bitmaps what the call it makes does, and nothing if it makes none; `Creations` says when a creation gets to these steps |
| `Creations.VniAfterLookup` | server/network.go:90-99 | in every run every allocateVNI of a creation comes after a lookup of its name since it last started or undid, at which the name was not stored or could not be read, with nothing of its own between |
| `Creations.StoredNameLeftAlone` | server/network.go:90-96 | in every run a creation that finds its name stored returns at once, with bitmaps, store, log and trace unchanged |
| `Creations.CreationEnds` | server/network.go:89-171 | one undisturbed call, however its requests fare: nothing is taken if the name is found or no VNI is free; otherwise the least free VNI and the least free bit under it, and then the record is stored, about to be given up, or forgotten, exactly as setup, Put's read and its PUT fare |
| `Creations.UndoEnds` | server/network.go:159-163 | the undo of a creation gives the VNI back and the bit its record's gateway names, whoever set it, and starts over with the record's subnet; it panics exactly for a position outside an existing bitmap, and a missing bitmap is ignored |
| `Creations.DeletionEnds` | server/network.go:229-247 | one undisturbed call after every run: the record goes exactly when the DELETE reaches the server, the VNI exactly when the caller is told OK, and no address bit at all |
| `Refinement.NetworksUseAllocator` | server/network.go:89-247 | in every run, overlapping deletions and lost requests included, the run's own calls are a legal history, and the bitmaps are its replay |
| `MaskBytes.MaskValues` | util/util.go:55-57 | on bytes: `and` with a mask byte clears the low bits of the number, `or` with its complement sets them |
| `Routes.NetworkRange` | util/util.go:48-59 | the loop over the four bytes with their mask bytes: they spell the address with its host bits cleared and set |
| `Routes.RangeIsNetwork` | util/util.go:48-59 | an address is in the network exactly when it lies between these two |
| `Routes.OverlapIsSharing` | util/util.go:37-45 | NetworkOverlaps holds exactly when the two blocks share an address, whether or not their addresses are masked |
| `Routes.CheckRouteOverlaps` | util/util.go:21-34 | succeeds exactly when the routes are readable and none with a destination shares an address with the network |
| `Routes.GetAvailableSubnet` | server/network.go:386-398 | returns the first of the twelve candidates clear of the routes then seen; fails exactly when none is; 10.1.0.0/16 on a node whose route lists are readable and empty |
| `Routes.CandidatesParsed` | server/network.go:23-36 | net.ParseCIDR makes the twelve candidate networks of the twelve texts, in their order |
| `Routes.FirstClear` | server/network.go:386-398 | the loop over the texts: the network of the first one that parses and is clear; with texts that all parse it fails exactly when none is clear |
| `Routes.FirstKey` | server/network.go:412-424 | the keys as text: `vlanStore/vlan`, and `ipStore/1-10.1.0.0/16` for the first network |
| `Membership.MinusIsDifference` | netAgent/netAgent.go:433-450 | as sets, the delta is the difference of the addresses |
| `Membership.MinusCounts` | netAgent/netAgent.go:440-448 | an address of X that is not in Y is in the delta as often as in X, any other not at all |
| `Membership.MinusInOrder` | netAgent/netAgent.go:440-448 | the delta of a list is that of its parts, one after the other |
| `Membership.Compare` | netAgent/netAgent.go:433-450 | both loops compute that difference, in order and with repetitions |
| `Membership.Listener.NotifyNodeUpdate` | server/backend.go:67-84 | afterwards the node is ready and was signalled once more only if it was not; the address is a peer exactly if it was added and is not this node; no other peer changes |
| `Membership.Listener.UpdateNodeListeners` | netAgent/netAgent.go:452-471 | the cache is replaced, and a registered listener gets all deletions, then all additions |
| `Membership.DeltasDisjoint` | netAgent/netAgent.go:453-454 | no address is both deleted and added |
| `Membership.TunnelsExact` | netAgent/netAgent.go:452-471 | after every sequence of snapshots the peers are the latest addresses minus this node minus the never announced; ready is signalled at most once |
| `Membership.TunnelsFollowSnapshots` | server/backend.go:67-84 | the peers are all other nodes exactly when no other node has stayed since before registration; always, when registered first |
| `Reconciler.Daemon.SyncNetwork` | server/network.go:251-320 | one round, both loops, with creations that fail, deletions that do nothing and lists that are not read: the node after it, name by name as in `RoundReconciles`; unchanged when a record does not decode |
| `Reconciler.RoundReconciles` | server/network.go:251-320 | every round whose list is read, with each name once: a listed network has a port exactly when it had one or its creation got past that step, an address exactly when it had one or had no port and at most bringing it up failed, and is in Gateways exactly when it was or had no port and nothing failed; another name leaves Gateways, and its port goes exactly when sync had completed it and the deletion worked |
| `Reconciler.RoundIsSafe` | server/network.go:251-320 | whatever fails, Gateways lies inside the list, and the ports removed are exactly those sync completed whose network is not listed and whose deletion worked |
| `Reconciler.StoredKeepPortsExactly` | server/network.go:63-78 | no stored network loses its port, if and only if the list was read or sync has no such port to take away |
| `Reconciler.RunsAreSafe` | server/network.go:251-320 | over every sequence of rounds and of changes others make to the ports in between: after a round Gateways lies inside its list, and every port that is gone went in a round as one of those, or by another hand |
| `Reconciler.FaultFreeRoundCompletes` | server/network.go:262-297 | a fault-free round gives every stored network an addressed interface exactly when none has a half-built port |
| `Reconciler.FaultFreeRoundIdempotent` | server/network.go:251-320 | repeating a fault-free round on the same snapshot changes nothing |
| `Reconciler.UnownedForever` | server/network.go:262-289 | a port sync did not complete, and nobody else changes, is left as it is by every sequence of rounds |
| `Reconciler.UndeletedForever` | server/network.go:311-315 | a port whose deletion did nothing is forgotten all the same, and stays through every sequence of rounds |
| `Ovsdb.Cache.PopulateCache` | server/ovs_driver.go:402-417 | both loops, in any order of tables and rows: updated rows replaced, emptied rows gone, others kept |
| `Ovsdb.ReplicaIsFaithful` | server/ovs_driver.go:402-417 | after the initial dump and any sequence of updates the cache equals the server's tables, row by row |
| `Ovsdb.ReplicaNamesPorts` | server/ovs_driver.go:229-237 | so a lookup by port name sees what the server holds |
| `Ovsdb.PortUuidForName` | server/ovs_driver.go:229-237 | finds a row with the name exactly when there is one |
| `Ovsdb.Driver.AddInternalPort` | server/ovs_driver.go:338-400 | inserts the row and its reference exactly when the name is new; references stay intact |
| `Ovsdb.Driver.DeletePort` | server/ovs_driver.go:264-304 | does nothing for a name the cache lacks; no reference ever dangles; with an up-to-date cache the port is gone |
| `Ovsdb.DeleteTakesEffectExactly` | server/ovs_driver.go:264-291 | the port is gone exactly when the cached uuid is its own or it was not on the bridge; then its row and the cached reference go and nothing else; otherwise the server refuses the transaction, and everything stays |
| `Ovsdb.AddDeleteRoundTrip` | server/ovs_driver.go:264-400 | deleting a port just added restores the Port table and the bridge |
| `Ovsdb.BridgeStaysIntact` | server/ovs_driver.go:264-400 | in every run of transactions, with a stale cache too, the bridge refers only to existing ports, and port names are unique |

## Left out

- HTTP routing and JSON handlers of `server/api.go`, the command-line client, and starting, joining and leaving Consul: plumbing around foreign calls.
- Consul and Raft themselves: only the versioned compare-and-set of single keys is assumed, with one modify index per store.
- Netlink, namespaces, iptables and traffic control: present only as steps that may fail; port names, sleeps and logs are not present.
- Traffic monitoring, quality of service and `SafeMap` locking.
- IPv6, and static addresses that are not IPv4 text.
- `GetAvailableGwAddress`, the bridge itself, vxlan options, and the Interface table and garbage collection of OVSDB.
- The base64 decoding error of `Get`, which cannot occur for values Consul encoded.
- Big-endian conversion of addresses and the floating-point `IPCount`: addresses are numbers, counts exact powers of two, and net.IP.Mask clears low bits (the byte loop of NetworkRange is modelled on bytes).
- Which interfaces a node has: a creation may find any interface, or none, at every attempt.
- `Lifecycle`, `Connections` and `Cluster` do not let an allocator operation lose its write: their results hold for runs in which every allocator write took effect, and `AllocatorTheorems.CommitExactly` says when it does.
- Ipam.Allocation.RequestIP: nobody deletes a bitmap while it runs, as nobody does in the program; the same holds for the other four.
- Ipam.Allocation.AllocateVNI: promises nothing about its effect if the stored VNI bitmap is not 125000 bytes long, which `AllocatorTheorems.LengthsFixed` excludes in every run.
- ConnectionTheorems.LiveConnectionsDistinct: for runs with bitmaps that are not full, static addresses nobody holds, no second deletion of a connection, networks created in one step and not deleted while in use; `Cluster.BalancedExactly` has the exact condition for all of them together.
- Membership.TunnelsExact: tunnel operations succeed and a node's own address does not change.
