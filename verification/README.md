# FastGateway: a verified model

FastGateway is a reverse proxy and tunnel gateway. This project models its algorithms and protocols in
Dafny 4.11 and proves properties of them: the hand-off of reverse tunnels between creators and remote
acceptors, the registry of control connections, the rate-limit glob matcher, the IP policy matcher and
its region rules, cluster relaying, request statistics, the abnormal-IP monitor, UDP session
accounting and TCP pumping, configuration reconciliation, fail-over routing and its cached table, the
certificate cache, and the base64url and signed-challenge code.

`dafny verify dfyconfig.toml` checks everything.

## How it is built

Protocols are transition systems whose steps are the atomic operations of the program: a lock body, an
`Interlocked` operation, an operation on a concurrent dictionary, the read of a clock. A run is any
interleaving of enabled steps, so a theorem about runs covers every schedule. Sequential algorithms are
methods with loops, and objects that change in place are classes; each is proved equal to a function or
a plain definition of what it should compute, and the properties are proved about that.

| area | modules |
|---|---|
| reverse tunnels | `TunnelLifecycle` (the lock bodies), `TunnelProtocol`, `TunnelInvariant`, `TunnelSafety`, `TunnelDelivery`, `LockOrder` |
| control connections | `ClientRegistry`, `ClientPresence` |
| rate limiting | `Glob`, `RateLimitEntry` |
| IP policies | `Bits`, `Ipv4`, `Ipv6`, `IpRanges`, `IpRuleText`, `IpPolicyMatcher`, `RegionRules` |
| cluster | `ClusterRelay`, `ConfigReconcile` |
| statistics | `StatTotals`, `StatDims`, `StatUniques`, `Statistics`, `StatMeaning`, `AbnormalIpMonitor` |
| port forwarding | `UdpSessions`, `UdpAdmission`, `UdpDisposal`, `StreamForwarding` |
| caches | `FailoverRouting`, `RouteTableCache`, `CertificateCache`, `CertificateRace` |
| tokens | `JwsConvert`, `BotChallenge` |
| shared | `Wrappers`, `Sets`, `Folds`, `Text` |

## Where the code falls short of its promise

Each of these keeps the code as it is, gives an input or a run that fails, and says when the promise holds.

- An IPv4 rule with prefix 32 matches every IPv4 address, because C# masks the shift count to five bits
  (`src/FastGateway/Infrastructure/IpPolicyMatcher.cs:67`). A matcher is right exactly when no such rule
  is among the rules, or every IPv4 address is named anyway: `IpPolicyMatcher.MatcherIsRightIff`,
  `IpPolicyMatcher.HostRuleMatchesStranger`.
- A ready-made range that ends before it starts covers no address, but the binary search may still accept its
  start (`IpPolicyMatcher.BackwardRangeMatchesItsStart`). The search is right about every address exactly when
  each such start is covered by another range or lies just above one: `IpRanges.RightIff`.
- The total row of the statistics is the sum over the hosts exactly when every request of the bucket has
  a host; a request without one is counted twice: `StatTotals.TotalRowIsSumOverHosts`.
- After a batch is lost, unique visitors of that batch may never be stored, because the memory already
  takes them for written: every row to come is stored exactly when all that the memory would skip is
  (`StatUniques.StoresAllIff`), after a lost batch exactly when it skips no unstored row of that batch
  (`StatUniques.LostBatchIff`); `StatUniques.LostBatchLosesItsRows` says which rows stay out.
- The limit of 300 names per dimension and hour holds over a run exactly when no recording brings a new
  name to a column that has 300 stored names, while the memory knows fewer, or knows that name from a lost
  batch: `StatDims.LimitHoldsIff`. From nothing that does not happen while hours never go back
  (`StatDims.NamesAreLimited`); an hour that comes back starts over, and a run from nothing stores 301
  names (`StatDims.ReturningHourPassesTheLimit`).
- The hop limit of relays rests on the tokens: relays are bounded exactly when both ends of every link
  between the master and a worker trust each other (`ClusterRelay.RelaysAreBoundedIff`); one end that does
  not is enough for a request to circle for ever (`ClusterRelay.MismatchCirclesForever`).
- A UDP session that is added to the table after disposal of its port forward has begun to go over it, and
  whose relay meets the disposed token source, stays for good unless somebody removes it; exactly these
  sessions are left (`UdpDisposal.LeftIff`, with the run `UdpDisposal.DisposalCanStrand`). Those in the
  table before are always removed: `UdpDisposal.SweptIsNeverLeft`.
- From any counter the next `count` round-robin picks visit every upstream once exactly when they do not
  cross the wrap of the 32-bit word, or start at it as every runner does, or `count` divides 2^32:
  `StreamForwarding.PicksAreAPermutationIff`.
- "Exact hosts before wildcards" is decided per entry, not per host: an entry that mixes both may beat an
  exact name through its wildcard (`FailoverRouting.MixedEntryBeatsExactName`). For one request an exact
  name wins, whatever order the unstable sort leaves, exactly when no such entry serves the request with a
  path at least as long as those of all exact names: `FailoverRouting.ExactNameWinsIff`.
- A certificate re-uploaded under a domain that differs only in case may leave the old key behind. From a
  sound state an upload is safe for all that follows exactly when it does not, that is, unless the old key
  is in the table, leads to that certificate and can be asked for (`CertificateCache.UploadIsSafeIff`);
  moving on from there always ends with an old certificate (`CertificateCache.OldKeyGoesStale`), as in the
  run `CertificateCache.CaseOnlyRenameLeavesStale`.
- A handshake caches what it looked up before: the cache agrees exactly while every caching finds its host
  cached or its certificate still the right one (`CertificateRace.RaceAgreesIff`); with an upload of that
  certificate in between, that is when the new domain still has to do with the host
  (`CertificateRace.UploadBetweenIff`).
- A challenge can be used twice: one call after another, exactly when it expires between the two clock
  readings of the second (`BotChallenge.Challenges.TryConsume`). With overlapping calls it is accepted
  exactly when it was removed after every earlier acceptance (`BotChallenge.AcceptedIff`), which takes a
  call checked before the expiry that adds after it (`BotChallenge.SecondAcceptStraddles`); reading the
  clock once a call does not rule that out (`BotChallenge.OneReadingIsNotEnough`).

## Model

| member | source | states |
|---|---|---|
| TunnelLifecycle.AgentClientConnection.TryBindHttpTunnel | src/FastGateway/Tunnels/AgentClientConnection.cs:131-141 | a tunnel is refused exactly when the connection is disposed, otherwise it joins the set and the count grows by one |
| TunnelLifecycle.AgentClientConnection.DecrementHttpTunnelCount | src/FastGateway/Tunnels/AgentClientConnection.cs:143-151 | the tunnel leaves the set and the count drops, never below zero |
| TunnelLifecycle.AgentClientConnection.DisposeAsync | src/FastGateway/Tunnels/AgentClientConnection.cs:51-96 | the first disposal closes and uncounts every bound tunnel and ends with an empty set and count 0; a second one changes nothing |
| TunnelLifecycle.HttpTunnel.BindConnection | src/FastGateway/Tunnels/HttpTunnel.cs:35-46 | the nested lock bodies: bound and counted once, exactly when the tunnel is neither closed nor counted and the connection not disposed; a sound connection stays sound |
| TunnelLifecycle.HttpTunnel.SetClosedResult | src/FastGateway/Tunnels/HttpTunnel.cs:60-82 | only the first call closes, and it uncounts the tunnel at its connection exactly when it was counted |
| TunnelLifecycle.PendingHttpTunnel.TrySetResult | src/FastGateway/Tunnels/AgentTunnelFactory.cs:108-127 | a refused tunnel is closed, an accepted one is left untouched in the slot |
| TunnelLifecycle.PendingHttpTunnel.TryClaim | src/FastGateway/Tunnels/AgentTunnelFactory.cs:129-139 | exactly the completed, unabandoned slot that holds this tunnel gives it away, and then holds nothing |
| TunnelLifecycle.PendingHttpTunnel.Abandon | src/FastGateway/Tunnels/AgentTunnelFactory.cs:141-155 | a completed and unclaimed tunnel is closed, the waiter is cancelled, a second call does nothing |
| TunnelLifecycle.AgentTunnelFactory.SetResult | src/FastGateway/Tunnels/AgentTunnelFactory.cs:87-95 | the entry is taken out once; the tunnel is either handed to that slot or closed; no other slot changes |
| TunnelInvariant.ClaimSucceeds | src/FastGateway/Tunnels/AgentTunnelFactory.cs:42-46 | in every reachable state the claim of a received tunnel succeeds: the failure branch is never taken |
| TunnelInvariant.OfferSucceeds | src/FastGateway/Tunnels/AgentTunnelFactory.cs:118-122 | in every reachable state an open slot still has a waiting completion source |
| TunnelInvariant.CloseKeeps | src/FastGateway/Tunnels/HttpTunnel.cs:60-82 | closing a tunnel at any moment keeps the invariant of the whole hand-off |
| TunnelInvariant.ClaimKeeps | src/FastGateway/Tunnels/AgentTunnelFactory.cs:129-139 | a claim keeps the invariant |
| TunnelInvariant.OfferKeeps | src/FastGateway/Tunnels/AgentTunnelFactory.cs:108-127 | an offer keeps the invariant, accepted or refused |
| TunnelInvariant.BindKeeps | src/FastGateway/Tunnels/HttpTunnel.cs:35-46 | a bind keeps the invariant, successful or not |
| TunnelInvariant.StepKeeps | src/FastGateway/Tunnels/AgentTunnelFactory.cs:21-156 | every atomic step of creators, acceptors, closers and disposal keeps the invariant |
| TunnelSafety.RunKeepsInv | src/FastGateway/Tunnels/AgentTunnelFactory.cs:21-156 | the invariant holds in every state of every interleaving |
| TunnelSafety.ClaimedAtMostOnce | src/FastGateway/Tunnels/AgentTunnelFactory.cs:129-139 | over a whole run a tunnel is claimed at most once, so by at most one creator |
| TunnelSafety.FinishedCreatorLeaksNothing | src/FastGateway/Tunnels/AgentTunnelFactory.cs:69-80 | when a creator has finished, every tunnel handed to it is closed or was returned bound and counted; its slot is empty |
| TunnelSafety.QuiescentStateLeaksNothing | src/FastGateway/Tunnels/AgentTunnelFactory.cs:21-156 | when all calls have finished, the open tunnels are exactly the counted ones, each returned by some creator, and the gauge is their number |
| TunnelSafety.ClosedExactlyOnce | src/FastGateway/Tunnels/HttpTunnel.cs:48-82 | the inner stream of a tunnel is closed once when the tunnel is closed, and never otherwise |
| TunnelSafety.CountIsExact | src/FastGateway/Tunnels/AgentClientConnection.cs:131-151 | the count of a connection is the size of its set, which is the set of open tunnels bound to it, in every reachable state |
| TunnelSafety.ClearFindsNothing | src/FastGateway/Tunnels/AgentClientConnection.cs:81-84 | when disposal clears the set, it is empty already and the count is 0 |
| TunnelSafety.DisposalIsForever | src/FastGateway/Tunnels/AgentClientConnection.cs:53-54 | a connection that began or completed disposal stays so |
| TunnelSafety.NoBindAfterDispose | src/FastGateway/Tunnels/AgentClientConnection.cs:133-136 | after disposal began, no bind to the connection succeeds in the rest of the run |
| TunnelSafety.DisposedConnectionIsEmpty | src/FastGateway/Tunnels/AgentClientConnection.cs:51-96 | after disposal completed, every tunnel ever bound is closed for ever and the count is 0 |
| TunnelSafety.CreatorAlwaysAdvances | src/FastGateway/Tunnels/AgentTunnelFactory.cs:21-80 | a creator has a step of its own towards the end exactly until it has finished, except while nothing has come and neither its call is cancelled nor its connection disposed; nobody sets it back |
| TunnelDelivery.BindSucceedsIff | src/FastGateway/Tunnels/HttpTunnel.cs:35-46 | in every reachable state a bind succeeds exactly when the tunnel is open and its connection is not being disposed, however many tunnels that has; then set, count and gauge grow by this tunnel |
| TunnelDelivery.OfferAcceptedIff | src/FastGateway/Tunnels/AgentTunnelFactory.cs:108-127 | in every reachable state the offer of a tunnel that took an entry is accepted exactly when the creator has not given up |
| TunnelDelivery.UndisturbedCallReturns | src/FastGateway/Tunnels/AgentTunnelFactory.cs:21-80 | in every interleaving a call that nobody interrupts, whose connection nobody disposes and whose streams nobody closes can only finish by returning a tunnel, open, of its identifier and registered |
| TunnelDelivery.AnsweredCallReturns | src/FastGateway/Tunnels/AgentTunnelFactory.cs:21-95 | such a call, once a remote stream took its entry and both sides have run as far as they can, has returned exactly that tunnel |
| LockOrder.NoDeadlock | src/FastGateway/Tunnels/HttpTunnel.cs:35-82 | no set of threads in any of the nested lock calls, at any depth, is deadlocked |
| LockOrder.WaitsAboveWhatItHolds | src/FastGateway/Tunnels/AgentTunnelFactory.cs:108-127 | every lock waited for is above all locks held, in the order pending, tunnel, connection |
| ClientRegistry.AgentClientManager.EnterLocked | src/FastGateway/Tunnels/AgentClientManager.cs:49-54 | a client enters in place of the one of the same name, which is handed back; nobody enters after disposal |
| ClientRegistry.AgentClientManager.WithdrawLocked | src/FastGateway/Tunnels/AgentClientManager.cs:92-98 | only the very client stored under its name is taken out |
| ClientRegistry.AgentClientManager.DisposeLocked | src/FastGateway/Tunnels/AgentClientManager.cs:111-119 | the first disposal hands out all clients and empties the dictionary |
| ClientRegistry.ListedStep | src/FastGateway/Tunnels/AgentClientManager.cs:45-123 | after any step a listed client is one that may still be found under that name |
| ClientRegistry.ShownStep | src/FastGateway/Tunnels/TunnelClientProxy.cs:73-104 | after any step a registry entry shows nobody, or a client that has not passed the check of that entry |
| ClientRegistry.RunKeepsInv | src/FastGateway/Tunnels/AgentManagerMiddleware.cs:78-107 | every step of control connections, registrations and shutdown keeps the invariant of both registries, so it holds in every interleaving |
| ClientRegistry.FinishedClientIsGone | src/FastGateway/Tunnels/TunnelClientProxy.cs:73-104 | a client whose middleware has finished is neither in the manager nor shown by any registry entry |
| ClientRegistry.OnlyOwnOrNewerStepsEvict | src/FastGateway/Tunnels/AgentClientManager.cs:89-102 | a client leaves the dictionary only by its own steps, a newer connection of that name, or shutdown: the removal of a replaced client spares its successor |
| ClientRegistry.DisposedManagerStaysEmpty | src/FastGateway/Tunnels/AgentClientManager.cs:111-123 | once disposed, the dictionary stays empty |
| ClientPresence.LoneClientIsServed | src/FastGateway/Tunnels/AgentManagerMiddleware.cs:78-107 | in every interleaving a client that alone has its names and is not cut off is reachable from the moment it has entered, and shown once it is online |
| ClientPresence.LoneClientComesOnline | src/FastGateway/Tunnels/AgentManagerMiddleware.cs:78-107 | until it is online such a client always has a step of its own that brings it nearer, and nobody sets it back |
| Glob.WildcardMatch | src/FastGateway/Services/RateLimitService.cs:208-238 | the iterative matcher terminates and agrees with the recursive meaning of the pattern, up to case folding |
| Glob.NewStarForgetsOld | src/FastGateway/Services/RateLimitService.cs:220-224 | forgetting the previous star when a new one is met loses no match |
| Glob.BacktrackLosesNothing | src/FastGateway/Services/RateLimitService.cs:225-229 | moving the mark by one loses no match |
| Glob.EndOfInput | src/FastGateway/Services/RateLimitService.cs:236-237 | at the end of the input the earliest placement decides |
| Glob.SkipTrailingStars | src/FastGateway/Services/RateLimitService.cs:236-237 | with the input used up, the rest matches exactly when only stars remain |
| Glob.StarTakesAny | src/FastGateway/Services/RateLimitService.cs:205-207 | a star matches text of any length |
| RateLimitEntry.Entry.constructor | src/FastGateway/Services/RateLimitService.cs:117-145 | an entry holds the parsed endpoint and the normalized whitelist, blank texts left out |
| RateLimitEntry.WhitelistMembers | src/FastGateway/Services/RateLimitService.cs:138-140 | the whitelist holds exactly the normalized texts that are not blank |
| RateLimitEntry.Entry.Matches | src/FastGateway/Services/RateLimitService.cs:183-203 | a rule applies exactly when its verb and its pattern do and no whitelisted pattern does |
| RateLimitEntry.Entry.Applies | src/FastGateway/Services/RateLimitService.cs:190-202 | one pattern is a glob with wildcards and a segment prefix without |
| RateLimitEntry.SegmentPrefixIsGlob | src/FastGateway/Services/RateLimitService.cs:147-150 | a segment prefix means the same as the two globs for the path itself and everything below it |
| RateLimitEntry.PathRuleHasNoVerb | src/FastGateway/Services/RateLimitService.cs:155-161 | a rule that starts with a slash, white space aside, never has a verb, whatever colons its path contains |
| RateLimitEntry.VerbRuleRoundTrip | src/FastGateway/Services/RateLimitService.cs:151-175 | writing a verb before a path and parsing gives both back, without the white space around them |
| RateLimitEntry.VerbRuleMeans | src/FastGateway/Services/RateLimitService.cs:151-175 | a text of verb, colon and path is limited to the verb in upper case, or to none for the star, and has the trimmed path as its pattern, with a slash put in front where neither slash nor star is |
| RateLimitEntry.PlainRuleMeans | src/FastGateway/Services/RateLimitService.cs:151-175 | every other text has no verb and is all path |
| RateLimitEntry.WhitelistMeans | src/FastGateway/Services/RateLimitService.cs:138-140 | the whitelist holds exactly the paths of the texts that are not blank, in that form |
| Ipv4.TryParseIpv4 | src/FastGateway/Infrastructure/IpPolicyMatcher.cs:171-221 | exactly four octets of one to three digits parse, to their value, and anything else gives 0 and false |
| Ipv4.AddressIffQuad | src/FastGateway/Infrastructure/IpPolicyMatcher.cs:171-221 | an address is exactly four texts of one to three digits up to 255 with dots between them, and its value puts the first on top |
| Ipv4.DottedReadsBack | src/FastGateway/Infrastructure/IpPolicyMatcher.cs:171-221 | writing any address in dotted decimal and parsing it gives it back |
| Ipv4.AppendOctet | src/FastGateway/Infrastructure/IpPolicyMatcher.cs:187-187 | shift and or append one octet without overflow |
| Ipv4.BadPrefixIsFinal | src/FastGateway/Infrastructure/IpPolicyMatcher.cs:178-211 | the parser may stop at the first bad prefix: no continuation repairs it |
| Ipv4.CidrCoversNetwork | src/FastGateway/Infrastructure/IpPolicyMatcher.cs:67-69 | for prefixes 0 to 31 the stored range is exactly the addresses that agree on the first bits (section 3.1 of RFC 4632) |
| Ipv4.Cidr32CoversEverything | src/FastGateway/Infrastructure/IpPolicyMatcher.cs:67-69 | for prefix 32 the stored range is the whole address space |
| Ipv4.CidrExactUnless32 | src/FastGateway/Infrastructure/IpPolicyMatcher.cs:67-69 | the range is the network named for exactly the prefixes other than 32 |
| Ipv6.MakeNetwork | src/FastGateway/Infrastructure/IpPolicyMatcher.cs:228-236 | the network keeps the prefix of any base address and clears every host bit |
| Ipv6.Contains | src/FastGateway/Infrastructure/IpPolicyMatcher.cs:238-250 | byte comparison and one masked byte accept exactly the addresses with the prefix (section 2.3 of RFC 4291) |
| Ipv6.MaskedBytesAgree | src/FastGateway/Infrastructure/IpPolicyMatcher.cs:248-249 | equality under the mask is agreement on the leading bits of the byte |
| IpRanges.SortByStart | src/FastGateway/Infrastructure/IpPolicyMatcher.cs:117-117 | some sorted permutation |
| IpRanges.MergeRanges | src/FastGateway/Infrastructure/IpPolicyMatcher.cs:115-143 | the merged ranges cover exactly the union of the inputs, up to the largest address, and are sorted, disjoint and non-adjacent when no input ends before it starts; otherwise the search also accepts the starts of such ranges that nothing covers or ends just below |
| IpRanges.NormalFormIsUnique | src/FastGateway/Infrastructure/IpPolicyMatcher.cs:112-114 | two such lists with the same coverage are equal, so the order of rules never matters |
| IpRanges.BinarySearch | src/FastGateway/Infrastructure/IpPolicyMatcher.cs:151-151 | the index of the value, or the complement of where it would stand |
| IpRanges.ContainsAddress | src/FastGateway/Infrastructure/IpPolicyMatcher.cs:149-156 | a start that is hit or the one candidate range decides membership |
| IpRanges.RightIff | src/FastGateway/Infrastructure/IpPolicyMatcher.cs:151-155 | the answer is that of the ranges for every address exactly when each range that ends before it starts has its start covered or just above a covered address |
| IpRuleText.ParsedMeansText | src/FastGateway/Infrastructure/IpPolicyMatcher.cs:38-87 | the parsed rule names exactly the addresses that the text means by its form: two addresses around a dash in either order, an IPv4 or IPv6 block, or else itself up to case; blank texts name nothing |
| IpRuleText.HostRuleFromText | src/FastGateway/Infrastructure/IpPolicyMatcher.cs:60-72 | a text is parsed as a single-address block exactly when it is an IPv4 address, a slash and 32, white space aside |
| IpPolicyMatcher.AddRule | src/FastGateway/Infrastructure/IpPolicyMatcher.cs:38-87 | after one rule exactly the addresses it stands for are accepted in addition |
| IpPolicyMatcher.Build | src/FastGateway/Infrastructure/IpPolicyMatcher.cs:32-96 | the matcher accepts exactly the addresses that the text of some rule means, and every IPv4 address when some text has prefix 32 |
| IpPolicyMatcher.BuildFromRanges | src/FastGateway/Infrastructure/IpPolicyMatcher.cs:101-110 | a matcher from any ranges accepts exactly the IPv4 addresses inside one of them, and the start of a range that ends before it starts unless an address just below is inside one |
| IpPolicyMatcher.BackwardRangeMatchesItsStart | src/FastGateway/Infrastructure/IpPolicyMatcher.cs:151-152 | the range from 8.8.8.8 down to 0.0.0.0 covers nothing and matches 8.8.8.8 |
| IpPolicyMatcher.Contains | src/FastGateway/Infrastructure/IpPolicyMatcher.cs:145-169 | the three collections together answer what the matcher means |
| IpPolicyMatcher.BuiltMeaning | src/FastGateway/Infrastructure/IpPolicyMatcher.cs:32-96 | what is built from the parsed rules is exactly what their texts mean, except that a text with prefix 32 stands for every IPv4 address |
| IpPolicyMatcher.MatcherIsRightIff | src/FastGateway/Infrastructure/IpPolicyMatcher.cs:9-11 | the matcher answers what the rule texts mean for every address exactly when no text has prefix 32 or all IPv4 addresses are named |
| IpPolicyMatcher.HostRuleMatchesStranger | src/FastGateway/Infrastructure/IpPolicyMatcher.cs:67-67 | the matcher built from the text 10.0.0.1/32 contains 8.8.8.8, which the rule does not name |
| RegionRules.ParseRules | src/FastGateway/Infrastructure/RegionIpRangeProvider.cs:152-185 | the table depends only on the set of named regions; a whole-country rule absorbs its provinces |
| RegionRules.TableIsUnique | src/FastGateway/Infrastructure/RegionIpRangeProvider.cs:152-185 | any order and repetition of the rules gives the same table |
| RegionRules.NamedRegionsMembers | src/FastGateway/Infrastructure/RegionIpRangeProvider.cs:156-165 | a region is named exactly when some rule text names it |
| RegionRules.ParsedRegion | src/FastGateway/Infrastructure/RegionIpRangeProvider.cs:156-165 | the parser finds exactly the region the text names: the known country before the first bar and the province behind it, or the whole text as the country |
| RegionRules.TableMeansBanned | src/FastGateway/Infrastructure/RegionIpRangeProvider.cs:187-195 | the table lookup bans exactly the regions named themselves or by their country |
| RegionRules.GetRanges | src/FastGateway/Infrastructure/RegionIpRangeProvider.cs:27-60 | the scan collects the segments whose remembered verdict is true, in order |
| RegionRules.MemoChangesNothing | src/FastGateway/Infrastructure/RegionIpRangeProvider.cs:45-51 | on a well-formed database the verdict kept per data pointer is that of every segment with it |
| RegionRules.SelectedCovers | src/FastGateway/Infrastructure/RegionIpRangeProvider.cs:27-60 | the collected ranges cover an address exactly when a segment around it has a banned region |
| RegionRules.BuildRegionMatcher | src/FastGateway/Infrastructure/RegionIpRangeProvider.cs:27-60 | from rule texts to answers: an address matches exactly when a segment around it has a banned region |
| ClusterRelay.UpdateSnapshot | src/FastGateway/Cluster/ClusterRelay.cs:33-49 | the last token of a node identifier wins, and a master believes exactly the non-empty tokens of listed nodes, a worker its own, a standalone node none |
| ClusterRelay.LastTokenIs | src/FastGateway/Cluster/ClusterRelay.cs:42-46 | the token of an identifier is that of the last listed node with it |
| ClusterRelay.TrustedIffVouched | src/FastGateway/Cluster/ClusterRelay.cs:120-133 | a request is trusted exactly when its non-empty token is that of a listed node at the master, or of the worker it is at |
| ClusterRelay.LoopDetectedIff | src/FastGateway/Gateway/Gateway.cs:803-824 | 508 is answered exactly to a request with such a token whose count is readable and above 2 |
| ClusterRelay.ForgedCountIsIgnored | src/FastGateway/Gateway/Gateway.cs:825-830 | without such a token the outcome is the same whatever the count header says |
| ClusterRelay.BothTrustIff | src/FastGateway/Cluster/ClusterRelay.cs:107-133 | both ends of a link trust each other exactly when the worker has the token last listed for it and that is not empty |
| ClusterRelay.RelaysAreVouched | src/FastGateway/Cluster/ClusterRelay.cs:107-133 | where that holds of all linked workers, every relay carries a token that a node vouches for |
| ClusterRelay.RelayAddresses | src/FastGateway/Cluster/ClusterRelay.cs:54-105 | which address each route gets: the host of the master or the tunnel of a listed worker, over TLS at 443 for an HTTPS server that listens at 80, else plain at its own port, and none where the node serves itself |
| ClusterRelay.NodeNameRoundTrip | src/FastGateway/Cluster/ClusterTunnelHub.cs:106-123 | the node identifier is recovered from its registration name, dashes and all |
| ClusterRelay.TunnelNamesAreUnique | src/FastGateway/Cluster/ClusterRelay.cs:82-85 | different nodes or ports never share a registration name |
| ClusterRelay.RelaysAreTrusted | src/FastGateway/Cluster/ClusterRelay.cs:107-133 | where both ends of every link trust each other, the receiver trusts every relay of the master or a linked worker |
| ClusterRelay.HopsAreCounted | src/FastGateway/Gateway/Gateway.cs:490-506 | there the hop count grows by one at every relay of a journey |
| ClusterRelay.RelaysAreBounded | src/FastGateway/Gateway/Gateway.cs:803-824 | there, whatever the routes and the first count, no more relays happen than the limit leaves, and 508 is answered exactly after all of them |
| ClusterRelay.RelaysAreBoundedIff | src/FastGateway/Gateway/Gateway.cs:803-824 | some bound on relays exists, for all routes and requests, exactly when both ends of every link trust each other, and then it is MaxHops + 2 |
| ClusterRelay.MasterIsNext | src/FastGateway/Cluster/ClusterRelay.cs:54-79 | with synced routes the master is the next hop unless the goal is here or one tunnel away |
| ClusterRelay.DesignatedNodeServes | src/FastGateway/Cluster/ClusterRelay.cs:54-133 | with synced routes the designated node, or the master for an unknown one, serves the request after at most two relays, whoever trusts whom |
| ClusterRelay.MismatchCirclesForever | src/FastGateway/Gateway/Gateway.cs:803-824 | if one end of a link does not trust the other, crossed routes relay a request any number of times |
| StatTotals.HourIsSumOfMinutes | src/FastGateway/BackgroundTask/StatisticsBackgroundService.cs:417-423 | each hour is the sum of its sixty minutes in every counter |
| StatTotals.BlockedSplits | src/FastGateway/BackgroundTask/StatisticsBackgroundService.cs:458-466 | refusals are 403 plus 429, bot challenges are among the former, and refusals never exceed requests |
| StatTotals.TotalRowSplits | src/FastGateway/BackgroundTask/StatisticsBackgroundService.cs:420-423 | the total row is the sum over the hosts plus the hostless requests twice |
| StatTotals.TotalRowIsSumOverHosts | src/FastGateway/BackgroundTask/StatisticsBackgroundService.cs:420-423 | the total row is the sum over the hosts exactly when every request of the bucket has a host |
| StatTotals.UpsertCommutes | src/FastGateway/BackgroundTask/StatisticsBackgroundService.cs:315-333 | collecting a batch and upserting it equals counting each request into the store |
| StatTotals.BucketsAfterBatch | src/FastGateway/BackgroundTask/StatisticsBackgroundService.cs:446-477 | every stored counter stays the sum over the stored log of what each request adds |
| StatDims.DimUpsertCommutes | src/FastGateway/BackgroundTask/StatisticsBackgroundService.cs:353-367 | collecting dimension rows and upserting them equals recording each at once, name limit included |
| StatDims.RequestCountsOnce | src/FastGateway/BackgroundTask/StatisticsBackgroundService.cs:425-437 | in an always-recorded dimension a request counts exactly once in each of its rows |
| StatDims.ColumnCountsRequests | src/FastGateway/BackgroundTask/StatisticsBackgroundService.cs:425-437 | the recordings of such a dimension are the requests of the hour |
| StatDims.ColumnsAfterBatch | src/FastGateway/BackgroundTask/StatisticsBackgroundService.cs:479-519 | the names of such a dimension, the overflow name included, keep adding up to the requests, whatever is remembered |
| StatDims.NamesAreLimited | src/FastGateway/BackgroundTask/StatisticsBackgroundService.cs:496-519 | while the hours of the limited dimensions never go back, at most 300 names besides the overflow name are stored in a column |
| StatDims.LimitAfterRecord | src/FastGateway/BackgroundTask/StatisticsBackgroundService.cs:496-519 | a recording takes some column past 300 names exactly when its name is new to the 300 stored ones and the memory lets it through |
| StatDims.LimitHoldsIff | src/FastGateway/BackgroundTask/StatisticsBackgroundService.cs:496-519 | over a run from any state, after restarts and lost batches too, all columns keep to 300 names exactly when they did at the start and no recording is of that kind |
| StatDims.ReturningHourPassesTheLimit | src/FastGateway/BackgroundTask/StatisticsBackgroundService.cs:504-512 | requests for 300 paths, one request in another hour and one for another path store 301 paths in the first hour, from nothing, for the host and in the total |
| StatUniques.UniquesAreExact | src/FastGateway/BackgroundTask/StatisticsBackgroundService.cs:521-550 | while everything the memory would skip is stored, exactly the rows of the requests are stored, despite eviction and the memory cap, and that stays so |
| StatUniques.UniquesCommute | src/FastGateway/BackgroundTask/StatisticsBackgroundService.cs:369-377 | inserting collected rows later equals inserting each at once |
| StatUniques.StoresAllIff | src/FastGateway/BackgroundTask/StatisticsBackgroundService.cs:521-550 | from any state, every stream of rows to come is stored in full exactly when everything the memory would skip is stored |
| StatUniques.LostBatchIff | src/FastGateway/BackgroundTask/StatisticsBackgroundService.cs:110-117 | after a lost batch every stream to come is stored in full exactly when the memory skips no unstored row of that batch |
| StatUniques.LostBatchLosesItsRows | src/FastGateway/BackgroundTask/StatisticsBackgroundService.cs:110-117 | a new row of a lost batch stays out of the store however often it comes again, while its day is kept and the memory has room |
| Statistics.Service.AccumulateBucket | src/FastGateway/BackgroundTask/StatisticsBackgroundService.cs:446-477 | each counter of the bucket grows by one exactly when the request is of its kind, the time by its duration, and other buckets stay |
| Statistics.Service.LimitDimKey | src/FastGateway/BackgroundTask/StatisticsBackgroundService.cs:499-519 | the stored name and the remembered names are those of the limit, and one hour is remembered at a time |
| Statistics.Service.AccumulateDim | src/FastGateway/BackgroundTask/StatisticsBackgroundService.cs:479-494 | one recording under its stored name |
| Statistics.Service.AccumulateUnique | src/FastGateway/BackgroundTask/StatisticsBackgroundService.cs:521-550 | a row is collected unless remembered below the cap; a new day drops the days numbered below it less one, at the start of a month all of them |
| Statistics.Service.AccumulateDims | src/FastGateway/BackgroundTask/StatisticsBackgroundService.cs:425-437 | the dimension rows of one request for one host |
| Statistics.Service.AccumulateUniques | src/FastGateway/BackgroundTask/StatisticsBackgroundService.cs:439-443 | the unique rows of one request for one host |
| Statistics.Service.Accumulate | src/FastGateway/BackgroundTask/StatisticsBackgroundService.cs:382-445 | one request counts for its host and for the empty host |
| Statistics.Service.UpsertBuckets | src/FastGateway/BackgroundTask/StatisticsBackgroundService.cs:315-350 | after the loop every row is the pointwise sum of store and batch |
| Statistics.Service.UpsertDims | src/FastGateway/BackgroundTask/StatisticsBackgroundService.cs:352-367 | likewise for dimension rows |
| Statistics.Service.WriteBatch | src/FastGateway/BackgroundTask/StatisticsBackgroundService.cs:275-380 | a committed batch has the effect of its requests one by one, a lost one changes only the memory, and the tables stay counts over the stored log |
| Statistics.SplitDoesNotMatter | src/FastGateway/BackgroundTask/StatisticsBackgroundService.cs:94-112 | any way of cutting the stream into batches gives the same tables and the same memory |
| Statistics.StoredHourAgrees | src/FastGateway/BackgroundTask/StatisticsBackgroundService.cs:382-477 | stored hours are sums of stored minutes and stored refusals split, after any batches, lost ones included |
| Statistics.StoredDimsAddUp | src/FastGateway/BackgroundTask/StatisticsBackgroundService.cs:479-519 | stored names of an always-recorded dimension add up to the stored hour, refused requests too |
| StatMeaning.StoredCountersMean | src/FastGateway/BackgroundTask/StatisticsBackgroundService.cs:446-477 | after any batches, lost ones included, every counter of a row is the number of its requests with that property: all, pages, refused and how, status 200 to 299 and so on, and the sum of their durations |
| StatMeaning.NamesAfterBatch | src/FastGateway/BackgroundTask/StatisticsBackgroundService.cs:425-437 | the count under a name is the number of requests of the hour with that value, for unlimited dimensions exactly, for limited ones at most |
| StatMeaning.StoredUniquesMean | src/FastGateway/BackgroundTask/StatisticsBackgroundService.cs:439-443 | while no batch was lost, a unique row is stored exactly when some request of that day and host has that address or visitor, or was refused with that address |
| AbnormalIpMonitor.SlotsPartitionWindow | src/FastGateway/Services/AbnormalIpMonitor.cs:38-39 | the twelve slots partition the window of twelve keys |
| AbnormalIpMonitor.BucketIsFiveSeconds | src/FastGateway/Services/AbnormalIpMonitor.cs:66-66 | a bucket key stands for the five seconds that start at five times the key after 1970 |
| AbnormalIpMonitor.SlotContribution | src/FastGateway/Services/AbnormalIpMonitor.cs:265-278 | skipping old keys leaves each slot its exact share of the window |
| AbnormalIpMonitor.RingAfterRecord | src/FastGateway/Services/AbnormalIpMonitor.cs:247-263 | recording keeps every slot the count of its newest key |
| AbnormalIpMonitor.IpEntry.IncrementBucket | src/FastGateway/Services/AbnormalIpMonitor.cs:247-263 | one slot takes the key and restarts or grows; the others stay |
| AbnormalIpMonitor.IpEntry.GetWindowErrorCount | src/FastGateway/Services/AbnormalIpMonitor.cs:265-278 | the ring sum is the number of recorded errors in the window, counted over the full history |
| AbnormalIpMonitor.IpEntry.Record | src/FastGateway/Services/AbnormalIpMonitor.cs:160-191 | after a record every field is what the longer history says, the last abnormal time included |
| AbnormalIpMonitor.IpEntry.TrySnapshot | src/FastGateway/Services/AbnormalIpMonitor.cs:193-205 | an IP is shown exactly when its window reaches the threshold or was abnormal within the retention |
| AbnormalIpMonitor.IpEntry.ShownIsNotEvictable | src/FastGateway/Services/AbnormalIpMonitor.cs:235-244 | an IP that would be shown can not be evicted at any idle limit of a minute or more |
| AbnormalIpMonitor.IpEntry.EvictableIffStale | src/FastGateway/Services/AbnormalIpMonitor.cs:235-244 | an entry is evictable exactly when its last error is as old as the idle limit and no error within the retention brought its window to the threshold |
| AbnormalIpMonitor.Monitor.Cleanup | src/FastGateway/Services/AbnormalIpMonitor.cs:88-106 | cleaning drops exactly the stale entries and none that would be shown |
| UdpSessions.StepKeeps | src/FastGateway/Gateway/StreamProxyManager.cs:386-517 | every step of creators, relays, cleaners and disposal keeps the invariant |
| UdpSessions.RunKeepsInv | src/FastGateway/Gateway/StreamProxyManager.cs:386-517 | the invariant holds in every state of every interleaving |
| UdpSessions.CountIsExact | src/FastGateway/Gateway/StreamProxyManager.cs:406-440 | the counter is reservations plus sessions plus releases in flight, and without increments about to be undone never exceeds the limit |
| UdpSessions.DisposedAndUncountedOnce | src/FastGateway/Gateway/StreamProxyManager.cs:506-517 | a session is disposed and uncounted once, never while it is in the table |
| UdpSessions.OnlyOwnCleanerRemoves | src/FastGateway/Gateway/StreamProxyManager.cs:506-517 | a session leaves the table only through a clean-up of that very session: a stale one spares the successor |
| UdpAdmission.AdmittedIff | src/FastGateway/Gateway/StreamProxyManager.cs:406-411 | a new session goes on to connect exactly when the counter stood below the limit |
| UdpAdmission.UndisturbedSessionRelays | src/FastGateway/Gateway/StreamProxyManager.cs:386-446 | in every interleaving a creator that alone has its address, finds room and a connection and is left alone gets its session into the table and its relay running; until then its own step is possible and brings it nearer |
| UdpDisposal.SweptIsNeverLeft | src/FastGateway/Gateway/StreamProxyManager.cs:576-587 | a session in the table when the loop of disposal begins is never left |
| UdpDisposal.LeftIff | src/FastGateway/Gateway/StreamProxyManager.cs:432-446 | at rest a session is left exactly when it was added after that loop began, its relay start met the disposed token source, and it was never removed |
| UdpDisposal.NothingLeftIff | src/FastGateway/Gateway/StreamProxyManager.cs:576-587 | at rest the table is empty and the counter 0 exactly when no session came that late |
| UdpDisposal.StrandedAfterDisposal | src/FastGateway/Gateway/StreamProxyManager.cs:576-587 | only disposal of the runner strands a session |
| UdpDisposal.DisposalCanStrand | src/FastGateway/Gateway/StreamProxyManager.cs:432-446 | a run in which a session is added between the loop of disposal and the disposal of the token source, and stays |
| StreamForwarding.SendAll | src/FastGateway/Gateway/StreamProxyManager.cs:274-276 | partial sends deliver a prefix of the chunk, and all of it unless a send breaks |
| StreamForwarding.Pump | src/FastGateway/Gateway/StreamProxyManager.cs:260-290 | what is delivered is a prefix of what was read; the end is passed on only after everything was delivered, and always without errors |
| StreamForwarding.Runner.SelectUpstreamIndex | src/FastGateway/Gateway/StreamProxyManager.cs:523-550 | the first least-loaded upstream, the random one, or the next in turn |
| StreamForwarding.Runner.ConnectUpstream | src/FastGateway/Gateway/StreamProxyManager.cs:292-331 | the first reachable upstream going round from the start is taken and counted; before giving up each was tried exactly once |
| StreamForwarding.UnsignedCountsUp | src/FastGateway/Gateway/StreamProxyManager.cs:546-548 | seen as an unsigned word the signed counter just goes up |
| StreamForwarding.PicksAreAPermutationIff | src/FastGateway/Gateway/StreamProxyManager.cs:546-548 | from any counter, the next count picks visit every upstream, each once, exactly when they do not cross the wrap of the word, or start at it, or the count divides 2^32 |
| ConfigReconcile.Gateways.ApplyServer | src/FastGateway/Cluster/ClusterConfigApplier.cs:92-125 | what one entry makes of the gateway of its id; no other gateway changes |
| ConfigReconcile.Gateways.ReconcileServers | src/FastGateway/Cluster/ClusterConfigApplier.cs:78-126 | every new entry has its outcome, removed ones are closed, strangers are left alone |
| ConfigReconcile.RunningIsTheNewConfig | src/FastGateway/Cluster/ClusterConfigApplier.cs:78-126 | from agreement with the old configuration, exactly the enabled servers of the new one run, each with its definition, limits and routes |
| ConfigReconcile.UnchangedGatewayIsNotClosed | src/FastGateway/Cluster/ClusterConfigApplier.cs:100-119 | an enabled gateway with unchanged definition and limits is the same build as before |
| ConfigReconcile.Gateways.ApplyServers | src/FastGateway/Cluster/ClusterConfigApplier.cs:78-126 | one call takes the gateways from agreement with the old configuration to agreement with the new one and keeps the build of every unchanged one |
| ConfigReconcile.Runners.Start | src/FastGateway/Gateway/StreamProxyManager.cs:25-52 | a rule starts exactly when enabled, identified, targeted and not running; a failed start leaves nothing |
| ConfigReconcile.Runners.Reload | src/FastGateway/Gateway/StreamProxyManager.cs:74-78 | a reload runs the new rule in a new runner, or nothing |
| ConfigReconcile.Runners.ReconcileForwards | src/FastGateway/Cluster/ClusterConfigApplier.cs:147-166 | an unchanged forward is never touched, a changed one is rebuilt, a removed one stopped |
| ConfigReconcile.RunnersAreTheNewConfig | src/FastGateway/Cluster/ClusterConfigApplier.cs:147-166 | from agreement with the old configuration, exactly the startable forwards of the new one run, each with its definition |
| ConfigReconcile.Runners.ApplyForwards | src/FastGateway/Cluster/ClusterConfigApplier.cs:147-166 | one call makes exactly the startable forwards of the new configuration run and leaves unchanged ones untouched |
| FailoverRouting.MatchHost | src/FastGateway/Middleware/ClusterRequestFailoverMiddleware.cs:215-247 | a host matches exactly when no hosts are given or some pattern matches |
| FailoverRouting.PatternMeans | src/FastGateway/Middleware/ClusterRequestFailoverMiddleware.cs:215-247 | the star accepts every host, a star and a dot the hosts that end in the dot and the rest, any other name itself; case aside, and a blank one nothing |
| FailoverRouting.RoutePathMeans | src/FastGateway/Middleware/ClusterRequestFailoverMiddleware.cs:249-257 | a route path is one slash and the path without the white space and then the slashes around it |
| FailoverRouting.PriorityMeans | src/FastGateway/Middleware/ClusterRequestFailoverMiddleware.cs:371-388 | an entry ranks as exact with some exact host, as wildcard with wildcards only, and last without hosts |
| FailoverRouting.Build | src/FastGateway/Middleware/ClusterRequestFailoverMiddleware.cs:351-431 | the table is a ranked permutation of the enabled cluster entries, and disabled exactly when the server is or none exist |
| FailoverRouting.TableMembers | src/FastGateway/Middleware/ClusterRequestFailoverMiddleware.cs:362-396 | an entry is in the table exactly when an enabled cluster domain gives it |
| FailoverRouting.Match | src/FastGateway/Middleware/ClusterRequestFailoverMiddleware.cs:448-459 | the match serves the request, and every other serving entry has a lower host rank or the same and no longer path; none is found exactly when none serves |
| FailoverRouting.ExactNameWins | src/FastGateway/Middleware/ClusterRequestFailoverMiddleware.cs:403-408 | if the winner does not mix exact and wildcard hosts, an exact name is never beaten by a wildcard |
| FailoverRouting.UnbeatenCanWin | src/FastGateway/Middleware/ClusterRequestFailoverMiddleware.cs:403-408 | an entry no serving one outranks wins in some order the unstable sort may leave |
| FailoverRouting.ExactNameWinsIff | src/FastGateway/Middleware/ClusterRequestFailoverMiddleware.cs:403-408 | for a request whose host is named exactly, an exact name wins in every order the sort may leave exactly when no entry of exact rank serves it through a wildcard with a path as long as those of all exact names |
| FailoverRouting.OverridingIsMixed | src/FastGateway/Middleware/ClusterRequestFailoverMiddleware.cs:370-388 | only an entry that mixes exact and wildcard hosts can beat an exact name so |
| FailoverRouting.MixedEntryBeatsExactName | src/FastGateway/Middleware/ClusterRequestFailoverMiddleware.cs:388-388 | a mixed entry that matches through its wildcard outranks an exact name |
| FailoverRouting.Shuffle | src/FastGateway/Middleware/ClusterRequestFailoverMiddleware.cs:289-297 | the shuffled array is a permutation |
| FailoverRouting.Forward | src/FastGateway/Middleware/ClusterRequestFailoverMiddleware.cs:83-138 | attempts follow the candidates, at most three, at most the configured number beyond the first, each after a transport error before the response started and within the time budget; the loop stops for no other reason |
| FailoverRouting.TriedAtMostOnce | src/FastGateway/Middleware/ClusterRequestFailoverMiddleware.cs:83-97 | over shuffled distinct candidates none is tried twice |
| RouteTableCache.StepKeeps | src/FastGateway/Middleware/ClusterRequestFailoverMiddleware.cs:166-182 | a table labelled with the current version holds current content unless a replacement is between its two locks |
| RouteTableCache.CurrentVersionIsCurrentTable | src/FastGateway/Services/ConfigurationService.cs:68-117 | with no replacement under way, a cached table with the current version is the table of the present configuration, in every interleaving |
| RouteTableCache.CallAtRest | src/FastGateway/Middleware/ClusterRequestFailoverMiddleware.cs:166-182 | a call at rest returns the table of the present configuration, whatever was cached |
| CertificateCache.GetCert | src/FastGateway/Services/CertService.cs:40-62 | a key equal to the host up to case is found first, else one with a star for its first label (section 6.4.3 of RFC 6125), in any enumeration order, and none is found exactly when there is neither |
| CertificateCache.StarAnswersIff | src/FastGateway/Services/CertService.cs:53-60 | a key for a star and a rest answers for a host without an exact key exactly when the host is one label before that rest |
| CertificateCache.StarIsOneLabel | src/FastGateway/Services/CertService.cs:53-60 | it does not answer for a host with one label more |
| CertificateCache.InvalidateCertificate | src/FastGateway/Gateway/Gateway.cs:116-144 | exactly the hosts of the domain, or below the wildcard, are dropped |
| CertificateCache.DropsIff | src/FastGateway/Gateway/Gateway.cs:116-144 | what is dropped is the host of the domain itself, and for a wildcard exactly the hosts that end in its dot and rest |
| CertificateCache.KeyDropsHost | src/FastGateway/Gateway/Gateway.cs:116-144 | a key that has to do with a host drops it when invalidated |
| CertificateCache.ConfinedChangeKeeps | src/FastGateway/Services/CertService.cs:83-92 | a change of the table confined to invalidated domains keeps cache and table in agreement |
| CertificateCache.UploadKeeps | src/FastGateway/Services/CertService.cs:407-453 | an upload that leaves no old key behind, renaming or not, keeps the agreement |
| CertificateCache.UploadTakesEffect | src/FastGateway/Services/CertService.cs:407-453 | after an upload the domain leads to the new content, its host is not cached and gets that content from the key, the old domain of the certificate is gone and other keys stay |
| CertificateCache.DeleteKeeps | src/FastGateway/Services/CertService.cs:502-513 | a deletion keeps it |
| CertificateCache.DeleteTakesEffect | src/FastGateway/Services/CertService.cs:502-513 | after a deletion certificate, domain and the cached hosts of that domain are gone and everything else stays |
| CertificateCache.ValidateKeeps | src/FastGateway/Services/CertService.cs:317-328 | a DNS validation keeps it |
| CertificateCache.ReplaceKeeps | src/FastGateway/Services/CertService.cs:83-92 | a replacement of all certificates keeps it |
| CertificateCache.HandshakeKeeps | src/FastGateway/Gateway/Gateway.cs:319-338 | a handshake caches the certificate its host selects |
| CertificateCache.CacheAgrees | src/FastGateway/Gateway/Gateway.cs:319-358 | in every run that leaves no old key behind, every cached certificate is the one its host would get now |
| CertificateCache.UploadIsSafeIff | src/FastGateway/Services/CertService.cs:404-453 | from agreement, the cache agrees with the table in all that follows an upload exactly when the upload leaves no old key behind |
| CertificateCache.OldKeyGoesStale | src/FastGateway/Services/CertService.cs:441-453 | from an old key left behind, moving the certificate to any unrelated domain, one handshake and a renewal leave its host stale |
| CertificateCache.CaseOnlyRenameLeavesStale | src/FastGateway/Services/CertService.cs:441-450 | a run with one case-only rename that ends with a stale certificate |
| CertificateRace.StoreAgreesIff | src/FastGateway/Gateway/Gateway.cs:327-333 | caching what was looked up before keeps the agreement exactly when the host is cached already or would get the same content now |
| CertificateRace.RaceAgreesIff | src/FastGateway/Gateway/Gateway.cs:319-338 | however changes fall between lookups and cachings, the cache agrees throughout a run exactly when every caching is of that kind |
| CertificateRace.UploadBetweenIff | src/FastGateway/Services/CertService.cs:425-450 | when the certificate of a host's only key is uploaded again in between, the caching is good exactly when its new domain still has to do with the host |
| CertificateRace.UnrelatedUploadKeeps | src/FastGateway/Services/CertService.cs:425-450 | an upload of another certificate between unrelated domains keeps a caching good |
| JwsConvert.RoundTrip | src/Certes/Jws/JwsConvert.cs:18-47 | decoding inverts encoding for every byte sequence |
| JwsConvert.KnownEncodings | src/Certes/Jws/JwsConvert.cs:18-26 | the encodings of one to three bytes that section 10 of RFC 4648 lists |
| JwsConvert.KnownLongEncoding | src/Certes/Jws/JwsConvert.cs:18-26 | the encoding of six bytes there |
| JwsConvert.KnownSigns | src/Certes/Jws/JwsConvert.cs:18-26 | the two signs of base64url |
| JwsConvert.EncodersAgree | src/FastGateway/Services/BotProtectionService.cs:404-407 | both encoders agree, and no encoding has length 1 mod 4 or contains a dot |
| JwsConvert.DecodersRefuseTheSame | src/FastGateway/Services/BotProtectionService.cs:409-414 | both decoders agree on every text, refusals included |
| JwsConvert.Base64RoundTrip | src/Certes/Jws/JwsConvert.cs:20-20 | the padded encoding has a length divisible by four and decodes to its bytes |
| BotChallenge.SignedReadsBack | src/FastGateway/Services/BotProtectionService.cs:290-323 | a signed value reads back despite the split at the dot exactly under a key of at least 32 bytes; under a shorter one nothing is accepted |
| BotChallenge.OtherPayloadNeedsCollision | src/FastGateway/Services/BotProtectionService.cs:315-317 | another payload under the same signature is read only if its HMAC is the same |
| BotChallenge.Challenges.Cleanup | src/FastGateway/Services/BotProtectionService.cs:389-395 | exactly the expired nonces are forgotten |
| BotChallenge.Challenges.TryConsume | src/FastGateway/Services/BotProtectionService.cs:124-134 | a nonce used before is accepted exactly when it expires between the two clock readings, hence never with one reading |
| BotChallenge.AcceptedOnceWhileValid | src/FastGateway/Services/BotProtectionService.cs:124-134 | however calls overlap, a nonce is accepted at most once until it has expired |
| BotChallenge.AcceptedIff | src/FastGateway/Services/BotProtectionService.cs:124-134 | however calls overlap, a nonce is accepted exactly when it was removed after every time it was accepted before |
| BotChallenge.SecondAcceptStraddles | src/FastGateway/Services/BotProtectionService.cs:113-133 | a nonce accepted again was removed in between after its expiry, and the accepting call checked before the expiry and added after it |
| BotChallenge.OneReadingIsNotEnough | src/FastGateway/Services/BotProtectionService.cs:124-134 | a run with one clock reading a call in which a nonce is accepted twice |
| BotChallenge.LateCallIsLetThrough | src/FastGateway/Services/BotProtectionService.cs:113-133 | a call that checked in time and adds late is let through a second time |

## Left out

- Network, TLS, Kestrel, YARP, ACME, files, JSON, HMAC and hashing: only their outcomes appear, as parameters; JSON is assumed to read back what it wrote, nothing is assumed of HMAC.
- The web interface, the DTOs and the Minimal API mapping.
- Case folding, white space, `int.TryParse`, `IPAddress.TryParse`, `PathString.StartsWithSegments`, address enrichment and the local calendar day are parameters of the models that need them.
- `List.Sort`, `Array.BinarySearch` and dictionary enumeration are modelled by what they promise; an order they do not promise is left open.
- Counters are unbounded integers; overflow of session, request and error counts is not modelled, except for the round-robin word and the IPv4 arithmetic.
- TunnelLifecycle.AgentClientConnection.DisposeAsync: one uninterrupted call; its interleavings, with the disposed flag set outside the lock, are the steps of `TunnelProtocol`.
- TunnelLifecycle.PendingHttpTunnel.TrySetResult: the disposal of a refused tunnel is part of the call; in the transition system it is a step of its own.
- A tunnel that `SetResult` refuses is closed a second time by its caller; closing twice is covered by the once-only close.
- ClientRegistry.FinishedClientIsGone: does not say that a live client is always shown, because a late `OnConnected` of an older connection can overwrite the entry of a newer one.
- TunnelDelivery.UndisturbedCallReturns: an exception thrown by the log after the bind counts as an interruption of the call.
- The key of a client is taken as already lower-cased.
- Rate windows, response headers and `ParsePeriod` of rate limiting.
- The index arithmetic of the region file: `ptr` wrap-around and bounds checks of a damaged file are not part of this model.
- The Standalone role of the cluster relays nothing; `ClusterRelay` covers masters and workers, and takes the configured master address to reach the master.
- Message order of concurrent configuration broadcasts, about which the code guarantees nothing.
- SQL text, retention deletes and the geo backfill: an upsert is pointwise addition, the log only grows.
- Statistics.Service.AccumulateUnique: collects a set, where the program collects a list whose duplicates the insert ignores.
- AbnormalIpMonitor.IpEntry.Record: calls for one IP do not overlap and time does not go back; races between a bucket swap and an increment are not part of this model.
- The capacity limit of the monitor, description counts, and an entry removed while another thread records into it.
- UdpSessions.CountIsExact: concurrent creators are allowed, although the program has one receive loop.
- UdpDisposal.LeftIff: the loop of disposal is taken to meet every session that is in the table when it begins and stays there; whether it meets later ones is left open.
- The admission of TCP connections, idle timers, and the bytes of UDP datagrams.
- StreamForwarding.Runner.ConnectUpstream: whether an upstream is reachable is fixed during one call.
- ConfigReconcile.Gateways.ReconcileServers: identifiers in one configuration are distinct; a start that comes online after the wait is a failed start; routes injected by tunnels are part of the routes parameter.
- The passive health marks, the response after the last failed attempt, and the client pool of fail-over.
- CertificateCache.CacheAgrees: a handshake is one step, its two steps are those of `CertificateRace`; renewal and HTTP-01 application, which add keys without invalidating them, are outside the claim; different domains are taken to have different certificate files.
- JwsConvert.DecodersRefuseTheSame: `Convert.FromBase64String` also skips white space, and its treatment of unused trailing bits is not claimed.
- The remaining checks on challenge states, clearance cookies, Turnstile verification and the verification rate window.
- The key suffix scheme for duplicate upstreams, file storage, login and option parsing.
