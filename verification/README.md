# Velora DNS: a verified model

This project models the decision path of the Velora DNS server, the state that path
reads, and the self-contained cores around it, and proves what they promise. Verify it
with `dafny verify dfyconfig.toml`.

## How the model is laid out

| files | component | main results |
|---|---|---|
| `Dns.dfy` | names, records, messages, closest-enclosing-name tables | the table walk finds the longest enclosing entry; changing one entry affects only names at or below it |
| `CacheSpec.dfy`, `CacheHistory.dfy`, `Cache.dfy` | answer cache | map and list agree with a simple timed list; over every history a hit is the aged last store for the same request, eviction takes the least recently used entry; aging never wraps a counted TTL |
| `AnswerChain.dfy` | check of upstream replies | the loop accepts exactly the connected alias chains of at most sixteen names |
| `Filtering.dfy`, `Policies.dfy` | block lists and per-client policies | tables mean the rules whatever their order; the explanation is sound and complete; saving keeps everything compilable |
| `Sorting.dfy`, `Input.dfy` | sorting by key, lists that are entered | the sorted arrangement is determined exactly if keys decide; a list is read into its different values |
| `Clients.dfy` | client lookup | bucket lookup is the longest enabled prefix; what is stored owns the networks entered and every prefix keeps one owner |
| `Forwarding.dfy`, `Rewrites.dfy` | conditional forwarding, DNS rewrites | most specific rule; a save or delete changes matches only at or below the domains it reports |
| `ZoneRecords.dfy`, `Zones.dfy`, `ZoneLookup.dfy`, `ZoneService.dfy` | local zones | normalisation is idempotent; exactly which zones are served; lookup never fails and every reply says, field by field, a declarative meaning that is unique; what is served is always what is stored, no update is lost |
| `Resolver.dfy`, `ResolverMeaning.dfy`, `ResolverImpl.dfy`, `System.dfy` | the resolver and whole runs of the server | a dry run tells the truth; every query is told what filter, local layers, cache and upstream say, joined along its aliases; every answer that is not a block is a clean alias chain and respects the rules configured for its client; every cached answer comes from the route that matches now |
| `RateLimit.dfy` | token buckets | a query is granted exactly if it fits into every window of both budgets; pruning is harmless exactly when ten minutes refill the burst |
| `DhcpPacket.dfy`, `DhcpAddress.dfy`, `DhcpPool.dfy` | DHCP codec and address pool | every field at its offset; round trips exactly when the format can carry the data; reservations are kept; range allocation gives the lowest free host; leases and addresses stay inverse |
| `Restore.dfy` | online restore | what is applied is what was uploaded, at most once, with a safety copy; exactly when an unconfirmed restore is rolled back |
| `Versions.dfy`, `Release.dfy` | version precedence and update selection | the order of section 11 of Semantic Versioning; comparison is precedence exactly where texts are unambiguous; selection is the greatest whatever the order |
| `Cluster.dfy` | zone replication | a successful apply makes the replica equal to the snapshot and republish the same revision; a failed one leaves each zone wholly old or wholly new |

Code that works by changing things step by step is modelled by methods and classes and
proved against specification functions; the theorems are about those functions and about
whole runs. A name is the sequence of its labels, leaf first. Time is an integer number of
nanoseconds in the cache, a real number of seconds in the rate limiter. TTLs are 32-bit
numbers and their arithmetic wraps explicitly. The upstream, the clock, the
repository's answers and I/O faults are parameters. Locks are modelled by treating each
call as one step.

## What the proofs found

* A dry run says "would forward" exactly when the real query goes upstream; in all other
  cases message, source and error agree.
* Negative cache entries age authority and additional records that the lifetime does not
  count, so their TTL can wrap: exactly when such a record's TTL is smaller than the
  entry's age (`CacheSpec.UncountedRecordWraps`, `CacheSpec.WrappedTtlWitness`).
* For a denial reached through an alias, a TTL override rewrites the records after the
  SOA was clamped, so the TTL on the wire equals the cached lifetime only under the
  condition in `CacheSpec.AliasDenialAnnouncesLifetime`.
* A client bucket forgotten after ten idle minutes is indistinguishable from a kept one
  exactly when 600 times the client rate is at least the burst.
* The network address of a pool is computed wrongly for prefixes that end at a byte
  boundary and carry host bits; the range walk ends inside the network exactly for the
  networks of `DhcpPool.Walkable`: from 0.0.0.0 it never moves, and a /32 starts outside,
  where it grants the first usable address it meets, or goes on for ever.
* A range grant is recorded with the zero time as its expiry, so the next expiry run drops
  it; an address granted on request is not recorded at all, and later requests of others
  are granted it exactly while no other client holds it.
* Stored leases give inverse tables exactly if each running lease is followed by another of
  its client just when it is followed by another of its address; with each address stored
  once, exactly if no client has two running leases.
* An unconfirmed restore is rolled back by the next start exactly if its state file could be
  written and no other backup was staged since. One whose state file could not be written
  is changed by no start and no confirmation until another backup is staged.
* A rollback is exact when each file existed before the restore and can be put back; a file
  that was missing stays in its restored form.
* Two versions that differ only in leading zeros of a pre-release number are each called
  the smaller one; the selection of a release is right nevertheless.
* The revision of a snapshot is said to change only when data changes. Records that differ
  only in priority sort by the order in which they are stored, so equal data can get
  different revisions: exactly if some zone has two different records of one name, type
  and value, and a zone with two such mail exchangers is accepted. A replica that applied a
  snapshot publishes the same revision nevertheless.
* Invalidation goes by the question in a stored message, and the cache takes any message:
  it reaches all entries of a name as long as replies have the question asked, which the
  forwarder sees to.
* The comment above the restore code says that a start that never becomes ready is
  followed by a rollback; the code does so only if nothing was staged in between.

## Model

| member | source | states |
|---|---|---|
| Dns.ClosestIsLongest | internal/zones/snapshot.go:25-33 | walking up from a name finds an entry exactly if some key is at or above it, and then the longest such key |
| Dns.ChangeIsLocal | internal/forwarding/forwarding.go:131-148 | tables that agree on all keys above a name except some listed ones give the same result at every name not at or below those |
| Dns.WalkUp | internal/zones/snapshot.go:19-33 | the loop over parents computes the closest enclosing entry |
| Dns.LowerMeans | internal/cache/cache.go:105-109 | names agree in lower case exactly if they differ in the case of ASCII letters only |
| CacheSpec.LeastTtlIsLeast | internal/cache/cache.go:206-244 | the running minimum is a lower bound of the counted TTLs and is attained or is the cap |
| CacheSpec.LifetimeMeans | internal/cache/cache.go:206-244 | what counts as a denial, and how long a message is kept: a denial as long as its answer, its first authority record and a day allow, a positive answer as long as all its records but EDNS and a week allow, anything else not at all |
| CacheSpec.NormalizeNegativeMeans | internal/cache/cache.go:192-204 | exactly the authority records of a denial change, to its lifetime |
| CacheSpec.NormalizeUpstreamMeans | internal/cache/cache.go:70-91 | the override sets all TTLs but those of EDNS, exactly for whole, unvalidated, unsigned positive answers without zero TTLs |
| CacheSpec.HasKey | internal/cache/cache.go:92-104 | a query has a key exactly if it is one plain question without answers, with opcode zero and no first EDNS record of another version |
| CacheSpec.SameKeyMeans | internal/cache/cache.go:105-109 | two queries share a key exactly if lowered name, type, class, both flags and the DNSSEC bit of their first EDNS record agree |
| CacheSpec.PeekMeans | internal/cache/cache.go:134-148 | peeking sees what a lookup would, and the whole seconds left |
| CacheSpec.NormalizeNegativeStable | internal/cache/cache.go:192-204 | advertising the lifetime of a denial does not change that lifetime, and doing it twice is doing it once |
| CacheSpec.GetKeepsValid | internal/cache/cache.go:111-130 | a hit or miss keeps one entry per key, at most the maximum, and entry lifetimes |
| CacheSpec.PutKeepsValid | internal/cache/cache.go:165-189 | so does a store, whatever its message; entries keep the question of their key if messages have theirs |
| CacheSpec.AgingNeverWraps | internal/cache/cache.go:151-164 | on every hit a counted record has its stored TTL minus the whole-second age, and at least 1 |
| CacheSpec.UncountedRecordWraps | internal/cache/cache.go:151-164 | a record of a negative entry that the lifetime does not count can wrap during the entry's life exactly when its TTL is below the greatest age |
| CacheSpec.WrappedTtlWitness | internal/cache/cache.go:206-244 | a concrete denial whose extra record wraps |
| CacheSpec.DenialAnnouncesLifetime | internal/dns/resolver.go:209-211 | for a name error or an answer without records the SOA TTL on the wire is the cached lifetime, section 5 of RFC 2308 |
| CacheSpec.AliasDenialAnnouncesLifetime | internal/cache/cache.go:70-91 | for a denial reached through aliases this holds exactly under a condition on the override |
| CacheSpec.OverriddenDenialWitness | internal/cache/cache.go:70-91 | an alias denied for a minute that is announced for an hour |
| CacheHistory.AlwaysValid | internal/cache/cache.go:111-189 | over every history the list holds one entry per key and at most the maximum |
| CacheHistory.AlwaysAnswering | internal/cache/cache.go:346-363 | as long as replies have a question every stored message has one to look at, and as long as they have the question asked it is that of the key |
| CacheHistory.EntriesAreLastStores | internal/cache/cache.go:165-189 | every entry is the last message stored under its key and not removed since |
| CacheHistory.HitIsLastStore | internal/cache/cache.go:111-164 | a hit is the last message stored for a query that asked for the same in those six parts and not cleared since, record for record, with TTLs smaller by the whole seconds passed |
| CacheHistory.StoreIsFound | internal/cache/cache.go:165-189 | what is whole, at most 16384 bytes long and may be kept is found by the same request exactly until its lifetime is over; anything else changes nothing |
| CacheHistory.CountersCount | internal/cache/cache.go:111-130 | hits and misses count the lookups answered and not answered |
| CacheHistory.InvalidationLeaves | internal/cache/cache.go:346-363 | an invalidation leaves exactly the entries of other types and names |
| CacheHistory.OrderIsRecency | internal/cache/cache.go:111-189 | the keys ahead of an entry are exactly those stored or hit since it was and still present |
| CacheHistory.EvictionTakesOldest | internal/cache/cache.go:165-189 | an eviction removes the entry whose last store or hit is oldest |
| CacheHistory.LostOnlyWhenFull | internal/cache/cache.go:165-189 | a live entry is lost without being removed only after as many other keys as fit were used |
| CacheHistory.MissMeans | internal/cache/cache.go:111-130 | a miss means never stored, removed, expired, or pushed out by enough later keys |
| CacheImpl.CacheTtl | internal/cache/cache.go:206-244 | the nested loops compute the lifetime and whether the message is a denial |
| CacheImpl.NormalizeNegativeTtl | internal/cache/cache.go:192-204 | the loop over authority records clamps exactly the SOA records of a denial |
| CacheImpl.AgeMessage | internal/cache/cache.go:151-164 | the loops age every record but OPT and restore identifier and question |
| CacheImpl.Cache.Get | internal/cache/cache.go:111-130 | map, list and counters change as the specification says and stay consistent |
| CacheImpl.Cache.Peek | internal/cache/cache.go:134-148 | reads the aged message and remaining lifetime and changes nothing |
| CacheImpl.Cache.Put | internal/cache/cache.go:165-189 | replaces the entry of the key, evicts the last one when full, and stays consistent |
| CacheImpl.Cache.Expire | internal/cache/cache.go:246-253 | visiting the map in any order leaves exactly the live entries, in order |
| CacheImpl.Cache.Invalidate | internal/cache/cache.go:346-363 | removes exactly the entries whose stored message has a covered question, whatever their key, and counts them |
| CacheImpl.Cache.Flush | internal/cache/cache.go:365-365 | empties map and list |
| CacheImpl.Cache.SetUpstreamTtl | internal/cache/cache.go:56-65 | a changed override empties the cache, the same value changes nothing |
| CacheImpl.Cache.NormalizeUpstreamTtl | internal/cache/cache.go:70-91 | overrides the TTLs of positive answers within the message |
| AnswerChain.ValidateAnswerChain | internal/dns/response_policy.go:12-48 | accepts exactly the answers of at most sixteen aliases, each owned by the name before, none repeated, followed by data of the last name only |
| AnswerChain.AcceptableIsChain | internal/dns/response_policy.go:12-48 | every accepted answer, signatures included, is a connected alias chain from the question |
| AnswerChain.AcceptedExactly | internal/dns/response_policy.go:12-48 | without signatures, exactly the chains of at most sixteen aliases that visit no name twice are accepted |
| AnswerChain.ChainsJoin | internal/dns/resolver.go:145-160 | a chain that ends in an alias, continued by a chain from its target, is a chain |
| AnswerChain.FilteredChain | internal/dns/forwarder.go:135-139 | dropping signature records from a chain leaves a chain |
| AnswerChain.SameOwnersSameChain | internal/cache/cache.go:70-91 | being a chain does not depend on TTLs |
| Filtering.NormalizeDomainIdempotent | internal/filtering/matcher.go:87-106 | normalising a domain twice is normalising it once |
| Filtering.New | internal/filtering/matcher.go:24-41 | the table represents the rules, or some rule is unreadable |
| Filtering.Match | internal/filtering/matcher.go:42-72 | the walk over suffixes gives the verdict of the table, allowing rules first |
| Filtering.TableMeansRules | internal/filtering/matcher.go:42-72 | that verdict is the one the rules give when scanned |
| Filtering.VerdictMeans | internal/filtering/matcher.go:24-40 | the verdict by configured rules: a rule covers its domain and, if marked as a wildcard or written with a leading star, everything below |
| Filtering.OrderIsIrrelevant | internal/filtering/matcher.go:24-76 | tables built from the same rules in any order give the same verdict |
| Filtering.BlocksOfUnion | internal/filtering/service.go:71-105 | how two rule sets block together follows from how each does |
| Filtering.SourcesBlock | internal/filtering/service.go:87-105 | the rules of the enabled lists block a name exactly if a selected list has a domain at or above it |
| Filtering.Compile | internal/filtering/service.go:87-105 | the global table exists exactly within the limits and represents configuration and lists |
| Filtering.Subset | internal/filtering/service.go:71-86 | a client table represents configuration, extra rules and the chosen lists |
| Filtering.Attribute | internal/filtering/service.go:126-160 | gives the verdict of the static rules and names exactly the selected sources that cover a name |
| Policies.Compile | internal/policies/policies.go:104-129 | every enabled custom policy gets the table of its rules, every disabled filter none; fails exactly if an enabled custom policy has an unreadable domain |
| Policies.BlockedFor | internal/policies/policies.go:148-158 | the client's own table decides, otherwise the global one |
| Policies.Effective | internal/policies/policies.go:161-178 | finds the enabled policy of the client, if there is one |
| Policies.ExplainFilter | internal/policies/explain.go:18-68 | reports a match and no allowing rule exactly when the name is blocked for that client, and an allowing rule exactly when one is in force, in global, disabled and custom modes |
| Policies.BlocksMeansRules | internal/policies/policies.go:104-158 | the compiled tables block for a client exactly what its rules name: under a custom policy what configuration, policy or chosen lists block and neither allows, nothing under a disabled one, the global rules and lists otherwise |
| Policies.Normalize | internal/policies/policies.go:284-335 | refuses bad clients, modes, list numbers, domains and more than 1000 domains; a custom policy keeps the numbers entered, ascending and once, and the normal forms of the domains entered, once |
| Policies.NormalPolicyCompiles | internal/policies/policies.go:284-335 | the domains of a stored policy can always be compiled |
| Policies.Store | internal/policies/policies.go:199-245 | which refusal is given when, the failing store included; success sorts by client, keeps one policy per client and rebuilds the tables for exactly these, a refusal changes nothing |
| Policies.RefusalMeans | internal/policies/policies.go:199-245 | which refusal a policy in normal form meets |
| Policies.PlacedMeans | internal/policies/policies.go:222-240 | a saved policy is in its place and all others are kept |
| Policies.Save | internal/policies/policies.go:199-245 | normalises first; sound data stays sound and never fails to compile |
| Policies.RebuiltInAnyOrder | internal/policies/policies.go:199-245 | the tables do not depend on the order of the policies |
| Clients.FormatRoundTrip | internal/clients/clients.go:231-259 | the stored text of a network reads back as the same network |
| Clients.ParseMeans | internal/clients/clients.go:231-252 | what can be read, and which client addresses a network contains: those that share its leading bits, IPv4 inside IPv6 meaning IPv4 |
| Clients.Build | internal/clients/clients.go:78-100 | the buckets hold for every prefix the last enabled client that owns it |
| Clients.Lookup | internal/clients/clients.go:103-122 | finds an owner of the longest enabled prefix containing the address, or none contains it, mapped addresses included |
| Clients.BestIsUnique | internal/clients/clients.go:103-122 | with one owner per prefix the result does not depend on the order of clients |
| Clients.NormalClientOwns | internal/clients/clients.go:261-292 | a client is accepted exactly if its texts are short single lines and its 1 to 16 addresses can be read; what is stored owns exactly the networks entered, each once |
| Clients.Normalize | internal/clients/clients.go:261-292 | the loops give that client and its networks in order |
| Clients.Store | internal/clients/clients.go:166-209 | which refusal is given when, decided by the first clash; success sorts by name, indexes anew and keeps one owner per prefix, a refusal changes nothing |
| Clients.Save | internal/clients/clients.go:166-209 | normalises first, and refuses as invalid exactly what has no normal form |
| Clients.SharesNetwork | internal/clients/clients.go:182-187 | an existing client clashes exactly if it owns a network of the one to be saved |
| Input.ValuesMean | internal/clients/clients.go:280-290 | a list is read exactly if no entry is bad; then each value entered is there once and no other |
| Input.ValuesGrow | internal/clients/clients.go:280-290 | reading on only adds values at the end, so each stands where it was entered first |
| Input.ReadAll | internal/policies/policies.go:320-335 | the loop that skips blank entries and repeated values gives that list |
| Forwarding.Compile | internal/forwarding/forwarding.go:104-122 | the table holds the enabled rules by domain |
| Forwarding.Match | internal/forwarding/forwarding.go:131-148 | the loop over suffixes finds the closest enclosing entry |
| Forwarding.MatchIsMostSpecific | internal/forwarding/forwarding.go:131-148 | the rule matched is the enabled rule with the longest domain around the name, if any |
| Forwarding.MostSpecificIsUnique | internal/forwarding/forwarding.go:131-148 | there is at most one such rule |
| Forwarding.SaveAffectsOnlyReported | internal/forwarding/forwarding.go:187-227 | saving a rule changes the match of no name that is not at or below a reported domain, old and new on rename |
| Forwarding.DeleteAffectsOnlyReported | internal/forwarding/forwarding.go:229-250 | deleting a rule likewise |
| Forwarding.SaveReportsNormalDomains | internal/forwarding/forwarding.go:187-286 | reported domains are in normal form |
| Forwarding.UpstreamsMean | internal/forwarding/forwarding.go:269-284 | upstreams are accepted exactly if all are usable, none is the server itself and no two are the same; they keep their order |
| Forwarding.NormalizeUpstreams | internal/forwarding/forwarding.go:269-284 | the loop computes that list or finds a bad one |
| Forwarding.Normalize | internal/forwarding/forwarding.go:252-286 | the checks in their order compute the normal form of a rule |
| Forwarding.NormalizeRuleMeans | internal/forwarding/forwarding.go:252-288 | which rules are good, and what becomes of them |
| Forwarding.StoreMeans | internal/forwarding/forwarding.go:187-227 | which refusal is given when; otherwise the rule is in the list under its number and all others are kept |
| Forwarding.DeleteMeans | internal/forwarding/forwarding.go:229-244 | exactly the rule of the number goes |
| Forwarding.Service.Save | internal/forwarding/forwarding.go:187-227 | normalises, or refuses wildcards, bad domains, descriptions and upstreams; then rules, table and report are those of the specification |
| Forwarding.Service.Store | internal/forwarding/forwarding.go:187-227 | the part under the lock: duplicate domains and unknown identifiers are refused, else rule and table are replaced together |
| Forwarding.Service.Delete | internal/forwarding/forwarding.go:229-244 | rule and table are removed together, or nothing changes |
| Rewrites.Compile | internal/rewrites/rewrites.go:91-104 | the two tables hold, in order, the enabled exact and wildcard rules of each name |
| Rewrites.Match | internal/rewrites/rewrites.go:108-122 | exact rules win, then the wildcard rules of the closest parent |
| Rewrites.MatchMeans | internal/rewrites/rewrites.go:108-122 | a rule matches exactly if it is enabled and exact for the name, or is a wildcard of the closest parent that has one while nothing exact exists |
| Rewrites.BuildRecords | internal/rewrites/rewrites.go:133-164 | the loop builds one alias, or the addresses of the asked type |
| Rewrites.Answer | internal/rewrites/rewrites.go:133-164 | the reply is that of the matching rules |
| Rewrites.RewriteMeans | internal/rewrites/rewrites.go:133-164 | the reply field by field: the first alias alone, or the addresses of the asked type in order, kept for five minutes |
| Rewrites.RewriteIsChain | internal/rewrites/rewrites.go:133-164 | every rewrite answer is a chain from its question |
| ZoneRecords.Chunks | internal/zones/records.go:124-139 | the loop computes the pieces of a text |
| ZoneRecords.PiecesMakeText | internal/zones/records.go:124-139 | pieces of at most 255 bytes together are the text, none cuts a character, and all but the last are at most three bytes short |
| ZoneRecords.Normalize | internal/zones/records.go:30-99 | the loop over records computes the normal form or finds the zone invalid |
| ZoneRecords.NormalizeZoneIdempotent | internal/zones/records.go:30-99 | normalising a normalised zone changes nothing |
| ZoneRecords.NormalRecordRR | internal/zones/records.go:100-143 | every record of a normalised zone becomes a servable resource record |
| ZoneRecords.ServedAs | internal/zones/records.go:100-143 | owner, TTL, type and contents of the record served for each stored one |
| ZoneRecords.NormalizeRecordMeans | internal/zones/records.go:55-98 | a record is accepted exactly if its name denotes one in the zone and TTL, preference and data are permitted, and is stored as what it says |
| ZoneRecords.AcceptedZones | internal/zones/records.go:30-98 | exactly which zones are accepted |
| ZoneRecords.NormalizeZoneMeans | internal/zones/records.go:30-98 | what a zone becomes: lower case, defaults for server and contact, records one by one |
| Zones.NamesMembers | internal/zones/snapshot.go:52-80 | the names recorded as existing are the apex and everything at or above a record |
| Zones.GroupedAt | internal/zones/snapshot.go:52-80 | the records filed under a name are the zone's records of that owner, in order |
| Zones.BuildView | internal/zones/snapshot.go:34-84 | a view is built exactly for zones with valid identifiers and compatible records |
| Zones.CycleNeverEnds | internal/zones/snapshot.go:85-117 | a name that leads back to itself never ends |
| Zones.FollowAliases | internal/zones/snapshot.go:85-117 | following with a set of seen names succeeds exactly if aliases end within sixteen names |
| Zones.CheckLoops | internal/zones/snapshot.go:85-117 | the check passes exactly for snapshots whose aliases all end, across zones too |
| Zones.Compile | internal/zones/snapshot.go:34-119 | accepts exactly the zones that can be served together and builds their snapshot |
| Zones.CompileMeans | internal/zones/snapshot.go:34-119 | exactly which zones are served together: at most 256 with 10000 records, different names, no record twice, an alias alone, one TTL per record set, and every alias ending within sixteen names across zones |
| Zones.NormalizedReady | internal/zones/snapshot.go:34-119 | accepted zones are in normal form and servable |
| ZoneLookup.LookupView | internal/zones/snapshot.go:123-137 | SOA and default NS at the apex, otherwise the records of the type |
| ZoneLookup.FollowFrom | internal/zones/service.go:168-190 | the loop computes the trail of names and records |
| ZoneLookup.Answer | internal/zones/service.go:153-191 | the reply is that of the trail |
| ZoneLookup.EveryNameEnds | internal/zones/snapshot.go:85-117 | in an accepted snapshot aliases from every name end within sixteen names, whatever zone they start in |
| ZoneLookup.LookupNeverFails | internal/zones/service.go:153-191 | for every accepted snapshot and query the SERVFAIL exit is not taken |
| ZoneLookup.FindMeansResponsible | internal/zones/snapshot.go:25-33 | the zone found is the one with the longest name around the question |
| ZoneLookup.FollowMeans | internal/zones/service.go:168-190 | the trail is a path of names each an alias for the next, decided by the zones, with a name error exactly when the last name is no apex and nothing is at or below it |
| ZoneLookup.MeaningIsUnique | internal/zones/service.go:153-191 | a question has at most one such meaning |
| ZoneLookup.LookupMeans | internal/zones/service.go:153-191 | the reply says, field by field, the one and only meaning of the question: name error exactly if the last name does not exist, denials with the authority record of their zone, section 4.3.2 of RFC 1034 and section 2.2.2 of RFC 4592 |
| ZoneLookup.SelectMeans | internal/zones/snapshot.go:120-137 | the data of a name and type: its records in order, one authority record and at least one name server at the apex |
| ZoneLookup.DataIsRecordSet | internal/zones/snapshot.go:64-77 | what is answered for a name and type has one owner, one type, one TTL and no record twice |
| ZoneLookup.AnswerFromZones | internal/zones/service.go:153-191 | compiling zones and answering a query gives the meaning of the question, refuses exactly what compiling refuses, and stays silent only outside its class or outside all zones |
| ZoneLookup.FollowIsChain | internal/zones/service.go:168-190 | every trail is an alias chain from its first name |
| ZoneLookup.LookupIsChain | internal/zones/service.go:153-191 | every local answer is an alias chain from the question |
| ZoneLookup.CompiledIsServed | internal/zones/snapshot.go:34-119 | what an accepted snapshot guarantees to lookups |
| ZoneService.CompileAnyOrder | internal/zones/snapshot.go:34-119 | the order in which zones are listed does not change what they compile to |
| ZoneService.PublishedIsCompiled | internal/zones/service.go:86-111 | swapping the saved zone into the compiled snapshot gives what compiling the stored zones would give |
| ZoneService.ZoneCompiler | internal/zones/snapshot.go:34-119 | the zone compiler meets the laws the service relies on |
| ZoneService.ServedIsCompiled | internal/zones/service.go:86-111 | any listing of the stored zones compiles to the served snapshot |
| ZoneService.SaveKeepsCoherent | internal/zones/service.go:86-111 | a save keeps what is served equal to what is stored and changes only the zone asked for |
| ZoneService.PerformKeepsCoherent | internal/zones/service.go:49-141 | so does every operation; failures change nothing, updates follow their direct predecessor |
| ZoneService.AlwaysCoherent | internal/zones/service.go:49-141 | over every run the snapshot is what the stored zones compile to |
| ZoneService.ServedInEveryRun | internal/zones/service.go:49-141 | for the zone compiler itself: in every run any listing of the stored zones compiles to what is served |
| ZoneService.RevisionsCount | internal/zones/service.go:63-85 | over every run a zone's revisions are 1, 2, 3, …, one more for each update that succeeded |
| ZoneService.NoLostUpdate | internal/zones/service.go:63-84 | in every run an update that names the revision read earlier succeeds only if the zone is still exactly what was read |
| ZoneService.CreateMeans | internal/zones/service.go:49-61 | when a new zone is refused, and why |
| ZoneService.UpdateMeans | internal/zones/service.go:63-84 | when an update is refused, and why |
| ZoneService.DeleteMeans | internal/zones/service.go:112-136 | when a deletion is refused, and why |
| ZoneService.SaveKeepsContent | internal/zones/service.go:86-111 | a zone in normal form is saved with the content it was given |
| ZoneService.New | internal/zones/service.go:21-33 | starts from whatever is stored: refused exactly if it does not compile, and then serving what it compiles to |
| ZoneService.Service.SaveZone | internal/zones/service.go:86-111 | compiles, stores, publishes in this order; a failure leaves both alone |
| ZoneService.Service.CreateZone | internal/zones/service.go:49-62 | refuses given identifiers, else saves at revision 1 |
| ZoneService.Service.UpdateZone | internal/zones/service.go:63-85 | refuses unknown zones, other revisions, the last revision and foreign record identifiers |
| ZoneService.Service.DeleteZone | internal/zones/service.go:112-141 | removes the zone of the revision named from store and snapshot |
| Resolver.DryRunTellsTruth | internal/dns/resolver.go:107-213 | a dry run changes nothing, forwards in its trace exactly when the real query does and then names its route, and otherwise gives the same message, source and error |
| Resolver.Winner | internal/dns/explain.go:97-131 | the winner is the first terminal step, or the last blocking one of a blocked result |
| Resolver.DryRunIsExplained | internal/dns/explain.go:97-131 | the trace of every successful dry run holds the step that decided it |
| Resolver.WinnerExplains | internal/dns/explain.go:97-131 | and the winner shown is a step with that verdict |
| Resolver.AcceptedIsChain | internal/dns/forwarder.go:94-139 | a reply accepted from an upstream is a chain from the question |
| Resolver.ResultsAreClean | internal/dns/resolver.go:107-213 | every result that is not a block is a connected chain from the question with no blocked owner or alias target, and the cache keeps holding chains |
| Resolver.BlockedQuestionIsBlocked | internal/dns/resolver.go:107-122 | a question for a blocked name is answered by the block and reaches neither cache nor upstream |
| Resolver.FindPath | internal/dns/resolver.go:142-148 | every query has a path of alias tails that ends where nothing is left to follow |
| Resolver.ResolveCache | internal/dns/resolver.go:107-213 | a real query touches the cache for the last query of its path of alias tails only, and only if that goes beyond the local layers |
| ResolverMeaning.TailMeans | internal/dns/resolver.go:139-148 | exactly when a local answer is continued, and with which query |
| ResolverMeaning.EndIsTold | internal/dns/resolver.go:107-213 | what the last query of a path is told by filter, local layers, cache and upstream, and what it leaves in the cache |
| ResolverMeaning.ResolveMeans | internal/dns/resolver.go:107-213 | the first query is told the local answers along the path followed by the answer of the last, with response code, authority, additional records and route of the last; a block of the end blocks it, a failure fails it |
| ResolverMeaning.BlockedReplyMeans | internal/dns/filtering.go:10-25 | a block denies the name or, in the other mode, gives the null address to those who ask for an address |
| ResolverMeaning.AcceptMeans | internal/dns/forwarder.go:91-142 | a reply is passed on exactly if it can be trusted, with the identifier and question of the query and without the records the client did not ask for |
| ResolverMeaning.PlanRecords | internal/dns/resolver.go:113-146 | the steps a dry run records of filter and local layers |
| ResolverMeaning.RemoteRecords | internal/dns/resolver.go:165-213 | and of refusal, cache and route |
| ResolverImpl.AcceptReply | internal/dns/forwarder.go:94-139 | a reply is passed on exactly if it answers the question with an acceptable chain and no failure, without the records the client did not ask for |
| ResolverImpl.FirstBlocked | internal/dns/filtering.go:32-45 | the search finds the first blocked owner or target |
| ResolverImpl.Server.AskUpstream | internal/dns/resolver.go:202-212 | fetches, checks, normalises and stores as specified |
| ResolverImpl.Server.ReadRemote | internal/dns/resolver.go:162-212 | refuses without recursion, reads the cache, or peeks at it in a dry run, then goes upstream |
| ResolverImpl.Server.MakePlan | internal/dns/resolver.go:107-161 | filter, then local layers, then the filter on local answers, then the tail of an alias |
| ResolverImpl.Server.Resolve | internal/dns/resolver.go:107-213 | the recursive method computes outcome, trace and cache of the specification |
| ResolverImpl.Server.Query | internal/dns/resolver.go:80-82 | a query is told what it means, and cache and upstream see no more than that |
| ResolverImpl.Server.Explain | internal/dns/explain.go:97-131 | a dry run whose winner explains the outcome, leaving the cache unchanged |
| System.LocalMeans | internal/rewrites/rewrites.go:345-369 | a rewrite answers before any zone, a zone what no rewrite does |
| System.LocalIsChain | internal/rewrites/rewrites.go:345-369 | rewrites before zones: every local answer is a chain |
| System.NextKeepsInvariant | internal/app/app.go:282-285 | every query, dry run, rule change, zone change, expiry and flush keeps the cache coherent with the routes |
| System.AlwaysInvariant | internal/app/app.go:282-285 | so it holds after every run |
| System.HitsComeFromCurrentRoute | internal/forwarding/forwarding.go:187-250 | whatever the cache serves is what the route that matches now answered to the same request when it was stored, only aged |
| System.ChangesAreInvalidated | internal/app/app.go:282-285 | new zones and a new lifetime empty the cache, rewrites and rules clear the names at or below their domains |
| System.InvariantAnswers | internal/cache/cache.go:346-363 | in the running server cached messages have the question of their key, so that invalidating a domain reaches every entry below it |
| System.AnswersAreClean | internal/dns/resolver.go:107-213 | in every run and for every client, answers that are not blocks are clean chains |
| System.FilterStep | internal/dns/resolver.go:84-103 | the step a dry run records says blocked or allowed exactly if the explanation of the filter does |
| System.AnswersRespectRules | internal/dns/resolver.go:107-213 | in every run and for every client, no owner or alias target of an answer is blocked by the configured rules in force for that client |
| RateLimit.AlwaysHealthy | internal/dns/ratelimit.go:100-141 | in every run buckets stay between empty and full and the client table within 10,000 |
| RateLimit.WindowBound | internal/dns/ratelimit.go:127-141 | a purse that never holds more than the burst, nor more than it had and earned, pays at most burst plus earnings in any window |
| RateLimit.GlobalRateBound | internal/dns/ratelimit.go:100-141 | at most burst + globalQPS·T queries are accepted in any window of T seconds |
| RateLimit.ClientRateBound | internal/dns/ratelimit.go:100-141 | and per client burst + clientQPS·T when 600·clientQPS is at least the burst |
| RateLimit.PruningForgetsNothing | internal/dns/ratelimit.go:107-120 | an idle bucket is full again, hence can be forgotten, exactly when 600·clientQPS is at least the burst |
| RateLimit.PruningIsInvisible | internal/dns/ratelimit.go:100-125 | then every run decides as one whose table is never pruned, as long as no new client is turned away for a full table |
| RateLimit.ChargesAreFair | internal/dns/ratelimit.go:127-141 | the global bucket charges exactly the requests that fit, with those charged before, into every window of the budget |
| RateLimit.RefusedForAReason | internal/dns/ratelimit.go:100-125 | a refused query exceeds the budget of all queries or of its client in some window, or the table is full of clients seen lately |
| RateLimit.GrantedExactly | internal/dns/ratelimit.go:100-141 | when ten minutes refill the burst, a query is granted exactly if it fits into every window of both budgets and the table has room |
| RateLimit.BurstIsUsable | internal/dns/ratelimit.go:127-141 | no client is refused on its own account among its first grants, as many as the burst |
| RateLimit.Limiter.constructor | internal/dns/ratelimit.go:95-98 | starts with a full global bucket and no clients |
| RateLimit.Limiter.Prune | internal/dns/ratelimit.go:107-120 | removes exactly the buckets idle for more than ten minutes |
| RateLimit.Limiter.AllowQuery | internal/dns/ratelimit.go:100-125 | decides and updates buckets as specified; a refused client keeps its old bucket |
| DhcpPacket.ParseOptions | internal/dhcp/packet.go:191-216 | the index loop stays in bounds on any bytes and computes the options; what it reads can be written |
| DhcpPacket.MarshalOptions | internal/dhcp/packet.go:218-229 | writes every option once, in some order, and the end |
| DhcpPacket.OptionsRoundTrip | internal/dhcp/packet.go:191-229 | reading undoes writing for any order and anything after the end, exactly when codes are 1–254 and values at most 255 bytes |
| DhcpPacket.Marshal | internal/dhcp/packet.go:90-115 | writes the header of RFC 2131, the cookie, the options, and pads to 300 bytes |
| DhcpPacket.WireLayout | internal/dhcp/packet.go:90-115 | every field at its offset, most significant byte first, then the cookie, section 2 of RFC 2131 |
| DhcpPacket.WireOptions | internal/dhcp/packet.go:218-229 | every option lies behind the cookie as code, length and value |
| DhcpPacket.FieldMeans | internal/dhcp/packet.go:90-115 | what an address field and the hardware field hold for every address |
| DhcpPacket.FindNul | internal/dhcp/packet.go:231-238 | finds the first zero byte |
| DhcpPacket.ParsePacket | internal/dhcp/packet.go:41-87 | reads any bytes in bounds as the packet laid out there, or the right error |
| DhcpPacket.PacketRoundTrip | internal/dhcp/packet.go:41-115 | reading a written packet restores it without names, with four-byte addresses and the true hardware length, exactly when the options can be carried |
| DhcpPacket.PlainRoundTrip | internal/dhcp/packet.go:41-115 | a packet comes back unchanged exactly when it has the form reading gives |
| DhcpAddress.ContainsInterval | internal/dhcp/model.go:130-152 | a network is the interval from its lowest to its highest address |
| DhcpAddress.NextIP | internal/dhcp/pool.go:207-222 | byte-wise increment is the next address, except at zero and the top |
| DhcpAddress.NetworkAddr | internal/dhcp/model.go:130-140 | the byte edits give the pool's network address |
| DhcpAddress.BroadcastAddr | internal/dhcp/model.go:142-152 | the byte edits give the highest address |
| DhcpAddress.NetworkIsLowest | internal/dhcp/model.go:130-140 | that network address is the lowest one exactly when the prefix ends inside a byte or the next byte is zero |
| DhcpPool.ProperIsWalkable | internal/dhcp/pool.go:201-205 | masked networks of at most 31 bits and non-zero address are walked to their end |
| DhcpPool.FreeAreHosts | internal/dhcp/pool.go:170-199 | in those the walk considers exactly the host addresses that are not the gateway, leased or reserved for another |
| DhcpPool.WalkEnds | internal/dhcp/pool.go:201-222 | the walk reaches the broadcast address inside the network exactly for walkable networks |
| DhcpPool.Allocator.constructor | internal/dhcp/pool.go:23-47 | the tables are those of the running stored leases, later ones over earlier ones |
| DhcpPool.Allocator.MayUse | internal/dhcp/pool.go:158-168 | usable means neither leased to nor reserved for another client |
| DhcpPool.Allocator.AllocateFromRange | internal/dhcp/pool.go:170-199 | keeps a held address, else records the first address along the walk that can be granted, and fails only at the end of the walk; for every network in which the walk ends |
| DhcpPool.LowestFreeIsGranted | internal/dhcp/pool.go:170-199 | in a walkable network that is the lowest free address, and failure means there is none |
| DhcpPool.WalkStopsExactly | internal/dhcp/pool.go:170-222 | the walk for a client without a lease ends exactly in walkable networks and, from a broadcast address, if something beyond the network can be granted |
| DhcpPool.OutsideIsGranted | internal/dhcp/pool.go:170-222 | in the latter case what is granted lies above the network or is zero |
| DhcpPool.Allocator.AllocateForDiscover | internal/dhcp/pool.go:51-75 | reservation, then requested address, then range |
| DhcpPool.Allocator.AllocateForRequest | internal/dhcp/pool.go:78-106 | reservation or refusal, requested address or refusal, range |
| DhcpPool.Allocator.Release | internal/dhcp/pool.go:109-122 | removes lease and address |
| DhcpPool.Allocator.ExpireLeases | internal/dhcp/pool.go:138-155 | removes exactly the leases that are over, with their addresses, and returns them |
| DhcpPool.SeededConsistent | internal/dhcp/pool.go:23-47 | seeding gives inverse tables exactly if a running lease is followed by one of its client exactly when by one of its address |
| DhcpPool.OneToOneIsConsistent | internal/dhcp/pool.go:23-47 | in particular if one client means one address and conversely |
| DhcpPool.StoredConsistent | internal/database/migrations/012_dhcp.sql:24-35 | leases as the store can hold them, each address once, give inverse tables exactly if no client has two running leases |
| DhcpPool.TwoLeasesWitness | internal/dhcp/pool.go:23-47 | one client with two running leases gives tables that are not inverse |
| DhcpPool.StepKeepsConsistent | internal/dhcp/pool.go:51-155 | every operation keeps leases and addresses inverse and grants nothing another client holds |
| DhcpPool.AlwaysConsistent | internal/dhcp/pool.go:51-155 | so over every run |
| DhcpPool.HeldIsNeverGranted | internal/dhcp/pool.go:51-155 | over every run no two clients hold one address and none is granted another's |
| DhcpPool.ReservationIsKept | internal/dhcp/pool.go:51-107 | a reservation nobody else holds is offered to its owner whatever it asks for, and granted unless it asks for another |
| DhcpPool.RequestIsExact | internal/dhcp/pool.go:78-107 | a request is granted as asked or not at all, and exactly when |
| DhcpPool.GrantsAreProper | internal/dhcp/pool.go:51-107 | where every granted address comes from; none is reserved for another client unless already held |
| DhcpPool.HolderKeepsAddress | internal/dhcp/pool.go:170-176 | a client without reservation that asks for nothing keeps the address it holds |
| DhcpPool.LeavesOthers | internal/dhcp/pool.go:109-156 | release and expiry take exactly their leases with their addresses |
| DhcpPool.SeededIsLast | internal/dhcp/pool.go:23-47 | an allocator starts with the last running lease of each client |
| DhcpPool.RangeGrantIsDropped | internal/dhcp/pool.go:138-196 | a range grant is dropped by the next expiry |
| DhcpPool.RequestedIsGrantedAgain | internal/dhcp/pool.go:88-97 | a request grant leaves no record: the next request of another client is granted exactly if nobody held the address |
| DhcpPool.RequestedAgainLater | internal/dhcp/pool.go:78-106 | in every run any later request for it is granted exactly if no other client holds it then, and one does only if it was held at the first grant or granted from the range since |
| Restore.Installation.StageRestore | internal/backup/online.go:248-279 | a live stage becomes the pending restore, an old one is removed; what a failure at each step leaves |
| Restore.Installation.RollbackTo | internal/backup/online.go:399-422 | puts back the files a safety copy has |
| Restore.Installation.SwapIn | internal/backup/online.go:342-397 | keeps a safety copy and replaces both files, or rolls back, for a fault at any stage |
| Restore.Installation.PrepareStartup | internal/backup/online.go:284-328 | rolls back an unconfirmed restore, or applies a pending one, also when the state file cannot be written |
| Restore.Installation.ConfirmStartup | internal/backup/online.go:331-338 | an applied restore becomes completed |
| Restore.AlwaysTidy | internal/backup/online.go:248-338 | in every run a pending bundle is recorded as such and every token is in one place |
| Restore.WaitingKeepsSafety | internal/backup/online.go:284-397 | while a restore waits, the recorded safety copy is the pair live before it |
| Restore.AppliedIsWaiting | internal/backup/online.go:284-338 | the record says applied exactly while a restore waits |
| Restore.AppliedHasSafety | internal/backup/online.go:284-338 | applied implies that the safety copy is exactly the pair live before the swap |
| Restore.RollsBackUnlessSettled | internal/backup/online.go:284-338 | the next start rolls a restore back exactly when its swap is on record and neither a recorded confirmation nor a staging came between; then it brings back what was live before exactly if each file is unchanged or could be copied and put back |
| Restore.RollbackIsExact | internal/backup/online.go:399-422 | rolling back gives the old pair exactly when each file is as before, or was there before and can be put back |
| Restore.ConfirmedStays | internal/backup/online.go:331-338 | a confirmed restore is never rolled back; starts change nothing until another staging |
| Restore.AppliedIsUploaded | internal/backup/online.go:248-329 | in every run what a start swaps in is the upload staged last, before it expired |
| Restore.StagingIsSafe | internal/backup/online.go:248-282 | staging touches no live file and no safety copy; success and failure leave what is pending and on record as stated |
| Restore.ConfirmationCompletes | internal/backup/online.go:331-338 | confirming a waiting restore completes it and changes nothing else |
| Restore.RollbackStartMeans | internal/backup/online.go:284-304 | what a start that finds an unconfirmed restore puts on record |
| Restore.ApplyStartMeans | internal/backup/online.go:305-329 | what any other start leaves pending and on record |
| Restore.SwapsMeans | internal/backup/online.go:342-397 | exactly when the swap works |
| Restore.SafetyIsTaken | internal/backup/online.go:342-397 | the safety copy is kept under its name beside the others |
| Restore.AppliedOnce | internal/backup/online.go:248-328 | each staged bundle is applied at most once |
| Restore.FailedSwapKeepsLive | internal/backup/online.go:342-397 | a start that fails to apply leaves a file as it was exactly if it did not get to it, could put it back, or both are the same |
| Restore.UnrecordedStays | internal/backup/online.go:319-328 | after a swap that could not be recorded, no start and no confirmation changes anything until another backup is staged |
| Versions.JoinSplit | internal/update/release.go:197-263 | splitting loses nothing |
| Versions.ValidVersion | internal/update/release.go:183-195 | three numbers below 2^64 before the first dash |
| Versions.PrecedenceTotal | internal/update/release.go:197-263 | precedence of parsed versions is a total order, section 11 of Semantic Versioning 2.0.0 |
| Versions.PrecedenceMeans | internal/update/release.go:197-263 | it is the order of section 11: first differing number, release above its pre-releases, first differing identifier, numbers below texts, fewer identifiers first |
| Versions.CompareVersions | internal/update/release.go:197-263 | the loops compute precedence, except that ambiguous texts compare as smaller; greater exactly if the other is no version or below |
| Versions.ComparedMeans | internal/update/release.go:197-263 | what each result says about two version texts |
| Versions.ComparedIsPrecedence | internal/update/release.go:197-263 | the comparison is precedence exactly for unambiguous texts, and positive exactly when precedence is |
| Versions.CanonicalIsUnambiguous | internal/update/release.go:197-263 | texts without leading zeros are unambiguous |
| Versions.ComparedIsTotal | internal/update/release.go:197-263 | on those the comparison is antisymmetric, transitive and zero only for equal versions |
| Versions.AmbiguousWitness | internal/update/release.go:197-263 | two texts each called the smaller |
| Release.FindAssets | internal/update/release.go:124-132 | the last asset of each name |
| Release.Consider | internal/update/release.go:116-135 | a candidate is considered exactly if published, valid, on the channel, newer and complete |
| Release.Choose | internal/update/release.go:114-154 | the first greatest eligible release, or none is eligible, or some eligible one is untrusted |
| Release.OrderIsIrrelevant | internal/update/release.go:114-154 | the listing's order changes neither the kind of outcome nor the version |
| Release.ChosenIsNewer | internal/update/release.go:114-154 | what is chosen is strictly newer than what is installed |
| Release.ChosenMeans | internal/update/release.go:114-154 | what is chosen is listed, no draft, on the channel, above what is installed, has both files, from the repository where that is demanded, and nothing offered is above it |
| Release.OfferedMeans | internal/update/release.go:116-135 | exactly which releases are on offer |
| Release.TrustedMeans | internal/update/release.go:136-145 | exactly where files may come from |
| Release.ChannelMeans | internal/update/release.go:169-181 | releases and candidates are stable, a beta is one that is no alpha, all else is alpha |
| Release.UrlMeans | internal/update/release.go:124-132 | the last asset of a name gives the address |
| Sorting.SortIsUnique | internal/cluster/cluster.go:228-241 | where keys decide there is one sorted arrangement |
| Sorting.SortIsDetermined | internal/cluster/cluster.go:228-241 | the sorted arrangement of a list is determined exactly if elements with one key are equal |
| Sorting.Sort | internal/cluster/cluster.go:228-241 | gives a sorted arrangement of the same elements, and leaves alone what is sorted |
| Cluster.BuildSnapshot | internal/cluster/cluster.go:219-246 | the items are the non-secondary zones, in order of name, with their records in order |
| Cluster.SameZone | internal/cluster/service.go:607-611 | equal digests mean that the zone is published as the item is, hence equal contents, and conversely where the order of entries is determined |
| Cluster.PutItem | internal/cluster/service.go:577-598 | creates, skips or updates one zone so that it matches the item, or changes nothing |
| Cluster.PutAll | internal/cluster/service.go:577-598 | after the loop every item is held and zones not named are untouched |
| Cluster.Prune | internal/cluster/service.go:599-605 | deletes the unwanted zones in any order |
| Cluster.Apply | internal/cluster/service.go:569-605 | success makes the replica's own zones the snapshot's; in any case each zone is wholly old or wholly wanted and secondary zones are untouched |
| Cluster.RebuiltIsSame | internal/cluster/cluster.go:219-246 | a replica that applied a snapshot publishes that snapshot, hence the same revision, ties included |
| Cluster.OrderingExists | internal/cluster/cluster.go:228-241 | sorting by insertion meets what is asked of the sort |
| Cluster.RevisionIsOfData | internal/cluster/cluster.go:217-218 | the revision changes only when data changes exactly if no zone has two different records of one name, type and value |
| Cluster.Replicate | internal/cluster/service.go:569-605 | publishing on one server, applying on another and publishing there gives the same snapshot whenever applying succeeds |
| Cluster.TiedZoneIsServed | internal/cluster/cluster.go:228-238 | two mail exchangers that differ in priority only make a zone that is served and whose records have no determined order |
| Cluster.SnapshotIsProper | internal/cluster/cluster.go:219-246 | a snapshot of stored zones has distinct names and normalised zones |
| Cluster.Replica.PullAndApply | internal/cluster/service.go:555-564 | the revision is recorded only after success and an applied one is not applied again |

## Left out

- HTTP handlers, the web interface, scripts, process control and configuration parsing: plumbing that would add only easy members.
- Sockets, TLS, DNS over HTTPS and QUIC, zone transfers and TSIG: I/O over libraries that are not part of this model; the upstream is an arbitrary function whose replies pass the checks of the forwarder.
- DNSSEC validation: rests on library cryptography; the authenticated flag of a reply is taken as given.
- SQL and drivers: repositories are parameters with the contract their interfaces state. The order in which a reloaded zone lists its records (by record identifier) is not modelled; a zone is stored in the order it was saved.
- Hashes, signatures and encryption: the digest of a snapshot stands for its contents, and a random token is one that was never handed out.
- Query logs, metrics, webhooks, upstream health, node and replication wiring: small state with easy members.
- Text layer of names: a name is its labels, so trimming of white space, escapes, a trailing dot in keys and non-ASCII case folding are not modelled; host names are ASCII. Trimming, case folding and lower case of client names are parameters, and a character of a text stands for a byte of it. Go's string order on dotted names is an arbitrary total order in `Cluster.dfy`, and its sort any function that sorts and leaves sorted lists alone.
- UTF-8: the structure of leading and continuation bytes is modelled, overlong and surrogate encodings are not.
- Cache listing (`FindEntries`, paging) and the statistics view: read-only views of the modelled list.
- Saving, hints and deleting of rewrite rules; refreshing and scheduling of block lists; forgetting a client's policy: same pattern as the saves that are modelled.
- Joining, leaving and role changes of cluster nodes, and retries of a failed apply: only what a successful or failed apply leaves behind is proved, since zones are replaced one at a time and a transient alias loop across zones can be refused.
- Parsing of upstream address texts and of listener addresses: a function reads an address and another says which are the server's own.
- Sorting of listed zones by name for display.
- Queries in flight across rule changes, and crashes in the middle of replacing files: each call is one step, within which its faults are modelled.
- Write-ahead-log side files of the database: the database file stands for its contents after the checkpoint.
- Floating point in the rate limiter: tokens and seconds are real numbers.
- IPv6 in DHCP pools: the pool's byte arithmetic is for four bytes only.
- DhcpPacket.Marshal: names (server name and boot file) are not written, as in the source, although they are read.
- ZoneRecords.NormalizeZoneIdempotent: that the standard text of an IP address reads back as itself is taken from the library too.
- ZoneRecords.Normalize: which texts are IP addresses, and their standard text, are taken from the library; the model knows whether a text is standard, another form of an address, or none.
- CacheImpl.Cache.Invalidate: asks that every stored message has a question, since the source reads past the end of one that has none; the forwarder gives every reply the question asked.
